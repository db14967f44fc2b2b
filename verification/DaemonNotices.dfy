/** How the daemon's events drive the notification center, so that what holds of every run of the center holds in the daemon. */
module DaemonNotices {
  import opened Wrappers
  import opened Constants
  import opened Decimal
  import opened Daemon
  import opened DaemonInvariants
  import N = Notifications
  import P = Persistence
  import R = Registry
  import S = Session

  /** The fan-out of a death, if the session was alive. */
  function DeathNote(st: State, h: nat, cause: Cause, now: int): seq<N.Event> {
    if h >= |st.heap| || st.heap[h].status == S.Dead then []
    else [N.Died(Clients(st.peers), st.heap[h].id, st.heap[h].name, ReasonText(cause), ExitCodeIn(ReasonText(cause)), now)]
  }

  function PollNotes(st: State, n: nat, gone: set<nat>, now: int): seq<N.Event>
    requires n <= |st.reg|
    decreases n
  {
    if n == 0 then []
    else
      var t, h := PidPollFirst(st, n - 1, gone, now), st.reg[n - 1];
      PollNotes(st, n - 1, gone, now) + (if At(t.heap, h).pid <= 0 || h in gone then DeathNote(t, h, PidGone, now) else [])
  }

  function HelloNotes(st: State, m: HelloMsg, now: int): seq<N.Event> {
    if !Accepted(m) || Resumes(st, m) then []
    else [N.Added(Clients(st.peers), m.id, R.Resolved(Registered(st.heap, Purged(st, m).reg), RequestedLabel(m), now), now)]
  }

  function FrameNotes(st: State, c: nat, f: Frame, now: int): seq<N.Event>
    requires c < |st.conns|
  {
    match st.conns[c].role
    case Unknown => if f.Hello? then HelloNotes(st, f.hello, now) else []
    case Cb => if f.Bye? && st.conns[c].session.Some? then DeathNote(st, st.conns[c].session.value, ByeFrame(f.exitCode), now) else []
    case Mcp => if f.DrainNotifications? then [N.Drain(st.conns[c].clientId)] else []
  }

  function TickNotes(st: State, c: nat, now: int): seq<N.Event>
    requires c < |st.conns|
  {
    var conn := st.conns[c];
    if conn.heartbeat && !conn.destroyed && conn.session.Some?
       && At(st.heap, conn.session.value).missedPongs + 1 > HEARTBEAT_MISS_LIMIT
    then DeathNote(st, conn.session.value, HeartbeatLost, now)
    else []
  }

  function CloseNotes(st: State, c: nat, now: int): seq<N.Event>
    requires c < |st.conns|
  {
    var conn := st.conns[c];
    match conn.role
    case Unknown => []
    case Cb =>
      if conn.session.Some? && At(st.heap, conn.session.value).sock == Some(c) then DeathNote(st, conn.session.value, PipeClosed, now) else []
    case Mcp => [N.Disconnect(conn.clientId)]
  }

  /** The center's events during one event of the daemon. */
  function Notes(st: State, e: Event): seq<N.Event> {
    match e
    case Received(c, f, now) => if Reaches(st, c) then FrameNotes(st, c, f, now) else []
    case Tick(c, now) => if Reaches(st, c) then TickNotes(st, c, now) else []
    case Close(c, now) => if Reaches(st, c) then CloseNotes(st, c, now) else []
    case PidPoll(gone, now) => PollNotes(st, |st.reg|, gone, now)
    case Inject(h, probe, throws, now) =>
      if S.InjectDecision(At(st.heap, h).status, PipeOpen(st, h), probe, throws, 0).killed then DeathNote(st, h, PidGoneInject, now) else []
    case InjectFollowup(c, h) =>
      if c < |st.conns| && st.conns[c].role == Mcp && h < |st.heap|
      then [N.Inject(N.Owner(st.conns[c].clientId, st.heap[h].id, st.heap[h].name))]
      else []
    case WatcherIdle(w, silentMs, now) => [N.Idle(w, silentMs, now)]
    case WatcherExpires(w) => [N.Expires(w)]
    case _ => []
  }

  function Trace(st: State, es: seq<Event>): seq<N.Event>
    decreases |es|
  {
    if es == [] then [] else Trace(st, es[..|es| - 1]) + Notes(Run(st, es[..|es| - 1]), es[|es| - 1])
  }

  // ---------- one event ----------

  lemma RunNothing(s: N.State)
    ensures N.Run(s, []) == s
  {
  }

  lemma RunOne(s: N.State, e: N.Event)
    ensures N.Run(s, [e]) == N.Step(s, e)
  {
    hide N.Step;
    assert [e][..0] == [];
  }

  lemma {:induction false} RunThen(s: N.State, a: seq<N.Event>, b: seq<N.Event>)
    ensures N.Run(s, a + b) == N.Run(N.Run(s, a), b)
    decreases |b|
  {
    hide N.Step;
    if b == [] {
      assert a + b == a;
    } else {
      assert (a + b)[..|a + b| - 1] == a + b[..|b| - 1];
      RunThen(s, a, b[..|b| - 1]);
    }
  }

  lemma MarkDeadDrives(st: State, h: nat, cause: Cause, now: int)
    ensures MarkDead(st, h, cause, now).notif == N.Run(st.notif, DeathNote(st, h, cause, now))
  {
    hide N.FanoutDead, N.Run, N.DeathKind, P.MarkEnded, ReasonText, ExitCodeIn, Clients, Destroyed;
    RunNothing(st.notif);
    if DeathNote(st, h, cause, now) != [] {
      RunOne(st.notif, DeathNote(st, h, cause, now)[0]);
    }
  }

  lemma {:induction false} PidPollDrives(st: State, n: nat, gone: set<nat>, now: int)
    requires n <= |st.reg|
    ensures PidPollFirst(st, n, gone, now).notif == N.Run(st.notif, PollNotes(st, n, gone, now))
    decreases n
  {
    hide N.Run, MarkDead, DeathNote;
    RunNothing(st.notif);
    if n > 0 {
      PidPollNext(st, n, gone, now);
      var t, h := PidPollFirst(st, n - 1, gone, now), st.reg[n - 1];
      PidPollDrives(st, n - 1, gone, now);
      MarkDeadDrives(t, h, PidGone, now);
      RunThen(st.notif, PollNotes(st, n - 1, gone, now), DeathNote(t, h, PidGone, now));
      assert PollNotes(st, n - 1, gone, now) + [] == PollNotes(st, n - 1, gone, now);
    }
  }

  lemma HelloDrives(st: State, c: nat, m: HelloMsg, now: int)
    requires c < |st.conns|
    ensures AcceptCb(st, c, m, now).notif == N.Run(st.notif, HelloNotes(st, m, now))
  {
    hide N.Run, N.FanoutAdded, Accepted, Registered, R.IndexOfId, R.Resolved, P.AddOrUpdate, Put, Without, S.ProcessAlive, RenamedAll, Clients;
    RunNothing(st.notif);
    if HelloNotes(st, m, now) != [] {
      RunOne(st.notif, HelloNotes(st, m, now)[0]);
    }
  }

  lemma FrameDrives(st: State, c: nat, f: Frame, now: int)
    requires c < |st.conns|
    ensures Dispatch(st, c, f, now).notif == N.Run(st.notif, FrameNotes(st, c, f, now))
  {
    hide N.Run, N.Drained, AcceptCb, HelloNotes, MarkDead, DeathNote, Base64.DecodeStrict, S.WithStdout, S.WithUserInput;
    RunNothing(st.notif);
    if f.Hello? {
      HelloDrives(st, c, f.hello, now);
    } else if f.Bye? && st.conns[c].session.Some? {
      MarkDeadDrives(st, st.conns[c].session.value, ByeFrame(f.exitCode), now);
    } else if f.DrainNotifications? {
      RunOne(st.notif, N.Drain(st.conns[c].clientId));
    }
  }

  lemma TickDrives(st: State, c: nat, now: int)
    requires c < |st.conns|
    ensures HeartbeatTick(st, c, now).notif == N.Run(st.notif, TickNotes(st, c, now))
  {
    hide N.Run, MarkDead, ReasonText, ExitCodeIn;
    RunNothing(st.notif);
    if st.conns[c].session.Some? {
      var h := st.conns[c].session.value;
      var t := WithSession(st, h, At(st.heap, h).(missedPongs := At(st.heap, h).missedPongs + 1));
      MarkDeadDrives(t, h, HeartbeatLost, now);
      assert DeathNote(t, h, HeartbeatLost, now) == DeathNote(st, h, HeartbeatLost, now);
    }
  }

  lemma CloseDrives(st: State, c: nat, now: int)
    requires c < |st.conns|
    ensures HandleClose(st, c, now).notif == N.Run(st.notif, CloseNotes(st, c, now))
  {
    hide N.Run, N.Disconnected, MarkDead, ReasonText, ExitCodeIn, WithoutPeer;
    RunNothing(st.notif);
    RunOne(st.notif, N.Disconnect(st.conns[c].clientId));
    var t := st.(conns := st.conns[c := st.conns[c].(heartbeat := false, destroyed := true, closed := true)]);
    if st.conns[c].session.Some? {
      MarkDeadDrives(t, st.conns[c].session.value, PipeClosed, now);
    }
  }

  /** Every event of the daemon drives the center by exactly the listed events. */
  lemma StepDrives(st: State, e: Event)
    ensures Step(st, e).notif == N.Run(st.notif, Notes(st, e))
  {
    hide N.Run, Dispatch, FrameNotes, HeartbeatTick, TickNotes, HandleClose, CloseNotes, PidPollFirst, PollNotes, MarkDead, DeathNote, Retained, PipeOpen, WithSession;
    RunNothing(st.notif);
    match e {
      case Received(c, f, now) => if Reaches(st, c) { FrameDrives(st, c, f, now); }
      case Tick(c, now) => if Reaches(st, c) { TickDrives(st, c, now); }
      case Close(c, now) => if Reaches(st, c) { CloseDrives(st, c, now); }
      case PidPoll(gone, now) => PidPollDrives(st, |st.reg|, gone, now);
      case Inject(h, probe, throws, now) => InjectDrives(st, h, probe, throws, now);
      case InjectFollowup(c, h) =>
        if Notes(st, e) != [] {
          RunOne(st.notif, Notes(st, e)[0]);
        }
      case WatcherIdle(w, silentMs, now) => RunOne(st.notif, N.Idle(w, silentMs, now));
      case WatcherExpires(w) => RunOne(st.notif, N.Expires(w));
      case _ =>
    }
  }

  lemma InjectDrives(st: State, h: nat, probe: S.Probe, writeThrows: bool, now: int)
    ensures h < |st.heap| ==> InjectInto(st, h, probe, writeThrows, now).notif == N.Run(st.notif, Notes(st, Inject(h, probe, writeThrows, now)))
    ensures h >= |st.heap| ==> Notes(st, Inject(h, probe, writeThrows, now)) == []
  {
    hide N.Run, MarkDead, ReasonText, ExitCodeIn;
    RunNothing(st.notif);
    MarkDeadDrives(st, h, PidGoneInject, now);
  }

  // ---------- whole runs ----------

  lemma {:induction false} RunDrives(st: State, es: seq<Event>)
    ensures Run(st, es).notif == N.Run(st.notif, Trace(st, es))
    decreases |es|
  {
    if es == [] {
      RunNothing(st.notif);
    } else {
      hide Step, Notes, N.Run;
      var front, e := es[..|es| - 1], es[|es| - 1];
      RunDrives(st, front);
      StepDrives(Run(st, front), e);
      RunThen(st.notif, Trace(st, front), Notes(Run(st, front), e));
    }
  }

  /** The event empties the client's queue: it drains it, or closes a connection under that client id. */
  ghost predicate EmptiesQueue(st: State, e: Event, client: string) {
    && ((e.Received? && e.frame.DrainNotifications?) || e.Close?)
    && Reaches(st, e.conn) && st.conns[e.conn].role == Mcp && st.conns[e.conn].clientId == client
  }

  ghost predicate NeverEmptied(st: State, es: seq<Event>, client: string) {
    forall i | 0 <= i < |es| :: !EmptiesQueue(Run(st, es[..i]), es[i], client)
  }

  ghost predicate NoneEmpties(ns: seq<N.Event>, client: string) {
    forall i | 0 <= i < |ns| :: !N.Empties(ns[i], client)
  }

  lemma {:induction false} PollEmptiesNothing(st: State, n: nat, gone: set<nat>, now: int, client: string)
    requires n <= |st.reg|
    ensures NoneEmpties(PollNotes(st, n, gone, now), client)
    decreases n
  {
    if n > 0 {
      hide MarkDead, PidPollFirst, ReasonText, ExitCodeIn;
      PollEmptiesNothing(st, n - 1, gone, now, client);
    }
  }

  lemma NotesEmptyNothing(st: State, e: Event, client: string)
    requires !EmptiesQueue(st, e, client)
    ensures NoneEmpties(Notes(st, e), client)
  {
    hide PollNotes, ReasonText, ExitCodeIn, PipeOpen, Accepted, Resumes, Registered, R.Resolved;
    if e.PidPoll? {
      PollEmptiesNothing(st, |st.reg|, e.gone, e.now, client);
    }
  }

  lemma {:induction false} TraceEmptiesNothing(st: State, es: seq<Event>, client: string)
    requires NeverEmptied(st, es, client)
    ensures NoneEmpties(Trace(st, es), client)
    decreases |es|
  {
    if es != [] {
      hide Run, Notes, EmptiesQueue, N.Empties;
      var front := es[..|es| - 1];
      assert forall i | 0 <= i < |front| :: front[i] == es[i] && front[..i] == es[..i];
      TraceEmptiesNothing(st, front, client);
      NotesEmptyNothing(Run(st, front), es[|es| - 1], client);
    }
  }

  /**
   Between two drains of the running daemon, whatever it handles in between: the second drain
   returns the last hundred (or all) of the events enqueued for the client since the first, in order.
   */
  lemma ClientDrainsTheTail(st: State, c: nat, now: int, es: seq<Event>)
    requires Inv(st) && Reaches(st, c) && st.conns[c].role == Mcp
    requires NeverEmptied(Step(st, Received(c, DrainNotifications, now)), es, st.conns[c].clientId)
    ensures var client, t := st.conns[c].clientId, Run(Step(st, Received(c, DrainNotifications, now)), es);
            && st.notif.log <= t.notif.log
            && var q, due := N.Get(t.notif.queues, client), N.LoggedFor(t.notif.log[|st.notif.log|..], client);
            && |q| == (if |due| < 100 then |due| else 100)
            && q == due[|due| - |q|..]
  {
    var client, d := st.conns[c].clientId, Step(st, Received(c, DrainNotifications, now));
    hide Inv, Step, Run, Trace, NeverEmptied, N.Drained, N.Run, N.LoggedFor, N.Inv;
    DrainIs(st, c, now);
    CenterInv(st);
    RunDrives(d, es);
    TraceEmptiesNothing(d, es, client);
    N.DrainReturnsTheTail(st.notif, Trace(d, es), client);
  }

  lemma DrainIs(st: State, c: nat, now: int)
    requires Reaches(st, c) && st.conns[c].role == Mcp
    ensures Step(st, Received(c, DrainNotifications, now)).notif == N.Drained(st.notif, st.conns[c].clientId)
  {
  }

  lemma CenterInv(st: State)
    requires Inv(st)
    ensures N.Inv(st.notif)
  {
  }

  /** In the running daemon too, a watcher that was superseded, cancelled or has expired never enqueues anything again. */
  lemma StoppedForever(st: State, es: seq<Event>, w: nat)
    requires w < |st.notif.owners| && w !in st.notif.live
    ensures N.Silent(st.notif, Run(st, es).notif, w)
  {
    RunDrives(st, es);
    N.StoppedWatcherStaysSilent(st.notif, Trace(st, es), w);
  }

  /**
   After a successful inject a watcher runs for the client and the session, stored under their
   key; every other watcher is as before, except the one under that key; nothing else changes.
   */
  lemma InjectStartsWatcher(st: State, c: nat, h: nat)
    requires Inv(st) && c < |st.conns| && st.conns[c].role == Mcp && h < |st.heap|
    ensures var t, w, key := Step(st, InjectFollowup(c, h)), |st.notif.owners|, N.Key(st.conns[c].clientId, st.heap[h].id);
            && t == st.(notif := t.notif)
            && t.notif.owners == st.notif.owners + [N.Owner(st.conns[c].clientId, st.heap[h].id, st.heap[h].name)]
            && w in t.notif.live && key in t.notif.watchers && t.notif.watchers[key] == w
            && (forall v | v != w :: v in t.notif.live <==>
                  v in st.notif.live && N.Key(st.notif.owners[v].client, st.notif.owners[v].sessionId) != key)
            && t.notif.queues == st.notif.queues && t.notif.log == st.notif.log
  {
    LiveHasOwner(st);
    var o := N.Owner(st.conns[c].clientId, st.heap[h].id, st.heap[h].name);
    CenterInv(st);
    N.FollowupStarts(st.notif, o);
    hide Inv, N.Followup, N.Key;
  }

  lemma LiveHasOwner(st: State)
    requires Inv(st)
    ensures forall v | v in st.notif.live :: v < |st.notif.owners|
  {
    hide Binding, RegOk, DeathsOk, PeersOk, NewsOk;
  }
}
