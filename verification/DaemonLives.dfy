/** The life of a session: exactly which event kills it, of what, and what else an event may do to its record. */
module DaemonLives {
  import opened Wrappers
  import opened Constants
  import opened Decimal
  import opened Daemon
  import opened DaemonInvariants
  import opened DaemonOutput
  import N = Notifications
  import P = Persistence
  import R = Registry
  import RB = RingBuffer
  import S = Session

  predicate IsOpen(st: State, c: nat) {
    c < |st.conns| && !st.conns[c].closed
  }

  /** The open connection is a cb's, attached to session `h`. */
  predicate Attached(st: State, c: nat, h: nat) {
    IsOpen(st, c) && st.conns[c].role == Cb && st.conns[c].session == Some(h)
  }

  /** What the event kills session `h` of, if it does. */
  function KilledBy(st: State, e: Event, h: nat): Option<Cause>
    requires h < |st.heap|
  {
    var s := st.heap[h];
    if s.status == S.Dead then None
    else
      match e
      case Received(c, f, now) => if Attached(st, c, h) && f.Bye? then Some(ByeFrame(f.exitCode)) else None
      case Tick(c, now) =>
        if Attached(st, c, h) && !st.conns[c].destroyed && s.missedPongs >= 3 then Some(HeartbeatLost) else None
      case Close(c, now) => if Attached(st, c, h) && s.sock == Some(c) then Some(PipeClosed) else None
      case PidPoll(gone, now) => if h in st.reg && (s.pid <= 0 || h in gone) then Some(PidGone) else None
      case Inject(g, probe, throws, now) =>
        if g == h && s.sock.Some? && s.sock.value < |st.conns| && !st.conns[s.sock.value].destroyed && probe == S.Gone
        then Some(PidGoneInject) else None
      case _ => None
  }

  /** The same session, as far as it never changes. */
  predicate SameSelf(s: S.SessionData, t: S.SessionData) {
    t.id == s.id && t.pid == s.pid && t.startedAt == s.startedAt
  }

  /** The session neither dies nor comes back. */
  predicate SameLife(s: S.SessionData, t: S.SessionData) {
    SameSelf(s, t) && t.status == s.status && t.diedAt == s.diedAt && (s.status == S.Dead ==> t.sock == None)
  }

  /** Session `h` has died of `cause`, at `now`, and the listeners have been called for it. */
  ghost predicate DiedOf(st: State, t: State, h: nat, cause: Cause, now: int)
    requires h < |st.heap|
  {
    && h < |t.heap| && SameSelf(st.heap[h], t.heap[h]) && t.heap[h].name == st.heap[h].name
    && t.heap[h].status == S.Dead && t.heap[h].diedAt == Some(now) && t.heap[h].sock == None
    && st.deaths <= t.deaths
    && exists i :: |st.deaths| <= i < |t.deaths| && t.deaths[i] == Death(h, st.heap[h].id, st.heap[h].name, cause, Clients(st.peers))
  }

  /** Session `h` has not died: nobody was called for it. */
  ghost predicate LivesOn(st: State, t: State, h: nat)
    requires h < |st.heap|
  {
    && h < |t.heap| && SameLife(st.heap[h], t.heap[h])
    && st.deaths <= t.deaths
    && forall i | |st.deaths| <= i < |t.deaths| :: t.deaths[i].handle != h
  }

  // ---------- handlers ----------

  lemma MarkDeadIs(st: State, g: nat, cause: Cause, now: int, h: nat)
    requires h < |st.heap| && (st.heap[h].status == S.Dead ==> st.heap[h].sock == None)
    ensures var t := MarkDead(st, g, cause, now);
            && |t.heap| == |st.heap| && t.peers == st.peers && t.reg == st.reg
            && (if g == h && st.heap[h].status == S.Alive then DiedOf(st, t, h, cause, now)
                else LivesOn(st, t, h) && t.heap[h] == st.heap[h])
  {
    hide N.FanoutDead, P.MarkEnded, ReasonText, ExitCodeIn, Clients, Destroyed;
    var t := MarkDead(st, g, cause, now);
    if g == h && st.heap[h].status == S.Alive {
      assert t.deaths[|st.deaths|].handle == h;
    }
  }

  /** Nothing that matters for the death of `h` differs between the states. */
  ghost predicate SameForDeath(st: State, u: State, h: nat)
    requires h < |st.heap|
  {
    && h < |u.heap| && u.deaths == st.deaths && u.peers == st.peers
    && SameSelf(st.heap[h], u.heap[h]) && u.heap[h].name == st.heap[h].name
    && u.heap[h].status == st.heap[h].status && u.heap[h].diedAt == st.heap[h].diedAt
    && (st.heap[h].status == S.Dead ==> u.heap[h].sock == None)
  }

  lemma DiesFrom(st: State, u: State, g: nat, cause: Cause, now: int, h: nat)
    requires h < |st.heap| && SameForDeath(st, u, h)
    ensures var t := MarkDead(u, g, cause, now);
            if g == h && st.heap[h].status == S.Alive then DiedOf(st, t, h, cause, now) else LivesOn(st, t, h)
  {
    MarkDeadIs(u, g, cause, now, h);
    hide MarkDead, Clients;
  }

  lemma StaysFrom(st: State, u: State, h: nat)
    requires h < |st.heap| && SameForDeath(st, u, h)
    ensures LivesOn(st, u, h)
  {
  }

  ghost predicate Polled(st: State, n: nat, gone: set<nat>, h: nat)
    requires n <= |st.reg| && h < |st.heap|
  {
    st.heap[h].status == S.Alive && (exists i :: 0 <= i < n && st.reg[i] == h) && (st.heap[h].pid <= 0 || h in gone)
  }

  lemma PolledNext(st: State, n: nat, gone: set<nat>, h: nat)
    requires 0 < n <= |st.reg| && h < |st.heap|
    ensures var hit := st.reg[n - 1] == h && st.heap[h].status == S.Alive && (st.heap[h].pid <= 0 || h in gone);
            Polled(st, n, gone, h) <==> Polled(st, n - 1, gone, h) || hit
  {
  }

  lemma {:induction false} PidPollIs(st: State, n: nat, gone: set<nat>, now: int, h: nat)
    requires n <= |st.reg| && h < |st.heap| && (st.heap[h].status == S.Dead ==> st.heap[h].sock == None)
    ensures var t := PidPollFirst(st, n, gone, now);
            && |t.heap| == |st.heap| && t.peers == st.peers
            && (if Polled(st, n, gone, h) then DiedOf(st, t, h, PidGone, now) else LivesOn(st, t, h) && t.heap[h] == st.heap[h])
    decreases n
  {
    if n > 0 {
      PidPollNext(st, n, gone, now);
      PolledNext(st, n, gone, h);
      hide MarkDead, Clients, PidPollFirst, Polled;
      var t, g := PidPollFirst(st, n - 1, gone, now), st.reg[n - 1];
      PidPollIs(st, n - 1, gone, now, h);
      MarkDeadIs(t, g, PidGone, now, h);
    }
  }

  lemma AcceptLives(st: State, c: nat, m: HelloMsg, now: int, h: nat)
    requires c < |st.conns| && h < |st.heap| && (st.heap[h].status == S.Dead ==> st.heap[h].sock == None)
    ensures LivesOn(st, AcceptCb(st, c, m, now), h)
  {
    hide Accepted, Prior, Registered, R.Resolved, P.AddOrUpdate, N.FanoutAdded, Put, Without, S.ProcessAlive, Clients;
  }

  lemma FrameKills(st: State, c: nat, f: Frame, now: int, h: nat)
    requires IsOpen(st, c) && h < |st.heap| && (st.heap[h].status == S.Dead ==> st.heap[h].sock == None)
    requires st.conns[c].role == Cb ==> st.conns[c].session.Some? && st.conns[c].session.value < |st.heap|
    ensures Outcome(st, Dispatch(st, c, f, now), Received(c, f, now), h)
  {
    hide AcceptCb, AcceptMcp, MarkDead, N.Drained, Base64.DecodeStrict, S.WithStdout, Clients, DestroyConn;
    match st.conns[c].role {
      case Unknown =>
        if f.Hello? {
          AcceptLives(st, c, f.hello, now, h);
        } else {
          FirstFrameLives(st, c, f, h);
        }
      case Cb =>
        var g := st.conns[c].session.value;
        if f.Bye? {
          DiesFrom(st, st, g, ByeFrame(f.exitCode), now, h);
        } else {
          CbFrameLives(st, g, f, now, h);
        }
      case Mcp => StaysFrom(st, Dispatch(st, c, f, now), h);
    }
  }

  lemma FirstFrameLives(st: State, c: nat, f: Frame, h: nat)
    requires c < |st.conns| && h < |st.heap| && (st.heap[h].status == S.Dead ==> st.heap[h].sock == None)
    ensures LivesOn(st, DestroyConn(st, c), h)
    ensures f.McpHello? ==> LivesOn(st, AcceptMcp(st, c, f.secretOk, f.clientId), h)
  {
  }

  lemma CbFrameLives(st: State, g: nat, f: Frame, now: int, h: nat)
    requires !f.Bye? && h < |st.heap| && g < |st.heap| && (st.heap[h].status == S.Dead ==> st.heap[h].sock == None)
    ensures LivesOn(st, CbFrame(st, g, f, now), h)
  {
    hide Base64.DecodeStrict, RB.Evict, RB.Stored;
  }

  /** What an event does to the life of a session. */
  ghost predicate Outcome(st: State, t: State, e: Event, h: nat)
    requires h < |st.heap|
  {
    match KilledBy(st, e, h)
    case Some(cause) => DiedOf(st, t, h, cause, e.now)
    case None => LivesOn(st, t, h)
  }

  lemma TickKills(st: State, c: nat, now: int, h: nat)
    requires IsOpen(st, c) && ConnFacts(st.conns[c], c, st.heap) && h < |st.heap|
    requires st.heap[h].status == S.Dead ==> st.heap[h].sock == None
    ensures Outcome(st, HeartbeatTick(st, c, now), Tick(c, now), h)
  {
    hide MarkDead, Clients;
    var conn := st.conns[c];
    if conn.heartbeat && !conn.destroyed && conn.session.Some? {
      var g := conn.session.value;
      var u := WithSession(st, g, At(st.heap, g).(missedPongs := At(st.heap, g).missedPongs + 1));
      DiesFrom(st, u, g, HeartbeatLost, now, h);
      StaysFrom(st, u, h);
    } else {
      StaysFrom(st, st, h);
    }
  }

  lemma CloseKills(st: State, c: nat, now: int, h: nat)
    requires IsOpen(st, c) && ConnFacts(st.conns[c], c, st.heap) && h < |st.heap|
    requires st.heap[h].status == S.Dead ==> st.heap[h].sock == None
    ensures Outcome(st, HandleClose(st, c, now), Close(c, now), h)
  {
    hide MarkDead, Clients, N.Disconnected, WithoutPeer;
    var conn := st.conns[c];
    var u := st.(conns := st.conns[c := conn.(heartbeat := false, destroyed := true, closed := true)]);
    if conn.session.Some? {
      DiesFrom(st, u, conn.session.value, PipeClosed, now, h);
    }
  }

  lemma InjectKills(st: State, g: nat, probe: S.Probe, throws: bool, now: int, h: nat)
    requires g < |st.heap| && h < |st.heap| && (st.heap[h].status == S.Dead ==> st.heap[h].sock == None)
    ensures Outcome(st, InjectInto(st, g, probe, throws, now), Inject(g, probe, throws, now), h)
  {
    hide MarkDead, Clients, S.InjectDecision;
    S.InjectDecides(At(st.heap, g).status, PipeOpen(st, g), probe, throws, 0);
    DiesFrom(st, st, g, PidGoneInject, now, h);
  }

  lemma DeadHasNoSock(st: State, h: nat)
    requires Inv(st) && h < |st.heap|
    ensures st.heap[h].status == S.Dead ==> st.heap[h].sock == None
  {
    assert SessionFacts(st.heap[h], h, st.conns);
  }

  lemma ConnOf(st: State, c: nat)
    requires Inv(st) && c < |st.conns|
    ensures ConnFacts(st.conns[c], c, st.heap)
  {
  }

  /**
   A session dies exactly of these: the bye of an attached connection, a heartbeat past the
   limit, the close of its socket, a poll or an inject that finds its process gone. Each
   death is recorded at the time of the event with its cause, for the clients connected then.
   */
  lemma StepKillsExactly(st: State, e: Event, h: nat)
    requires Inv(st) && h < |st.heap|
    ensures Outcome(st, Step(st, e), e, h)
  {
    DeadHasNoSock(st, h);
    hide Inv, Outcome;
    match e {
      case Received(c, f, now) => if IsOpen(st, c) { ConnOf(st, c); BoundExists(st, c); FrameKills(st, c, f, now, h); } else { OtherLives(st, e, h); }
      case Tick(c, now) => if IsOpen(st, c) { ConnOf(st, c); TickKills(st, c, now, h); } else { OtherLives(st, e, h); }
      case Close(c, now) => if IsOpen(st, c) { ConnOf(st, c); CloseKills(st, c, now, h); } else { OtherLives(st, e, h); }
      case PidPoll(gone, now) => PollKills(st, gone, now, h);
      case Inject(g, probe, throws, now) => if g < |st.heap| { InjectKills(st, g, probe, throws, now, h); } else { OtherLives(st, e, h); }
      case _ => OtherLives(st, e, h);
    }
    hide KilledBy, Dispatch, HeartbeatTick, HandleClose, PidPollFirst, InjectInto, N.Followup, N.WentIdle, Retained;
  }

  lemma PollKills(st: State, gone: set<nat>, now: int, h: nat)
    requires h < |st.heap| && (st.heap[h].status == S.Dead ==> st.heap[h].sock == None)
    ensures Outcome(st, PidPollFirst(st, |st.reg|, gone, now), PidPoll(gone, now), h)
  {
    PidPollIs(st, |st.reg|, gone, now, h);
    hide PidPollFirst, LivesOn, DiedOf;
  }

  /** Events that are not handled, and those that concern no session's life. */
  lemma OtherLives(st: State, e: Event, h: nat)
    requires h < |st.heap| && (st.heap[h].status == S.Dead ==> st.heap[h].sock == None)
    requires e.Received? || e.Tick? || e.Close? ==> !IsOpen(st, e.conn)
    requires !e.PidPoll? && (e.Inject? ==> e.handle >= |st.heap|)
    ensures Outcome(st, Step(st, e), e, h)
  {
    hide N.Followup, N.WentIdle, N.Expired, Retained;
    StaysFrom(st, Step(st, e), h);
  }

  lemma BoundExists(st: State, c: nat)
    requires c < |st.conns| && ConnFacts(st.conns[c], c, st.heap)
    ensures st.conns[c].role == Cb ==> st.conns[c].session.Some? && st.conns[c].session.value < |st.heap|
  {
  }

  lemma SweepIs(st: State, now: int)
    ensures Step(st, Sweep(now)) == st.(reg := Retained(st.heap, st.reg, now))
  {
    hide Retained;
  }

  /** A sweep takes exactly the sessions out of the registry that died more than five minutes ago, and does nothing else. */
  lemma SweepDropsExactly(st: State, now: int)
    requires Inv(st)
    ensures var t := Step(st, Sweep(now));
            && t == st.(reg := t.reg)
            && forall x: nat :: x in t.reg <==> x in st.reg && x < |st.heap| && !LongDead(st.heap[x], now)
  {
    InvReg(st);
    SweepIs(st, now);
    hide Inv, Retained, RegOk, LongDead, Step;
    RetainedFacts(st.heap, st.reg, now);
  }

  // ---------- birth ----------

  /** A hello resumes exactly a living registered session whose id it names and whose process is seen. */
  lemma ResumesExactly(st: State, m: HelloMsg)
    requires Inv(st)
    ensures Resumes(st, m) <==>
              exists i :: 0 <= i < |st.reg| && Resumable(st, m, st.reg[i])
    ensures forall i | 0 <= i < |st.reg| && Resumable(st, m, st.reg[i]) :: Prior(st, m) == Some(st.reg[i])
  {
    var ss := Registered(st.heap, st.reg);
    InvReg(st);
    assert forall i | 0 <= i < |st.reg| :: ss[i] == st.heap[st.reg[i]];
    hide Inv;
    var k := R.IndexOfId(ss, m.resume);
    if m.resume != "" && k.Some? {
      assert ss[k.value].id == m.resume;
      forall i | 0 <= i < |st.reg| && Resumable(st, m, st.reg[i]) ensures i == k.value {
        assert ss[i].id == ss[k.value].id;
      }
    }
  }

  predicate Resumable(st: State, m: HelloMsg, h: nat) {
    && m.resume != "" && h < |st.heap| && st.heap[h].id == m.resume && st.heap[h].status == S.Alive
    && st.heap[h].pid > 0 && (m.probe == S.Exists || m.probe == S.NoPermission)
  }

  /** An accepted hello on a fresh connection that resumes nobody. */
  predicate Founds(st: State, e: Event) {
    && e.Received? && IsOpen(st, e.conn) && st.conns[e.conn].role == Unknown && e.frame.Hello?
    && Accepted(e.frame.hello) && !Resumes(st, e.frame.hello)
  }

  /** A session as the hello describes it: alive, silent so far, on its connection. */
  predicate BornOf(s: S.SessionData, c: nat, m: HelloMsg, now: int) {
    && s.id == m.id && s.pid == m.pid && s.startedAt == m.startedAt
    && s.status == S.Alive && s.diedAt == None && s.sock == Some(c)
    && s.raw == [] && s.missedPongs == 0
    && s.lastOutputAt == now && s.lastActivityAt == now
    && s.lastUserInputAt == m.startedAt - 1501
  }

  lemma MarkDeadKeepsSize(st: State, h: nat, cause: Cause, now: int)
    ensures |MarkDead(st, h, cause, now).heap| == |st.heap|
  {
  }

  lemma {:induction false} PidPollKeepsSize(st: State, n: nat, gone: set<nat>, now: int)
    requires n <= |st.reg|
    ensures |PidPollFirst(st, n, gone, now).heap| == |st.heap|
    decreases n
  {
    if n > 0 {
      PidPollNext(st, n, gone, now);
      hide MarkDead, PidPollFirst;
      PidPollKeepsSize(st, n - 1, gone, now);
      MarkDeadKeepsSize(PidPollFirst(st, n - 1, gone, now), st.reg[n - 1], PidGone, now);
    }
  }

  lemma FrameKeepsSize(st: State, c: nat, f: Frame, now: int)
    requires IsOpen(st, c) && !Founds(st, Received(c, f, now))
    ensures |Dispatch(st, c, f, now).heap| == |st.heap|
  {
    hide MarkDead, N.Drained, Attach, Purged, Prior, Accepted, Base64.DecodeStrict, S.WithStdout;
    if f.Bye? && st.conns[c].session.Some? {
      MarkDeadKeepsSize(st, st.conns[c].session.value, ByeFrame(f.exitCode), now);
    }
  }

  lemma TimersKeepSize(st: State, c: nat, now: int)
    requires c < |st.conns|
    ensures |HeartbeatTick(st, c, now).heap| == |st.heap| && |HandleClose(st, c, now).heap| == |st.heap|
  {
    hide MarkDead, N.Disconnected, WithoutPeer;
    if st.conns[c].session.Some? {
      var g := st.conns[c].session.value;
      MarkDeadKeepsSize(WithSession(st, g, At(st.heap, g).(missedPongs := At(st.heap, g).missedPongs + 1)), g, HeartbeatLost, now);
      var t := st.(conns := st.conns[c := st.conns[c].(heartbeat := false, destroyed := true, closed := true)]);
      MarkDeadKeepsSize(t, g, PipeClosed, now);
    }
  }

  /** Nothing else makes a session. */
  lemma OthersKeepSize(st: State, e: Event)
    requires !Founds(st, e)
    ensures |Step(st, e).heap| == |st.heap|
  {
    hide Founds, Dispatch, HeartbeatTick, HandleClose, PidPollFirst, MarkDead, N.Followup, N.WentIdle, Retained, PipeOpen;
    match e {
      case Received(c, f, now) => if IsOpen(st, c) { FrameKeepsSize(st, c, f, now); }
      case Tick(c, now) => if IsOpen(st, c) { TimersKeepSize(st, c, now); }
      case Close(c, now) => if IsOpen(st, c) { TimersKeepSize(st, c, now); }
      case PidPoll(gone, now) => PidPollKeepsSize(st, |st.reg|, gone, now);
      case Inject(g, probe, throws, now) => MarkDeadKeepsSize(st, g, PidGoneInject, now);
      case _ =>
    }
  }

  lemma FoundsOne(st: State, e: Event)
    requires Founds(st, e)
    ensures var t := Step(st, e); |t.heap| == |st.heap| + 1 && BornOf(t.heap[|st.heap|], e.conn, e.frame.hello, e.now)
  {
    hide Accepted, Prior, Registered, R.Resolved, P.AddOrUpdate, N.FanoutAdded, Put, Without, S.ProcessAlive, Clients;
  }

  /** Sessions are made by founding hellos only, one each, as the hello describes them. */
  lemma BornByHello(st: State, e: Event, h: nat)
    requires |st.heap| <= h < |Step(st, e).heap|
    ensures Founds(st, e) && h == |st.heap| && BornOf(Step(st, e).heap[h], e.conn, e.frame.hello, e.now)
  {
    hide Founds, Step;
    if Founds(st, e) {
      FoundsOne(st, e);
    } else {
      OthersKeepSize(st, e);
    }
  }

  // ---------- whole runs ----------

  /** Event `k` of the run kills session `h`. */
  ghost predicate KillsAt(init: State, es: seq<Event>, k: nat, h: nat) {
    k < |es| && h < |Run(init, es[..k]).heap| && KilledBy(Run(init, es[..k]), es[k], h).Some?
  }

  /** Session `h` of `t` died with event `k` of the run, of its cause and at its time. */
  ghost predicate DiedAt(init: State, es: seq<Event>, k: nat, t: State, h: nat) {
    && KillsAt(init, es, k, h) && h < |t.heap|
    && t.heap[h].status == S.Dead && t.heap[h].diedAt == Some(es[k].now)
    && exists i :: 0 <= i < |t.deaths| && t.deaths[i].handle == h
                   && Some(t.deaths[i].cause) == KilledBy(Run(init, es[..k]), es[k], h)
  }

  lemma KillsAtPrefix(init: State, es: seq<Event>, k: nat, h: nat)
    requires es != [] && k < |es| - 1
    ensures KillsAt(init, es[..|es| - 1], k, h) <==> KillsAt(init, es, k, h)
  {
    hide Run, KilledBy;
    assert es[..|es| - 1][..k] == es[..k];
  }

  lemma NotBornBefore(init: State, es: seq<Event>, k: nat, h: nat)
    requires Inv(init) && k <= |es| && h >= |Run(init, es).heap|
    ensures h >= |Run(init, es[..k]).heap|
  {
    hide Inv, Run;
    assert es == es[..k] + es[k..];
    RunAppend(init, es[..k], es[k..]);
    RunInv(init, es[..k]);
    HeapGrows(Run(init, es[..k]), es[k..]);
  }

  lemma KillingEvent(init: State, es: seq<Event>, h: nat)
    requires Inv(init) && es != [] && h < |Run(init, es[..|es| - 1]).heap|
    ensures Outcome(Run(init, es[..|es| - 1]), Run(init, es), es[|es| - 1], h)
    ensures KillsAt(init, es, |es| - 1, h) <==> KilledBy(Run(init, es[..|es| - 1]), es[|es| - 1], h).Some?
  {
    RunInv(init, es[..|es| - 1]);
    hide Inv, Step, KilledBy, Outcome;
    StepKillsExactly(Run(init, es[..|es| - 1]), es[|es| - 1], h);
  }

  lemma DiedNow(init: State, es: seq<Event>, h: nat)
    requires es != [] && h < |Run(init, es[..|es| - 1]).heap|
    requires Outcome(Run(init, es[..|es| - 1]), Run(init, es), es[|es| - 1], h) && KillsAt(init, es, |es| - 1, h)
    ensures DiedAt(init, es, |es| - 1, Run(init, es), h)
  {
    hide Run, KilledBy, Clients;
  }

  lemma DiedEarlier(init: State, es: seq<Event>, k: nat, h: nat)
    requires es != [] && DiedAt(init, es[..|es| - 1], k, Run(init, es[..|es| - 1]), h)
    requires LivesOn(Run(init, es[..|es| - 1]), Run(init, es), h)
    ensures DiedAt(init, es, k, Run(init, es), h)
  {
    KillsAtPrefix(init, es, k, h);
    assert es[..|es| - 1][..k] == es[..k];
    hide Run, KilledBy, KillsAt;
    var i :| 0 <= i < |Run(init, es[..|es| - 1]).deaths| && Run(init, es[..|es| - 1]).deaths[i].handle == h
             && Some(Run(init, es[..|es| - 1]).deaths[i].cause) == KilledBy(Run(init, es[..|es| - 1][..k]), es[..|es| - 1][k], h);
    assert Run(init, es).deaths[i] == Run(init, es[..|es| - 1]).deaths[i];
  }

  ghost predicate NeverKilled(init: State, es: seq<Event>, h: nat) {
    forall i: nat | i < |es| :: !KillsAt(init, es, i, h)
  }

  lemma StillNeverKilled(init: State, es: seq<Event>, h: nat)
    requires es != [] && NeverKilled(init, es[..|es| - 1], h) && !KillsAt(init, es, |es| - 1, h)
    ensures NeverKilled(init, es, h)
  {
    hide KillsAt;
    forall i: nat | i < |es| ensures !KillsAt(init, es, i, h) {
      if i < |es| - 1 {
        KillsAtPrefix(init, es, i, h);
      }
    }
  }

  lemma JustBorn(init: State, es: seq<Event>, h: nat)
    requires Inv(init) && es != [] && |Run(init, es[..|es| - 1]).heap| <= h < |Run(init, es).heap|
    ensures Run(init, es).heap[h].status == S.Alive && NeverKilled(init, es, h)
  {
    var front := es[..|es| - 1];
    BornByHello(Run(init, front), es[|es| - 1], h);
    hide Inv, KilledBy, Step, Run;
    forall i: nat | i < |es| ensures !KillsAt(init, es, i, h) {
      NotBornBefore(init, front, i, h);
      assert front[..i] == es[..i];
    }
  }

  /** What an event leaves of a session's story. */
  ghost predicate Story(init: State, es: seq<Event>, h: nat, k: nat) {
    && h < |Run(init, es).heap|
    && (Run(init, es).heap[h].status == S.Dead ==> DiedAt(init, es, k, Run(init, es), h))
    && (Run(init, es).heap[h].status == S.Alive ==> NeverKilled(init, es, h))
  }

  lemma StoryGoesOn(init: State, es: seq<Event>, h: nat, before: nat) returns (k: nat)
    requires Inv(init) && es != [] && Story(init, es[..|es| - 1], h, before)
    ensures Story(init, es, h, k)
  {
    var n := |es| - 1;
    var st, t := Run(init, es[..n]), Run(init, es);
    KillingEvent(init, es, h);
    hide Inv, Step, KilledBy, Run, KillsAt, DiedAt, NeverKilled;
    if KillsAt(init, es, n, h) {
      k := n;
      DiedNow(init, es, h);
      DiedIsDead(init, es, n, t, h);
    } else if st.heap[h].status == S.Dead {
      k := before;
      DiedEarlier(init, es, k, h);
      DiedIsDead(init, es, k, t, h);
    } else {
      k := before;
      StillNeverKilled(init, es, h);
    }
  }

  lemma DiedIsDead(init: State, es: seq<Event>, k: nat, t: State, h: nat)
    requires DiedAt(init, es, k, t, h)
    ensures h < |t.heap| && t.heap[h].status == S.Dead
  {
  }

  /**
   Over every run: a session is dead exactly if some event of the run killed it, in the sense
   of KilledBy; it died at that event's time, and the recorded death has its cause.
   */
  lemma {:induction false} DeadExactlyIfKilled(init: State, es: seq<Event>, h: nat) returns (k: nat)
    requires Inv(init) && h >= |init.heap| && h < |Run(init, es).heap|
    ensures Run(init, es).heap[h].status == S.Dead ==> DiedAt(init, es, k, Run(init, es), h)
    ensures Run(init, es).heap[h].status == S.Alive ==> NeverKilled(init, es, h)
    decreases |es|
  {
    assert es != [];
    hide Inv, Step, DiedAt, NeverKilled;
    k := 0;
    if h < |Run(init, es[..|es| - 1]).heap| {
      k := DeadExactlyIfKilled(init, es[..|es| - 1], h);
      k := StoryGoesOn(init, es, h, k);
    } else {
      JustBorn(init, es, h);
    }
  }
}
