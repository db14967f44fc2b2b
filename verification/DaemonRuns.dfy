/** Whole runs of the daemon: deaths, announcements, sockets. */
module DaemonRuns {
  import opened Wrappers
  import opened Constants
  import opened Decimal
  import opened Daemon
  import opened DaemonInvariants
  import opened DaemonConns
  import Base64
  import N = Notifications
  import P = Persistence
  import R = Registry
  import S = Session

  // ---------- which event kills, and who hears of it ----------

  /** The causes an event can kill for, and the session if the event names one. */
  ghost predicate Fits(e: Event, d: Death) {
    match e
    case Received(c, f, now) => f.Bye? && d.cause == ByeFrame(f.exitCode)
    case Tick(c, now) => d.cause == HeartbeatLost
    case Close(c, now) => d.cause == PipeClosed
    case PidPoll(gone, now) => d.cause == PidGone
    case Inject(h, probe, throws, now) => d.cause == PidGoneInject && d.handle == h && !S.ProcessAlive(probe)
    case _ => false
  }

  ghost predicate NewDeaths(st: State, t: State, e: Event) {
    && t.peers == st.peers
    && st.deaths <= t.deaths
    && forall i | |st.deaths| <= i < |t.deaths| :: Fits(e, t.deaths[i]) && t.deaths[i].clients == Clients(st.peers)
  }

  lemma MarkDeadNews(st: State, h: nat, cause: Cause, now: int, e: Event)
    requires forall id, name, clients :: Fits(e, Death(h, id, name, cause, clients))
    ensures NewDeaths(st, MarkDead(st, h, cause, now), e)
  {
    hide N.FanoutDead, P.MarkEnded, ReasonText, ExitCodeIn, Clients;
  }

  lemma NewsTransitive(r: State, s: State, t: State, e: Event)
    requires NewDeaths(r, s, e) && NewDeaths(s, t, e)
    ensures NewDeaths(r, t, e)
  {
    hide Fits, Clients;
  }

  lemma {:induction false} PidPollNews(st: State, n: nat, gone: set<nat>, now: int)
    requires n <= |st.reg|
    ensures NewDeaths(st, PidPollFirst(st, n, gone, now), PidPoll(gone, now))
    decreases n
  {
    if n > 0 {
      var t, h := PidPollFirst(st, n - 1, gone, now), st.reg[n - 1];
      PidPollNews(st, n - 1, gone, now);
      MarkDeadNews(t, h, PidGone, now, PidPoll(gone, now));
      PidPollNext(st, n, gone, now);
      hide MarkDead, NewDeaths, PidPollFirst;
      NewsTransitive(st, t, MarkDead(t, h, PidGone, now), PidPoll(gone, now));
    }
  }

  lemma FrameNews(st: State, c: nat, f: Frame, now: int)
    requires c < |st.conns|
    ensures var t := Dispatch(st, c, f, now);
            && st.deaths <= t.deaths
            && forall i | |st.deaths| <= i < |t.deaths| ::
                 Fits(Received(c, f, now), t.deaths[i]) && t.deaths[i].clients == Clients(st.peers)
  {
    hide MarkDead, Clients, N.FanoutAdded, P.AddOrUpdate, R.Resolved;
    if f.Bye? && st.conns[c].session.Some? {
      MarkDeadNews(st, st.conns[c].session.value, ByeFrame(f.exitCode), now, Received(c, f, now));
    }
  }

  lemma TickNews(st: State, c: nat, now: int)
    requires c < |st.conns|
    ensures NewDeaths(st, HeartbeatTick(st, c, now), Tick(c, now))
  {
    hide MarkDead, Clients;
    if st.conns[c].session.Some? {
      var h := st.conns[c].session.value;
      var t := WithSession(st, h, At(st.heap, h).(missedPongs := At(st.heap, h).missedPongs + 1));
      MarkDeadNews(t, h, HeartbeatLost, now, Tick(c, now));
    }
  }

  lemma CloseNews(st: State, c: nat, now: int)
    requires c < |st.conns|
    ensures var t := HandleClose(st, c, now);
            && st.deaths <= t.deaths
            && forall i | |st.deaths| <= i < |t.deaths| ::
                 Fits(Close(c, now), t.deaths[i]) && t.deaths[i].clients == Clients(st.peers)
  {
    hide MarkDead, Clients, WithoutPeer, N.Disconnected;
    var conn := st.conns[c];
    var t := st.(conns := st.conns[c := conn.(heartbeat := false, destroyed := true, closed := true)]);
    if conn.session.Some? {
      MarkDeadNews(t, conn.session.value, PipeClosed, now, Close(c, now));
    }
  }

  /** Only byes, ticks, closes, pid polls and failed probes kill, each for its own cause, and every client connected at that moment is told. */
  lemma StepDeaths(st: State, e: Event)
    ensures var t := Step(st, e);
            && st.deaths <= t.deaths
            && forall i | |st.deaths| <= i < |t.deaths| :: Fits(e, t.deaths[i]) && t.deaths[i].clients == Clients(st.peers)
  {
    hide Dispatch, HeartbeatTick, HandleClose, PidPollFirst, MarkDead, Clients, N.Followup, N.WentIdle, Retained;
    match e {
      case Received(c, f, now) => if Reaches(st, c) { FrameNews(st, c, f, now); }
      case Tick(c, now) => if Reaches(st, c) { TickNews(st, c, now); }
      case Close(c, now) => if Reaches(st, c) { CloseNews(st, c, now); }
      case PidPoll(gone, now) => PidPollNews(st, |st.reg|, gone, now);
      case Inject(h, probe, throws, now) =>
        if !S.ProcessAlive(probe) {
          MarkDeadNews(st, h, PidGoneInject, now, e);
        }
      case _ =>
    }
  }

  /**
   Exactly-once death, over every run: the listeners have run once for a session if it is dead
   and never if it lives; the death events ever enqueued are, in order, one for each client
   connected at each death: session_exited with the integer of the bye frame, else session_dead.
   */
  lemma ExactlyOnceDeath(file: seq<P.Entry>, start: int, es: seq<Event>, h: nat)
    ensures var st := Run(Initial(file, start), es);
            && DeathCount(st.deaths, h) == (if h < |st.heap| && st.heap[h].status == S.Dead then 1 else 0)
            && DeathNews(st.notif.log) == Announced(st.deaths)
  {
    RunKeepsInv(file, start, es);
    DeathsInv(Run(Initial(file, start), es), h);
  }

  lemma DeathsInv(st: State, h: nat)
    requires Inv(st)
    ensures DeathCount(st.deaths, h) == (if h < |st.heap| && st.heap[h].status == S.Dead then 1 else 0)
    ensures DeathNews(st.notif.log) == Announced(st.deaths)
  {
    hide Binding, RegOk, PeersOk, N.Inv;
  }

  /** How many of these events went to one client. */
  function ToldTo(news: seq<Told>, client: string): nat {
    if news == [] then 0
    else ToldTo(news[..|news| - 1], client) + (if news[|news| - 1].client == client then 1 else 0)
  }

  /** With distinct client ids every client connected at a death hears of it exactly once, and nobody else does. */
  lemma {:induction false} ToldExactlyOnce(d: Death, client: string)
    requires forall i, j | 0 <= i < j < |d.clients| :: d.clients[i] != d.clients[j]
    ensures ToldTo(Announcement(d), client) == if client in d.clients then 1 else 0
    decreases |d.clients|
  {
    if d.clients != [] {
      var n := |d.clients| - 1;
      var e := d.(clients := d.clients[..n]);
      ToldExactlyOnce(e, client);
      hide KindFor;
      assert Announcement(d)[..n] == Announcement(e);
      assert d.clients == e.clients + [d.clients[n]];
    }
  }

  /** The pid poll kills exactly the registered sessions whose process is gone. */
  ghost predicate PollHits(st: State, n: nat, gone: set<nat>, h: nat)
    requires n <= |st.reg|
  {
    exists i :: 0 <= i < n && st.reg[i] == h && (At(st.heap, h).pid <= 0 || h in gone)
  }

  lemma {:induction false} PidPollExactly(st: State, n: nat, gone: set<nat>, now: int, h: nat)
    requires n <= |st.reg| && h < |st.heap|
    ensures var t := PidPollFirst(st, n, gone, now);
            && |t.heap| == |st.heap|
            && t.heap[h] == if PollHits(st, n, gone, h) then S.Died(st.heap[h], now) else st.heap[h]
    decreases n
  {
    if n > 0 {
      PidPollExactly(st, n - 1, gone, now, h);
      if st.reg[n - 1] < |st.heap| {
        PidPollExactly(st, n - 1, gone, now, st.reg[n - 1]);
      }
      hide N.FanoutDead, P.MarkEnded, ReasonText, ExitCodeIn, Clients, Destroyed;
      var t, g := PidPollFirst(st, n - 1, gone, now), st.reg[n - 1];
      assert PollHits(st, n, gone, h) <==> PollHits(st, n - 1, gone, h) || (g == h && (At(st.heap, h).pid <= 0 || h in gone));
    }
  }

  // ---------- sockets ----------

  /**
   Session `h` lives exactly while it has a socket and no time of death; its socket is an open
   cb connection bound to it, and no other session `g` has that socket.
   */
  ghost predicate Exclusive(st: State, g: nat, h: nat)
    requires g < |st.heap| && h < |st.heap|
  {
    var s := st.heap[h];
    && (s.status == S.Alive <==> s.sock.Some?)
    && (s.status == S.Alive <==> s.diedAt == None)
    && (s.sock.Some? ==>
          && s.sock.value < |st.conns|
          && (var conn := st.conns[s.sock.value]; conn.role == Cb && conn.session == Some(h) && !conn.closed)
          && (g != h ==> st.heap[g].sock != s.sock))
  }

  lemma ExclusiveIn(st: State, g: nat, h: nat)
    requires Inv(st) && g < |st.heap| && h < |st.heap|
    ensures Exclusive(st, g, h)
  {
    assert SessionFacts(st.heap[g], g, st.conns) && SessionFacts(st.heap[h], h, st.conns);
    if st.heap[h].sock.Some? {
      assert ConnFacts(st.conns[st.heap[h].sock.value], st.heap[h].sock.value, st.heap);
    }
  }

  lemma SocketsAreExclusive(file: seq<P.Entry>, start: int, es: seq<Event>, g: nat, h: nat)
    ensures var st := Run(Initial(file, start), es); g < |st.heap| && h < |st.heap| ==> Exclusive(st, g, h)
  {
    hide Inv, Run, Initial, Exclusive;
    RunKeepsInv(file, start, es);
    var st := Run(Initial(file, start), es);
    if g < |st.heap| && h < |st.heap| {
      ExclusiveIn(st, g, h);
    }
  }

  /** Connection `c` was once attached to session `h` and is its socket no longer. */
  ghost predicate Stale(st: State, c: nat, h: nat) {
    && c < |st.conns| && st.conns[c].session == Some(h)
    && h < |st.heap| && st.heap[h].sock != Some(c)
  }

  /** The closing of a stale connection, or its heartbeat, changes nothing about any session. */
  lemma StaleSocketIsHarmless(st: State, c: nat, h: nat, now: int)
    requires Inv(st) && Stale(st, c, h)
    ensures Step(st, Tick(c, now)) == st
    ensures var t := Step(st, Close(c, now));
            t.heap == st.heap && t.reg == st.reg && t.deaths == st.deaths && t.hist == st.hist && t.notif == st.notif
  {
    assert ConnFacts(st.conns[c], c, st.heap);
  }

  lemma MarkDeadKeepsStale(st: State, g: nat, cause: Cause, now: int, c: nat, h: nat)
    requires Stale(st, c, h)
    ensures Stale(MarkDead(st, g, cause, now), c, h)
  {
  }

  lemma {:induction false} PidPollKeepsStale(st: State, n: nat, gone: set<nat>, now: int, c: nat, h: nat)
    requires Stale(st, c, h) && n <= |st.reg|
    ensures Stale(PidPollFirst(st, n, gone, now), c, h)
    decreases n
  {
    if n > 0 {
      PidPollNext(st, n, gone, now);
      hide MarkDead, Stale, PidPollFirst;
      PidPollKeepsStale(st, n - 1, gone, now, c, h);
      MarkDeadKeepsStale(PidPollFirst(st, n - 1, gone, now), st.reg[n - 1], PidGone, now, c, h);
    }
  }

  lemma AcceptKeepsStale(st: State, d: nat, m: HelloMsg, now: int, c: nat, h: nat)
    requires Stale(st, c, h) && d < |st.conns| && d != c
    ensures Stale(AcceptCb(st, d, m, now), c, h)
  {
    hide Accepted, Prior, Registered, R.Resolved, P.AddOrUpdate, N.FanoutAdded, Put, Without, S.ProcessAlive;
  }

  lemma FrameKeepsStale(st: State, d: nat, f: Frame, now: int, c: nat, h: nat)
    requires Inv(st) && Stale(st, c, h) && d < |st.conns|
    ensures Stale(Dispatch(st, d, f, now), c, h)
  {
    assert ConnFacts(st.conns[c], c, st.heap);
    hide Inv, AcceptCb, MarkDead, N.Drained;
    if st.conns[d].role == Unknown && f.Hello? {
      AcceptKeepsStale(st, d, f.hello, now, c, h);
    } else if f.Bye? && st.conns[d].session.Some? {
      MarkDeadKeepsStale(st, st.conns[d].session.value, ByeFrame(f.exitCode), now, c, h);
    }
  }

  lemma TickKeepsStale(st: State, d: nat, now: int, c: nat, h: nat)
    requires Stale(st, c, h) && d < |st.conns|
    ensures Stale(HeartbeatTick(st, d, now), c, h)
  {
    hide MarkDead;
    if st.conns[d].session.Some? {
      var g := st.conns[d].session.value;
      var t := WithSession(st, g, At(st.heap, g).(missedPongs := At(st.heap, g).missedPongs + 1));
      MarkDeadKeepsStale(t, g, HeartbeatLost, now, c, h);
    }
  }

  lemma CloseKeepsStale(st: State, d: nat, now: int, c: nat, h: nat)
    requires Stale(st, c, h) && d < |st.conns|
    ensures Stale(HandleClose(st, d, now), c, h)
  {
    hide MarkDead, N.Disconnected, WithoutPeer;
    var t := st.(conns := st.conns[d := st.conns[d].(heartbeat := false, destroyed := true, closed := true)]);
    if st.conns[d].session.Some? {
      MarkDeadKeepsStale(t, st.conns[d].session.value, PipeClosed, now, c, h);
    }
  }

  lemma StepKeepsStale(st: State, e: Event, c: nat, h: nat)
    requires Inv(st) && Stale(st, c, h)
    ensures Stale(Step(st, e), c, h)
  {
    hide Inv, Dispatch, HeartbeatTick, HandleClose, PidPollFirst, MarkDead, N.Followup, N.WentIdle, Retained, PipeOpen;
    match e {
      case Received(d, f, now) => if Reaches(st, d) { FrameKeepsStale(st, d, f, now, c, h); }
      case Tick(d, now) => if Reaches(st, d) { TickKeepsStale(st, d, now, c, h); }
      case Close(d, now) => if Reaches(st, d) { CloseKeepsStale(st, d, now, c, h); }
      case PidPoll(gone, now) => PidPollKeepsStale(st, |st.reg|, gone, now, c, h);
      case Inject(g, probe, throws, now) => MarkDeadKeepsStale(st, g, PidGoneInject, now, c, h);
      case _ =>
    }
  }

  /** Once replaced by a resume, a socket never becomes its session's socket again, whatever follows. */
  lemma {:induction false} StaleForever(st: State, es: seq<Event>, c: nat, h: nat)
    requires Inv(st) && Stale(st, c, h)
    ensures Inv(Run(st, es)) && Stale(Run(st, es), c, h)
    decreases |es|
  {
    if es != [] {
      hide Inv, Stale, Step;
      StaleForever(st, es[..|es| - 1], c, h);
      StepKeepsInv(Run(st, es[..|es| - 1]), es[|es| - 1]);
      StepKeepsStale(Run(st, es[..|es| - 1]), es[|es| - 1], c, h);
    }
  }

  /** A resume moves the session to the new connection, keeps everything else about it, and leaves the old socket destroyed and stale. */
  lemma ResumeRebinds(st: State, c: nat, m: HelloMsg, now: int)
    requires Inv(st) && Reaches(st, c) && st.conns[c].role == Unknown && Accepted(m) && Resumes(st, m)
    ensures var h, t := Prior(st, m).value, Step(st, Received(c, Hello(m), now));
            && t.heap[h] == st.heap[h].(sock := Some(c), missedPongs := 0, lastActivityAt := now)
            && t.reg == st.reg && t.hist == st.hist && t.notif == st.notif && t.deaths == st.deaths
            && st.heap[h].sock.Some? && st.heap[h].sock.value != c
            && Stale(t, st.heap[h].sock.value, h) && t.conns[st.heap[h].sock.value].destroyed
  {
    var h := Prior(st, m).value;
    assert SessionFacts(st.heap[h], h, st.conns);
    assert ConnFacts(st.conns[c], c, st.heap);
    hide Accepted, Prior, Attach, Purged;
  }

  // ---------- peers without the secret ----------

  /** An event of connection `c` in which no hello carries the daemon's secret. */
  predicate Unauthenticated(e: Event, c: nat) {
    match e
    case Received(d, f, now) => d == c && !(f.Hello? && f.hello.secretOk) && !(f.McpHello? && f.secretOk)
    case DecodeError(d) => d == c
    case HandshakeTimeout(d) => d == c
    case Tick(d, now) => d == c
    case Close(d, now) => d == c
    case _ => false
  }

  /** The states differ in the record of connection `c` at most, which still has no role. */
  ghost predicate OnlyConn(st: State, t: State, c: nat) {
    && |t.conns| == |st.conns| && c < |t.conns|
    && t == st.(conns := st.conns[c := t.conns[c]])
    && t.conns[c].role == Unknown && t.conns[c].session == None
  }

  lemma UnauthenticatedStep(st: State, e: Event, c: nat)
    requires c < |st.conns| && st.conns[c].role == Unknown && st.conns[c].session == None && Unauthenticated(e, c)
    ensures OnlyConn(st, Step(st, e), c)
  {
    hide AcceptMcp, MarkDead, Attach, Purged, Resumes, Resume;
    assert st.conns == st.conns[c := st.conns[c]];
    if e.Received? && e.frame.McpHello? {
      McpRejected(st, c, e.frame.clientId);
    }
  }

  lemma McpRejected(st: State, c: nat, clientId: string)
    requires c < |st.conns|
    ensures AcceptMcp(st, c, false, clientId) == DestroyConn(st, c)
  {
  }

  /** Whatever a peer without the secret sends, and however its connection ends, no session, queue, history entry or other connection changes. */
  lemma {:induction false} OutsidersChangeNothing(st: State, es: seq<Event>, c: nat)
    requires c < |st.conns| && st.conns[c].role == Unknown && st.conns[c].session == None
    requires forall i | 0 <= i < |es| :: Unauthenticated(es[i], c)
    ensures OnlyConn(st, Run(st, es), c)
    decreases |es|
  {
    if es == [] {
      assert st.conns == st.conns[c := st.conns[c]];
    } else {
      hide Step, Unauthenticated;
      OutsidersChangeNothing(st, es[..|es| - 1], c);
      UnauthenticatedStep(Run(st, es[..|es| - 1]), es[|es| - 1], c);
    }
  }

  // ---------- non-interference ----------

  /** An event of connection `c`. */
  predicate OfConn(e: Event, c: nat) {
    match e
    case Received(d, f, now) => d == c
    case DecodeError(d) => d == c
    case HandshakeTimeout(d) => d == c
    case Tick(d, now) => d == c
    case Close(d, now) => d == c
    case _ => false
  }

  /** The run without the events of connection `c`. */
  function Dropped(es: seq<Event>, c: nat): seq<Event> {
    if es == [] then []
    else Dropped(es[..|es| - 1], c) + (if OfConn(es[|es| - 1], c) then [] else [es[|es| - 1]])
  }

  function WithConn(st: State, c: nat, x: Conn): State
    requires c < |st.conns|
  {
    st.(conns := st.conns[c := x])
  }

  /** Connection `c` has no role, and is no session's socket. */
  ghost predicate Idle(st: State, c: nat) {
    && c < |st.conns| && st.conns[c].role == Unknown && st.conns[c].session == None
    && forall h | 0 <= h < |st.heap| :: st.heap[h].sock != Some(c)
  }

  ghost predicate NoRole(x: Conn) {
    x.role == Unknown && x.session == None
  }

  lemma IdleByInv(st: State, c: nat)
    requires Inv(st) && c < |st.conns| && st.conns[c].role == Unknown && st.conns[c].session == None
    ensures Idle(st, c)
  {
    forall h | 0 <= h < |st.heap| ensures st.heap[h].sock != Some(c) {
      assert SessionFacts(st.heap[h], h, st.conns);
    }
  }

  lemma MarkDeadCommutes(st: State, h: nat, cause: Cause, now: int, c: nat, x: Conn)
    requires Idle(st, c)
    ensures Idle(MarkDead(st, h, cause, now), c)
    ensures MarkDead(WithConn(st, c, x), h, cause, now) == WithConn(MarkDead(st, h, cause, now), c, x)
  {
    hide N.FanoutDead, P.MarkEnded, ReasonText, ExitCodeIn, Clients;
    if h < |st.heap| {
      assert Destroyed(st.conns[c := x], st.heap[h].sock) == Destroyed(st.conns, st.heap[h].sock)[c := x];
    }
  }

  lemma {:induction false} PidPollCommutes(st: State, n: nat, gone: set<nat>, now: int, c: nat, x: Conn)
    requires n <= |st.reg| && Idle(st, c)
    ensures Idle(PidPollFirst(st, n, gone, now), c)
    ensures PidPollFirst(WithConn(st, c, x), n, gone, now) == WithConn(PidPollFirst(st, n, gone, now), c, x)
    decreases n
  {
    if n > 0 {
      PidPollNext(st, n, gone, now);
      PidPollNext(WithConn(st, c, x), n, gone, now);
      hide MarkDead, PidPollFirst, Idle;
      PidPollCommutes(st, n - 1, gone, now, c, x);
      MarkDeadCommutes(PidPollFirst(st, n - 1, gone, now), st.reg[n - 1], PidGone, now, c, x);
    }
  }

  lemma CbFrameCommutes(st: State, h: nat, f: Frame, now: int, c: nat, x: Conn)
    requires Idle(st, c)
    ensures |CbFrame(st, h, f, now).conns| == |st.conns|
    ensures CbFrame(WithConn(st, c, x), h, f, now) == WithConn(CbFrame(st, h, f, now), c, x)
  {
    hide MarkDead, Base64.DecodeStrict, S.WithStdout, S.WithUserInput;
    if f.Bye? {
      MarkDeadCommutes(st, h, ByeFrame(f.exitCode), now, c, x);
      MarkDeadAlike(st, h, ByeFrame(f.exitCode), now);
    }
    hide Idle, Alike;
  }

  lemma FrameCommutes(st: State, d: nat, f: Frame, now: int, c: nat, x: Conn)
    requires Idle(st, c) && d < |st.conns| && d != c
    ensures |Dispatch(st, d, f, now).conns| == |st.conns|
    ensures Dispatch(WithConn(st, c, x), d, f, now) == WithConn(Dispatch(st, d, f, now), c, x)
  {
    DispatchConnCount(st, d, f, now);
    hide CbFrame, AcceptCb, AcceptMcp, DestroyConn, N.Drained, Idle;
    assert WithConn(st, c, x).conns[d] == st.conns[d];
    match st.conns[d].role {
      case Unknown =>
        match f {
          case Hello(m) => AcceptCommutes(st, d, m, now, c, x);
          case McpHello(ok, id) => McpCommutes(st, d, ok, id, c, x);
          case _ => DestroyCommutes(st, d, c, x);
        }
      case Cb =>
        if st.conns[d].session.Some? {
          CbFrameCommutes(st, st.conns[d].session.value, f, now, c, x);
        }
      case Mcp =>
    }
  }

  lemma McpCommutes(st: State, d: nat, secretOk: bool, clientId: string, c: nat, x: Conn)
    requires c < |st.conns| && d < |st.conns| && d != c
    ensures |AcceptMcp(st, d, secretOk, clientId).conns| == |st.conns|
    ensures AcceptMcp(WithConn(st, c, x), d, secretOk, clientId) == WithConn(AcceptMcp(st, d, secretOk, clientId), c, x)
  {
    hide OfNat;
    var a, b := AcceptMcp(WithConn(st, c, x), d, secretOk, clientId), AcceptMcp(st, d, secretOk, clientId);
    assert a.conns == b.conns[c := x];
  }

  lemma AcceptCommutes(st: State, d: nat, m: HelloMsg, now: int, c: nat, x: Conn)
    requires Idle(st, c) && d < |st.conns| && d != c
    ensures |AcceptCb(st, d, m, now).conns| == |st.conns|
    ensures AcceptCb(WithConn(st, c, x), d, m, now) == WithConn(AcceptCb(st, d, m, now), c, x)
  {
    hide Accepted, Registered, R.IndexOfId, R.Resolved, P.AddOrUpdate, N.FanoutAdded, Put, Without, S.ProcessAlive, RenamedAll, Clients;
    var a, b := AcceptCb(WithConn(st, c, x), d, m, now), AcceptCb(st, d, m, now);
    assert a.conns == b.conns[c := x];
  }

  /** A heartbeat that counts against session `h`, whose record becomes `s`. */
  lemma TickIs(st: State, d: nat, now: int, h: nat, s: S.SessionData)
    requires d < |st.conns| && st.conns[d].heartbeat && !st.conns[d].destroyed && st.conns[d].session == Some(h)
    requires s == At(st.heap, h).(missedPongs := At(st.heap, h).missedPongs + 1)
    ensures HeartbeatTick(st, d, now)
            == if s.missedPongs > HEARTBEAT_MISS_LIMIT then DestroyConn(MarkDead(WithSession(st, h, s), h, HeartbeatLost, now), d)
               else WithSession(st, h, s)
  {
    hide MarkDead, WithSession, DestroyConn;
  }

  lemma NoTick(st: State, d: nat, now: int)
    requires d < |st.conns| && (!st.conns[d].heartbeat || st.conns[d].destroyed || st.conns[d].session == None)
    ensures HeartbeatTick(st, d, now) == st
  {
  }

  lemma TickCommutes(st: State, d: nat, now: int, c: nat, x: Conn)
    requires Idle(st, c) && d < |st.conns| && d != c
    ensures |HeartbeatTick(st, d, now).conns| == |st.conns|
    ensures HeartbeatTick(WithConn(st, c, x), d, now) == WithConn(HeartbeatTick(st, d, now), c, x)
  {
    WithConnFacts(st, c, x, d);
    var u := WithConn(st, c, x);
    hide HeartbeatTick, MarkDead, Idle, WithSession, DestroyConn, WithConn;
    if !st.conns[d].heartbeat || st.conns[d].destroyed || st.conns[d].session == None {
      NoTick(st, d, now);
      NoTick(u, d, now);
    } else {
      var h := st.conns[d].session.value;
      var s := At(st.heap, h).(missedPongs := At(st.heap, h).missedPongs + 1);
      TickIs(st, d, now, h, s);
      TickIs(u, d, now, h, s);
      hide At;
      MissCommutes(st, h, s, c, x);
      LossCommutes(WithSession(st, h, s), h, d, now, c, x);
    }
  }

  lemma WithConnFacts(st: State, c: nat, x: Conn, d: nat)
    requires c < |st.conns| && d < |st.conns| && d != c
    ensures WithConn(st, c, x).heap == st.heap && |WithConn(st, c, x).conns| == |st.conns| && WithConn(st, c, x).conns[d] == st.conns[d]
  {
  }

  /** A death and the destruction of a socket. */
  lemma LossCommutes(st: State, h: nat, d: nat, now: int, c: nat, x: Conn)
    requires Idle(st, c) && d < |st.conns| && d != c
    ensures |DestroyConn(MarkDead(st, h, HeartbeatLost, now), d).conns| == |st.conns|
    ensures DestroyConn(MarkDead(WithConn(st, c, x), h, HeartbeatLost, now), d)
         == WithConn(DestroyConn(MarkDead(st, h, HeartbeatLost, now), d), c, x)
  {
    MarkDeadCommutes(st, h, HeartbeatLost, now, c, x);
    MarkDeadAlike(st, h, HeartbeatLost, now);
    hide MarkDead, Idle, DestroyConn;
    DestroyCommutes(MarkDead(st, h, HeartbeatLost, now), d, c, x);
  }

  lemma MissCommutes(st: State, h: nat, s: S.SessionData, c: nat, x: Conn)
    requires Idle(st, c) && s.sock == At(st.heap, h).sock
    ensures Idle(WithSession(st, h, s), c) && |WithSession(st, h, s).conns| == |st.conns|
    ensures WithSession(WithConn(st, c, x), h, s) == WithConn(WithSession(st, h, s), c, x)
  {
  }

  lemma CloseCommutes(st: State, d: nat, now: int, c: nat, x: Conn)
    requires Idle(st, c) && d < |st.conns| && d != c
    ensures |HandleClose(st, d, now).conns| == |st.conns|
    ensures HandleClose(WithConn(st, c, x), d, now) == WithConn(HandleClose(st, d, now), c, x)
  {
    CloseKeepsBinding(st, d, now, d);
    hide MarkDead, N.Disconnected, WithoutPeer;
    var shut := st.conns[d].(heartbeat := false, destroyed := true, closed := true);
    var t := st.(conns := st.conns[d := shut]);
    assert st.conns[c := x][d := shut] == t.conns[c := x];
    if st.conns[d].session.Some? {
      MarkDeadCommutes(t, st.conns[d].session.value, PipeClosed, now, c, x);
    }
  }

  lemma InjectCommutes(st: State, h: nat, probe: S.Probe, writeThrows: bool, now: int, c: nat, x: Conn)
    requires Idle(st, c) && h < |st.heap|
    ensures |InjectInto(st, h, probe, writeThrows, now).conns| == |st.conns|
    ensures InjectInto(WithConn(st, c, x), h, probe, writeThrows, now) == WithConn(InjectInto(st, h, probe, writeThrows, now), c, x)
  {
    MarkDeadCommutes(st, h, PidGoneInject, now, c, x);
    hide MarkDead;
  }

  /** An event of anybody else does the same whatever the record of a connection without a role looks like. */
  lemma StepCommutes(st: State, e: Event, c: nat, x: Conn)
    requires Idle(st, c) && NoRole(x) && !OfConn(e, c)
    ensures c < |Step(st, e).conns|
    ensures Step(WithConn(st, c, x), e) == WithConn(Step(st, e), c, x)
  {
    hide Dispatch, DestroyConn, HeartbeatTick, HandleClose, PidPollFirst, InjectInto, N.Followup, N.WentIdle, Retained;
    match e {
      case Connect => assert st.conns[c := x] + [NEW_CONN] == (st.conns + [NEW_CONN])[c := x];
      case Received(d, f, now) => if Reaches(st, d) { FrameCommutes(st, d, f, now, c, x); }
      case DecodeError(d) => if Reaches(st, d) { DestroyCommutes(st, d, c, x); }
      case HandshakeTimeout(d) => if Reaches(st, d) { DestroyCommutes(st, d, c, x); }
      case Tick(d, now) => if Reaches(st, d) { TickCommutes(st, d, now, c, x); }
      case Close(d, now) => if Reaches(st, d) { CloseCommutes(st, d, now, c, x); }
      case PidPoll(gone, now) => PidPollCommutes(st, |st.reg|, gone, now, c, x);
      case Inject(h, probe, throws, now) => if h < |st.heap| { InjectCommutes(st, h, probe, throws, now, c, x); }
      case _ =>
    }
  }

  lemma DestroyCommutes(st: State, d: nat, c: nat, x: Conn)
    requires c < |st.conns| && d < |st.conns| && d != c
    ensures |DestroyConn(st, d).conns| == |st.conns|
    ensures DestroyConn(WithConn(st, c, x), d) == WithConn(DestroyConn(st, d), c, x)
  {
    assert Destroyed(st.conns[c := x], Some(d)) == Destroyed(st.conns, Some(d))[c := x];
  }

  /**
   Non-interference, over every run of everybody's events: leaving out all events of a
   connection whose frames never carry the secret changes nothing but that connection's own
   record.
   */
  lemma {:induction false} OutsidersDoNotInterfere(st: State, es: seq<Event>, c: nat)
    requires Inv(st) && c < |st.conns| && NoRole(st.conns[c])
    requires forall i | 0 <= i < |es| && OfConn(es[i], c) :: Unauthenticated(es[i], c)
    ensures OnlyConn(Run(st, Dropped(es, c)), Run(st, es), c)
    ensures NoRole(Run(st, Dropped(es, c)).conns[c])
    decreases |es|
  {
    if es == [] {
      assert st.conns == st.conns[c := st.conns[c]];
    } else {
      var front, e := es[..|es| - 1], es[|es| - 1];
      hide Inv, Step, Unauthenticated, OfConn;
      OutsidersDoNotInterfere(st, front, c);
      var s, t := Run(st, Dropped(front, c)), Run(st, front);
      if OfConn(e, c) {
        assert Dropped(front, c) + [] == Dropped(front, c);
        UnauthenticatedStep(t, e, c);
      } else {
        RunSnoc(st, Dropped(front, c), e);
        RunInv(st, Dropped(front, c));
        IdleByInv(s, c);
        StepCommutes(s, e, c, t.conns[c]);
        OthersLeaveIdle(s, e, c);
        hide Idle;
      }
    }
  }

  lemma OthersLeaveIdle(st: State, e: Event, c: nat)
    requires c < |st.conns| && NoRole(st.conns[c]) && !OfConn(e, c)
    ensures c < |Step(st, e).conns| && NoRole(Step(st, e).conns[c])
  {
    StepKeepsConn(st, e, c);
    hide Step;
  }

  lemma RunSnoc(st: State, es: seq<Event>, e: Event)
    ensures Run(st, es + [e]) == Step(Run(st, es), e)
  {
    hide Step;
    assert (es + [e])[..|es|] == es;
  }

  // ---------- output ----------

  /** A stdout frame built by cb (base64 of the bytes) is never dropped on an attached connection: exactly its bytes reach the session's buffer. */
  lemma StdoutArrives(st: State, c: nat, bytes: seq<byte>, now: int)
    requires Inv(st) && Reaches(st, c) && st.conns[c].role == Cb
    ensures var h, t := st.conns[c].session.value, Step(st, Received(c, Stdout(Base64.Encode(bytes)), now));
            && h < |st.heap|
            && t == st.(heap := st.heap[h := S.WithStdout(st.heap[h], bytes, now)])
  {
    assert ConnFacts(st.conns[c], c, st.heap);
    Base64.StrictRoundTrip(bytes);
    hide Base64.DecodeStrict, Base64.Encode, S.WithStdout;
  }
}
