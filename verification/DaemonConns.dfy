/** What the daemon's events do to the records of connections: their role, their session, and whether they are closed. */
module DaemonConns {
  import opened Wrappers
  import opened Decimal
  import opened Daemon
  import opened DaemonInvariants
  import N = Notifications
  import P = Persistence
  import R = Registry
  import S = Session

  /** All that counts of a connection's record, except whether its socket has been destroyed. */
  predicate SameBinding(a: Conn, b: Conn) {
    a.role == b.role && a.session == b.session && a.clientId == b.clientId && a.closed == b.closed
  }

  ghost predicate Alike(conns: seq<Conn>, conns': seq<Conn>) {
    |conns'| == |conns| && forall d | 0 <= d < |conns| :: SameBinding(conns[d], conns'[d])
  }

  /** The event is handled as the first frame of connection `d`. */
  ghost predicate Establishes(st: State, e: Event, d: nat) {
    e.Received? && e.conn == d && Reaches(st, d) && st.conns[d].role == Unknown
  }

  /** The event resumes session `h`. */
  ghost predicate ResumesTo(st: State, e: Event, h: nat) {
    && e.Received? && Establishes(st, e, e.conn) && e.frame.Hello?
    && Accepted(e.frame.hello) && Resumes(st, e.frame.hello) && Prior(st, e.frame.hello) == Some(h)
  }

  /** Session `h` is never resumed during the run. */
  ghost predicate NeverResumed(st: State, es: seq<Event>, h: nat) {
    forall i | 0 <= i < |es| :: !ResumesTo(Run(st, es[..i]), es[i], h)
  }

  lemma NeverResumedPrefix(st: State, es: seq<Event>, h: nat)
    requires es != [] && NeverResumed(st, es, h)
    ensures NeverResumed(st, es[..|es| - 1], h) && !ResumesTo(Run(st, es[..|es| - 1]), es[|es| - 1], h)
  {
    hide Run, ResumesTo;
    var front := es[..|es| - 1];
    forall i | 0 <= i < |front| ensures !ResumesTo(Run(st, front[..i]), front[i], h) {
      assert front[..i] == es[..i];
    }
  }

  // ---------- handlers ----------

  lemma MarkDeadAlike(st: State, h: nat, cause: Cause, now: int)
    ensures Alike(st.conns, MarkDead(st, h, cause, now).conns)
  {
    hide N.FanoutDead, P.MarkEnded, ReasonText, ExitCodeIn, Clients;
  }

  lemma AlikeTransitive(a: seq<Conn>, b: seq<Conn>, c: seq<Conn>)
    requires Alike(a, b) && Alike(b, c)
    ensures Alike(a, c)
  {
  }

  lemma {:induction false} PidPollAlike(st: State, n: nat, gone: set<nat>, now: int)
    requires n <= |st.reg|
    ensures Alike(st.conns, PidPollFirst(st, n, gone, now).conns)
    decreases n
  {
    if n > 0 {
      PidPollNext(st, n, gone, now);
      var t := PidPollFirst(st, n - 1, gone, now);
      hide MarkDead, PidPollFirst, Alike;
      PidPollAlike(st, n - 1, gone, now);
      MarkDeadAlike(t, st.reg[n - 1], PidGone, now);
      AlikeTransitive(st.conns, t.conns, MarkDead(t, st.reg[n - 1], PidGone, now).conns);
    }
  }

  /** What a frame on connection `c` leaves of connection `d`. */
  lemma FrameKeepsBinding(st: State, c: nat, f: Frame, now: int, d: nat)
    requires c < |st.conns| && d < |st.conns| && (c == d ==> st.conns[c].role != Unknown)
    ensures var t := Dispatch(st, c, f, now); |t.conns| == |st.conns| && SameBinding(st.conns[d], t.conns[d])
  {
    hide MarkDead, Accepted, Prior, Registered, R.Resolved, P.AddOrUpdate, N.FanoutAdded, N.Drained, Put, Without, Base64.DecodeStrict;
    if f.Bye? && st.conns[c].session.Some? {
      MarkDeadAlike(st, st.conns[c].session.value, ByeFrame(f.exitCode), now);
    }
  }

  lemma TickAlike(st: State, c: nat, now: int)
    requires c < |st.conns|
    ensures Alike(st.conns, HeartbeatTick(st, c, now).conns)
  {
    hide MarkDead;
    if st.conns[c].session.Some? {
      var h := st.conns[c].session.value;
      var t := WithSession(st, h, At(st.heap, h).(missedPongs := At(st.heap, h).missedPongs + 1));
      MarkDeadAlike(t, h, HeartbeatLost, now);
    }
  }

  lemma CloseKeepsBinding(st: State, c: nat, now: int, d: nat)
    requires c < |st.conns| && d < |st.conns|
    ensures var t := HandleClose(st, c, now);
            && |t.conns| == |st.conns|
            && (if d != c then SameBinding(st.conns[d], t.conns[d]) else SameBinding(st.conns[d].(closed := true), t.conns[d]))
  {
    hide MarkDead, N.Disconnected, WithoutPeer;
    var t := st.(conns := st.conns[c := st.conns[c].(heartbeat := false, destroyed := true, closed := true)]);
    if st.conns[c].session.Some? {
      MarkDeadAlike(t, st.conns[c].session.value, PipeClosed, now);
    }
  }

  // ---------- every event ----------

  /** A connection keeps its role, session and client id except at its first frame, and is closed by its close alone. */
  lemma StepKeepsConn(st: State, e: Event, d: nat)
    requires d < |st.conns| && !Establishes(st, e, d)
    ensures var t := Step(st, e);
            && |t.conns| >= |st.conns|
            && SameBinding(st.conns[d].(closed := t.conns[d].closed), t.conns[d])
            && (t.conns[d].closed <==> st.conns[d].closed || (e.Close? && e.conn == d))
  {
    hide Dispatch, HeartbeatTick, HandleClose, PidPollFirst, MarkDead, N.Followup, N.WentIdle, Retained, PipeOpen, WithSession;
    match e {
      case Received(c, f, now) => if Reaches(st, c) { FrameKeepsBinding(st, c, f, now, d); }
      case Tick(c, now) => if Reaches(st, c) { TickAlike(st, c, now); }
      case Close(c, now) => if Reaches(st, c) { CloseKeepsBinding(st, c, now, d); }
      case PidPoll(gone, now) => PidPollAlike(st, |st.reg|, gone, now);
      case Inject(g, probe, throws, now) => InjectAlike(st, g, probe, throws, now);
      case _ =>
    }
  }

  lemma InjectAlike(st: State, h: nat, probe: S.Probe, writeThrows: bool, now: int)
    ensures Alike(st.conns, InjectInto(st, h, probe, writeThrows, now).conns)
  {
    hide MarkDead, PipeOpen;
    MarkDeadAlike(st, h, PidGoneInject, now);
  }

  /** An accepted hello binds its connection to the session it resumes, or to a new one. */
  lemma HelloBinds(st: State, c: nat, m: HelloMsg, now: int)
    requires Reaches(st, c) && st.conns[c].role == Unknown && Accepted(m)
    ensures var t := Step(st, Received(c, Hello(m), now));
            && |t.conns| == |st.conns| && t.conns[c].role == Cb && t.conns[c].closed == st.conns[c].closed
            && t.conns[c].session == (if Resumes(st, m) then Prior(st, m) else Some(|st.heap|))
  {
    hide Accepted, Registered, R.Resolved, P.AddOrUpdate, N.FanoutAdded, Put, Without, S.ProcessAlive, RenamedAll;
  }

  /** Nobody but the event's own connection can come to be bound to a session, and to an existing one only by resuming it. */
  lemma BoundBefore(st: State, e: Event, d: nat, h: nat)
    requires d < |Step(st, e).conns| && Step(st, e).conns[d].session == Some(h)
    requires h != |st.heap| || !(e.Received? && e.conn == d)
    requires !ResumesTo(st, e, h)
    ensures d < |st.conns| && st.conns[d].session == Some(h)
  {
    if d >= |st.conns| {
      NewConnsAreFree(st, e, d);
    } else if Establishes(st, e, d) {
      FirstFrameBinds(st, d, e.frame, e.now, h);
    } else {
      StepKeepsConn(st, e, d);
    }
  }

  lemma NewConnsAreFree(st: State, e: Event, d: nat)
    requires |st.conns| <= d < |Step(st, e).conns|
    ensures Step(st, e).conns[d].session == None
  {
    if !e.Connect? {
      SameConnCount(st, e);
    }
  }

  lemma SameConnCount(st: State, e: Event)
    requires !e.Connect?
    ensures |Step(st, e).conns| == |st.conns|
  {
    hide Dispatch, HeartbeatTick, HandleClose, PidPollFirst, MarkDead, N.Followup, N.WentIdle, Retained, PipeOpen, WithSession;
    match e {
      case Received(c, f, now) => if Reaches(st, c) { DispatchConnCount(st, c, f, now); }
      case Tick(c, now) => if Reaches(st, c) { TickAlike(st, c, now); }
      case Close(c, now) => if Reaches(st, c) { CloseKeepsBinding(st, c, now, c); }
      case PidPoll(gone, now) => PidPollAlike(st, |st.reg|, gone, now);
      case Inject(g, probe, throws, now) => InjectAlike(st, g, probe, throws, now);
      case _ =>
    }
  }

  lemma DispatchConnCount(st: State, c: nat, f: Frame, now: int)
    requires c < |st.conns|
    ensures |Dispatch(st, c, f, now).conns| == |st.conns|
  {
    hide MarkDead, Accepted, Prior, Registered, R.Resolved, P.AddOrUpdate, N.FanoutAdded, N.Drained, Put, Without, Base64.DecodeStrict;
    if f.Bye? && st.conns[c].session.Some? {
      MarkDeadAlike(st, st.conns[c].session.value, ByeFrame(f.exitCode), now);
    }
  }

  lemma FirstFrameBinds(st: State, c: nat, f: Frame, now: int, h: nat)
    requires Reaches(st, c) && st.conns[c].role == Unknown && h != |st.heap|
    requires !ResumesTo(st, Received(c, f, now), h)
    requires Step(st, Received(c, f, now)).conns[c].session == Some(h)
    ensures st.conns[c].session == Some(h)
  {
    if f.Hello? && Accepted(f.hello) {
      HelloBinds(st, c, f.hello, now);
    } else {
      hide AcceptMcp, Attach, Resume, Accepted;
      if f.McpHello? {
        McpKeepsSession(st, c, f.secretOk, f.clientId);
      }
    }
  }

  lemma McpKeepsSession(st: State, c: nat, secretOk: bool, clientId: string)
    requires c < |st.conns|
    ensures |AcceptMcp(st, c, secretOk, clientId).conns| == |st.conns|
    ensures AcceptMcp(st, c, secretOk, clientId).conns[c].session == st.conns[c].session
  {
  }

  // ---------- who is bound to a session ----------

  ghost predicate BoundTo(conns: seq<Conn>, d: nat, h: nat) {
    d < |conns| && conns[d].session == Some(h)
  }

  lemma NobodyYet(st: State, d: nat, h: nat)
    requires Inv(st) && h >= |st.heap|
    ensures !BoundTo(st.conns, d, h)
  {
    if d < |st.conns| {
      assert ConnFacts(st.conns[d], d, st.heap);
    }
  }

  /** A session created in the run and never resumed is bound to one connection only, its own. */
  lemma {:induction false} SoleBinding(st: State, es: seq<Event>, h: nat, c: nat, d: nat)
    requires Inv(st) && h >= |st.heap| && NeverResumed(st, es, h)
    requires BoundTo(Run(st, es).conns, c, h) && BoundTo(Run(st, es).conns, d, h)
    ensures c == d
    decreases |es|
  {
    if es == [] {
      NobodyYet(st, c, h);
      hide Inv;
    } else {
      var front, e := es[..|es| - 1], es[|es| - 1];
      var t := Run(st, front);
      NeverResumedPrefix(st, es, h);
      RunInv(st, front);
      if h == |t.heap| {
        NobodyYet(t, c, h);
        NobodyYet(t, d, h);
      }
      hide Inv, Step, ResumesTo, NeverResumed;
      if h != |t.heap| || !(e.Received? && e.conn == c) {
        BoundBefore(t, e, c, h);
      }
      if h != |t.heap| || !(e.Received? && e.conn == d) {
        BoundBefore(t, e, d, h);
      }
      if h != |t.heap| {
        SoleBinding(st, front, h, c, d);
      }
    }
  }
}
