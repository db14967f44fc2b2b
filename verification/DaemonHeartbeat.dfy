/** The heartbeat over whole runs: what a heartbeat death proves, and what keeps a session from one. */
module DaemonHeartbeat {
  import opened Wrappers
  import opened Constants
  import opened Decimal
  import opened Daemon
  import opened DaemonInvariants
  import opened DaemonRuns
  import N = Notifications
  import P = Persistence
  import R = Registry
  import S = Session

  /** A heartbeat interval of connection `c` fires and counts against session `h`. */
  ghost predicate Ticks(st: State, e: Event, c: nat, h: nat) {
    && e.Tick? && e.conn == c && Reaches(st, c)
    && st.conns[c].heartbeat && !st.conns[c].destroyed && st.conns[c].session == Some(h)
  }

  /** Session `h` answers, or is resumed. */
  ghost predicate Resets(st: State, e: Event, h: nat) {
    && e.Received? && Reaches(st, e.conn)
    && match st.conns[e.conn].role
       case Cb => e.frame.Pong? && st.conns[e.conn].session == Some(h)
       case Unknown => e.frame.Hello? && Accepted(e.frame.hello) && Resumes(st, e.frame.hello) && Prior(st, e.frame.hello) == Some(h)
       case Mcp => false
  }

  /** What one event does to the count of a session that has a socket afterwards. */
  ghost predicate Counted(st: State, e: Event, h: nat)
    requires h < |st.heap|
  {
    var t := Step(st, e);
    && |t.heap| >= |st.heap|
    && (t.heap[h].sock.Some? ==>
          if Resets(st, e, h) then t.heap[h].missedPongs == 0
          else
            && t.heap[h].sock == st.heap[h].sock
            && t.heap[h].missedPongs == st.heap[h].missedPongs + if Ticks(st, e, t.heap[h].sock.value, h) then 1 else 0)
  }

  /** The session is as it was, or it has just died. */
  ghost predicate AsItWas(heap: seq<S.SessionData>, heap': seq<S.SessionData>, h: nat)
    requires h < |heap|
  {
    && |heap'| >= |heap|
    && (heap'[h].sock.Some? ==> heap'[h].sock == heap[h].sock && heap'[h].missedPongs == heap[h].missedPongs)
  }

  lemma MarkDeadAsItWas(st: State, g: nat, cause: Cause, now: int, h: nat)
    requires h < |st.heap|
    ensures AsItWas(st.heap, MarkDead(st, g, cause, now).heap, h)
    ensures |MarkDead(st, g, cause, now).heap| == |st.heap|
    ensures g == h && (st.heap[h].status == S.Dead ==> st.heap[h].sock == None) ==> MarkDead(st, g, cause, now).heap[h].sock == None
  {
  }

  lemma {:induction false} PidPollAsItWas(st: State, n: nat, gone: set<nat>, now: int, h: nat)
    requires n <= |st.reg| && h < |st.heap|
    ensures AsItWas(st.heap, PidPollFirst(st, n, gone, now).heap, h)
    ensures |PidPollFirst(st, n, gone, now).heap| == |st.heap|
    decreases n
  {
    if n > 0 {
      PidPollNext(st, n, gone, now);
      hide MarkDead, PidPollFirst;
      PidPollAsItWas(st, n - 1, gone, now, h);
      MarkDeadAsItWas(PidPollFirst(st, n - 1, gone, now), st.reg[n - 1], PidGone, now, h);
    }
  }

  lemma AcceptAsItWas(st: State, c: nat, m: HelloMsg, now: int, h: nat)
    requires c < |st.conns| && h < |st.heap|
    requires Accepted(m) && Resumes(st, m) ==> Prior(st, m) != Some(h)
    ensures AsItWas(st.heap, AcceptCb(st, c, m, now).heap, h)
  {
    hide Accepted, Prior, Registered, R.Resolved, P.AddOrUpdate, N.FanoutAdded, Put, Without, S.ProcessAlive;
  }

  lemma FrameCounted(st: State, c: nat, f: Frame, now: int, h: nat)
    requires Reaches(st, c) && h < |st.heap|
    ensures Counted(st, Received(c, f, now), h)
  {
    hide AcceptCb, MarkDead, N.Drained, Accepted, Prior, Resumes;
    if st.conns[c].role == Unknown && f.Hello? {
      if Resets(st, Received(c, f, now), h) {
        ResumeResets(st, c, f.hello, now, h);
      } else {
        AcceptAsItWas(st, c, f.hello, now, h);
      }
    } else if f.Bye? && st.conns[c].session.Some? {
      MarkDeadAsItWas(st, st.conns[c].session.value, ByeFrame(f.exitCode), now, h);
    }
  }

  lemma ResumeResets(st: State, c: nat, m: HelloMsg, now: int, h: nat)
    requires c < |st.conns| && h < |st.heap| && Accepted(m) && Resumes(st, m) && Prior(st, m) == Some(h)
    ensures |AcceptCb(st, c, m, now).heap| == |st.heap| && AcceptCb(st, c, m, now).heap[h].missedPongs == 0
  {
  }

  /** What a firing interval of session `g` leaves of session `h`. */
  lemma TickLeaves(st: State, c: nat, g: nat, now: int, h: nat)
    requires c < |st.conns| && h < |st.heap| && g < |st.heap|
    requires st.conns[c].heartbeat && !st.conns[c].destroyed && st.conns[c].session == Some(g)
    ensures var t := HeartbeatTick(st, c, now);
            && |t.heap| == |st.heap|
            && (t.heap[h].sock.Some? ==>
                  && t.heap[h].sock == st.heap[h].sock
                  && t.heap[h].missedPongs == st.heap[h].missedPongs + if g == h then 1 else 0)
  {
    hide MarkDead;
    var t := WithSession(st, g, st.heap[g].(missedPongs := st.heap[g].missedPongs + 1));
    MarkDeadAsItWas(t, g, HeartbeatLost, now, h);
  }

  lemma TickCounted(st: State, c: nat, now: int, h: nat)
    requires Reaches(st, c) && h < |st.heap| && ConnFacts(st.conns[c], c, st.heap) && SessionFacts(st.heap[h], h, st.conns)
    ensures Counted(st, Tick(c, now), h)
  {
    var conn := st.conns[c];
    if conn.heartbeat && !conn.destroyed && conn.session.Some? {
      TickLeaves(st, c, conn.session.value, now, h);
      assert st.heap[h].sock == Some(c) <==> conn.session.value == h;
      hide HeartbeatTick, ConnFacts, SessionFacts;
    }
  }

  lemma CloseCounted(st: State, c: nat, now: int, h: nat)
    requires Reaches(st, c) && h < |st.heap|
    ensures Counted(st, Close(c, now), h)
  {
    hide MarkDead, N.Disconnected, WithoutPeer;
    if st.conns[c].session.Some? {
      var t := st.(conns := st.conns[c := st.conns[c].(heartbeat := false, destroyed := true, closed := true)]);
      MarkDeadAsItWas(t, st.conns[c].session.value, PipeClosed, now, h);
    }
  }

  lemma OtherCounted(st: State, e: Event, h: nat)
    requires h < |st.heap| && !e.Received? && !e.Tick? && !e.Close?
    ensures Counted(st, e, h)
  {
    hide PidPollFirst, MarkDead, N.Followup, N.WentIdle, Retained, PipeOpen, Reaches;
    match e {
      case PidPoll(gone, now) => PidPollAsItWas(st, |st.reg|, gone, now, h);
      case Inject(g, probe, throws, now) => MarkDeadAsItWas(st, g, PidGoneInject, now, h);
      case _ =>
    }
  }

  lemma StepCounted(st: State, e: Event, h: nat)
    requires Inv(st) && h < |st.heap|
    ensures Counted(st, e, h)
  {
    hide Counted;
    match e {
      case Received(c, f, now) => if Reaches(st, c) { FrameCounted(st, c, f, now, h); } else { UnreachedCounted(st, e, h); }
      case Tick(c, now) => if Reaches(st, c) { TickCounted(st, c, now, h); } else { UnreachedCounted(st, e, h); }
      case Close(c, now) => if Reaches(st, c) { CloseCounted(st, c, now, h); } else { UnreachedCounted(st, e, h); }
      case _ => OtherCounted(st, e, h);
    }
  }

  lemma UnreachedCounted(st: State, e: Event, h: nat)
    requires h < |st.heap| && (e.Received? || e.Tick? || e.Close?) && !Reaches(st, e.conn)
    ensures Counted(st, e, h)
  {
  }

  // ---------- the trace of a run ----------

  /** How many ticks of connection `c` count against `h` from event `k` on. */
  ghost function TicksSince(st: State, es: seq<Event>, c: nat, h: nat, k: nat): nat
    requires k <= |es|
    decreases |es|
  {
    if k == |es| then 0
    else
      var n := |es| - 1;
      TicksSince(st, es[..n], c, h, k) + if Ticks(Run(st, es[..n]), es[n], c, h) then 1 else 0
  }

  ghost predicate NoResetSince(st: State, es: seq<Event>, h: nat, k: nat) {
    forall i | k <= i < |es| :: !Resets(Run(st, es[..i]), es[i], h)
  }

  /** A count of the trace that explains the session's counter. */
  ghost predicate Explains(st: State, es: seq<Event>, c: nat, h: nat, k: nat) {
    && k <= |es| && NoResetSince(st, es, h, k)
    && h < |Run(st, es).heap| && TicksSince(st, es, c, h, k) == Run(st, es).heap[h].missedPongs
  }

  lemma NoResetSnoc(st: State, es: seq<Event>, h: nat, k: nat)
    requires es != [] && k < |es| && NoResetSince(st, es[..|es| - 1], h, k)
    requires !Resets(Run(st, es[..|es| - 1]), es[|es| - 1], h)
    ensures NoResetSince(st, es, h, k)
  {
    hide Run, Resets;
    forall i | k <= i < |es| ensures !Resets(Run(st, es[..i]), es[i], h) {
      if i < |es| - 1 {
        assert es[..|es| - 1][..i] == es[..i];
        assert !Resets(Run(st, es[..|es| - 1][..i]), es[..|es| - 1][i], h);
      }
    }
  }

  lemma BornWithoutMisses(st: State, e: Event, h: nat)
    requires |st.heap| <= h < |Step(st, e).heap|
    ensures Step(st, e).heap[h].missedPongs == 0
  {
    hide PidPollFirst, MarkDead, N.Followup, N.WentIdle, N.FanoutAdded, P.AddOrUpdate, R.Resolved, Retained, PipeOpen, Accepted, Prior, Without, Put;
    match e {
      case PidPoll(gone, now) => PidPollKeepsSize(st, |st.reg|, gone, now);
      case Received(c, f, now) =>
        if f.Bye? && Reaches(st, c) && st.conns[c].session.Some? {
          MarkDeadKeepsSize(st, st.conns[c].session.value, ByeFrame(f.exitCode), now);
        }
      case Tick(c, now) =>
        if Reaches(st, c) && st.conns[c].session.Some? {
          var g := st.conns[c].session.value;
          MarkDeadKeepsSize(WithSession(st, g, At(st.heap, g).(missedPongs := At(st.heap, g).missedPongs + 1)), g, HeartbeatLost, now);
        }
      case Close(c, now) =>
        if Reaches(st, c) && st.conns[c].session.Some? {
          var t := st.(conns := st.conns[c := st.conns[c].(heartbeat := false, destroyed := true, closed := true)]);
          MarkDeadKeepsSize(t, st.conns[c].session.value, PipeClosed, now);
        }
      case Inject(g, probe, throws, now) => MarkDeadKeepsSize(st, g, PidGoneInject, now);
      case _ =>
    }
  }

  lemma MarkDeadKeepsSize(st: State, h: nat, cause: Cause, now: int)
    ensures |MarkDead(st, h, cause, now).heap| == |st.heap|
  {
  }

  lemma {:induction false} PidPollKeepsSize(st: State, n: nat, gone: set<nat>, now: int)
    requires n <= |st.reg|
    ensures |PidPollFirst(st, n, gone, now).heap| == |st.heap|
    decreases n
  {
    if n > 0 {
      PidPollNext(st, n, gone, now);
      hide MarkDead, PidPollFirst;
      PidPollKeepsSize(st, n - 1, gone, now);
      MarkDeadKeepsSize(PidPollFirst(st, n - 1, gone, now), st.reg[n - 1], PidGone, now);
    }
  }

  /** The counter of a session with socket `c` is the number of ticks of `c` since some point after which nothing reset it. */
  lemma {:induction false} CounterIsTicks(file: seq<P.Entry>, start: int, es: seq<Event>, c: nat, h: nat) returns (k: nat)
    requires var st := Run(Initial(file, start), es); h < |st.heap| && st.heap[h].sock == Some(c)
    ensures Explains(Initial(file, start), es, c, h, k)
    decreases |es|
  {
    var init := Initial(file, start);
    k := |es|;
    if es != [] {
      var front, e := es[..|es| - 1], es[|es| - 1];
      var st := Run(init, front);
      if h >= |st.heap| {
        BornWithoutMisses(st, e, h);
        hide Step, Inv, Resets, Ticks;
      } else {
        RunKeepsInv(file, start, front);
        StepCounted(st, e, h);
        hide Step, Inv, Resets, Ticks;
        if !Resets(st, e, h) {
          k := CounterIsTicks(file, start, front, c, h);
          NoResetSnoc(init, es, h, k);
        }
      }
    }
  }

  // ---------- a heartbeat death ----------

  lemma TickDeath(st: State, c: nat, now: int)
    requires Inv(st) && Reaches(st, c)
    ensures var t := HeartbeatTick(st, c, now);
            t.deaths != st.deaths ==>
              && st.conns[c].session.Some?
              && (var h := st.conns[c].session.value;
                  && Ticks(st, Tick(c, now), c, h)
                  && h < |st.heap| && st.heap[h].sock == Some(c) && st.heap[h].missedPongs >= HEARTBEAT_MISS_LIMIT
                  && |t.deaths| == |st.deaths| + 1 && t.deaths[|st.deaths|].handle == h)
  {
    assert ConnFacts(st.conns[c], c, st.heap);
    hide Inv, N.FanoutDead, P.MarkEnded, ReasonText, ExitCodeIn, Clients, Destroyed;
  }

  lemma TickPastLimitKills(st: State, c: nat, now: int, h: nat)
    requires Ticks(st, Tick(c, now), c, h) && h < |st.heap| && SessionFacts(st.heap[h], h, st.conns)
    requires st.heap[h].missedPongs >= HEARTBEAT_MISS_LIMIT
    ensures |HeartbeatTick(st, c, now).heap| == |st.heap| && HeartbeatTick(st, c, now).heap[h].sock == None
  {
    var t := WithSession(st, h, st.heap[h].(missedPongs := st.heap[h].missedPongs + 1));
    MarkDeadAsItWas(t, h, HeartbeatLost, now, h);
    hide MarkDead;
  }

  lemma LimitHolds(st: State, e: Event, h: nat)
    requires Inv(st) && h < |st.heap| && (st.heap[h].sock.Some? ==> st.heap[h].missedPongs <= HEARTBEAT_MISS_LIMIT)
    ensures h < |Step(st, e).heap|
    ensures Step(st, e).heap[h].sock.Some? ==> Step(st, e).heap[h].missedPongs <= HEARTBEAT_MISS_LIMIT
  {
    StepCounted(st, e, h);
    if e.Tick? && Ticks(st, e, e.conn, h) && st.heap[h].missedPongs == HEARTBEAT_MISS_LIMIT {
      assert SessionFacts(st.heap[h], h, st.conns);
      TickPastLimitKills(st, e.conn, e.now, h);
      hide Inv, HeartbeatTick;
    } else {
      hide Inv, Step, Resets;
      assert forall c | Ticks(st, e, c, h) :: c == e.conn;
    }
  }

  /** A living session has missed at most the limit. */
  lemma {:induction false} LivingWithinLimit(file: seq<P.Entry>, start: int, es: seq<Event>, h: nat)
    ensures var st := Run(Initial(file, start), es);
            h < |st.heap| && st.heap[h].sock.Some? ==> st.heap[h].missedPongs <= HEARTBEAT_MISS_LIMIT
    decreases |es|
  {
    if es != [] {
      var front, e := es[..|es| - 1], es[|es| - 1];
      var st := Run(Initial(file, start), front);
      hide Inv, Step;
      LivingWithinLimit(file, start, front, h);
      if h < |st.heap| {
        RunKeepsInv(file, start, front);
        LimitHolds(st, e, h);
      } else if h < |Step(st, e).heap| {
        BornWithoutMisses(st, e, h);
      }
    }
  }

  /** What the trace shows when a session dies of heartbeat loss with its last event. */
  ghost predicate Earned(init: State, es: seq<Event>, h: nat, k: nat) {
    && k < |es| && es[|es| - 1].Tick?
    && (var st := Run(init, es[..|es| - 1]); h < |st.heap| && st.heap[h].sock == Some(es[|es| - 1].conn))
    && NoResetSince(init, es, h, k)
    && TicksSince(init, es, es[|es| - 1].conn, h, k) == HEARTBEAT_MISS_LIMIT + 1
  }

  /**
   heartbeat_lost happens only on the tick that completes LIMIT + 1 ticks of the session's
   current socket with no pong and no resume among or after them.
   */
  lemma HeartbeatLossIsEarned(file: seq<P.Entry>, start: int, es: seq<Event>, i: nat) returns (k: nat)
    requires es != []
    requires var st := Run(Initial(file, start), es[..|es| - 1]);
             var t := Run(Initial(file, start), es);
             |st.deaths| <= i < |t.deaths| && t.deaths[i].cause == HeartbeatLost
    ensures Earned(Initial(file, start), es, Run(Initial(file, start), es).deaths[i].handle, k)
  {
    var init, front, e := Initial(file, start), es[..|es| - 1], es[|es| - 1];
    var st := Run(init, front);
    RunKeepsInv(file, start, front);
    StepDeaths(st, e);
    assert e.Tick?;
    UnreachedTick(st, e);
    TickDeath(st, e.conn, e.now);
    var h := st.conns[e.conn].session.value;
    k := CounterIsTicks(file, start, front, e.conn, h);
    LivingWithinLimit(file, start, front, h);
    hide Inv, HeartbeatTick, Clients, Ticks;
    TickIsNoReset(st, e, h);
    NoResetSnoc(init, es, h, k);
  }

  lemma UnreachedTick(st: State, e: Event)
    requires e.Tick?
    ensures if Reaches(st, e.conn) then Step(st, e) == HeartbeatTick(st, e.conn, e.now) else Step(st, e) == st
  {
  }

  lemma TickIsNoReset(st: State, e: Event, h: nat)
    requires e.Tick?
    ensures !Resets(st, e, h)
  {
  }

  // ---------- a peer that answers ----------

  ghost predicate TickAt(init: State, es: seq<Event>, h: nat, i: nat) {
    i < |es| && es[i].Tick? && Ticks(Run(init, es[..i]), es[i], es[i].conn, h)
  }

  ghost predicate ResetAt(init: State, es: seq<Event>, h: nat, i: nat) {
    i < |es| && Resets(Run(init, es[..i]), es[i], h)
  }

  /** Between any two ticks that count against `h`, a pong or a resume is handled. */
  ghost predicate Prompt(init: State, es: seq<Event>, h: nat) {
    forall i: nat, j: nat | i < j && TickAt(init, es, h, i) && TickAt(init, es, h, j) :: exists r: nat :: i < r < j && ResetAt(init, es, h, r)
  }

  lemma {:induction false} SomeTick(init: State, es: seq<Event>, c: nat, h: nat, k: nat) returns (i: nat)
    requires k <= |es| && TicksSince(init, es, c, h, k) > 0
    ensures k <= i && TickAt(init, es, h, i)
    decreases |es|
  {
    hide Run, Ticks;
    var n := |es| - 1;
    if Ticks(Run(init, es[..n]), es[n], c, h) {
      TicksNameTheirConn(Run(init, es[..n]), es[n], c, h);
      return n;
    }
    i := SomeTick(init, es[..n], c, h, k);
    assert es[..n][..i] == es[..i];
  }

  lemma TicksNameTheirConn(st: State, e: Event, c: nat, h: nat)
    requires Ticks(st, e, c, h)
    ensures e.Tick? && e.conn == c
  {
  }

  lemma TwoTicks(init: State, es: seq<Event>, h: nat, k: nat, i: nat, j: nat)
    requires Prompt(init, es, h) && k <= i < j && TickAt(init, es, h, i) && TickAt(init, es, h, j)
    ensures !NoResetSince(init, es, h, k)
  {
    hide Run, Ticks, Resets, TickAt;
    var r: nat :| i < r < j && ResetAt(init, es, h, r);
    assert Resets(Run(init, es[..r]), es[r], h);
  }

  lemma {:induction false} AtMostOneTick(init: State, es: seq<Event>, c: nat, h: nat, k: nat)
    requires k <= |es| && NoResetSince(init, es, h, k) && Prompt(init, es, h)
    ensures TicksSince(init, es, c, h, k) <= 1
    decreases |es|
  {
    if TicksSince(init, es, c, h, k) > 0 {
      var n := |es| - 1;
      PromptPrefix(init, es, h);
      hide Run, Ticks, Resets, Prompt;
      forall i | k <= i < n ensures !Resets(Run(init, es[..n][..i]), es[..n][i], h) {
        assert es[..n][..i] == es[..i];
      }
      AtMostOneTick(init, es[..n], c, h, k);
      if Ticks(Run(init, es[..n]), es[n], c, h) && TicksSince(init, es[..n], c, h, k) > 0 {
        var i := SomeTick(init, es[..n], c, h, k);
        assert es[..n][..i] == es[..i];
        TicksNameTheirConn(Run(init, es[..n]), es[n], c, h);
        TwoTicks(init, es, h, k, i, n);
      }
    }
  }

  lemma PromptPrefix(init: State, es: seq<Event>, h: nat)
    requires es != [] && Prompt(init, es, h)
    ensures Prompt(init, es[..|es| - 1], h)
  {
    hide Run, Ticks, Resets;
    var front := es[..|es| - 1];
    forall i: nat, j: nat | i < j && TickAt(init, front, h, i) && TickAt(init, front, h, j)
      ensures exists r: nat :: i < r < j && ResetAt(init, front, h, r)
    {
      assert front[..i] == es[..i] && front[..j] == es[..j];
      assert TickAt(init, es, h, i) && TickAt(init, es, h, j);
      var r: nat :| i < r < j && ResetAt(init, es, h, r);
      assert front[..r] == es[..r];
      assert ResetAt(init, front, h, r);
    }
  }

  /** Whoever answers between every two ticks never has more than one miss while attached, and never dies of heartbeat loss. */
  lemma {:induction false} PromptPeerSurvives(file: seq<P.Entry>, start: int, es: seq<Event>, h: nat)
    requires Prompt(Initial(file, start), es, h)
    ensures var st := Run(Initial(file, start), es);
            && (h < |st.heap| && st.heap[h].sock.Some? ==> st.heap[h].missedPongs <= 1)
            && forall i | 0 <= i < |st.deaths| && st.deaths[i].handle == h :: st.deaths[i].cause != HeartbeatLost
    decreases |es|
  {
    var init := Initial(file, start);
    var st := Run(init, es);
    if h < |st.heap| && st.heap[h].sock.Some? {
      var c := st.heap[h].sock.value;
      var k := CounterIsTicks(file, start, es, c, h);
      AtMostOneTick(init, es, c, h, k);
    }
    if es != [] {
      hide Prompt, Inv, Step, NoResetSince;
      var front := es[..|es| - 1];
      PromptPrefix(init, es, h);
      PromptPeerSurvives(file, start, front, h);
      StepDeaths(Run(init, front), es[|es| - 1]);
      forall i | |Run(init, front).deaths| <= i < |st.deaths| && st.deaths[i].handle == h ensures st.deaths[i].cause != HeartbeatLost {
        if st.deaths[i].cause == HeartbeatLost {
          var k := HeartbeatLossIsEarned(file, start, es, i);
          AtMostOneTick(init, es, es[|es| - 1].conn, h, k);
          assert false;
        }
      }
    }
  }
}
