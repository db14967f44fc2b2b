/** The activity and input times of a session: exactly which events move them, and what that means for race protection. */
module DaemonTimes {
  import opened Wrappers
  import opened Constants
  import opened Decimal
  import opened Daemon
  import opened DaemonInvariants
  import opened DaemonConns
  import opened DaemonOutput
  import opened DaemonLives
  import Base64
  import J = Inject
  import N = Notifications
  import P = Persistence
  import R = Registry
  import RB = RingBuffer
  import S = Session

  /** A user_input frame handled at `now`: the time it reports, or the daemon's own if that is not positive or too far ahead. */
  datatype Input = Input(at: int, now: int) {
    function Time(): int {
      if 0 < at <= now + 1000 then at else now
    }
  }

  /** The report of the user's typing that an event delivers to session `h`, on whichever connection. */
  function InputOf(st: State, e: Event, h: nat): Option<Input> {
    if e.Received? && Attached(st, e.conn, h) && e.frame.UserInput? then Some(Input(e.frame.at, e.now)) else None
  }

  predicate PipeIsOpen(st: State, h: nat) {
    h < |st.heap| && st.heap[h].sock.Some? && st.heap[h].sock.value < |st.conns| && !st.conns[st.heap[h].sock.value].destroyed
  }

  /** The time of the activity that an event means for session `h`: output, typing, a pong, a resume or a written injection. */
  function ActivityOf(st: State, e: Event, h: nat): Option<int>
    requires h < |st.heap|
  {
    if Delivered(st, e, h) != [] then Some(e.now)
    else if InputOf(st, e, h).Some? then Some(InputOf(st, e, h).value.Time())
    else if e.Received? && Attached(st, e.conn, h) && e.frame.Pong? then Some(e.now)
    else if e.Received? && e.frame.Hello? && IsOpen(st, e.conn) && st.conns[e.conn].role == Unknown
            && Accepted(e.frame.hello) && Resumes(st, e.frame.hello) && Prior(st, e.frame.hello) == Some(h) then Some(e.now)
    else if e.Inject? && e.handle == h && S.Writes(st.heap[h].status, PipeIsOpen(st, h), e.probe, e.writeThrows) then Some(e.now)
    else None
  }

  /** Both times of a session after an event. */
  ghost predicate Timed(s: S.SessionData, t: S.SessionData, activity: Option<int>, input: Option<Input>) {
    && t.lastActivityAt == (if activity.Some? then activity.value else s.lastActivityAt)
    && t.lastUserInputAt == (if input.Some? then input.value.Time() else s.lastUserInputAt)
  }

  ghost predicate SameTimes(heap: seq<S.SessionData>, heap': seq<S.SessionData>, h: nat)
    requires h < |heap|
  {
    h < |heap'| && Timed(heap[h], heap'[h], None, None)
  }

  // ---------- handlers ----------

  lemma MarkDeadKeepsTimes(st: State, g: nat, cause: Cause, now: int, h: nat)
    requires h < |st.heap|
    ensures SameTimes(st.heap, MarkDead(st, g, cause, now).heap, h)
  {
  }

  lemma {:induction false} PidPollKeepsTimes(st: State, n: nat, gone: set<nat>, now: int, h: nat)
    requires n <= |st.reg| && h < |st.heap|
    ensures SameTimes(st.heap, PidPollFirst(st, n, gone, now).heap, h)
    decreases n
  {
    if n > 0 {
      PidPollNext(st, n, gone, now);
      hide MarkDead, PidPollFirst;
      PidPollKeepsTimes(st, n - 1, gone, now, h);
      MarkDeadKeepsTimes(PidPollFirst(st, n - 1, gone, now), st.reg[n - 1], PidGone, now, h);
    }
  }

  /** The times after an event are those that its activity and input call for. */
  ghost predicate Keeps(st: State, t: State, e: Event, h: nat)
    requires h < |st.heap|
  {
    h < |t.heap| && Timed(st.heap[h], t.heap[h], ActivityOf(st, e, h), InputOf(st, e, h))
  }

  lemma AcceptTimes(st: State, c: nat, m: HelloMsg, now: int, h: nat)
    requires IsOpen(st, c) && st.conns[c].role == Unknown && h < |st.heap|
    ensures Keeps(st, AcceptCb(st, c, m, now), Received(c, Hello(m), now), h)
  {
    hide Accepted, Prior, Registered, R.Resolved, P.AddOrUpdate, N.FanoutAdded, Put, Without, S.ProcessAlive;
  }

  lemma CbFrameTimes(st: State, c: nat, g: nat, f: Frame, now: int, h: nat)
    requires Attached(st, c, g) && g < |st.heap| && h < |st.heap|
    ensures Keeps(st, CbFrame(st, g, f, now), Received(c, f, now), h)
  {
    hide MarkDead, Base64.DecodeStrict, RB.Evict, RB.Stored;
    MarkDeadKeepsTimes(st, g, ByeFrame(if f.Bye? then f.exitCode else 0), now, h);
  }

  lemma FrameTimes(st: State, c: nat, f: Frame, now: int, h: nat)
    requires IsOpen(st, c) && h < |st.heap|
    requires st.conns[c].role == Cb <==> st.conns[c].session.Some?
    requires st.conns[c].session.Some? ==> st.conns[c].session.value < |st.heap|
    ensures Keeps(st, Dispatch(st, c, f, now), Received(c, f, now), h)
  {
    hide AcceptCb, CbFrame, N.Drained, Delivered;
    if st.conns[c].role == Unknown && f.Hello? {
      AcceptTimes(st, c, f.hello, now, h);
    } else if st.conns[c].role == Cb {
      CbFrameTimes(st, c, st.conns[c].session.value, f, now, h);
    } else {
      NothingDelivered(st, c, f, now, h);
    }
  }

  lemma NothingDelivered(st: State, c: nat, f: Frame, now: int, h: nat)
    requires c < |st.conns| && st.conns[c].role != Cb
    ensures Delivered(st, Received(c, f, now), h) == []
  {
  }

  lemma TimersKeepTimes(st: State, c: nat, now: int, h: nat)
    requires c < |st.conns| && h < |st.heap|
    ensures SameTimes(st.heap, HeartbeatTick(st, c, now).heap, h) && SameTimes(st.heap, HandleClose(st, c, now).heap, h)
  {
    hide MarkDead, N.Disconnected, WithoutPeer;
    if st.conns[c].session.Some? {
      var g := st.conns[c].session.value;
      var t := WithSession(st, g, At(st.heap, g).(missedPongs := At(st.heap, g).missedPongs + 1));
      MarkDeadKeepsTimes(t, g, HeartbeatLost, now, h);
      var u := st.(conns := st.conns[c := st.conns[c].(heartbeat := false, destroyed := true, closed := true)]);
      MarkDeadKeepsTimes(u, g, PipeClosed, now, h);
    }
  }

  lemma InjectTimes(st: State, g: nat, probe: S.Probe, throws: bool, now: int, h: nat)
    requires g < |st.heap| && h < |st.heap|
    ensures Keeps(st, InjectInto(st, g, probe, throws, now), Inject(g, probe, throws, now), h)
  {
    hide MarkDead, S.InjectDecision;
    S.InjectDecides(At(st.heap, g).status, PipeOpen(st, g), probe, throws, 0);
    MarkDeadKeepsTimes(st, g, PidGoneInject, now, h);
  }

  lemma OtherTimes(st: State, e: Event, h: nat)
    requires h < |st.heap| && (e.Received? ==> !IsOpen(st, e.conn)) && (e.Inject? ==> e.handle >= |st.heap|)
    ensures Keeps(st, Step(st, e), e, h)
  {
    hide HeartbeatTick, HandleClose, PidPollFirst, N.Followup, N.WentIdle, N.Expired, Retained;
    match e {
      case Tick(c, now) => if IsOpen(st, c) { TimersKeepTimes(st, c, now, h); }
      case Close(c, now) => if IsOpen(st, c) { TimersKeepTimes(st, c, now, h); }
      case PidPoll(gone, now) => PidPollKeepsTimes(st, |st.reg|, gone, now, h);
      case _ =>
    }
  }

  /** An event moves the times of a session exactly as its activity and input call for. */
  lemma StepTimes(st: State, e: Event, h: nat)
    requires Inv(st) && h < |st.heap|
    ensures Keeps(st, Step(st, e), e, h)
  {
    hide Inv, Keeps;
    match e {
      case Received(c, f, now) =>
        if IsOpen(st, c) { ConnOf(st, c); FrameTimes(st, c, f, now, h); } else { OtherTimes(st, e, h); }
      case Inject(g, probe, throws, now) =>
        if g < |st.heap| { InjectTimes(st, g, probe, throws, now, h); } else { OtherTimes(st, e, h); }
      case _ => OtherTimes(st, e, h);
    }
    hide Dispatch, InjectInto;
  }

  /**
   Injecting, exactly: the probe comes first. With the pipe open and the process gone the
   session dies of it and nothing is written; with the process seen and a write that does not
   throw only the activity time moves; otherwise nothing happens.
   */
  lemma InjectOutcome(st: State, h: nat, probe: S.Probe, throws: bool, now: int)
    requires Inv(st) && h < |st.heap|
    ensures var t, s, open := Step(st, Inject(h, probe, throws, now)), st.heap[h], st.heap[h].status == S.Alive && PipeIsOpen(st, h);
            if open && probe == S.Gone then
              && DiedOf(st, t, h, PidGoneInject, now)
              && t.deaths == st.deaths + [Death(h, s.id, s.name, PidGoneInject, Clients(st.peers))]
              && s.sock.value < |t.conns| && t.conns[s.sock.value].destroyed
              && forall g | 0 <= g < |st.heap| && g != h :: g < |t.heap| && t.heap[g] == st.heap[g]
            else if open && !throws then t == st.(heap := st.heap[h := s.(lastActivityAt := now)])
            else t == st
  {
    StepKillsExactly(st, Inject(h, probe, throws, now), h);
    S.InjectDecides(st.heap[h].status, PipeOpen(st, h), probe, throws, 0);
    hide Inv, Outcome, DiedOf, S.InjectDecision, N.FanoutDead, P.MarkEnded, ReasonText, ExitCodeIn, Clients;
    OutcomeIs(st, Step(st, Inject(h, probe, throws, now)), Inject(h, probe, throws, now), h);
  }

  lemma OutcomeIs(st: State, t: State, e: Event, h: nat)
    requires h < |st.heap| && Outcome(st, t, e, h)
    ensures KilledBy(st, e, h).Some? ==> DiedOf(st, t, h, KilledBy(st, e, h).value, e.now)
    ensures KilledBy(st, e, h) == None ==> LivesOn(st, t, h)
  {
  }

  // ---------- whole runs ----------

  function Typed(st: State, e: Event, h: nat): seq<Input> {
    if InputOf(st, e, h).Some? then [InputOf(st, e, h).value] else []
  }

  /** All reports of typing delivered to session `h` in a run. */
  function InputsTo(st: State, es: seq<Event>, h: nat): seq<Input>
    decreases |es|
  {
    if es == [] then [] else InputsTo(st, es[..|es| - 1], h) + Typed(Run(st, es[..|es| - 1]), es[|es| - 1], h)
  }

  function LastInput(inputs: seq<Input>, otherwise: int): int {
    if inputs == [] then otherwise else inputs[|inputs| - 1].Time()
  }

  lemma LastInputAppend(a: seq<Input>, b: seq<Input>, otherwise: int)
    ensures LastInput(a + b, otherwise) == LastInput(b, LastInput(a, otherwise))
    ensures LastInput([], otherwise) == otherwise
  {
    if b == [] {
      assert a + b == a;
    }
  }

  lemma StepInput(st: State, e: Event, h: nat)
    requires Inv(st) && h < |st.heap|
    ensures h < |Step(st, e).heap|
    ensures Step(st, e).heap[h].lastUserInputAt == LastInput(Typed(st, e, h), st.heap[h].lastUserInputAt)
  {
    StepTimes(st, e, h);
    hide Inv, Step, InputOf, ActivityOf;
  }

  /** lastUserInputAt is the time of the latest report. */
  lemma {:induction false} LastInputIs(st: State, es: seq<Event>, h: nat)
    requires Inv(st) && h < |st.heap|
    ensures h < |Run(st, es).heap|
    ensures Run(st, es).heap[h].lastUserInputAt == LastInput(InputsTo(st, es, h), st.heap[h].lastUserInputAt)
    decreases |es|
  {
    hide Inv, Step, Typed, LastInput;
    if es == [] {
      LastInputAppend([], [], st.heap[h].lastUserInputAt);
    } else {
      var front, e := es[..|es| - 1], es[|es| - 1];
      LastInputIs(st, front, h);
      RunInv(st, front);
      StepInput(Run(st, front), e, h);
      LastInputAppend(InputsTo(st, front, h), Typed(Run(st, front), e, h), st.heap[h].lastUserInputAt);
    }
  }

  lemma NoInputBeforeBirth(st: State, e: Event, h: nat)
    requires Inv(st) && h >= |st.heap|
    ensures Typed(st, e, h) == []
  {
    if e.Received? && IsOpen(st, e.conn) {
      ConnOf(st, e.conn);
    }
    hide Inv;
  }

  /** The input time of a session that exists; a session that does not exist has been told nothing. */
  ghost predicate InputKnown(t: State, h: nat, inputs: seq<Input>) {
    if h >= |t.heap| then inputs == []
    else t.heap[h].lastUserInputAt == LastInput(inputs, t.heap[h].startedAt - 1501)
  }

  lemma InputStaysKnown(st: State, e: Event, h: nat, inputs: seq<Input>)
    requires Inv(st) && InputKnown(st, h, inputs)
    ensures InputKnown(Step(st, e), h, inputs + Typed(st, e, h))
  {
    hide Inv, Step, Typed, Founds;
    if h < |st.heap| {
      StepInput(st, e, h);
      SelfStays(st, e, h);
      LastInputAppend(inputs, Typed(st, e, h), st.heap[h].startedAt - 1501);
      hide LastInput;
    } else {
      NoInputBeforeBirth(st, e, h);
      HeapGrowsBy(st, e);
      if h < |Step(st, e).heap| {
        BornByHello(st, e, h);
      }
    }
  }

  /** Over every run: the time of the latest user_input frame delivered on any connection, or so early that nobody counts as typing. */
  lemma {:induction false} InputTimeIs(init: State, es: seq<Event>, h: nat)
    requires Inv(init) && h >= |init.heap|
    ensures InputKnown(Run(init, es), h, InputsTo(init, es, h))
    decreases |es|
  {
    if es != [] {
      hide Inv, Step, Typed, InputKnown;
      InputTimeIs(init, es[..|es| - 1], h);
      RunInv(init, es[..|es| - 1]);
      InputStaysKnown(Run(init, es[..|es| - 1]), es[|es| - 1], h, InputsTo(init, es[..|es| - 1], h));
    }
  }

  lemma HeapGrowsBy(st: State, e: Event)
    requires Inv(st)
    ensures |Step(st, e).heap| >= |st.heap|
  {
    hide Inv, Step;
    StepStores(st, e, 0);
  }

  lemma SelfStays(st: State, e: Event, h: nat)
    requires Inv(st) && h < |st.heap|
    ensures h < |Step(st, e).heap| && SameSelf(st.heap[h], Step(st, e).heap[h])
  {
    StepKillsExactly(st, e, h);
    hide Inv, Step, KilledBy;
  }

  // ---------- race protection in the running daemon ----------

  /** The reports are cb's notifications of these times, handled at any later time, or up to a second early by the daemon's clock. */
  ghost predicate ReportsOf(inputs: seq<Input>, sent: seq<int>) {
    |inputs| == |sent| && forall i | 0 <= i < |sent| :: inputs[i].at == sent[i] && 0 < sent[i] <= inputs[i].now + 1000
  }

  lemma {:induction false} DeliveredIsLast(s: S.SessionData, sent: seq<int>)
    requires forall i | 0 <= i < |sent| :: sent[i] > 0
    ensures J.Delivered(s, sent).lastUserInputAt == if sent == [] then s.lastUserInputAt else sent[|sent| - 1]
    decreases |sent|
  {
    if sent != [] {
      DeliveredIsLast(S.WithUserInput(s, sent[0], sent[0]), sent[1..]);
    }
  }

  /** What the injector reads of the session is what the notifications say. */
  lemma ReportsArrive(st: State, es: seq<Event>, h: nat, keys: seq<int>, o: J.Observation)
    requires Inv(st) && h < |st.heap| && J.InOrder(keys) && (keys != [] ==> keys[0] >= J.USER_INPUT_THROTTLE_MS)
    requires ReportsOf(InputsTo(st, es, h), J.Notified(keys, 0))
    requires h < |Run(st, es).heap| && o.lastUserInputAt == Run(st, es).heap[h].lastUserInputAt
    ensures J.Reported(o, st.heap[h], keys)
  {
    LastInputIs(st, es, h);
    DeliveredIsLast(st.heap[h], J.Notified(keys, 0));
    hide Inv, Run, J.Notified, J.Delivered, J.InOrder;
  }

  /**
   Race protection, from the keyboard to the pipe: in every run of the daemon in which cb's
   throttled notifications of some keystrokes have been handled, an unforced inject that polls
   the session at the end of the run and writes a frame does so more than `need - 200` ms
   after every one of these keystrokes.
   */
  lemma UnforcedFrameWaitsForSilence(st: State, es: seq<Event>, h: nat, keys: seq<int>,
                                     tl: J.Timeline, n: nat, need: int, r: J.Outcome, fx: J.Effects, polls: nat)
    requires Inv(st) && h < |st.heap| && J.InOrder(keys) && (keys != [] ==> keys[0] >= J.USER_INPUT_THROTTLE_MS)
    requires ReportsOf(InputsTo(st, es, h), J.Notified(keys, 0))
    requires J.EndsWith(tl, n, false, need, r, fx, polls) && fx.frames == 1
    requires h < |Run(st, es).heap| && tl(polls).lastUserInputAt == Run(st, es).heap[h].lastUserInputAt
    ensures forall i | 0 <= i < |keys| :: tl(polls).now - keys[i] > need - J.USER_INPUT_THROTTLE_MS
  {
    hide Inv, Run, J.EndsWith, J.Notified;
    ReportsArrive(st, es, h, keys, tl(polls));
    J.UnforcedFrameMeansOldKeystrokes(tl, n, need, r, fx, polls, st.heap[h], keys);
  }
}
