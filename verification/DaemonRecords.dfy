/** What the persisted history says about deaths, over every run of the daemon. */
module DaemonRecords {
  import opened Wrappers
  import opened Constants
  import opened Decimal
  import opened Daemon
  import opened DaemonInvariants
  import opened DaemonOutput
  import opened DaemonLives
  import N = Notifications
  import P = Persistence
  import R = Registry
  import S = Session

  /** The entry tells of this death: its reason, its exit code exactly for a bye, and the time at which the session died. */
  ghost predicate Tells(e: P.Entry, d: Death, heap: seq<S.SessionData>) {
    && d.id == e.id && e.endReason == Some(ReasonText(d.cause))
    && e.exitCode == (match d.cause case ByeFrame(n) => Some(n) case _ => None)
    && e.endedAt.Some?
    && d.handle < |heap| && heap[d.handle].status == S.Dead && heap[d.handle].diedAt == e.endedAt
  }

  ghost predicate Told(e: P.Entry, deaths: seq<Death>, heap: seq<S.SessionData>) {
    exists i :: 0 <= i < |deaths| && Tells(e, deaths[i], heap)
  }

  /** An open entry has neither reason nor exit code; an ended one was loaded so, or tells of a death of its session. */
  ghost predicate Explained(e: P.Entry, loaded: seq<P.Entry>, deaths: seq<Death>, heap: seq<S.SessionData>) {
    if e.endedAt == None then e.endReason == None && e.exitCode == None else e in loaded || Told(e, deaths, heap)
  }

  ghost predicate HistoryExplained(st: State, loaded: seq<P.Entry>) {
    forall e | e in st.hist :: Explained(e, loaded, st.deaths, st.heap)
  }

  /** The dead stay dead since the same time. */
  ghost predicate DeadStay(heap: seq<S.SessionData>, heap': seq<S.SessionData>) {
    |heap'| >= |heap| && forall h | 0 <= h < |heap| && heap[h].status == S.Dead :: heap'[h].status == S.Dead && heap'[h].diedAt == heap[h].diedAt
  }

  lemma StillExplained(e: P.Entry, loaded: seq<P.Entry>, deaths: seq<Death>, heap: seq<S.SessionData>, deaths': seq<Death>, heap': seq<S.SessionData>)
    requires Explained(e, loaded, deaths, heap) && deaths <= deaths' && DeadStay(heap, heap')
    ensures Explained(e, loaded, deaths', heap')
  {
    hide ReasonText;
    if Told(e, deaths, heap) {
      var i :| 0 <= i < |deaths| && Tells(e, deaths[i], heap);
      assert deaths'[i] == deaths[i] && Tells(e, deaths'[i], heap');
    }
  }

  /** Same history, nothing undone. */
  lemma QuietlyExplained(st: State, t: State, loaded: seq<P.Entry>)
    requires HistoryExplained(st, loaded) && t.hist == st.hist && st.deaths <= t.deaths && DeadStay(st.heap, t.heap)
    ensures HistoryExplained(t, loaded)
  {
    hide Explained, DeadStay;
    forall e | e in t.hist ensures Explained(e, loaded, t.deaths, t.heap) {
      StillExplained(e, loaded, st.deaths, st.heap, t.deaths, t.heap);
    }
  }

  lemma MarkDeadIsQuiet(st: State, h: nat, cause: Cause, now: int)
    ensures var t := MarkDead(st, h, cause, now);
            && DeadStay(st.heap, t.heap) && st.deaths <= t.deaths
            && (h < |st.heap| && st.heap[h].status == S.Alive ==>
                  && t.hist == P.MarkEnded(st.hist, st.heap[h].id, ReasonText(cause), ExitCodeIn(ReasonText(cause)), now)
                  && |t.deaths| == |st.deaths| + 1
                  && t.deaths[|st.deaths|].id == st.heap[h].id && t.deaths[|st.deaths|].cause == cause && t.deaths[|st.deaths|].handle == h
                  && h < |t.heap| && t.heap[h].status == S.Dead && t.heap[h].diedAt == Some(now))
            && (h >= |st.heap| || st.heap[h].status == S.Dead ==> t == st)
  {
    hide P.MarkEnded, N.FanoutDead, ReasonText, ExitCodeIn, Clients, Destroyed;
  }

  lemma EndingTells(o: P.Entry, e: P.Entry, d: Death, heap: seq<S.SessionData>, now: int)
    requires P.EndsAs(o, e, ReasonText(d.cause), ExitCodeIn(ReasonText(d.cause)), now) && o.exitCode == None
    requires d.id == o.id && d.handle < |heap| && heap[d.handle].status == S.Dead && heap[d.handle].diedAt == Some(now)
    ensures Tells(e, d, heap)
  {
    ExitCodeSurvivesText(d.cause);
    hide ReasonText, ExitCodeIn;
  }

  lemma MarkDeadExplained(st: State, h: nat, cause: Cause, now: int, loaded: seq<P.Entry>)
    requires HistoryExplained(st, loaded)
    ensures HistoryExplained(MarkDead(st, h, cause, now), loaded)
  {
    MarkDeadIsQuiet(st, h, cause, now);
    hide MarkDead, P.MarkEnded, ReasonText, ExitCodeIn, DeadStay, Told, Tells, P.EndsAs;
    var t := MarkDead(st, h, cause, now);
    if h < |st.heap| && st.heap[h].status == S.Alive {
      var d := t.deaths[|st.deaths|];
      P.EndMembers(st.hist, d.id, ReasonText(cause), ExitCodeIn(ReasonText(cause)), now);
      forall e | e in t.hist ensures Explained(e, loaded, t.deaths, t.heap) {
        if e in st.hist {
          StillExplained(e, loaded, st.deaths, st.heap, t.deaths, t.heap);
        } else {
          var o :| o in st.hist && o.id == d.id && P.IsOpen(o)
                   && P.EndsAs(o, e, ReasonText(cause), ExitCodeIn(ReasonText(cause)), now);
          EndingTells(o, e, d, t.heap, now);
          ToldBy(e, t.deaths, t.heap, |st.deaths|);
        }
      }
    }
  }

  lemma ToldBy(e: P.Entry, deaths: seq<Death>, heap: seq<S.SessionData>, i: nat)
    requires i < |deaths| && Tells(e, deaths[i], heap)
    ensures Told(e, deaths, heap) && e.endedAt.Some?
  {
  }

  lemma {:induction false} PidPollExplained(st: State, n: nat, gone: set<nat>, now: int, loaded: seq<P.Entry>)
    requires n <= |st.reg| && HistoryExplained(st, loaded)
    ensures HistoryExplained(PidPollFirst(st, n, gone, now), loaded)
    decreases n
  {
    if n > 0 {
      PidPollNext(st, n, gone, now);
      hide MarkDead, PidPollFirst, HistoryExplained;
      PidPollExplained(st, n - 1, gone, now, loaded);
      MarkDeadExplained(PidPollFirst(st, n - 1, gone, now), st.reg[n - 1], PidGone, now, loaded);
    }
  }

  lemma AttachExplained(st: State, c: nat, m: HelloMsg, now: int, loaded: seq<P.Entry>)
    requires c < |st.conns| && HistoryExplained(st, loaded)
    ensures HistoryExplained(Attach(st, c, m, now), loaded)
  {
    var t, name := Attach(st, c, m, now), R.Resolved(Registered(st.heap, st.reg), RequestedLabel(m), now);
    var meta := Meta(S.NewData(m.id, name, m.pid, m.startedAt, c, now));
    P.AddMembers(st.hist, meta);
    hide R.Resolved, P.AddOrUpdate, N.FanoutAdded, Put, Clients, Registered, Told;
    assert DeadStay(st.heap, t.heap);
    hide DeadStay;
    forall e | e in t.hist ensures Explained(e, loaded, t.deaths, t.heap) {
      if e in st.hist {
        StillExplained(e, loaded, st.deaths, st.heap, t.deaths, t.heap);
      }
    }
  }

  lemma FrameExplained(st: State, c: nat, f: Frame, now: int, loaded: seq<P.Entry>)
    requires IsOpen(st, c) && HistoryExplained(st, loaded)
    ensures HistoryExplained(Dispatch(st, c, f, now), loaded)
  {
    hide HistoryExplained, MarkDead, Attach, AcceptMcp, Base64.DecodeStrict, S.WithStdout, N.Drained, Accepted, Resumes, Prior;
    var t := Dispatch(st, c, f, now);
    if Founds(st, Received(c, f, now)) {
      PurgedIsQuiet(st, f.hello);
      QuietlyExplained(st, Purged(st, f.hello), loaded);
      hide Purged;
      AttachExplained(Purged(st, f.hello), c, f.hello, now, loaded);
    } else if f.Bye? && st.conns[c].role == Cb && st.conns[c].session.Some? {
      MarkDeadExplained(st, st.conns[c].session.value, ByeFrame(f.exitCode), now, loaded);
    } else {
      FrameIsQuiet(st, c, f, now);
      QuietlyExplained(st, t, loaded);
    }
  }

  lemma PurgedIsQuiet(st: State, m: HelloMsg)
    ensures var t := Purged(st, m);
            t.hist == st.hist && t.deaths == st.deaths && t.heap == st.heap && t.conns == st.conns && DeadStay(st.heap, t.heap)
  {
  }

  lemma FrameIsQuiet(st: State, c: nat, f: Frame, now: int)
    requires IsOpen(st, c) && !Founds(st, Received(c, f, now)) && !(f.Bye? && st.conns[c].role == Cb && st.conns[c].session.Some?)
    ensures var t := Dispatch(st, c, f, now); t.hist == st.hist && t.deaths == st.deaths && DeadStay(st.heap, t.heap)
  {
    hide MarkDead, Attach, Accepted, Prior, Purged, N.Drained, Base64.DecodeStrict;
  }

  lemma TickExplained(st: State, c: nat, now: int, loaded: seq<P.Entry>)
    requires c < |st.conns| && HistoryExplained(st, loaded)
    ensures HistoryExplained(HeartbeatTick(st, c, now), loaded)
  {
    hide MarkDead, Explained;
    if st.conns[c].session.Some? {
      var g := st.conns[c].session.value;
      var u := WithSession(st, g, At(st.heap, g).(missedPongs := At(st.heap, g).missedPongs + 1));
      QuietlyExplained(st, u, loaded);
      MarkDeadExplained(u, g, HeartbeatLost, now, loaded);
    }
  }

  lemma CloseExplained(st: State, c: nat, now: int, loaded: seq<P.Entry>)
    requires c < |st.conns| && HistoryExplained(st, loaded)
    ensures HistoryExplained(HandleClose(st, c, now), loaded)
  {
    hide MarkDead, Explained, N.Disconnected, WithoutPeer;
    if st.conns[c].session.Some? {
      var u := st.(conns := st.conns[c := st.conns[c].(heartbeat := false, destroyed := true, closed := true)]);
      QuietlyExplained(st, u, loaded);
      MarkDeadExplained(u, st.conns[c].session.value, PipeClosed, now, loaded);
    }
  }

  lemma OtherExplained(st: State, e: Event, loaded: seq<P.Entry>)
    requires HistoryExplained(st, loaded) && !e.Received? && !e.Tick? && !e.Close? && !e.PidPoll?
    ensures HistoryExplained(Step(st, e), loaded)
  {
    hide HistoryExplained, MarkDead, N.Followup, N.WentIdle, N.Expired, Retained, PipeOpen;
    match e {
      case Inject(h, probe, throws, now) =>
        MarkDeadExplained(st, h, PidGoneInject, now, loaded);
        QuietlyExplained(st, WithSession(st, h, At(st.heap, h).(lastActivityAt := now)), loaded);
      case _ => QuietlyExplained(st, Step(st, e), loaded);
    }
  }

  lemma StepExplained(st: State, e: Event, loaded: seq<P.Entry>)
    requires HistoryExplained(st, loaded)
    ensures HistoryExplained(Step(st, e), loaded)
  {
    hide HistoryExplained, Dispatch, HeartbeatTick, HandleClose, PidPollFirst;
    match e {
      case Received(c, f, now) => if IsOpen(st, c) { FrameExplained(st, c, f, now, loaded); }
      case Tick(c, now) => if IsOpen(st, c) { TickExplained(st, c, now, loaded); }
      case Close(c, now) => if IsOpen(st, c) { CloseExplained(st, c, now, loaded); }
      case PidPoll(gone, now) => PidPollExplained(st, |st.reg|, gone, now, loaded);
      case _ => OtherExplained(st, e, loaded);
    }
  }

  lemma LoadedExplained(file: seq<P.Entry>, start: int)
    ensures HistoryExplained(Initial(file, start), P.Loaded(file, start))
  {
    var loaded := P.Loaded(file, start);
    forall e | e in loaded ensures e.endedAt.Some? {
      var i :| 0 <= i < |loaded| && loaded[i] == e;
      P.LoadedRecords(file, start, i);
    }
  }

  /**
   Over every run, from any file: an open history entry has neither reason nor exit code, and
   every ended one either was loaded with the file or tells of a death of its session that the
   listeners were called for: its reason, its exit code exactly for a bye, its time.
   */
  lemma {:induction false} EveryEndingIsExplained(file: seq<P.Entry>, start: int, es: seq<Event>)
    ensures HistoryExplained(Run(Initial(file, start), es), P.Loaded(file, start))
    decreases |es|
  {
    hide HistoryExplained, Step, P.Loaded;
    if es == [] {
      LoadedExplained(file, start);
    } else {
      EveryEndingIsExplained(file, start, es[..|es| - 1]);
      StepExplained(Run(Initial(file, start), es[..|es| - 1]), es[|es| - 1], P.Loaded(file, start));
    }
  }
}
