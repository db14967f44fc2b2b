/**
 Follow-up watchers in the running daemon: packages/bridged/src/pipe-server.ts starts one after
 each successful inject, its interval samples the screen, and packages/bridged/src/notifications.ts
 enqueues task_complete when it finds the session idle. Here the intervals' ticks, not their
 verdicts, are the events.
 */
module DaemonWatchers {
  import opened Wrappers
  import opened Daemon
  import opened DaemonInvariants
  import opened DaemonNotices
  import opened DaemonOutput
  import N = Notifications
  import P = Persistence
  import WF = WaitFor

  /** The defaults of startIdleWatcher. */
  const BACKGROUND := WF.Options(300_000, 8, 1500)

  /** A watcher: the session it samples, when it was started, and the ticks its interval has fired. */
  datatype Watch = Watch(handle: nat, start: int, ticks: seq<WF.Tick>)

  /** The daemon with the watchers it has started, in order. */
  datatype World = World(st: State, watches: seq<Watch>)

  datatype Act =
    | Do(event: Event)
    | Follow(conn: nat, handle: nat, now: int)
    | Fires(watcher: nat, now: int, hash: WF.Hash)

  /** An event that concerns no watcher's interval. */
  predicate Ordinary(e: Event) {
    !e.InjectFollowup? && !e.WatcherIdle? && !e.WatcherExpires?
  }

  function TickOf(w: World, n: nat, now: int, hash: WF.Hash): WF.Tick
    requires n < |w.watches|
  {
    WF.Tick(now - w.watches[n].start, now - At(w.st.heap, w.watches[n].handle).lastOutputAt, hash)
  }

  /** What the verdict on the ticks so far makes the daemon do. */
  function Decide(st: State, n: nat, outcome: WF.Outcome, now: int): State {
    match outcome
    case Waiting => st
    case Idle(ms) => Step(st, WatcherIdle(n, ms, now))
    case TimedOut(_) => Step(st, WatcherExpires(n))
  }

  /** Only running intervals fire. */
  function Perform(w: World, a: Act): World {
    match a
    case Do(e) => if Ordinary(e) then w.(st := Step(w.st, e)) else w
    case Follow(c, h, now) =>
      var t := Step(w.st, InjectFollowup(c, h));
      World(t, w.watches + (if |t.notif.owners| > |w.st.notif.owners| then [Watch(h, now, [])] else []))
    case Fires(n, now, hash) =>
      if n < |w.watches| && n in w.st.notif.live then
        var ticks := w.watches[n].ticks + [TickOf(w, n, now, hash)];
        World(Decide(w.st, n, WF.Run(BACKGROUND, ticks).outcome, now), w.watches[n := w.watches[n].(ticks := ticks)])
      else w
  }

  function RunActs(w: World, acts: seq<Act>): World {
    if acts == [] then w else Perform(RunActs(w, acts[..|acts| - 1]), acts[|acts| - 1])
  }

  function Start(file: seq<P.Entry>, now: int): World {
    World(Initial(file, now), [])
  }

  // ---------- the center seen from the watchers ----------

  /** Owners stay, watchers at most stop, and what is logged is no completion. */
  ghost predicate Plainly(s: N.State, t: N.State) {
    && t.owners == s.owners && t.live <= s.live && s.log <= t.log
    && forall i | |s.log| <= i < |t.log| :: t.log[i].watcher == None
  }

  lemma PlainlyTransitive(r: N.State, s: N.State, t: N.State)
    requires Plainly(r, s) && Plainly(s, t)
    ensures Plainly(r, t)
  {
  }

  predicate PlainNote(e: N.Event) {
    e.Died? || e.Added? || e.Drain? || e.Disconnect?
  }

  ghost predicate AllPlain(ns: seq<N.Event>) {
    forall i | 0 <= i < |ns| :: PlainNote(ns[i])
  }

  lemma {:induction false} FanoutsArePlain(s: N.State, clients: seq<string>, sessionId: string, name: string, kind: N.Kind, now: int)
    ensures Plainly(s, N.FanoutDead(s, clients, sessionId, name, kind, now))
    ensures Plainly(s, N.FanoutAdded(s, clients, sessionId, name, now))
  {
    if clients != [] {
      FanoutsArePlain(s, clients[..|clients| - 1], sessionId, name, kind, now);
    }
  }

  lemma {:induction false} PlainRun(s: N.State, ns: seq<N.Event>)
    requires AllPlain(ns)
    ensures Plainly(s, N.Run(s, ns))
  {
    if ns != [] {
      var t, e := N.Run(s, ns[..|ns| - 1]), ns[|ns| - 1];
      PlainRun(s, ns[..|ns| - 1]);
      assert PlainNote(e);
      hide N.Run, Plainly;
      PlainStep(t, e);
      PlainlyTransitive(s, t, N.Step(t, e));
    }
  }

  lemma PlainStep(s: N.State, e: N.Event)
    requires PlainNote(e)
    ensures Plainly(s, N.Step(s, e))
  {
    hide N.FanoutDead, N.FanoutAdded, N.Owned, N.Handles;
    match e {
      case Died(cs, id, name, reason, code, now) => FanoutsArePlain(s, cs, id, name, N.DeathKind(reason, code), now);
      case Added(cs, id, name, now) => FanoutsArePlain(s, cs, id, name, N.SessionAdded, now);
      case _ =>
    }
  }

  lemma {:induction false} PollIsPlain(st: State, n: nat, gone: set<nat>, now: int)
    requires n <= |st.reg|
    ensures AllPlain(PollNotes(st, n, gone, now))
    decreases n
  {
    if n > 0 {
      hide MarkDead, PidPollFirst;
      PollIsPlain(st, n - 1, gone, now);
    }
  }

  lemma OrdinaryIsPlain(st: State, e: Event)
    requires Ordinary(e)
    ensures Plainly(st.notif, Step(st, e).notif)
  {
    assert AllPlain(Notes(st, e)) by {
      hide PollNotes, PipeOpen, Accepted, Resumes, Registered;
      if e.PidPoll? {
        PollIsPlain(st, |st.reg|, e.gone, e.now);
      }
    }
    StepDrives(st, e);
    hide Notes, Step, AllPlain, Plainly;
    PlainRun(st.notif, Notes(st, e));
  }

  // ---------- what every act keeps ----------

  /** A running watcher is undecided; one that has completed was found idle by its last tick; ticks come before the verdict. */
  ghost predicate WatchOk(notif: N.State, n: nat, ticks: seq<WF.Tick>) {
    && (n in notif.live ==> WF.Run(BACKGROUND, ticks).outcome == WF.Waiting)
    && (ticks != [] ==> WF.Run(BACKGROUND, ticks[..|ticks| - 1]).outcome == WF.Waiting)
    && (forall i | 0 <= i < |notif.log| && notif.log[i].watcher == Some(n) :: Completes(notif.log[i], ticks))
  }

  /** The entry is the completion that the verdict on these ticks calls for. */
  ghost predicate Completes(l: N.Logged, ticks: seq<WF.Tick>) {
    l.note.kind.TaskComplete? && WF.Run(BACKGROUND, ticks).outcome == WF.Idle(l.note.kind.silentForMs)
  }

  ghost predicate WatchesOk(w: World) {
    && |w.watches| == |w.st.notif.owners|
    && forall n | 0 <= n < |w.watches| :: WatchOk(w.st.notif, n, w.watches[n].ticks)
  }

  lemma PlainKeepsWatch(s: N.State, t: N.State, n: nat, ticks: seq<WF.Tick>)
    requires WatchOk(s, n, ticks) && Plainly(s, t)
    ensures WatchOk(t, n, ticks)
  {
    hide WF.Run;
    forall i | 0 <= i < |t.log| && t.log[i].watcher == Some(n) ensures Completes(t.log[i], ticks) {
      assert i < |s.log| && t.log[i] == s.log[i];
    }
  }

  lemma DoKeepsWatches(w: World, e: Event)
    requires WatchesOk(w) && Ordinary(e)
    ensures WatchesOk(Perform(w, Do(e)))
  {
    OrdinaryIsPlain(w.st, e);
    hide Step, WatchOk;
    forall n | 0 <= n < |w.watches| ensures WatchOk(Step(w.st, e).notif, n, w.watches[n].ticks) {
      PlainKeepsWatch(w.st.notif, Step(w.st, e).notif, n, w.watches[n].ticks);
    }
  }

  /** The log names only watchers that exist. */
  lemma LogNamesWatchers(st: State, i: nat)
    requires Inv(st) && i < |st.notif.log| && st.notif.log[i].watcher.Some?
    ensures st.notif.log[i].watcher.value < |st.notif.owners|
  {
  }

  lemma FollowIs(s: N.State, o: N.Owner)
    ensures var t := N.Followup(s, o);
            t.log == s.log && t.owners == s.owners + [o] && t.live <= s.live + {|s.owners|}
  {
  }

  lemma FollowKeepsWatches(w: World, c: nat, h: nat, now: int)
    requires Inv(w.st) && WatchesOk(w)
    ensures WatchesOk(Perform(w, Follow(c, h, now)))
  {
    if c < |w.st.conns| && w.st.conns[c].role == Mcp && h < |w.st.heap| {
      var o := N.Owner(w.st.conns[c].clientId, w.st.heap[h].id, w.st.heap[h].name);
      FollowIs(w.st.notif, o);
      var v := Perform(w, Follow(c, h, now));
      assert v.watches == w.watches + [Watch(h, now, [])];
      assert v.st.notif == N.Followup(w.st.notif, o);
      forall i | 0 <= i < |w.st.notif.log| ensures w.st.notif.log[i].watcher != Some(|w.watches|) {
        if w.st.notif.log[i].watcher.Some? {
          LogNamesWatchers(w.st, i);
        }
      }
      hide Inv, N.Followup;
      assert WF.Run(BACKGROUND, []).outcome == WF.Waiting;
      hide WF.Run;
    }
  }

  /** What going idle does to a center in which watcher `n` runs. */
  lemma IdleIs(s: N.State, n: nat, ms: int, now: int)
    requires n in s.live && n < |s.owners|
    ensures var t, o := N.WentIdle(s, n, ms, now), s.owners[n];
            && t.owners == s.owners && t.live == s.live - {n}
            && t.log == s.log + [N.Logged(o.client, N.Note(s.nextId, now, o.sessionId, o.name, N.TaskComplete(ms)), Some(n))]
  {
  }

  /**
   One firing of a running interval, exactly: with the tick added, it enqueues task_complete
   (once, for the inject's own client and session) if and only if this tick is in time and
   completes a run of equal samples taken while the session's output was silent; and it goes on
   if and only if the tick neither does so nor is late.
   */
  lemma FiresExactly(w: World, n: nat, now: int, hash: WF.Hash)
    requires WatchesOk(w) && n < |w.watches| && n in w.st.notif.live
    ensures var v, ticks := Perform(w, Fires(n, now, hash)), w.watches[n].ticks + [TickOf(w, n, now, hash)];
            var o, last := w.st.notif.owners[n], |ticks| - 1;
            && v.watches == w.watches[n := w.watches[n].(ticks := ticks)]
            && v.st.notif.owners == w.st.notif.owners
            && v.st.notif.log == w.st.notif.log
               + (if WF.StableAt(BACKGROUND, ticks, last)
                  then [N.Logged(o.client, N.Note(w.st.notif.nextId, now, o.sessionId, o.name, N.TaskComplete(ticks[last].elapsed)), Some(n))]
                  else [])
            && v.st.notif.live == (if WF.StableAt(BACKGROUND, ticks, last) || ticks[last].elapsed > BACKGROUND.timeoutMs
                                   then w.st.notif.live - {n} else w.st.notif.live)
  {
    var before, tick := w.watches[n].ticks, TickOf(w, n, now, hash);
    var ticks := before + [tick];
    assert WatchOk(w.st.notif, n, before);
    WF.MachineInvariant(BACKGROUND, before);
    assert ticks[..|before|] == before;
    WF.TickFacts(BACKGROUND, ticks, |before|);
    VerdictIs(BACKGROUND, before, ticks);
    hide WF.Run, WF.StableAt, WF.Undecided, WF.Samples, WF.Last, WatchOk, N.WentIdle;
    IdleIs(w.st.notif, n, tick.elapsed, now);
    assert w.st.notif.log + [] == w.st.notif.log;
  }

  /** A late tick is not stable. */
  lemma VerdictIs(o: WF.Options, before: seq<WF.Tick>, ticks: seq<WF.Tick>)
    requires |ticks| == |before| + 1
    ensures WF.StableAt(o, ticks, |before|) ==> ticks[|before|].elapsed <= o.timeoutMs
  {
  }

  lemma FiresKeepsWatches(w: World, n: nat, now: int, hash: WF.Hash)
    requires Inv(w.st) && WatchesOk(w) && n < |w.watches| && n in w.st.notif.live
    ensures WatchesOk(Perform(w, Fires(n, now, hash)))
  {
    var v := Perform(w, Fires(n, now, hash));
    var before, ticks := w.watches[n].ticks, w.watches[n].ticks + [TickOf(w, n, now, hash)];
    FiresExactly(w, n, now, hash);
    assert WatchOk(w.st.notif, n, before);
    assert ticks[..|ticks| - 1] == before;
    RunningIsUnlogged(w.st, n);
    Verdict(before, TickOf(w, n, now, hash));
    hide Inv, Perform, WF.Run, WF.StableAt, TickOf;
    forall k | 0 <= k < |v.watches| ensures WatchOk(v.st.notif, k, v.watches[k].ticks) {
      assert WatchOk(w.st.notif, k, w.watches[k].ticks);
    }
  }

  /** A running watcher has not completed yet. */
  lemma RunningIsUnlogged(st: State, n: nat)
    requires Inv(st) && n in st.notif.live
    ensures forall i | 0 <= i < |st.notif.log| :: st.notif.log[i].watcher != Some(n)
  {
    hide Binding, RegOk, DeathsOk, PeersOk, NewsOk, N.QueuesOk, N.WatchersOk, N.NumbersOk;
  }

  lemma Verdict(before: seq<WF.Tick>, t: WF.Tick)
    requires WF.Run(BACKGROUND, before).outcome == WF.Waiting
    ensures var ticks := before + [t];
            WF.Run(BACKGROUND, ticks).outcome
            == if t.elapsed > BACKGROUND.timeoutMs then WF.TimedOut(t.elapsed)
               else if WF.StableAt(BACKGROUND, ticks, |before|) then WF.Idle(t.elapsed) else WF.Waiting
  {
    var ticks := before + [t];
    WF.MachineInvariant(BACKGROUND, before);
    assert ticks[..|before|] == before;
    WF.TickFacts(BACKGROUND, ticks, |before|);
    hide WF.Run, WF.StableAt, WF.Undecided, WF.Samples, WF.Last;
  }

  lemma PerformKeepsInv(w: World, a: Act)
    requires Inv(w.st) && WatchesOk(w)
    ensures Inv(Perform(w, a).st) && WatchesOk(Perform(w, a))
  {
    hide Inv, Step, WatchesOk, WF.Run;
    match a {
      case Do(e) =>
        StepKeepsInv(w.st, e);
        if Ordinary(e) { DoKeepsWatches(w, e); }
      case Follow(c, h, now) =>
        StepKeepsInv(w.st, InjectFollowup(c, h));
        FollowKeepsWatches(w, c, h, now);
      case Fires(n, now, hash) =>
        if n < |w.watches| && n in w.st.notif.live {
          var outcome := WF.Run(BACKGROUND, w.watches[n].ticks + [TickOf(w, n, now, hash)]).outcome;
          if outcome.Idle? { StepKeepsInv(w.st, WatcherIdle(n, outcome.ms, now)); }
          StepKeepsInv(w.st, WatcherExpires(n));
          FiresKeepsWatches(w, n, now, hash);
        }
    }
  }

  lemma {:induction false} ActsKeepInv(w: World, acts: seq<Act>)
    requires Inv(w.st) && WatchesOk(w)
    ensures Inv(RunActs(w, acts).st) && WatchesOk(RunActs(w, acts))
  {
    if acts != [] {
      hide Inv, Perform, WatchesOk;
      ActsKeepInv(w, acts[..|acts| - 1]);
      PerformKeepsInv(RunActs(w, acts[..|acts| - 1]), acts[|acts| - 1]);
    }
  }

  /** What a completion proves about the ticks of its watcher: the last one, and no earlier one, completed a stable run in time. */
  ghost predicate Earned(l: N.Logged, ticks: seq<WF.Tick>) {
    && ticks != [] && l.note.kind == N.TaskComplete(ticks[|ticks| - 1].elapsed)
    && WF.StableAt(BACKGROUND, ticks, |ticks| - 1) && WF.Undecided(BACKGROUND, ticks, |ticks| - 1)
  }

  /**
   Over every run of the daemon and its intervals: each task_complete ever enqueued comes from
   a watcher of that client and session whose last tick, and no earlier one, completed a run of
   equal samples taken while the output was silent; each watcher completes at most once; and a
   watcher still running has seen no such tick and no late one.
   */
  lemma CompletionsAreEarned(file: seq<P.Entry>, start: int, acts: seq<Act>, i: nat, n: nat)
    ensures var w := RunActs(Start(file, start), acts);
            && (i < |w.st.notif.log| && w.st.notif.log[i].note.kind.TaskComplete? ==>
                  w.st.notif.log[i].watcher.Some?)
            && (i < |w.st.notif.log| && w.st.notif.log[i].watcher == Some(n) ==>
                  && n < |w.watches| && n < |w.st.notif.owners| && n !in w.st.notif.live && Earned(w.st.notif.log[i], w.watches[n].ticks)
                  && w.st.notif.owners[n].client == w.st.notif.log[i].client
                  && w.st.notif.owners[n].sessionId == w.st.notif.log[i].note.sessionId
                  && forall j | 0 <= j < |w.st.notif.log| && j != i :: w.st.notif.log[j].watcher != Some(n))
            && (n in w.st.notif.live ==> n < |w.watches| && WF.Undecided(BACKGROUND, w.watches[n].ticks, |w.watches[n].ticks|))
  {
    var w := RunActs(Start(file, start), acts);
    InitialInv(file, start);
    assert WatchesOk(Start(file, start));
    ActsKeepInv(Start(file, start), acts);
    CenterInv(w.st);
    hide Inv, RunActs, Start;
    WatchFacts(w, i, n);
  }

  lemma WatchFacts(w: World, i: nat, n: nat)
    requires N.Inv(w.st.notif) && WatchesOk(w)
    ensures i < |w.st.notif.log| && w.st.notif.log[i].note.kind.TaskComplete? ==> w.st.notif.log[i].watcher.Some?
    ensures i < |w.st.notif.log| && w.st.notif.log[i].watcher == Some(n) ==>
              && n < |w.watches| && n < |w.st.notif.owners| && n !in w.st.notif.live && Earned(w.st.notif.log[i], w.watches[n].ticks)
              && w.st.notif.owners[n].client == w.st.notif.log[i].client
              && w.st.notif.owners[n].sessionId == w.st.notif.log[i].note.sessionId
              && forall j | 0 <= j < |w.st.notif.log| && j != i :: w.st.notif.log[j].watcher != Some(n)
    ensures n in w.st.notif.live ==> n < |w.watches| && WF.Undecided(BACKGROUND, w.watches[n].ticks, |w.watches[n].ticks|)
  {
    hide N.QueuesOk, N.NumbersOk, N.KeyOf, WF.Run, Earned;
    if n < |w.watches| {
      var ticks := w.watches[n].ticks;
      assert WatchOk(w.st.notif, n, ticks);
      WF.MachineInvariant(BACKGROUND, ticks);
      if i < |w.st.notif.log| && w.st.notif.log[i].watcher == Some(n) {
        CompletionIsEarned(w.st.notif.log[i], ticks);
      }
    }
  }

  lemma CompletionIsEarned(l: N.Logged, ticks: seq<WF.Tick>)
    requires Completes(l, ticks) && (ticks != [] ==> WF.Run(BACKGROUND, ticks[..|ticks| - 1]).outcome == WF.Waiting)
    ensures Earned(l, ticks)
  {
    hide WF.StableAt;
    WF.MachineInvariant(BACKGROUND, ticks);
    assert ticks != [];
    var n := |ticks| - 1;
    WF.MachineInvariant(BACKGROUND, ticks[..n]);
    WF.PrefixFacts(BACKGROUND, ticks, n);
    hide WF.Run;
    var i: nat :| i < |ticks| && WF.StableAt(BACKGROUND, ticks, i) && WF.Undecided(BACKGROUND, ticks, i)
                  && l.note.kind.silentForMs == ticks[i].elapsed;
    assert WF.Undecided(BACKGROUND, ticks[..n], n);
    assert WF.Undecided(BACKGROUND, ticks, n);
    assert i == n;
  }

  // ---------- intervals are runs of the daemon ----------

  /** The daemon's events during one act. */
  function EventsOf(w: World, a: Act): seq<Event> {
    match a
    case Do(e) => if Ordinary(e) then [e] else []
    case Follow(c, h, now) => [InjectFollowup(c, h)]
    case Fires(n, now, hash) =>
      if n < |w.watches| && n in w.st.notif.live then
        match WF.Run(BACKGROUND, w.watches[n].ticks + [TickOf(w, n, now, hash)]).outcome
        case Waiting => []
        case Idle(ms) => [WatcherIdle(n, ms, now)]
        case TimedOut(_) => [WatcherExpires(n)]
      else []
  }

  function AllEvents(w: World, acts: seq<Act>): seq<Event> {
    if acts == [] then []
    else AllEvents(w, acts[..|acts| - 1]) + EventsOf(RunActs(w, acts[..|acts| - 1]), acts[|acts| - 1])
  }

  lemma RunSingle(st: State, e: Event)
    ensures Run(st, [e]) == Step(st, e)
  {
    hide Step;
    assert [e][..0] == [];
  }

  lemma PerformIsRun(w: World, a: Act)
    ensures Perform(w, a).st == Run(w.st, EventsOf(w, a))
  {
    hide Step, Run, WF.Run;
    assert Run(w.st, []) == w.st by { RunNone(w.st); }
    if EventsOf(w, a) != [] {
      RunSingle(w.st, EventsOf(w, a)[0]);
    }
  }

  lemma RunNone(st: State)
    ensures Run(st, []) == st
  {
  }

  /** The daemon with its intervals makes runs of the daemon, so whatever holds of those holds here. */
  lemma {:induction false} ActsAreRuns(w: World, acts: seq<Act>)
    ensures RunActs(w, acts).st == Run(w.st, AllEvents(w, acts))
  {
    hide Perform, EventsOf, Run;
    if acts == [] {
      RunNone(w.st);
    } else {
      var front, a := acts[..|acts| - 1], acts[|acts| - 1];
      ActsAreRuns(w, front);
      PerformIsRun(RunActs(w, front), a);
      RunAppend(w.st, AllEvents(w, front), EventsOf(RunActs(w, front), a));
    }
  }

  /**
   A tick that completes found its session quiet: the latest output handled for the session,
   on whichever connection it came, is at least 1500 ms old.
   */
  lemma CompletionMeansQuiet(w: World, acts: seq<Act>, n: nat, now: int, hash: WF.Hash)
    requires Inv(w.st) && WatchesOk(w)
    requires var v := RunActs(w, acts);
             && n < |v.watches| && n in v.st.notif.live && v.watches[n].handle < |w.st.heap|
             && Perform(v, Fires(n, now, hash)).st.notif.log != v.st.notif.log
    ensures var out := OutputTo(w.st, AllEvents(w, acts), RunActs(w, acts).watches[n].handle);
            out != [] ==> out[|out| - 1].ts <= now - BACKGROUND.minSilentMs
  {
    var v := RunActs(w, acts);
    var h, t := v.watches[n].handle, TickOf(v, n, now, hash);
    var ticks := v.watches[n].ticks + [t];
    ActsKeepInv(w, acts);
    ActsAreRuns(w, acts);
    FiresExactly(v, n, now, hash);
    LastOutputIs(w.st, AllEvents(w, acts), h);
    assert WF.StableAt(BACKGROUND, ticks, |ticks| - 1);
    StableIsSilent(BACKGROUND, ticks, |ticks| - 1);
  }

  lemma StableIsSilent(o: WF.Options, ticks: seq<WF.Tick>, i: nat)
    requires i < |ticks| && WF.StableAt(o, ticks, i)
    ensures ticks[i].silentFor >= o.minSilentMs
  {
  }

  // ---------- from the inject to its completion ----------

  /** A follow-up by an mcp client on a session starts a watch: running, without ticks, for that client and session. */
  lemma FollowStarts(w: World, c: nat, h: nat, now: int)
    requires Inv(w.st) && WatchesOk(w) && c < |w.st.conns| && w.st.conns[c].role == Mcp && h < |w.st.heap|
    ensures var v, n := Perform(w, Follow(c, h, now)), |w.watches|;
            && v.watches == w.watches + [Watch(h, now, [])]
            && n in v.st.notif.live && n < |v.st.notif.owners|
            && v.st.notif.owners[n] == N.Owner(w.st.conns[c].clientId, w.st.heap[h].id, w.st.heap[h].name)
            && v.st.notif.log == w.st.notif.log
  {
    InjectStartsWatcher(w.st, c, h);
    hide Inv, Step, N.Key;
  }

  /** No act but the watcher's own verdict stops it: no new inject under its key, no disconnect of its client, no death of its session. */
  ghost predicate NotStoppedBy(w: World, a: Act, n: nat, o: N.Owner) {
    match a
    case Do(e) => Ordinary(e) ==> N.NoneStops(Notes(w.st, e), n, o)
    case Follow(c, h, now) => N.NoneStops(Notes(w.st, InjectFollowup(c, h)), n, o)
    case Fires(m, now, hash) => true
  }

  ghost predicate NeverStopped(w: World, acts: seq<Act>, n: nat, o: N.Owner) {
    forall i | 0 <= i < |acts| :: NotStoppedBy(RunActs(w, acts[..i]), acts[i], n, o)
  }

  /** All ticks of watcher `n`'s interval, whether or not it is still running by then. */
  function Fired(w: World, acts: seq<Act>, n: nat): seq<WF.Tick> {
    if acts == [] then []
    else
      var u, a := RunActs(w, acts[..|acts| - 1]), acts[|acts| - 1];
      Fired(w, acts[..|acts| - 1], n) + (if a.Fires? && a.watcher == n && n < |u.watches| then [TickOf(u, n, a.now, a.hash)] else [])
  }

  ghost predicate Completed(notif: N.State, n: nat, o: N.Owner, ms: int) {
    exists i :: 0 <= i < |notif.log| && notif.log[i].watcher == Some(n) && notif.log[i].client == o.client
                && notif.log[i].note.sessionId == o.sessionId && notif.log[i].note.kind == N.TaskComplete(ms)
  }

  /** The watcher does what the plain machine says on the ticks its interval has fired. */
  ghost predicate Follows(v: World, n: nat, o: N.Owner, fired: seq<WF.Tick>) {
    && n < |v.watches| && n < |v.st.notif.owners| && v.st.notif.owners[n] == o
    && match WF.Run(BACKGROUND, fired).outcome
       case Waiting => n in v.st.notif.live && v.watches[n].ticks == fired
       case Idle(ms) => n !in v.st.notif.live && Completed(v.st.notif, n, o, ms)
       case TimedOut(_) => n !in v.st.notif.live && Unlogged(v.st.notif.log, n, 0)
  }

  /** From position `from` on, the log has no completion of watcher `n`. */
  ghost predicate Unlogged(log: seq<N.Logged>, n: nat, from: nat) {
    forall i | from <= i < |log| :: log[i].watcher != Some(n)
  }

  lemma StillCompleted(s: N.State, t: N.State, n: nat, o: N.Owner, ms: int)
    requires Completed(s, n, o, ms) && s.log <= t.log
    ensures Completed(t, n, o, ms)
  {
    var i :| 0 <= i < |s.log| && s.log[i].watcher == Some(n) && s.log[i].client == o.client
             && s.log[i].note.sessionId == o.sessionId && s.log[i].note.kind == N.TaskComplete(ms);
    assert t.log[i] == s.log[i];
  }

  /** What an act that is not the watcher's own tick leaves of it. */
  ghost predicate Untouched(v: World, u: World, n: nat) {
    && n < |v.watches| && n < |u.watches| && u.watches[n] == v.watches[n]
    && n < |v.st.notif.owners| && n < |u.st.notif.owners| && u.st.notif.owners[n] == v.st.notif.owners[n]
    && (n in u.st.notif.live <==> n in v.st.notif.live)
    && v.st.notif.log <= u.st.notif.log && Unlogged(u.st.notif.log, n, |v.st.notif.log|)
  }

  lemma UntouchedFollows(v: World, u: World, n: nat, o: N.Owner, fired: seq<WF.Tick>)
    requires Follows(v, n, o, fired) && Untouched(v, u, n)
    ensures Follows(u, n, o, fired)
  {
    hide WF.Run, Completed;
    var out := WF.Run(BACKGROUND, fired).outcome;
    if out.Idle? {
      StillCompleted(v.st.notif, u.st.notif, n, o, out.ms);
    }
  }

  /** A stopped watcher's machine has decided for good. */
  lemma DecidedStays(fired: seq<WF.Tick>, t: WF.Tick)
    requires WF.Run(BACKGROUND, fired).outcome != WF.Waiting
    ensures WF.Run(BACKGROUND, fired + [t]).outcome == WF.Run(BACKGROUND, fired).outcome
  {
    WF.RunSnoc(BACKGROUND, fired, t);
  }

  lemma DoLeaves(v: World, e: Event, n: nat, o: N.Owner)
    requires Inv(v.st) && n < |v.watches| && n < |v.st.notif.owners| && v.st.notif.owners[n] == o && NotStoppedBy(v, Do(e), n, o)
    ensures Untouched(v, Perform(v, Do(e)), n)
  {
    if Ordinary(e) {
      OrdinaryIsPlain(v.st, e);
      StepDrives(v.st, e);
      CenterInv(v.st);
      hide Inv, Step, Notes, N.NoneStops, N.Run;
      if n in v.st.notif.live {
        N.RunsUntilStopped(v.st.notif, Notes(v.st, e), n);
      }
    }
  }

  lemma FollowLeaves(v: World, c: nat, h: nat, now: int, n: nat, o: N.Owner)
    requires Inv(v.st) && WatchesOk(v) && n < |v.watches| && n < |v.st.notif.owners| && v.st.notif.owners[n] == o
    requires NotStoppedBy(v, Follow(c, h, now), n, o)
    ensures Untouched(v, Perform(v, Follow(c, h, now)), n)
  {
    if c < |v.st.conns| && v.st.conns[c].role == Mcp && h < |v.st.heap| {
      var p := N.Owner(v.st.conns[c].clientId, v.st.heap[h].id, v.st.heap[h].name);
      CenterInv(v.st);
      N.FollowupStarts(v.st.notif, p);
      assert Notes(v.st, InjectFollowup(c, h)) == [N.Inject(p)];
      assert !N.Stops([N.Inject(p)][0], n, o);
      hide Inv, N.Followup, N.Key, WatchesOk;
    }
  }

  lemma OtherFiresLeaves(v: World, m: nat, now: int, hash: WF.Hash, n: nat)
    requires WatchesOk(v) && n < |v.watches| && n < |v.st.notif.owners| && m != n
    ensures Untouched(v, Perform(v, Fires(m, now, hash)), n)
  {
    if m < |v.watches| && m in v.st.notif.live {
      FiresExactly(v, m, now, hash);
      hide Perform, WF.StableAt;
    }
  }

  lemma OwnFires(v: World, n: nat, now: int, hash: WF.Hash, o: N.Owner, fired: seq<WF.Tick>)
    requires Inv(v.st) && WatchesOk(v) && Follows(v, n, o, fired)
    ensures Follows(Perform(v, Fires(n, now, hash)), n, o, fired + [TickOf(v, n, now, hash)])
  {
    var u, t := Perform(v, Fires(n, now, hash)), TickOf(v, n, now, hash);
    if n in v.st.notif.live {
      assert WF.Run(BACKGROUND, fired).outcome == WF.Waiting;
      FiresExactly(v, n, now, hash);
      Verdict(fired, t);
      RunningIsUnlogged(v.st, n);
      hide Inv, Perform, WF.Run, WF.StableAt, TickOf, WatchesOk;
      if WF.Run(BACKGROUND, fired + [t]).outcome.Idle? {
        assert u.st.notif.log[|v.st.notif.log|].watcher == Some(n);
      }
    } else {
      DecidedStays(fired, t);
      hide WF.Run;
    }
  }

  lemma ActFollows(v: World, a: Act, n: nat, o: N.Owner, fired: seq<WF.Tick>)
    requires Inv(v.st) && WatchesOk(v) && Follows(v, n, o, fired) && NotStoppedBy(v, a, n, o)
    ensures Follows(Perform(v, a), n, o,
                    fired + (if a.Fires? && a.watcher == n && n < |v.watches| then [TickOf(v, n, a.now, a.hash)] else []))
  {
    assert fired + [] == fired;
    hide Inv, WatchesOk, Perform, NotStoppedBy, WF.Run, Completed, TickOf;
    match a {
      case Do(e) => DoLeaves(v, e, n, o); UntouchedFollows(v, Perform(v, a), n, o, fired);
      case Follow(c, h, now) => FollowLeaves(v, c, h, now, n, o); UntouchedFollows(v, Perform(v, a), n, o, fired);
      case Fires(m, now, hash) =>
        if m == n {
          OwnFires(v, n, now, hash, o, fired);
        } else {
          OtherFiresLeaves(v, m, now, hash, n);
          UntouchedFollows(v, Perform(v, a), n, o, fired);
        }
    }
  }

  lemma {:induction false} WatchFollows(w: World, acts: seq<Act>, n: nat, o: N.Owner)
    requires Inv(w.st) && WatchesOk(w) && n < |w.watches| && n in w.st.notif.live && w.watches[n].ticks == []
    requires n < |w.st.notif.owners| && w.st.notif.owners[n] == o && NeverStopped(w, acts, n, o)
    ensures Follows(RunActs(w, acts), n, o, Fired(w, acts, n))
  {
    if acts == [] {
      hide Inv, WatchesOk;
    } else {
      hide Inv, WatchesOk, Perform, NotStoppedBy, Follows;
      var front := acts[..|acts| - 1];
      assert forall i | 0 <= i < |front| :: front[i] == acts[i] && front[..i] == acts[..i];
      WatchFollows(w, front, n, o);
      ActsKeepInv(w, front);
      ActFollows(RunActs(w, front), acts[|acts| - 1], n, o, Fired(w, front, n));
    }
  }

  /**
   From the inject to its completion, over every continuation in which nothing else stops the
   watcher: the client has got task_complete for the session, from this watcher and once, if
   and only if some tick of its interval, in time and before any late one, completed a run of
   equal samples taken in silence.
   */
  lemma FollowCompletesExactly(w: World, c: nat, h: nat, now: int, acts: seq<Act>, ms: int)
    requires Inv(w.st) && WatchesOk(w) && c < |w.st.conns| && w.st.conns[c].role == Mcp && h < |w.st.heap|
    requires var u, n := Perform(w, Follow(c, h, now)), |w.watches|;
             NeverStopped(u, acts, n, N.Owner(w.st.conns[c].clientId, w.st.heap[h].id, w.st.heap[h].name))
    ensures var u, n, o := Perform(w, Follow(c, h, now)), |w.watches|, N.Owner(w.st.conns[c].clientId, w.st.heap[h].id, w.st.heap[h].name);
            var v, fired := RunActs(u, acts), Fired(u, acts, n);
            && (Completed(v.st.notif, n, o, ms) <==>
                  exists i: nat | i < |fired| ::
                    WF.StableAt(BACKGROUND, fired, i) && WF.Undecided(BACKGROUND, fired, i) && ms == fired[i].elapsed)
            && forall i, j | 0 <= i < j < |v.st.notif.log| && v.st.notif.log[i].watcher == Some(n) :: v.st.notif.log[j].watcher != Some(n)
  {
    FollowStarts(w, c, h, now);
    PerformKeepsInv(w, Follow(c, h, now));
    hide Inv, WatchesOk, Perform, NeverStopped;
    var u, n, o := Perform(w, Follow(c, h, now)), |w.watches|, N.Owner(w.st.conns[c].clientId, w.st.heap[h].id, w.st.heap[h].name);
    WatchFollows(u, acts, n, o);
    ActsKeepInv(u, acts);
    CenterInv(RunActs(u, acts).st);
    hide RunActs, Fired;
    CompletedExactly(RunActs(u, acts), n, o, Fired(u, acts, n), ms);
    OnceInLog(RunActs(u, acts).st.notif, n);
  }

  lemma OnceInLog(s: N.State, n: nat)
    requires N.Inv(s)
    ensures forall i, j | 0 <= i < j < |s.log| && s.log[i].watcher == Some(n) :: s.log[j].watcher != Some(n)
  {
    hide N.QueuesOk, N.WatchersOk, N.NumbersOk;
  }

  lemma CompletedMeansIdle(v: World, n: nat, o: N.Owner, fired: seq<WF.Tick>, ms: int)
    requires N.Inv(v.st.notif) && Follows(v, n, o, fired) && Completed(v.st.notif, n, o, ms)
    ensures WF.Run(BACKGROUND, fired).outcome == WF.Idle(ms)
  {
    OnceInLog(v.st.notif, n);
    hide WF.Run, N.QueuesOk, N.WatchersOk, N.NumbersOk;
    var log := v.st.notif.log;
    var i :| 0 <= i < |log| && log[i].watcher == Some(n) && log[i].client == o.client
             && log[i].note.sessionId == o.sessionId && log[i].note.kind == N.TaskComplete(ms);
  }

  lemma CompletedExactly(v: World, n: nat, o: N.Owner, fired: seq<WF.Tick>, ms: int)
    requires N.Inv(v.st.notif) && Follows(v, n, o, fired)
    ensures Completed(v.st.notif, n, o, ms) <==>
              exists i: nat | i < |fired| :: WF.StableAt(BACKGROUND, fired, i) && WF.Undecided(BACKGROUND, fired, i) && ms == fired[i].elapsed
  {
    WF.IdleExactly(BACKGROUND, fired);
    hide WF.StableAt, WF.Undecided, WF.Run;
    assert WF.Run(BACKGROUND, fired).outcome == WF.Idle(ms) <==>
             exists i: nat | i < |fired| :: WF.StableAt(BACKGROUND, fired, i) && WF.Undecided(BACKGROUND, fired, i) && ms == fired[i].elapsed;
    if Completed(v.st.notif, n, o, ms) {
      CompletedMeansIdle(v, n, o, fired, ms);
    }
    hide Completed;
  }

  // ---------- eight quiet ticks ----------

  /** Eight ticks in time, in silence, with one and the same screen. */
  ghost predicate EightQuiet(ticks: seq<WF.Tick>) {
    |ticks| == 8 && forall i | 0 <= i < 8 ::
      ticks[i].elapsed <= 300_000 && ticks[i].silentFor >= 1500 && ticks[i].hash == ticks[0].hash
  }

  lemma {:induction false} QuietSamples(ticks: seq<WF.Tick>)
    requires forall i | 0 <= i < |ticks| :: ticks[i].silentFor >= BACKGROUND.minSilentMs
    ensures |WF.Samples(BACKGROUND, ticks)| == |ticks|
    ensures forall i | 0 <= i < |ticks| :: WF.Samples(BACKGROUND, ticks)[i] == ticks[i].hash
  {
    if ticks != [] {
      QuietSamples(ticks[..|ticks| - 1]);
    }
  }

  lemma EightStable(ticks: seq<WF.Tick>)
    requires EightQuiet(ticks)
    ensures WF.StableAt(BACKGROUND, ticks, 7) && WF.Undecided(BACKGROUND, ticks, 7)
  {
    assert ticks[..8] == ticks;
    QuietSamples(ticks);
    var hs := WF.Samples(BACKGROUND, ticks);
    hide WF.RunLength, WF.Samples;
    assert hs[|hs| - 8..] == hs;
    WF.EqualTailIsRun(hs, 8);
    forall j: nat | j < 7 ensures ticks[j].elapsed <= BACKGROUND.timeoutMs && !WF.StableAt(BACKGROUND, ticks, j) {
      QuietSamples(ticks[..j + 1]);
      assert WF.RunLength(WF.Samples(BACKGROUND, ticks[..j + 1])) <= j + 1;
    }
  }

  /** After an inject whose watcher nothing else stops, eight ticks in time, in silence and on one screen tell the client once that its task is complete. */
  lemma EightQuietTicksComplete(w: World, c: nat, h: nat, now: int, acts: seq<Act>)
    requires Inv(w.st) && WatchesOk(w) && c < |w.st.conns| && w.st.conns[c].role == Mcp && h < |w.st.heap|
    requires var u, n := Perform(w, Follow(c, h, now)), |w.watches|;
             && NeverStopped(u, acts, n, N.Owner(w.st.conns[c].clientId, w.st.heap[h].id, w.st.heap[h].name))
             && EightQuiet(Fired(u, acts, n))
    ensures var u, n, o := Perform(w, Follow(c, h, now)), |w.watches|, N.Owner(w.st.conns[c].clientId, w.st.heap[h].id, w.st.heap[h].name);
            Completed(RunActs(u, acts).st.notif, n, o, Fired(u, acts, n)[7].elapsed)
  {
    var fired := Fired(Perform(w, Follow(c, h, now)), acts, |w.watches|);
    EightStable(fired);
    hide Inv, WatchesOk, Perform, NeverStopped, RunActs, WF.StableAt, WF.Undecided, Completed, Fired;
    FollowCompletesExactly(w, c, h, now, acts, fired[7].elapsed);
  }
}
