/**
 The stable-screen detector of packages/bridged/src/wait-for.ts. A tick samples a hash of
 the last rendered rows (an oracle here); the code keeps a FIFO of the last `stableTicks`
 samples. The reference is a plain count of equal consecutive samples.
 */
module WaitFor {
  type Hash = string

  datatype Options = Options(timeoutMs: int, stableTicks: int, minSilentMs: int)

  /** One firing of the interval: time since the start, time since the last output, what the screen hashes to. */
  datatype Tick = Tick(elapsed: int, silentFor: int, hash: Hash)

  datatype Outcome = Waiting | Idle(ms: int) | TimedOut(ms: int)

  datatype State = State(hashes: seq<Hash>, outcome: Outcome)

  const START := State([], Waiting)

  /** hashes.every((x) => x === hashes[0]) */
  predicate AllEqual(hs: seq<Hash>) {
    forall i | 0 <= i < |hs| :: hs[i] == hs[0]
  }

  // ---------- the FIFO algorithm, one tick ----------

  function Window(hs: seq<Hash>, size: int, h: Hash): seq<Hash> {
    var pushed := hs + [h];
    if |pushed| > size then pushed[1..] else pushed
  }

  function Step(o: Options, st: State, t: Tick): State {
    if st.outcome != Waiting then st
    else if t.elapsed > o.timeoutMs then st.(outcome := TimedOut(t.elapsed))
    else if t.silentFor < o.minSilentMs then st
    else
      var hs := Window(st.hashes, o.stableTicks, t.hash);
      if |hs| == o.stableTicks && hs != [] && AllEqual(hs) then State(hs, Idle(t.elapsed))
      else State(hs, Waiting)
  }

  function Run(o: Options, ticks: seq<Tick>): State {
    if ticks == [] then START else Step(o, Run(o, ticks[..|ticks| - 1]), ticks[|ticks| - 1])
  }

  // ---------- the reference ----------

  /** The hashes actually sampled: output had been silent long enough. */
  function Samples(o: Options, ticks: seq<Tick>): seq<Hash> {
    if ticks == [] then []
    else
      var t := ticks[|ticks| - 1];
      Samples(o, ticks[..|ticks| - 1]) + (if t.silentFor < o.minSilentMs then [] else [t.hash])
  }

  /** How many of the latest samples agree. */
  function RunLength(hs: seq<Hash>): (n: nat)
    ensures n <= |hs| && (hs != [] ==> n >= 1)
  {
    if |hs| <= 1 then |hs|
    else if hs[|hs| - 1] == hs[|hs| - 2] then 1 + RunLength(hs[..|hs| - 1])
    else 1
  }

  /** Tick `i` is in time, is sampled, and completes a run of `stableTicks` equal samples. */
  predicate StableAt(o: Options, ticks: seq<Tick>, i: nat)
    requires i < |ticks|
  {
    && ticks[i].elapsed <= o.timeoutMs
    && ticks[i].silentFor >= o.minSilentMs
    && RunLength(Samples(o, ticks[..i + 1])) >= o.stableTicks
  }

  /** Nothing has been decided by the first `n` ticks. */
  ghost predicate Undecided(o: Options, ticks: seq<Tick>, n: nat)
    requires n <= |ticks|
  {
    forall j: nat | j < n :: ticks[j].elapsed <= o.timeoutMs && !StableAt(o, ticks, j)
  }

  // ---------- the FIFO is the tail of the samples ----------

  function Last(hs: seq<Hash>, n: nat): seq<Hash> {
    if |hs| <= n then hs else hs[|hs| - n..]
  }

  lemma WindowIsLast(hs: seq<Hash>, n: nat, h: Hash)
    requires n >= 1
    ensures Window(Last(hs, n), n, h) == Last(hs + [h], n)
  {
  }

  lemma {:induction false} EqualTailIsRun(hs: seq<Hash>, n: nat)
    requires 1 <= n <= |hs|
    ensures AllEqual(hs[|hs| - n..]) <==> RunLength(hs) >= n
  {
    if n > 1 {
      var front := hs[..|hs| - 1];
      var tail, shorter := hs[|hs| - n..], front[|front| - (n - 1)..];
      EqualTailIsRun(front, n - 1);
      assert RunLength(hs) >= n <==> RunLength(front) >= n - 1 && hs[|hs| - 1] == hs[|hs| - 2];
      hide AllEqual, RunLength;
      assert |tail| == n && |shorter| == n - 1;
      assert forall i | 0 <= i < n - 1 :: tail[i] == hs[|hs| - n + i] == shorter[i];
      assert tail == shorter + [hs[|hs| - 1]];
      assert hs[|hs| - 2] == shorter[|shorter| - 1];
      AllEqualSnoc(shorter, hs[|hs| - 1]);
    }
  }

  lemma AllEqualSnoc(hs: seq<Hash>, h: Hash)
    requires hs != []
    ensures AllEqual(hs + [h]) <==> AllEqual(hs) && h == hs[|hs| - 1]
  {
    var all, n := hs + [h], |hs|;
    assert all[n] == h && all[0] == hs[0];
    assert forall i | 0 <= i < n :: all[i] == hs[i];
    if AllEqual(hs) {
      assert hs[n - 1] == hs[0];
    }
  }

  /** What the machine's state is after any ticks: the reference's verdict and the last samples. */
  lemma {:induction false} MachineInvariant(o: Options, ticks: seq<Tick>)
    requires o.stableTicks >= 1
    ensures var st := Run(o, ticks);
            && (st.outcome == Waiting <==> Undecided(o, ticks, |ticks|))
            && (st.outcome == Waiting ==> st.hashes == Last(Samples(o, ticks), o.stableTicks))
            && (st.outcome.Idle? ==> exists i: nat | i < |ticks| ::
                  StableAt(o, ticks, i) && Undecided(o, ticks, i) && st.outcome.ms == ticks[i].elapsed)
            && (st.outcome.TimedOut? ==> exists i: nat | i < |ticks| ::
                  ticks[i].elapsed > o.timeoutMs && Undecided(o, ticks, i) && st.outcome.ms == ticks[i].elapsed)
  {
    if ticks != [] {
      var n := |ticks| - 1;
      var before, t := ticks[..n], ticks[n];
      MachineInvariant(o, before);
      PrefixFacts(o, ticks, n);
      var st := Run(o, before);
      if st.outcome == Waiting {
        TickFacts(o, ticks, n);
      } else {
        var i: nat :| i < n && Undecided(o, before, i) && st.outcome.ms == before[i].elapsed
                      && (st.outcome.Idle? ==> StableAt(o, before, i))
                      && (st.outcome.TimedOut? ==> before[i].elapsed > o.timeoutMs);
        assert Undecided(o, ticks, i) && ticks[i] == before[i];
        assert st.outcome.Idle? ==> StableAt(o, ticks, i);
      }
    }
  }

  /** Earlier ticks are judged the same in a longer run. */
  lemma PrefixFacts(o: Options, ticks: seq<Tick>, n: nat)
    requires n <= |ticks|
    ensures forall i: nat | i < n :: ticks[..n][i] == ticks[i] && (StableAt(o, ticks[..n], i) <==> StableAt(o, ticks, i))
    ensures forall i: nat | i <= n :: Undecided(o, ticks[..n], i) <==> Undecided(o, ticks, i)
  {
    forall i: nat | i < n
      ensures StableAt(o, ticks[..n], i) <==> StableAt(o, ticks, i)
    {
      assert ticks[..n][..i + 1] == ticks[..i + 1];
    }
  }

  lemma TickFacts(o: Options, ticks: seq<Tick>, n: nat)
    requires o.stableTicks >= 1 && |ticks| == n + 1
    requires Run(o, ticks[..n]) == State(Last(Samples(o, ticks[..n]), o.stableTicks), Waiting)
    ensures var st, t := Run(o, ticks), ticks[n];
            if t.elapsed > o.timeoutMs then st.outcome == TimedOut(t.elapsed)
            else if StableAt(o, ticks, n) then st.outcome == Idle(t.elapsed)
            else st == State(Last(Samples(o, ticks), o.stableTicks), Waiting)
  {
    hide RunLength, AllEqual, Samples, Run, Last;
    var t, samples := ticks[n], Samples(o, ticks[..n]);
    assert ticks[..n + 1] == ticks;
    RunSnoc(o, ticks[..n], t);
    SamplesSnoc(o, ticks[..n], t);
    assert ticks[..n] + [t] == ticks;
    if t.elapsed <= o.timeoutMs && t.silentFor >= o.minSilentMs {
      WindowIsLast(samples, o.stableTicks, t.hash);
      FullWindow(samples + [t.hash], o.stableTicks);
    }
  }

  lemma RunSnoc(o: Options, ticks: seq<Tick>, t: Tick)
    ensures Run(o, ticks + [t]) == Step(o, Run(o, ticks), t)
  {
    hide Step;
    assert (ticks + [t])[..|ticks|] == ticks;
  }

  lemma SamplesSnoc(o: Options, ticks: seq<Tick>, t: Tick)
    ensures Samples(o, ticks + [t])
            == if t.silentFor < o.minSilentMs then Samples(o, ticks) else Samples(o, ticks) + [t.hash]
  {
    assert (ticks + [t])[..|ticks|] == ticks;
    assert Samples(o, ticks) + [] == Samples(o, ticks);
  }

  /** The window is full of equal samples exactly when the latest run is long enough. */
  lemma FullWindow(hs: seq<Hash>, n: nat)
    requires n >= 1 && hs != []
    ensures |Last(hs, n)| == n && AllEqual(Last(hs, n)) <==> RunLength(hs) >= n
  {
    if n <= |hs| {
      EqualTailIsRun(hs, n);
      assert hs[0..] == hs;
    }
  }

  // ---------- the main results ----------

  /**
   The FIFO algorithm reports idle at exactly the first in-time sampled tick that completes a
   run of `stableTicks` equal samples, and gives up at exactly the first late tick before that.
   */
  lemma IdleExactly(o: Options, ticks: seq<Tick>)
    requires o.stableTicks >= 1
    ensures forall ms :: Run(o, ticks).outcome == Idle(ms) <==>
              exists i: nat | i < |ticks| ::
                StableAt(o, ticks, i) && Undecided(o, ticks, i) && ms == ticks[i].elapsed
    ensures forall ms :: Run(o, ticks).outcome == TimedOut(ms) <==>
              exists i: nat | i < |ticks| ::
                ticks[i].elapsed > o.timeoutMs && Undecided(o, ticks, i) && ms == ticks[i].elapsed
  {
    MachineInvariant(o, ticks);
    var out := Run(o, ticks).outcome;
    forall i: nat | i < |ticks| && Undecided(o, ticks, i)
                    && (StableAt(o, ticks, i) || ticks[i].elapsed > o.timeoutMs)
      ensures out != Waiting && out.ms == ticks[i].elapsed && (out.Idle? <==> StableAt(o, ticks, i))
    {
      assert !Undecided(o, ticks, |ticks|);
      DecidedOnce(o, ticks, i);
    }
  }

  /** The deciding tick is unique. */
  lemma DecidedOnce(o: Options, ticks: seq<Tick>, i: nat)
    requires i < |ticks| && Undecided(o, ticks, i)
    requires StableAt(o, ticks, i) || ticks[i].elapsed > o.timeoutMs
    ensures forall j: nat | j < |ticks| && Undecided(o, ticks, j)
                            && (StableAt(o, ticks, j) || ticks[j].elapsed > o.timeoutMs) :: j == i
  {
  }

  /** With `stableTicks` below 1 the detector can only time out: idle is never reported. */
  lemma {:induction false} NeverIdleWithoutWindow(o: Options, ticks: seq<Tick>)
    requires o.stableTicks <= 0
    ensures Run(o, ticks).hashes == [] && !Run(o, ticks).outcome.Idle?
  {
    if ticks != [] {
      NeverIdleWithoutWindow(o, ticks[..|ticks| - 1]);
    }
  }

  /** The waiter ends no later than its first late tick, and never reports idle past the timeout. */
  lemma {:induction false} WaiterTerminates(o: Options, ticks: seq<Tick>)
    ensures (exists i | 0 <= i < |ticks| :: ticks[i].elapsed > o.timeoutMs) ==> Run(o, ticks).outcome != Waiting
    ensures Run(o, ticks).outcome.Idle? ==> Run(o, ticks).outcome.ms <= o.timeoutMs
  {
    if ticks != [] {
      var n := |ticks| - 1;
      WaiterTerminates(o, ticks[..n]);
      if i :| 0 <= i < |ticks| && ticks[i].elapsed > o.timeoutMs {
        assert i < n ==> ticks[..n][i] == ticks[i];
      }
    }
  }

  // ---------- waitForIdle ----------

  class IdleWaiter {
    const o: Options
    const start: int
    var hashes: seq<Hash>
    var outcome: Outcome
    /** The ticks that have fired so far. */
    ghost var ticks: seq<Tick>

    ghost predicate Valid()
      reads this
    {
      State(hashes, outcome) == Run(o, ticks)
    }

    constructor (o: Options, start: int)
      ensures Valid() && ticks == [] && outcome == Waiting && this.o == o && this.start == start
    {
      this.o, this.start := o, start;
      hashes, outcome, ticks := [], Waiting, [];
    }

    /** The interval callback; `outcome` set means the interval is cleared and the promise resolved. */
    method OnTick(now: int, lastOutputAt: int, hash: Hash)
      requires Valid()
      modifies this
      ensures Valid() && ticks == old(ticks) + [Tick(now - start, now - lastOutputAt, hash)]
      ensures old(outcome) != Waiting ==> outcome == old(outcome)
      ensures now - lastOutputAt < o.minSilentMs ==> hashes == old(hashes)
    {
      ghost var t := Tick(now - start, now - lastOutputAt, hash);
      hide Run, AllEqual;
      RunSnoc(o, ticks, t);
      ticks := ticks + [t];
      if outcome != Waiting {
        return;
      }
      var elapsed := now - start;
      if elapsed > o.timeoutMs {
        outcome := TimedOut(elapsed);
        return;
      }
      if now - lastOutputAt < o.minSilentMs {
        return;
      }
      hashes := hashes + [hash];
      if |hashes| > o.stableTicks {
        hashes := hashes[1..];
      }
      if |hashes| == o.stableTicks && |hashes| > 0 {
        if AllEqual(hashes) {
          outcome := Idle(elapsed);
        }
      }
    }
  }

  // ---------- startIdleWatcher ----------

  datatype WatchEvent = Fired(t: Tick) | Cancelled

  /** The ticks an uncancelled watcher lives to see. */
  function BeforeCancel(evs: seq<WatchEvent>): seq<Tick> {
    if evs == [] || evs[0].Cancelled? then [] else [evs[0].t] + BeforeCancel(evs[1..])
  }

  predicate HasCancel(evs: seq<WatchEvent>) {
    exists i | 0 <= i < |evs| :: evs[i].Cancelled?
  }

  lemma {:induction false} BeforeCancelSnoc(evs: seq<WatchEvent>, e: WatchEvent)
    ensures BeforeCancel(evs + [e]) == BeforeCancel(evs) + (if HasCancel(evs) || e.Cancelled? then [] else [e.t])
    ensures HasCancel(evs + [e]) <==> HasCancel(evs) || e.Cancelled?
  {
    if evs != [] {
      assert (evs + [e])[1..] == evs[1..] + [e];
      BeforeCancelSnoc(evs[1..], e);
      assert HasCancel(evs) <==> evs[0].Cancelled? || HasCancel(evs[1..]) by {
        assert forall i | 1 <= i < |evs| :: evs[i] == evs[1..][i - 1];
      }
    }
    assert (evs + [e])[|evs|] == e;
    assert forall i | 0 <= i < |evs| :: (evs + [e])[i] == evs[i];
  }

  /** The background watcher: `onIdle` is called at most once and never after `Cancel`. */
  class IdleWatcher {
    const o: Options
    const start: int
    var hashes: seq<Hash>
    var cancelled: bool
    /** False once clearInterval has run. */
    var armed: bool
    /** The argument of every call of `onIdle`. */
    var idleCalls: seq<int>
    ghost var events: seq<WatchEvent>

    /** What has happened is decided by the ticks before the first cancellation alone. */
    ghost predicate Valid()
      reads this
    {
      var st := Run(o, BeforeCancel(events));
      && cancelled == HasCancel(events)
      && hashes == st.hashes
      && idleCalls == (if st.outcome.Idle? then [st.outcome.ms] else [])
      && (armed <==> !cancelled && st.outcome == Waiting)
    }

    constructor (o: Options, start: int)
      ensures Valid() && events == [] && this.o == o && this.start == start
    {
      this.o, this.start := o, start;
      hashes, cancelled, armed, idleCalls, events := [], false, true, [], [];
    }

    method OnTick(now: int, lastOutputAt: int, hash: Hash)
      requires Valid()
      modifies this
      ensures Valid() && events == old(events) + [Fired(Tick(now - start, now - lastOutputAt, hash))]
      ensures old(cancelled) ==> idleCalls == old(idleCalls)
      ensures |idleCalls| <= 1 && cancelled == old(cancelled)
    {
      ghost var t := Tick(now - start, now - lastOutputAt, hash);
      hide BeforeCancel, HasCancel, Run, AllEqual;
      BeforeCancelSnoc(events, Fired(t));
      ghost var seen := BeforeCancel(events);
      RunSnoc(o, seen, t);
      assert seen + [] == seen;
      events := events + [Fired(t)];
      if !armed {
        // The interval is cleared; so the callback never sees `cancelled` set.
        return;
      }
      var elapsed := now - start;
      if elapsed > o.timeoutMs {
        armed := false;
        return;
      }
      if now - lastOutputAt < o.minSilentMs {
        return;
      }
      hashes := hashes + [hash];
      if |hashes| > o.stableTicks {
        hashes := hashes[1..];
      }
      if |hashes| == o.stableTicks && |hashes| > 0 {
        if AllEqual(hashes) {
          armed := false;
          idleCalls := idleCalls + [elapsed];
        }
      }
    }

    method Cancel()
      requires Valid()
      modifies this
      ensures Valid() && events == old(events) + [Cancelled]
      ensures cancelled && !armed && idleCalls == old(idleCalls)
    {
      BeforeCancelSnoc(events, Cancelled);
      assert BeforeCancel(events) + [] == BeforeCancel(events);
      events := events + [Cancelled];
      cancelled := true;
      armed := false;
    }
  }
}
