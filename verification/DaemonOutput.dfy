/** The output of a session over whole runs of the daemon: what its ring buffer holds, and what successive reads return. */
module DaemonOutput {
  import opened Wrappers
  import opened Constants
  import opened Flatten
  import opened Decimal
  import opened Daemon
  import opened DaemonInvariants
  import Base64
  import N = Notifications
  import P = Persistence
  import R = Registry
  import RB = RingBuffer
  import S = Session

  /** What a frame carries: the decoded bytes of a stdout frame in canonical base64. */
  function Payload(f: Frame): seq<seq<byte>> {
    if f.Stdout? && Base64.DecodeStrict(f.data).Some? then [Base64.DecodeStrict(f.data).value] else []
  }

  function Printed(f: Frame, now: int): seq<RB.Chunk> {
    if Payload(f) == [] then [] else [RB.Chunk(now, Payload(f)[0])]
  }

  /** What an event delivers to session `h`, whichever connection it comes on. */
  function Delivered(st: State, e: Event, h: nat): seq<RB.Chunk> {
    if e.Received? && Reaches(st, e.conn) && st.conns[e.conn].role == Cb && st.conns[e.conn].session == Some(h)
    then Printed(e.frame, e.now)
    else []
  }

  /** All output delivered to session `h` in a run, with the times of its handling. */
  function OutputTo(st: State, es: seq<Event>, h: nat): seq<RB.Chunk>
    decreases |es|
  {
    if es == [] then []
    else OutputTo(st, es[..|es| - 1], h) + Delivered(Run(st, es[..|es| - 1]), es[|es| - 1], h)
  }

  /** The chunks in the ring buffer of session `h`; none before it exists. */
  function Buffer(st: State, h: nat): seq<RB.Chunk> {
    At(st.heap, h).raw
  }

  /** The buffer after at most one more push. */
  function Pushed(raw: seq<RB.Chunk>, more: seq<RB.Chunk>): seq<RB.Chunk> {
    if more == [] then raw else RB.Evict(RING_BUFFER_MAX_BYTES, raw + RB.Stored(RING_BUFFER_MAX_BYTES, more[0]))
  }

  // ---------- one event ----------

  /** No session is forgotten, and the buffer of `h` stays as it is. */
  ghost predicate SameBuffer(heap: seq<S.SessionData>, heap': seq<S.SessionData>, h: nat) {
    && |heap'| >= |heap| && At(heap', h).raw == At(heap, h).raw
    && (h < |heap| ==> heap'[h].lastOutputAt == heap[h].lastOutputAt)
  }

  /** The time of the latest of these chunks, which come in order of handling. */
  function LastTime(cs: seq<RB.Chunk>, otherwise: int): int {
    if cs == [] then otherwise else cs[|cs| - 1].ts
  }

  lemma MarkDeadKeepsBuffer(st: State, g: nat, cause: Cause, now: int, h: nat)
    ensures SameBuffer(st.heap, MarkDead(st, g, cause, now).heap, h)
  {
  }

  lemma {:induction false} PidPollKeepsBuffer(st: State, n: nat, gone: set<nat>, now: int, h: nat)
    requires n <= |st.reg|
    ensures SameBuffer(st.heap, PidPollFirst(st, n, gone, now).heap, h)
    decreases n
  {
    if n > 0 {
      PidPollNext(st, n, gone, now);
      hide MarkDead, PidPollFirst;
      PidPollKeepsBuffer(st, n - 1, gone, now, h);
      MarkDeadKeepsBuffer(PidPollFirst(st, n - 1, gone, now), st.reg[n - 1], PidGone, now, h);
    }
  }

  lemma AcceptKeepsBuffer(st: State, c: nat, m: HelloMsg, now: int, h: nat)
    requires c < |st.conns|
    ensures SameBuffer(st.heap, AcceptCb(st, c, m, now).heap, h)
  {
    hide Accepted, Prior, Registered, R.Resolved, P.AddOrUpdate, N.FanoutAdded, Put, Without, S.ProcessAlive;
  }

  lemma FrameStores(st: State, c: nat, f: Frame, now: int, h: nat)
    requires Reaches(st, c) && (st.conns[c].session.Some? ==> st.conns[c].session.value < |st.heap|)
    ensures var t := Dispatch(st, c, f, now);
            && |t.heap| >= |st.heap| && Buffer(t, h) == Pushed(Buffer(st, h), Delivered(st, Received(c, f, now), h))
            && (h < |st.heap| ==> t.heap[h].lastOutputAt == LastTime(Delivered(st, Received(c, f, now), h), st.heap[h].lastOutputAt))
  {
    hide AcceptCb, MarkDead, N.Drained, Base64.DecodeStrict, RB.Evict, RB.Stored;
    if st.conns[c].role == Unknown && f.Hello? {
      AcceptKeepsBuffer(st, c, f.hello, now, h);
    } else if f.Bye? && st.conns[c].session.Some? {
      MarkDeadKeepsBuffer(st, st.conns[c].session.value, ByeFrame(f.exitCode), now, h);
    }
  }

  lemma TickKeepsBuffer(st: State, c: nat, now: int, h: nat)
    requires c < |st.conns|
    ensures SameBuffer(st.heap, HeartbeatTick(st, c, now).heap, h)
  {
    hide MarkDead;
    if st.conns[c].session.Some? {
      var g := st.conns[c].session.value;
      var t := WithSession(st, g, At(st.heap, g).(missedPongs := At(st.heap, g).missedPongs + 1));
      MarkDeadKeepsBuffer(t, g, HeartbeatLost, now, h);
    }
  }

  lemma CloseKeepsBuffer(st: State, c: nat, now: int, h: nat)
    requires c < |st.conns|
    ensures SameBuffer(st.heap, HandleClose(st, c, now).heap, h)
  {
    hide MarkDead, N.Disconnected, WithoutPeer;
    var t := st.(conns := st.conns[c := st.conns[c].(heartbeat := false, destroyed := true, closed := true)]);
    if st.conns[c].session.Some? {
      MarkDeadKeepsBuffer(t, st.conns[c].session.value, PipeClosed, now, h);
    }
  }

  lemma InjectKeepsBuffer(st: State, g: nat, probe: S.Probe, writeThrows: bool, now: int, h: nat)
    ensures SameBuffer(st.heap, InjectInto(st, g, probe, writeThrows, now).heap, h)
  {
    hide MarkDead, PipeOpen;
    MarkDeadKeepsBuffer(st, g, PidGoneInject, now, h);
  }

  /** Every event pushes what it delivers to a session into that session's buffer, and nothing else touches a buffer. */
  lemma StepStores(st: State, e: Event, h: nat)
    requires Inv(st)
    ensures |Step(st, e).heap| >= |st.heap|
    ensures Buffer(Step(st, e), h) == Pushed(Buffer(st, h), Delivered(st, e, h))
    ensures h < |st.heap| ==> Step(st, e).heap[h].lastOutputAt == LastTime(Delivered(st, e, h), st.heap[h].lastOutputAt)
    ensures h >= |st.heap| ==> Delivered(st, e, h) == []
  {
    if e.Received? && Reaches(st, e.conn) {
      assert ConnFacts(st.conns[e.conn], e.conn, st.heap);
    }
    hide Inv, Dispatch, HeartbeatTick, HandleClose, PidPollFirst, MarkDead, N.Followup, N.WentIdle, Retained, Printed, RB.Evict, RB.Stored;
    match e {
      case Received(c, f, now) => if Reaches(st, c) { FrameStores(st, c, f, now, h); }
      case Tick(c, now) => if Reaches(st, c) { TickKeepsBuffer(st, c, now, h); }
      case Close(c, now) => if Reaches(st, c) { CloseKeepsBuffer(st, c, now, h); }
      case PidPoll(gone, now) => PidPollKeepsBuffer(st, |st.reg|, gone, now, h);
      case Inject(g, probe, throws, now) => InjectKeepsBuffer(st, g, probe, throws, now, h);
      case _ =>
    }
  }

  // ---------- whole runs ----------

  lemma PushedIsRetained(older: seq<RB.Chunk>, more: seq<RB.Chunk>)
    requires |more| <= 1
    ensures Pushed(RB.Retained(RING_BUFFER_MAX_BYTES, older), more) == RB.Retained(RING_BUFFER_MAX_BYTES, older + more)
  {
    hide RB.Evict, RB.Stored, RB.Retained;
    if more == [] {
      assert older + more == older;
    } else {
      assert more == [more[0]];
      RB.RetainedSnoc(RING_BUFFER_MAX_BYTES, older, more[0]);
    }
  }

  /** From any state whose buffer of `h` holds what is retained of some earlier output, every run keeps it so. */
  lemma {:induction false} RunRetains(st: State, es: seq<Event>, h: nat, older: seq<RB.Chunk>)
    requires Inv(st) && Buffer(st, h) == RB.Retained(RING_BUFFER_MAX_BYTES, older)
    ensures Buffer(Run(st, es), h) == RB.Retained(RING_BUFFER_MAX_BYTES, older + OutputTo(st, es, h))
    ensures h >= |Run(st, es).heap| ==> OutputTo(st, es, h) == []
    decreases |es|
  {
    if es == [] {
      hide Inv, Buffer, RB.Retained;
      assert older + [] == older;
    } else {
      hide Inv, Buffer, Step, Delivered, Pushed, RB.Retained;
      var front, e := es[..|es| - 1], es[|es| - 1];
      RunRetains(st, front, h, older);
      RunInv(st, front);
      DeliveredOnce(Run(st, front), e, h);
      StepStores(Run(st, front), e, h);
      PushedIsRetained(older + OutputTo(st, front, h), Delivered(Run(st, front), e, h));
      assert older + (OutputTo(st, front, h) + Delivered(Run(st, front), e, h))
          == (older + OutputTo(st, front, h)) + Delivered(Run(st, front), e, h);
    }
  }

  lemma {:induction false} HeapGrows(st: State, es: seq<Event>)
    requires Inv(st)
    ensures |Run(st, es).heap| >= |st.heap|
    decreases |es|
  {
    if es != [] {
      hide Inv, Step;
      HeapGrows(st, es[..|es| - 1]);
      RunInv(st, es[..|es| - 1]);
      StepStores(Run(st, es[..|es| - 1]), es[|es| - 1], 0);
    }
  }

  /** lastOutputAt is the time at which the latest output was handled. */
  lemma {:induction false} LastOutputIs(st: State, es: seq<Event>, h: nat)
    requires Inv(st) && h < |st.heap|
    ensures h < |Run(st, es).heap|
    ensures Run(st, es).heap[h].lastOutputAt == LastTime(OutputTo(st, es, h), st.heap[h].lastOutputAt)
    decreases |es|
  {
    hide Inv, Step, Delivered, LastTime;
    HeapGrows(st, es);
    if es == [] {
      LastTimeAppend([], [], st.heap[h].lastOutputAt);
    } else {
      var front, e := es[..|es| - 1], es[|es| - 1];
      LastOutputIs(st, front, h);
      RunInv(st, front);
      StepStores(Run(st, front), e, h);
      LastTimeAppend(OutputTo(st, front, h), Delivered(Run(st, front), e, h), st.heap[h].lastOutputAt);
    }
  }

  lemma LastTimeAppend(a: seq<RB.Chunk>, b: seq<RB.Chunk>, otherwise: int)
    ensures LastTime(a + b, otherwise) == LastTime(b, LastTime(a, otherwise))
    ensures LastTime([], otherwise) == otherwise
  {
    if b == [] {
      assert a + b == a;
    }
  }

  lemma DeliveredOnce(st: State, e: Event, h: nat)
    ensures |Delivered(st, e, h)| <= 1
  {
  }

  /**
   Over every run, whatever else happens in between: the buffer of a session holds the longest
   fitting suffix of all output delivered to it, on whichever connections, and nothing else.
   */
  lemma BufferHoldsOutput(file: seq<P.Entry>, start: int, es: seq<Event>, h: nat)
    ensures var init := Initial(file, start);
            var out, raw := OutputTo(init, es, h), Buffer(Run(init, es), h);
            && raw == RB.Retained(RING_BUFFER_MAX_BYTES, out)
            && RB.LongestFittingSuffix(RING_BUFFER_MAX_BYTES, RB.StoredAll(RING_BUFFER_MAX_BYTES, out), raw)
            && RB.IsSuffix(RB.Bytes(raw), RB.Bytes(out))
            && (h >= |Run(init, es).heap| ==> out == [])
  {
    var init := Initial(file, start);
    InitialInv(file, start);
    NothingRetained(init, h);
    RunRetains(init, es, h, []);
    var out := OutputTo(init, es, h);
    assert [] + out == out;
    RB.EvictKeepsLongestSuffix(RING_BUFFER_MAX_BYTES, RB.StoredAll(RING_BUFFER_MAX_BYTES, out));
    RB.RetainedBytesAreSuffix(RING_BUFFER_MAX_BYTES, out);
    hide Inv, Run, OutputTo, Buffer, RB.StoredAll, RB.Evict, RB.LongestFittingSuffix, RB.IsSuffix, RB.Bytes;
  }

  lemma NothingRetained(st: State, h: nat)
    requires h >= |st.heap|
    ensures Buffer(st, h) == RB.Retained(RING_BUFFER_MAX_BYTES, [])
  {
    assert RB.StoredAll(RING_BUFFER_MAX_BYTES, []) == [];
  }

  lemma {:induction false} OutputToAppend(st: State, a: seq<Event>, b: seq<Event>, h: nat)
    ensures OutputTo(st, a + b, h) == OutputTo(st, a, h) + OutputTo(Run(st, a), b, h)
    decreases |b|
  {
    hide Step, Delivered;
    if b == [] {
      assert a + b == a;
      assert OutputTo(st, a, h) + [] == OutputTo(st, a, h);
    } else {
      var front := b[..|b| - 1];
      assert (a + b)[..|a + b| - 1] == a + front;
      OutputToAppend(st, a, front, h);
      RunAppend(st, a, front);
    }
  }

  // ---------- successive reads ----------

  /** Reads of session `h` at the end of each part of a run, each given the timestamp of the one before. */
  function Reads(st: State, parts: seq<seq<Event>>, h: nat, cap: nat, since: int): seq<RB.Read>
    decreases |parts|
  {
    if parts == [] then []
    else
      var t := Run(st, parts[0]);
      [RB.Read(since, RB.Tail(RB.Bytes(RB.After(Buffer(t, h), since)), cap))]
      + Reads(t, parts[1..], h, cap, RB.Latest(Buffer(t, h), since))
  }

  /** What each part of the run delivers to the session. */
  function Batches(st: State, parts: seq<seq<Event>>, h: nat): (bs: seq<seq<RB.Chunk>>)
    ensures |bs| == |parts|
    decreases |parts|
  {
    if parts == [] then [] else [OutputTo(st, parts[0], h)] + Batches(Run(st, parts[0]), parts[1..], h)
  }

  /** Together the parts deliver what the whole run delivers. */
  lemma {:induction false} BatchesAreOutput(st: State, parts: seq<seq<Event>>, h: nat)
    ensures RB.AllPushed(Batches(st, parts, h)) == OutputTo(st, Flat(parts), h)
    decreases |parts|
  {
    if parts != [] {
      hide Run, OutputTo;
      var bs := Batches(st, parts, h);
      assert bs[0] == OutputTo(st, parts[0], h) && bs[1..] == Batches(Run(st, parts[0]), parts[1..], h);
      BatchesAreOutput(Run(st, parts[0]), parts[1..], h);
      OutputToAppend(st, parts[0], Flat(parts[1..]), h);
    }
  }

  lemma {:induction false} ReadsArePolls(st: State, parts: seq<seq<Event>>, h: nat, cap: nat, since: int, older: seq<RB.Chunk>)
    requires Inv(st) && Buffer(st, h) == RB.Retained(RING_BUFFER_MAX_BYTES, older)
    ensures Reads(st, parts, h, cap, since) == RB.Polls(RING_BUFFER_MAX_BYTES, cap, older, since, Batches(st, parts, h))
    decreases |parts|
  {
    if parts != [] {
      hide Inv, Run, OutputTo, Buffer, RB.Retained, RB.Tail, RB.Bytes, RB.After, RB.Latest;
      var t := Run(st, parts[0]);
      var now := older + OutputTo(st, parts[0], h);
      RunRetains(st, parts[0], h, older);
      RunInv(st, parts[0]);
      ReadsArePolls(t, parts[1..], h, cap, RB.Latest(Buffer(t, h), since), now);
      var bs := Batches(st, parts, h);
      assert bs[0] == OutputTo(st, parts[0], h) && bs[1..] == Batches(t, parts[1..], h);
    }
  }

  /**
   Reading a session of the running daemon, for every run cut into parts in any way: the read at
   the end of a part returns output that this part delivered and nothing delivered before; the
   reads together return all of the session's output, once and in order, exactly when each
   part's output fits and is later than the timestamp the read before returned.
   */
  lemma ReadsReturnOwnOutput(file: seq<P.Entry>, start: int, parts: seq<seq<Event>>, h: nat, cap: nat, since: int)
    requires RB.InOrder(OutputTo(Initial(file, start), Flat(parts), h))
    ensures var init := Initial(file, start);
            var rs, bs := Reads(init, parts, h, cap, since), Batches(init, parts, h);
            && RB.OwnBatches(RING_BUFFER_MAX_BYTES, cap, bs, rs)
            && (RB.Returned(rs) == RB.Bytes(OutputTo(init, Flat(parts), h)) <==> RB.AllWhole(RING_BUFFER_MAX_BYTES, cap, bs, rs))
  {
    var init := Initial(file, start);
    InitialInv(file, start);
    NothingRetained(init, h);
    ReadsArePolls(init, parts, h, cap, since, []);
    BatchesAreOutput(init, parts, h);
    hide Inv, Initial, Buffer, Batches, Reads, OutputTo, Flat, RB.Polls, RB.Retained, RB.InOrder, RB.AllPushed, RB.OwnBatches, RB.AllWhole, RB.Returned, RB.Bytes;
    RB.ReadsNeverRepeat(RING_BUFFER_MAX_BYTES, cap, since, Batches(init, parts, h));
    RB.IncrementalReads(RING_BUFFER_MAX_BYTES, cap, since, Batches(init, parts, h));
  }
}
