/**
 The reconnecting sender of packages/cb/src/pipe-client.ts: a bounded queue before the
 handshake, drained behind the hello, then direct writes. `State` and `Step` are the
 machine with its histories; the class runs it.
 */
module PipeClient {
  import opened Wrappers
  import opened Constants
  import Inject

  /** An encoded frame and the number of the `send` call that made it (the program has no such number). */
  datatype Frame = Frame(serial: nat, bytes: seq<byte>)

  /** What a socket is given to write. */
  datatype Item = Hello(resume: bool) | Data(frame: Frame) | Bye(exitCode: int)

  datatype State = State(
    socket: Option<nat>,          // this.socket, by order of creation
    connected: bool,
    shuttingDown: bool,
    isReconnect: bool,
    timer: bool,                  // a reconnect is scheduled
    queue: seq<Frame>,
    // histories
    sent: seq<Frame>,             // every frame given to `send`
    evicted: seq<Frame>,          // dropped on overflow
    wires: seq<seq<Item>>,        // per socket, everything written to it
    closed: set<nat>)             // sockets whose close handler has run

  const INITIAL := State(None, false, false, false, false, [], [], [], [], {})

  datatype Event =
    | Start
    | TimerFires
    | Send(bytes: seq<byte>)
    | SecretReady(sock: nat)      // handleOnConnect goes on after its await, with the secret
    | SecretMissing(sock: nat)    // handleOnConnect goes on after its await, without one
    | Close(sock: nat)
    | SendBye(exitCode: int)
    | Shutdown

  // ---------- the bounded queue ----------

  function Size(q: seq<Frame>): nat {
    if q == [] then 0 else |q[0].bytes| + Size(q[1..])
  }

  /** Oldest first, but never the last frame. */
  function Evict(q: seq<Frame>): (r: seq<Frame>)
    ensures |r| <= |q| && r == q[|q| - |r|..]
    ensures q != [] ==> r != []
    ensures Size(r) <= PRE_CONNECT_QUEUE_MAX_BYTES || |r| <= 1
  {
    if Size(q) > PRE_CONNECT_QUEUE_MAX_BYTES && |q| > 1 then Evict(q[1..]) else q
  }

  lemma EvictStep(q: seq<Frame>)
    requires q != []
    ensures Evict(q) == if Size(q) > PRE_CONNECT_QUEUE_MAX_BYTES && |q| > 1 then Evict(q[1..]) else q
    ensures Size(q) == |q[0].bytes| + Size(q[1..])
  {
  }

  lemma {:induction false} SizeSnoc(q: seq<Frame>, f: Frame)
    ensures Size(q + [f]) == Size(q) + |f.bytes|
  {
    if q != [] {
      assert (q + [f])[1..] == q[1..] + [f];
      SizeSnoc(q[1..], f);
    }
  }

  /** Nothing is dropped that would have fitted. */
  lemma {:induction false} EvictIsMinimal(q: seq<Frame>, i: nat)
    requires i < |q| - |Evict(q)|
    ensures Size(q[i..]) > PRE_CONNECT_QUEUE_MAX_BYTES
  {
    if i > 0 {
      EvictIsMinimal(q[1..], i - 1);
      assert q[i..] == q[1..][i - 1..];
    } else {
      assert q[0..] == q;
    }
  }

  // ---------- the machine ----------

  function DataItems(q: seq<Frame>): seq<Item> {
    if q == [] then [] else [Data(q[0])] + DataItems(q[1..])
  }

  function WriteTo(wires: seq<seq<Item>>, c: nat, items: seq<Item>): seq<seq<Item>> {
    if c < |wires| then wires[c := wires[c] + items] else wires
  }

  function Connect(s: State): State {
    if s.shuttingDown then s
    else s.(timer := false, socket := Some(|s.wires|), wires := s.wires + [[]])
  }

  function AfterShutdown(s: State): State {
    s.(shuttingDown := true, timer := false, socket := None, connected := false)
  }

  function AfterSend(s: State, bytes: seq<byte>): State {
    var f := Frame(|s.sent|, bytes);
    var t := s.(sent := s.sent + [f]);
    if !s.connected || s.socket == None then
      var q := Evict(s.queue + [f]);
      t.(queue := q, evicted := s.evicted + (s.queue + [f])[..|s.queue| + 1 - |q|])
    else
      t.(wires := WriteTo(s.wires, s.socket.value, [Data(f)]))
  }

  function AfterClose(s: State, c: nat): State {
    var t := s.(closed := s.closed + {c}, connected := false, socket := None);
    if s.shuttingDown then t else t.(isReconnect := true, timer := true)
  }

  function Step(s: State, e: Event): State {
    match e
    case Start => if s.wires == [] then Connect(s) else s
    case TimerFires => if s.timer then Connect(s.(timer := false)) else s
    case Send(bytes) => AfterSend(s, bytes)
    case SecretReady(c) =>
      if c >= |s.wires| then s
      else
        s.(wires := WriteTo(s.wires, c, [Hello(s.isReconnect)] + DataItems(s.queue)),
           queue := [], connected := true)
    case SecretMissing(c) => if c >= |s.wires| then s else AfterShutdown(s)
    case Close(c) => if c >= |s.wires| || c in s.closed then s else AfterClose(s, c)
    case SendBye(code) =>
      if !s.connected || s.socket == None then s
      else s.(wires := WriteTo(s.wires, s.socket.value, [Bye(code)]))
    case Shutdown => AfterShutdown(s)
  }

  function Run(es: seq<Event>): State {
    if es == [] then INITIAL else Step(Run(es[..|es| - 1]), es[|es| - 1])
  }

  // ---------- invariants ----------

  function DataIn(items: seq<Item>): seq<Frame> {
    if items == [] then []
    else DataIn(items[..|items| - 1]) + (if items[|items| - 1].Data? then [items[|items| - 1].frame] else [])
  }

  /** Every frame written, over all connections in order. */
  function Written(wires: seq<seq<Item>>): seq<Frame> {
    if wires == [] then [] else Written(wires[..|wires| - 1]) + DataIn(wires[|wires| - 1])
  }

  ghost predicate Increasing(fs: seq<Frame>) {
    forall i, j | 0 <= i < j < |fs| :: fs[i].serial < fs[j].serial
  }

  /** A connection is untouched, or has carried the hello and after it only frames and byes. */
  ghost predicate HelloFirst(items: seq<Item>) {
    items != [] ==> items[0].Hello? && forall i | 1 <= i < |items| :: !items[i].Hello?
  }

  ghost predicate Numbered(sent: seq<Frame>) {
    forall i | 0 <= i < |sent| :: sent[i].serial == i
  }

  ghost predicate Subsequence(fs: seq<Frame>, sent: seq<Frame>, upTo: nat) {
    Increasing(fs) && forall i | 0 <= i < |fs| :: fs[i].serial < upTo <= |sent| && fs[i] == sent[fs[i].serial]
  }

  ghost predicate InExactlyOne(a: seq<Frame>, b: seq<Frame>, f: Frame) {
    (f in a) != (f in b)
  }

  /** The first `upTo` frames sent are divided between `a` and `b`, each in order and without repetition. */
  ghost predicate Divided(a: seq<Frame>, b: seq<Frame>, sent: seq<Frame>, upTo: nat) {
    && upTo <= |sent|
    && Subsequence(a, sent, upTo)
    && Subsequence(b, sent, upTo)
    && forall i | 0 <= i < upTo :: InExactlyOne(a, b, sent[i])
  }

  /** Every frame given to `send` is in exactly one place, and each place keeps the order of sending. */
  ghost predicate Conserved(sent: seq<Frame>, queue: seq<Frame>, evicted: seq<Frame>, wires: seq<seq<Item>>) {
    && |queue| <= |sent|
    && Numbered(sent)
    && queue == sent[|sent| - |queue|..]
    && Divided(Written(wires), evicted, sent, |sent| - |queue|)
  }

  ghost predicate Connected(s: State) {
    && (s.socket.Some? ==> s.socket.value + 1 == |s.wires| && s.socket.value !in s.closed && !s.shuttingDown && !s.timer)
    && (s.connected ==> s.socket.Some? && s.queue == [] && s.wires[s.socket.value] != [])
    && (!s.connected && s.socket.Some? ==> s.wires[s.socket.value] == [])
    && (forall c | 0 <= c < |s.wires| :: HelloFirst(s.wires[c]))
    && (forall c | 1 <= c < |s.wires| && s.wires[c] != [] :: s.wires[c][0] == Hello(true))
    && (|s.wires| > 1 ==> s.isReconnect)
    && (s.timer ==> s.isReconnect && !s.shuttingDown && s.wires != [])
    && (s.wires != [] && !s.shuttingDown ==> s.socket.Some? || s.timer)
    && (forall c | 0 <= c < |s.wires| - 1 :: c in s.closed)
    && (forall c | c in s.closed :: c < |s.wires|)
    && (s.socket == None && s.wires != [] && !s.shuttingDown ==> |s.wires| - 1 in s.closed)
  }

  ghost predicate Inv(s: State) {
    && Conserved(s.sent, s.queue, s.evicted, s.wires)
    && Connected(s)
    && (Size(s.queue) <= PRE_CONNECT_QUEUE_MAX_BYTES || |s.queue| == 1)
  }

  /** A handshake on `c` is under way: connected at the transport level, hello not yet written. */
  ghost predicate HandshakePending(s: State, c: nat) {
    c < |s.wires| && s.wires[c] == []
  }

  /**
   What the code relies on at the end of the await in handleOnConnect: the socket it was
   called for is still the current one, or the client is already connected again.
   */
  predicate StillCurrent(s: State, c: nat) {
    s.socket == Some(c) || s.connected
  }

  // ---------- lemmas about the histories ----------

  lemma DataInSnoc(items: seq<Item>, it: Item)
    ensures DataIn(items + [it]) == DataIn(items) + (if it.Data? then [it.frame] else [])
  {
    assert (items + [it])[..|items|] == items;
  }

  lemma {:induction false} DataInAppend(xs: seq<Item>, ys: seq<Item>)
    ensures DataIn(xs + ys) == DataIn(xs) + DataIn(ys)
    decreases |ys|
  {
    if ys == [] {
      assert xs + ys == xs;
    } else {
      var n := |ys| - 1;
      assert xs + ys == (xs + ys[..n]) + [ys[n]];
      DataInSnoc(xs + ys[..n], ys[n]);
      DataInAppend(xs, ys[..n]);
    }
  }

  lemma {:induction false} DataInDataItems(q: seq<Frame>)
    ensures DataIn(DataItems(q)) == q && |DataItems(q)| == |q|
    ensures forall i | 0 <= i < |q| :: DataItems(q)[i] == Data(q[i])
  {
    if q != [] {
      DataInDataItems(q[1..]);
      DataInSnoc([], Data(q[0]));
      assert [] + [Data(q[0])] == [Data(q[0])] && [] + [q[0]] == [q[0]] && [q[0]] + q[1..] == q;
      var rest := DataItems(q[1..]);
      assert DataItems(q) == [Data(q[0])] + rest && DataIn([]) == [];
      hide DataItems, DataIn;
      DataInAppend([Data(q[0])], rest);
    }
  }

  lemma WrittenNewSocket(wires: seq<seq<Item>>)
    ensures Written(wires + [[]]) == Written(wires)
  {
    assert (wires + [[]])[..|wires|] == wires;
    assert Written(wires) + [] == Written(wires);
  }

  /** Writing to the latest socket adds at the end of everything written. */
  lemma WrittenToLast(wires: seq<seq<Item>>, items: seq<Item>)
    requires wires != []
    ensures Written(WriteTo(wires, |wires| - 1, items)) == Written(wires) + DataIn(items)
  {
    hide DataIn;
    var n := |wires| - 1;
    var after := WriteTo(wires, n, items);
    assert after[..n] == wires[..n];
    DataInAppend(wires[n], items);
    var a, b, c := Written(wires[..n]), DataIn(wires[n]), DataIn(items);
    assert a + (b + c) == (a + b) + c;
  }

  /** A write without data changes nothing that was written, on whichever socket. */
  lemma {:induction false} WrittenWithoutData(wires: seq<seq<Item>>, c: nat, items: seq<Item>)
    requires c < |wires| && DataIn(items) == []
    ensures Written(WriteTo(wires, c, items)) == Written(wires)
  {
    var n := |wires| - 1;
    var after := WriteTo(wires, c, items);
    if c == n {
      WrittenToLast(wires, items);
      assert Written(wires) + [] == Written(wires);
    } else {
      assert after[..n] == WriteTo(wires[..n], c, items);
      WrittenWithoutData(wires[..n], c, items);
    }
  }

  lemma SubsequenceGrows(a: seq<Frame>, sent: seq<Frame>, upTo: nat, more: seq<Frame>)
    requires Subsequence(a, sent, upTo) && upTo + |more| <= |sent| && Numbered(sent)
    requires more == sent[upTo..upTo + |more|]
    ensures Subsequence(a + more, sent, upTo + |more|)
  {
    var c := a + more;
    forall i | 0 <= i < |c| ensures c[i].serial < upTo + |more| && c[i] == sent[c[i].serial] {
      if i >= |a| { assert c[i] == more[i - |a|] == sent[upTo + (i - |a|)]; }
    }
    forall i, j | 0 <= i < j < |c| ensures c[i].serial < c[j].serial {
      if j >= |a| { assert c[j] == more[j - |a|] == sent[upTo + (j - |a|)]; }
      if i >= |a| { assert c[i] == more[i - |a|] == sent[upTo + (i - |a|)]; }
    }
  }

  /** The next frames sent all go to the same place. */
  lemma DividedGrows(a: seq<Frame>, b: seq<Frame>, sent: seq<Frame>, upTo: nat, more: seq<Frame>)
    requires Divided(a, b, sent, upTo) && upTo + |more| <= |sent| && Numbered(sent)
    requires more == sent[upTo..upTo + |more|]
    ensures Divided(a + more, b, sent, upTo + |more|)
  {
    SubsequenceGrows(a, sent, upTo, more);
    forall i | 0 <= i < upTo + |more| ensures InExactlyOne(a + more, b, sent[i]) {
      if i >= upTo {
        assert more[i - upTo] == sent[i];
        NotYet(b, sent, upTo, i);
      } else {
        NotAmong(sent, upTo, more, i);
        assert InExactlyOne(a, b, sent[i]);
      }
    }
  }

  lemma NotYet(b: seq<Frame>, sent: seq<Frame>, upTo: nat, i: nat)
    requires Subsequence(b, sent, upTo) && upTo <= i < |sent| && Numbered(sent)
    ensures sent[i] !in b
  {
  }

  lemma NotAmong(sent: seq<Frame>, upTo: nat, more: seq<Frame>, i: nat)
    requires i < upTo && upTo + |more| <= |sent| && Numbered(sent)
    requires more == sent[upTo..upTo + |more|]
    ensures sent[i] !in more
  {
    forall k | 0 <= k < |more| ensures more[k].serial > i {
      assert more[k] == sent[upTo + k];
    }
  }

  lemma DividedSwapped(a: seq<Frame>, b: seq<Frame>, sent: seq<Frame>, upTo: nat)
    requires Divided(a, b, sent, upTo)
    ensures Divided(b, a, sent, upTo)
  {
    forall i | 0 <= i < upTo ensures InExactlyOne(b, a, sent[i]) {
      assert InExactlyOne(a, b, sent[i]);
    }
  }

  /** One more `send` changes nothing about the frames already placed. */
  lemma DividedLonger(a: seq<Frame>, b: seq<Frame>, sent: seq<Frame>, upTo: nat, f: Frame)
    requires Divided(a, b, sent, upTo) && Numbered(sent) && f.serial == |sent|
    ensures Divided(a, b, sent + [f], upTo) && Numbered(sent + [f])
  {
    var longer := sent + [f];
    assert forall i | 0 <= i < |sent| :: longer[i] == sent[i];
    forall i | 0 <= i < upTo ensures InExactlyOne(a, b, longer[i]) {
      assert InExactlyOne(a, b, sent[i]);
    }
  }

  lemma ConservedWhenDrained(sent: seq<Frame>, queue: seq<Frame>, evicted: seq<Frame>,
                             wires: seq<seq<Item>>, after: seq<seq<Item>>)
    requires Conserved(sent, queue, evicted, wires) && Written(after) == Written(wires) + queue
    ensures Conserved(sent, [], evicted, after)
  {
    hide Written, Divided;
    DividedGrows(Written(wires), evicted, sent, |sent| - |queue|, queue);
  }

  lemma ConservedWhenWritten(sent: seq<Frame>, evicted: seq<Frame>, f: Frame,
                             wires: seq<seq<Item>>, after: seq<seq<Item>>)
    requires Conserved(sent, [], evicted, wires) && f.serial == |sent|
    requires Written(after) == Written(wires) + [f]
    ensures Conserved(sent + [f], [], evicted, after)
  {
    hide Written, Divided;
    DividedLonger(Written(wires), evicted, sent, |sent|, f);
    assert [f] == (sent + [f])[|sent|..|sent| + 1];
    DividedGrows(Written(wires), evicted, sent + [f], |sent|, [f]);
  }

  lemma ConservedWhenQueued(sent: seq<Frame>, queue: seq<Frame>, evicted: seq<Frame>, wires: seq<seq<Item>>, f: Frame)
    requires Conserved(sent, queue, evicted, wires) && f.serial == |sent|
    ensures var q := Evict(queue + [f]);
            Conserved(sent + [f], q, evicted + (queue + [f])[..|queue| + 1 - |q|], wires)
  {
    hide Written, Divided, Evict, Size;
    var long, longer, gone := queue + [f], sent + [f], |sent| - |queue|;
    var q := Evict(long);
    var k := |long| - |q|;
    DividedLonger(Written(wires), evicted, sent, gone, f);
    assert long == longer[gone..];
    assert long[..k] == longer[gone..gone + k];
    assert q == longer[gone + k..];
    DividedSwapped(Written(wires), evicted, longer, gone);
    DividedGrows(evicted, Written(wires), longer, gone, long[..k]);
    DividedSwapped(evicted + long[..k], Written(wires), longer, gone + k);
  }

  // ---------- every step keeps the invariant ----------

  lemma ConnectKeepsInv(s: State)
    requires Inv(s) && (s.wires == [] || s.timer)
    ensures Inv(Connect(s))
  {
    hide Evict, Size;
    WrittenNewSocket(s.wires);
    ConservedSameWritten(s.sent, s.queue, s.evicted, s.wires, s.wires + [[]]);
    hide Written, Conserved;
  }

  lemma ConservedSameWritten(sent: seq<Frame>, queue: seq<Frame>, evicted: seq<Frame>,
                             wires: seq<seq<Item>>, after: seq<seq<Item>>)
    requires Conserved(sent, queue, evicted, wires) && Written(after) == Written(wires)
    ensures Conserved(sent, queue, evicted, after)
  {
    hide Written;
  }

  lemma SendKeepsInv(s: State, bytes: seq<byte>)
    requires Inv(s)
    ensures Inv(AfterSend(s, bytes))
  {
    hide Written, DataIn, Conserved, Evict, Size, Connected;
    var f, t := Frame(|s.sent|, bytes), AfterSend(s, bytes);
    SizeOfEmpty();
    if !s.connected || s.socket == None {
      ConservedWhenQueued(s.sent, s.queue, s.evicted, s.wires, f);
    } else {
      ConnectedSocket(s);
      WrittenToLast(s.wires, [Data(f)]);
      DataOfOne(f);
      ConservedWhenWritten(s.sent, s.evicted, f, s.wires, t.wires);
    }
    ConnectedAfterSend(s, bytes);
  }

  lemma ConnectedSocket(s: State)
    requires Connected(s) && s.connected
    ensures s.socket == Some(|s.wires| - 1) && s.wires != [] && s.queue == []
  {
  }

  lemma ConnectedAfterSend(s: State, bytes: seq<byte>)
    requires Connected(s)
    ensures Connected(AfterSend(s, bytes))
  {
    hide Evict, Size;
  }

  lemma DataOfOne(f: Frame)
    ensures DataIn([Data(f)]) == [f]
  {
    DataInSnoc([], Data(f));
    assert [] + [Data(f)] == [Data(f)];
  }

  lemma DataAfterHello(resume: bool, q: seq<Frame>)
    ensures var items := [Hello(resume)] + DataItems(q); DataIn(items) == q && HelloFirst(items)
  {
    hide DataIn, DataItems;
    DataInDataItems(q);
    DataInAppend([Hello(resume)], DataItems(q));
    DataInSnoc([], Hello(resume));
    DataInEmpty();
    assert [] + [Hello(resume)] == [Hello(resume)];
    var items := [Hello(resume)] + DataItems(q);
    forall i | 1 <= i < |items| ensures !items[i].Hello? {
      assert items[i] == DataItems(q)[i - 1];
    }
  }

  lemma DataInEmpty()
    ensures DataIn([]) == []
  {
  }

  lemma HandshakeKeepsInv(s: State, c: nat)
    requires Inv(s) && HandshakePending(s, c) && StillCurrent(s, c)
    ensures Inv(Step(s, SecretReady(c)))
  {
    hide Written, DataIn, DataItems, Conserved, HelloFirst;
    SizeOfEmpty();
    DataAfterHello(s.isReconnect, s.queue);
    var items, t := [Hello(s.isReconnect)] + DataItems(s.queue), Step(s, SecretReady(c));
    assert t.wires[c] == items;
    if s.socket == Some(c) {
      WrittenToLast(s.wires, items);
    } else {
      WrittenWithoutData(s.wires, c, items);
      assert Written(s.wires) + s.queue == Written(s.wires);
    }
    ConservedWhenDrained(s.sent, s.queue, s.evicted, s.wires, t.wires);
  }

  lemma SizeOfEmpty()
    ensures Size([]) == 0
  {
  }

  lemma OtherStepsKeepInv(s: State, e: Event)
    requires Inv(s) && !e.SecretReady? && !e.Send?
    ensures Inv(Step(s, e))
  {
    hide Written, DataIn, Size, Evict, Conserved;
    match e {
      case Start => if s.wires == [] { ConnectKeepsInv(s); }
      case TimerFires =>
        if s.timer {
          ConnectKeepsInv(s);
          assert Connect(s.(timer := false)) == Connect(s);
        }
      case SendBye(code) =>
        if s.connected {
          DataInSnoc([], Bye(code));
          DataInEmpty();
          assert [] + [Bye(code)] == [Bye(code)];
          WrittenWithoutData(s.wires, s.socket.value, [Bye(code)]);
          ConservedSameWritten(s.sent, s.queue, s.evicted, s.wires, WriteTo(s.wires, s.socket.value, [Bye(code)]));
        }
      case _ =>
    }
  }

  // ---------- the main results ----------

  /** No close comes between a connection and the end of its handshake, unless the client is connected again by then. */
  ghost predicate Undisturbed(es: seq<Event>) {
    forall k | 0 <= k < |es| && es[k].SecretReady? ::
      HandshakePending(Run(es[..k]), es[k].sock) && StillCurrent(Run(es[..k]), es[k].sock)
  }

  /**
   Over every undisturbed run: each frame given to `send` is written, evicted or queued, and
   in only one of these; what is written, over all connections together, is an in-order,
   duplicate-free subsequence of what was sent; every connection carries the hello first and
   once, with the resume request on every reconnect; the queue is within its cap or holds a
   single frame; and a started client that is not shutting down has a socket or a timer.
   */
  lemma {:induction false} SendConservation(es: seq<Event>)
    requires Undisturbed(es)
    ensures Inv(Run(es))
    ensures var s := Run(es); s.wires != [] && !s.shuttingDown ==> s.socket.Some? || s.timer
  {
    hide Inv, Step;
    if es == [] {
      InitialInv();
    } else {
      var n := |es| - 1;
      UndisturbedPrefix(es);
      SendConservation(es[..n]);
      StepKeepsInv(Run(es[..n]), es[n]);
    }
    SocketOrTimer(Run(es));
  }

  lemma InitialInv()
    ensures Inv(INITIAL)
  {
  }

  lemma UndisturbedPrefix(es: seq<Event>)
    requires Undisturbed(es) && es != []
    ensures var n := |es| - 1;
            && Undisturbed(es[..n])
            && (es[n].SecretReady? ==> HandshakePending(Run(es[..n]), es[n].sock) && StillCurrent(Run(es[..n]), es[n].sock))
  {
    hide Run;
    var before := es[..|es| - 1];
    assert forall k | 0 <= k < |before| :: before[..k] == es[..k] && before[k] == es[k];
  }

  lemma SocketOrTimer(s: State)
    requires Inv(s)
    ensures s.wires != [] && !s.shuttingDown ==> s.socket.Some? || s.timer
  {
  }

  lemma StepKeepsInv(s: State, e: Event)
    requires Inv(s)
    requires e.SecretReady? ==> HandshakePending(s, e.sock) && StillCurrent(s, e.sock)
    ensures Inv(Step(s, e))
  {
    hide Inv;
    match e {
      case SecretReady(c) => HandshakeKeepsInv(s, c);
      case Send(bytes) => SendKeepsInv(s, bytes);
      case _ => OtherStepsKeepInv(s, e);
    }
  }

  // ---------- the condition is exact ----------

  function RunFrom(s: State, es: seq<Event>): State {
    if es == [] then s else Step(RunFrom(s, es[..|es| - 1]), es[|es| - 1])
  }

  /** No connection carries anything before its hello. */
  ghost predicate HellosFirst(wires: seq<seq<Item>>) {
    forall c | 0 <= c < |wires| :: HelloFirst(wires[c])
  }

  /** From here on each handshake ends at most once, and on a current socket unless the client is shutting down. */
  ghost predicate Continues(s: State, es: seq<Event>) {
    forall k | 0 <= k < |es| && es[k].SecretReady? ::
      var u := RunFrom(s, es[..k]); HandshakePending(u, es[k].sock) && (StillCurrent(u, es[k].sock) || u.shuttingDown)
  }

  /** A client that is shutting down writes to no socket except at the end of a handshake. */
  ghost predicate Silenced(s: State) {
    s.shuttingDown && s.socket == None && !s.timer && s.wires != [] && HellosFirst(s.wires)
  }

  ghost predicate Orderly(s: State) {
    Inv(s) || Silenced(s)
  }

  lemma ShuttingDownIsSilenced(s: State)
    requires Inv(s) && s.shuttingDown && s.wires != []
    ensures Silenced(s)
  {
    hide Conserved, Size, HelloFirst;
  }

  lemma SilencedStays(s: State, e: Event)
    requires Silenced(s) && (e.SecretReady? ==> HandshakePending(s, e.sock))
    ensures Silenced(Step(s, e))
  {
    hide Evict, DataItems;
    if e.SecretReady? {
      DataAfterHello(s.isReconnect, s.queue);
      assert [] + ([Hello(s.isReconnect)] + DataItems(s.queue)) == [Hello(s.isReconnect)] + DataItems(s.queue);
      hide HelloFirst;
    }
  }

  lemma OrderlyStays(s: State, e: Event)
    requires Orderly(s)
    requires e.SecretReady? ==> HandshakePending(s, e.sock) && (StillCurrent(s, e.sock) || s.shuttingDown)
    ensures Orderly(Step(s, e))
  {
    hide Inv, Silenced, Step;
    if Silenced(s) {
      SilencedStays(s, e);
    } else if e.SecretReady? && !StillCurrent(s, e.sock) {
      ShuttingDownIsSilenced(s);
      SilencedStays(s, e);
    } else {
      StepKeepsInv(s, e);
    }
  }

  lemma OrderlyHellosFirst(s: State)
    requires Orderly(s)
    ensures HellosFirst(s.wires)
  {
    hide Conserved, Size, HelloFirst;
  }

  lemma {:induction false} OrderlyForever(s: State, es: seq<Event>)
    requires Orderly(s) && Continues(s, es)
    ensures Orderly(RunFrom(s, es))
  {
    if es != [] {
      var n := |es| - 1;
      assert Continues(s, es[..n]) by {
        hide RunFrom;
        assert forall k | 0 <= k < n :: es[..n][..k] == es[..k] && es[..n][k] == es[k];
      }
      hide Orderly, Step;
      OrderlyForever(s, es[..n]);
      OrderlyStays(RunFrom(s, es[..n]), es[n]);
    }
  }

  /** The shortest way to see the damage: send a frame, after the reconnect if one is due. */
  function Damage(s: State): seq<Event> {
    if s.socket.Some? then [Send([])] else [TimerFires, Send([])]
  }

  lemma StaleHandshakeOvertakes(s: State, c: nat)
    requires Inv(s) && HandshakePending(s, c) && !StillCurrent(s, c) && !s.shuttingDown
    ensures var t := Step(s, SecretReady(c));
            Continues(t, Damage(s)) && !HellosFirst(RunFrom(t, Damage(s)).wires)
  {
    var t := Step(s, SecretReady(c));
    var f := Data(Frame(|t.sent|, []));
    hide Conserved, Size, Evict, DataItems;
    if s.socket.Some? {
      var k := s.socket.value;
      assert t.connected && t.socket == Some(k) && t.wires[k] == [];
      RunFromOne(t, Send([]));
      assert Step(t, Send([])).wires[k] == [] + [f];
      assert !HelloFirst([f]);
    } else {
      var u, k := Step(t, TimerFires), |t.wires|;
      assert s.timer;
      assert u.connected && u.socket == Some(k) && u.wires[k] == [];
      RunFromTwo(t, TimerFires, Send([]));
      assert Step(u, Send([])).wires[k] == [] + [f];
      assert !HelloFirst([f]);
    }
  }

  lemma RunFromOne(s: State, e: Event)
    ensures RunFrom(s, [e]) == Step(s, e)
  {
    hide Step;
    assert [e][..0] == [];
  }

  lemma RunFromTwo(s: State, e: Event, f: Event)
    ensures RunFrom(s, [e, f]) == Step(Step(s, e), f)
  {
    hide Step;
    assert [e, f][..1] == [e];
    RunFromOne(s, e);
  }

  /**
   When a handshake may end, exactly. While its socket is current (or the client is connected
   again) everything SendConservation promises is kept. Otherwise, unless the client is
   shutting down, sending one frame (after the scheduled reconnect, if there is no socket) puts
   data in front of a hello. So every connection keeps its hello first in every continuation
   if and only if the socket was still current or the client is shutting down.
   */
  lemma HandshakeSafeExactly(s: State, c: nat)
    requires Inv(s) && HandshakePending(s, c)
    ensures var t := Step(s, SecretReady(c));
            && (StillCurrent(s, c) ==> Inv(t))
            && ((forall es | Continues(t, es) :: HellosFirst(RunFrom(t, es).wires)) <==> StillCurrent(s, c) || s.shuttingDown)
  {
    var t := Step(s, SecretReady(c));
    if StillCurrent(s, c) || s.shuttingDown {
      if StillCurrent(s, c) {
        HandshakeKeepsInv(s, c);
      } else {
        ShuttingDownIsSilenced(s);
        SilencedStays(s, SecretReady(c));
      }
      hide Inv, Step, RunFrom, Silenced, HellosFirst;
      forall es | Continues(t, es) ensures HellosFirst(RunFrom(t, es).wires) {
        OrderlyForever(t, es);
        OrderlyHellosFirst(RunFrom(t, es));
      }
    } else {
      hide Inv, Step, RunFrom, HellosFirst;
      StaleHandshakeOvertakes(s, c);
    }
  }

  lemma {:induction false} WrittenAppend(a: seq<seq<Item>>, b: seq<seq<Item>>)
    ensures Written(a + b) == Written(a) + Written(b)
    decreases |b|
  {
    if b == [] {
      assert a + b == a;
    } else {
      var n := |b| - 1;
      assert (a + b)[..|a + b| - 1] == a + b[..n];
      WrittenAppend(a, b[..n]);
    }
  }

  lemma WrittenAround(wires: seq<seq<Item>>, c: nat, items: seq<Item>)
    requires c < |wires|
    ensures Written(wires[c := items]) == Written(wires[..c]) + DataIn(items) + Written(wires[c + 1..])
  {
    var after := wires[c := items];
    assert after == (wires[..c] + [items]) + wires[c + 1..];
    WrittenAppend(wires[..c] + [items], wires[c + 1..]);
    assert (wires[..c] + [items])[..c] == wires[..c];
  }

  lemma OutOfOrder(a: seq<Frame>, q: seq<Frame>, b: seq<Frame>, sent: seq<Frame>, upTo: nat)
    requires q != [] && b != [] && upTo + |q| <= |sent| && Numbered(sent) && q == sent[upTo..upTo + |q|]
    requires Subsequence(a + b, sent, upTo)
    ensures !Increasing(a + q + b)
  {
    var all, i, j := a + q + b, |a|, |a| + |q|;
    assert all[i] == q[0] == sent[upTo] && all[j] == b[0];
    assert (a + b)[|a|] == b[0];
  }

  /** What a handshake's end adds to everything written, and where. */
  lemma HandshakeWrites(s: State, c: nat)
    requires HandshakePending(s, c)
    ensures var t, a, b := Step(s, SecretReady(c)), Written(s.wires[..c]), Written(s.wires[c + 1..]);
            Written(s.wires) == a + b && Written(t.wires) == a + s.queue + b
  {
    var items := [Hello(s.isReconnect)] + DataItems(s.queue);
    DataAfterHello(s.isReconnect, s.queue);
    DataInEmpty();
    assert [] + items == items;
    assert s.wires[c := []] == s.wires;
    hide DataItems, DataIn, Written;
    WrittenAround(s.wires, c, items);
    WrittenAround(s.wires, c, []);
    assert Written(s.wires[..c]) + [] == Written(s.wires[..c]);
  }

  lemma OrderExactly(sent: seq<Frame>, queue: seq<Frame>, evicted: seq<Frame>, wires: seq<seq<Item>>, after: seq<seq<Item>>,
                     a: seq<Frame>, b: seq<Frame>)
    requires Conserved(sent, queue, evicted, wires) && Written(wires) == a + b && Written(after) == a + queue + b
    ensures Conserved(sent, [], evicted, after) <==> queue == [] || b == []
  {
    hide Written;
    if queue == [] || b == [] {
      assert a + queue + b == (a + b) + queue;
      ConservedWhenDrained(sent, queue, evicted, wires, after);
    } else {
      OutOfOrder(a, queue, b, sent, |sent| - |queue|);
    }
  }

  /**
   A handshake that ends while the client is shutting down writes the queue to its socket; the
   order of frames across connections survives exactly when nothing was queued or no later
   connection had carried frames.
   */
  lemma ShutdownHandshake(s: State, c: nat)
    requires Inv(s) && HandshakePending(s, c) && s.shuttingDown
    ensures var t := Step(s, SecretReady(c));
            && HellosFirst(t.wires)
            && (Conserved(t.sent, t.queue, t.evicted, t.wires) <==> s.queue == [] || Written(s.wires[c + 1..]) == [])
  {
    ShuttingDownIsSilenced(s);
    SilencedStays(s, SecretReady(c));
    HandshakeWrites(s, c);
    hide Written, DataItems, HellosFirst, HelloFirst, Connected, Conserved;
    OrderExactly(s.sent, s.queue, s.evicted, s.wires, Step(s, SecretReady(c)).wires,
                 Written(s.wires[..c]), Written(s.wires[c + 1..]));
  }

  /** A run of the failing family: the socket closes while the secret is being read, and a later frame overtakes the hello. */
  lemma FrameOvertakesHello(x: seq<byte>)
    ensures var es := [Start, Close(0), TimerFires, SecretReady(0), Send(x), SecretReady(1)];
            && !Undisturbed(es)
            && Run(es).wires == [[Hello(true)], [Data(Frame(0, x)), Hello(true)]]
  {
    hide Run, Step;
    var es := [Start, Close(0), TimerFires, SecretReady(0), Send(x), SecretReady(1)];
    var s3 := State(Some(1), false, false, true, false, [], [], [], [[], []], {0});
    StepsToReplacedSocket(s3);
    assert es[..3] == [Start, Close(0), TimerFires];
    assert es[3] == SecretReady(0) && !StillCurrent(s3, 0);
    RunSnoc(es[..3], SecretReady(0));
    assert es[..3] + [SecretReady(0)] == es[..4];
    RunSnoc(es[..4], Send(x));
    assert es[..4] + [Send(x)] == es[..5];
    RunSnoc(es[..5], SecretReady(1));
    assert es[..5] + [SecretReady(1)] == es;
    StepsAfterReplacedSocket(s3, x);
  }

  lemma StepsToReplacedSocket(s3: State)
    requires s3 == State(Some(1), false, false, true, false, [], [], [], [[], []], {0})
    ensures Run([Start, Close(0), TimerFires]) == s3
  {
    RunSnoc([Start, Close(0)], TimerFires);
    RunSnoc([Start], Close(0));
    RunSnoc([], Start);
    assert [Start, Close(0)] + [TimerFires] == [Start, Close(0), TimerFires];
    assert [Start] + [Close(0)] == [Start, Close(0)] && [] + [Start] == [Start];
  }

  lemma StepsAfterReplacedSocket(s3: State, x: seq<byte>)
    requires s3 == State(Some(1), false, false, true, false, [], [], [], [[], []], {0})
    ensures var s4 := Step(s3, SecretReady(0));
            var s5 := Step(s4, Send(x));
            Step(s5, SecretReady(1)).wires == [[Hello(true)], [Data(Frame(0, x)), Hello(true)]]
  {
    DataInDataItems([]);
    assert DataItems([]) == [];
    assert [] + ([Hello(true)] + DataItems([])) == [Hello(true)];
    var s4 := Step(s3, SecretReady(0));
    assert s4.wires == [[Hello(true)], []];
    assert [] + [Data(Frame(0, x))] == [Data(Frame(0, x))];
    var s5 := Step(s4, Send(x));
    assert s5.wires == [[Hello(true)], [Data(Frame(0, x))]];
    assert [Data(Frame(0, x))] + ([Hello(true)] + DataItems(s5.queue)) == [Data(Frame(0, x)), Hello(true)];
  }

  lemma RunSnoc(es: seq<Event>, e: Event)
    ensures Run(es + [e]) == Step(Run(es), e)
  {
    hide Step;
    assert (es + [e])[..|es|] == es;
  }

  // ---------- the class ----------

  const RECONNECT_INITIAL_MS: nat := 300
  const RECONNECT_MAX_MS: nat := 5000

  function Doubled(attempt: nat): nat {
    if attempt == 0 then RECONNECT_INITIAL_MS else 2 * Doubled(attempt - 1)
  }

  /** 300, 600, 1200, ... capped at 5000. */
  function ReconnectDelay(attempt: nat): nat {
    if Doubled(attempt) < RECONNECT_MAX_MS then Doubled(attempt) else RECONNECT_MAX_MS
  }

  lemma {:induction false} ReconnectDelayGrows(attempt: nat, later: nat)
    requires attempt <= later
    ensures 300 <= ReconnectDelay(attempt) <= ReconnectDelay(later) <= 5000
    ensures attempt == 0 ==> ReconnectDelay(attempt) == 300
    ensures 0 < attempt < 5 ==> ReconnectDelay(attempt) == 2 * ReconnectDelay(attempt - 1)
    ensures attempt >= 5 ==> ReconnectDelay(attempt) == 5000
    decreases later
  {
    if attempt < later {
      ReconnectDelayGrows(attempt, later - 1);
    } else if attempt > 0 {
      ReconnectDelayGrows(attempt - 1, later - 1);
      assert attempt == 5 ==> Doubled(5) == 2 * (2 * (2 * (2 * (2 * Doubled(0)))));
    }
  }

  class PipeClient {
    var socket: Option<nat>
    var connected: bool
    var shuttingDown: bool
    var isReconnect: bool
    var reconnectTimer: bool
    var reconnectAttempts: nat
    var lastUserInputSentAt: int
    var preConnectQueue: seq<Frame>
    var preConnectBytes: nat
    /** What each socket has been given to write. */
    var wires: seq<seq<Item>>
    var closed: set<nat>
    var sends: nat
    ghost var sent: seq<Frame>
    ghost var evicted: seq<Frame>

    ghost predicate Valid()
      reads this
    {
      && preConnectBytes == Size(preConnectQueue)
      && sends == |sent|
      && (socket.Some? ==> socket.value < |wires|)
    }

    ghost function View(): State
      reads this
    {
      State(socket, connected, shuttingDown, isReconnect, reconnectTimer, preConnectQueue, sent, evicted, wires, closed)
    }

    constructor ()
      ensures Valid() && View() == INITIAL
    {
      socket, connected, shuttingDown, isReconnect, reconnectTimer := None, false, false, false, false;
      reconnectAttempts, lastUserInputSentAt := 0, 0;
      preConnectQueue, preConnectBytes, wires, closed, sends := [], 0, [], {}, 0;
      sent, evicted := [], [];
    }

    /** start(), which cb calls once. */
    method Start()
      requires Valid() && wires == []
      modifies this
      ensures Valid() && View() == Step(old(View()), Event.Start)
    {
      ConnectNow();
    }

    method TimerFires()
      requires Valid() && reconnectTimer
      modifies this
      ensures Valid() && View() == Step(old(View()), Event.TimerFires)
    {
      reconnectTimer := false;
      ConnectNow();
    }

    method ConnectNow()
      requires Valid()
      modifies this
      ensures Valid() && View() == Connect(old(View()))
      ensures preConnectQueue == old(preConnectQueue) && reconnectAttempts == old(reconnectAttempts)
    {
      if shuttingDown {
        return;
      }
      reconnectTimer := false;
      socket := Some(|wires|);
      wires := wires + [[]];
    }

    method Send(bytes: seq<byte>)
      requires Valid()
      modifies this
      ensures Valid() && View() == AfterSend(old(View()), bytes)
      ensures lastUserInputSentAt == old(lastUserInputSentAt)
    {
      hide Evict, Size;
      var buf := Frame(sends, bytes);
      sends := sends + 1;
      sent := sent + [buf];
      if !connected || socket == None {
        EnqueuePreConnect(buf);
        return;
      }
      wires := WriteTo(wires, socket.value, [Data(buf)]);
    }

    method EnqueuePreConnect(buf: Frame)
      requires preConnectBytes == Size(preConnectQueue)
      modifies this`preConnectQueue, this`preConnectBytes, this`evicted
      ensures preConnectBytes == Size(preConnectQueue)
      ensures var long := old(preConnectQueue) + [buf];
              && preConnectQueue == Evict(long)
              && evicted == old(evicted) + long[..|long| - |preConnectQueue|]
    {
      hide Size, Evict;
      SizeSnoc(preConnectQueue, buf);
      ghost var long := preConnectQueue + [buf];
      preConnectQueue := preConnectQueue + [buf];
      preConnectBytes := preConnectBytes + |buf.bytes|;
      EvictOldest();
      evicted := evicted + long[..|long| - |preConnectQueue|];
    }

    /** The overflow loop of enqueuePreConnect. */
    method EvictOldest()
      requires preConnectBytes == Size(preConnectQueue) && preConnectQueue != []
      modifies this`preConnectQueue, this`preConnectBytes
      ensures preConnectQueue == Evict(old(preConnectQueue)) && preConnectBytes == Size(preConnectQueue)
    {
      hide Size, Evict;
      while preConnectBytes > PRE_CONNECT_QUEUE_MAX_BYTES && |preConnectQueue| > 1
        invariant preConnectQueue != [] && preConnectBytes == Size(preConnectQueue)
        invariant Evict(preConnectQueue) == Evict(old(preConnectQueue))
        decreases |preConnectQueue|
      {
        EvictStep(preConnectQueue);
        var dropped := preConnectQueue[0];
        preConnectQueue := preConnectQueue[1..];
        preConnectBytes := preConnectBytes - |dropped.bytes|;
      }
      EvictStep(preConnectQueue);
    }

    /** At most one user_input frame per 200 ms. */
    method NotifyUserInput(now: int, frame: seq<byte>)
      requires Valid()
      modifies this
      ensures Valid()
      ensures Inject.Notified([now], old(lastUserInputSentAt)) == [] ==>
                View() == old(View()) && lastUserInputSentAt == old(lastUserInputSentAt)
      ensures Inject.Notified([now], old(lastUserInputSentAt)) != [] ==>
                View() == AfterSend(old(View()), frame) && lastUserInputSentAt == now
    {
      hide Evict, Size, AfterSend;
      assert Inject.Notified([now], lastUserInputSentAt) == []
             <==> now - lastUserInputSentAt < Inject.USER_INPUT_THROTTLE_MS;
      if now - lastUserInputSentAt < Inject.USER_INPUT_THROTTLE_MS {
        return;
      }
      lastUserInputSentAt := now;
      Send(frame);
    }

    /** handleOnConnect after its await: hello, then the queue in order, then live. */
    method OnSecret(sock: nat)
      requires Valid() && sock < |wires|
      modifies this
      ensures Valid() && View() == Step(old(View()), SecretReady(sock))
      ensures reconnectAttempts == 0
    {
      hide DataItems, WriteTo;
      WriteTwice(wires, sock, [Hello(isReconnect)], DataItems(preConnectQueue));
      assert Size([]) == 0;
      wires := WriteTo(wires, sock, [Hello(isReconnect)]);
      var queued := preConnectQueue;
      preConnectQueue := [];
      preConnectBytes := 0;
      Drain(sock, queued);
      connected := true;
      reconnectAttempts := 0;
    }

    method Drain(sock: nat, queued: seq<Frame>)
      modifies this`wires
      ensures wires == WriteTo(old(wires), sock, DataItems(queued)) && |wires| == |old(wires)|
    {
      hide DataItems, WriteTo;
      DrainNothing(wires, sock);
      assert queued[..0] == [];
      var i := 0;
      while i < |queued|
        invariant i <= |queued|
        invariant wires == WriteTo(old(wires), sock, DataItems(queued[..i])) && |wires| == |old(wires)|
      {
        DataItemsSnoc(queued[..i], queued[i]);
        assert queued[..i + 1] == queued[..i] + [queued[i]];
        WriteTwice(old(wires), sock, DataItems(queued[..i]), [Data(queued[i])]);
        WriteTwice(wires, sock, [Data(queued[i])], []);
        wires := WriteTo(wires, sock, [Data(queued[i])]);
        i := i + 1;
      }
      assert queued[..|queued|] == queued;
    }

    /** The await in handleOnConnect ended without a secret: cb shuts the client down. */
    method OnSecretMissing(sock: nat)
      requires Valid() && sock < |wires|
      modifies this
      ensures Valid() && View() == Step(old(View()), SecretMissing(sock))
    {
      ShutDown();
    }

    method OnClose(sock: nat)
      requires Valid() && sock < |wires| && sock !in closed
      modifies this
      ensures Valid() && View() == Step(old(View()), Close(sock))
      ensures !shuttingDown && !old(reconnectTimer) ==> reconnectAttempts == old(reconnectAttempts) + 1
    {
      closed := closed + {sock};
      connected := false;
      socket := None;
      if shuttingDown {
        return;
      }
      isReconnect := true;
      var _ := ScheduleReconnect();
    }

    /** The delay of the timer it sets; None if one is already set or the client is shutting down. */
    method ScheduleReconnect() returns (delay: Option<nat>)
      modifies this`reconnectTimer, this`reconnectAttempts
      ensures reconnectTimer == (old(reconnectTimer) || !shuttingDown)
      ensures delay == if shuttingDown || old(reconnectTimer) then None else Some(ReconnectDelay(old(reconnectAttempts)))
      ensures reconnectAttempts == old(reconnectAttempts) + if delay == None then 0 else 1
    {
      if shuttingDown {
        return None;
      }
      if reconnectTimer {
        return None;
      }
      delay := Some(ReconnectDelay(reconnectAttempts));
      reconnectAttempts := reconnectAttempts + 1;
      reconnectTimer := true;
    }

    method SendByeBestEffort(exitCode: int)
      requires Valid()
      modifies this
      ensures Valid() && View() == Step(old(View()), SendBye(exitCode))
    {
      if !connected || socket == None {
        return;
      }
      wires := WriteTo(wires, socket.value, [Bye(exitCode)]);
    }

    method ShutDown()
      requires Valid()
      modifies this
      ensures Valid() && View() == Step(old(View()), Shutdown)
    {
      shuttingDown := true;
      reconnectTimer := false;
      socket := None;
      connected := false;
    }
  }

  lemma WriteTwice(wires: seq<seq<Item>>, c: nat, xs: seq<Item>, ys: seq<Item>)
    ensures WriteTo(WriteTo(wires, c, xs), c, ys) == WriteTo(wires, c, xs + ys)
    ensures |WriteTo(wires, c, xs)| == |wires|
  {
    if c < |wires| {
      assert (wires[c] + xs) + ys == wires[c] + (xs + ys);
    }
  }

  lemma DrainNothing(wires: seq<seq<Item>>, c: nat)
    ensures WriteTo(wires, c, DataItems([])) == wires
  {
    if c < |wires| {
      assert wires[c] + [] == wires[c];
    }
  }

  lemma {:induction false} DataItemsSnoc(q: seq<Frame>, f: Frame)
    ensures DataItems(q + [f]) == DataItems(q) + [Data(f)]
  {
    if q != [] {
      assert (q + [f])[1..] == q[1..] + [f];
      DataItemsSnoc(q[1..], f);
    }
  }

  // ---------- the end ----------

  /** A bye goes out with the exit code it is given, last on the current socket, exactly while connected. */
  lemma ByeCarriesCode(s: State, code: int)
    requires Inv(s)
    ensures var t := Step(s, SendBye(code));
            if s.connected then
              && s.socket.Some? && s.socket.value < |s.wires|
              && t == s.(wires := s.wires[s.socket.value := s.wires[s.socket.value] + [Bye(code)]])
            else t == s
  {
    hide Conserved, HelloFirst, Size;
  }

  /** No connection and no way to get one. */
  ghost predicate Ended(s: State) {
    s.shuttingDown && !s.timer && s.socket == None
  }

  /** Shutting down ends the client, and so does a secret that cannot be read; what was sent, queued or written stays. */
  lemma ShutdownEnds(s: State, c: nat)
    ensures var t := Step(s, Shutdown);
            && Ended(t) && !t.connected
            && t.wires == s.wires && t.queue == s.queue && t.sent == s.sent && t.evicted == s.evicted
    ensures c < |s.wires| ==> Step(s, SecretMissing(c)) == Step(s, Shutdown)
  {
  }

  lemma EndedStays(s: State, e: Event)
    requires Ended(s) && (e.SecretReady? ==> HandshakePending(s, e.sock))
    ensures var t := Step(s, e);
            && Ended(t) && |t.wires| == |s.wires|
            && forall c | 0 <= c < |s.wires| && s.wires[c] != [] :: t.wires[c] == s.wires[c]
  {
    hide Evict, DataItems;
  }

  /** Each handshake ends at most once. */
  ghost predicate EndOnce(s: State, es: seq<Event>) {
    forall k | 0 <= k < |es| && es[k].SecretReady? :: HandshakePending(RunFrom(s, es[..k]), es[k].sock)
  }

  /** For good: no connection is ever opened again and none that has carried anything gets more, whatever follows. */
  lemma {:induction false} EndedForGood(s: State, es: seq<Event>)
    requires Ended(s) && EndOnce(s, es)
    ensures var t := RunFrom(s, es);
            && Ended(t) && |t.wires| == |s.wires|
            && forall c | 0 <= c < |s.wires| && s.wires[c] != [] :: t.wires[c] == s.wires[c]
  {
    if es != [] {
      hide Step, Ended;
      var n := |es| - 1;
      assert EndOnce(s, es[..n]) by {
        hide RunFrom;
        assert forall k | 0 <= k < n :: es[..n][..k] == es[..k] && es[..n][k] == es[k];
      }
      EndedForGood(s, es[..n]);
      EndedStays(RunFrom(s, es[..n]), es[n]);
    }
  }
}
