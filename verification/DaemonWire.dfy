/** From the bytes of a connection to the daemon's events: packages/bridged/src/pipe-server.ts, the data handler. */
module DaemonWire {
  import opened Wrappers
  import opened Constants
  import opened Flatten
  import opened Daemon
  import opened DaemonInvariants
  import opened DaemonConns
  import opened DaemonOutput
  import Base64
  import F = Framing
  import RB = RingBuffer

  /** A chunk of bytes and the time at which its handler runs. */
  datatype Arrival = Arrival(bytes: seq<byte>, now: int)

  /** What a connection's decoder has kept: unconsumed bytes and the number of frames so far. */
  datatype Decoding = Decoding(buffered: seq<byte>, emitted: nat)

  const FRESH := Decoding([], 0)

  type Parser = seq<byte> -> Option<Frame>

  function Chunks(arrivals: seq<Arrival>): seq<seq<byte>> {
    seq(|arrivals|, i requires 0 <= i < |arrivals| => arrivals[i].bytes)
  }

  function FrameEvents(c: nat, fs: seq<Frame>, now: int): seq<Event> {
    seq(|fs|, i requires 0 <= i < |fs| => Received(c, fs[i], now))
  }

  /** The events that the arrivals of one connection cause; a decode error is the last. */
  function Events(parse: Parser, c: nat, d: Decoding, arrivals: seq<Arrival>): seq<Event>
    decreases |arrivals|
  {
    if arrivals == [] then []
    else
      match F.Parse(parse, F.DEFAULT_CAPS, d.buffered + arrivals[0].bytes, d.emitted)
      case Failed(e) => [DecodeError(c)]
      case Parsed(fs, rest) =>
        FrameEvents(c, fs, arrivals[0].now) + Events(parse, c, Decoding(rest, d.emitted + |fs|), arrivals[1..])
  }

  lemma OneArrival(parse: Parser, c: nat, d: Decoding, a: Arrival)
    ensures var p := F.Parse(parse, F.DEFAULT_CAPS, d.buffered + a.bytes, d.emitted);
            Events(parse, c, d, [a]) == if p.Parsed? then FrameEvents(c, p.frames, a.now) else [DecodeError(c)]
  {
    hide F.Parse;
    var p := F.Parse(parse, F.DEFAULT_CAPS, d.buffered + a.bytes, d.emitted);
    if p.Parsed? {
      assert [a][1..] == [];
      assert Events(parse, c, Decoding(p.rest, d.emitted + |p.frames|), []) == [];
    }
  }

  lemma OneMoreFrame(st: State, c: nat, fs: seq<Frame>, i: nat, now: int)
    requires i < |fs|
    ensures Run(st, FrameEvents(c, fs[..i + 1], now)) == Step(Run(st, FrameEvents(c, fs[..i], now)), Received(c, fs[i], now))
  {
    hide Step;
    var es := FrameEvents(c, fs[..i + 1], now);
    assert es[..i] == FrameEvents(c, fs[..i], now) && es[i] == Received(c, fs[i], now);
  }

  /** Each event is the reception of one of the frames, in order. */
  ghost predicate Deliver(es: seq<Event>, c: nat, fs: seq<Frame>) {
    |es| == |fs| && forall i | 0 <= i < |fs| :: es[i].Received? && es[i].conn == c && es[i].frame == fs[i]
  }

  lemma DeliverAppend(a: seq<Event>, b: seq<Event>, c: nat, fs: seq<Frame>, gs: seq<Frame>)
    requires Deliver(a, c, fs) && Deliver(b, c, gs)
    ensures Deliver(a + b, c, fs + gs)
  {
  }

  /** The frames that reach the daemon are those that the connection's bytes mean, whatever the chunks. */
  lemma {:induction false} EventsDeliver(parse: Parser, c: nat, d: Decoding, arrivals: seq<Arrival>)
    ensures var p := F.Feed(parse, F.DEFAULT_CAPS, Chunks(arrivals), d.buffered, d.emitted);
            p.Parsed? ==> Deliver(Events(parse, c, d, arrivals), c, p.frames)
    decreases |arrivals|
  {
    hide F.Parse;
    if arrivals != [] {
      var chunks, first := Chunks(arrivals), arrivals[0];
      assert chunks[1..] == Chunks(arrivals[1..]);
      var p := F.Parse(parse, F.DEFAULT_CAPS, d.buffered + first.bytes, d.emitted);
      if p.Parsed? {
        var e := Decoding(p.rest, d.emitted + |p.frames|);
        EventsDeliver(parse, c, e, arrivals[1..]);
        var q := F.Feed(parse, F.DEFAULT_CAPS, chunks[1..], e.buffered, e.emitted);
        if q.Parsed? {
          DeliverAppend(FrameEvents(c, p.frames, first.now), Events(parse, c, e, arrivals[1..]), c, p.frames, q.frames);
        }
      }
    }
  }

  lemma NothingYet(parse: Parser)
    ensures F.FrontOf(parse, MAX_FIRST_FRAME_BYTES, true, []) == F.Incomplete
  {
  }

  /** A stream that is bad from its first frame on causes one event, whatever the chunks. */
  lemma {:induction false} NothingBeforeTheError(parse: Parser, c: nat, d: Decoding, arrivals: seq<Arrival>)
    requires d.emitted == 0 && F.FrontOf(parse, MAX_FIRST_FRAME_BYTES, true, d.buffered) == F.Incomplete
    requires F.FrontOf(parse, MAX_FIRST_FRAME_BYTES, true, d.buffered + Flat(Chunks(arrivals))).Bad?
    ensures Events(parse, c, d, arrivals) == [DecodeError(c)]
    decreases |arrivals|
  {
    hide F.FrontOf, F.Parse;
    assert arrivals == [] ==> d.buffered + Flat(Chunks(arrivals)) == d.buffered;
    if arrivals != [] {
      var chunks, first := Chunks(arrivals), arrivals[0];
      assert chunks[1..] == Chunks(arrivals[1..]);
      var now := d.buffered + first.bytes;
      assert d.buffered + Flat(chunks) == now + Flat(chunks[1..]);
      F.FrontExtends(parse, MAX_FIRST_FRAME_BYTES, true, now, Flat(chunks[1..]));
      F.ParseFront(parse, F.DEFAULT_CAPS, now, 0);
      if F.FrontOf(parse, MAX_FIRST_FRAME_BYTES, true, now) == F.Incomplete {
        NothingBeforeTheError(parse, c, Decoding(now, 0), arrivals[1..]);
        assert FrameEvents(c, [], first.now) == [];
      }
    }
  }

  /**
   Messages on the wire become events: for every cut of the encodings of some messages into
   chunks, the daemon handles exactly these messages, once each and in order, if and only if
   the first one fits the pre-handshake cap; otherwise the connection is dropped with nothing handled.
   */
  lemma WireDelivers(serialise: Frame -> seq<byte>, parse: Parser, c: nat, ms: seq<Frame>, arrivals: seq<Arrival>)
    requires F.Encodable(serialise, ms) && F.ParseInverts(serialise, parse, ms)
    requires Flat(Chunks(arrivals)) == F.Wire(serialise, ms)
    ensures ms == [] || |serialise(ms[0])| <= MAX_FIRST_FRAME_BYTES ==> Deliver(Events(parse, c, FRESH, arrivals), c, ms)
    ensures ms != [] && |serialise(ms[0])| > MAX_FIRST_FRAME_BYTES ==> Events(parse, c, FRESH, arrivals) == [DecodeError(c)]
  {
    F.RoundTrip(serialise, parse, ms, Chunks(arrivals));
    EventsDeliver(parse, c, FRESH, arrivals);
    if ms != [] && |serialise(ms[0])| > MAX_FIRST_FRAME_BYTES {
      F.FrontOfEncoded(serialise, parse, MAX_FIRST_FRAME_BYTES, true, ms[0], F.Wire(serialise, ms[1..]));
      assert FRESH.buffered + Flat(Chunks(arrivals)) == Flat(Chunks(arrivals));
      hide F.FrontOf, F.Header, F.ReadHeader, F.EncodeFrame, F.Feed, Flat;
      NothingYet(parse);
      NothingBeforeTheError(parse, c, FRESH, arrivals);
    }
  }

  // ---------- from the terminal to the buffer ----------

  /** An event that the bytes of connection `c` cause. */
  predicate FromBytes(e: Event, c: nat) {
    (e.Received? || e.DecodeError?) && e.conn == c
  }

  /** The events of a run that the bytes of connection `c` cause, in order. */
  function DataOf(es: seq<Event>, c: nat): seq<Event> {
    if es == [] then []
    else DataOf(es[..|es| - 1], c) + (if FromBytes(es[|es| - 1], c) then [es[|es| - 1]] else [])
  }

  ghost predicate HasClose(es: seq<Event>, c: nat) {
    exists i :: 0 <= i < |es| && es[i].Close? && es[i].conn == c
  }

  /** A socket's close event comes after all of its data. */
  ghost predicate ClosesLast(es: seq<Event>, c: nat) {
    forall i | 0 <= i < |es| && FromBytes(es[i], c) :: !HasClose(es[..i], c)
  }

  /** What the frames of some events carry, with the times of their handling. */
  function PrintedBy(es: seq<Event>): seq<RB.Chunk>
    requires forall i | 0 <= i < |es| :: es[i].Received?
  {
    if es == [] then [] else PrintedBy(es[..|es| - 1]) + Printed(es[|es| - 1].frame, es[|es| - 1].now)
  }

  /** The part of a session's output that arrives on connection `c`. */
  function OutputVia(st: State, es: seq<Event>, c: nat, h: nat): seq<RB.Chunk>
    decreases |es|
  {
    if es == [] then []
    else
      var n := |es| - 1;
      OutputVia(st, es[..n], c, h) + (if FromBytes(es[n], c) then Delivered(Run(st, es[..n]), es[n], h) else [])
  }

  /** The connection's data begins with a hello that the daemon accepts, and decodes without error. */
  ghost predicate Speaks(data: seq<Event>) {
    && (forall i | 0 <= i < |data| :: data[i].Received?)
    && (data != [] ==> data[0].frame.Hello? && Accepted(data[0].frame.hello))
  }

  lemma DataSnoc(es: seq<Event>, c: nat)
    requires es != []
    ensures var front, e := es[..|es| - 1], es[|es| - 1];
            && DataOf(es, c) == DataOf(front, c) + (if FromBytes(e, c) then [e] else [])
            && (HasClose(es, c) <==> HasClose(front, c) || (e.Close? && e.conn == c))
            && (ClosesLast(es, c) ==> ClosesLast(front, c) && (FromBytes(e, c) ==> !HasClose(front, c)))
  {
    var front, e := es[..|es| - 1], es[|es| - 1];
    assert forall i | 0 <= i < |front| :: front[i] == es[i] && front[..i] == es[..i];
  }

  lemma SpeaksPrefix(data: seq<Event>, more: seq<Event>)
    requires Speaks(data + more)
    ensures Speaks(data)
    ensures data == [] && more != [] ==> more[0].Received? && more[0].frame.Hello? && Accepted(more[0].frame.hello)
    ensures |more| == 1 ==> more[0].Received? && PrintedBy(data + more) == PrintedBy(data) + Printed(more[0].frame, more[0].now)
  {
    var all := data + more;
    assert forall i | 0 <= i < |data| :: all[i] == data[i];
    if |more| == 1 {
      assert all[..|all| - 1] == data && all[|all| - 1] == more[0];
    }
  }

  /** How far connection `c` has come after some of its data, and what session `h` has got from it. */
  ghost predicate Progress(st: State, es: seq<Event>, c: nat, h: nat) {
    var t, data := Run(st, es), DataOf(es, c);
    && Speaks(data) && c < |t.conns| && (t.conns[c].closed ==> HasClose(es, c))
    && (if data == [] then t.conns[c].role == Unknown && t.conns[c].session == None
        else
          && t.conns[c].role == Cb && t.conns[c].session == Some(h)
          && OutputVia(st, es, c, h) == PrintedBy(data)
          && (NeverResumed(st, es, h) ==> h >= |st.heap|))
  }

  lemma {:induction false} NoDataNoOutput(st: State, es: seq<Event>, c: nat, h: nat)
    requires DataOf(es, c) == []
    ensures OutputVia(st, es, c, h) == []
  {
    if es != [] {
      hide Run, Delivered;
      NoDataNoOutput(st, es[..|es| - 1], c, h);
    }
  }

  /** Events that are not data of the connection leave it where it is. */
  lemma OtherEventProgress(st: State, es: seq<Event>, c: nat, h: nat)
    requires es != [] && !FromBytes(es[|es| - 1], c) && Progress(st, es[..|es| - 1], c, h)
    ensures Progress(st, es, c, h)
  {
    var front, e := es[..|es| - 1], es[|es| - 1];
    DataSnoc(es, c);
    assert DataOf(front, c) + [] == DataOf(front, c);
    assert OutputVia(st, front, c, h) + [] == OutputVia(st, front, c, h);
    StepKeepsConn(Run(st, front), e, c);
    if NeverResumed(st, es, h) {
      NeverResumedPrefix(st, es, h);
    }
    hide Step, HasClose, NeverResumed, ResumesTo, PrintedBy, Speaks;
  }

  /** Where the connection stands when its first frame comes. */
  lemma BeforeHello(st: State, es: seq<Event>, c: nat, g: nat)
    requires es != [] && FromBytes(es[|es| - 1], c) && Progress(st, es[..|es| - 1], c, g)
    requires DataOf(es[..|es| - 1], c) == [] && Speaks(DataOf(es, c)) && ClosesLast(es, c)
    ensures var t, e := Run(st, es[..|es| - 1]), es[|es| - 1];
            && DataOf(es, c) == [e] && e.Received? && e.conn == c && e.frame.Hello? && Accepted(e.frame.hello)
            && Reaches(t, c) && t.conns[c].role == Unknown
  {
    var e := es[|es| - 1];
    DataSnoc(es, c);
    assert [] + [e] == [e] == DataOf(es, c);
    hide Run, HasClose, Accepted;
  }

  /** The first frame of the connection is its hello. */
  lemma HelloProgress(st: State, es: seq<Event>, c: nat, g: nat) returns (h: nat)
    requires Inv(st) && es != [] && FromBytes(es[|es| - 1], c) && Progress(st, es[..|es| - 1], c, g)
    requires DataOf(es[..|es| - 1], c) == [] && Speaks(DataOf(es, c)) && ClosesLast(es, c)
    ensures Progress(st, es, c, h)
  {
    BeforeHello(st, es, c, g);
    hide Inv, Step, HasClose, NeverResumed, Accepted, Prior, Resumes, Delivered, Printed, ClosesLast, Speaks, FromBytes, DataOf, PrintedBy;
    var front, e := es[..|es| - 1], es[|es| - 1];
    var t := Run(st, front);
    h := HelloBindsTo(t, e, c);
    HelloPrints(e, h, t);
    NoDataNoOutput(st, front, c, h);
    HeapGrows(st, front);
    if NeverResumed(st, es, h) {
      NeverResumedPrefix(st, es, h);
    }
  }

  lemma HelloBindsTo(t: State, e: Event, c: nat) returns (h: nat)
    requires e.Received? && e.conn == c && e.frame.Hello? && Accepted(e.frame.hello) && Reaches(t, c) && t.conns[c].role == Unknown
    ensures var u := Step(t, e); c < |u.conns| && u.conns[c].role == Cb && !u.conns[c].closed && u.conns[c].session == Some(h)
    ensures h == |t.heap| || ResumesTo(t, e, h)
  {
    var m := e.frame.hello;
    HelloBinds(t, c, m, e.now);
    h := if Resumes(t, m) then Prior(t, m).value else |t.heap|;
    hide Step, Accepted, Prior;
  }

  lemma HelloPrints(e: Event, h: nat, t: State)
    requires e.Received? && e.frame.Hello?
    ensures PrintedBy([e]) == [] && Delivered(t, e, h) == []
  {
    assert [e][..0] == [];
    assert PrintedBy([]) == [];
  }

  /** Later frames of an attached connection. */
  lemma FrameProgress(st: State, es: seq<Event>, c: nat, h: nat)
    requires es != [] && FromBytes(es[|es| - 1], c) && Progress(st, es[..|es| - 1], c, h)
    requires DataOf(es[..|es| - 1], c) != [] && Speaks(DataOf(es, c)) && ClosesLast(es, c)
    ensures Progress(st, es, c, h)
  {
    var front, e := es[..|es| - 1], es[|es| - 1];
    var t := Run(st, front);
    DataSnoc(es, c);
    SpeaksPrefix(DataOf(front, c), [e]);
    assert t.conns[c].role == Cb && !t.conns[c].closed;
    assert Delivered(t, e, h) == Printed(e.frame, e.now);
    StepKeepsConn(t, e, c);
    if NeverResumed(st, es, h) {
      NeverResumedPrefix(st, es, h);
    }
    hide Step, HasClose, NeverResumed, ResumesTo, PrintedBy, Printed, Speaks;
  }

  /** From a connection without a role on, whatever else happens in the run. */
  lemma {:induction false} Follows(st: State, es: seq<Event>, c: nat) returns (h: nat)
    requires Inv(st) && Reaches(st, c) && st.conns[c].role == Unknown && Speaks(DataOf(es, c)) && ClosesLast(es, c)
    ensures Progress(st, es, c, h)
    decreases |es|
  {
    if es == [] {
      h := 0;
      assert ConnFacts(st.conns[c], c, st.heap);
      hide Inv, PrintedBy;
    } else {
      hide Inv, Progress, Step;
      var front, e := es[..|es| - 1], es[|es| - 1];
      DataSnoc(es, c);
      SpeaksPrefix(DataOf(front, c), if FromBytes(e, c) then [e] else []);
      hide Speaks, ClosesLast, HasClose;
      h := Follows(st, front, c);
      if !FromBytes(e, c) {
        OtherEventProgress(st, es, c, h);
      } else if DataOf(front, c) == [] {
        h := HelloProgress(st, es, c, h);
      } else {
        FrameProgress(st, es, c, h);
      }
    }
  }

  /** If the session was created in the run and never resumed, all of its output comes on its one connection. */
  lemma {:induction false} OnlyVia(st: State, es: seq<Event>, c: nat, h: nat)
    requires Inv(st) && h >= |st.heap| && NeverResumed(st, es, h)
    requires BoundTo(Run(st, es).conns, c, h)
    ensures OutputTo(st, es, h) == OutputVia(st, es, c, h)
    decreases |es|
  {
    if es != [] {
      var front, e := es[..|es| - 1], es[|es| - 1];
      var t := Run(st, front);
      NeverResumedPrefix(st, es, h);
      RunInv(st, front);
      StepStores(t, e, h);
      hide Inv, Step, ResumesTo, NeverResumed;
      if h < |t.heap| {
        BoundBefore(t, e, c, h);
        OnlyVia(st, front, c, h);
        OthersDeliverNothing(st, front, e, c, h);
      } else {
        NotYetBorn(st, front, c, h);
      }
    }
  }

  lemma OthersDeliverNothing(st: State, front: seq<Event>, e: Event, c: nat, h: nat)
    requires Inv(st) && h >= |st.heap| && NeverResumed(st, front, h) && BoundTo(Run(st, front).conns, c, h)
    ensures FromBytes(e, c) || Delivered(Run(st, front), e, h) == []
  {
    if Delivered(Run(st, front), e, h) != [] {
      hide Inv, Run, NeverResumed, Printed;
      assert BoundTo(Run(st, front).conns, e.conn, h);
      SoleBinding(st, front, h, c, e.conn);
    }
  }

  /** A session that does not exist yet gets nothing. */
  lemma {:induction false} NotYetBorn(st: State, es: seq<Event>, c: nat, h: nat)
    requires Inv(st) && h >= |Run(st, es).heap|
    ensures OutputTo(st, es, h) == [] && OutputVia(st, es, c, h) == []
    decreases |es|
  {
    if es != [] {
      var front, e := es[..|es| - 1], es[|es| - 1];
      RunInv(st, front);
      StepStores(Run(st, front), e, h);
      hide Inv, Step, Delivered;
      NotYetBorn(st, front, c, h);
    }
  }

  /** What the frames of a list carry. */
  function Payloads(fs: seq<Frame>): seq<seq<byte>> {
    if fs == [] then [] else Payloads(fs[..|fs| - 1]) + Payload(fs[|fs| - 1])
  }

  /** cb's own frame for some output carries exactly that output. */
  lemma StdoutPayload(bytes: seq<byte>)
    ensures Payload(Stdout(Base64.Encode(bytes))) == [bytes]
  {
    Base64.StrictRoundTrip(bytes);
    hide Base64.DecodeStrict, Base64.Encode;
  }

  /** The same bytes, chunk by chunk. */
  ghost predicate Carries(cs: seq<RB.Chunk>, outs: seq<seq<byte>>) {
    |cs| == |outs| && forall i | 0 <= i < |cs| :: cs[i].bytes == outs[i]
  }

  lemma {:induction false} PrintedCarries(es: seq<Event>, c: nat, fs: seq<Frame>)
    requires Deliver(es, c, fs)
    ensures Carries(PrintedBy(es), Payloads(fs))
    decreases |es|
  {
    if es != [] {
      hide Base64.DecodeStrict;
      PrintedCarries(es[..|es| - 1], c, fs[..|fs| - 1]);
    }
  }

  lemma DeliveredSpeaks(es: seq<Event>, c: nat, m: HelloMsg, fs: seq<Frame>)
    requires Accepted(m) && Deliver(es, c, [Hello(m)] + fs)
    ensures Speaks(es) && Carries(PrintedBy(es), Payloads(fs))
  {
    hide Accepted;
    assert es[0].frame == ([Hello(m)] + fs)[0];
    PrintedCarries(es, c, [Hello(m)] + fs);
    HelloCarriesNothing(m, fs);
  }

  lemma {:induction false} HelloCarriesNothing(m: HelloMsg, fs: seq<Frame>)
    ensures Payloads([Hello(m)] + fs) == Payloads(fs)
    decreases |fs|
  {
    var all := [Hello(m)] + fs;
    if fs == [] {
      assert all[..0] == [];
    } else {
      hide Payload;
      assert all[..|all| - 1] == [Hello(m)] + fs[..|fs| - 1];
      HelloCarriesNothing(m, fs[..|fs| - 1]);
    }
  }

  /**
   From the terminal to the buffer, in every run: if a fresh connection's bytes are the
   encodings of an accepted hello and of any further frames, cut into chunks in any way, then
   whatever else the daemon handles in between, the connection's session gets exactly the
   output these frames carry, in order; and unless some connection resumes that session, its
   buffer ends up with the longest suffix of this output that fits.
   */
  lemma OutputSurvivesTheWire(serialise: Frame -> seq<byte>, parse: Parser, st: State, es: seq<Event>, c: nat,
                              m: HelloMsg, fs: seq<Frame>, arrivals: seq<Arrival>) returns (h: nat)
    requires Inv(st) && Reaches(st, c) && st.conns[c].role == Unknown && Accepted(m)
    requires var ms := [Hello(m)] + fs;
             && F.Encodable(serialise, ms) && F.ParseInverts(serialise, parse, ms)
             && |serialise(Hello(m))| <= MAX_FIRST_FRAME_BYTES
             && Flat(Chunks(arrivals)) == F.Wire(serialise, ms)
    requires DataOf(es, c) == Events(parse, c, FRESH, arrivals) && ClosesLast(es, c)
    ensures var t, out := Run(st, es), OutputVia(st, es, c, h);
            && BoundTo(t.conns, c, h) && Carries(out, Payloads(fs))
            && (NeverResumed(st, es, h) ==>
                  && OutputTo(st, es, h) == out
                  && RB.LongestFittingSuffix(RING_BUFFER_MAX_BYTES, RB.StoredAll(RING_BUFFER_MAX_BYTES, out), Buffer(t, h)))
  {
    WireDelivers(serialise, parse, c, [Hello(m)] + fs, arrivals);
    hide Events, F.Encodable, F.ParseInverts, F.Wire, Flat;
    DeliveredSpeaks(DataOf(es, c), c, m, fs);
    h := Follows(st, es, c);
    hide Run, Inv, Accepted, Speaks, ClosesLast, Reaches, Deliver, NeverResumed, Carries;
    assert DataOf(es, c) != [] by { DeliverIsNotEmpty(DataOf(es, c), c, [Hello(m)] + fs); }
    if NeverResumed(st, es, h) {
      OnlyVia(st, es, c, h);
      BornEmpty(st, es, h);
    }
  }

  lemma DeliverIsNotEmpty(es: seq<Event>, c: nat, fs: seq<Frame>)
    requires Deliver(es, c, fs) && fs != []
    ensures es != []
  {
  }

  lemma BornEmpty(st: State, es: seq<Event>, h: nat)
    requires Inv(st) && h >= |st.heap|
    ensures RB.LongestFittingSuffix(RING_BUFFER_MAX_BYTES, RB.StoredAll(RING_BUFFER_MAX_BYTES, OutputTo(st, es, h)), Buffer(Run(st, es), h))
  {
    NothingRetained(st, h);
    RunRetains(st, es, h, []);
    assert [] + OutputTo(st, es, h) == OutputTo(st, es, h);
    RB.EvictKeepsLongestSuffix(RING_BUFFER_MAX_BYTES, RB.StoredAll(RING_BUFFER_MAX_BYTES, OutputTo(st, es, h)));
    hide Inv, Run, OutputTo, Buffer, RB.StoredAll, RB.Evict, RB.LongestFittingSuffix;
  }
}
