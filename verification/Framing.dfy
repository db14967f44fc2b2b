/**
 The wire format of packages/shared/src/framing.ts: a 4-byte little-endian length
 prefix followed by a JSON payload. `Parse` is the simple form (look at all the bytes
 at once); `Decoder` is the chunk-list form the program runs.
 JSON is a pair of functions `serialise` and `parse`.
 */
module Framing {
  import opened Wrappers
  import opened Constants
  import opened Flatten

  datatype DecodeError =
    | FirstFrameTooLarge(cap: nat, len: nat)
    | FrameTooLarge(cap: nat, len: nat)
    | InvalidJson

  /** What a byte stream means: the messages framed in it and the incomplete tail, or an error. */
  datatype Parsed<M> = Parsed(frames: seq<M>, rest: seq<byte>) | Failed(error: DecodeError)

  datatype Caps = Caps(first: nat, general: nat)

  const DEFAULT_CAPS := Caps(MAX_FIRST_FRAME_BYTES, MAX_FRAME_BYTES)

  function CapAfter(caps: Caps, emitted: nat): nat {
    if emitted == 0 then caps.first else caps.general
  }

  // ---------- the length prefix ----------

  function Header(n: nat): (h: seq<byte>)
    requires n < 0x1_0000_0000
    ensures |h| == 4
  {
    [n % 256, n / 256 % 256, n / 65536 % 256, n / 16777216]
  }

  function ReadHeader(bs: seq<byte>): nat
    requires |bs| >= 4
  {
    var b0: int, b1: int, b2: int, b3: int := bs[0], bs[1], bs[2], bs[3];
    b0 + 256 * b1 + 65536 * b2 + 16777216 * b3
  }

  lemma HeaderRoundTrip(n: nat, tail: seq<byte>)
    requires n < 0x1_0000_0000
    ensures ReadHeader(Header(n) + tail) == n
  {
    var a, b := n / 256, n / 65536;
    assert b == a / 256 && n / 16777216 == b / 256;
  }

  // ---------- encodeFrame ----------

  function EncodeFrame<M>(serialise: M -> seq<byte>, msg: M): (r: Option<seq<byte>>)
    ensures r.Some? <==> |serialise(msg)| <= MAX_FRAME_BYTES
    ensures r.Some? ==> |r.value| == 4 + |serialise(msg)|
  {
    var json := serialise(msg);
    if |json| > MAX_FRAME_BYTES then None else Some(Header(|json|) + json)
  }

  /** A frame on the wire: the length of the payload in four bytes, the least significant first, then the payload. */
  lemma FrameLayout<M>(serialise: M -> seq<byte>, msg: M)
    requires |serialise(msg)| <= MAX_FRAME_BYTES
    ensures var bs := EncodeFrame(serialise, msg).value;
            var b0: int, b1: int, b2: int, b3: int := bs[0], bs[1], bs[2], bs[3];
            bs[4..] == serialise(msg) && b0 + 256 * b1 + 65536 * b2 + 16777216 * b3 == |serialise(msg)|
  {
    var n := |serialise(msg)|;
    var a, b := n / 256, n / 65536;
    assert b == a / 256 && n / 16777216 == b / 256;
  }

  ghost predicate Encodable<M>(serialise: M -> seq<byte>, ms: seq<M>) {
    forall i | 0 <= i < |ms| :: EncodeFrame(serialise, ms[i]).Some?
  }

  ghost predicate ParseInverts<M>(serialise: M -> seq<byte>, parse: seq<byte> -> Option<M>, ms: seq<M>) {
    forall i | 0 <= i < |ms| :: parse(serialise(ms[i])) == Some(ms[i])
  }

  /** The bytes a sender puts on the wire for `ms`. */
  ghost function Wire<M>(serialise: M -> seq<byte>, ms: seq<M>): seq<byte>
    requires Encodable(serialise, ms)
  {
    if ms == [] then []
    else EncodeFrame(serialise, ms[0]).value + Wire(serialise, ms[1..])
  }

  // ---------- the simple form: parse the whole stream ----------

  function Prepend<M>(frames: seq<M>, p: Parsed<M>): Parsed<M> {
    match p
    case Parsed(fs, rest) => Parsed(frames + fs, rest)
    case Failed(e) => Failed(e)
  }

  /** What stands at the front of the stream. */
  datatype Front<M> = Incomplete | Bad(error: DecodeError) | Frame(msg: M, size: nat)

  function FrontOf<M>(parse: seq<byte> -> Option<M>, cap: nat, isFirst: bool, bs: seq<byte>): (f: Front<M>)
    ensures f.Frame? ==> 4 <= f.size <= |bs|
  {
    if |bs| < 4 then Incomplete
    else
      var len := ReadHeader(bs);
      if len > cap then Bad(if isFirst then FirstFrameTooLarge(cap, len) else FrameTooLarge(cap, len))
      else if |bs| < 4 + len then Incomplete
      else
        match parse(bs[4..4 + len])
        case None => Bad(InvalidJson)
        case Some(m) => Frame(m, 4 + len)
  }

  function Parse<M>(parse: seq<byte> -> Option<M>, caps: Caps, bs: seq<byte>, emitted: nat): Parsed<M>
    decreases |bs|
  {
    match FrontOf(parse, CapAfter(caps, emitted), emitted == 0, bs)
    case Incomplete => Parsed([], bs)
    case Bad(e) => Failed(e)
    case Frame(m, size) => Prepend([m], Parse(parse, caps, bs[size..], emitted + 1))
  }

  /** A decision about the front of the stream is final. */
  lemma FrontExtends<M>(parse: seq<byte> -> Option<M>, cap: nat, isFirst: bool, a: seq<byte>, b: seq<byte>)
    ensures var f := FrontOf(parse, cap, isFirst, a);
            f.Incomplete? || FrontOf(parse, cap, isFirst, a + b) == f
  {
    if |a| >= 4 {
      var ab, len := a + b, ReadHeader(a);
      assert ReadHeader(ab) == len;
      if 4 + len <= |a| {
        assert ab[4..4 + len] == a[4..4 + len];
      }
    }
  }

  lemma PrependAssociative<M>(x: seq<M>, y: seq<M>, p: Parsed<M>)
    ensures Prepend(x, Prepend(y, p)) == Prepend(x + y, p)
  {
    if p.Parsed? {
      assert x + (y + p.frames) == x + y + p.frames;
    }
  }

  lemma PrependNothing<M>(p: Parsed<M>)
    ensures Prepend([], p) == p
  {
    if p.Parsed? {
      assert [] + p.frames == p.frames;
    }
  }

  /** Bytes that arrive later only extend what the earlier bytes already meant. */
  lemma {:induction false} ParseExtends<M>(parse: seq<byte> -> Option<M>, caps: Caps,
                                           a: seq<byte>, b: seq<byte>, emitted: nat)
    ensures match Parse(parse, caps, a, emitted)
            case Parsed(fs, rest) =>
              Parse(parse, caps, a + b, emitted) == Prepend(fs, Parse(parse, caps, rest + b, emitted + |fs|))
            case Failed(e) => Parse(parse, caps, a + b, emitted) == Failed(e)
    decreases |a|
  {
    hide FrontOf;
    FrontExtends(parse, CapAfter(caps, emitted), emitted == 0, a, b);
    match FrontOf(parse, CapAfter(caps, emitted), emitted == 0, a) {
      case Incomplete => PrependNothing(Parse(parse, caps, a + b, emitted));
      case Bad(e) =>
      case Frame(m, size) =>
        assert (a + b)[size..] == a[size..] + b;
        ParseExtends(parse, caps, a[size..], b, emitted + 1);
        match Parse(parse, caps, a[size..], emitted + 1) {
          case Failed(_) =>
          case Parsed(fs, rest) =>
            PrependAssociative([m], fs, Parse(parse, caps, rest + b, emitted + 1 + |fs|));
        }
    }
  }

  /** What stays buffered is always an incomplete frame within the current cap. */
  lemma {:induction false} ParseRestBounded<M>(parse: seq<byte> -> Option<M>, caps: Caps, bs: seq<byte>, emitted: nat)
    ensures match Parse(parse, caps, bs, emitted)
            case Parsed(fs, rest) =>
              && |rest| < 4 + CapAfter(caps, emitted + |fs|)
              && Parse(parse, caps, rest, emitted + |fs|) == Parsed([], rest)
            case Failed(_) => true
    decreases |bs|
  {
    match FrontOf(parse, CapAfter(caps, emitted), emitted == 0, bs) {
      case Incomplete =>
      case Bad(e) =>
      case Frame(m, size) => ParseRestBounded(parse, caps, bs[size..], emitted + 1);
    }
  }

  lemma ParseFront<M>(parse: seq<byte> -> Option<M>, caps: Caps, bs: seq<byte>, emitted: nat)
    ensures Parse(parse, caps, bs, emitted)
            == match FrontOf(parse, CapAfter(caps, emitted), emitted == 0, bs)
               case Incomplete => Parsed([], bs)
               case Bad(e) => Failed(e)
               case Frame(m, size) => Prepend([m], Parse(parse, caps, bs[size..], emitted + 1))
  {
    hide FrontOf;
  }

  /** What successive `push` calls return, joined; a push that throws ends the connection. */
  function Feed<M>(parse: seq<byte> -> Option<M>, caps: Caps, chunks: seq<seq<byte>>,
                   buffered: seq<byte>, emitted: nat): Parsed<M>
    decreases |chunks|
  {
    if chunks == [] then Parsed([], buffered)
    else
      match Parse(parse, caps, buffered + chunks[0], emitted)
      case Failed(e) => Failed(e)
      case Parsed(fs, rest) => Prepend(fs, Feed(parse, caps, chunks[1..], rest, emitted + |fs|))
  }

  /** However the stream is cut into chunks, the outcome is that of parsing it in one piece. */
  lemma {:induction false} FeedIsParse<M>(parse: seq<byte> -> Option<M>, caps: Caps, chunks: seq<seq<byte>>,
                                          buffered: seq<byte>, emitted: nat)
    requires Parse(parse, caps, buffered, emitted) == Parsed([], buffered)
    ensures Feed(parse, caps, chunks, buffered, emitted) == Parse(parse, caps, buffered + Flat(chunks), emitted)
    decreases |chunks|
  {
    hide FrontOf;
    if chunks == [] {
      assert buffered + Flat(chunks) == buffered;
    } else {
      var now := buffered + chunks[0];
      assert buffered + Flat(chunks) == now + Flat(chunks[1..]);
      ParseExtends(parse, caps, now, Flat(chunks[1..]), emitted);
      ParseRestBounded(parse, caps, now, emitted);
      match Parse(parse, caps, now, emitted) {
        case Failed(e) =>
        case Parsed(fs, rest) => FeedIsParse(parse, caps, chunks[1..], rest, emitted + |fs|);
      }
    }
  }

  lemma ChunkingIrrelevant<M>(parse: seq<byte> -> Option<M>, caps: Caps, chunks: seq<seq<byte>>)
    ensures Feed(parse, caps, chunks, [], 0) == Parse(parse, caps, Flat(chunks), 0)
  {
    FeedIsParse(parse, caps, chunks, [], 0);
    assert [] + Flat(chunks) == Flat(chunks);
  }

  // ---------- round trip ----------

  lemma FrontOfEncoded<M>(serialise: M -> seq<byte>, parse: seq<byte> -> Option<M>, cap: nat, isFirst: bool, m: M, tail: seq<byte>)
    requires EncodeFrame(serialise, m).Some? && parse(serialise(m)) == Some(m)
    ensures var json := serialise(m);
            var bs := EncodeFrame(serialise, m).value + tail;
            && bs[4 + |json|..] == tail
            && FrontOf(parse, cap, isFirst, bs)
               == (if |json| <= cap then Frame(m, 4 + |json|)
                   else Bad(if isFirst then FirstFrameTooLarge(cap, |json|) else FrameTooLarge(cap, |json|)))
  {
    hide ReadHeader;
    var json := serialise(m);
    var bs := EncodeFrame(serialise, m).value + tail;
    assert bs == Header(|json|) + (json + tail);
    HeaderRoundTrip(|json|, json + tail);
    assert bs[4..4 + |json|] == json;
  }

  /** One encoded message that fits the cap in force, in front of a stream that parses. */
  lemma ParseWireCons<M>(serialise: M -> seq<byte>, parse: seq<byte> -> Option<M>, m: M, tail: seq<byte>, ms: seq<M>, emitted: nat)
    requires EncodeFrame(serialise, m).Some? && parse(serialise(m)) == Some(m)
    requires |serialise(m)| <= CapAfter(DEFAULT_CAPS, emitted)
    requires Parse(parse, DEFAULT_CAPS, tail, emitted + 1) == Parsed(ms, [])
    ensures Parse(parse, DEFAULT_CAPS, EncodeFrame(serialise, m).value + tail, emitted) == Parsed([m] + ms, [])
  {
    hide FrontOf, EncodeFrame, Parse;
    FrontOfEncoded(serialise, parse, CapAfter(DEFAULT_CAPS, emitted), emitted == 0, m, tail);
    ParseFront(parse, DEFAULT_CAPS, EncodeFrame(serialise, m).value + tail, emitted);
  }

  /** The first message meets the cap in force, the general cap applies to the others. */
  lemma {:induction false} ParseWire<M>(serialise: M -> seq<byte>, parse: seq<byte> -> Option<M>, ms: seq<M>, emitted: nat)
    requires Encodable(serialise, ms) && ParseInverts(serialise, parse, ms)
    requires ms != [] ==> |serialise(ms[0])| <= CapAfter(DEFAULT_CAPS, emitted)
    ensures Parse(parse, DEFAULT_CAPS, Wire(serialise, ms), emitted) == Parsed(ms, [])
    decreases |ms|
  {
    if ms != [] {
      hide FrontOf, Header, Parse;
      ParseWire(serialise, parse, ms[1..], emitted + 1);
      ParseWireCons(serialise, parse, ms[0], Wire(serialise, ms[1..]), ms[1..], emitted);
      assert [ms[0]] + ms[1..] == ms;
    }
  }

  /**
   The promise of the codec, with its exact condition: whatever a sender encodes is
   received, under every chunking, if and only if its first message also fits the
   pre-handshake cap; otherwise the receiver drops the connection.
   */
  lemma RoundTrip<M>(serialise: M -> seq<byte>, parse: seq<byte> -> Option<M>, ms: seq<M>, chunks: seq<seq<byte>>)
    requires Encodable(serialise, ms) && ParseInverts(serialise, parse, ms)
    requires Flat(chunks) == Wire(serialise, ms)
    ensures Feed(parse, DEFAULT_CAPS, chunks, [], 0) == Parsed(ms, [])
            <==> (ms == [] || |serialise(ms[0])| <= MAX_FIRST_FRAME_BYTES)
    ensures ms != [] && |serialise(ms[0])| > MAX_FIRST_FRAME_BYTES ==>
              Feed(parse, DEFAULT_CAPS, chunks, [], 0)
              == Failed(FirstFrameTooLarge(MAX_FIRST_FRAME_BYTES, |serialise(ms[0])|))
  {
    hide FrontOf, Header, Feed;
    ChunkingIrrelevant(parse, DEFAULT_CAPS, chunks);
    if ms == [] || |serialise(ms[0])| <= MAX_FIRST_FRAME_BYTES {
      ParseWire(serialise, parse, ms, 0);
    } else {
      assert EncodeFrame(serialise, ms[0]).Some?;
      FrontOfEncoded(serialise, parse, MAX_FIRST_FRAME_BYTES, true, ms[0], Wire(serialise, ms[1..]));
    }
  }

  // ---------- the form the program runs ----------

  /** One turn of `push`'s loop, seen from the simple form. */
  lemma LoopStep<M>(parse: seq<byte> -> Option<M>, caps: Caps, bs: seq<byte>, emitted: nat, out: seq<M>)
    ensures Prepend(out, Parse(parse, caps, bs, emitted))
            == match FrontOf(parse, CapAfter(caps, emitted), emitted == 0, bs)
               case Incomplete => Parsed(out, bs)
               case Bad(e) => Failed(e)
               case Frame(m, size) => Prepend(out + [m], Parse(parse, caps, bs[size..], emitted + 1))
  {
    hide FrontOf;
    match FrontOf(parse, CapAfter(caps, emitted), emitted == 0, bs) {
      case Incomplete => assert out + [] == out;
      case Bad(e) =>
      case Frame(m, size) => PrependAssociative(out, [m], Parse(parse, caps, bs[size..], emitted + 1));
    }
  }

  lemma FlatNonEmpty<T>(xs: seq<seq<T>>)
    requires |Flat(xs)| > 0
    ensures xs != []
  {
  }

  lemma FlatHead<T>(xs: seq<seq<T>>)
    requires xs != []
    ensures Flat(xs) == xs[0] + Flat(xs[1..])
  {
  }

  lemma FlatCutHead<T>(xs: seq<seq<T>>, k: nat)
    requires xs != [] && k <= |xs[0]|
    ensures Flat(xs) == xs[0][..k] + Flat([xs[0][k..]] + xs[1..])
  {
    hide Flat;
    var cut := [xs[0][k..]] + xs[1..];
    FlatHead(xs);
    FlatHead(cut);
    assert cut[1..] == xs[1..];
    var rest := Flat(xs[1..]);
    assert xs[0] + rest == xs[0][..k] + (xs[0][k..] + rest);
  }

  lemma SplitOff(whole: seq<byte>, front: seq<byte>, rest: seq<byte>)
    requires front + rest == whole
    ensures whole[..|front|] == front && whole[|front|..] == rest
  {
  }

  lemma Regroup(a: seq<byte>, b: seq<byte>, c: seq<byte>)
    ensures a + (b + c) == (a + b) + c
  {
  }

  /** Buffer.copy: the first `n` bytes of `src`, placed at `at`. */
  method CopyInto(buf: array<byte>, at: nat, src: seq<byte>, n: nat)
    requires n <= |src| && at + n <= buf.Length
    modifies buf
    ensures buf[..at + n] == old(buf[..at]) + src[..n]
  {
    forall i | 0 <= i < n {
      buf[at + i] := src[i];
    }
  }

  /** createDecoder: a list of chunks, concatenated only where a frame crosses a boundary. */
  class Decoder<M> {
    const parse: seq<byte> -> Option<M>
    const caps: Caps
    var chunks: seq<seq<byte>>
    var pending: nat
    var framesEmitted: nat
    /** Bytes copied by `Consume` and bytes received by `Push`, over the decoder's whole life. */
    ghost var copied: nat
    ghost var pushed: nat

    ghost function Buffered(): seq<byte>
      reads this
    {
      Flat(chunks)
    }

    /** A header already lying in one piece has cost at most one fold of 4 bytes. */
    ghost function FoldCredit(): nat
      reads this
    {
      if chunks != [] && |chunks[0]| >= 4 then 4 else 0
    }

    ghost predicate Valid()
      reads this
    {
      && pending == |Buffered()| <= pushed
      && copied <= 2 * (pushed - pending) + FoldCredit()
    }

    lemma CopyBound()
      requires Valid()
      ensures copied <= 2 * pushed - pending
    {
      if chunks != [] {
        FlatHead(chunks);
      }
    }

    constructor (parse: seq<byte> -> Option<M>, caps: Caps)
      ensures Valid() && Buffered() == [] && framesEmitted == 0 && pushed == 0
      ensures this.parse == parse && this.caps == caps
    {
      this.parse, this.caps := parse, caps;
      chunks, pending, framesEmitted := [], 0, 0;
      copied, pushed := 0, 0;
    }

    /** The head chunk moves to the buffer. */
    method TakeWhole(buf: array<byte>, written: nat)
      requires chunks != [] && written + |chunks[0]| <= buf.Length
      modifies this`chunks, this`copied, buf
      ensures buf[..written + |old(chunks)[0]|] == old(buf[..written]) + old(chunks)[0]
      ensures chunks == old(chunks)[1..] && copied == old(copied) + |old(chunks)[0]|
    {
      CopyInto(buf, written, chunks[0], |chunks[0]|);
      copied := copied + |chunks[0]|;
      chunks := chunks[1..];
    }

    /** The first `need` bytes of the head chunk move to the buffer. */
    method TakePart(buf: array<byte>, written: nat, need: nat)
      requires chunks != [] && need <= |chunks[0]| && written + need <= buf.Length
      modifies this`chunks, this`copied, buf
      ensures buf[..written + need] == old(buf[..written]) + old(chunks)[0][..need]
      ensures chunks == [old(chunks)[0][need..]] + old(chunks)[1..] && copied == old(copied) + need
    {
      CopyInto(buf, written, chunks[0], need);
      copied := copied + need;
      chunks := [chunks[0][need..]] + chunks[1..];
    }

    /** Takes exactly the first `n` buffered bytes. The "chunk list empty" throw is unreachable. */
    method Consume(n: nat) returns (out: seq<byte>)
      requires n <= pending == |Buffered()|
      modifies this
      ensures framesEmitted == old(framesEmitted) && pushed == old(pushed)
      ensures out == old(Buffered())[..n] && Buffered() == old(Buffered())[n..]
      ensures pending == old(pending) - n == |Buffered()|
      ensures copied == old(copied) + n
    {
      if n == 0 {
        out := [];
        return;
      }
      hide Flat;
      var buf := new byte[n];
      var written := 0;
      while written < n
        invariant written <= n && n - written <= |Flat(chunks)|
        invariant buf[..written] + Flat(chunks) == old(Flat(chunks))
        invariant pending == old(pending) && framesEmitted == old(framesEmitted) && pushed == old(pushed)
        invariant copied == old(copied) + written
        decreases n - written, |chunks|
      {
        written := MoveHead(buf, written);
      }
      pending := pending - n;
      out := buf[..];
      assert out == buf[..written];
      SplitOff(old(Flat(chunks)), out, Flat(chunks));
    }

    /** One turn of the copying loop: the head chunk, or as much of it as is needed. */
    method MoveHead(buf: array<byte>, written: nat) returns (done: nat)
      requires written < buf.Length && buf.Length - written <= |Flat(chunks)|
      modifies this`chunks, this`copied, buf
      ensures written <= done <= buf.Length && copied == old(copied) + (done - written)
      ensures done == written ==> |chunks| < |old(chunks)|
      ensures buf[..done] + Flat(chunks) == old(buf[..written] + Flat(chunks))
    {
      hide Flat;
      FlatNonEmpty(chunks);
      var first := chunks[0];
      var need := buf.Length - written;
      ghost var front := buf[..written];
      if |first| <= need {
        FlatHead(chunks);
        Regroup(front, first, Flat(chunks[1..]));
        TakeWhole(buf, written);
        done := written + |first|;
      } else {
        FlatCutHead(chunks, need);
        Regroup(front, first[..need], Flat([first[need..]] + chunks[1..]));
        TakePart(buf, written, need);
        done := written + need;
      }
    }

    /** The next frame's length, or -1 while fewer than 4 bytes are buffered. */
    method PeekLen() returns (len: int)
      requires Valid()
      modifies this
      ensures Valid() && Buffered() == old(Buffered())
      ensures framesEmitted == old(framesEmitted) && pushed == old(pushed) && pending == old(pending)
      ensures pending < 4 ==> len == -1
      ensures pending >= 4 ==> len == ReadHeader(Buffered()) && FoldCredit() == 4
    {
      if pending < 4 {
        return -1;
      }
      var first := chunks[0];
      if |first| >= 4 {
        return ReadHeader(first);
      }
      var hdr := Consume(4);
      assert ([hdr] + chunks)[1..] == chunks;
      chunks := [hdr] + chunks;
      pending := pending + 4;
      return ReadHeader(hdr);
    }

    /** Drops the header and takes the payload behind it. */
    method TakePayload(len: nat) returns (payload: seq<byte>)
      requires Valid() && FoldCredit() == 4 && 4 + len <= pending
      modifies this
      ensures Valid() && framesEmitted == old(framesEmitted) && pushed == old(pushed)
      ensures pending == old(pending) - 4 - len
      ensures payload == old(Buffered())[4..4 + len] && Buffered() == old(Buffered())[4 + len..]
    {
      hide Flat;
      var _ := Consume(4);
      payload := Consume(len);
    }

    /** `push`: Failure is the exception that makes the caller drop the connection. */
    method Push(chunk: seq<byte>) returns (r: Result<seq<M>, DecodeError>)
      requires Valid()
      modifies this
      ensures Valid() && pushed == old(pushed) + |chunk|
      ensures match Parse(parse, caps, old(Buffered()) + chunk, old(framesEmitted))
              case Parsed(fs, rest) =>
                && r == Success(fs)
                && Buffered() == rest
                && framesEmitted == old(framesEmitted) + |fs|
              case Failed(e) => r == Failure(e)
      ensures r.Success? ==> Remaining() < 4 + CapAfter(caps, framesEmitted)
      ensures copied <= 2 * pushed - pending
    {
      hide ReadHeader, Flat, Parse, Prepend;
      FlatSnoc(chunks, chunk);
      ghost var all, emitted0 := Buffered() + chunk, framesEmitted;
      ghost var goal := Parse(parse, caps, all, emitted0);
      ParseRestBounded(parse, caps, all, emitted0);
      PrependNothing(goal);
      chunks := chunks + [chunk];
      pending := pending + |chunk|;
      pushed := pushed + |chunk|;
      var out: seq<M> := [];
      while true
        invariant Valid() && pushed == old(pushed) + |chunk|
        invariant framesEmitted == emitted0 + |out|
        invariant goal == Prepend(out, Parse(parse, caps, Buffered(), framesEmitted))
        decreases pending
      {
        ghost var bs := Buffered();
        LoopStep(parse, caps, bs, framesEmitted, out);
        var len := PeekLen();
        CopyBound();
        if len < 0 {
          break;
        }
        var cap := CapAfter(caps, framesEmitted);
        if len > cap {
          return Failure(if framesEmitted == 0 then FirstFrameTooLarge(cap, len) else FrameTooLarge(cap, len));
        }
        if pending < 4 + len {
          break;
        }
        var payload := TakePayload(len);
        match parse(payload) {
          case None =>
            CopyBound();
            return Failure(InvalidJson);
          case Some(m) =>
            out := out + [m];
            framesEmitted := framesEmitted + 1;
        }
      }
      return Success(out);
    }

    function Remaining(): nat
      reads this
    {
      pending
    }
  }

  /**
   A connection's data events (the handler in packages/bridged/src/pipe-server.ts): every
   chunk is pushed in turn and the first decode error drops the connection.
   */
  method ReceiveAll<M>(parse: seq<byte> -> Option<M>, caps: Caps, stream: seq<seq<byte>>)
    returns (frames: seq<M>, unread: nat, error: Option<DecodeError>, taken: nat)
    ensures var p := Parse(parse, caps, Flat(stream), 0);
            if p.Parsed? then frames == p.frames && unread == |p.rest| && error == None && taken == |stream|
            else error == Some(p.error) && DeliveredUpTo(parse, caps, stream, taken, frames, p.error)
  {
    hide Parse, Prepend, Flat, FrontOf;
    var d := new Decoder(parse, caps);
    NothingParsed(parse, caps);
    frames := [];
    var i := 0;
    while i < |stream|
      invariant i <= |stream| && d.Valid() && d.parse == parse && d.caps == caps && d.framesEmitted == |frames|
      invariant Parse(parse, caps, Flat(stream[..i]), 0) == Parsed(frames, d.Buffered())
    {
      OneMoreChunk(parse, caps, stream, i, frames, d.Buffered());
      var r := d.Push(stream[i]);
      match r {
        case Failure(e) =>
          PrefixFails(parse, caps, stream, i + 1, e);
          return frames, d.Remaining(), Some(e), i;
        case Success(fs) => frames := frames + fs;
      }
      i := i + 1;
    }
    assert stream[..i] == stream;
    return frames, d.Remaining(), None, i;
  }

  /** `frames` are the messages of the first `k` chunks, and the next one fails with `e`; what it held before the failure is lost. */
  ghost predicate DeliveredUpTo<M>(parse: seq<byte> -> Option<M>, caps: Caps, stream: seq<seq<byte>>, k: nat, frames: seq<M>, e: DecodeError)
  {
    && k < |stream|
    && Parse(parse, caps, Flat(stream[..k]), 0).Parsed? && Parse(parse, caps, Flat(stream[..k]), 0).frames == frames
    && Parse(parse, caps, Flat(stream[..k + 1]), 0) == Failed(e)
  }

  lemma NothingParsed<M>(parse: seq<byte> -> Option<M>, caps: Caps)
    ensures Parse(parse, caps, Flat([]), 0) == Parsed([], [])
  {
  }

  lemma ParseMore<M>(parse: seq<byte> -> Option<M>, caps: Caps, a: seq<byte>, chunk: seq<byte>, frames: seq<M>, buffered: seq<byte>)
    requires Parse(parse, caps, a, 0) == Parsed(frames, buffered)
    ensures var p := Parse(parse, caps, buffered + chunk, |frames|);
            Parse(parse, caps, a + chunk, 0) == if p.Parsed? then Parsed(frames + p.frames, p.rest) else Failed(p.error)
  {
    hide Parse;
    ParseExtends(parse, caps, a, chunk, 0);
  }

  lemma FlatUpTo(stream: seq<seq<byte>>, i: nat)
    requires i < |stream|
    ensures Flat(stream[..i + 1]) == Flat(stream[..i]) + stream[i]
  {
    assert stream[..i + 1] == stream[..i] + [stream[i]];
    hide Flat;
    FlatSnoc(stream[..i], stream[i]);
  }

  /** One more chunk on top of a parsed prefix. */
  lemma OneMoreChunk<M>(parse: seq<byte> -> Option<M>, caps: Caps, stream: seq<seq<byte>>, i: nat, frames: seq<M>, buffered: seq<byte>)
    requires i < |stream| && Parse(parse, caps, Flat(stream[..i]), 0) == Parsed(frames, buffered)
    ensures var p := Parse(parse, caps, buffered + stream[i], |frames|);
            Parse(parse, caps, Flat(stream[..i + 1]), 0)
            == if p.Parsed? then Parsed(frames + p.frames, p.rest) else Failed(p.error)
  {
    hide Parse, Flat;
    FlatUpTo(stream, i);
    ParseMore(parse, caps, Flat(stream[..i]), stream[i], frames, buffered);
  }

  lemma PrefixFails<M>(parse: seq<byte> -> Option<M>, caps: Caps, stream: seq<seq<byte>>, n: nat, e: DecodeError)
    requires n <= |stream| && Parse(parse, caps, Flat(stream[..n]), 0) == Failed(e)
    ensures Parse(parse, caps, Flat(stream), 0) == Failed(e)
  {
    assert stream == stream[..n] + stream[n..];
    hide Parse, Flat;
    FlatAppend(stream[..n], stream[n..]);
    ParseExtends(parse, caps, Flat(stream[..n]), Flat(stream[n..]), 0);
  }
}
