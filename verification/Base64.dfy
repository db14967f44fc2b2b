/**
 Base64 with the standard alphabet and padding (section 4 of RFC 4648) and the strict
 decoder of packages/shared/src/framing.ts. `Lenient` is what `Buffer.from(s, 'base64')`
 yields for text that has already passed the shape tests: padding ends the data and
 left-over low bits are dropped.
 */
module Base64 {
  import opened Wrappers

  type Sextet = x: int | 0 <= x < 64

  function CharOf(v: Sextet): (c: char) {
    if v < 26 then 'A' + v as char
    else if v < 52 then 'a' + (v - 26) as char
    else if v < 62 then '0' + (v - 52) as char
    else if v == 62 then '+' else '/'
  }

  predicate InAlphabet(c: char) {
    'A' <= c <= 'Z' || 'a' <= c <= 'z' || '0' <= c <= '9' || c == '+' || c == '/'
  }

  function ValueOf(c: char): (v: Sextet)
    requires InAlphabet(c)
  {
    if 'A' <= c <= 'Z' then c as int - 'A' as int
    else if 'a' <= c <= 'z' then c as int - 'a' as int + 26
    else if '0' <= c <= '9' then c as int - '0' as int + 52
    else if c == '+' then 62 else 63
  }

  lemma AlphabetRoundTrip()
    ensures forall v: Sextet :: InAlphabet(CharOf(v)) && CharOf(v) != '=' && ValueOf(CharOf(v)) == v
    ensures forall c: char | InAlphabet(c) :: CharOf(ValueOf(c)) == c && c != '='
  {
  }

  /** Table 1 of RFC 4648, by ASCII codes: upper case, lower case, digits, plus and slash. */
  lemma AlphabetIsStandard(v: Sextet)
    ensures CharOf(v) as int == if v <= 25 then 65 + v else if v <= 51 then 71 + v else if v <= 61 then v - 4 else if v == 62 then 43 else 47
  {
  }

  // ---------- groups of three bytes, four characters ----------

  function Sextets3(a: byte, b: byte, c: byte): (Sextet, Sextet, Sextet, Sextet) {
    var x: int, y: int, z: int := a, b, c;
    (x / 4, x % 4 * 16 + y / 16, y % 16 * 4 + z / 64, z % 64)
  }

  function Bytes3(p: Sextet, q: Sextet, r: Sextet, s: Sextet): (byte, byte, byte) {
    var i: int, j: int, k: int, l: int := p, q, r, s;
    (i * 4 + j / 16, j % 16 * 16 + k / 4, k % 4 * 64 + l)
  }

  lemma SplitBy4(hi: int, lo: int)
    requires 0 <= lo < 4
    ensures (hi * 4 + lo) / 4 == hi && (hi * 4 + lo) % 4 == lo
  {
  }

  lemma SplitBy16(hi: int, lo: int)
    requires 0 <= lo < 16
    ensures (hi * 16 + lo) / 16 == hi && (hi * 16 + lo) % 16 == lo
  {
  }

  lemma SplitBy64(hi: int, lo: int)
    requires 0 <= lo < 64
    ensures (hi * 64 + lo) / 64 == hi && (hi * 64 + lo) % 64 == lo
  {
  }

  lemma SextetsThenBytes(a: byte, b: byte, c: byte)
    ensures var g := Sextets3(a, b, c); Bytes3(g.0, g.1, g.2, g.3) == (a, b, c)
  {
    var x: int, y: int, z: int := a, b, c;
    SplitBy16(x % 4, y / 16);
    SplitBy4(y % 16, z / 64);
  }

  lemma BytesThenSextets(p: Sextet, q: Sextet, r: Sextet, s: Sextet)
    ensures var h := Bytes3(p, q, r, s); Sextets3(h.0, h.1, h.2) == (p, q, r, s)
  {
    var i: int, j: int, k: int, l: int := p, q, r, s;
    SplitBy4(i, j / 16);
    SplitBy16(j % 16, k / 4);
    SplitBy64(k % 4, l);
  }

  /** Three bytes and four characters are the same 24 bits, the most significant first. */
  lemma GroupsAreBigEndian(a: byte, b: byte, c: byte)
    ensures var g := Sextets3(a, b, c); 65536 * a + 256 * b + c == 262144 * g.0 + 4096 * g.1 + 64 * g.2 + g.3
  {
  }

  /** A missing byte leaves zero low bits, and zero low bits mean a missing byte. */
  lemma PaddedGroups(a: byte, b: byte, p: Sextet, q: Sextet, r: Sextet)
    ensures var g := Sextets3(a, 0, 0); g.1 % 16 == 0 && g.2 == 0 && g.3 == 0
    ensures var g := Sextets3(a, b, 0); g.2 % 4 == 0 && g.3 == 0
    ensures q % 16 == 0 ==> var h := Bytes3(p, q, 0, 0); h.1 == 0 && h.2 == 0
    ensures r % 4 == 0 ==> Bytes3(p, q, r, 0).2 == 0
  {
  }

  // ---------- Buffer.toString('base64') ----------

  function Encode(bs: seq<byte>): string {
    if |bs| == 0 then ""
    else if |bs| == 1 then
      var g := Sextets3(bs[0], 0, 0);
      [CharOf(g.0), CharOf(g.1), '=', '=']
    else if |bs| == 2 then
      var g := Sextets3(bs[0], bs[1], 0);
      [CharOf(g.0), CharOf(g.1), CharOf(g.2), '=']
    else
      var g := Sextets3(bs[0], bs[1], bs[2]);
      [CharOf(g.0), CharOf(g.1), CharOf(g.2), CharOf(g.3)] + Encode(bs[3..])
  }

  // ---------- the shape tests of decodeBase64Strict ----------

  /** How many `=` end the text, at most two. */
  function PadLength(s: string): (n: nat)
    ensures n <= 2 && n <= |s|
  {
    if |s| >= 1 && s[|s| - 1] == '=' then
      if |s| >= 2 && s[|s| - 2] == '=' then 2 else 1
    else 0
  }

  /** The regular expression: one or more alphabet characters, then at most two `=`. */
  predicate HasShape(s: string) {
    var body := |s| - PadLength(s);
    body > 0 && forall i | 0 <= i < body :: InAlphabet(s[i])
  }

  function Lenient(s: string): (bs: seq<byte>)
    requires |s| % 4 == 0 && (s == "" || HasShape(s))
  {
    if s == "" then []
    else
      var p, q := ValueOf(s[0]), ValueOf(s[1]);
      if |s| == 4 && s[2] == '=' then [Bytes3(p, q, 0, 0).0]
      else
        var r := ValueOf(s[2]);
        if |s| == 4 && s[3] == '=' then
          var h := Bytes3(p, q, r, 0);
          [h.0, h.1]
        else
          var h := Bytes3(p, q, r, ValueOf(s[3]));
          assert |s| > 4 ==> PadLength(s[4..]) == PadLength(s);
          [h.0, h.1, h.2] + Lenient(s[4..])
  }

  /** decodeBase64Strict, with `null` as None. */
  function DecodeStrict(s: string): (r: Option<seq<byte>>) {
    if |s| == 0 then Some([])
    else if !HasShape(s) then None
    else if |s| % 4 != 0 then None
    else
      var buf := Lenient(s);
      if Encode(buf) != s then None else Some(buf)
  }

  // ---------- the canonical encodings, described without decoding ----------

  /**
   Sections 3.5 and 4 of RFC 4648: whole groups of four alphabet characters, of which the
   last may carry one or two pad characters, and then its unused low bits are zero.
   */
  predicate Canonical(s: string) {
    if |s| == 0 then true
    else if |s| < 4 then false
    else if |s| == 4 then
      && InAlphabet(s[0]) && InAlphabet(s[1])
      && if s[2] == '=' then s[3] == '=' && ValueOf(s[1]) % 16 == 0
         else InAlphabet(s[2]) && (if s[3] == '=' then ValueOf(s[2]) % 4 == 0 else InAlphabet(s[3]))
    else (forall i | 0 <= i < 4 :: InAlphabet(s[i])) && Canonical(s[4..])
  }

  lemma {:induction false} EncodeIsCanonical(bs: seq<byte>)
    ensures Canonical(Encode(bs)) && |Encode(bs)| % 4 == 0 && (bs == [] <==> Encode(bs) == "")
  {
    hide CharOf, ValueOf, InAlphabet, Sextets3;
    AlphabetRoundTrip();
    if |bs| == 1 {
      PaddedGroups(bs[0], 0, 0, 0, 0);
    } else if |bs| == 2 {
      PaddedGroups(bs[0], bs[1], 0, 0, 0);
    } else if |bs| >= 3 {
      EncodeIsCanonical(bs[3..]);
      assert Encode(bs)[4..] == Encode(bs[3..]);
    }
  }

  lemma {:induction false} CanonicalHasShape(s: string)
    requires Canonical(s)
    ensures |s| % 4 == 0 && (s == "" || HasShape(s))
  {
    if |s| > 4 {
      CanonicalHasShape(s[4..]);
      var t := s[4..];
      assert PadLength(t) == PadLength(s);
      forall i | 0 <= i < |s| - PadLength(s) ensures InAlphabet(s[i]) {
        if i >= 4 { assert s[i] == t[i - 4]; }
      }
    }
  }

  /** Whole groups in front of the last one are decoded and encoded on their own. */
  lemma LenientFirstGroup(p: Sextet, q: Sextet, r: Sextet, u: Sextet, t: string)
    requires |t| % 4 == 0 && (t == "" || HasShape(t))
    ensures var s := [CharOf(p), CharOf(q), CharOf(r), CharOf(u)] + t;
            var h := Bytes3(p, q, r, u);
            HasShape(s) && Lenient(s) == [h.0, h.1, h.2] + Lenient(t)
  {
    hide CharOf, ValueOf, InAlphabet, Bytes3, HasShape;
    AlphabetRoundTrip();
    var s := [CharOf(p), CharOf(q), CharOf(r), CharOf(u)] + t;
    ShapeOfLonger(s, t);
    assert s[4..] == t;
  }

  lemma ShapeOfLonger(s: string, t: string)
    requires |s| == |t| + 4 && s[4..] == t && (t == "" || HasShape(t))
    requires forall i | 0 <= i < 4 :: InAlphabet(s[i])
    ensures HasShape(s)
  {
    assert s[3] != '=' && (t != "" ==> s[|s| - 1] == t[|t| - 1] && s[|s| - 2] == if |t| >= 2 then t[|t| - 2] else s[3]);
    forall i | 0 <= i < |s| - PadLength(s) ensures InAlphabet(s[i]) {
      if i >= 4 { assert s[i] == t[i - 4]; }
    }
  }

  lemma EncodeFirstGroup(a: byte, b: byte, c: byte, bs: seq<byte>)
    ensures var g := Sextets3(a, b, c);
            Encode([a, b, c] + bs) == [CharOf(g.0), CharOf(g.1), CharOf(g.2), CharOf(g.3)] + Encode(bs)
  {
    hide CharOf, Sextets3;
    assert ([a, b, c] + bs)[3..] == bs;
  }

  lemma LenientPadded(p: Sextet, q: Sextet, r: Sextet)
    ensures var s := [CharOf(p), CharOf(q), '=', '=']; HasShape(s) && Lenient(s) == [Bytes3(p, q, 0, 0).0]
    ensures var s := [CharOf(p), CharOf(q), CharOf(r), '='];
            var h := Bytes3(p, q, r, 0);
            HasShape(s) && Lenient(s) == [h.0, h.1]
  {
    hide CharOf, ValueOf, InAlphabet, Bytes3;
    AlphabetRoundTrip();
  }

  lemma {:induction false} LenientInvertsEncode(bs: seq<byte>)
    ensures |Encode(bs)| % 4 == 0 && (Encode(bs) == "" || HasShape(Encode(bs)))
    ensures Lenient(Encode(bs)) == bs
  {
    hide CharOf, Sextets3, Bytes3, HasShape, Lenient;
    EncodeIsCanonical(bs);
    CanonicalHasShape(Encode(bs));
    if bs == [] {
      LenientOfEmpty();
    } else if |bs| <= 2 {
      var b1: byte := if |bs| == 2 then bs[1] else 0;
      var g := Sextets3(bs[0], b1, 0);
      SextetsThenBytes(bs[0], b1, 0);
      PaddedGroups(bs[0], b1, 0, 0, 0);
      LenientPadded(g.0, g.1, g.2);
    } else {
      var g := Sextets3(bs[0], bs[1], bs[2]);
      SextetsThenBytes(bs[0], bs[1], bs[2]);
      LenientInvertsEncode(bs[3..]);
      LenientFirstGroup(g.0, g.1, g.2, g.3, Encode(bs[3..]));
      assert bs == [bs[0], bs[1], bs[2]] + bs[3..];
    }
  }

  lemma LenientOfEmpty()
    ensures Lenient("") == []
  {
  }

  lemma {:induction false} EncodeInvertsLenient(s: string)
    requires Canonical(s)
    ensures |s| % 4 == 0 && (s == "" || HasShape(s)) && Encode(Lenient(s)) == s
  {
    CanonicalHasShape(s);
    if |s| == 4 {
      EncodeLastGroup(s);
    } else if |s| > 4 {
      hide CharOf, ValueOf, InAlphabet, Sextets3, Bytes3, HasShape, Lenient, Encode;
      AlphabetRoundTrip();
      var p, q, r, u := ValueOf(s[0]), ValueOf(s[1]), ValueOf(s[2]), ValueOf(s[3]);
      var t, h := s[4..], Bytes3(p, q, r, u);
      EncodeInvertsLenient(t);
      BytesThenSextets(p, q, r, u);
      assert s == [CharOf(p), CharOf(q), CharOf(r), CharOf(u)] + t;
      LenientFirstGroup(p, q, r, u, t);
      EncodeFirstGroup(h.0, h.1, h.2, Lenient(t));
    }
  }

  lemma EncodeLastGroup(s: string)
    requires |s| == 4 && Canonical(s) && HasShape(s)
    ensures Encode(Lenient(s)) == s
  {
    hide CharOf, ValueOf, InAlphabet, Sextets3, Bytes3, HasShape;
    AlphabetRoundTrip();
    var p, q := ValueOf(s[0]), ValueOf(s[1]);
    var r: Sextet := if s[2] == '=' then 0 else ValueOf(s[2]);
    var u: Sextet := if s[3] == '=' then 0 else ValueOf(s[3]);
    BytesThenSextets(p, q, r, u);
    PaddedGroups(0, 0, p, q, r);
    assert s == [s[0], s[1], s[2], s[3]];
  }

  // ---------- the main results ----------

  /** Everything an encoder writes is accepted and gives back the bytes. */
  lemma StrictRoundTrip(bs: seq<byte>)
    ensures DecodeStrict(Encode(bs)) == Some(bs)
  {
    LenientInvertsEncode(bs);
  }

  /** The strict decoder accepts exactly the canonical encodings, which are exactly the encoder's outputs. */
  lemma StrictAcceptsExactlyCanonical(s: string)
    ensures DecodeStrict(s).Some? <==> Canonical(s)
    ensures DecodeStrict(s).Some? ==> Encode(DecodeStrict(s).value) == s
    ensures Canonical(s) <==> exists bs: seq<byte> :: s == Encode(bs)
  {
    if Canonical(s) {
      EncodeInvertsLenient(s);
    }
    if DecodeStrict(s).Some? {
      EncodeIsCanonical(DecodeStrict(s).value);
    }
    forall bs: seq<byte> | s == Encode(bs) ensures Canonical(s) {
      EncodeIsCanonical(bs);
    }
  }
}
