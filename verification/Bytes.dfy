/** Bytes, and the UTF-8 well-formedness of RFC 3629, section 4. */
module Bytes {
  newtype byte = b: int | 0 <= b < 256

  predicate Continues(b: byte) { 0x80 <= b <= 0xBF }

  /** The length of the UTF-8 sequence at the head of `s`, or 0 when there is no well-formed one. */
  function RuneLength(s: seq<byte>): (n: nat)
    requires s != []
    ensures n <= |s| && n <= 4
  {
    var b := s[0];
    if b < 0x80 then 1
    else if 0xC2 <= b <= 0xDF then
      if |s| >= 2 && Continues(s[1]) then 2 else 0
    else if 0xE0 <= b <= 0xEF then
      var low, high := if b == 0xE0 then 0xA0 else 0x80, if b == 0xED then 0x9F else 0xBF;
      if |s| >= 3 && low <= s[1] <= high && Continues(s[2]) then 3 else 0
    else if 0xF0 <= b <= 0xF4 then
      var low, high := if b == 0xF0 then 0x90 else 0x80, if b == 0xF4 then 0x8F else 0xBF;
      if |s| >= 4 && low <= s[1] <= high && Continues(s[2]) && Continues(s[3]) then 4 else 0
    else 0
  }

  /** How far one step of decoding moves: over a well-formed sequence, or over one stray byte. */
  function UnitLength(s: seq<byte>): (n: nat)
    requires s != []
    ensures 0 < n <= |s|
  {
    if RuneLength(s) == 0 then 1 else RuneLength(s)
  }

  lemma UnitStands(s: seq<byte>)
    requires s != []
    ensures UnitLength(s[..UnitLength(s)]) == UnitLength(s)
    ensures RuneLength(s[..UnitLength(s)]) == RuneLength(s)
  {
  }

  predicate ValidUtf8(s: seq<byte>) {
    s == [] || (RuneLength(s) != 0 && ValidUtf8(s[RuneLength(s)..]))
  }

  function Utf8(c: nat): seq<byte>
    requires c < 0x110000
  {
    if c < 0x80 then [c as byte]
    else if c < 0x800 then [(0xC0 + c / 0x40) as byte, (0x80 + c % 0x40) as byte]
    else if c < 0x10000 then
      [(0xE0 + c / 0x1000) as byte, (0x80 + c / 0x40 % 0x40) as byte, (0x80 + c % 0x40) as byte]
    else
      [(0xF0 + c / 0x40000) as byte, (0x80 + c / 0x1000 % 0x40) as byte, (0x80 + c / 0x40 % 0x40) as byte,
       (0x80 + c % 0x40) as byte]
  }

  // ---------- Well-formed is encoded ----------

  /** The code points that text is made of: all but the surrogates. */
  predicate IsScalar(c: nat) { c < 0xD800 || 0xE000 <= c < 0x110000 }

  lemma DivisionsCompose(c: nat)
    ensures c / 0x1000 == c / 0x40 / 0x40 && c / 0x40000 == c / 0x40 / 0x40 / 0x40
  {
    var a := c / 0x40;
    var b := a / 0x40;
    assert c == 0x40 * a + c % 0x40 && a == 0x40 * b + a % 0x40;
    assert c == 0x1000 * b + 0x40 * (a % 0x40) + c % 0x40;
  }

  lemma TwoBytesAre(c: nat)
    requires 0x80 <= c < 0x800
    ensures var s := Utf8(c); |s| == 2 && 0xC2 <= s[0] <= 0xDF && Continues(s[1])
  {
  }

  lemma ThreeBytesAre(c: nat)
    requires 0x800 <= c < 0x10000
    ensures var s := Utf8(c);
            && |s| == 3 && 0xE0 <= s[0] <= 0xEF && Continues(s[1]) && Continues(s[2])
            && (s[0] == 0xE0 ==> 0xA0 <= s[1])
            && (s[0] == 0xED && 0x9F < s[1] ==> !IsScalar(c))
  {
    DivisionsCompose(c);
    var middle := c / 0x40;
    assert c == 0x40 * middle + c % 0x40 && middle == 0x40 * (middle / 0x40) + middle % 0x40;
  }

  lemma FourBytesAre(c: nat)
    requires 0x10000 <= c < 0x110000
    ensures var s := Utf8(c);
            && |s| == 4 && 0xF0 <= s[0] <= 0xF4 && Continues(s[1]) && Continues(s[2]) && Continues(s[3])
            && (s[0] == 0xF0 ==> 0x90 <= s[1]) && (s[0] == 0xF4 ==> s[1] <= 0x8F)
  {
    DivisionsCompose(c);
    var high := c / 0x1000;
    assert 0x10 <= high < 0x110 && high == 0x40 * (high / 0x40) + high % 0x40;
  }

  /** Reading an encoded scalar value takes exactly its bytes, whatever follows. */
  lemma EncodedIsRead(c: nat, rest: seq<byte>)
    requires IsScalar(c)
    ensures RuneLength(Utf8(c) + rest) == |Utf8(c)| == if c < 0x80 then 1 else if c < 0x800 then 2 else if c < 0x10000 then 3 else 4
  {
    if c < 0x80 {
      assert Utf8(c) == [c as byte];
    } else if c < 0x800 {
      TwoBytesAre(c);
      hide Utf8;
    } else if c < 0x10000 {
      ThreeBytesAre(c);
      hide Utf8;
    } else {
      FourBytesAre(c);
      hide Utf8;
    }
  }

  /** Six payload bits of a continuation byte behind the bits before it. */
  function Payload(before: nat, b: byte): nat
    requires Continues(b)
  {
    before * 0x40 + (b as nat - 0x80)
  }

  lemma PayloadSplits(before: nat, b: byte)
    requires Continues(b)
    ensures Payload(before, b) / 0x40 == before && Payload(before, b) % 0x40 == b as nat - 0x80
  {
  }

  /** The scalar value that the bytes of one sequence stand for: the bits of the first behind its mark, then six each. */
  function CodePoint(s: seq<byte>): nat
    requires s != [] && RuneLength(s) == |s|
  {
    if |s| == 1 then s[0] as nat
    else if |s| == 2 then Payload(s[0] as nat - 0xC0, s[1])
    else if |s| == 3 then Payload(Payload(s[0] as nat - 0xE0, s[1]), s[2])
    else Payload(Payload(Payload(s[0] as nat - 0xF0, s[1]), s[2]), s[3])
  }

  lemma CodePointIsScalar(s: seq<byte>)
    requires s != [] && RuneLength(s) == |s|
    ensures IsScalar(CodePoint(s))
  {
  }

  lemma TwoBytesEncode(a: byte, b: byte)
    requires 0xC2 <= a <= 0xDF && Continues(b)
    ensures Utf8(Payload(a as nat - 0xC0, b)) == [a, b]
  {
    PayloadSplits(a as nat - 0xC0, b);
  }

  lemma ThreeBytesEncode(a: byte, b: byte, c: byte)
    requires 0xE0 <= a <= 0xEF && Continues(b) && Continues(c) && (a == 0xE0 ==> 0xA0 <= b)
    ensures Payload(Payload(a as nat - 0xE0, b), c) < 0x110000
    ensures Utf8(Payload(Payload(a as nat - 0xE0, b), c)) == [a, b, c]
  {
    var high := a as nat - 0xE0;
    assert 0x800 <= Payload(Payload(high, b), c) < 0x10000;
    PayloadSplits(high, b);
    PayloadSplits(Payload(high, b), c);
    DivisionsCompose(Payload(Payload(high, b), c));
    hide Payload;
  }

  lemma FourBytesEncode(a: byte, b: byte, c: byte, d: byte)
    requires 0xF0 <= a <= 0xF4 && Continues(b) && Continues(c) && Continues(d)
    requires (a == 0xF0 ==> 0x90 <= b) && (a == 0xF4 ==> b <= 0x8F)
    ensures Payload(Payload(Payload(a as nat - 0xF0, b), c), d) < 0x110000
    ensures Utf8(Payload(Payload(Payload(a as nat - 0xF0, b), c), d)) == [a, b, c, d]
  {
    var high := a as nat - 0xF0;
    var middle := Payload(high, b);
    var low := Payload(middle, c);
    assert 0x10000 <= Payload(low, d) < 0x110000;
    PayloadSplits(high, b);
    PayloadSplits(middle, c);
    PayloadSplits(low, d);
    DivisionsCompose(Payload(low, d));
    hide Payload;
  }

  lemma CodePointEncodes(s: seq<byte>)
    requires s != [] && RuneLength(s) == |s|
    ensures IsScalar(CodePoint(s)) && Utf8(CodePoint(s)) == s
  {
    CodePointIsScalar(s);
    hide Utf8;
    if |s| == 1 {
      AsciiEncodes(s[0]);
    } else if |s| == 2 {
      TwoBytesEncode(s[0], s[1]);
    } else if |s| == 3 {
      ThreeBytesEncode(s[0], s[1], s[2]);
    } else {
      FourBytesEncode(s[0], s[1], s[2], s[3]);
    }
  }

  lemma AsciiEncodes(a: byte)
    requires a < 0x80
    ensures Utf8(a as nat) == [a]
  {
  }

  /** Conversely, what is read as one sequence encodes one scalar value. */
  lemma ReadIsEncoded(s: seq<byte>) returns (c: nat)
    requires s != [] && RuneLength(s) > 0
    ensures IsScalar(c) && s[..RuneLength(s)] == Utf8(c)
  {
    UnitStands(s);
    c := CodePoint(s[..RuneLength(s)]);
    CodePointEncodes(s[..RuneLength(s)]);
  }

  function Utf8Text(scalars: seq<nat>): seq<byte>
    requires forall i :: 0 <= i < |scalars| ==> IsScalar(scalars[i])
  {
    if scalars == [] then [] else assert IsScalar(scalars[0]); Utf8(scalars[0]) + Utf8Text(scalars[1..])
  }

  lemma {:induction false} EncodedTextIsValid(scalars: seq<nat>)
    requires forall i :: 0 <= i < |scalars| ==> IsScalar(scalars[i])
    ensures ValidUtf8(Utf8Text(scalars))
  {
    if scalars != [] {
      var c, rest := scalars[0], Utf8Text(scalars[1..]);
      EncodedIsRead(c, rest);
      EncodedTextIsValid(scalars[1..]);
      assert (Utf8(c) + rest)[|Utf8(c)|..] == rest;
    }
  }

  lemma {:induction false} ValidTextIsEncoded(s: seq<byte>) returns (scalars: seq<nat>)
    requires ValidUtf8(s)
    ensures (forall i :: 0 <= i < |scalars| ==> IsScalar(scalars[i])) && Utf8Text(scalars) == s
    decreases |s|
  {
    scalars := [];
    if s != [] {
      var n := RuneLength(s);
      var c := ReadIsEncoded(s);
      var rest := ValidTextIsEncoded(s[n..]);
      scalars := [c] + rest;
      assert scalars[1..] == rest;
      assert s == s[..n] + s[n..];
    }
  }

  ghost predicate IsText(s: seq<byte>) {
    exists scalars: seq<nat> :: (forall i :: 0 <= i < |scalars| ==> IsScalar(scalars[i])) && s == Utf8Text(scalars)
  }

  /** Well-formed UTF-8 is what encoding scalar values gives, and nothing else. */
  lemma ValidIffText(s: seq<byte>)
    ensures ValidUtf8(s) <==> IsText(s)
  {
    if ValidUtf8(s) {
      var scalars := ValidTextIsEncoded(s);
    }
    if IsText(s) {
      var scalars: seq<nat> :| (forall i :: 0 <= i < |scalars| ==> IsScalar(scalars[i])) && s == Utf8Text(scalars);
      EncodedTextIsValid(scalars);
    }
  }

  // ---------- ASCII ----------

  function Ascii(s: string): seq<byte>
    requires forall i :: 0 <= i < |s| ==> s[i] < '\U{80}'
  {
    seq(|s|, i requires 0 <= i < |s| => s[i] as int as byte)
  }
}
