/**
 The log line codec: JSON strings as section 7 of RFC 8259 has them, written the way Go's encoder writes them,
 and the one object shape that `json.Marshal` makes of a LogEntry.
 */
module WalCodec {
  import opened Sequences
  import opened Bytes

  const QUOTE: byte := 0x22
  const BACKSLASH: byte := 0x5C
  const BRACE: byte := 0x7B
  const NEWLINE: byte := 0x0A
  const RETURN: byte := 0x0D

  /** U+FFFD, which stands for every byte that is not part of well-formed UTF-8. */
  const REPLACEMENT: seq<byte> := [0xEF, 0xBF, 0xBD]

  // ---------- Writing a string ----------

  function HexDigit(n: nat): byte
    requires n < 16
  {
    if n < 10 then (0x30 + n) as byte else (0x57 + n) as byte
  }

  function EscapeAscii(b: byte): seq<byte>
    requires b < 0x80
  {
    if b == QUOTE || b == BACKSLASH then [BACKSLASH, b]
    else if b == 0x08 then [BACKSLASH, 0x62]
    else if b == 0x0C then [BACKSLASH, 0x66]
    else if b == 0x0A then [BACKSLASH, 0x6E]
    else if b == 0x0D then [BACKSLASH, 0x72]
    else if b == 0x09 then [BACKSLASH, 0x74]
    else if b < 0x20 || b == 0x3C || b == 0x3E || b == 0x26 then
      [BACKSLASH, 0x75, 0x30, 0x30, HexDigit(b as int / 16), HexDigit(b as int % 16)]
    else [b]
  }

  /** One unit of a string: escaped, passed through, or replaced when it is a stray byte. */
  function EscapeUnit(u: seq<byte>): seq<byte>
    requires u != []
  {
    if u[0] < 0x80 then EscapeAscii(u[0])
    else if RuneLength(u) == 0 then [BACKSLASH, 0x75, 0x66, 0x66, 0x66, 0x64]
    else if u == [0xE2, 0x80, 0xA8] then [BACKSLASH, 0x75, 0x32, 0x30, 0x32, 0x38]
    else if u == [0xE2, 0x80, 0xA9] then [BACKSLASH, 0x75, 0x32, 0x30, 0x32, 0x39]
    else u
  }

  function Escape(s: seq<byte>): seq<byte> {
    if s == [] then [] else var n := UnitLength(s); EscapeUnit(s[..n]) + Escape(s[n..])
  }

  // ---------- Reading a string ----------

  function HexValue(b: byte): (v: Option<nat>)
    ensures v.Some? ==> v.value < 16
  {
    if 0x30 <= b <= 0x39 then Some(b as int - 0x30)
    else if 0x61 <= b <= 0x66 then Some(b as int - 0x57)
    else if 0x41 <= b <= 0x46 then Some(b as int - 0x37)
    else None
  }

  function Hex4(s: seq<byte>): (v: Option<nat>)
    ensures v.Some? ==> v.value < 0x10000
  {
    if |s| < 4 then None
    else
      match (HexValue(s[0]), HexValue(s[1]), HexValue(s[2]), HexValue(s[3]))
      case (Some(a), Some(b), Some(c), Some(d)) => Some(0x1000 * a + 0x100 * b + 0x10 * c + d)
      case _ => None
  }

  /** What follows a backslash and a `u`: one code point, or a surrogate pair, or half of one. */
  function DecodeHex(s: seq<byte>): (r: Option<(nat, seq<byte>)>)
    requires |s| >= 2
    ensures r.Some? ==> 0 < r.value.0 <= |s|
  {
    match Hex4(s[2..])
    case None => None
    case Some(c) =>
      if c < 0xD800 || 0xE000 <= c then Some((6, Utf8(c)))
      else if c < 0xDC00 && |s| >= 12 && s[6] == BACKSLASH && s[7] == 0x75 && Hex4(s[8..]).Some?
              && 0xDC00 <= Hex4(s[8..]).value < 0xE000 then
        Some((12, Utf8(0x10000 + (c - 0xD800) * 0x400 + (Hex4(s[8..]).value - 0xDC00))))
      else Some((6, REPLACEMENT))
  }

  /** One unit of a JSON string: how many bytes it takes and the text it stands for. */
  function DecodeUnit(s: seq<byte>): (r: Option<(nat, seq<byte>)>)
    requires s != []
    ensures r.Some? ==> 0 < r.value.0 <= |s|
  {
    if s[0] == BACKSLASH then
      if |s| < 2 then None
      else if s[1] == QUOTE || s[1] == BACKSLASH || s[1] == 0x2F then Some((2, [s[1]]))
      else if s[1] == 0x62 then Some((2, [0x08]))
      else if s[1] == 0x66 then Some((2, [0x0C]))
      else if s[1] == 0x6E then Some((2, [0x0A]))
      else if s[1] == 0x72 then Some((2, [0x0D]))
      else if s[1] == 0x74 then Some((2, [0x09]))
      else if s[1] == 0x75 then DecodeHex(s)
      else None
    else if s[0] < 0x20 then None
    else if RuneLength(s) == 0 then Some((1, REPLACEMENT))
    else Some((RuneLength(s), s[..RuneLength(s)]))
  }

  /** The text up to the closing quote, and what follows the quote. */
  function DecodeString(s: seq<byte>): Option<(seq<byte>, seq<byte>)> {
    if s == [] then None
    else if s[0] == QUOTE then Some(([], s[1..]))
    else
      match DecodeUnit(s)
      case None => None
      case Some((n, text)) =>
        match DecodeString(s[n..])
        case None => None
        case Some((tail, rest)) => Some((text + tail, rest))
  }

  // ---------- Strings survive, stray bytes replaced ----------

  function CleanUnit(u: seq<byte>): seq<byte>
    requires u != []
  {
    if RuneLength(u) == 0 then REPLACEMENT else u
  }

  /** The text that comes back: every stray byte has become U+FFFD. */
  function Clean(s: seq<byte>): seq<byte> {
    if s == [] then [] else var n := UnitLength(s); CleanUnit(s[..n]) + Clean(s[n..])
  }

  lemma {:induction false} CleanKeepsLength(s: seq<byte>)
    ensures |s| <= |Clean(s)|
  {
    if s != [] {
      CleanKeepsLength(s[UnitLength(s)..]);
    }
  }

  /** Exactly the well-formed texts come back as they were. */
  lemma {:induction false} CleanIffValid(s: seq<byte>)
    ensures Clean(s) == s <==> ValidUtf8(s)
  {
    if s == [] {
      EmptyIsClean();
    } else {
      CleanStep(s);
      hide RuneLength, UnitLength, Clean, ValidUtf8;
      var n := UnitLength(s);
      var head, tail := s[..n], s[n..];
      CleanIffValid(tail);
      CleanKeepsLength(tail);
      if RuneLength(s) == 0 {
        assert |Clean(s)| == 3 + |Clean(tail)|;
      } else {
        SameFront(head, Clean(tail), tail);
        assert s == head + tail;
      }
    }
  }

  lemma EmptyIsClean()
    ensures Clean([]) == [] && ValidUtf8([])
  {
  }

  lemma CleanStep(s: seq<byte>)
    requires s != []
    ensures var n := UnitLength(s);
            && Clean(s) == (if RuneLength(s) == 0 then REPLACEMENT else s[..n]) + Clean(s[n..])
            && (RuneLength(s) == 0 ==> n == 1)
            && (ValidUtf8(s) <==> RuneLength(s) != 0 && ValidUtf8(s[n..]))
  {
    UnitStands(s);
    hide RuneLength;
  }

  lemma SameFront(front: seq<byte>, a: seq<byte>, b: seq<byte>)
    ensures front + a == front + b <==> a == b
  {
    assert (front + a)[|front|..] == a && (front + b)[|front|..] == b;
  }

  predicate IsUnit(u: seq<byte>) { u != [] && UnitLength(u) == |u| }

  lemma HexRoundTrip(b: byte)
    requires b < 0x80
    ensures Hex4([0x30, 0x30, HexDigit(b as int / 16), HexDigit(b as int % 16)]) == Some(b as int)
  {
    assert HexValue(HexDigit(b as int / 16)) == Some(b as int / 16);
    assert HexValue(HexDigit(b as int % 16)) == Some(b as int % 16);
  }

  lemma UnitDecodes(u: seq<byte>, rest: seq<byte>)
    requires IsUnit(u)
    ensures EscapeUnit(u) != [] && EscapeUnit(u)[0] != QUOTE
    ensures DecodeUnit(EscapeUnit(u) + rest) == Some((|EscapeUnit(u)|, CleanUnit(u)))
  {
    if u[0] < 0x80 {
      AsciiDecodes(u, rest);
    } else if |EscapeUnit(u)| == 6 {
      SpecialDecodes(u, rest);
    } else {
      assert (u + rest)[..|u|] == u;
    }
  }

  lemma AsciiDecodes(u: seq<byte>, rest: seq<byte>)
    requires IsUnit(u) && u[0] < 0x80
    ensures DecodeUnit(EscapeAscii(u[0]) + rest) == Some((|EscapeAscii(u[0])|, u))
  {
    var e := EscapeAscii(u[0]);
    var s := e + rest;
    assert u == [u[0]];
    if |e| == 6 {
      HexRoundTrip(u[0]);
      assert e[2..] == [0x30, 0x30, HexDigit(u[0] as int / 16), HexDigit(u[0] as int % 16)];
      assert Hex4(s[2..]) == Hex4(e[2..]);
      assert Utf8(u[0] as int) == u;
    } else if |e| == 1 {
      assert s[..1] == u;
    }
  }

  lemma SpecialDecodes(u: seq<byte>, rest: seq<byte>)
    requires IsUnit(u) && u[0] >= 0x80 && |EscapeUnit(u)| == 6
    ensures DecodeUnit(EscapeUnit(u) + rest) == Some((6, CleanUnit(u)))
  {
    var e := EscapeUnit(u);
    var s := e + rest;
    SpecialCodePoints();
    assert Hex4(s[2..]) == Hex4(e[2..]);
    assert RuneLength(u) == 0 ==> e[2..] == [0x66, 0x66, 0x66, 0x64];
    assert u == [0xE2, 0x80, 0xA8] ==> e[2..] == [0x32, 0x30, 0x32, 0x38];
    assert u == [0xE2, 0x80, 0xA9] ==> e[2..] == [0x32, 0x30, 0x32, 0x39];
  }

  /** U+FFFD, U+2028 and U+2029, the code points past ASCII that are written as escapes. */
  lemma SpecialCodePoints()
    ensures Hex4([0x66, 0x66, 0x66, 0x64]) == Some(0xFFFD) && Utf8(0xFFFD) == REPLACEMENT
    ensures Hex4([0x32, 0x30, 0x32, 0x38]) == Some(0x2028) && Utf8(0x2028) == [0xE2, 0x80, 0xA8]
    ensures Hex4([0x32, 0x30, 0x32, 0x39]) == Some(0x2029) && Utf8(0x2029) == [0xE2, 0x80, 0xA9]
  {
  }

  lemma {:induction false} StringDecodes(t: seq<byte>, rest: seq<byte>)
    ensures DecodeString(Escape(t) + ([QUOTE] + rest)) == Some((Clean(t), rest))
  {
    hide EscapeUnit, DecodeUnit, CleanUnit, UnitLength, RuneLength;
    var tail := [QUOTE] + rest;
    if t == [] {
      assert Escape(t) + tail == tail;
    } else {
      var n := UnitLength(t);
      var u, e := t[..n], EscapeUnit(t[..n]);
      UnitStands(t);
      UnitDecodes(u, Escape(t[n..]) + tail);
      StringDecodes(t[n..], rest);
      var s := Escape(t) + tail;
      assert s == e + (Escape(t[n..]) + tail);
      assert s[|e|..] == Escape(t[n..]) + tail;
    }
  }

  // ---------- Strings cut short ----------

  /** What can stand after a cut: nothing, or the head of the next entry, a brace and a quote. */
  predicate Follows(g: seq<byte>) {
    g == [] || (|g| >= 2 && g[0] == BRACE && g[1] == QUOTE)
  }

  /** A string cut inside either fails or is closed by the quote in the head of the next entry. */
  predicate FailsOrCloses(s: seq<byte>, g: seq<byte>)
  {
    match DecodeString(s)
    case None => true
    case Some((_, rest)) => |g| >= 2 && rest == g[2..]
  }

  lemma NextHeadCloses(g: seq<byte>)
    requires Follows(g)
    ensures FailsOrCloses(g, g)
  {
    if g != [] {
      assert g[..1] == [BRACE];
      assert DecodeUnit(g) == Some((1, [BRACE]));
      assert g[1..][0] == QUOTE && g[1..][1..] == g[2..];
    }
  }

  /** Bytes past ASCII are taken one unit after the other, never together with what follows them. */
  lemma {:induction false} HighBytesDecode(q: seq<byte>, g: seq<byte>)
    requires forall i :: 0 <= i < |q| ==> q[i] >= 0x80
    requires Follows(g)
    ensures FailsOrCloses(q + g, g)
  {
    if q == [] {
      assert q + g == g;
      NextHeadCloses(g);
    } else {
      var s := q + g;
      assert forall i :: 0 <= i < |s| ==> s[i] == if i < |q| then q[i] else g[i - |q|];
      var n := UnitLength(s);
      assert n <= |q|;
      assert s[n..] == q[n..] + g;
      HighBytesDecode(q[n..], g);
    }
  }

  /** Cutting inside one unit: an escape cut short fails, a character cut short leaves stray bytes. */
  lemma CutUnit(u: seq<byte>, q: seq<byte>, g: seq<byte>)
    requires IsUnit(u) && q != [] && q < EscapeUnit(u) && Follows(g)
    ensures FailsOrCloses(q + g, g)
  {
    var e, s := EscapeUnit(u), q + g;
    assert forall i :: 0 <= i < |s| ==> s[i] == if i < |q| then q[i] else g[i - |q|];
    assert forall i :: 0 <= i < |q| ==> q[i] == e[i];
    if e[0] == BACKSLASH {
      if |q| >= 2 {
        assert |s| >= 6 ==> s[|q|] == BRACE && HexValue(BRACE) == None;
        assert Hex4(s[2..]) == None;
      }
      assert DecodeUnit(s) == None;
    } else {
      HighBytesDecode(q, g);
    }
  }

  lemma ClosesAfterUnit(u: seq<byte>, rest: seq<byte>, g: seq<byte>)
    requires IsUnit(u) && FailsOrCloses(rest, g)
    ensures FailsOrCloses(EscapeUnit(u) + rest, g)
  {
    UnitDecodes(u, rest);
    hide EscapeUnit, DecodeUnit, CleanUnit;
    assert (EscapeUnit(u) + rest)[|EscapeUnit(u)|..] == rest;
  }

  lemma {:induction false} CutString(t: seq<byte>, q: seq<byte>, g: seq<byte>)
    requires q <= Escape(t) && Follows(g)
    ensures FailsOrCloses(q + g, g)
  {
    hide EscapeUnit, UnitLength, RuneLength, FailsOrCloses;
    if q == [] {
      assert q + g == g;
      NextHeadCloses(g);
    } else {
      var n := UnitLength(t);
      var u, e := t[..n], EscapeUnit(t[..n]);
      UnitStands(t);
      if |q| < |e| {
        assert q < e;
        CutUnit(u, q, g);
      } else {
        var q' := q[|e|..];
        assert q' <= Escape(t[n..]);
        CutString(t[n..], q', g);
        ClosesAfterUnit(u, q' + g, g);
        assert q + g == e + (q' + g);
      }
    }
  }

  // ---------- The object: literals with a string after each but the last ----------

  function Encoded(literals: seq<seq<byte>>, texts: seq<seq<byte>>): seq<byte>
    requires |literals| == |texts| + 1
  {
    if texts == [] then literals[0]
    else literals[0] + (Escape(texts[0]) + ([QUOTE] + Encoded(literals[1..], texts[1..])))
  }

  function Decoded(literals: seq<seq<byte>>, s: seq<byte>): (r: Option<seq<seq<byte>>>)
    requires literals != []
    ensures r.Some? ==> |r.value| == |literals| - 1
  {
    var head := literals[0];
    if |literals| == 1 then if s == head then Some([]) else None
    else if !(head <= s) then None
    else
      match DecodeString(s[|head|..])
      case None => None
      case Some((text, rest)) =>
        match Decoded(literals[1..], rest)
        case None => None
        case Some(texts) => Some([text] + texts)
  }

  function CleanAll(texts: seq<seq<byte>>): seq<seq<byte>> {
    seq(|texts|, i requires 0 <= i < |texts| => Clean(texts[i]))
  }

  lemma {:induction false} EncodedDecodes(literals: seq<seq<byte>>, texts: seq<seq<byte>>)
    requires |literals| == |texts| + 1
    ensures Decoded(literals, Encoded(literals, texts)) == Some(CleanAll(texts))
  {
    if texts == [] {
      assert CleanAll(texts) == [];
    } else {
      var rest := Encoded(literals[1..], texts[1..]);
      var s := Encoded(literals, texts);
      StringDecodes(texts[0], rest);
      EncodedDecodes(literals[1..], texts[1..]);
      assert s[|literals[0]|..] == Escape(texts[0]) + ([QUOTE] + rest);
      assert CleanAll(texts) == [Clean(texts[0])] + CleanAll(texts[1..]);
    }
  }

  /** The only brace that opens is the first byte, and no later literal can be mistaken for the next entry's `type`. */
  predicate Distinct(literals: seq<seq<byte>>) {
    && (forall i :: 0 <= i < |literals| ==> literals[i] != [])
    && (forall i, j :: 0 <= i < |literals| && 0 <= j < |literals[i]| && literals[i][j] == BRACE ==> i == j == 0)
    && (forall i :: 0 <= i < |literals| ==> literals[i][0] != 0x74)
  }

  /** The head of another entry: a brace, a quote and the t of `type`. */
  predicate IsNextEntry(g: seq<byte>) { |g| >= 3 && g[0] == BRACE && g[1] == QUOTE && g[2] == 0x74 }

  /**
   Neither a proper part of an encoded object, nor any nonempty part of one with another entry glued to it,
   decodes.
   */
  lemma {:induction false} CutObjectFails(literals: seq<seq<byte>>, texts: seq<seq<byte>>, f: seq<byte>, g: seq<byte>)
    requires |literals| == |texts| + 1 && Distinct(literals)
    requires f <= Encoded(literals, texts)
    requires if g == [] then f != Encoded(literals, texts) else IsNextEntry(g) && (f != [] || literals[0][0] != BRACE)
    ensures Decoded(literals, f + g) == None
  {
    hide Escape, DecodeString, Clean;
    var head := literals[0];
    var s := f + g;
    assert g != [] ==> s[|f|] == BRACE;
    if |literals| == 1 {
      assert g == [] ==> s == f;
    } else if |f| < |head| {
      assert !(head <= s);
    } else {
      var e := Escape(texts[0]);
      var f' := f[|head|..];
      assert f' <= e + ([QUOTE] + Encoded(literals[1..], texts[1..]));
      assert s[|head|..] == f' + g;
      if |f'| <= |e| {
        assert f' <= e;
        CutString(texts[0], f', g);
        if g != [] {
          NotNext(literals[1..], g[2..]);
        }
      } else {
        var f'' := f'[|e| + 1..];
        assert f' == e + ([QUOTE] + f'');
        assert f' + g == e + ([QUOTE] + (f'' + g));
        StringDecodes(texts[0], f'' + g);
        CutObjectFails(literals[1..], texts[1..], f'', g);
      }
    }
  }

  lemma NotNext(literals: seq<seq<byte>>, s: seq<byte>)
    requires literals != [] && literals[0] != [] && literals[0][0] != 0x74
    requires s != [] && s[0] == 0x74
    ensures Decoded(literals, s) == None
  {
  }

  // ---------- Log entries ----------

  datatype LogEntry = LogEntry(typ: seq<byte>, key: seq<byte>, value: seq<byte>)

  /** The bytes  {"type":"  then  ,"key":"  then  ,"value":"  then  }  */
  const SHAPE: seq<seq<byte>> := [
    [0x7B, 0x22, 0x74, 0x79, 0x70, 0x65, 0x22, 0x3A, 0x22],
    [0x2C, 0x22, 0x6B, 0x65, 0x79, 0x22, 0x3A, 0x22],
    [0x2C, 0x22, 0x76, 0x61, 0x6C, 0x75, 0x65, 0x22, 0x3A, 0x22],
    [0x7D]
  ]

  function Marshal(e: LogEntry): seq<byte> {
    Encoded(SHAPE, [e.typ, e.key, e.value])
  }

  function Unmarshal(line: seq<byte>): Option<LogEntry> {
    match Decoded(SHAPE, line)
    case None => None
    case Some(texts) => Some(LogEntry(texts[0], texts[1], texts[2]))
  }

  lemma MarshalRoundTrip(e: LogEntry)
    ensures Unmarshal(Marshal(e)) == Some(LogEntry(Clean(e.typ), Clean(e.key), Clean(e.value)))
  {
    EncodedDecodes(SHAPE, [e.typ, e.key, e.value]);
  }

  /** The head of every entry, and no newline or carriage return inside it. */
  lemma MarshalShape(e: LogEntry)
    ensures IsNextEntry(Marshal(e)) && NEWLINE !in Marshal(e) && RETURN !in Marshal(e)
  {
    hide Escape;
    forall i | 0 <= i < 4
      ensures NEWLINE !in SHAPE[i] && RETURN !in SHAPE[i]
    {
    }
    EncodedHasNoControl(SHAPE, [e.typ, e.key, e.value]);
    assert SHAPE[0] <= Marshal(e);
  }

  lemma {:induction false} EncodedHasNoControl(literals: seq<seq<byte>>, texts: seq<seq<byte>>)
    requires |literals| == |texts| + 1
    requires forall i :: 0 <= i < |literals| ==> NEWLINE !in literals[i] && RETURN !in literals[i]
    ensures NEWLINE !in Encoded(literals, texts) && RETURN !in Encoded(literals, texts)
  {
    if texts != [] {
      EscapedHasNoControl(texts[0]);
      EncodedHasNoControl(literals[1..], texts[1..]);
    }
  }

  /** An escaped string holds no control character at all, so no entry is split over two lines. */
  lemma {:induction false} EscapedHasNoControl(s: seq<byte>)
    ensures forall i :: 0 <= i < |Escape(s)| ==> Escape(s)[i] >= 0x20
  {
    if s != [] {
      var n := UnitLength(s);
      UnitStands(s);
      EscapedHasNoControl(s[n..]);
      UnitHasNoControl(s[..n]);
      hide EscapeUnit;
    }
  }

  lemma UnitHasNoControl(u: seq<byte>)
    requires IsUnit(u)
    ensures forall i :: 0 <= i < |EscapeUnit(u)| ==> EscapeUnit(u)[i] >= 0x20
  {
  }

  /** No proper prefix of an entry decodes. */
  lemma TornEntryFails(e: LogEntry, f: seq<byte>)
    requires f <= Marshal(e) && f != Marshal(e)
    ensures Unmarshal(f) == None
  {
    ShapeIsDistinct();
    assert f + [] == f;
    CutObjectFails(SHAPE, [e.typ, e.key, e.value], f, []);
  }

  /** A nonempty prefix of an entry, or a whole one, with another entry glued to it does not decode. */
  lemma GluedEntryFails(e: LogEntry, f: seq<byte>, e': LogEntry)
    requires f != [] && f <= Marshal(e)
    ensures Unmarshal(f + Marshal(e')) == None
  {
    ShapeIsDistinct();
    MarshalShape(e');
    CutObjectFails(SHAPE, [e.typ, e.key, e.value], f, Marshal(e'));
  }

  lemma ShapeIsDistinct()
    ensures Distinct(SHAPE)
  {
  }

  // ---------- What an entry looks like ----------

  /** The entry, character for character. */
  lemma MarshalText(e: LogEntry)
    ensures Marshal(e) ==
            Ascii("{\"type\":\"") + (Escape(e.typ) + (Ascii("\",\"key\":\"") + (Escape(e.key) +
            (Ascii("\",\"value\":\"") + (Escape(e.value) + Ascii("\"}"))))))
  {
    assert [QUOTE] + SHAPE[1] == Ascii("\",\"key\":\"");
    assert [QUOTE] + SHAPE[2] == Ascii("\",\"value\":\"");
    assert [QUOTE] + SHAPE[3] == Ascii("\"}");
    assert SHAPE[0] == Ascii("{\"type\":\"");
    hide Escape, Ascii;
    EncodedStep(SHAPE, [e.typ, e.key, e.value]);
    EncodedStep(SHAPE[1..], [e.key, e.value]);
    EncodedStep(SHAPE[2..], [e.value]);
    Associative([QUOTE], SHAPE[1], Escape(e.key) + ([QUOTE] + Encoded(SHAPE[2..], [e.value])));
    Associative([QUOTE], SHAPE[2], Escape(e.value) + ([QUOTE] + Encoded(SHAPE[3..], [])));
  }

  lemma EncodedStep(literals: seq<seq<byte>>, texts: seq<seq<byte>>)
    requires |literals| == |texts| + 1 && texts != []
    ensures Encoded(literals, texts) == literals[0] + (Escape(texts[0]) + ([QUOTE] + Encoded(literals[1..], texts[1..])))
  {
  }

  /** Six bytes for a character of HTML or a control without a letter of its own, two for the other escapes, one for the rest. */
  lemma EscapedAsciiLength(b: byte)
    requires b < 0x80
    ensures |EscapeAscii(b)| ==
            if b in Ascii("\"\\\n\r\t") || b == 0x08 || b == 0x0C then 2
            else if b < 0x20 || b in Ascii("<>&") then 6
            else 1
    ensures |EscapeAscii(b)| == 1 ==> EscapeAscii(b) == [b]
  {
    assert Ascii("\"\\\n\r\t") == [0x22, 0x5C, 0x0A, 0x0D, 0x09];
    assert Ascii("<>&") == [0x3C, 0x3E, 0x26];
  }

  /** Escaping makes a text at most six times as long, and never shorter. */
  lemma {:induction false} EscapedLength(s: seq<byte>)
    ensures |s| <= |Escape(s)| <= 6 * |s|
  {
    if s != [] {
      var n := UnitLength(s);
      UnitStands(s);
      EscapedLength(s[n..]);
      UnitEscapedLength(s[..n]);
    }
  }

  lemma UnitEscapedLength(u: seq<byte>)
    requires IsUnit(u)
    ensures |u| <= |EscapeUnit(u)| <= 6 * |u|
  {
  }

  /** ASCII that needs no escape is written as it is. */
  lemma {:induction false} PlainTextIsKept(s: seq<byte>)
    requires forall i :: 0 <= i < |s| ==> 0x20 <= s[i] < 0x80 && s[i] !in Ascii("\"\\<>&")
    ensures Escape(s) == s
  {
    if s != [] {
      assert Ascii("\"\\<>&") == [0x22, 0x5C, 0x3C, 0x3E, 0x26];
      PlainTextIsKept(s[1..]);
      assert s[..1] == [s[0]] && EscapeUnit(s[..1]) == [s[0]];
    }
  }

  /** Past ASCII only the two line separators are escaped; every other character is written as it is. */
  lemma CharacterIsKept(c: nat, rest: seq<byte>)
    requires IsScalar(c) && c >= 0x80
    ensures Escape(Utf8(c) + rest) ==
            (if c == 0x2028 then Ascii("\\u2028") else if c == 0x2029 then Ascii("\\u2029") else Utf8(c)) + Escape(rest)
    ensures Clean(Utf8(c) + rest) == Utf8(c) + Clean(rest)
  {
    var s := Utf8(c) + rest;
    EncodedIsRead(c, rest);
    EncodedIsRead(c, []);
    assert Utf8(c) + [] == Utf8(c);
    assert s[..|Utf8(c)|] == Utf8(c) && s[|Utf8(c)|..] == rest;
    assert Ascii("\\u2028") == [BACKSLASH, 0x75, 0x32, 0x30, 0x32, 0x38];
    assert Ascii("\\u2029") == [BACKSLASH, 0x75, 0x32, 0x30, 0x32, 0x39];
    SeparatorsEncoded(c);
  }

  lemma SeparatorsEncoded(c: nat)
    requires IsScalar(c)
    ensures Utf8(c) == [0xE2, 0x80, 0xA8] <==> c == 0x2028
    ensures Utf8(c) == [0xE2, 0x80, 0xA9] <==> c == 0x2029
  {
    EncodedIsRead(c, []);
    assert Utf8(c) + [] == Utf8(c);
    hide RuneLength;
    if 0x800 <= c < 0x10000 {
      var high, middle, low := c / 0x1000, c / 0x40 % 0x40, c % 0x40;
      DivisionsCompose(c);
      assert c == 0x40 * (0x40 * high + middle) + low;
    }
  }

  /** A byte that starts no character is written, and comes back, as U+FFFD. */
  lemma StrayByteIsReplaced(b: byte, rest: seq<byte>)
    requires RuneLength([b] + rest) == 0
    ensures Escape([b] + rest) == Ascii("\\ufffd") + Escape(rest)
    ensures Clean([b] + rest) == Utf8(0xFFFD) + Clean(rest)
  {
    SpecialCodePoints();
    var s := [b] + rest;
    UnitStands(s);
    assert s[..1] == [b] && s[1..] == rest;
    assert Ascii("\\ufffd") == [BACKSLASH, 0x75, 0x66, 0x66, 0x66, 0x64];
  }

  // ---------- What the decoder makes of an escape ----------

  /** The escapes of one letter, any other letter after a backslash, and a control character, which a string may not hold. */
  lemma LetterEscapes(b: byte, rest: seq<byte>)
    ensures b != 0x75 ==>
              DecodeUnit([0x5C, b] + rest) ==
              if b in Ascii("\"\\/") then Some((2, [b]))
              else if b in Ascii("b") then Some((2, [0x08]))
              else if b in Ascii("f") then Some((2, [0x0C]))
              else if b in Ascii("n") then Some((2, [0x0A]))
              else if b in Ascii("r") then Some((2, [0x0D]))
              else if b in Ascii("t") then Some((2, [0x09]))
              else None
    ensures b < 0x20 ==> DecodeUnit([b] + rest) == None
    ensures DecodeUnit([0x5C]) == None
  {
    assert Ascii("\"\\/") == [0x22, 0x5C, 0x2F];
    assert Ascii("b") == [0x62] && Ascii("f") == [0x66] && Ascii("n") == [0x6E];
    assert Ascii("r") == [0x72] && Ascii("t") == [0x74];
  }

  /** The four digits of a code unit, of either case. */
  predicate AreDigitsOf(digits: seq<byte>, unit: nat)
    requires unit < 0x10000
  {
    && |digits| == 4
    && IsDigitOf(digits[0], unit / 0x1000) && IsDigitOf(digits[1], unit / 0x100 % 0x10)
    && IsDigitOf(digits[2], unit / 0x10 % 0x10) && IsDigitOf(digits[3], unit % 0x10)
  }

  predicate IsDigitOf(b: byte, n: nat)
    requires n < 16
  {
    b == Ascii("0123456789abcdef")[n] || b == Ascii("0123456789ABCDEF")[n]
  }

  lemma DigitIsRead(b: byte, n: nat)
    requires n < 16 && IsDigitOf(b, n)
    ensures HexValue(b) == Some(n)
  {
    var lower, upper := Ascii("0123456789abcdef"), Ascii("0123456789ABCDEF");
    assert lower[n] as int == if n < 10 then 0x30 + n else 0x57 + n;
    assert upper[n] as int == if n < 10 then 0x30 + n else 0x37 + n;
  }

  lemma HexPlaces(unit: nat)
    ensures unit / 0x1000 == unit / 0x10 / 0x10 / 0x10 && unit / 0x100 == unit / 0x10 / 0x10
    ensures unit == 0x1000 * (unit / 0x1000) + 0x100 * (unit / 0x100 % 0x10) + 0x10 * (unit / 0x10 % 0x10) + unit % 0x10
  {
    var a := unit / 0x10;
    var b := a / 0x10;
    assert unit == 0x10 * a + unit % 0x10 && a == 0x10 * b + a % 0x10 && b == 0x10 * (b / 0x10) + b % 0x10;
    assert unit / 0x100 == b && unit / 0x1000 == b / 0x10;
  }

  lemma DigitsAreRead(digits: seq<byte>, unit: nat, rest: seq<byte>)
    requires unit < 0x10000 && AreDigitsOf(digits, unit)
    ensures Hex4(digits + rest) == Some(unit)
  {
    HexPlaces(unit);
    assert unit / 0x1000 < 16;
    hide IsDigitOf, HexValue;
    DigitIsRead(digits[0], unit / 0x1000);
    DigitIsRead(digits[1], unit / 0x100 % 0x10);
    DigitIsRead(digits[2], unit / 0x10 % 0x10);
    DigitIsRead(digits[3], unit % 0x10);
  }

  /** The shape of an escaped code unit, and of what its decoder looks at behind it. */
  lemma EscapeLayout(digits: seq<byte>, rest: seq<byte>)
    requires |digits| == 4
    ensures var s := Ascii("\\u") + digits + rest;
            && s[0] == BACKSLASH && s[1] == 0x75 && |s| == 6 + |rest|
            && s[2..] == digits + rest && s[6..] == rest
  {
    assert Ascii("\\u") == [0x5C, 0x75];
  }

  lemma DigitsAreFour(digits: seq<byte>, unit: nat)
    requires unit < 0x10000 && AreDigitsOf(digits, unit)
    ensures |digits| == 4
  {
  }

  /** A code unit that is not a surrogate stands for itself, and half a pair for U+FFFD unless an escape follows. */
  lemma CodeUnitEscape(digits: seq<byte>, unit: nat, rest: seq<byte>)
    requires unit < 0x10000 && AreDigitsOf(digits, unit)
    requires rest == [] || rest[0] != 0x5C
    ensures DecodeUnit(Ascii("\\u") + digits + rest) == Some((6, if IsScalar(unit) then Utf8(unit) else Utf8(0xFFFD)))
  {
    DigitsAreFour(digits, unit);
    DigitsAreRead(digits, unit, rest);
    SpecialCodePoints();
    EscapeLayout(digits, rest);
    hide AreDigitsOf, Hex4, Utf8, Ascii, RuneLength;
    var s := Ascii("\\u") + digits + rest;
    assert rest != [] ==> s[6] == s[6..][0];
    assert DecodeUnit(s) == DecodeHex(s);
  }

  /** Two halves, the high one first, stand for the character they make. */
  lemma SurrogatePairEscape(high: seq<byte>, low: seq<byte>, c: nat, rest: seq<byte>)
    requires 0x10000 <= c < 0x110000
    requires AreDigitsOf(high, 0xD800 + (c - 0x10000) / 0x400) && AreDigitsOf(low, 0xDC00 + (c - 0x10000) % 0x400)
    ensures DecodeUnit(Ascii("\\u") + high + (Ascii("\\u") + low + rest)) == Some((12, Utf8(c)))
  {
    var a, b := 0xD800 + (c - 0x10000) / 0x400, 0xDC00 + (c - 0x10000) % 0x400;
    assert 0x10000 + (a - 0xD800) * 0x400 + (b - 0xDC00) == c;
    EscapeBeforeEscape(high, low, a, b, rest);
  }

  /** A high half before an escape that is not a low one stands for U+FFFD, and the other is read by itself. */
  lemma LoneHighSurrogate(high: seq<byte>, next: seq<byte>, a: nat, b: nat, rest: seq<byte>)
    requires 0xD800 <= a < 0xDC00 && b < 0x10000 && !(0xDC00 <= b < 0xE000)
    requires AreDigitsOf(high, a) && AreDigitsOf(next, b)
    ensures DecodeUnit(Ascii("\\u") + high + (Ascii("\\u") + next + rest)) == Some((6, Utf8(0xFFFD)))
  {
    EscapeBeforeEscape(high, next, a, b, rest);
  }

  lemma EscapeBeforeEscape(high: seq<byte>, next: seq<byte>, a: nat, b: nat, rest: seq<byte>)
    requires 0xD800 <= a < 0xDC00 && b < 0x10000 && AreDigitsOf(high, a) && AreDigitsOf(next, b)
    ensures DecodeUnit(Ascii("\\u") + high + (Ascii("\\u") + next + rest)) ==
            if 0xDC00 <= b < 0xE000 then Some((12, Utf8(0x10000 + (a - 0xD800) * 0x400 + (b - 0xDC00))))
            else Some((6, Utf8(0xFFFD)))
  {
    DigitsAreFour(high, a);
    DigitsAreFour(next, b);
    var later := Ascii("\\u") + next + rest;
    DigitsAreRead(high, a, later);
    DigitsAreRead(next, b, rest);
    SpecialCodePoints();
    EscapeLayout(high, later);
    EscapeLayout(next, rest);
    hide AreDigitsOf, Hex4, Utf8, Ascii, RuneLength;
    var s := Ascii("\\u") + high + later;
    assert s[6] == s[6..][0] && s[7] == s[6..][1] && s[8..] == s[6..][2..];
    assert DecodeUnit(s) == DecodeHex(s);
  }
}
