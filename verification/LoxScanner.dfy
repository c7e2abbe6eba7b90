/** The scanner object of the source: fields, loops and the switch, proved against `LoxTokens`. */
module LoxScanner {
  import opened Sequences
  import opened LoxGrammar
  import opened LoxTokens

  /** The piece that starts at position `start`. */
  function PieceAt(src: string, start: nat): (p: Piece)
    requires start < |src|
    ensures 0 < |p.text| <= |src| - start && p.text == src[start..start + |p.text|]
  {
    var (n, k) := Next(src[start..]);
    Piece(src[start..start + n], k)
  }

  /** One round of scanTokens at position `i`: the piece there, then the pieces of what is left. */
  lemma PiecesStep(src: string, i: nat, line: nat)
    requires i < |src|
    ensures var p := PieceAt(src, i); var end := line + Newlines(p.text); var rest := src[i + |p.text|..];
            && TokensOf(Pieces(src[i..]), line) == TokenFor(p, end) + TokensOf(Pieces(rest), end)
            && ErrorsOf(Pieces(src[i..]), line) == ErrorFor(p, end) + ErrorsOf(Pieces(rest), end)
            && line + Newlines(src[i..]) == end + Newlines(rest)
  {
    hide Next, Count, TokenFor, ErrorFor;
    var s := src[i..];
    var p := PieceAt(src, i);
    assert s[..|p.text|] == p.text && s[|p.text|..] == src[i + |p.text|..];
    assert Pieces(s)[0] == p && Pieces(s)[1..] == Pieces(s[|p.text|..]);
    assert Newlines(s) == Newlines(p.text) + Newlines(s[|p.text|..]) by {
      CountAppend(p.text, s[|p.text|..], '\n');
      assert s == p.text + s[|p.text|..];
    }
  }

  lemma NothingLeft(line: nat)
    ensures TokensOf(Pieces([]), line) == [] && ErrorsOf(Pieces([]), line) == [] && Newlines([]) == 0
  {
  }

  // What the object's loops establish about positions, said of `PieceAt`.

  lemma WordAt(src: string, start: nat, end: nat)
    requires start < end <= |src| && IsAlpha(src[start])
    requires forall i :: start <= i < end ==> IsAlphaNumeric(src[i])
    requires end < |src| ==> !IsAlphaNumeric(src[end])
    ensures PieceAt(src, start) == Piece(src[start..end], WordKind(src[start..end]))
    ensures Newlines(src[start..end]) == 0
  {
    hide Keyword, WordKind, Count;
    CountAbsent(src[start..end], '\n');
    SpanIs(src[start..], IsAlphaNumeric, end - start);
    assert src[start..][..end - start] == src[start..end];
  }

  lemma WordToken(text: string, line: nat)
    ensures TokenFor(Piece(text, WordKind(text)), line) ==
              [Token(match Keyword(text) case Some(t) => t case None => Identifier, text, NoLiteral, line)]
    ensures ErrorFor(Piece(text, WordKind(text)), line) == []
  {
  }

  /** `dot` is where the first run of digits ends, `end` where the number does. */
  lemma NumberLengthAt(src: string, start: nat, dot: nat, end: nat)
    requires start < dot <= end <= |src|
    requires forall i :: start <= i < dot ==> IsDigit(src[i])
    requires dot < |src| ==> !IsDigit(src[dot])
    requires if dot + 1 < |src| && src[dot] == '.' && IsDigit(src[dot + 1])
             then dot < end && (forall i :: dot < i < end ==> IsDigit(src[i])) && (end < |src| ==> !IsDigit(src[end]))
             else end == dot
    ensures NumberLength(src[start..]) == end - start
  {
    var s, d := src[start..], dot - start;
    SpanIs(s, IsDigit, d);
    if dot < end {
      assert s[d + 1..] == src[dot + 1..];
      SpanIs(src[dot + 1..], IsDigit, end - dot - 1);
    }
  }

  lemma NumberAt(src: string, start: nat, end: nat, line: nat)
    requires start < end <= |src| && IsDigit(src[start]) && NumberLength(src[start..]) == end - start
    requires forall i :: start <= i < end ==> src[i] != '\n'
    ensures var p := PieceAt(src, start);
            && |p.text| == end - start && Newlines(p.text) == 0 && ErrorFor(p, line) == []
            && TokenFor(p, line) == [Token(Number, src[start..end], Numeral(src[start..end]), line)]
  {
    hide NumberLength;
    CountAbsent(src[start..end], '\n');
  }

  /** `quote` is where the closing quote stands, or the end of the text. */
  lemma StringAt(src: string, start: nat, quote: nat, line: nat)
    requires start < quote <= |src| && src[start] == '"'
    requires forall i :: start < i < quote ==> src[i] != '"'
    requires quote < |src| ==> src[quote] == '"'
    ensures var p := PieceAt(src, start);
            && Newlines(p.text) == Newlines(src[start + 1..quote])
            && if quote == |src|
               then |p.text| == quote - start && TokenFor(p, line) == [] && ErrorFor(p, line) == [UnterminatedString(line)]
               else && |p.text| == quote + 1 - start && ErrorFor(p, line) == []
                    && TokenFor(p, line) == [Token(String, src[start..quote + 1], Text(src[start + 1..quote]), line)]
  {
    hide Count;
    assert src[start..][1..] == src[start + 1..];
    SpanIs(src[start + 1..], x => x != '"', quote - start - 1);
    QuotedNewlines(src, start, quote);
    if quote < |src| {
      SliceOfSlice(src, start, quote + 1, 1, quote - start);
    }
  }

  lemma QuotedNewlines(src: string, start: nat, quote: nat)
    requires start < quote <= |src| && src[start] == '"'
    ensures Newlines(src[start..quote]) == Newlines(src[start + 1..quote])
    ensures quote < |src| && src[quote] == '"' ==> Newlines(src[start..quote + 1]) == Newlines(src[start + 1..quote])
  {
    assert src[start..quote][1..] == src[start + 1..quote];
    if quote < |src| {
      CountSnoc(src, start, quote, '\n');
    }
  }

  lemma CommentAt(src: string, start: nat, end: nat)
    requires start + 2 <= end <= |src| && src[start] == '/' && src[start + 1] == '/'
    requires forall i :: start <= i < end ==> src[i] != '\n'
    requires end < |src| ==> src[end] == '\n'
    ensures PieceAt(src, start) == Piece(src[start..end], Comment)
    ensures Newlines(src[start..end]) == 0
  {
    assert src[start..][2..] == src[start + 2..];
    SpanIs(src[start + 2..], x => x != '\n', end - start - 2);
    CountAbsent(src[start..end], '\n');
  }

  /** The operator at the head of a text, and its length; blanks and characters that start nothing have none. */
  function OperatorAt(src: string, start: nat): (r: (Option<TokenType>, nat))
    requires start < |src|
  {
    var c := src[start];
    if WithEqual(c).Some? && start + 1 < |src| && src[start + 1] == '=' then (WithEqual(c), 2) else (OneCharacter(c), 1)
  }

  /** The one- and two-character pieces: operators, blanks and characters that start nothing. */
  lemma ShortAt(src: string, start: nat, line: nat)
    requires start < |src| && !IsAlphaNumeric(src[start]) && src[start] != '"'
    requires !(start + 1 < |src| && src[start] == '/' && src[start + 1] == '/')
    ensures var p := PieceAt(src, start); var (t, n) := OperatorAt(src, start);
            && |p.text| == n
            && Newlines(p.text) == (if src[start] == '\n' then 1 else 0)
            && TokenFor(p, line) == (if t.Some? then [Token(t.value, src[start..start + n], NoLiteral, line)] else [])
            && ErrorFor(p, line) == (if t.None? && !IsBlank(src[start]) then [UnexpectedCharacter(line)] else [])
  {
    var p := PieceAt(src, start);
    assert |p.text| == 2 ==> src[start + 1] == '=';
    if src[start] == '\n' {
      CountOne('\n');
      assert p.text == ['\n'];
    } else {
      CountAbsent(p.text, '\n');
    }
  }

  // ---------- The scanner object ----------

  class Scanner {
    const source: string
    var tokens: seq<Token>
    var start: nat
    var current: nat
    var line: nat
    var errors: seq<Error>  // what was handed to Lox.error, in order

    predicate Valid()
      reads this
    {
      start <= current <= |source|
    }

    /** The unread part of the source. */
    function Rest(): string
      requires Valid()
      reads this
    {
      source[current..]
    }

    constructor (source: string)
      ensures Valid() && this.source == source
      ensures start == current == 0 && line == 1 && tokens == [] && errors == []
    {
      this.source := source;
      tokens, errors := [], [];
      start, current, line := 0, 0, 1;
    }

    predicate IsAtEnd()
      reads this
    {
      current >= |source|
    }

    function Peek(): char
      reads this
    {
      if IsAtEnd() then '\0' else source[current]
    }

    function PeekNext(): char
      reads this
    {
      if current + 1 >= |source| then '\0' else source[current + 1]
    }

    method Advance() returns (c: char)
      requires Valid() && !IsAtEnd()
      modifies this`current
      ensures Valid() && current == old(current) + 1 && c == source[old(current)]
    {
      current := current + 1;
      c := source[current - 1];
    }

    method Match(expected: char) returns (matched: bool)
      requires Valid()
      modifies this`current
      ensures Valid()
      ensures matched <==> old(current) < |source| && source[old(current)] == expected
      ensures current == if matched then old(current) + 1 else old(current)
    {
      if IsAtEnd() {
        return false;
      }
      if source[current] != expected {
        return false;
      }
      current := current + 1;
      return true;
    }

    method AddToken(typ: TokenType, literal: Literal)
      requires Valid()
      modifies this`tokens
      ensures tokens == old(tokens) + [Token(typ, source[start..current], literal, line)]
    {
      tokens := tokens + [Token(typ, source[start..current], literal, line)];
    }

    method ScanIdentifier()
      requires Valid() && current == start + 1 && IsAlpha(source[start])
      modifies this`current, this`tokens
      ensures Valid()
      ensures var p := PieceAt(source, start);
              && current == start + |p.text|
              && tokens == old(tokens) + TokenFor(p, line)
              && ErrorFor(p, line) == [] && Newlines(p.text) == 0
    {
      hide PieceAt, Keyword, TokenFor, WordKind;
      while IsAlphaNumeric(Peek())
        invariant start < current <= |source|
        invariant forall i :: start <= i < current ==> IsAlphaNumeric(source[i])
        invariant tokens == old(tokens)
        decreases |source| - current
      {
        var _ := Advance();
      }
      WordAt(source, start, current);
      var text := source[start..current];
      WordToken(text, line);
      var typ := match Keyword(text) case Some(t) => t case None => Identifier;
      AddToken(typ, NoLiteral);
    }

    method SkipDigits()
      requires Valid()
      modifies this`current
      ensures Valid() && old(current) <= current
      ensures forall i :: old(current) <= i < current ==> IsDigit(source[i])
      ensures current < |source| ==> !IsDigit(source[current])
    {
      while IsDigit(Peek())
        invariant old(current) <= current <= |source|
        invariant forall i :: old(current) <= i < current ==> IsDigit(source[i])
        decreases |source| - current
      {
        var _ := Advance();
      }
    }

    method ScanNumber()
      requires Valid() && current == start + 1 && IsDigit(source[start])
      modifies this`current, this`tokens
      ensures Valid()
      ensures var p := PieceAt(source, start);
              && current == start + |p.text|
              && tokens == old(tokens) + TokenFor(p, line)
              && ErrorFor(p, line) == [] && Newlines(p.text) == 0
    {
      hide PieceAt, TokenFor, ErrorFor, NumberLength;
      SkipDigits();
      ghost var dot := current;
      if Peek() == '.' && IsDigit(PeekNext()) {
        var _ := Advance();
        SkipDigits();
      }
      NumberLengthAt(source, start, dot, current);
      NumberAt(source, start, current, line);
      AddToken(Number, Numeral(source[start..current]));
    }

    method ScanString()
      requires Valid() && current == start + 1 && source[start] == '"'
      modifies this`current, this`line, this`tokens, this`errors
      ensures Valid()
      ensures var p := PieceAt(source, start);
              && current == start + |p.text|
              && line == old(line) + Newlines(p.text)
              && tokens == old(tokens) + TokenFor(p, line)
              && errors == old(errors) + ErrorFor(p, line)
    {
      hide PieceAt, Count, TokenFor, ErrorFor;
      assert Count(source[start + 1..current], '\n') == 0 by {
        CountAbsent(source[start + 1..current], '\n');
      }
      while Peek() != '"' && !IsAtEnd()
        invariant start < current <= |source|
        invariant forall i :: start < i < current ==> source[i] != '"'
        invariant line == old(line) + Newlines(source[start + 1..current])
        invariant tokens == old(tokens) && errors == old(errors)
        decreases |source| - current
      {
        CountSnoc(source, start + 1, current, '\n');
        if Peek() == '\n' {
          line := line + 1;
        }
        var _ := Advance();
      }
      StringAt(source, start, current, line);
      if IsAtEnd() {
        errors := errors + [UnterminatedString(line)];
        return;
      }
      var _ := Advance();
      AddToken(String, Text(source[start + 1..current - 1]));
    }

    method SkipComment()
      requires Valid() && current == start + 2 && source[start] == '/' && source[start + 1] == '/'
      modifies this`current
      ensures Valid()
      ensures var p := PieceAt(source, start);
              current == start + |p.text| && Newlines(p.text) == 0 && TokenFor(p, line) == [] && ErrorFor(p, line) == []
    {
      while Peek() != '\n' && !IsAtEnd()
        invariant start + 2 <= current <= |source|
        invariant forall i :: start <= i < current ==> source[i] != '\n'
        decreases |source| - current
      {
        var _ := Advance();
      }
      CommentAt(source, start, current);
    }

    /** The cases of the switch that add a bracket, a separator or an operator other than the slash. */
    method Operator(c: char) returns (typ: Option<TokenType>)
      requires Valid() && current == start + 1 && c == source[start]
      modifies this`current
      ensures Valid()
      ensures typ == if c == '/' then None else OperatorAt(source, start).0
      ensures current == start + if c == '/' then 1 else OperatorAt(source, start).1
    {
      match c {
        case '(' => return Some(LeftParen);
        case ')' => return Some(RightParen);
        case '{' => return Some(LeftBrace);
        case '}' => return Some(RightBrace);
        case ',' => return Some(Comma);
        case '.' => return Some(Dot);
        case '-' => return Some(Minus);
        case '+' => return Some(Plus);
        case ';' => return Some(Semicolon);
        case '*' => return Some(Star);
        case '!' =>
          var m := Match('=');
          return Some(if m then BangEqual else Bang);
        case '=' =>
          var m := Match('=');
          return Some(if m then EqualEqual else Equal);
        case '<' =>
          var m := Match('=');
          return Some(if m then LessEqual else Less);
        case '>' =>
          var m := Match('=');
          return Some(if m then GreaterEqual else Greater);
        case _ => return None;
      }
    }

    method ScanToken()
      requires Valid() && start == current && !IsAtEnd()
      modifies this`current, this`line, this`tokens, this`errors
      ensures Valid()
      ensures var p := PieceAt(source, start);
              && current == start + |p.text|
              && line == old(line) + Newlines(p.text)
              && tokens == old(tokens) + TokenFor(p, line)
              && errors == old(errors) + ErrorFor(p, line)
    {
      hide PieceAt, Newlines, TokenFor, ErrorFor;
      if !IsAlphaNumeric(source[start]) && source[start] != '"'
         && !(start + 1 < |source| && source[start] == '/' && source[start + 1] == '/') {
        ShortAt(source, start, if source[start] == '\n' then line + 1 else line);
      }
      var c := Advance();
      var operator := Operator(c);
      if operator.Some? {
        AddToken(operator.value, NoLiteral);
      } else if c == '/' {
        var m := Match('/');
        if m {
          SkipComment();
        } else {
          AddToken(Slash, NoLiteral);
        }
      } else if c == ' ' || c == '\r' || c == '\t' {
      } else if c == '\n' {
        line := line + 1;
      } else if c == '"' {
        ScanString();
      } else if IsDigit(c) {
        ScanNumber();
      } else if IsAlpha(c) {
        ScanIdentifier();
      } else {
        errors := errors + [UnexpectedCharacter(line)];
      }
    }

    /** From wherever the scan stands, everything unread is turned into its tokens and reports. */
    method ScanTokens()
      requires Valid()
      modifies this
      ensures Valid() && IsAtEnd()
      ensures line == old(line + Newlines(Rest()))
      ensures tokens == old(tokens + TokensOf(Pieces(Rest()), line)) + [Token(EOF, "", NoLiteral, line)]
      ensures errors == old(errors + ErrorsOf(Pieces(Rest()), line))
    {
      hide PieceAt, Pieces, TokensOf, ErrorsOf, TokenFor, ErrorFor, Newlines;
      ghost var s0, line0, tokens0, errors0 := Rest(), line, tokens, errors;
      while !IsAtEnd()
        invariant Valid()
        invariant line + Newlines(Rest()) == line0 + Newlines(s0)
        invariant tokens + TokensOf(Pieces(Rest()), line) == tokens0 + TokensOf(Pieces(s0), line0)
        invariant errors + ErrorsOf(Pieces(Rest()), line) == errors0 + ErrorsOf(Pieces(s0), line0)
        decreases |source| - current
      {
        start := current;
        ghost var tokens1, errors1 := tokens, errors;
        PiecesStep(source, start, line);
        ScanToken();
        ghost var p := PieceAt(source, start);
        assert tokens1 + (TokenFor(p, line) + TokensOf(Pieces(Rest()), line)) == tokens + TokensOf(Pieces(Rest()), line);
        assert errors1 + (ErrorFor(p, line) + ErrorsOf(Pieces(Rest()), line)) == errors + ErrorsOf(Pieces(Rest()), line);
      }
      assert Rest() == [];
      NothingLeft(line);
      tokens := tokens + [Token(EOF, "", NoLiteral, line)];
    }
  }
}
