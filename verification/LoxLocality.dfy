/**
 How a scan depends on what follows. A piece that is not an unterminated string is not changed by a newline
 and anything after it; a whole lexeme is not changed by a space either. Line-by-line scanning and
 printing a token stream back rest on this.
 */
module LoxLocality {
  import opened Sequences
  import opened LoxGrammar
  import opened LoxTokens

  // ---------- No piece reaches across a separator ----------

  /** A text that opens a string and holds a quote strictly inside is no piece. */
  lemma ClosedStringIsMaximal(t: string, q: nat)
    requires 0 < q < |t| - 1 && t[0] == '"' && t[q] == '"'
    ensures forall k :: !Matches(t, k)
  {
    assert t[1..|t| - 1][q - 1] == '"' && t[1..][q - 1] == '"';
  }

  lemma NewlineEndsAPiece(t: string, q: nat)
    requires 0 < q < |t| && t[0] != '"' && t[q] == '\n'
    ensures forall k :: !Matches(t, k)
  {
    forall k
      ensures !Matches(t, k)
    {
      if IsNumber(t) {
        NumberHoldsNoNewline(t);
      }
    }
  }

  lemma NumberHoldsNoNewline(t: string)
    requires IsNumber(t)
    ensures '\n' !in t && ' ' !in t
  {
    if !IsDigits(t) {
      var d :| 0 <= d < |t| && t[d] == '.' && IsDigits(t[..d]) && IsDigits(t[d + 1..]);
      forall i | 0 <= i < |t|
        ensures IsDigit(t[i]) || t[i] == '.'
      {
        if i < d {
          assert IsDigit(t[..d][i]);
        } else if i > d {
          assert IsDigit(t[d + 1..][i - d - 1]);
        }
      }
    }
  }

  lemma SpaceEndsALexeme(t: string, q: nat)
    requires 0 < q < |t| && t[0] != '"' && t[q] == ' ' && !(t[0] == '/' && t[1] == '/')
    ensures forall k :: !Matches(t, k)
  {
    forall k
      ensures !Matches(t, k)
    {
      if IsNumber(t) {
        NumberHoldsNoNewline(t);
      }
    }
  }

  // ---------- Locality of one piece ----------

  /** The separators that leave the first piece of `s` as it is. */
  predicate Separates(x: char, s: string)
    requires s != []
  {
    var (n, k) := Next(s);
    && k != Unterminated
    && (x == '\n' || (x == ' ' && k.Lexeme? && n == |s|))
  }

  lemma NextIgnoresTail(s: string, x: char, rest: string)
    requires s != [] && Separates(x, s)
    ensures Next(s + [x] + rest) == Next(s)
  {
    hide Next;
    NextIsLongest(s);
    var (n, k) := Next(s);
    var u := s + [x] + rest;
    assert u[..n] == s[..n];
    forall m, k' | n < m <= |u|
      ensures !Matches(u[..m], k')
    {
      if m <= |s| {
        assert u[..m] == s[..m];
      } else {
        NothingReachesAcross(s, n, k, x, u[..m]);
      }
    }
    LongestIsUnique(u, n, k);
  }

  lemma NothingReachesAcross(s: string, n: nat, k: Kind, x: char, t: string)
    requires s != [] && LongestMatch(s, n, k) && k != Unterminated
    requires x == '\n' || (x == ' ' && k.Lexeme? && n == |s|)
    requires |s| < |t| && t[..|s|] == s && t[|s|] == x
    ensures forall k' :: !Matches(t, k')
  {
    assert forall i :: 0 <= i < |s| ==> t[i] == s[i];
    if s[0] == '"' {
      assert k == Lexeme(String);
      assert s[..n][n - 1] == t[n - 1];
      ClosedStringIsMaximal(t, n - 1);
    } else if x == '\n' {
      NewlineEndsAPiece(t, |s|);
    } else {
      assert s[..n] == s;
      SpaceEndsALexeme(t, |s|);
    }
  }

  // ---------- Line by line ----------

  predicate AllClosed(ps: seq<Piece>) { forall p :: p in ps ==> p.kind != Unterminated }

  /** No string is left open at the end of `s`. */
  predicate Closed(s: string) { AllClosed(Pieces(s)) }

  const NEWLINE_PIECE := Piece("\n", Blank)

  lemma EmptyText()
    ensures Pieces([]) == []
  {
  }

  lemma NewlineFirst(b: string)
    ensures Pieces(['\n'] + b) == [NEWLINE_PIECE] + Pieces(b)
  {
    var u := ['\n'] + b;
    assert Next(u) == (1, Blank);
    assert u[..1] == "\n" && u[1..] == b;
  }

  lemma {:induction false} PiecesSplitAtNewline(a: string, b: string)
    requires Closed(a)
    ensures Pieces(a + (['\n'] + b)) == Pieces(a) + ([NEWLINE_PIECE] + Pieces(b))
    decreases |a|
  {
    hide Next, Pieces;
    if a == [] {
      assert a + (['\n'] + b) == ['\n'] + b;
      EmptyText();
      NewlineFirst(b);
    } else {
      var u := a + (['\n'] + b);
      assert u == a + ['\n'] + b;
      PiecesCons(a);
      PiecesCons(u);
      NextIgnoresTail(a, '\n', b);
      var (n, k) := Next(a);
      assert u[..n] == a[..n] && u[n..] == a[n..] + (['\n'] + b);
      PiecesSplitAtNewline(a[n..], b);
      Associative([Piece(a[..n], k)], Pieces(a[n..]), [NEWLINE_PIECE] + Pieces(b));
    }
  }

  function Raise(ts: seq<Token>, raise: nat): seq<Token> {
    seq(|ts|, i requires 0 <= i < |ts| => ts[i].(line := ts[i].line + raise))
  }

  function RaiseErrors(es: seq<Error>, raise: nat): seq<Error> {
    seq(|es|, i requires 0 <= i < |es| => es[i].(line := es[i].line + raise))
  }

  lemma RaiseAppend(a: seq<Token>, b: seq<Token>, raise: nat)
    ensures Raise(a + b, raise) == Raise(a, raise) + Raise(b, raise)
  {
  }

  lemma RaiseErrorsAppend(a: seq<Error>, b: seq<Error>, raise: nat)
    ensures RaiseErrors(a + b, raise) == RaiseErrors(a, raise) + RaiseErrors(b, raise)
  {
  }

  lemma RaisePiece(p: Piece, line: nat, raise: nat)
    ensures TokenFor(p, line + raise) == Raise(TokenFor(p, line), raise)
    ensures ErrorFor(p, line + raise) == RaiseErrors(ErrorFor(p, line), raise)
  {
  }

  lemma NoPieces(line: nat, raise: nat)
    ensures TokensOf([], line + raise) == Raise(TokensOf([], line), raise)
    ensures ErrorsOf([], line + raise) == RaiseErrors(ErrorsOf([], line), raise)
  {
  }

  /** Starting a run of pieces `raise` lines later moves every line in its outcome by as much. */
  lemma {:induction false} StartingLaterRaises(ps: seq<Piece>, line: nat, raise: nat)
    ensures TokensOf(ps, line + raise) == Raise(TokensOf(ps, line), raise)
    ensures ErrorsOf(ps, line + raise) == RaiseErrors(ErrorsOf(ps, line), raise)
  {
    hide Newlines, TokenFor, ErrorFor, Raise, RaiseErrors, TokensOf, ErrorsOf;
    if ps == [] {
      NoPieces(line, raise);
    } else {
      var p, rest := ps[0], ps[1..];
      var end := line + Newlines(p.text);
      assert ps == [p] + rest;
      TokensOfCons(p, rest, line);
      TokensOfCons(p, rest, line + raise);
      StartingLaterRaises(rest, end, raise);
      RaisePiece(p, end, raise);
      RaiseAppend(TokenFor(p, end), TokensOf(rest, end), raise);
      RaiseErrorsAppend(ErrorFor(p, end), ErrorsOf(rest, end), raise);
    }
  }

  /** Scanning two texts joined by a newline is scanning them one after the other. */
  lemma ScanSplitsAtNewline(a: string, b: string)
    requires Closed(a)
    ensures Tokens(a + ['\n'] + b) == Tokens(a) + Raise(Tokens(b), 1 + Newlines(a))
    ensures Errors(a + ['\n'] + b) == Errors(a) + RaiseErrors(Errors(b), 1 + Newlines(a))
    ensures Newlines(a + ['\n'] + b) == Newlines(a) + 1 + Newlines(b)
  {
    hide Pieces, Newlines, TokensOf, ErrorsOf, Closed, Raise, RaiseErrors;
    var raise := 1 + Newlines(a);
    assert a + ['\n'] + b == a + (['\n'] + b);
    PiecesSplitAtNewline(a, b);
    PiecesCoverTheText(a);
    JoinNewlines(a, b);
    TokensOfAppend(Pieces(a), [NEWLINE_PIECE] + Pieces(b), 1);
    TokensOfCons(NEWLINE_PIECE, Pieces(b), raise);
    assert Newlines("\n") == 1;
    StartingLaterRaises(Pieces(b), 1, raise);
  }

  lemma JoinNewlines(a: string, b: string)
    ensures Newlines("\n") == 1
    ensures Newlines(a + ['\n'] + b) == Newlines(a) + 1 + Newlines(b)
  {
    assert "\n" == ['\n'];
    CountOne('\n');
    CountAppend(a, ['\n'], '\n');
    CountAppend(a + ['\n'], b, '\n');
  }

  /** With a string left open the law fails already for the text that closes it. */
  lemma OpenTextSwallowsTheNextLine(a: string)
    requires !Closed(a)
    ensures |Tokens(a + ['\n'] + "\"")| == |Tokens(a)| + 1
    ensures Tokens("\"") == []
  {
    hide Pieces, TokensOf;
    SwallowedClosingQuote(a, 1);
    assert a + ['\n'] + "\"" == a + "\n\"";
    LoneQuote();
  }

  lemma LoneQuote()
    ensures Tokens("\"") == []
  {
    assert Next("\"") == (1, Unterminated);
    assert "\""[..1] == "\"" && "\""[1..] == [];
    assert Pieces("\"") == [Piece("\"", Unterminated)];
  }

  /** An open string and the quote that closes it on the next line are one string token. */
  lemma OpenStringCloses(a: string)
    requires a != [] && Next(a).1 == Unterminated
    ensures Pieces(a) == [Piece(a, Unterminated)]
    ensures Pieces(a + "\n\"") == [Piece(a + "\n\"", Lexeme(String))]
  {
    var u := a + "\n\"";
    NextIsLongest(a);
    var n := Next(a).0;
    assert n == |a| && a[..n] == a && a[n..] == [];
    assert u[..|u|] == u && u[|u|..] == [];
    assert Matches(u, Lexeme(String)) by {
      assert u[1..|u| - 1] == a[1..] + ['\n'];
    }
    LongestIsUnique(u, |u|, Lexeme(String));
  }

  lemma {:induction false} SwallowedClosingQuote(a: string, line: nat)
    requires !Closed(a)
    ensures |TokensOf(Pieces(a + "\n\""), line)| == |TokensOf(Pieces(a), line)| + 1
    decreases |a|
  {
    hide Next, Pieces, TokensOf, TokenFor, Newlines;
    EmptyText();
    var (n, k) := Next(a);
    if k == Unterminated {
      OpenStringCloses(a);
      OneMoreToken(a, line);
    } else {
      var p, u := Piece(a[..n], k), a + "\n\"";
      NextIgnoresTail(a, '\n', "\"");
      assert u == a + ['\n'] + "\"";
      PiecesCons(a);
      PiecesCons(u);
      assert u[..n] == a[..n] && u[n..] == a[n..] + "\n\"";
      assert !Closed(a[n..]);
      SwallowedClosingQuote(a[n..], line + Newlines(p.text));
      TokensOfCons(p, Pieces(a[n..]), line);
      TokensOfCons(p, Pieces(u[n..]), line);
    }
  }

  lemma OneMoreToken(a: string, line: nat)
    ensures TokensOf([Piece(a, Unterminated)], line) == []
    ensures |TokensOf([Piece(a + "\n\"", Lexeme(String))], line)| == 1
  {
  }

  /** The exact condition: a text can be scanned apart from whatever follows iff it leaves no string open. */
  lemma ScansApartIffClosed(a: string)
    ensures Closed(a) <==>
            forall b :: Tokens(a + ['\n'] + b) == Tokens(a) + Raise(Tokens(b), 1 + Newlines(a))
  {
    hide Tokens, Newlines, Closed;
    if Closed(a) {
      forall b
        ensures Tokens(a + ['\n'] + b) == Tokens(a) + Raise(Tokens(b), 1 + Newlines(a))
      {
        ScanSplitsAtNewline(a, b);
      }
    } else {
      OpenTextSwallowsTheNextLine(a);
    }
  }

  // ---------- The prompt ----------

  function JoinLines(lines: seq<string>): string {
    if lines == [] then [] else if |lines| == 1 then lines[0] else lines[0] + ['\n'] + JoinLines(lines[1..])
  }

  /** The tokens of scanning each line with a scanner of its own, the i-th one `from + i` lines further down. */
  function Prompted(lines: seq<string>, from: nat): seq<Token> {
    if lines == [] then [] else Raise(Tokens(lines[0]), from) + Prompted(lines[1..], from + 1)
  }

  /** What those scanners report, likewise. */
  function PromptedErrors(lines: seq<string>, from: nat): seq<Error> {
    if lines == [] then [] else RaiseErrors(Errors(lines[0]), from) + PromptedErrors(lines[1..], from + 1)
  }

  lemma {:induction false} PromptedLater(lines: seq<string>, from: nat, raise: nat)
    ensures Prompted(lines, from + raise) == Raise(Prompted(lines, from), raise)
    ensures PromptedErrors(lines, from + raise) == RaiseErrors(PromptedErrors(lines, from), raise)
  {
    hide Tokens, Errors;
    if lines != [] {
      PromptedLater(lines[1..], from + 1, raise);
      assert Raise(Tokens(lines[0]), from + raise) == Raise(Raise(Tokens(lines[0]), from), raise);
      assert RaiseErrors(Errors(lines[0]), from + raise) == RaiseErrors(RaiseErrors(Errors(lines[0]), from), raise);
      RaiseAppend(Raise(Tokens(lines[0]), from), Prompted(lines[1..], from + 1), raise);
      RaiseErrorsAppend(RaiseErrors(Errors(lines[0]), from), PromptedErrors(lines[1..], from + 1), raise);
    }
  }

  /**
   Scanning line by line, as the prompt does, gives the tokens and reports of scanning the whole text, if no line
   but the last leaves a string open.
   */
  lemma {:induction false} PromptAgreesWithFile(lines: seq<string>)
    requires forall i :: 0 <= i < |lines| - 1 ==> Closed(lines[i])
    requires forall i :: 0 <= i < |lines| ==> '\n' !in lines[i]
    ensures Tokens(JoinLines(lines)) == Prompted(lines, 0)
    ensures Errors(JoinLines(lines)) == PromptedErrors(lines, 0)
  {
    hide Tokens, Errors, Newlines, Raise, RaiseErrors, Closed;
    if lines == [] {
      NoTokens();
    } else {
      LinesRaisedByNothing(Tokens(lines[0]), Errors(lines[0]));
      if |lines| == 1 {
        assert Prompted(lines[1..], 1) == [] && PromptedErrors(lines[1..], 1) == [];
      } else {
        PromptAgreesWithFile(lines[1..]);
        ScanSplitsAtNewline(lines[0], JoinLines(lines[1..]));
        NoNewlines(lines[0]);
        PromptedLater(lines[1..], 0, 1);
      }
    }
  }

  lemma NoNewlines(s: string)
    requires '\n' !in s
    ensures Newlines(s) == 0
  {
    CountAbsent(s, '\n');
  }

  lemma NoTokens()
    ensures Tokens([]) == [] && Errors([]) == []
  {
  }

  lemma LinesRaisedByNothing(ts: seq<Token>, es: seq<Error>)
    ensures Raise(ts, 0) == ts && RaiseErrors(es, 0) == es
  {
  }
}
