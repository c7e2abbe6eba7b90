/** Printing a token stream with single spaces and scanning it again gives the same stream. */
module LoxRoundTrip {
  import opened LoxGrammar
  import opened LoxTokens
  import opened LoxLocality

  function Printed(ts: seq<Token>): string {
    if ts == [] then []
    else if |ts| == 1 then ts[0].lexeme
    else ts[0].lexeme + [' '] + Printed(ts[1..])
  }

  const SPACE_PIECE := Piece(" ", Blank)

  function PrintedPieces(ts: seq<Token>): seq<Piece> {
    if ts == [] then []
    else
      [Piece(ts[0].lexeme, Lexeme(ts[0].typ))] +
      if |ts| == 1 then [] else [SPACE_PIECE] + PrintedPieces(ts[1..])
  }

  lemma LexemeAlone(text: string, typ: TokenType)
    requires Matches(text, Lexeme(typ))
    ensures text != [] && Next(text) == (|text|, Lexeme(typ))
  {
    hide Next, Keyword;
    assert text[..|text|] == text;
    LongestIsUnique(text, |text|, Lexeme(typ));
  }

  lemma SpaceFirst(rest: string)
    ensures Pieces([' '] + rest) == [SPACE_PIECE] + Pieces(rest)
  {
    var u := [' '] + rest;
    assert Next(u) == (1, Blank);
    assert u[..1] == " " && u[1..] == rest;
  }

  lemma {:induction false} PrintedFallsApart(ts: seq<Token>)
    requires forall t :: t in ts ==> WellSpelled(t)
    ensures Pieces(Printed(ts)) == PrintedPieces(ts)
  {
    hide Next, Pieces, Matches;
    if ts == [] {
      EmptyText();
    } else {
      var text, k := ts[0].lexeme, Lexeme(ts[0].typ);
      assert WellSpelled(ts[0]);
      LexemeAlone(text, ts[0].typ);
      if |ts| == 1 {
        PiecesCons(text);
        EmptyText();
        assert text[..|text|] == text && text[|text|..] == [];
      } else {
        var rest := Printed(ts[1..]);
        var u := Printed(ts);
        NextIgnoresTail(text, ' ', rest);
        PiecesCons(u);
        assert u[..|text|] == text && u[|text|..] == [' '] + rest;
        SpaceFirst(rest);
        PrintedFallsApart(ts[1..]);
      }
    }
  }

  /** A token apart from the line it stands on. */
  datatype Word = Word(typ: TokenType, lexeme: string, literal: Literal)

  function Words(ts: seq<Token>): seq<Word> {
    seq(|ts|, i requires 0 <= i < |ts| => Word(ts[i].typ, ts[i].lexeme, ts[i].literal))
  }

  lemma WordsAppend(a: seq<Token>, b: seq<Token>)
    ensures Words(a + b) == Words(a) + Words(b)
  {
  }

  lemma PieceOfToken(t: Token, line: nat)
    requires WellSpelled(t)
    ensures Words(TokenFor(Piece(t.lexeme, Lexeme(t.typ)), line)) == Words([t])
    ensures ErrorFor(Piece(t.lexeme, Lexeme(t.typ)), line) == []
    ensures TokenFor(SPACE_PIECE, line) == [] && ErrorFor(SPACE_PIECE, line) == []
  {
  }

  lemma {:induction false} PrintedWords(ts: seq<Token>, line: nat)
    requires forall t :: t in ts ==> WellSpelled(t)
    ensures Words(TokensOf(PrintedPieces(ts), line)) == Words(ts)
    ensures ErrorsOf(PrintedPieces(ts), line) == []
  {
    hide WellSpelled, Words, TokenFor, ErrorFor, Newlines;
    if ts == [] {
    } else {
      var p := Piece(ts[0].lexeme, Lexeme(ts[0].typ));
      var end := line + Newlines(p.text);
      PieceOfToken(ts[0], end);
      assert ts == [ts[0]] + ts[1..];
      WordsAppend([ts[0]], ts[1..]);
      var rest := if |ts| == 1 then [] else [SPACE_PIECE] + PrintedPieces(ts[1..]);
      TokensOfCons(p, rest, line);
      WordsAppend(TokenFor(p, end), TokensOf(rest, end));
      if |ts| > 1 {
        PieceOfToken(ts[0], end + Newlines(" "));
        TokensOfCons(SPACE_PIECE, PrintedPieces(ts[1..]), end);
        PrintedWords(ts[1..], end + Newlines(" "));
        assert TokensOf(rest, end) == TokensOf(PrintedPieces(ts[1..]), end + Newlines(" "));
      } else {
        assert TokensOf([], end) == [] && ErrorsOf([], end) == [] && ts[1..] == [];
      }
    }
  }

  /**
   For every source text: the printed tokens scan to the same types, lexemes and literals, without a report,
   and printing them once more changes nothing.
   */
  lemma PrintThenScan(s: string)
    ensures var printed := Printed(Tokens(s));
            && Words(Tokens(printed)) == Words(Tokens(s))
            && Errors(printed) == []
            && Printed(Tokens(printed)) == printed
  {
    var ts := Tokens(s);
    TokensAreWellSpelled(s);
    PrintedFallsApart(ts);
    PrintedWords(ts, 1);
    PrintedByWords(Tokens(Printed(ts)), ts);
  }

  lemma {:induction false} PrintedByWords(a: seq<Token>, b: seq<Token>)
    requires Words(a) == Words(b)
    ensures Printed(a) == Printed(b)
  {
    assert |a| == |Words(a)| == |Words(b)| == |b|;
    if a != [] {
      assert Words(a)[0] == Words(b)[0];
      assert Words(a[1..]) == Words(a)[1..] == Words(b)[1..] == Words(b[1..]);
      PrintedByWords(a[1..], b[1..]);
    }
  }
}
