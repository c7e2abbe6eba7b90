/** The text of a whole scan as pieces, tokens and reports, and what they are worth. */
module LoxTokens {
  import opened Sequences
  import opened LoxGrammar

  // ---------- The whole text ----------

  datatype Piece = Piece(text: string, kind: Kind)

  function Pieces(s: string): seq<Piece> {
    if s == [] then []
    else
      var (n, k) := Next(s);
      [Piece(s[..n], k)] + Pieces(s[n..])
  }

  lemma PiecesCons(s: string)
    requires s != []
    ensures Pieces(s) == [Piece(s[..Next(s).0], Next(s).1)] + Pieces(s[Next(s).0..])
  {
    hide Next;
  }

  function Newlines(s: string): nat { Count(s, '\n') }

  function LiteralOf(typ: TokenType, text: string): Literal {
    if typ == Number then Numeral(text)
    else if typ == String && |text| >= 2 then Text(text[1..|text| - 1])
    else NoLiteral
  }

  /** What a piece ending on line `line` adds to the token list and to the reports. */
  function TokenFor(p: Piece, line: nat): seq<Token> {
    match p.kind
    case Lexeme(t) => [Token(t, p.text, LiteralOf(t, p.text), line)]
    case _ => []
  }

  function ErrorFor(p: Piece, line: nat): seq<Error> {
    match p.kind
    case Unterminated => [UnterminatedString(line)]
    case Unexpected => [UnexpectedCharacter(line)]
    case _ => []
  }

  /** The tokens of a run of pieces; `line` is the line on which the run starts. */
  function TokensOf(ps: seq<Piece>, line: nat): seq<Token> {
    if ps == [] then []
    else var end := line + Newlines(ps[0].text); TokenFor(ps[0], end) + TokensOf(ps[1..], end)
  }

  function ErrorsOf(ps: seq<Piece>, line: nat): seq<Error> {
    if ps == [] then []
    else var end := line + Newlines(ps[0].text); ErrorFor(ps[0], end) + ErrorsOf(ps[1..], end)
  }

  lemma TokensOfCons(p: Piece, ps: seq<Piece>, line: nat)
    ensures var end := line + Newlines(p.text);
            && TokensOf([p] + ps, line) == TokenFor(p, end) + TokensOf(ps, end)
            && ErrorsOf([p] + ps, line) == ErrorFor(p, end) + ErrorsOf(ps, end)
  {
    assert ([p] + ps)[1..] == ps;
  }

  /** What a scan of `s` adds before the EOF token, and what it reports. */
  function Tokens(s: string): seq<Token> { TokensOf(Pieces(s), 1) }

  function Errors(s: string): seq<Error> { ErrorsOf(Pieces(s), 1) }

  // ---------- Longest-match tiling ----------

  function Texts(ps: seq<Piece>): seq<string> { seq(|ps|, i requires 0 <= i < |ps| => ps[i].text) }

  /** `ps` cuts `s` into adjoining pieces, each the longest one starting where it starts. */
  ghost predicate Tiles(ps: seq<Piece>, s: string)
    decreases |ps|
  {
    if ps == [] then s == []
    else
      && LongestMatch(s, |ps[0].text|, ps[0].kind)
      && ps[0].text == s[..|ps[0].text|]
      && Tiles(ps[1..], s[|ps[0].text|..])
  }

  lemma {:induction false} PiecesAreTheTiling(s: string, ps: seq<Piece>)
    ensures Tiles(ps, s) <==> ps == Pieces(s)
    decreases |s|
  {
    if s != [] {
      NextIsLongest(s);
      var (n, k) := Next(s);
      PiecesAreTheTiling(s[n..], Pieces(s)[1..]);
      if Tiles(ps, s) {
        LongestIsUnique(s, |ps[0].text|, ps[0].kind);
        PiecesAreTheTiling(s[n..], ps[1..]);
        assert ps == [ps[0]] + ps[1..];
      }
    }
  }

  lemma {:induction false} PiecesCoverTheText(s: string)
    ensures Concat(Texts(Pieces(s))) == s
    decreases |s|
  {
    if s != [] {
      var (n, k) := Next(s);
      PiecesCoverTheText(s[n..]);
      assert Texts(Pieces(s))[1..] == Texts(Pieces(s[n..]));
      assert s == s[..n] + s[n..];
    }
  }

  // ---------- What a token stream says about its text ----------

  lemma {:induction false} TokensOfAppend(a: seq<Piece>, b: seq<Piece>, line: nat)
    ensures var mid := line + Newlines(Concat(Texts(a)));
            && TokensOf(a + b, line) == TokensOf(a, line) + TokensOf(b, mid)
            && ErrorsOf(a + b, line) == ErrorsOf(a, line) + ErrorsOf(b, mid)
  {
    hide TokensOf, ErrorsOf, TokenFor, ErrorFor, Newlines, Texts, Concat;
    if a == [] {
      assert a + b == b;
      NothingSpelled(line);
    } else {
      var p, rest := a[0], a[1..];
      var end := line + Newlines(p.text);
      var mid := line + Newlines(Concat(Texts(a)));
      assert a == [p] + rest && a + b == [p] + (rest + b);
      NewlinesOfCons(p, rest);
      TokensOfAppend(rest, b, end);
      TokensOfCons(p, rest, line);
      TokensOfCons(p, rest + b, line);
      Associative(TokenFor(p, end), TokensOf(rest, end), TokensOf(b, mid));
      Associative(ErrorFor(p, end), ErrorsOf(rest, end), ErrorsOf(b, mid));
    }
  }

  lemma NothingSpelled(line: nat)
    ensures TokensOf([], line) == [] && ErrorsOf([], line) == [] && Newlines(Concat(Texts([]))) == 0
  {
    CountAbsent<char>([], '\n');
  }

  lemma NewlinesOfCons(p: Piece, rest: seq<Piece>)
    ensures Newlines(Concat(Texts([p] + rest))) == Newlines(p.text) + Newlines(Concat(Texts(rest)))
  {
    assert Texts([p] + rest) == [p.text] + Texts(rest);
    assert ([p.text] + Texts(rest))[1..] == Texts(rest);
    CountAppend(p.text, Concat(Texts(rest)), '\n');
  }

  /** The token of the i-th piece stands on the line where the run starts plus the newlines up to its end. */
  lemma {:induction false} TokenLine(ps: seq<Piece>, i: nat, line: nat)
    requires i < |ps| && ps[i].kind.Lexeme?
    ensures var j := |TokensOf(ps[..i], line)|; var t := ps[i].kind.typ;
            && j < |TokensOf(ps, line)|
            && TokensOf(ps, line)[j] ==
               Token(t, ps[i].text, LiteralOf(t, ps[i].text), line + Newlines(Concat(Texts(ps[..i + 1]))))
  {
    hide TokensOf, ErrorsOf, TokenFor, ErrorFor, Newlines, Texts, Concat, LiteralOf;
    var p, rest := ps[0], ps[1..];
    var end := line + Newlines(p.text);
    assert ps == [p] + rest;
    TokensOfCons(p, rest, line);
    if i == 0 {
      assert ps[..0] == [] && ps[..1] == [p];
      FirstToken(p, line);
    } else {
      TokenLine(rest, i - 1, end);
      assert ps[..i] == [p] + rest[..i - 1] && ps[..i + 1] == [p] + rest[..i];
      TokensOfCons(p, rest[..i - 1], line);
      NewlinesOfCons(p, rest[..i]);
      var head, later, j := TokenFor(p, end), TokensOf(rest, end), |TokensOf(rest[..i - 1], end)|;
      assert (head + later)[|head| + j] == later[j];
    }
  }

  lemma FirstToken(p: Piece, line: nat)
    requires p.kind.Lexeme?
    ensures TokensOf([], line) == [] && Concat(Texts([p])) == p.text
    ensures TokenFor(p, line + Newlines(p.text)) == [Token(p.kind.typ, p.text, LiteralOf(p.kind.typ, p.text), line + Newlines(p.text))]
  {
    assert Texts([p])[1..] == [];
  }

  /** The first i pieces of a scan spell out the beginning of the text. */
  lemma PiecesCoverAPrefix(s: string, i: nat)
    requires i <= |Pieces(s)|
    ensures Concat(Texts(Pieces(s)[..i])) <= s
  {
    hide Pieces;
    var ps := Pieces(s);
    PiecesCoverTheText(s);
    assert Texts(ps) == Texts(ps[..i]) + Texts(ps[i..]);
    ConcatAppend(Texts(ps[..i]), Texts(ps[i..]));
  }

  predicate WellSpelled(t: Token) {
    Matches(t.lexeme, Lexeme(t.typ)) && t.literal == LiteralOf(t.typ, t.lexeme)
  }

  lemma {:induction false} PiecesMatch(s: string)
    ensures forall p :: p in Pieces(s) ==> Matches(p.text, p.kind)
    decreases |s|
  {
    hide Next, Matches;
    if s != [] {
      NextIsLongest(s);
      PiecesMatch(s[Next(s).0..]);
    }
  }

  lemma {:induction false} MatchingPiecesSpellWell(ps: seq<Piece>, line: nat)
    requires forall p :: p in ps ==> Matches(p.text, p.kind)
    ensures forall t :: t in TokensOf(ps, line) ==> WellSpelled(t)
  {
    hide Matches;
    if ps != [] {
      MatchingPiecesSpellWell(ps[1..], line + Newlines(ps[0].text));
    }
  }

  lemma TokensAreWellSpelled(s: string)
    ensures forall t :: t in Tokens(s) ==> WellSpelled(t)
  {
    PiecesMatch(s);
    MatchingPiecesSpellWell(Pieces(s), 1);
  }

  /** Reserved words keep their own type: none comes out as an identifier. */
  lemma KeywordsAreNotIdentifiers(s: string, t: Token)
    requires t in Tokens(s) && Keyword(t.lexeme).Some?
    ensures Some(t.typ) == Keyword(t.lexeme)
  {
    TokensAreWellSpelled(s);
    assert WellSpelled(t);
    KeywordIsAWord(t.lexeme);
    KindIsUnique(t.lexeme, Lexeme(t.typ), WordKind(t.lexeme));
  }

  lemma KeywordIsAWord(text: string)
    requires Keyword(text).Some?
    ensures IsWord(text)
  {
  }
}
