/**
 The query lexer: among six patterns the longest match wins, and among equally long ones the first; words, and the
 semicolon are returned, white space and unknown characters are passed over.
 */
module QueryLexer {
  import opened Sequences
  import opened LalrTables
  import opened LalrParser

  // ---------- The patterns ----------

  datatype Pattern = Select | From | Semicolon | Identifier | Space | Any

  predicate IsWordStart(c: char) { 'a' <= c <= 'z' || 'A' <= c <= 'Z' || c == '_' }

  predicate IsWordPart(c: char) { IsWordStart(c) || '0' <= c <= '9' }

  predicate IsSpace(c: char) { c == ' ' || c == '\t' || c == '\r' || c == '\n' }

  predicate IsWord(s: string) { s != [] && IsWordStart(s[0]) && forall i :: 0 <= i < |s| ==> IsWordPart(s[i]) }

  predicate Matches(p: Pattern, s: string) {
    match p
    case Select => s == "SELECT"
    case From => s == "FROM"
    case Semicolon => s == ";"
    case Identifier => IsWord(s)
    case Space => s != [] && forall i :: 0 <= i < |s| ==> IsSpace(s[i])
    case Any => |s| == 1 && s[0] != '\n'
  }

  /** The order of the rules in the file. */
  function Order(p: Pattern): nat {
    match p
    case Select => 0
    case From => 1
    case Semicolon => 2
    case Identifier => 3
    case Space => 4
    case Any => 5
  }

  /** What words and white space are made of. */
  lemma CharactersAre(c: char)
    ensures IsWordStart(c) <==> c in "ABCDEFGHIJKLMNOPQRSTUVWXYZ" || c in "abcdefghijklmnopqrstuvwxyz" || c == '_'
    ensures IsWordPart(c) <==> IsWordStart(c) || c in "0123456789"
    ensures IsSpace(c) <==> c in " \t\r\n"
  {
    UpperCaseAre(c);
    LowerCaseAre(c);
    DecimalsAre(c);
  }

  // ---------- One match ----------

  datatype Match = Match(pattern: Pattern, length: nat)

  function WordPattern(word: string): Pattern {
    if word == "SELECT" then Select else if word == "FROM" then From else Identifier
  }

  function FirstMatch(s: string): (m: Match)
    requires s != []
    ensures 0 < m.length <= |s|
  {
    if IsWordStart(s[0]) then
      SpanBound(s, IsWordPart, 1);
      var n := Span(s, IsWordPart);
      Match(WordPattern(s[..n]), n)
    else if s[0] == ';' then Match(Semicolon, 1)
    else if IsSpace(s[0]) then
      SpanBound(s, IsSpace, 1);
      Match(Space, Span(s, IsSpace))
    else Match(Any, 1)
  }

  /** The match is the longest of any pattern, and of the first pattern with one that long. */
  lemma LongestThenFirst(s: string, p: Pattern, n: nat)
    requires s != []
    ensures var m := FirstMatch(s);
            && Matches(m.pattern, s[..m.length])
            && (n <= |s| && Matches(p, s[..n]) ==> n < m.length || (n == m.length && Order(m.pattern) <= Order(p)))
  {
    var m := FirstMatch(s);
    if n <= |s| && Matches(p, s[..n]) {
      if p.Select? || p.From? || p.Identifier? {
        assert forall i :: 0 <= i < n ==> IsWordPart(s[..n][i]);
        assert IsWordStart(s[..n][0]);
        SpanBound(s, IsWordPart, n);
      }
      if p.Space? {
        assert forall i :: 0 <= i < n ==> IsSpace(s[..n][i]);
        SpanBound(s, IsSpace, n);
      }
    }
  }

  // ---------- The tokens of a text ----------

  datatype Lexeme = Lexeme(pattern: Pattern, text: string)

  predicate IsPassedOver(p: Pattern) { p == Space || p == Any }

  function Lexemes(s: string): seq<Lexeme> {
    if s == [] then []
    else
      var m := FirstMatch(s);
      var rest := Lexemes(s[m.length..]);
      if IsPassedOver(m.pattern) then rest else [Lexeme(m.pattern, s[..m.length])] + rest
  }

  /** What no token can start with. */
  predicate IsGap(c: char) { !IsWordStart(c) && c != ';' }

  predicate Gap(s: string) { forall i :: 0 <= i < |s| ==> IsGap(s[i]) }

  /** A token as it can stand before `rest`: a semicolon, or a word that ends there. */
  predicate Stands(l: Lexeme, rest: string) {
    if l.pattern == Semicolon then l.text == ";"
    else IsWord(l.text) && l.pattern == WordPattern(l.text) && !(rest != [] && IsWordPart(rest[0]))
  }

  predicate Opens(text: string, gap: string, l: Lexeme, rest: string) {
    Gap(gap) && text == gap + l.text + rest && Stands(l, rest)
  }

  /** The text is these tokens in order, with gaps before, between and after them. */
  ghost predicate Written(text: string, lexemes: seq<Lexeme>)
    decreases |lexemes|
  {
    if lexemes == [] then Gap(text)
    else exists gap, rest :: Opens(text, gap, lexemes[0], rest) && Written(rest, lexemes[1..])
  }

  lemma PassesSpaces(s: string, k: nat)
    requires k == Span(s, IsSpace)
    ensures Lexemes(s) == Lexemes(s[k..])
  {
    if k == 0 {
      assert s[0..] == s;
    } else {
      assert IsSpace(s[0]);
    }
  }

  lemma PassesOne(c: char, rest: string)
    requires IsGap(c)
    ensures Lexemes([c] + rest) == Lexemes(rest)
  {
    var s := [c] + rest;
    assert s[1..] == rest;
    if IsSpace(c) {
      var k := Span(rest, IsSpace);
      SpanStep(s, IsSpace);
      PassesSpaces(s, k + 1);
      PassesSpaces(rest, k);
      assert s[k + 1..] == rest[k..];
    }
  }

  lemma {:induction false} PassesGap(gap: string, rest: string)
    requires Gap(gap)
    ensures Lexemes(gap + rest) == Lexemes(rest)
  {
    hide Lexemes, IsGap;
    if gap == [] {
      assert gap + rest == rest;
    } else {
      PassesOne(gap[0], gap[1..] + rest);
      assert gap + rest == [gap[0]] + (gap[1..] + rest);
      PassesGap(gap[1..], rest);
    }
  }

  lemma TakesToken(l: Lexeme, rest: string)
    requires Stands(l, rest)
    ensures Lexemes(l.text + rest) == [l] + Lexemes(rest)
  {
    var s := l.text + rest;
    assert s[..|l.text|] == l.text && s[|l.text|..] == rest;
    if l.pattern != Semicolon {
      assert forall i :: 0 <= i < |l.text| ==> s[i] == l.text[i];
      SpanIs(s, IsWordPart, |l.text|);
    }
  }

  lemma {:induction false} WrittenIsRead(text: string, lexemes: seq<Lexeme>)
    requires Written(text, lexemes)
    ensures Lexemes(text) == lexemes
    decreases |lexemes|
  {
    if lexemes == [] {
      PassesGap(text, []);
      assert text + [] == text;
    } else {
      hide Lexemes, Stands, Gap;
      var gap, rest :| Opens(text, gap, lexemes[0], rest) && Written(rest, lexemes[1..]);
      Associative(gap, lexemes[0].text, rest);
      PassesGap(gap, lexemes[0].text + rest);
      TakesToken(lexemes[0], rest);
      WrittenIsRead(rest, lexemes[1..]);
    }
  }

  lemma FirstToken(s: string) returns (l: Lexeme, rest: string)
    requires s != [] && !IsGap(s[0])
    ensures s == l.text + rest && Stands(l, rest) && l.text != []
  {
    var m := FirstMatch(s);
    l, rest := Lexeme(m.pattern, s[..m.length]), s[m.length..];
  }

  lemma {:induction false} ReadIsWritten(text: string)
    ensures Written(text, Lexemes(text))
    decreases |text|
  {
    hide Lexemes, Stands, Written;
    var g := Span(text, IsGap);
    var gap, s := text[..g], text[g..];
    assert text == gap + s;
    PassesGap(gap, s);
    if s == [] {
      GapIsWritten(text);
    } else {
      var l, rest := FirstToken(s);
      TakesToken(l, rest);
      ReadIsWritten(rest);
      Associative(gap, l.text, rest);
      WrittenStep(text, gap, l, rest, Lexemes(rest));
    }
  }

  lemma GapIsWritten(text: string)
    requires Gap(text)
    ensures Written(text, []) && Lexemes([]) == []
  {
  }

  lemma WrittenStep(text: string, gap: string, l: Lexeme, rest: string, later: seq<Lexeme>)
    requires Opens(text, gap, l, rest) && Written(rest, later)
    ensures Written(text, [l] + later)
  {
    hide Opens;
    var lexemes := [l] + later;
    assert lexemes[0] == l && lexemes[1..] == later;
    assert Opens(text, gap, lexemes[0], rest) && Written(rest, lexemes[1..]);
  }

  /** The lexer reads a text as these tokens exactly when it is written so. */
  lemma ReadIffWritten(text: string, lexemes: seq<Lexeme>)
    ensures Lexemes(text) == lexemes <==> Written(text, lexemes)
  {
    ReadIsWritten(text);
    if Written(text, lexemes) { WrittenIsRead(text, lexemes); }
  }

  // ---------- In front of the parser ----------

  function Code(p: Pattern): int {
    match p
    case Select => SELECT_CODE
    case From => FROM_CODE
    case Semicolon => SEMICOLON_CODE
    case _ => IDENTIFIER_CODE
  }

  /** What the calls of the lexer return; only an identifier sets the value, which otherwise stays. */
  function Returned(lexemes: seq<Lexeme>, lval: string): seq<Token> {
    if lexemes == [] then []
    else
      var l := lexemes[0];
      var now := if l.pattern == Identifier then l.text else lval;
      [Token(Code(l.pattern), now)] + Returned(lexemes[1..], now)
  }

  /** Only an identifier changes the value. */
  lemma {:induction false} ValueStays(lexemes: seq<Lexeme>, lval: string, i: nat)
    requires i < |lexemes|
    ensures var tokens := Returned(lexemes, lval);
            && |tokens| == |lexemes|
            && tokens[i].text == if lexemes[i].pattern == Identifier then lexemes[i].text
                                 else if i == 0 then lval else tokens[i - 1].text
  {
    var now := if lexemes[0].pattern == Identifier then lexemes[0].text else lval;
    if i > 0 {
      ValueStays(lexemes[1..], now, i - 1);
    } else if |lexemes| > 1 {
      ValueStays(lexemes[1..], now, 0);
    }
  }

  function Query(column: string, table: string): seq<Lexeme> {
    [Lexeme(Select, "SELECT"), Lexeme(Identifier, column), Lexeme(From, "FROM"), Lexeme(Identifier, table), Lexeme(Semicolon, ";")]
  }

  function PatternKind(p: Pattern): int { Translate(Code(p)) }

  lemma KindsStep(p: Pattern, now: string, later: seq<Token>)
    ensures Kinds([Token(Code(p), now)] + later) == [PatternKind(p)] + Kinds(later)
  {
    var tokens := [Token(Code(p), now)] + later;
    assert tokens[1..] == later;
    assert KindAt(tokens, 0) == PatternKind(p);
  }

  lemma {:induction false} ReturnedKinds(lexemes: seq<Lexeme>, lval: string)
    ensures Kinds(Returned(lexemes, lval)) == PatternKinds(lexemes) + [END]
    ensures var tokens := Returned(lexemes, lval);
            |tokens| == |lexemes|
            && forall i :: 0 <= i < |lexemes| && lexemes[i].pattern == Identifier ==> tokens[i].text == lexemes[i].text
  {
    if lexemes != [] {
      var l := lexemes[0];
      var now := if l.pattern == Identifier then l.text else lval;
      hide Kinds, Code, PatternKind;
      ReturnedKinds(lexemes[1..], now);
      KindsStep(l.pattern, now, Returned(lexemes[1..], now));
    }
  }

  function PatternKinds(lexemes: seq<Lexeme>): (kinds: seq<int>)
    ensures |kinds| == |lexemes| && forall i :: 0 <= i < |lexemes| ==> kinds[i] == PatternKind(lexemes[i].pattern)
  {
    if lexemes == [] then [] else [PatternKind(lexemes[0].pattern)] + PatternKinds(lexemes[1..])
  }

  lemma {:induction false} TokensStand(s: string)
    ensures forall l :: l in Lexemes(s) ==> exists rest :: Stands(l, rest)
    decreases |s|
  {
    if s != [] {
      var m := FirstMatch(s);
      var rest := s[m.length..];
      TokensStand(rest);
      if !IsPassedOver(m.pattern) {
        assert Stands(Lexeme(m.pattern, s[..m.length]), rest);
      }
    }
  }

  /** A token's kind says which token it is, up to the name of an identifier. */
  lemma KindTells(l: Lexeme, rest: string)
    requires Stands(l, rest)
    ensures var kind := PatternKind(l.pattern);
            && (kind == SELECT ==> l == Lexeme(Select, "SELECT"))
            && (kind == FROM ==> l == Lexeme(From, "FROM"))
            && (kind == SEMICOLON ==> l == Lexeme(Semicolon, ";"))
            && (kind == IDENTIFIER ==> l.pattern == Identifier)
  {
  }

  lemma SentenceIsAQuery(lexemes: seq<Lexeme>)
    requires |lexemes| == 5
    requires forall i :: 0 <= i < 5 ==> PatternKind(lexemes[i].pattern) == SENTENCE[i]
    requires forall l :: l in lexemes ==> exists rest :: Stands(l, rest)
    ensures lexemes == Query(lexemes[1].text, lexemes[3].text)
  {
    forall i | 0 <= i < 5
      ensures lexemes[i] == Query(lexemes[1].text, lexemes[3].text)[i]
    {
      assert lexemes[i] in lexemes;
      var rest :| Stands(lexemes[i], rest);
      KindTells(lexemes[i], rest);
      assert PatternKind(lexemes[i].pattern) == SENTENCE[i];
    }
  }

  lemma QueryIsASentence(column: string, table: string)
    ensures var lexemes := Query(column, table);
            forall i :: 0 <= i < 5 ==> PatternKind(lexemes[i].pattern) == SENTENCE[i]
  {
  }

  lemma WrittenAfter(gap: string, l: Lexeme, rest: string, later: seq<Lexeme>)
    requires gap == "" || gap == " "
    requires Stands(l, rest) && Written(rest, later)
    ensures Written(gap + l.text + rest, [l] + later)
  {
    WrittenStep(gap + l.text + rest, gap, l, rest, later);
  }

  /** Spaced as a person would write it, a query is read as one, whatever its names. */
  lemma PlainQuery(column: string, table: string)
    requires IsWord(column) && IsWord(table) && column !in ["SELECT", "FROM"] && table !in ["SELECT", "FROM"]
    ensures Written("SELECT " + column + " FROM " + table + ";", Query(column, table))
  {
    var select, from, end := Lexeme(Select, "SELECT"), Lexeme(From, "FROM"), Lexeme(Semicolon, ";");
    var two := " " + table + ";";
    var one := " " + column + (" " + "FROM" + two);
    assert Stands(end, "") && Stands(Lexeme(Identifier, table), ";") && Stands(from, two);
    assert Stands(Lexeme(Identifier, column), " " + "FROM" + two) && Stands(select, one);
    hide Stands, Written, IsWord;
    GapIsWritten([]);
    assert "" + ";" + "" == ";" && [end] + [] == [end];
    WrittenAfter("", end, "", []);
    WrittenAfter(" ", Lexeme(Identifier, table), ";", [end]);
    WrittenAfter(" ", from, two, [Lexeme(Identifier, table)] + [end]);
    WrittenAfter(" ", Lexeme(Identifier, column), " " + "FROM" + two, [from] + ([Lexeme(Identifier, table)] + [end]));
    WrittenAfter("", select, one, [Lexeme(Identifier, column)] + ([from] + ([Lexeme(Identifier, table)] + [end])));
    PlainText(column, table);
  }

  lemma PlainText(column: string, table: string)
    ensures "" + "SELECT" + (" " + column + (" " + "FROM" + (" " + table + ";"))) ==
            "SELECT " + column + " FROM " + table + ";"
    ensures [Lexeme(Select, "SELECT")] + ([Lexeme(Identifier, column)] + ([Lexeme(From, "FROM")] +
              ([Lexeme(Identifier, table)] + [Lexeme(Semicolon, ";")]))) == Query(column, table)
  {
  }

  /** The kinds the parser sees are in its language exactly when the text is written as a query. */
  lemma InLanguageIffQuery(text: string)
    ensures InLanguage(Kinds(Returned(Lexemes(text), ""))) <==> exists column, table :: Written(text, Query(column, table))
  {
    var lexemes := Lexemes(text);
    var kinds := Kinds(Returned(lexemes, ""));
    LanguageIsOneSentence(kinds);
    ReturnedKinds(lexemes, "");
    TokensStand(text);
    hide Lexemes, Kinds, Returned, InLanguage, Written, Stands, PatternKind, Query;
    if kinds == SENTENCE {
      assert forall i :: 0 <= i < 5 ==> PatternKind(lexemes[i].pattern) == SENTENCE[i];
      SentenceIsAQuery(lexemes);
      ReadIffWritten(text, lexemes);
      assert Written(text, Query(lexemes[1].text, lexemes[3].text));
    }
    forall column, table | Written(text, Query(column, table))
      ensures kinds == SENTENCE
    {
      ReadIffWritten(text, Query(column, table));
      QueryIsASentence(column, table);
      QueryTexts(column, table);
    }
  }

  lemma QueryTexts(column: string, table: string)
    ensures var q := Query(column, table);
            |q| == 5 && q[1] == Lexeme(Identifier, column) && q[3] == Lexeme(Identifier, table)
  {
  }

  /**
   Lexer and parser together: a text is accepted exactly when it is written as a query, with white space and
   unknown characters anywhere between its tokens, and then its column and its table are what the action is given.
   */
  method ParseText(text: string) returns (result: int, actions: seq<(string, string)>)
    ensures result == 0 || result == 1
    ensures result == 0 <==> exists column, table :: Written(text, Query(column, table))
    ensures forall column, table :: Written(text, Query(column, table)) ==> actions == [(column, table)]
  {
    var tokens := Returned(Lexemes(text), "");
    var parser := new Parser(tokens);
    result := parser.Parse();
    actions := parser.actions;
    InLanguageIffQuery(text);
    AgreementIsMembership(tokens);
    ReturnedKinds(Lexemes(text), "");
    hide Lexemes, Kinds, Returned, InLanguage, Written, Query;
    forall column, table | Written(text, Query(column, table))
      ensures actions == [(column, table)]
    {
      ReadIffWritten(text, Query(column, table));
      QueryTexts(column, table);
    }
  }
}
