/**
 The grammar of the query language, what it means for a string to be in it, and the packed tables Bison made of it.
 */
module LalrTables {
  // ---------- Symbols and rules ----------

  const END := 0
  const ERROR := 1
  const UNDEF := 2
  const SELECT := 3
  const FROM := 4
  const SEMICOLON := 5
  const IDENTIFIER := 6
  const ACCEPT := 7
  const QUERY := 8

  datatype Rule = Rule(lhs: int, rhs: seq<int>)

  /** Rule 1 wraps the start symbol, rule 2 is the one rule of the grammar file. */
  const RULES: seq<Rule> := [
    Rule(0, []), Rule(ACCEPT, [QUERY, END]), Rule(QUERY, [SELECT, IDENTIFIER, FROM, IDENTIFIER, SEMICOLON])]

  ghost predicate Rewrites(a: seq<int>, i: nat, rule: nat, b: seq<int>) {
    1 <= rule <= 2 && i < |a| && a[i] == RULES[rule].lhs && b == a[..i] + RULES[rule].rhs + a[i + 1..]
  }

  ghost predicate Derives(a: seq<int>, b: seq<int>, steps: nat)
    decreases steps
  {
    if steps == 0 then a == b
    else exists i: nat, rule: nat, c :: Rewrites(a, i, rule, c) && Derives(c, b, steps - 1)
  }

  predicate Terminals(w: seq<int>) { forall x :: x in w ==> 0 <= x < ACCEPT }

  /** The strings of terminals the start symbol derives. */
  ghost predicate InLanguage(w: seq<int>) { Terminals(w) && exists n: nat :: Derives([ACCEPT], w, n) }

  const SENTENCE: seq<int> := [SELECT, IDENTIFIER, FROM, IDENTIFIER, SEMICOLON, END]

  const FORM: seq<int> := [QUERY, END]

  lemma StartRewrites(i: nat, rule: nat, c: seq<int>)
    ensures Rewrites([ACCEPT], i, rule, c) <==> i == 0 && rule == 1 && c == FORM
  {
    assert [ACCEPT][..0] + RULES[1].rhs + [ACCEPT][1..] == FORM;
  }

  lemma FormRewrites(i: nat, rule: nat, c: seq<int>)
    ensures Rewrites(FORM, i, rule, c) <==> i == 0 && rule == 2 && c == SENTENCE
  {
    assert FORM[..0] + RULES[2].rhs + FORM[1..] == SENTENCE;
    assert FORM[1] == END;
  }

  lemma SentenceIsFinal(i: nat, rule: nat, c: seq<int>)
    ensures !Rewrites(SENTENCE, i, rule, c)
  {
    assert forall x :: x in SENTENCE ==> x < ACCEPT;
    assert i < |SENTENCE| ==> SENTENCE[i] in SENTENCE;
  }

  lemma DerivesStep(a: seq<int>, i: nat, rule: nat, b: seq<int>, c: seq<int>, steps: nat)
    requires Rewrites(a, i, rule, b) && Derives(b, c, steps)
    ensures Derives(a, c, steps + 1)
  {
  }

  lemma SentenceIsDerived()
    ensures Derives(FORM, SENTENCE, 1) && Derives([ACCEPT], SENTENCE, 2)
  {
    FormRewrites(0, 2, SENTENCE);
    StartRewrites(0, 1, FORM);
    assert Derives(SENTENCE, SENTENCE, 0);
    hide Rewrites, Derives;
    DerivesStep(FORM, 0, 2, SENTENCE, SENTENCE, 0);
    DerivesStep([ACCEPT], 0, 1, FORM, SENTENCE, 1);
  }

  /** The grammar has one sentence. */
  lemma LanguageIsOneSentence(w: seq<int>)
    ensures InLanguage(w) <==> w == SENTENCE
  {
    hide Rewrites, Derives;
    if w == SENTENCE {
      SentenceIsDerived();
    } else if InLanguage(w) {
      var n: nat :| Derives([ACCEPT], w, n);
      StartDerives(w, n);
    }
  }

  lemma StartDerives(w: seq<int>, n: nat)
    requires Terminals(w) && Derives([ACCEPT], w, n)
    ensures w == SENTENCE
  {
    hide Rewrites;
    assert ACCEPT in [ACCEPT];
    if n > 0 {
      var i: nat, rule: nat, c :| Rewrites([ACCEPT], i, rule, c) && Derives(c, w, n - 1);
      StartRewrites(i, rule, c);
      FormDerives(w, n - 1);
    }
  }

  lemma FormDerives(w: seq<int>, n: nat)
    requires Terminals(w) && Derives(FORM, w, n)
    ensures w == SENTENCE
  {
    hide Rewrites;
    assert FORM[0] in FORM;
    if n > 0 {
      var i: nat, rule: nat, c :| Rewrites(FORM, i, rule, c) && Derives(c, w, n - 1);
      FormRewrites(i, rule, c);
      SentenceDerives(w, n - 1);
    }
  }

  lemma SentenceDerives(w: seq<int>, n: nat)
    requires Derives(SENTENCE, w, n)
    ensures w == SENTENCE
  {
    hide Rewrites;
    forall i: nat, rule: nat, c
      ensures !Rewrites(SENTENCE, i, rule, c)
    {
      SentenceIsFinal(i, rule, c);
    }
  }

  // ---------- The tables, under Bison's names without the prefix ----------

  const FINAL := 4
  const LAST := 5
  const TOKENS := 7
  const PACT_NINF := -6

  const PACT: seq<int> := [-3, -5, 2, -1, -6, -2, 0, -6]
  const DEFACT: seq<int> := [0, 0, 0, 0, 1, 0, 0, 2]
  const PGOTO: seq<int> := [-6, -6]
  const DEFGOTO: seq<int> := [0, 2]
  const TABLE: seq<int> := [1, 3, 4, 5, 6, 7]
  const CHECK: seq<int> := [3, 6, 0, 4, 6, 5]
  const STOS: seq<int> := [0, 3, 8, 6, 0, 4, 6, 5]
  const LHS: seq<int> := [0, 7, 8]
  const LENGTH: seq<int> := [0, 2, 5]

  /** The row of a state, displaced by its PACT entry, holds something for this symbol. */
  predicate HasEntry(at: int, symbol: int) { 0 <= at <= LAST && CHECK[at] == symbol }

  datatype Decision = Shift(state: int) | Reduce(rule: int) | Fail

  /** What the packed tables say to do in a state on a symbol. */
  function Decide(state: int, symbol: int): Decision
    requires 0 <= state < 8
  {
    var at := PACT[state];
    if at != PACT_NINF && HasEntry(at + symbol, symbol) then Shift(TABLE[at + symbol])
    else if DEFACT[state] == 0 then Fail
    else Reduce(DEFACT[state])
  }

  /** The state entered on a nonterminal, numbered from TOKENS, when the stack is back at `state`. */
  function Goto(lhs: int, state: int): int
    requires TOKENS <= lhs < TOKENS + 2
  {
    var at := PGOTO[lhs - TOKENS] + state;
    if HasEntry(at, state) then TABLE[at] else DEFGOTO[lhs - TOKENS]
  }

  /** A rule's left-hand side and length in the tables are those of the grammar. */
  lemma RulesAreTheGrammar(rule: nat)
    requires rule < |RULES|
    ensures |LHS| == |LENGTH| == |RULES|
    ensures LHS[rule] == RULES[rule].lhs && LENGTH[rule] == |RULES[rule].rhs|
  {
  }

  /** Unpacked, the tables walk one path: each state expects one terminal, and only the last one reduces. */
  lemma PackedTables(state: int, symbol: int)
    requires 0 <= state < 8 && 0 <= symbol < TOKENS
    ensures Decide(state, symbol)
            == if state == 0 && symbol == SELECT then Shift(1)
               else if state == 1 && symbol == IDENTIFIER then Shift(3)
               else if state == 3 && symbol == FROM then Shift(5)
               else if state == 5 && symbol == IDENTIFIER then Shift(6)
               else if state == 6 && symbol == SEMICOLON then Shift(7)
               else if state == 2 && symbol == END then Shift(FINAL)
               else if state == 7 then Reduce(2)
               else if state == FINAL then Reduce(1)
               else Fail
    ensures Decide(state, symbol).Shift? ==> STOS[Decide(state, symbol).state] == symbol
    ensures Goto(QUERY, state) == 2 && STOS[2] == QUERY
  {
  }
}
