/** The table-driven parser: state and value stacks, packed tables, a loop over the labels of the generated code. */
module LalrParser {
  import opened LalrTables
  import opened Sequences

  // ---------- The token stream ----------

  /** What a call of the lexer returns, and the text in yylval then. */
  datatype Token = Token(code: int, text: string)

  const EMPTY := -2
  const ERROR_CODE := 256
  const UNDEF_CODE := 257
  const SELECT_CODE := 258
  const FROM_CODE := 259
  const SEMICOLON_CODE := 260
  const IDENTIFIER_CODE := 261
  const MAX_CODE := 261

  function Translate(code: int): int {
    if code < 0 || code > MAX_CODE then UNDEF
    else if code == 0 then END
    else if code == ERROR_CODE then ERROR
    else if code == SELECT_CODE then SELECT
    else if code == FROM_CODE then FROM
    else if code == SEMICOLON_CODE then SEMICOLON
    else if code == IDENTIFIER_CODE then IDENTIFIER
    else UNDEF
  }

  /** Past the end of its input the lexer keeps returning the end marker. */
  function TokenAt(tokens: seq<Token>, i: nat): Token { if i < |tokens| then tokens[i] else Token(0, "") }

  /** Every code that is not positive ends the input. */
  function KindAt(tokens: seq<Token>, i: nat): int {
    var code := TokenAt(tokens, i).code;
    if code <= 0 then END else Translate(code)
  }

  /** The kinds up to and including the first end marker. */
  function Kinds(tokens: seq<Token>): seq<int> {
    if KindAt(tokens, 0) == END then [END] else [KindAt(tokens, 0)] + Kinds(tokens[1..])
  }

  function Texts(tokens: seq<Token>, n: nat): (texts: seq<string>)
    ensures |texts| == n && forall i :: 0 <= i < n ==> texts[i] == TokenAt(tokens, i).text
  {
    if n == 0 then [] else Texts(tokens, n - 1) + [TokenAt(tokens, n - 1).text]
  }

  function Expected(i: nat): int
    requires i < |SENTENCE|
  {
    SENTENCE[i]
  }

  predicate Agrees(tokens: seq<Token>, n: nat)
    requires n <= |SENTENCE|
  {
    forall i :: 0 <= i < n ==> KindAt(tokens, i) == Expected(i)
  }

  /** One more token agrees, and its text is known. */
  lemma OneMore(tokens: seq<Token>, n: nat)
    requires n < |SENTENCE| && Agrees(tokens, n) && KindAt(tokens, n) == Expected(n)
    ensures Agrees(tokens, n + 1) && Texts(tokens, n + 1) == Texts(tokens, n) + [TokenAt(tokens, n).text]
  {
  }

  /** How many kinds in a row, from `i` on, are those of the sentence. */
  function Agreement(tokens: seq<Token>, i: nat): (n: nat)
    requires i <= |SENTENCE|
    ensures i <= n <= |SENTENCE|
    ensures forall j :: i <= j < n ==> KindAt(tokens, j) == Expected(j)
    ensures n < |SENTENCE| ==> KindAt(tokens, n) != Expected(n)
    decreases |SENTENCE| - i
  {
    if i < |SENTENCE| && KindAt(tokens, i) == Expected(i) then Agreement(tokens, i + 1) else i
  }

  lemma {:induction false} AgreementReaches(tokens: seq<Token>, i: nat, n: nat)
    requires i <= n <= |SENTENCE|
    requires forall j :: i <= j < n ==> KindAt(tokens, j) == Expected(j)
    ensures Agreement(tokens, i) >= n
    ensures n < |SENTENCE| && KindAt(tokens, n) != Expected(n) ==> Agreement(tokens, i) == n
    decreases n - i
  {
    if i < n {
      assert KindAt(tokens, i) == Expected(i);
      AgreementReaches(tokens, i + 1, n);
    }
  }

  // ---------- The parser ----------

  const INIT_DEPTH := 200

  /** The labels of the generated function. */
  datatype Label =
    | NewState | SetState | Backup | Default | Reduction | OnError | Recover | Accepting | Aborting | Exhausted

  /** The states on the stack after `k` moves of the one accepting path; move 6 is the reduction. */
  function Stack(k: nat): (s: seq<int>)
    requires k <= 7
    ensures forall i :: 0 <= i < |s| ==> 0 <= s[i] < 8
  {
    if k <= 5 then [0, 1, 3, 5, 6, 7][..k + 1] else if k == 6 then [0, 2] else [0, 2, FINAL]
  }

  /** How many tokens have been shifted by then. */
  function Shifted(k: nat): nat
    requires k <= 7
  {
    if k <= 5 then k else k - 1
  }

  function Top(k: nat): (t: int)
    requires k <= 7
    ensures 0 <= t < 8
  {
    Stack(k)[|Stack(k)| - 1]
  }

  /** On the path the tables shift the expected symbol to the next state and refuse every other. */
  lemma PathShifts(k: nat, symbol: int)
    requires k <= 6 && k != 5 && 0 <= symbol < TOKENS
    ensures 0 <= Top(k) < 8 && PACT[Top(k)] != PACT_NINF && DEFACT[Top(k)] == 0 && Top(k) != FINAL
    ensures Expected(Shifted(k)) != ERROR
    ensures var at := PACT[Top(k)] + symbol;
            && (HasEntry(at, symbol) <==> symbol == Expected(Shifted(k)))
            && (HasEntry(at, symbol) ==> 0 <= at <= LAST && TABLE[at] == Top(k + 1) && Top(k + 1) > 0)
    ensures Decide(Top(k), symbol) == if symbol == Expected(Shifted(k)) then Shift(Top(k + 1)) else Fail
    ensures Stack(k + 1) == Stack(k) + [Top(k + 1)] && |Stack(k)| <= 5 && Shifted(k + 1) == Shifted(k) + 1
  {
    if k == 6 {
      assert Stack(6) + [FINAL] == Stack(7);
    }
  }

  lemma PathGrows(k: nat)
    requires k <= 6 && k != 5
    ensures Stack(k + 1) == Stack(k) + [Top(k + 1)] && Shifted(k + 1) == Shifted(k) + 1
    ensures if k <= 5 then |Stack(k)| == k + 1 && Shifted(k) == k else |Stack(k)| == 2
  {
    PathShifts(k, END);
  }

  /** Its end is a reduction, back to the start. */
  lemma PathReduces()
    ensures Top(5) == 7 && PACT[Top(5)] == PACT_NINF && DEFACT[Top(5)] == 2 && |Stack(5)| == 6
    ensures forall symbol :: Decide(Top(5), symbol) == Reduce(2)
    ensures Top(7) == FINAL && Top(6) == Goto(LHS[2], Stack(5)[0]) && |Stack(6)| == 2 && Stack(6)[0] == Stack(5)[0]
  {
  }

  lemma TranslateIsAKind(code: int)
    ensures 0 <= Translate(code) < TOKENS
    ensures code > 0 ==> (Translate(code) == ERROR <==> code == ERROR_CODE) && Translate(code) != END
  {
  }

  /** The state to go to on the error symbol, 0 if there is none. */
  function ErrorShift(state: int): int
    requires 0 <= state < 8
  {
    var at := PACT[state] + ERROR;
    if PACT[state] != PACT_NINF && HasEntry(at, ERROR) then TABLE[at] else 0
  }

  lemma NoStateShiftsError(state: int)
    requires 0 <= state < 8
    ensures ErrorShift(state) == 0
  {
  }

  class Parser {
    const tokens: seq<Token>
    const states: array<int>
    const values: array<string>
    var next: nat
    var ssp: int
    var vsp: int
    var state: int
    var errStatus: int
    var lookahead: int
    var lval: string
    var n: int
    var len: int
    var errors: nat
    var actions: seq<(string, string)>
    ghost var deepest: int

    constructor (input: seq<Token>)
      ensures tokens == input && fresh(states) && fresh(values)
      ensures Fresh(0) && Entering(0) && deepest == 0
    {
      tokens, states, values := input, new int[INIT_DEPTH], new string[INIT_DEPTH];
      ssp, vsp, state, errStatus, len, lookahead := 0, 0, 0, 0, 0, EMPTY;
      next, errors, actions, lval, n, deepest := 0, 0, [], "", 0, 0;
    }

    // ---------- Where a parse can stand ----------

    /** The shifted tokens are the sentence's, and the identifiers' texts are where the action will look. */
    ghost predicate Progress(k: nat)
      reads this, values
    {
      && k <= 7 && values.Length == INIT_DEPTH == states.Length && states != values as object
      && len == 0 && deepest <= 5
      && Agrees(tokens, Shifted(k))
      && (k <= 5 ==> values[1..k + 1] == Texts(tokens, k))
      && actions == (if k >= 6 then [(TokenAt(tokens, 1).text, TokenAt(tokens, 3).text)] else [])
    }

    ghost predicate On(k: nat)
      reads this, states, values
    {
      Progress(k) && state == Top(k) && ssp == vsp == |Stack(k)| - 1 && states[..ssp + 1] == Stack(k)
    }

    /** The state is still to be stored, in the room above `ssp` for a value just pushed. */
    ghost predicate Pushed(k: nat)
      reads this, states, values
    {
      && Progress(k) && k > 0 && state == Top(k)
      && vsp == |Stack(k)| - 1 && ssp == vsp - 1 && states[..ssp + 1] == Stack(k)[..ssp + 1]
    }

    ghost predicate Entering(k: nat)
      reads this, states, values
    {
      Progress(k) && state == Top(k) && ssp == vsp == |Stack(k)| - 1 && states[..ssp] == Stack(k)[..ssp]
    }

    ghost predicate Fresh(k: nat)
      reads this
    {
      k <= 7 && lookahead == EMPTY && next == Shifted(k) && errors == 0 && errStatus == 0
    }

    /** The token after the shifted ones is read, and is not the sentence's. */
    ghost predicate Refused(k: nat)
      reads this
    {
      && k <= 6 && k != 5 && next == Shifted(k) + 1
      && KindAt(tokens, Shifted(k)) != Expected(Shifted(k))
    }

    ghost predicate Failed(k: nat)
      reads this
    {
      && Refused(k) && deepest <= 5
      && Agrees(tokens, Shifted(k))
      && actions == (if k >= 6 then [(TokenAt(tokens, 1).text, TokenAt(tokens, 3).text)] else [])
      && errors == if KindAt(tokens, Shifted(k)) == ERROR then 0 else 1
    }

    // ---------- The labels ----------

    method Lex()
      modifies this`next, this`lookahead, this`lval
      ensures next == old(next) + 1
      ensures lookahead == TokenAt(tokens, old(next)).code && lval == TokenAt(tokens, old(next)).text
    {
      lookahead, lval := TokenAt(tokens, next).code, TokenAt(tokens, next).text;
      next := next + 1;
    }

    /** `yynewstate`: makes room on the state stack. */
    method NewRoom(ghost k: nat)
      requires Pushed(k) && Fresh(k)
      modifies this`ssp
      ensures Entering(k) && Fresh(k)
    {
      ssp := ssp + 1;
    }

    method StoreState(ghost k: nat) returns (target: Label)
      requires Entering(k) && Fresh(k)
      modifies this`deepest, states
      ensures On(k) && Fresh(k)
      ensures target == if k == 7 then Accepting else Backup
    {
      states[ssp] := state;
      deepest := if ssp > deepest then ssp else deepest;
      target := if INIT_DEPTH - 1 <= ssp then Exhausted else if state == FINAL then Accepting else Backup;
    }

    /** The lookahead's kind; a token is read if there is none. */
    method Peek(ghost k: nat) returns (token: int)
      requires k <= 6 && Fresh(k)
      modifies this`next, this`lookahead, this`lval
      ensures token == KindAt(tokens, Shifted(k)) && 0 <= token < TOKENS
      ensures lookahead != EMPTY && next == Shifted(k) + 1
      ensures lval == TokenAt(tokens, Shifted(k)).text
    {
      hide Translate;
      if lookahead == EMPTY { Lex(); }
      TranslateIsAKind(lookahead);
      token := END;
      if lookahead <= 0 {
        lookahead := 0;
      } else if lookahead == ERROR_CODE {
        lookahead := UNDEF_CODE;
        token := ERROR;
      } else {
        token := Translate(lookahead);
      }
    }

    method ShiftToken(ghost k: nat, target: int)
      requires On(k) && k <= 6 && k != 5 && errors == 0 && errStatus == 0
      requires next == Shifted(k) + 1 && KindAt(tokens, Shifted(k)) == Expected(Shifted(k))
      requires target == Top(k + 1) && lval == TokenAt(tokens, Shifted(k)).text
      modifies this`errStatus, this`state, this`vsp, this`lookahead, values
      ensures Pushed(k + 1) && Fresh(k + 1)
    {
      PathGrows(k);
      OneMore(tokens, Shifted(k));
      hide Stack, Top, KindAt, Expected, Shifted, TokenAt, Texts, Agrees;
      assert Stack(k + 1)[..|Stack(k)|] == Stack(k);
      errStatus := if errStatus != 0 then errStatus - 1 else errStatus;
      state := target;
      vsp := vsp + 1;
      values[vsp] := lval;
      lookahead := EMPTY;
      assert k + 1 <= 5 ==> values[1..k + 2] == values[1..k + 1] + [lval];
    }

    /** Decides by the tables, reading a token if it needs one and has none. */
    method BackUp(ghost k: nat) returns (target: Label)
      requires On(k) && Fresh(k) && k < 7
      modifies this`n, this`next, this`lookahead, this`lval, this`errStatus, this`state, this`vsp, values
      ensures target in {Default, Recover, NewState}
      ensures target == NewState ==> Decide(old(state), KindAt(tokens, Shifted(k))) == Shift(state)
      ensures target != NewState ==> state == old(state) && !Decide(state, KindAt(tokens, Shifted(k))).Shift?
      ensures target == NewState ==> k != 5 && Pushed(k + 1) && Fresh(k + 1)
      ensures target == Default && k == 5 ==> On(k) && Fresh(k)
      ensures target != NewState && !(target == Default && k == 5) ==>
                && On(k) && Refused(k) && errors == 0 && errStatus == 0
                && (target == Recover <==> KindAt(tokens, Shifted(k)) == ERROR)
    {
      PathReduces();
      hide Stack, Top, HasEntry, Expected, Shifted, KindAt, Agrees, Texts, TokenAt, Decide;
      n := PACT[state];
      if n == PACT_NINF {
        if k != 5 { PathShifts(k, END); }
        return Default;
      }
      var token := Peek(k);
      PathShifts(k, token);
      if token == ERROR { return Recover; }
      n := n + token;
      if !HasEntry(n, token) { return Default; }
      n := TABLE[n];
      target := if n <= 0 then Reduction else NewState;
      n := if n <= 0 then -n else n;
      if target == NewState { ShiftToken(k, n); }
    }

    method DefaultAction(ghost k: nat) returns (target: Label)
      requires On(k) && k <= 6
      requires if k == 5 then Fresh(k) else Refused(k)
      modifies this`n
      ensures Decide(state, KindAt(tokens, Shifted(k))) == if target == Reduction then Decision.Reduce(n) else Fail
      ensures target == if k == 5 then Reduction else OnError
      ensures On(k) && if k == 5 then Fresh(k) && n == 2 else Refused(k)
    {
      PathReduces();
      if k != 5 {
        TranslateIsAKind(TokenAt(tokens, Shifted(k)).code);
        PathShifts(k, KindAt(tokens, Shifted(k)));
      }
      n := DEFACT[state];
      target := if n == 0 then OnError else Reduction;
    }

    /** Runs the rule's action, and puts the symbol it reduces to where its right-hand side was. */
    method Reduce()
      requires On(5) && Fresh(5) && n == 2
      modifies this`len, this`actions, this`vsp, this`ssp, this`state, values
      ensures Pushed(6) && Fresh(6)
    {
      PathReduces();
      assert states[0] == states[..ssp + 1][0];
      hide Goto, Top, KindAt, Expected;
      len := LENGTH[n];
      assert values[2] == values[1..6][1] && values[4] == values[1..6][3];
      var val := values[vsp + 1 - len];
      if n == 2 {
        actions := actions + [(values[vsp - 3], values[vsp - 1])];
      }
      vsp, ssp := vsp - len, ssp - len;
      len := 0;
      vsp := vsp + 1;
      values[vsp] := val;
      state := Goto(LHS[n], states[ssp]);
    }

    method ReportError(ghost k: nat) returns (target: Label)
      requires On(k) && Refused(k) && errors == 0 && errStatus == 0 && KindAt(tokens, Shifted(k)) != ERROR
      modifies this`errors, this`lookahead
      ensures target == Recover && On(k) && Refused(k) && errors == 1
    {
      if errStatus == 0 { errors := errors + 1; }
      target := if errStatus == 3 && lookahead == 0 then Aborting else Recover;
      lookahead := if errStatus == 3 && lookahead > 0 then EMPTY else lookahead;
    }

    /** Pops states until one shifts the error symbol. None does, so the parse is given up. */
    method PopStates() returns (target: Label)
      requires 0 <= ssp == vsp < INIT_DEPTH - 1 && values.Length == INIT_DEPTH == states.Length && states != values as object
      requires state == states[ssp] && forall i :: 0 <= i <= ssp ==> 0 <= states[i] < 8
      modifies this`errStatus, this`state, this`ssp, this`vsp, this`n, values
      ensures target == Aborting
    {
      hide ErrorShift;
      errStatus := 3;
      target := Recover;
      while target == Recover
        invariant target in {Recover, Aborting}
        invariant 0 <= ssp == vsp < INIT_DEPTH - 1 && state == states[ssp]
        invariant forall i :: 0 <= i <= ssp ==> 0 <= states[i] < 8
        decreases ssp, if target == Recover then 1 else 0
      {
        n := ErrorShift(state);
        if 0 < n {
          ghost var refusing := state;
          vsp := vsp + 1;
          values[vsp] := lval;
          state, target := n, NewState;
          NoStateShiftsError(refusing);
          assert false;
        } else if ssp == 0 {
          target := Aborting;
        } else {
          vsp, ssp := vsp - 1, ssp - 1;
          state := states[ssp];
        }
      }
    }

    method RecoverFromError(ghost k: nat) returns (target: Label)
      requires On(k) && Refused(k) && errors == if KindAt(tokens, Shifted(k)) == ERROR then 0 else 1
      modifies this`errStatus, this`state, this`ssp, this`vsp, this`n, values
      ensures target == Aborting && Failed(k)
    {
      assert forall i :: 0 <= i <= ssp ==> states[i] == states[..ssp + 1][i];
      hide KindAt, Expected, Top, Shifted;
      target := PopStates();
    }

    /** What is known on reaching each label, after `k` moves along the path. */
    ghost predicate Reached(target: Label, k: nat)
      reads this, states, values
    {
      match target
      case NewState => Pushed(k) && Fresh(k)
      case SetState => Entering(k) && Fresh(k)
      case Backup => On(k) && Fresh(k) && k < 7
      case Default =>
        && On(k) && k <= 6
        && if k == 5 then Fresh(k) else Refused(k) && KindAt(tokens, Shifted(k)) != ERROR && errors == 0 && errStatus == 0
      case Reduction => On(k) && k == 5 && Fresh(5) && n == 2
      case OnError => On(k) && Refused(k) && errors == 0 && errStatus == 0 && KindAt(tokens, Shifted(k)) != ERROR
      case Recover => On(k) && Refused(k) && errors == if KindAt(tokens, Shifted(k)) == ERROR then 0 else 1
      case Aborting => Failed(k)
      case Accepting => On(k) && k == 7 && Fresh(7)
      case _ => false
    }

    /** The states on the stack at a label, the one about to be stored included. */
    ghost function CurrentStack(target: Label): seq<int>
      requires 0 <= ssp < states.Length
      reads this, states
    {
      if target == NewState then states[..ssp + 1] + [state]
      else if target == SetState then states[..ssp] + [state]
      else states[..ssp + 1]
    }

    /** The symbols the stack was entered on, followed by the tokens not shifted yet, derive the whole input. */
    ghost predicate DerivesTheInput(target: Label, k: nat)
      reads this, states
    {
      && 0 <= ssp < states.Length && k <= 7 && Shifted(k) <= |Kinds(tokens)|
      && var stack := CurrentStack(target);
         && (forall i :: 0 <= i < |stack| ==> 0 <= stack[i] < 8)
         && Derives(Labels(stack) + Kinds(tokens)[Shifted(k)..], Kinds(tokens), if k >= 6 then 1 else 0)
    }

    lemma PushedStack(k: nat)
      requires Pushed(k)
      ensures 0 <= ssp < states.Length && Agrees(tokens, Shifted(k)) && states[..ssp + 1] + [state] == Stack(k)
    {
      hide Agrees, Texts;
      assert Stack(k) == Stack(k)[..|Stack(k)| - 1] + [Top(k)];
    }

    lemma EnteringStack(k: nat)
      requires Entering(k)
      ensures 0 <= ssp < states.Length && Agrees(tokens, Shifted(k)) && states[..ssp] + [state] == Stack(k)
    {
      hide Agrees, Texts;
      assert Stack(k) == Stack(k)[..|Stack(k)| - 1] + [Top(k)];
    }

    lemma OnStack(k: nat)
      requires On(k)
      ensures 0 <= ssp < states.Length && Agrees(tokens, Shifted(k)) && states[..ssp + 1] == Stack(k)
    {
      hide Agrees, Texts;
    }

    lemma StackIsOnPath(target: Label, k: nat)
      requires Reached(target, k) && target != Aborting
      ensures 0 <= ssp < states.Length && k <= 7 && Agrees(tokens, Shifted(k)) && CurrentStack(target) == Stack(k)
    {
      assert k <= 7;
      hide Pushed, Entering, On, Fresh, Refused, Agrees, Stack, KindAt;
      match target {
        case NewState => PushedStack(k);
        case SetState => EnteringStack(k);
        case _ => OnStack(k);
      }
    }

    /** So it is at every label of a parse that has not failed. */
    lemma StackDerivesTheInput(target: Label, k: nat)
      requires Reached(target, k) && target != Aborting
      ensures DerivesTheInput(target, k)
    {
      StackIsOnPath(target, k);
      ReadKinds(tokens, Shifted(k));
      hide Labels, Kinds, Derives, Agrees, Stack, Reached, CurrentStack;
      var kinds := Kinds(tokens);
      assert kinds == SENTENCE[..Shifted(k)] + kinds[Shifted(k)..];
      PathDerives(kinds[Shifted(k)..], k);
    }

    /** What a parse leaves behind, said by how many leading tokens agree with the sentence and its end marker. */
    ghost predicate Parsed(result: int)
      reads this
    {
      var agreed := Agreement(tokens, 0);
      && result == (if agreed == |SENTENCE| then 0 else 1)
      && actions == (if agreed >= 5 then [(TokenAt(tokens, 1).text, TokenAt(tokens, 3).text)] else [])
      && errors == (if agreed == |SENTENCE| || KindAt(tokens, agreed) == ERROR then 0 else 1)
      && next == (if agreed == |SENTENCE| then agreed else agreed + 1)
      && deepest <= 5
    }

    /** A refused token is reported, unless it is the code by which the lexer says it has reported itself. */
    lemma RefusalIsReported(result: int)
      requires Parsed(result) && result != 0
      ensures Agreement(tokens, 0) < 6
      ensures errors == if TokenAt(tokens, Agreement(tokens, 0)).code == 256 then 0 else 1
    {
    }

    lemma AcceptingIsParsed()
      requires On(7) && Fresh(7)
      ensures Parsed(0)
    {
      AgreementReaches(tokens, 0, |SENTENCE|);
    }

    lemma FailedIsParsed(k: nat)
      requires Failed(k)
      ensures Parsed(1)
    {
      AgreementReaches(tokens, 0, Shifted(k));
    }

    /**
     The parse of any token stream ends. It succeeds exactly when the stream starts with the sentence and its end
     marker, runs the action exactly when the first five tokens are the rule's, with the two identifiers' texts,
     reports one error unless the lexer did, reads no further than the token that decides, and never holds more
     than six states.
     */
    method Parse() returns (result: int)
      requires Entering(0) && Fresh(0) && deepest == 0
      modifies this, states, values
      ensures Parsed(result)
      ensures result == 0 <==> InLanguage(Kinds(tokens))
    {
      var target := SetState;
      ghost var k := 0;
      hide Entering, Pushed, On, Fresh, Refused, Failed, KindAt, Agreement, InLanguage, Kinds, DerivesTheInput;
      StackDerivesTheInput(target, k);
      while target != Accepting && target != Aborting && target != Exhausted
        invariant Reached(target, k)
        invariant target != Aborting ==> DerivesTheInput(target, k)
        decreases 7 - k, Rank(target)
      {
        match target {
          case NewState =>
            NewRoom(k);
            target := SetState;
          case SetState => target := StoreState(k);
          case Backup =>
            target := BackUp(k);
            if target == NewState { k := k + 1; }
          case Default => target := DefaultAction(k);
          case Reduction =>
            Reduce();
            k, target := 6, NewState;
          case OnError => target := ReportError(k);
          case Recover => target := RecoverFromError(k);
          case _ =>
        }
        if target != Aborting { StackDerivesTheInput(target, k); }
      }
      AgreementIsMembership(tokens);
      if target == Accepting { AcceptingIsParsed(); } else { FailedIsParsed(k); }
      result := if target == Accepting then 0 else if target == Aborting then 1 else 2;
    }
  }

  // ---------- Against the grammar ----------

  /** The symbols the states on a stack were entered on, the start state apart. */
  function Labels(stack: seq<int>): seq<int>
    requires forall i :: 0 <= i < |stack| ==> 0 <= stack[i] < 8
  {
    if stack == [] then [] else seq(|stack| - 1, i requires 0 <= i < |stack| - 1 => STOS[stack[i + 1]])
  }

  lemma PathDerives(rest: seq<int>, k: nat)
    requires k <= 7
    ensures Derives(Labels(Stack(k)) + rest, SENTENCE[..Shifted(k)] + rest, if k >= 6 then 1 else 0)
  {
    LabelsOnPath(k);
    hide Labels, Derives, Stack;
    if k <= 5 {
      DerivesItself(SENTENCE[..k] + rest);
    } else if k == 6 {
      QueryDerives(rest);
    } else {
      QueryAndEndDerive(rest);
    }
  }

  lemma QueryAndEndDerive(rest: seq<int>)
    ensures Derives([QUERY, END] + rest, SENTENCE[..6] + rest, 1)
  {
    hide Derives;
    QueryDerives([END] + rest);
    Associative([QUERY], [END], rest);
    Associative(RULES[2].rhs, [END], rest);
    assert [QUERY] + [END] == [QUERY, END];
    assert RULES[2].rhs + [END] == SENTENCE[..6];
  }

  lemma LabelsOnPath(k: nat)
    requires k <= 7
    ensures Labels(Stack(k)) == if k <= 5 then SENTENCE[..k] else if k == 6 then [QUERY] else [QUERY, END]
  {
  }

  lemma DerivesItself(w: seq<int>)
    ensures Derives(w, w, 0)
  {
  }

  lemma QueryDerives(rest: seq<int>)
    ensures Derives([QUERY] + rest, RULES[2].rhs + rest, 1) && SENTENCE[..5] == RULES[2].rhs
  {
    var form, w := [QUERY] + rest, RULES[2].rhs + rest;
    assert form[..0] + RULES[2].rhs + form[1..] == w;
    assert Rewrites(form, 0, 2, w);
    DerivesItself(w);
    DerivesStep(form, 0, 2, w, w, 0);
  }

  lemma ReadKinds(tokens: seq<Token>, n: nat)
    requires n <= |SENTENCE| && Agrees(tokens, n)
    ensures n <= |Kinds(tokens)| && Kinds(tokens)[..n] == SENTENCE[..n]
  {
    KindsAreRead(tokens);
    forall i: nat | i < n - 1
      ensures KindAt(tokens, i) != END
    {
      assert KindAt(tokens, i) == Expected(i);
    }
    KindsAreLong(tokens, n);
    hide KindAt, Kinds;
    forall i | 0 <= i < n
      ensures Kinds(tokens)[i] == SENTENCE[i]
    {
      assert KindAt(tokens, i) == Expected(i);
    }
  }

  lemma {:induction false} KindsAreLong(tokens: seq<Token>, n: nat)
    requires forall i: nat :: i < n - 1 ==> KindAt(tokens, i) != END
    ensures n <= |Kinds(tokens)|
    decreases n
  {
    if n > 1 {
      assert KindAt(tokens, 0) != END;
      forall i: nat | i < n - 2
        ensures KindAt(tokens[1..], i) != END
      {
        assert KindAt(tokens, i + 1) == KindAt(tokens[1..], i);
      }
      KindsAreLong(tokens[1..], n - 1);
    }
  }

  /** The leading tokens agree throughout exactly when their kinds, to the first end marker, are a string of the language. */
  lemma AgreementIsMembership(tokens: seq<Token>)
    ensures Agreement(tokens, 0) == |SENTENCE| <==> InLanguage(Kinds(tokens))
  {
    hide InLanguage, KindAt;
    LanguageIsOneSentence(Kinds(tokens));
    KindsAreRead(tokens);
    var kinds, agreed := Kinds(tokens), Agreement(tokens, 0);
    if agreed == |SENTENCE| {
      forall i | 0 <= i < |SENTENCE|
        ensures KindAt(tokens, i) == SENTENCE[i]
      {
        assert Expected(i) == SENTENCE[i];
      }
      assert |kinds| == |SENTENCE|;
      assert kinds == SENTENCE;
    }
    if kinds == SENTENCE {
      assert forall i :: 0 <= i < |SENTENCE| ==> KindAt(tokens, i) == Expected(i);
      AgreementReaches(tokens, 0, |SENTENCE|);
    }
  }

  /** Told by the codes the lexer returns: which token streams are accepted. */
  lemma AcceptedCodes(tokens: seq<Token>)
    ensures InLanguage(Kinds(tokens)) <==>
            && TokenAt(tokens, 0).code == 258 && TokenAt(tokens, 1).code == 261
            && TokenAt(tokens, 2).code == 259 && TokenAt(tokens, 3).code == 261
            && TokenAt(tokens, 4).code == 260 && TokenAt(tokens, 5).code <= 0
  {
    hide InLanguage, Kinds, Agreement, TokenAt;
    AgreementIsMembership(tokens);
    var n, i := |SENTENCE|, Agreement(tokens, 0);
    if i == n {
      assert KindAt(tokens, 0) == Expected(0) && KindAt(tokens, 1) == Expected(1) && KindAt(tokens, 2) == Expected(2);
      assert KindAt(tokens, 3) == Expected(3) && KindAt(tokens, 4) == Expected(4) && KindAt(tokens, 5) == Expected(5);
    } else {
      assert KindAt(tokens, i) != Expected(i);
      assert i == 0 || i == 1 || i == 2 || i == 3 || i == 4 || i == 5;
    }
  }

  lemma {:induction false} KindsAreRead(tokens: seq<Token>)
    ensures var kinds := Kinds(tokens);
            && kinds != [] && kinds[|kinds| - 1] == END
            && (forall i :: 0 <= i < |kinds| ==> kinds[i] == KindAt(tokens, i))
            && (forall i :: 0 <= i < |kinds| - 1 ==> KindAt(tokens, i) != END)
  {
    if KindAt(tokens, 0) != END {
      KindsAreRead(tokens[1..]);
      assert forall i: nat :: KindAt(tokens[1..], i) == KindAt(tokens, i + 1);
      forall i | 0 <= i < |Kinds(tokens)|
        ensures Kinds(tokens)[i] == KindAt(tokens, i)
        ensures i < |Kinds(tokens)| - 1 ==> KindAt(tokens, i) != END
      {
        if i > 0 { assert Kinds(tokens)[i] == Kinds(tokens[1..])[i - 1]; }
      }
    }
  }

  function Rank(target: Label): nat {
    match target
    case NewState => 8
    case SetState => 7
    case Backup => 6
    case Default => 5
    case Reduction => 4
    case OnError => 3
    case Recover => 2
    case _ => 0
  }
}
