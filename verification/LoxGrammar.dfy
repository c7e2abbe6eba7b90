/**
 The Lox scanner: a hand-written lexer over `start`, `current` and `line`.

 The grammar of the tokens is `Matches`; it says which texts are lexemes of which kind and nothing about
 how to find them. `LongestMatch` is the maximal-munch rule over that grammar. `Next` and `Pieces` compute
 with it, and the class `Scanner` is the source's own loop.
 */
module LoxGrammar {
  import opened Sequences

  datatype TokenType =
    | LeftParen | RightParen | LeftBrace | RightBrace | Comma | Dot | Minus | Plus | Semicolon | Slash | Star
    | Bang | BangEqual | Equal | EqualEqual | Greater | GreaterEqual | Less | LessEqual
    | Identifier | String | Number
    | And | Class | Else | False | Fun | For | If | Nil | Or | Print | Return | Super | This | True | Var | While
    | EOF

  /** The literal of a token; a number keeps the digits that are handed to the floating-point parser. */
  datatype Literal = NoLiteral | Text(value: string) | Numeral(digits: string)

  datatype Token = Token(typ: TokenType, lexeme: string, literal: Literal, line: nat)

  datatype Error = UnexpectedCharacter(line: nat) | UnterminatedString(line: nat)

  // ---------- Character classes and word lists ----------

  predicate IsDigit(c: char) { '0' <= c <= '9' }

  predicate IsAlpha(c: char) { 'A' <= c <= 'Z' || 'a' <= c <= 'z' || c == '_' }

  predicate IsAlphaNumeric(c: char) { IsAlpha(c) || IsDigit(c) }

  predicate IsBlank(c: char) { c == ' ' || c == '\r' || c == '\t' || c == '\n' }

  function Keyword(text: string): Option<TokenType> {
    if text == "and" then Some(And)
    else if text == "class" then Some(Class)
    else if text == "else" then Some(Else)
    else if text == "false" then Some(False)
    else if text == "for" then Some(For)
    else if text == "fun" then Some(Fun)
    else if text == "if" then Some(If)
    else if text == "nil" then Some(Nil)
    else if text == "or" then Some(Or)
    else if text == "print" then Some(Print)
    else if text == "return" then Some(Return)
    else if text == "super" then Some(Super)
    else if text == "this" then Some(This)
    else if text == "true" then Some(True)
    else if text == "var" then Some(Var)
    else if text == "while" then Some(While)
    else None
  }

  function OneCharacter(c: char): Option<TokenType> {
    if c == '(' then Some(LeftParen)
    else if c == ')' then Some(RightParen)
    else if c == '{' then Some(LeftBrace)
    else if c == '}' then Some(RightBrace)
    else if c == ',' then Some(Comma)
    else if c == '.' then Some(Dot)
    else if c == '-' then Some(Minus)
    else if c == '+' then Some(Plus)
    else if c == ';' then Some(Semicolon)
    else if c == '*' then Some(Star)
    else if c == '/' then Some(Slash)
    else if c == '!' then Some(Bang)
    else if c == '=' then Some(Equal)
    else if c == '<' then Some(Less)
    else if c == '>' then Some(Greater)
    else None
  }

  /** The operator spelled `c` followed by an equals sign. */
  function WithEqual(c: char): Option<TokenType> {
    if c == '!' then Some(BangEqual)
    else if c == '=' then Some(EqualEqual)
    else if c == '<' then Some(LessEqual)
    else if c == '>' then Some(GreaterEqual)
    else None
  }

  // ---------- The grammar: which texts are pieces of which kind ----------

  datatype Kind = Lexeme(typ: TokenType) | Comment | Blank | Unterminated | Unexpected

  predicate IsDigits(s: string) { |s| > 0 && forall i :: 0 <= i < |s| ==> IsDigit(s[i]) }

  /** Digits, or digits, a point and digits. */
  predicate IsNumber(s: string) {
    IsDigits(s) || exists d :: 0 <= d < |s| && s[d] == '.' && IsDigits(s[..d]) && IsDigits(s[d + 1..])
  }

  predicate IsWord(s: string) {
    |s| > 0 && IsAlpha(s[0]) && forall i :: 0 <= i < |s| ==> IsAlphaNumeric(s[i])
  }

  predicate OpensString(s: string) { |s| > 0 && s[0] == '"' }

  predicate IsString(s: string) {
    |s| >= 2 && OpensString(s) && s[|s| - 1] == '"' && '"' !in s[1..|s| - 1]
  }

  predicate IsComment(s: string) {
    |s| >= 2 && s[0] == '/' && s[1] == '/' && '\n' !in s
  }

  function Symbol(s: string): Option<TokenType> {
    if |s| == 1 then OneCharacter(s[0])
    else if |s| == 2 && s[1] == '=' then WithEqual(s[0])
    else None
  }

  predicate StartsNothing(c: char) {
    !IsAlphaNumeric(c) && !IsBlank(c) && c != '"' && OneCharacter(c).None?
  }

  predicate Matches(s: string, k: Kind) {
    match k
    case Lexeme(String) => IsString(s)
    case Lexeme(Number) => IsNumber(s)
    case Lexeme(Identifier) => IsWord(s) && Keyword(s).None?
    case Lexeme(t) => (IsWord(s) && Keyword(s) == Some(t)) || Symbol(s) == Some(t)
    case Comment => IsComment(s)
    case Blank => |s| == 1 && IsBlank(s[0])
    case Unterminated => OpensString(s) && '"' !in s[1..]
    case Unexpected => |s| == 1 && StartsNothing(s[0])
  }

  /** Maximal munch: the first `n` characters of `s` are a piece of kind `k` and no longer prefix is a piece. */
  ghost predicate LongestMatch(s: string, n: nat, k: Kind) {
    && 0 < n <= |s|
    && Matches(s[..n], k)
    && forall m, k' :: n < m <= |s| ==> !Matches(s[..m], k')
  }

  // ---------- Finding the next piece, branch by branch as scanToken does ----------

  function NumberLength(s: string): (n: nat)
    ensures n <= |s|
  {
    var d := Span(s, IsDigit);
    if d + 1 < |s| && s[d] == '.' && IsDigit(s[d + 1]) then d + 1 + Span(s[d + 1..], IsDigit) else d
  }

  function WordKind(text: string): Kind {
    match Keyword(text)
    case Some(t) => Lexeme(t)
    case None => Lexeme(Identifier)
  }

  function Next(s: string): (r: (nat, Kind))
    requires s != []
    ensures 0 < r.0 <= |s|
  {
    var c := s[0];
    if |s| > 1 && s[1] == '=' && WithEqual(c).Some? then (2, Lexeme(WithEqual(c).value))
    else if |s| > 1 && c == '/' && s[1] == '/' then (2 + Span(s[2..], x => x != '\n'), Comment)
    else if OneCharacter(c).Some? then (1, Lexeme(OneCharacter(c).value))
    else if IsBlank(c) then (1, Blank)
    else if c == '"' then
      var n := Span(s[1..], x => x != '"');
      if 1 + n == |s| then (|s|, Unterminated) else (n + 2, Lexeme(String))
    else if IsDigit(c) then (NumberLength(s), Lexeme(Number))
    else if IsAlpha(c) then
      var n := Span(s, IsAlphaNumeric);
      (n, WordKind(s[..n]))
    else (1, Unexpected)
  }

  lemma WordKinds(s: string)
    requires IsWord(s)
    ensures Matches(s, WordKind(s))
  {
  }

  lemma NumberIsLongest(s: string)
    requires s != [] && IsDigit(s[0])
    ensures LongestMatch(s, NumberLength(s), Lexeme(Number))
  {
    var d := Span(s, IsDigit);
    var n := NumberLength(s);
    if n == d {
      assert IsDigits(s[..n]);
    } else {
      assert s[..n][..d] == s[..d];
      assert s[..n][d + 1..] == s[d + 1..n];
      assert IsDigits(s[..n][..d]) && IsDigits(s[..n][d + 1..]);
    }
    forall m, k | n < m <= |s|
      ensures !Matches(s[..m], k)
    {
      if IsNumber(s[..m]) {
        NumberBound(s, m);
      }
    }
  }

  lemma NumberBound(s: string, m: nat)
    requires m <= |s| && IsNumber(s[..m])
    ensures m <= NumberLength(s)
  {
    var t := s[..m];
    if IsDigits(t) {
      SpanBound(s, IsDigit, m);
    } else {
      var e :| 0 <= e < |t| && t[e] == '.' && IsDigits(t[..e]) && IsDigits(t[e + 1..]);
      forall i | 0 <= i < e
        ensures IsDigit(s[i])
      {
        assert IsDigit(t[..e][i]);
      }
      SpanBound(s, IsDigit, e);
      var tail := s[e + 1..];
      forall i | 0 <= i < m - e - 1
        ensures IsDigit(tail[i])
      {
        assert IsDigit(t[e + 1..][i]);
      }
      SpanBound(tail, IsDigit, m - e - 1);
      assert IsDigit(s[e + 1..][0]);
    }
  }

  lemma NotAWord(t: string, k: Kind)
    requires t != [] && IsAlpha(t[0]) && !IsWord(t)
    ensures !Matches(t, k)
  {
  }

  lemma WordIsLongest(s: string)
    requires s != [] && IsAlpha(s[0])
    ensures var n := Span(s, IsAlphaNumeric); LongestMatch(s, n, WordKind(s[..n]))
  {
    var n := Span(s, IsAlphaNumeric);
    WordKinds(s[..n]);
    forall m, k | n < m <= |s|
      ensures !Matches(s[..m], k)
    {
      assert s[..m][n] == s[n];
      NotAWord(s[..m], k);
    }
  }

  lemma StringIsLongest(s: string)
    requires OpensString(s)
    ensures LongestMatch(s, Next(s).0, Next(s).1)
  {
    var q := 1 + Span(s[1..], x => x != '"');
    forall i | 1 <= i < q
      ensures s[i] != '"'
    {
      assert s[1..][i - 1] == s[i];
    }
    if q < |s| {
      assert s[q] == s[1..][q - 1] == '"';
      assert s[..q + 1][1..q] == s[1..q];
      forall m, k | q + 1 < m <= |s|
        ensures !Matches(s[..m], k)
      {
        assert s[..m][1..m - 1][q - 1] == '"' && s[..m][1..][q - 1] == '"';
      }
    } else {
      assert s[..q] == s;
    }
  }

  lemma CommentIsLongest(s: string)
    requires |s| > 1 && s[0] == '/' && s[1] == '/'
    ensures LongestMatch(s, Next(s).0, Next(s).1)
  {
    var n := 2 + Span(s[2..], x => x != '\n');
    forall i | 0 <= i < n
      ensures s[i] != '\n'
    {
      assert i >= 2 ==> s[2..][i - 2] == s[i];
    }
    forall m, k | n < m <= |s|
      ensures !Matches(s[..m], k)
    {
      assert s[..m][n] == s[2..][n - 2] == '\n';
    }
  }

  lemma NextIsLongest(s: string)
    requires s != []
    ensures LongestMatch(s, Next(s).0, Next(s).1)
  {
    var (n, k) := Next(s);
    var c := s[0];
    if IsDigit(c) {
      NumberIsLongest(s);
    } else if IsAlpha(c) {
      WordIsLongest(s);
    } else if c == '"' {
      StringIsLongest(s);
    } else if |s| > 1 && c == '/' && s[1] == '/' {
      CommentIsLongest(s);
    } else {
      forall m, k' | n < m <= |s|
        ensures !Matches(s[..m], k')
      {
        assert s[..m][0] == c && s[..m][1] == s[1];
      }
    }
  }

  lemma LongestIsUnique(s: string, n: nat, k: Kind)
    requires LongestMatch(s, n, k)
    ensures Next(s) == (n, k)
  {
    NextIsLongest(s);
    assert n == Next(s).0;
    KindIsUnique(s[..n], k, Next(s).1);
  }

  lemma KindIsUnique(s: string, k: Kind, k': Kind)
    requires Matches(s, k) && Matches(s, k')
    ensures k == k'
  {
  }
}
