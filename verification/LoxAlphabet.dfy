/** The scanner's alphabet written out: what each character, operator, word and literal on its own comes out as. */
module LoxAlphabet {
  import opened Sequences
  import opened LoxGrammar
  import opened LoxTokens
  import opened LoxScanner
  import opened LoxLocality

  // ---------- Characters ----------

  lemma DigitsAre(c: char)
    ensures IsDigit(c) <==> c in "0123456789"
  {
    DecimalsAre(c);
  }

  lemma LettersAre(c: char)
    ensures IsAlpha(c) <==> c in "ABCDEFGHIJKLMNOPQRSTUVWXYZ" || c in "abcdefghijklmnopqrstuvwxyz" || c == '_'
  {
    UpperCaseAre(c);
    LowerCaseAre(c);
  }

  // ---------- A piece on its own ----------

  lemma Alone(text: string, k: Kind)
    requires text != [] && Matches(text, k)
    ensures Tokens(text) == TokenFor(Piece(text, k), 1 + Newlines(text))
    ensures Errors(text) == ErrorFor(Piece(text, k), 1 + Newlines(text))
  {
    hide Matches, Next, TokenFor, ErrorFor, Newlines, Pieces, TokensOf, ErrorsOf;
    LongestIsUnique(text, |text|, k) by {
      assert text[..|text|] == text;
    }
    PiecesCons(text);
    assert text[..|text|] == text && text[|text|..] == [];
    NothingAfter(1 + Newlines(text));
    TokensOfCons(Piece(text, k), [], 1);
    assert [Piece(text, k)] + [] == [Piece(text, k)];
  }

  lemma NothingAfter(line: nat)
    ensures Pieces([]) == [] && TokensOf([], line) == [] && ErrorsOf([], line) == []
  {
  }

  lemma WordComesOut(word: string)
    requires IsWord(word)
    ensures Tokens(word) == [Token(if Keyword(word).Some? then Keyword(word).value else Identifier, word, NoLiteral, 1)]
    ensures Errors(word) == []
  {
    hide Keyword, Matches, IsWord, Tokens, Errors, TokenFor, ErrorFor, WordKind, Newlines;
    WordKinds(word);
    WordToken(word, 1);
    WordHoldsNoNewline(word);
    NotEmpty(word);
    Alone(word, WordKind(word));
  }

  /** A reserved word has its own type; any other word is an identifier. */
  lemma WordAlone(word: string)
    requires IsWord(word)
    ensures var t := match word
                     case "and" => And
                     case "class" => Class
                     case "else" => Else
                     case "false" => False
                     case "for" => For
                     case "fun" => Fun
                     case "if" => If
                     case "nil" => Nil
                     case "or" => Or
                     case "print" => Print
                     case "return" => Return
                     case "super" => Super
                     case "this" => This
                     case "true" => True
                     case "var" => Var
                     case "while" => While
                     case _ => Identifier;
            Tokens(word) == [Token(t, word, NoLiteral, 1)] && Errors(word) == []
  {
    hide Tokens, Errors, IsWord;
    WordComesOut(word);
  }

  lemma NotEmpty(word: string)
    requires IsWord(word)
    ensures word != []
  {
  }

  lemma WordHoldsNoNewline(word: string)
    requires IsWord(word)
    ensures Newlines(word) == 0
  {
    CountAbsent(word, '\n');
  }

  /** A number keeps its digits. */
  lemma NumberAlone(digits: string, fraction: string)
    requires IsDigits(digits) && (fraction == [] || (fraction[0] == '.' && IsDigits(fraction[1..])))
    ensures Tokens(digits + fraction) == [Token(Number, digits + fraction, Numeral(digits + fraction), 1)]
    ensures Errors(digits + fraction) == []
  {
    hide IsDigits, IsNumber, Tokens, Errors, Newlines;
    var text := digits + fraction;
    IsNumeral(digits, fraction);
    NumberHoldsNoNewline(text);
    NoNewlines(text);
    NumberPiece(text);
  }

  lemma NumberPiece(text: string)
    requires IsNumber(text) && Newlines(text) == 0
    ensures Tokens(text) == [Token(Number, text, Numeral(text), 1)] && Errors(text) == []
  {
    hide Newlines, Tokens, Errors;
    Alone(text, Lexeme(Number));
  }

  lemma IsNumeral(digits: string, fraction: string)
    requires IsDigits(digits) && (fraction == [] || (fraction[0] == '.' && IsDigits(fraction[1..])))
    ensures IsNumber(digits + fraction)
  {
    var text := digits + fraction;
    hide IsDigits;
    if fraction == [] {
      assert text == digits;
    } else {
      assert text[..|digits|] == digits && text[|digits| + 1..] == fraction[1..] && text[|digits|] == '.';
    }
  }

  /** A string stands for what is between its quotes, on the line where it ends. */
  lemma StringAlone(body: string)
    requires '"' !in body
    ensures Tokens(['"'] + body + ['"']) == [Token(String, ['"'] + body + ['"'], Text(body), 1 + Newlines(body))]
    ensures Errors(['"'] + body + ['"']) == []
  {
    var text := ['"'] + body + ['"'];
    assert text[1..|text| - 1] == body;
    assert Matches(text, Lexeme(String));
    Alone(text, Lexeme(String));
    QuotesHoldNoNewline(body);
  }

  /** Without its closing quote it is reported on the last line. */
  lemma OpenStringAlone(body: string)
    requires '"' !in body
    ensures Tokens(['"'] + body) == [] && Errors(['"'] + body) == [UnterminatedString(1 + Newlines(body))]
  {
    var text := ['"'] + body;
    assert text[1..] == body;
    Alone(text, Unterminated);
    QuotesHoldNoNewline(body);
  }

  lemma QuotesHoldNoNewline(body: string)
    ensures Newlines(['"'] + body) == Newlines(['"'] + body + ['"']) == Newlines(body)
  {
    CountAppend(['"'], body, '\n');
    CountAppend(['"'] + body, ['"'], '\n');
    CountAbsent(['"'], '\n');
  }

  lemma CommentAlone(text: string)
    requires '\n' !in text
    ensures Tokens("//" + text) == [] && Errors("//" + text) == []
  {
    Alone("//" + text, Comment);
  }

  lemma SymbolComesOut(text: string)
    requires Symbol(text).Some?
    ensures Tokens(text) == [Token(Symbol(text).value, text, NoLiteral, 1)] && Errors(text) == []
  {
    var t := Symbol(text).value;
    assert Matches(text, Lexeme(t));
    Alone(text, Lexeme(t));
    CountAbsent(text, '\n');
  }

  /** The operators, brackets and separators; no other text is one. */
  lemma SymbolAlone(text: string)
    ensures var t := match text
                     case "(" => Some(LeftParen)
                     case ")" => Some(RightParen)
                     case "{" => Some(LeftBrace)
                     case "}" => Some(RightBrace)
                     case "," => Some(Comma)
                     case "." => Some(Dot)
                     case "-" => Some(Minus)
                     case "+" => Some(Plus)
                     case ";" => Some(Semicolon)
                     case "/" => Some(Slash)
                     case "*" => Some(Star)
                     case "!" => Some(Bang)
                     case "!=" => Some(BangEqual)
                     case "=" => Some(Equal)
                     case "==" => Some(EqualEqual)
                     case ">" => Some(Greater)
                     case ">=" => Some(GreaterEqual)
                     case "<" => Some(Less)
                     case "<=" => Some(LessEqual)
                     case _ => None;
            && (t.Some? <==> Symbol(text).Some?)
            && (t.Some? ==> Tokens(text) == [Token(t.value, text, NoLiteral, 1)] && Errors(text) == [])
  {
    hide Tokens, Errors;
    if |text| == 1 {
      assert text == [text[0]];
    } else if |text| == 2 {
      assert text == [text[0], text[1]];
    }
    if Symbol(text).Some? {
      SymbolComesOut(text);
    }
  }

  /** Four blanks are passed over; any other character that starts no piece is reported. */
  lemma OtherCharacterAlone(c: char)
    requires !IsAlphaNumeric(c) && c !in "\"(){},.-+;/*!=><"
    ensures Tokens([c]) == []
    ensures Errors([c]) == if c in " \r\t\n" then [] else [UnexpectedCharacter(1)]
  {
    Alone([c], if IsBlank(c) then Blank else Unexpected);
    if c != '\n' { CountAbsent([c], '\n'); }
  }

  // ---------- Where a report stands ----------

  /** A report's line is the first line plus the newlines up to the end of what it is about. */
  lemma {:induction false} ErrorLine(ps: seq<Piece>, i: nat, line: nat)
    requires i < |ps| && (ps[i].kind == Unterminated || ps[i].kind == Unexpected)
    ensures var j, end := |ErrorsOf(ps[..i], line)|, line + Newlines(Concat(Texts(ps[..i + 1])));
            && j < |ErrorsOf(ps, line)|
            && ErrorsOf(ps, line)[j] ==
               if ps[i].kind == Unterminated then UnterminatedString(end) else UnexpectedCharacter(end)
  {
    hide TokensOf, ErrorsOf, TokenFor, ErrorFor, Newlines, Texts, Concat;
    var p, rest := ps[0], ps[1..];
    var end := line + Newlines(p.text);
    assert ps == [p] + rest;
    TokensOfCons(p, rest, line);
    if i == 0 {
      assert ps[..0] == [] && ps[..1] == [p];
      FirstReport(p, line);
    } else {
      ErrorLine(rest, i - 1, end);
      assert ps[..i] == [p] + rest[..i - 1] && ps[..i + 1] == [p] + rest[..i];
      TokensOfCons(p, rest[..i - 1], line);
      NewlinesOfCons(p, rest[..i]);
      var head, later, j := ErrorFor(p, end), ErrorsOf(rest, end), |ErrorsOf(rest[..i - 1], end)|;
      assert (head + later)[|head| + j] == later[j];
    }
  }

  lemma FirstReport(p: Piece, line: nat)
    requires p.kind == Unterminated || p.kind == Unexpected
    ensures ErrorsOf([], line) == [] && Concat(Texts([p])) == p.text
    ensures var end := line + Newlines(p.text);
            ErrorFor(p, end) == [if p.kind == Unterminated then UnterminatedString(end) else UnexpectedCharacter(end)]
  {
    assert Texts([p])[1..] == [];
  }
}
