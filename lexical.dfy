/**
 * Pure building blocks of the scanner in src/scanner.rs: the character
 * classes it dispatches on, the keyword table, maximal runs of characters,
 * newline counting and the value of a numeral.
 *
 * Characters are ASCII throughout: for ASCII, Rust's `is_digit(10)`,
 * `is_alphabetic` and `is_alphanumeric` coincide with the tests below.
 */
module Lexical {
  import opened Tokens

  predicate IsAscii(s: seq<char>) {
    forall i :: 0 <= i < |s| ==> s[i] < 128 as char
  }

  predicate IsDigit(c: char) {
    '0' <= c <= '9'
  }

  predicate IsAlpha(c: char) {
    ('a' <= c <= 'z') || ('A' <= c <= 'Z')
  }

  /** Characters that may start an identifier (the `'_' || is_alphabetic` arm). */
  predicate IsIdentStart(c: char) {
    c == '_' || IsAlpha(c)
  }

  /** Characters that may continue an identifier (`'_' || is_alphanumeric`). */
  predicate IsIdentChar(c: char) {
    c == '_' || IsAlpha(c) || IsDigit(c)
  }

  /** The reserved words and the token kinds they scan to. */
  const KEYWORDS: map<string, TokenType> := map[
    "and" := And,
    "class" := Class,
    "else" := Else,
    "false" := False,
    "for" := For,
    "fun" := Fun,
    "if" := If,
    "nil" := TokenType.Nil,
    "or" := Or,
    "print" := Print,
    "return" := Return,
    "super" := Super,
    "this" := This,
    "true" := True,
    "var" := Var,
    "while" := While
  ]

  /** The kind of an identifier-shaped lexeme: its keyword on an exact match,
      `Identifier` otherwise. */
  function IdentifierKind(lexeme: string): (k: TokenType)
    ensures k == Identifier <==> lexeme !in KEYWORDS
    ensures k.IsKeyword() <==> lexeme in KEYWORDS
    ensures lexeme in KEYWORDS ==> k == KEYWORDS[lexeme]
  {
    if lexeme in KEYWORDS then KEYWORDS[lexeme] else Identifier
  }

  /** The reserved word of each keyword kind. */
  function Spelling(k: TokenType): string
    requires k.IsKeyword()
  {
    match k
    case And => "and"
    case Class => "class"
    case Else => "else"
    case False => "false"
    case For => "for"
    case Fun => "fun"
    case If => "if"
    case Nil => "nil"
    case Or => "or"
    case Print => "print"
    case Return => "return"
    case Super => "super"
    case This => "this"
    case True => "true"
    case Var => "var"
    case While => "while"
  }

  /** The keyword table is a bijection between the sixteen reserved words and
      the sixteen keyword kinds: every entry maps a word to a keyword kind
      spelt that way, and every keyword kind is reached from its spelling. */
  lemma KeywordTableIsBijective()
    ensures forall w :: w in KEYWORDS ==> KEYWORDS[w].IsKeyword() && Spelling(KEYWORDS[w]) == w
    ensures forall k: TokenType :: k.IsKeyword() ==> Spelling(k) in KEYWORDS && KEYWORDS[Spelling(k)] == k
  {
    forall w | w in KEYWORDS
      ensures KEYWORDS[w].IsKeyword() && Spelling(KEYWORDS[w]) == w
    {
    }
    forall k: TokenType | k.IsKeyword()
      ensures Spelling(k) in KEYWORDS && KEYWORDS[Spelling(k)] == k
    {
    }
  }

  /** The classes of characters the scanner runs over with `peek(0)` loops:
      digits in `number`, identifier characters in `identifier`, anything
      but the closing quote in `string`, anything but a line feed in a `//`
      comment. */
  datatype CharRun = DigitRun | IdentRun | StringRun | CommentRun
  {
    predicate Admits(c: char) {
      match this
      case DigitRun => IsDigit(c)
      case IdentRun => IsIdentChar(c)
      case StringRun => c != '"'
      case CommentRun => c != '\n'
    }
  }

  /** The end of the maximal run of `run` characters that starts at offset
      `i`: every character in `[i, j)` belongs to it, and the run stops at the
      end of `s` or at the first character that does not. */
  function RunEnd(s: seq<char>, i: nat, run: CharRun): (j: nat)
    requires i <= |s|
    ensures i <= j <= |s|
    ensures forall k :: i <= k < j ==> run.Admits(s[k])
    ensures j == |s| || !run.Admits(s[j])
    decreases |s| - i
  {
    if i == |s| || !run.Admits(s[i]) then i else RunEnd(s, i + 1, run)
  }

  /** A run end is determined by its two defining properties. */
  lemma {:induction false} RunEndUnique(s: seq<char>, i: nat, j: nat, run: CharRun)
    requires i <= j <= |s|
    requires forall k :: i <= k < j ==> run.Admits(s[k])
    requires j == |s| || !run.Admits(s[j])
    ensures RunEnd(s, i, run) == j
    decreases j - i
  {
    if i < j {
      RunEndUnique(s, i + 1, j, run);
    }
  }

  /** The number of line feeds in `s`. */
  function Newlines(s: seq<char>): nat
    decreases |s|
  {
    if s == [] then 0 else Newlines(s[..|s| - 1]) + (if s[|s| - 1] == '\n' then 1 else 0)
  }

  /** Line feeds are counted piecewise. */
  lemma {:induction false} NewlinesAppend(a: seq<char>, b: seq<char>)
    ensures Newlines(a + b) == Newlines(a) + Newlines(b)
    decreases |b|
  {
    if b == [] {
      assert a + b == a;
    } else {
      assert (a + b)[..|a + b| - 1] == a + b[..|b| - 1];
      NewlinesAppend(a, b[..|b| - 1]);
    }
  }

  function DigitValue(c: char): nat {
    if IsDigit(c) then (c as int - '0' as int) else 0
  }

  /** The natural number a run of decimal digits denotes. */
  function DigitsValue(s: seq<char>): nat
    decreases |s|
  {
    if s == [] then 0 else 10 * DigitsValue(s[..|s| - 1]) + DigitValue(s[|s| - 1])
  }

  function Pow10(n: nat): (p: nat)
    ensures p >= 1
  {
    if n == 0 then 1 else 10 * Pow10(n - 1)
  }

  /** Every digit run of length n denotes less than 10^n. */
  lemma {:induction false} DigitsValueBound(s: seq<char>)
    ensures DigitsValue(s) < Pow10(|s|)
    decreases |s|
  {
    if s != [] {
      DigitsValueBound(s[..|s| - 1]);
    }
  }

  /** The numeral grammar the scanner accepts: `digits ('.' digits)?`. */
  predicate IsNumeral(s: seq<char>) {
    var d := RunEnd(s, 0, DigitRun);
    0 < d && (d == |s| || (s[d] == '.' && d + 1 < |s| && RunEnd(s, d + 1, DigitRun) == |s|))
  }

  /** `x / 10^n`, one division by ten at a time. */
  function Shift(x: real, n: nat): real
    decreases n
  {
    if n == 0 then x else Shift(x, n - 1) / 10.0
  }

  /** The exact value of the integer digits `whole` followed by the
      fractional digits `fraction`. */
  function DecimalValue(whole: seq<char>, fraction: seq<char>): real {
    DigitsValue(whole) as real + Shift(DigitsValue(fraction) as real, |fraction|)
  }

  /** The exact value of a numeral: its integer digits plus its fractional
      digits shifted right past the decimal point. */
  function NumeralValue(s: seq<char>): real {
    var d := RunEnd(s, 0, DigitRun);
    DecimalValue(s[..d], if d < |s| then s[d + 1..] else [])
  }

  /** Digit runs put together with a point in between, or a digit run
      alone, form a numeral, whose value is the decimal value of the runs. */
  lemma NumeralOfRuns(whole: seq<char>, fraction: seq<char>)
    requires |whole| > 0 && forall k :: 0 <= k < |whole| ==> IsDigit(whole[k])
    requires forall k :: 0 <= k < |fraction| ==> IsDigit(fraction[k])
    ensures var s := if fraction == [] then whole else whole + ['.'] + fraction;
      IsNumeral(s) && NumeralValue(s) == DecimalValue(whole, fraction)
  {
    var s := if fraction == [] then whole else whole + ['.'] + fraction;
    RunEndUnique(s, 0, |whole|, DigitRun);
    assert s[..|whole|] == whole;
    if fraction != [] {
      RunEndUnique(s, |whole| + 1, |s|, DigitRun);
      assert s[|whole| + 1..] == fraction;
    }
  }

  /** Shifting a value below `b * 10^n` right by `n` places leaves it below `b`. */
  lemma {:induction false} ShiftBelow(x: real, n: nat, b: real)
    requires 0.0 <= x < b * Pow10(n) as real
    ensures 0.0 <= Shift(x, n) < b
    decreases n
  {
    if n > 0 {
      assert b * Pow10(n) as real == (10.0 * b) * Pow10(n - 1) as real;
      ShiftBelow(x, n - 1, 10.0 * b);
    }
  }

  /** The fractional digits contribute strictly less than one: the integer
      part of a numeral's value is the value of its integer digits. */
  lemma NumeralValueIntegerPart(s: seq<char>)
    requires IsNumeral(s)
    ensures var whole := DigitsValue(s[..RunEnd(s, 0, DigitRun)]) as real;
      whole <= NumeralValue(s) < whole + 1.0
  {
    var d := RunEnd(s, 0, DigitRun);
    if d < |s| {
      var fraction := s[d + 1..];
      DigitsValueBound(fraction);
      ShiftBelow(DigitsValue(fraction) as real, |fraction|, 1.0);
    }
  }
}
