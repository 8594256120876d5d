/**
 * What one call of `scan_token` (src/scanner.rs:138-201) does, and what the
 * loop of `scan_tokens` (src/scanner.rs:203-213) produces, as functions of
 * the source text, the offset the lexeme starts at and the current line.
 * The class in scanner.dfy is proved to behave exactly as these say.
 */
module LexSpec {
  import opened Tokens
  import opened Lexical

  /** The outcome of scanning one lexeme: where the cursor and the line
      counter end up, the token pushed (if any) and the error reported (if
      any) -- or `Crash`, the panic of the `unwrap` inside `peek(1)`. */
  datatype Step =
    | Step(current: nat, line: nat, token: Option<Token>, diagnostic: Option<Diagnostic>)
    | Crash
  {
    function Tokens(): seq<Token>
      requires Step?
    {
      if token.Some? then [token.value] else []
    }

    function Diagnostics(): seq<Diagnostic>
      requires Step?
    {
      if diagnostic.Some? then [diagnostic.value] else []
    }
  }

  /** `add_token`: a token whose lexeme is the text from `start` to `cur`. */
  function Emit(src: seq<char>, start: nat, cur: nat, line: nat, kind: TokenType, literal: Option<Value>): Step
    requires start <= cur <= |src|
  {
    Step(cur, line, Some(Token(kind, src[start..cur], literal, line)), None)
  }

  /** `!`, `=`, `<`, `>`: the `...Equal` kind when `is_match('=')` succeeds. */
  function OperatorStep(src: seq<char>, start: nat, line: nat, bare: TokenType, equal: TokenType): Step
    requires start < |src|
  {
    if start + 1 < |src| && src[start + 1] == '=' then Emit(src, start, start + 2, line, equal, None)
    else Emit(src, start, start + 1, line, bare, None)
  }

  /** `//`: skip to the next line feed (not consumed) or the end of input. */
  function CommentStep(src: seq<char>, start: nat, line: nat): Step
    requires start + 2 <= |src|
  {
    Step(RunEnd(src, start + 2, CommentRun), line, None, None)
  }

  /** `string` (src/scanner.rs:80-99): run to the closing quote, counting
      the line feeds passed over. */
  function StringStep(src: seq<char>, start: nat, line: nat): Step
    requires start < |src|
  {
    var close := RunEnd(src, start + 1, StringRun);
    var line' := line + Newlines(src[start + 1..close]);
    if close == |src| then
      Step(close, line', None, Some(Diagnostic(line', UnterminatedString)))
    else
      Emit(src, start, close + 1, line', TokenType.String, Some(Value.String(src[start + 1..close])))
  }

  /** `StringStep` in terms of where the closing quote is looked for and the
      line reached there. */
  lemma StringStepAt(src: seq<char>, start: nat, line: nat, close: nat, line': nat)
    requires start < |src| && close == RunEnd(src, start + 1, StringRun)
    requires line' == line + Newlines(src[start + 1..close])
    ensures close == |src| ==>
      StringStep(src, start, line) == Step(close, line', None, Some(Diagnostic(line', UnterminatedString)))
    ensures close < |src| ==>
      StringStep(src, start, line)
      == Emit(src, start, close + 1, line', TokenType.String, Some(Value.String(src[start + 1..close])))
  {
  }

  /** A `Number` token for the text from `start` to `cur`, whose integer
      digits end at `whole` and whose fractional digits, possibly none, run
      from `fraction` to `cur`.  Its literal is their exact value. */
  function NumberToken(src: seq<char>, start: nat, whole: nat, fraction: nat, cur: nat, line: nat): Step
    requires start <= whole <= fraction <= cur <= |src|
  {
    var value := DecimalValue(src[start..whole], src[fraction..cur]);
    Emit(src, start, cur, line, TokenType.Number, Some(Value.Number(value)))
  }

  /** Whether the integer digits ending at `whole` are followed by a `.`
      and a digit, that is, by a fractional part. */
  predicate HasFraction(src: seq<char>, whole: nat) {
    whole + 1 < |src| && src[whole] == '.' && IsDigit(src[whole + 1])
  }

  /** `number` (src/scanner.rs:101-120).  After the integer digits, a `.`
      that is the last character of the input makes `peek(1)` unwrap past
      the end: that is the `Crash`. */
  function NumberStep(src: seq<char>, start: nat, line: nat): Step
    requires start < |src|
  {
    var whole := RunEnd(src, start + 1, DigitRun);
    if whole + 1 == |src| && src[whole] == '.' then Crash
    else
      var fraction := if HasFraction(src, whole) then whole + 1 else whole;
      var end := if HasFraction(src, whole) then RunEnd(src, whole + 1, DigitRun) else whole;
      NumberToken(src, start, whole, fraction, end, line)
  }

  /** `NumberStep` once the integer digits (ending at `whole`) and the
      fractional digits (from `fraction` to `cur`) have been delimited. */
  lemma NumberStepAt(src: seq<char>, start: nat, line: nat, whole: nat, fraction: nat, cur: nat)
    requires start < |src| && whole == RunEnd(src, start + 1, DigitRun)
    requires !(whole + 1 == |src| && src[whole] == '.')
    requires HasFraction(src, whole) ==> fraction == whole + 1 && cur == RunEnd(src, whole + 1, DigitRun)
    requires !HasFraction(src, whole) ==> fraction == whole && cur == whole
    ensures whole <= fraction <= cur <= |src|
    ensures NumberStep(src, start, line) == NumberToken(src, start, whole, fraction, cur, line)
  {
  }

  /** `identifier` (src/scanner.rs:122-136). */
  function IdentifierStep(src: seq<char>, start: nat, line: nat): Step
    requires start < |src|
  {
    var end := RunEnd(src, start + 1, IdentRun);
    Emit(src, start, end, line, IdentifierKind(src[start..end]), None)
  }

  lemma {:induction false} NoNewlines(s: seq<char>, lo: nat, hi: nat)
    requires lo <= hi <= |s|
    requires forall k :: lo <= k < hi ==> s[k] != '\n'
    ensures Newlines(s[lo..hi]) == 0
    decreases hi - lo
  {
    if lo < hi {
      assert s[lo..hi][..hi - lo - 1] == s[lo..hi - 1];
      NoNewlines(s, lo, hi - 1);
    }
  }

  /** The single-character punctuation tokens. */
  function Punctuation(c: char): Option<TokenType> {
    match c
    case '(' => Some(LeftParen)
    case ')' => Some(RightParen)
    case '{' => Some(LeftBrance)
    case '}' => Some(RightBrace)
    case ',' => Some(Comma)
    case '.' => Some(Dot)
    case '-' => Some(Minus)
    case '+' => Some(Plus)
    case ';' => Some(Semicolon)
    case '*' => Some(Star)
    case _ => None
  }

  /** The one- or two-character operators: the bare kind and the kind
      followed by `=`. */
  function Operator(c: char): Option<(TokenType, TokenType)> {
    match c
    case '!' => Some((Bang, BangEqual))
    case '=' => Some((Equal, EqualEqual))
    case '<' => Some((Less, LessEqual))
    case '>' => Some((Greater, GreaterEqual))
    case _ => None
  }

  /** What every non-crashing step keeps: it consumes at least one character,
      advances the line counter by exactly the line feeds consumed, cuts the
      token it emits (if any) from the consumed text at the new line, and
      reports an error (if any) at the new line instead of emitting. */
  predicate WellFormed(src: seq<char>, start: nat, line: nat, r: Step)
    requires start <= |src|
  {
    r.Step? ==>
      && start < r.current <= |src|
      && r.line == line + Newlines(src[start..r.current])
      && (r.token.Some? ==>
            && r.token.value.lexeme == src[start..r.current]
            && r.token.value.line == r.line
            && r.token.value.kind != Eof
            && r.diagnostic.None?)
      && (r.diagnostic.Some? ==> r.diagnostic.value.line == r.line)
  }

  /** A one-character step on a character that is not a line feed. */
  lemma SingleCharFacts(src: seq<char>, start: nat, line: nat, r: Step)
    requires start < |src| && src[start] != '\n'
    requires r.Step? && r.current == start + 1 && r.line == line
    requires r.token.Some? ==> r.token.value.lexeme == src[start..start + 1] && r.token.value.line == line
                               && r.token.value.kind != Eof && r.diagnostic.None?
    requires r.diagnostic.Some? ==> r.diagnostic.value.line == line
    ensures WellFormed(src, start, line, r)
  {
    NoNewlines(src, start, start + 1);
  }

  lemma OperatorFacts(src: seq<char>, start: nat, line: nat, bare: TokenType, equal: TokenType)
    requires start < |src| && src[start] != '\n' && bare != Eof && equal != Eof
    ensures WellFormed(src, start, line, OperatorStep(src, start, line, bare, equal))
  {
    if start + 1 < |src| && src[start + 1] == '=' {
      NoNewlines(src, start, start + 2);
    } else {
      NoNewlines(src, start, start + 1);
    }
  }

  lemma CommentFacts(src: seq<char>, start: nat, line: nat)
    requires start + 2 <= |src| && src[start] == '/' && src[start + 1] == '/'
    ensures WellFormed(src, start, line, CommentStep(src, start, line))
  {
    NoNewlines(src, start, CommentStep(src, start, line).current);
  }

  lemma StringFacts(src: seq<char>, start: nat, line: nat)
    requires start < |src| && src[start] == '"'
    ensures WellFormed(src, start, line, StringStep(src, start, line))
  {
    var close := RunEnd(src, start + 1, StringRun);
    assert src[start..close] == [src[start]] + src[start + 1..close];
    NewlinesAppend([src[start]], src[start + 1..close]);
    assert Newlines([src[start]]) == 0;
    if close < |src| {
      assert src[start..close + 1] == src[start..close] + [src[close]];
      NewlinesAppend(src[start..close], [src[close]]);
      assert Newlines([src[close]]) == 0;
    }
  }

  /** The facts `ScanTokenAt` states, for a lexeme that starts with a digit. */
  lemma NumberFacts(src: seq<char>, start: nat, line: nat)
    requires start < |src| && IsDigit(src[start])
    ensures WellFormed(src, start, line, NumberStep(src, start, line))
    ensures NumberStep(src, start, line).Crash? <==>
      src[|src| - 1] == '.' && RunEnd(src, start, DigitRun) == |src| - 1
  {
    var whole := RunEnd(src, start + 1, DigitRun);
    RunEndUnique(src, start, whole, DigitRun);
    var r := NumberStep(src, start, line);
    if r.Step? {
      NoNewlines(src, start, r.current);
    }
  }

  lemma IdentifierFacts(src: seq<char>, start: nat, line: nat)
    requires start < |src| && IsIdentStart(src[start])
    ensures WellFormed(src, start, line, IdentifierStep(src, start, line))
  {
    NoNewlines(src, start, IdentifierStep(src, start, line).current);
  }

  /** One call of `scan_token` with the lexeme starting at `start`.  It
      always consumes at least one character. */
  function ScanTokenAt(src: seq<char>, start: nat, line: nat): (r: Step)
    requires start < |src|
    ensures r.Step? ==> start < r.current <= |src|
  {
    var c := src[start];
    if Punctuation(c).Some? then Emit(src, start, start + 1, line, Punctuation(c).value, None)
    else if Operator(c).Some? then OperatorStep(src, start, line, Operator(c).value.0, Operator(c).value.1)
    else if c == '/' then
      if start + 1 < |src| && src[start + 1] == '/' then CommentStep(src, start, line)
      else Emit(src, start, start + 1, line, Slash, None)
    else if c == ' ' || c == '\r' || c == '\t' then Step(start + 1, line, None, None)
    else if c == '\n' then Step(start + 1, line + 1, None, None)
    else if c == '"' then StringStep(src, start, line)
    else if IsDigit(c) then NumberStep(src, start, line)
    else if IsIdentStart(c) then IdentifierStep(src, start, line)
    else Step(start + 1, line, None, Some(Diagnostic(line, UnexpectedCharacter)))
  }

  /** Every step is well formed, and a step crashes exactly when the rest of
      the input is a digit run followed by one final `.`. */
  lemma ScanTokenAtWellFormed(src: seq<char>, start: nat, line: nat)
    requires start < |src|
    ensures WellFormed(src, start, line, ScanTokenAt(src, start, line))
    ensures ScanTokenAt(src, start, line).Crash? <==>
      IsDigit(src[start]) && src[|src| - 1] == '.' && RunEnd(src, start, DigitRun) == |src| - 1
  {
    var c := src[start];
    var r := ScanTokenAt(src, start, line);
    if Punctuation(c).Some? {
      SingleCharFacts(src, start, line, r);
    } else if Operator(c).Some? {
      OperatorFacts(src, start, line, Operator(c).value.0, Operator(c).value.1);
    } else if c == '/' {
      if start + 1 < |src| && src[start + 1] == '/' {
        CommentFacts(src, start, line);
      } else {
        SingleCharFacts(src, start, line, r);
      }
    } else if c == ' ' || c == '\r' || c == '\t' {
      SingleCharFacts(src, start, line, r);
    } else if c == '\n' {
      assert src[start..start + 1] == ['\n'];
    } else if c == '"' {
      StringFacts(src, start, line);
    } else if IsDigit(c) {
      NumberFacts(src, start, line);
    } else if IsIdentStart(c) {
      IdentifierFacts(src, start, line);
    } else {
      SingleCharFacts(src, start, line, r);
    }
  }

  /** What scanning the rest of the input yields: the tokens pushed (ending
      in `Eof` unless the scan crashed), the span of each, the errors
      reported, and whether `number` panicked before the end. */
  datatype Lexed = Lexed(tokens: seq<Token>, spans: seq<Span>, diagnostics: seq<Diagnostic>, crashed: bool)

  /** `r` preceded by tokens, spans and diagnostics produced earlier. */
  function Preceded(tokens: seq<Token>, spans: seq<Span>, diagnostics: seq<Diagnostic>, r: Lexed): Lexed {
    Lexed(tokens + r.tokens, spans + r.spans, diagnostics + r.diagnostics, r.crashed)
  }

  /** The `scan_tokens` loop from offset `pos` and line `line` on. */
  function Lex(src: seq<char>, pos: nat, line: nat): Lexed
    requires pos <= |src|
    decreases |src| - pos
  {
    if pos == |src| then
      Lexed([EofToken(line)], [Span(pos, pos)], [], false)
    else
      var step := ScanTokenAt(src, pos, line);
      if step.Crash? then Lexed([], [], [], true)
      else Preceded(step.Tokens(), StepSpans(pos, step), step.Diagnostics(), Lex(src, step.current, step.line))
  }

  /** The span of the token a step emits, if any. */
  function StepSpans(start: nat, step: Step): seq<Span>
    requires step.Step?
  {
    if step.token.Some? then [Span(start, step.current)] else []
  }

  /** One turn of the `scan_tokens` loop, as an equation on `Lex`. */
  lemma LexStep(src: seq<char>, pos: nat, line: nat)
    requires pos < |src|
    ensures var step := ScanTokenAt(src, pos, line);
      && (step.Crash? ==> Lex(src, pos, line) == Lexed([], [], [], true))
      && (step.Step? ==>
            Lex(src, pos, line)
            == Preceded(step.Tokens(), StepSpans(pos, step), step.Diagnostics(), Lex(src, step.current, step.line)))
  {
  }

  lemma PrecededTwice(t1: seq<Token>, s1: seq<Span>, d1: seq<Diagnostic>,
                      t2: seq<Token>, s2: seq<Span>, d2: seq<Diagnostic>, r: Lexed)
    ensures Preceded(t1, s1, d1, Preceded(t2, s2, d2, r)) == Preceded(t1 + t2, s1 + s2, d1 + d2, r)
  {
    assert t1 + (t2 + r.tokens) == (t1 + t2) + r.tokens;
    assert s1 + (s2 + r.spans) == (s1 + s2) + r.spans;
    assert d1 + (d2 + r.diagnostics) == (d1 + d2) + r.diagnostics;
  }
}
