/**
 * The scanner of src/scanner.rs as a class: a character cursor (`start`,
 * `current`, `line`) over an ASCII source text, the tokens pushed so far, and
 * -- as ghost state -- the errors reported through `error_line` and the span
 * each token was cut from.  Each method is proved to do what the matching
 * function of LexSpec says.
 */
module Scanning {
  import opened Tokens
  import opened Lexical
  import opened LexSpec
  import opened LexProperties

  /** When the `scan_tokens` loop ends without a panic, the line it ends on
      is the starting line plus the line feeds it scanned: that is the line
      `Lex` stamps its `Eof` token with. */
  lemma SentinelLine(src: seq<char>, pos: nat, line: nat,
                     t0: seq<Token>, s0: seq<Span>, d0: seq<Diagnostic>,
                     t: seq<Token>, s: seq<Span>, d: seq<Diagnostic>, last: nat)
    requires pos <= |src|
    requires Preceded(t0, s0, d0, Lex(src, pos, line))
             == Preceded(t, s, d, Lexed([EofToken(last)], [Span(|src|, |src|)], [], false))
    ensures !Lex(src, pos, line).crashed && last == line + Newlines(src[pos..])
  {
    EofExactlyOnceLast(src, pos, line);
    var lexed := Lex(src, pos, line);
    assert !lexed.crashed;
    var all := t0 + lexed.tokens;
    assert all == t + [EofToken(last)];
    assert all[|all| - 1] == lexed.tokens[|lexed.tokens| - 1];
  }

  class Scanner {
    const source: string
    var tokens: seq<Token>
    var start: nat
    var current: nat
    var line: nat
    ghost var diagnostics: seq<Diagnostic>
    ghost var spans: seq<Span>

    /** The cursor invariant.  The source is ASCII: the scanner counts
        characters but cuts lexemes by bytes, and the two agree only there. */
    ghost predicate Valid()
      reads this
    {
      IsAscii(source) && start <= current <= |source| && 1 <= line
    }

    /** `Scanner::new` */
    constructor(source: string)
      requires IsAscii(source)
      ensures Valid() && this.source == source
      ensures tokens == [] && start == 0 && current == 0 && line == 1
      ensures diagnostics == [] && spans == []
    {
      this.source := source;
      tokens := [];
      start := 0;
      current := 0;
      line := 1;
      diagnostics := [];
      spans := [];
    }

    /** `is_at_end`: the cursor has passed the last character. */
    function IsAtEnd(): (atEnd: bool)
      reads this
      ensures atEnd <==> current >= |source|
    {
      current >= |source|
    }

    /** `advance`: consume and return the character under the cursor. */
    method Advance() returns (c: char)
      requires Valid() && current < |source|
      modifies this`current
      ensures Valid() && current == old(current) + 1 && c == source[old(current)]
    {
      c := source[current];
      current := current + 1;
    }

    /** `is_match`: consume the character under the cursor only if it is
        `expected`; at the end of input, or on any other character, the
        cursor stays where it is. */
    method IsMatch(expected: char) returns (matched: bool)
      requires Valid()
      modifies this`current
      ensures Valid()
      ensures matched <==> old(current) < |source| && source[old(current)] == expected
      ensures current == if matched then old(current) + 1 else old(current)
    {
      if IsAtEnd() || source[current] != expected {
        matched := false;
      } else {
        current := current + 1;
        matched := true;
      }
    }

    /** `peek`: the character `lookAhead` places past the cursor, or NUL once
        the cursor is at the end.  Before the end, the `unwrap` demands that
        the looked-at character exists. */
    function Peek(lookAhead: nat): (c: char)
      reads this
      requires current < |source| ==> current + lookAhead < |source|
      ensures current >= |source| ==> c == '\0'
      ensures current < |source| ==> c == source[current + lookAhead]
    {
      if IsAtEnd() then '\0' else source[current + lookAhead]
    }

    /** `add_token`: push a token cut from the current lexeme. */
    method AddToken(kind: TokenType, literal: Option<Value>)
      requires Valid()
      modifies this`tokens, this`spans
      ensures tokens == old(tokens) + [Token(kind, source[start..current], literal, line)]
      ensures spans == old(spans) + [Span(start, current)]
    {
      tokens := tokens + [Token(kind, source[start..current], literal, line)];
      spans := spans + [Span(start, current)];
    }

    /** `error_line(self.line, message)`: the report is recorded, scanning
        goes on. */
    ghost method ErrorLine(message: string)
      modifies this`diagnostics
      ensures diagnostics == old(diagnostics) + [Diagnostic(line, message)]
    {
      diagnostics := diagnostics + [Diagnostic(line, message)];
    }

    /** The state change that step `r` of LexSpec describes, from the state
        on entry to the current one.  After a crash nothing was pushed or
        reported by the step. */
    twostate predicate Performed(r: Step)
      reads this
    {
      && start == old(start)
      && (r.Step? ==>
            && current == r.current && line == r.line
            && tokens == old(tokens) + r.Tokens()
            && spans == old(spans) + StepSpans(old(start), r)
            && diagnostics == old(diagnostics) + r.Diagnostics())
      && (r.Crash? ==> tokens == old(tokens) && spans == old(spans) && diagnostics == old(diagnostics))
    }

    /** The loop of `string` that runs to the closing quote or the end of
        the input, counting the line feeds it passes. */
    method StringContents()
      requires Valid()
      modifies this`current, this`line
      ensures Valid() && current == RunEnd(source, old(current), StringRun)
      ensures line == old(line) + Newlines(source[old(current)..current])
    {
      while Peek(0) != '"' && !IsAtEnd()
        invariant Valid() && old(current) <= current
        invariant forall k :: old(current) <= k < current ==> StringRun.Admits(source[k])
        invariant line == old(line) + Newlines(source[old(current)..current])
        decreases |source| - current
      {
        assert source[old(current)..current + 1][..current - old(current)] == source[old(current)..current];
        if Peek(0) == '\n' {
          line := line + 1;
        }
        var _ := Advance();
      }
      RunEndUnique(source, old(current), current, StringRun);
    }

    /** `string`: the opening quote has been consumed. */
    method String()
      requires Valid() && start < |source| && current == start + 1
      modifies this`current, this`line, this`tokens, this`spans, this`diagnostics
      ensures Valid() && Performed(StringStep(source, old(start), old(line)))
    {
      ghost var line0 := line;
      StringContents();
      ghost var close := current;
      StringStepAt(source, start, line0, close, line);

      if IsAtEnd() {
        ErrorLine(UnterminatedString);
        return;
      }

      // the closing quote
      var _ := Advance();

      AddToken(TokenType.String, Some(Value.String(source[start + 1..current - 1])));
    }

    /** The loop `while self.peek(0).is_digit(10) { self.advance(); }`,
        which `number` runs over the integer and over the fractional digits. */
    method Digits()
      requires Valid()
      modifies this`current
      ensures Valid() && current == RunEnd(source, old(current), DigitRun)
    {
      while IsDigit(Peek(0))
        invariant Valid() && old(current) <= current
        invariant forall k :: old(current) <= k < current ==> DigitRun.Admits(source[k])
        decreases |source| - current
      {
        var _ := Advance();
      }
      RunEndUnique(source, old(current), current, DigitRun);
    }

    /** The loop `while self.peek(0) != '\n' && !self.is_at_end() { self.advance(); }`
        that skips the rest of a `//` comment, leaving the line feed unread. */
    method SkipComment()
      requires Valid()
      modifies this`current
      ensures Valid() && current == RunEnd(source, old(current), CommentRun)
    {
      while Peek(0) != '\n' && !IsAtEnd()
        invariant Valid() && old(current) <= current
        invariant forall k :: old(current) <= k < current ==> CommentRun.Admits(source[k])
        decreases |source| - current
      {
        var _ := Advance();
      }
      RunEndUnique(source, old(current), current, CommentRun);
    }

    /** The optional fractional part of `number`, entered with the cursor
        right after the integer digits: when `peek(0)` is a `.` and
        `peek(1)` a digit, consume the point and the digits after it.
        Returns false where `peek(1)` would unwrap past the end of the input
        (the `.` is the last character) and the scan panics; otherwise
        `fraction` is where the fractional digits, possibly none, start. */
    method Fraction() returns (ok: bool, fraction: nat)
      requires Valid()
      modifies this`current
      ensures Valid()
      ensures ok <==> !(old(current) + 1 == |source| && source[old(current)] == '.')
      ensures ok && HasFraction(source, old(current)) ==>
        fraction == old(current) + 1 && current == RunEnd(source, old(current) + 1, DigitRun)
      ensures ok && !HasFraction(source, old(current)) ==> fraction == old(current) == current
    {
      fraction := current;
      ok := true;
      if Peek(0) == '.' {
        if current + 1 == |source| {
          // `peek(1)` looks past the last character: the unwrap panics
          return false, fraction;
        }
        if IsDigit(Peek(1)) {
          var _ := Advance();
          fraction := current;
          Digits();
        }
      }
    }

    /** `number`: the first digit has been consumed.  Returns false when
        the scan panics. */
    method Number() returns (ok: bool)
      requires Valid() && start < |source| && current == start + 1
      modifies this`current, this`tokens, this`spans
      ensures Valid() && ok == NumberStep(source, old(start), old(line)).Step?
      ensures Performed(NumberStep(source, old(start), old(line)))
    {
      Digits();
      var whole := current;
      var fraction;
      ok, fraction := Fraction();
      if !ok {
        return;
      }
      NumberStepAt(source, start, line, whole, fraction, current);
      // `parse::<f64>()` of the lexeme, exactly: see StepProperties.IntegerMaximalMunch
      // and StepProperties.FractionValue
      AddToken(TokenType.Number, Some(Value.Number(DecimalValue(source[start..whole], source[fraction..current]))));
    }

    /** `identifier`: the first letter or underscore has been consumed. */
    method Identifier()
      requires Valid() && start < |source| && current == start + 1
      modifies this`current, this`tokens, this`spans
      ensures Valid() && Performed(IdentifierStep(source, old(start), old(line)))
    {
      while true
        modifies this`current
        invariant Valid() && start + 1 <= current
        invariant forall k :: start + 1 <= k < current ==> IdentRun.Admits(source[k])
        decreases |source| - current
      {
        var c := Peek(0);
        if IsIdentChar(c) {
          var _ := Advance();
        } else {
          break;
        }
      }

      RunEndUnique(source, start + 1, current, IdentRun);
      AddToken(IdentifierKind(source[start..current]), None);
    }

    /** `scan_token`: consume one lexeme starting at `start`.  Returns false
        when the scan panics. */
    method ScanToken() returns (ok: bool)
      requires Valid() && start == current && current < |source|
      modifies this`current, this`line, this`tokens, this`spans, this`diagnostics
      ensures Valid() && ok == ScanTokenAt(source, old(current), old(line)).Step?
      ensures Performed(ScanTokenAt(source, old(current), old(line)))
    {
      ok := true;
      var c := Advance();
      // the ten single-character arms and the four `is_match('=')` arms are
      // read from the Punctuation and Operator tables
      if Punctuation(c).Some? {
        AddToken(Punctuation(c).value, None);
      } else if Operator(c).Some? {
        var kinds := Operator(c).value;
        var equal := IsMatch('=');
        AddToken(if equal then kinds.1 else kinds.0, None);
      } else if c == '/' {
        var comment := IsMatch('/');
        if comment {
          SkipComment();
        } else {
          AddToken(Slash, None);
        }
      } else if c == ' ' || c == '\r' || c == '\t' {
      } else if c == '\n' {
        line := line + 1;
      } else if c == '"' {
        String();
      } else if IsDigit(c) {
        ok := Number();
      } else if IsIdentStart(c) {
        Identifier();
      } else {
        ErrorLine(UnexpectedCharacter);
      }
    }

    /** `scan_tokens`: scan lexemes until the input is exhausted, then push
        the `Eof` sentinel and hand back all tokens.  `None` stands for the
        panic of `number`; the tokens pushed and errors reported up to it are
        those of `Lex`. */
    method ScanTokens() returns (r: Option<seq<Token>>)
      requires Valid()
      modifies this
      ensures Valid()
      ensures var lexed := Lex(source, old(current), old(line));
        && tokens == old(tokens) + lexed.tokens
        && spans == old(spans) + lexed.spans
        && diagnostics == old(diagnostics) + lexed.diagnostics
        && (r.None? <==> lexed.crashed)
        && (r.Some? ==> r.value == tokens)
      ensures r.Some? ==>
        && current == |source|
        && line == old(line) + Newlines(source[old(current)..])
        && |tokens| > 0 && tokens[|tokens| - 1] == EofToken(line)
    {
      while !IsAtEnd()
        invariant Valid()
        invariant Preceded(old(tokens), old(spans), old(diagnostics), Lex(source, old(current), old(line)))
               == Preceded(tokens, spans, diagnostics, Lex(source, current, line))
        decreases |source| - current
      {
        start := current;
        ghost var before, lineBefore := current, line;
        ghost var tokens0, spans0, diagnostics0 := tokens, spans, diagnostics;
        LexStep(source, before, lineBefore);
        var ok := ScanToken();
        if !ok {
          return None;
        }
        ghost var step := ScanTokenAt(source, before, lineBefore);
        PrecededTwice(tokens0, spans0, diagnostics0, step.Tokens(), StepSpans(before, step), step.Diagnostics(),
                      Lex(source, current, line));
      }

      assert Lex(source, current, line) == Lexed([EofToken(line)], [Span(current, current)], [], false);
      SentinelLine(source, old(current), old(line), old(tokens), old(spans), old(diagnostics),
                   tokens, spans, diagnostics, line);
      tokens := tokens + [EofToken(line)];
      spans := spans + [Span(current, current)];
      r := Some(tokens);
    }
  }
}
