/**
 * What one call of `scan_token` does, lexeme class by lexeme class, stated
 * without the run-end machinery `ScanTokenAt` is written with: by the first
 * character of the lexeme and the characters around its end.
 */
module StepProperties {
  import opened Tokens
  import opened Lexical
  import opened LexSpec

  /** The characters `scan_token` silently skips. */
  predicate IsBlank(c: char) {
    c == ' ' || c == '\r' || c == '\t' || c == '\n'
  }

  /** The characters no arm of `scan_token` accepts. */
  predicate IsUnexpected(c: char) {
    && Punctuation(c).None? && Operator(c).None? && c != '/' && !IsBlank(c)
    && c != '"' && !IsDigit(c) && !IsIdentStart(c)
  }

  /** A single-character punctuation mark is a token of its own. */
  lemma PunctuationToken(src: seq<char>, start: nat, line: nat)
    requires start < |src| && Punctuation(src[start]).Some?
    ensures ScanTokenAt(src, start, line)
            == Step(start + 1, line, Some(Token(Punctuation(src[start]).value, [src[start]], None, line)), None)
  {
    assert src[start..start + 1] == [src[start]];
  }

  /** `!`, `=`, `<` and `>` take a following `=` into the same token when
      there is one (the `...Equal` kind, two characters), and are one
      character of the bare kind otherwise; either way the token has no
      literal and is on the current line. */
  lemma OperatorMaximalMunch(src: seq<char>, start: nat, line: nat)
    requires start < |src| && src[start] in "!=<>"
    ensures var eq := start + 1 < |src| && src[start + 1] == '=';
      var n := if eq then start + 2 else start + 1;
      var kind :=
        if src[start] == '!' then (if eq then BangEqual else Bang)
        else if src[start] == '=' then (if eq then EqualEqual else Equal)
        else if src[start] == '<' then (if eq then LessEqual else Less)
        else (if eq then GreaterEqual else Greater);
      && n <= |src|
      && ScanTokenAt(src, start, line) == Step(n, line, Some(Token(kind, src[start..n], None, line)), None)
  {
  }

  /** The four operators and the kinds they scan to, bare and with `=`. */
  lemma OperatorTable()
    ensures Operator('!') == Some((Bang, BangEqual))
    ensures Operator('=') == Some((Equal, EqualEqual))
    ensures Operator('<') == Some((Less, LessEqual))
    ensures Operator('>') == Some((Greater, GreaterEqual))
    ensures forall c :: Operator(c).Some? <==> c == '!' || c == '=' || c == '<' || c == '>'
  {
  }

  /** A `/` not followed by another `/` is a division sign. */
  lemma SlashToken(src: seq<char>, start: nat, line: nat)
    requires start < |src| && src[start] == '/' && !(start + 1 < |src| && src[start + 1] == '/')
    ensures ScanTokenAt(src, start, line) == Step(start + 1, line, Some(Token(Slash, "/", None, line)), None)
  {
    assert src[start..start + 1] == ['/'];
  }

  /** A `//` comment runs up to the next line feed, which it leaves for the
      next call, or to the end of the input; it yields nothing. */
  lemma CommentSkipped(src: seq<char>, start: nat, line: nat, end: nat)
    requires start + 2 <= end <= |src| && src[start] == '/' && src[start + 1] == '/'
    requires forall k :: start + 2 <= k < end ==> src[k] != '\n'
    requires end == |src| || src[end] == '\n'
    ensures ScanTokenAt(src, start, line) == Step(end, line, None, None)
  {
    RunEndUnique(src, start + 2, end, CommentRun);
  }

  /** Spaces, carriage returns and tabs are skipped; a line feed is skipped
      and counted. */
  lemma BlankSkipped(src: seq<char>, start: nat, line: nat)
    requires start < |src| && IsBlank(src[start])
    ensures ScanTokenAt(src, start, line)
            == Step(start + 1, if src[start] == '\n' then line + 1 else line, None, None)
  {
  }

  /** A string literal closed at `close` is one token: its lexeme keeps the
      quotes, its literal drops them, and it is stamped with the line its
      closing quote is on. */
  lemma StringClosed(src: seq<char>, start: nat, line: nat, close: nat)
    requires start < close < |src| && src[start] == '"' && src[close] == '"'
    requires forall k :: start < k < close ==> src[k] != '"'
    ensures var line' := line + Newlines(src[start + 1..close]);
      ScanTokenAt(src, start, line)
      == Step(close + 1, line', Some(Token(TokenType.String, src[start..close + 1],
                                           Some(Value.String(src[start + 1..close])), line')), None)
  {
    RunEndUnique(src, start + 1, close, StringRun);
  }

  /** A string literal that is never closed consumes the rest of the input,
      yields no token and reports "Unterminated string" on the last line. */
  lemma StringUnterminated(src: seq<char>, start: nat, line: nat)
    requires start < |src| && src[start] == '"'
    requires forall k :: start < k < |src| ==> src[k] != '"'
    ensures var line' := line + Newlines(src[start + 1..]);
      ScanTokenAt(src, start, line) == Step(|src|, line', None, Some(Diagnostic(line', UnterminatedString)))
  {
    RunEndUnique(src, start + 1, |src|, StringRun);
    assert src[start + 1..|src|] == src[start + 1..];
  }

  /** `RunEnd` within a slice: the run stops at the slice's end at the
      latest. */
  lemma RunEndSlice(s: seq<char>, lo: nat, hi: nat, i: nat, run: CharRun)
    requires lo <= i <= hi <= |s|
    ensures RunEnd(s[lo..hi], i - lo, run) == (if RunEnd(s, i, run) < hi then RunEnd(s, i, run) else hi) - lo
  {
    var e := RunEnd(s, i, run);
    var j := (if e < hi then e else hi) - lo;
    RunEndUnique(s[lo..hi], i - lo, j, run);
  }

  /** A run of digits from `start` to `end` that is not followed by a `.`
      and a digit (nor by a `.` that ends the input) is a `Number` token
      whose literal is the value of the digits. */
  lemma IntegerLiteral(src: seq<char>, start: nat, line: nat, end: nat)
    requires start < end <= |src| && forall k :: start <= k < end ==> IsDigit(src[k])
    requires end < |src| ==> !IsDigit(src[end]) && !(src[end] == '.' && (end + 1 == |src| || IsDigit(src[end + 1])))
    ensures ScanTokenAt(src, start, line)
            == Step(end, line, Some(Token(TokenType.Number, src[start..end],
                                          Some(Value.Number(DigitsValue(src[start..end]) as real)), line)), None)
  {
    RunEndUnique(src, start + 1, end, DigitRun);
    NumberStepAt(src, start, line, end, end, end);
    assert src[end..end] == [];
  }

  /** The digit run is the whole of the numeral `src[start..end]`, and it is
      the longest prefix of `src[start..]` that is a numeral. */
  lemma IntegerMaximalMunch(src: seq<char>, start: nat, end: nat)
    requires start < end <= |src| && forall k :: start <= k < end ==> IsDigit(src[k])
    requires end < |src| ==> !IsDigit(src[end]) && !(src[end] == '.' && (end + 1 == |src| || IsDigit(src[end + 1])))
    ensures IsNumeral(src[start..end]) && NumeralValue(src[start..end]) == DigitsValue(src[start..end]) as real
    ensures forall e :: end < e <= |src| ==> !IsNumeral(src[start..e])
  {
    NumeralOfRuns(src[start..end], []);
    RunEndUnique(src, start, end, DigitRun);
    forall e | end < e <= |src|
      ensures !IsNumeral(src[start..e])
    {
      RunEndSlice(src, start, e, start, DigitRun);
      if end + 1 < e {
        RunEndSlice(src, start, e, end + 1, DigitRun);
      }
    }
  }

  /** Digits from `start` to `point`, a `.` at `point` and digits from
      there to `end`, not followed by another digit, are one `Number` token
      whose literal is the value of the integer digits plus that of the
      fractional digits shifted past the point. */
  lemma FractionLiteral(src: seq<char>, start: nat, line: nat, point: nat, end: nat)
    requires start < point && point + 1 < end <= |src| && src[point] == '.'
    requires forall k :: start <= k < point ==> IsDigit(src[k])
    requires forall k :: point < k < end ==> IsDigit(src[k])
    requires end < |src| ==> !IsDigit(src[end])
    ensures ScanTokenAt(src, start, line)
            == Step(end, line, Some(Token(TokenType.Number, src[start..end],
                                          Some(Value.Number(DecimalValue(src[start..point], src[point + 1..end]))), line)), None)
  {
    RunEndUnique(src, start + 1, point, DigitRun);
    RunEndUnique(src, point + 1, end, DigitRun);
    NumberStepAt(src, start, line, point, point + 1, end);
  }

  /** Such a lexeme is a numeral, and its literal is exactly its value. */
  lemma FractionValue(src: seq<char>, start: nat, point: nat, end: nat)
    requires start < point && point + 1 < end <= |src| && src[point] == '.'
    requires forall k :: start <= k < point ==> IsDigit(src[k])
    requires forall k :: point < k < end ==> IsDigit(src[k])
    ensures IsNumeral(src[start..end])
    ensures NumeralValue(src[start..end]) == DecimalValue(src[start..point], src[point + 1..end])
  {
    var whole, fraction := src[start..point], src[point + 1..end];
    assert forall k :: 0 <= k < |whole| ==> IsDigit(whole[k]);
    assert forall k :: 0 <= k < |fraction| ==> IsDigit(fraction[k]);
    assert fraction != [] by {
      assert |fraction| == end - point - 1;
    }
    assert src[start..end] == whole + ['.'] + fraction by {
      assert src[start..end] == src[start..point] + src[point..point + 1] + src[point + 1..end];
    }
    NumeralOfRuns(whole, fraction);
  }

  /** ... and it is the longest prefix of `src[start..]` that is a numeral. */
  lemma FractionMaximalMunch(src: seq<char>, start: nat, point: nat, end: nat)
    requires start < point && point + 1 < end <= |src| && src[point] == '.'
    requires forall k :: start <= k < point ==> IsDigit(src[k])
    requires forall k :: point < k < end ==> IsDigit(src[k])
    requires end < |src| ==> !IsDigit(src[end])
    ensures forall e :: end < e <= |src| ==> !IsNumeral(src[start..e])
  {
    RunEndUnique(src, start, point, DigitRun);
    RunEndUnique(src, point + 1, end, DigitRun);
    forall e | end < e <= |src|
      ensures !IsNumeral(src[start..e])
    {
      RunEndSlice(src, start, e, start, DigitRun);
      RunEndSlice(src, start, e, point + 1, DigitRun);
    }
  }

  /** An identifier is the longest run of letters, digits and underscores
      from its first character; it scans to the keyword it spells, if any,
      and to `Identifier` otherwise, and carries no literal. */
  lemma IdentifierToken(src: seq<char>, start: nat, line: nat)
    requires start < |src| && IsIdentStart(src[start])
    ensures var r := ScanTokenAt(src, start, line);
      && r.Step? && r.token.Some? && r.diagnostic.None? && r.line == line
      && var lexeme := r.token.value.lexeme;
      && lexeme == src[start..r.current]
      && (forall k :: start <= k < r.current ==> IsIdentChar(src[k]))
      && (r.current == |src| || !IsIdentChar(src[r.current]))
      && (lexeme in KEYWORDS ==> r.token.value.kind == KEYWORDS[lexeme])
      && (lexeme !in KEYWORDS ==> r.token.value.kind == Identifier)
      && r.token.value.literal.None?
  {
  }

  /** Any other character is reported as "Unexpected character" on the
      current line and skipped; scanning goes on. */
  lemma UnexpectedReported(src: seq<char>, start: nat, line: nat)
    requires start < |src| && IsUnexpected(src[start])
    ensures ScanTokenAt(src, start, line) == Step(start + 1, line, None, Some(Diagnostic(line, UnexpectedCharacter)))
  {
  }

  /** `number` panics exactly when the lexeme's digits run up to a `.` that
      is the last character of the input. */
  lemma NumberPanics(src: seq<char>, start: nat, line: nat)
    requires start < |src|
    ensures ScanTokenAt(src, start, line).Crash? <==>
      && IsDigit(src[start]) && src[|src| - 1] == '.'
      && forall k :: start <= k < |src| - 1 ==> IsDigit(src[k])
  {
    ScanTokenAtWellFormed(src, start, line);
    if IsDigit(src[start]) && src[|src| - 1] == '.' && forall k :: start <= k < |src| - 1 ==> IsDigit(src[k]) {
      RunEndUnique(src, start, |src| - 1, DigitRun);
    }
  }
}
