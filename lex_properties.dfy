/**
 * What the `scan_tokens` loop produces over the whole input, as properties
 * of `Lex`: the `Eof` sentinel, where every token was cut from, the lines
 * tokens are stamped with, when the scan panics, and the tokens of a few
 * small inputs.
 */
module LexProperties {
  import opened Tokens
  import opened Lexical
  import opened LexSpec
  import opened StepProperties

  /** Line feeds add up over adjacent pieces of text. */
  lemma NewlinesSplit(s: seq<char>, lo: nat, mid: nat, hi: nat)
    requires lo <= mid <= hi <= |s|
    ensures Newlines(s[lo..hi]) == Newlines(s[lo..mid]) + Newlines(s[mid..hi])
  {
    assert s[lo..hi] == s[lo..mid] + s[mid..hi];
    NewlinesAppend(s[lo..mid], s[mid..hi]);
  }

  /** One turn of the loop, with the facts every step keeps. */
  lemma Unrolled(src: seq<char>, pos: nat, line: nat) returns (step: Step)
    requires pos < |src|
    ensures step == ScanTokenAt(src, pos, line) && WellFormed(src, pos, line, step)
    ensures step.Crash? ==> Lex(src, pos, line) == Lexed([], [], [], true)
    ensures step.Step? ==>
      Lex(src, pos, line) == Preceded(step.Tokens(), StepSpans(pos, step), step.Diagnostics(), Lex(src, step.current, step.line))
  {
    LexStep(src, pos, line);
    ScanTokenAtWellFormed(src, pos, line);
    step := ScanTokenAt(src, pos, line);
  }

  // ---------------------------------------------------------------------
  // The `Eof` sentinel

  /** `r` ends with the `Eof` token of line `line` unless it crashed, and
      holds no other `Eof` token. */
  predicate EndsWithEof(r: Lexed, line: nat) {
    && (!r.crashed ==> |r.tokens| > 0 && r.tokens[|r.tokens| - 1] == EofToken(line))
    && (forall i :: 0 <= i < |r.tokens| && (r.crashed || i < |r.tokens| - 1) ==> r.tokens[i].kind != Eof)
  }

  lemma EofPreceded(t: seq<Token>, s: seq<Span>, d: seq<Diagnostic>, r: Lexed, line: nat)
    requires EndsWithEof(r, line) && forall i :: 0 <= i < |t| ==> t[i].kind != Eof
    ensures EndsWithEof(Preceded(t, s, d, r), line)
  {
    var p := Preceded(t, s, d, r);
    assert forall i :: |t| <= i < |p.tokens| ==> p.tokens[i] == r.tokens[i - |t|];
  }

  /** A scan that does not panic ends with exactly one `Eof` token, with an
      empty lexeme, no literal and the line reached after the last line
      feed; no other token is `Eof`, and a scan that panics has none. */
  lemma {:induction false} EofExactlyOnceLast(src: seq<char>, pos: nat, line: nat)
    requires pos <= |src|
    ensures EndsWithEof(Lex(src, pos, line), line + Newlines(src[pos..]))
    decreases |src| - pos
  {
    if pos < |src| {
      var step := Unrolled(src, pos, line);
      if step.Step? {
        EofExactlyOnceLast(src, step.current, step.line);
        NewlinesSplit(src, pos, step.current, |src|);
        assert src[pos..] == src[pos..|src|] && src[step.current..] == src[step.current..|src|];
        EofPreceded(step.Tokens(), StepSpans(pos, step), step.Diagnostics(), Lex(src, step.current, step.line),
                    line + Newlines(src[pos..]));
      }
    }
  }

  // ---------------------------------------------------------------------
  // Spans and lexemes

  /** Every token of `r` is cut from `src` at or after `pos`: its lexeme is
      the text of its span, spans follow each other without overlapping,
      only `Eof` has an empty span, and `Eof`'s sits at the end of input. */
  predicate CutFrom(src: seq<char>, pos: nat, r: Lexed) {
    && |r.spans| == |r.tokens|
    && (forall i :: 0 <= i < |r.tokens| ==>
          && pos <= r.spans[i].lo <= r.spans[i].hi <= |src|
          && r.tokens[i].lexeme == src[r.spans[i].lo..r.spans[i].hi]
          && (r.tokens[i].kind != Eof ==> r.spans[i].lo < r.spans[i].hi)
          && (r.tokens[i].kind == Eof ==> r.spans[i] == Span(|src|, |src|)))
    && (forall i, j :: 0 <= i < j < |r.spans| ==> r.spans[i].hi <= r.spans[j].lo)
  }

  lemma CutPreceded(src: seq<char>, pos: nat, line: nat, step: Step, r: Lexed)
    requires pos <= |src| && WellFormed(src, pos, line, step) && step.Step?
    requires CutFrom(src, step.current, r)
    ensures CutFrom(src, pos, Preceded(step.Tokens(), StepSpans(pos, step), step.Diagnostics(), r))
  {
  }

  /** Every token has a span: the lexeme is exactly the source text of the
      span, spans lie after `pos` in source order without overlapping, every
      token but `Eof` is at least one character long, and `Eof` sits at the
      very end of the input. */
  lemma {:induction false} LexemesAreSpans(src: seq<char>, pos: nat, line: nat)
    requires pos <= |src|
    ensures CutFrom(src, pos, Lex(src, pos, line))
    decreases |src| - pos
  {
    if pos < |src| {
      var step := Unrolled(src, pos, line);
      if step.Step? {
        LexemesAreSpans(src, step.current, step.line);
        CutPreceded(src, pos, line, step, Lex(src, step.current, step.line));
      }
    }
  }

  // ---------------------------------------------------------------------
  // Lines

  /** Every token of `r` is stamped with line `line` plus the line feeds
      from `pos` to the end of its span. */
  predicate LinesFrom(src: seq<char>, pos: nat, line: nat, r: Lexed) {
    && |r.spans| == |r.tokens|
    && forall i :: 0 <= i < |r.tokens| ==>
         pos <= r.spans[i].hi <= |src| && r.tokens[i].line == line + Newlines(src[pos..r.spans[i].hi])
  }

  lemma LinesPreceded(src: seq<char>, pos: nat, line: nat, step: Step, r: Lexed)
    requires pos <= |src| && WellFormed(src, pos, line, step) && step.Step?
    requires LinesFrom(src, step.current, step.line, r)
    ensures LinesFrom(src, pos, line, Preceded(step.Tokens(), StepSpans(pos, step), step.Diagnostics(), r))
  {
    var p := Preceded(step.Tokens(), StepSpans(pos, step), step.Diagnostics(), r);
    var n := |step.Tokens()|;
    forall i | n <= i < |p.tokens|
      ensures pos <= p.spans[i].hi <= |src| && p.tokens[i].line == line + Newlines(src[pos..p.spans[i].hi])
    {
      assert p.spans[i] == r.spans[i - n] && p.tokens[i] == r.tokens[i - n];
      NewlinesSplit(src, pos, step.current, r.spans[i - n].hi);
    }
  }

  /** Each token is stamped with the line its lexeme ends on: the starting
      line plus the line feeds from `pos` to the end of its span. */
  lemma {:induction false} TokenLines(src: seq<char>, pos: nat, line: nat)
    requires pos <= |src|
    ensures LinesFrom(src, pos, line, Lex(src, pos, line))
    decreases |src| - pos
  {
    if pos < |src| {
      var step := Unrolled(src, pos, line);
      if step.Step? {
        TokenLines(src, step.current, step.line);
        LinesPreceded(src, pos, line, step, Lex(src, step.current, step.line));
      }
    }
  }

  /** Token lines never decrease along the token list. */
  lemma LinesNonDecreasing(src: seq<char>, pos: nat, line: nat)
    requires pos <= |src|
    ensures var r := Lex(src, pos, line);
      forall i, j :: 0 <= i < j < |r.tokens| ==> r.tokens[i].line <= r.tokens[j].line
  {
    TokenLines(src, pos, line);
    LexemesAreSpans(src, pos, line);
    var r := Lex(src, pos, line);
    forall i, j | 0 <= i < j < |r.tokens|
      ensures r.tokens[i].line <= r.tokens[j].line
    {
      NewlinesSplit(src, pos, r.spans[i].hi, r.spans[j].hi);
    }
  }

  // ---------------------------------------------------------------------
  // The panic of `number`

  /** The scan panics only on input whose last two characters are a digit
      and a `.`. */
  lemma {:induction false} PanicOnlyAtTrailingPoint(src: seq<char>, pos: nat, line: nat)
    requires pos <= |src|
    ensures Lex(src, pos, line).crashed ==> pos + 2 <= |src| && src[|src| - 1] == '.' && IsDigit(src[|src| - 2])
    decreases |src| - pos
  {
    if pos < |src| {
      var step := Unrolled(src, pos, line);
      NumberPanics(src, pos, line);
      if step.Step? {
        PanicOnlyAtTrailingPoint(src, step.current, step.line);
      }
    }
  }

  // ---------------------------------------------------------------------
  // Blank input

  lemma NewlinesOne(s: seq<char>, i: nat)
    requires i < |s|
    ensures Newlines(s[i..i + 1]) == if s[i] == '\n' then 1 else 0
  {
    assert s[i..i + 1][..0] == [];
  }

  /** `r` is the `Eof` token of line `line` alone, at offset `end`, with
      nothing reported. */
  predicate OnlyEof(r: Lexed, line: nat, end: nat) {
    && !r.crashed && |r.diagnostics| == 0
    && |r.tokens| == 1 && r.tokens[0] == EofToken(line)
    && |r.spans| == 1 && r.spans[0] == Span(end, end)
  }

  /** A blank adds nothing to what the rest of the input scans to. */
  lemma BlankStep(src: seq<char>, pos: nat, line: nat, last: nat)
    requires pos < |src| && IsBlank(src[pos])
    requires OnlyEof(Lex(src, pos + 1, line + Newlines(src[pos..pos + 1])), last, |src|)
    ensures OnlyEof(Lex(src, pos, line), last, |src|)
  {
    var step := Unrolled(src, pos, line);
    BlankSkipped(src, pos, line);
    NewlinesOne(src, pos);
  }

  /** Input made of blanks only scans to the `Eof` token alone, on the line
      after the last line feed, and reports nothing. */
  lemma {:induction false} BlankInput(src: seq<char>, pos: nat, line: nat)
    requires pos <= |src| && forall k :: pos <= k < |src| ==> IsBlank(src[k])
    ensures OnlyEof(Lex(src, pos, line), line + Newlines(src[pos..]), |src|)
    decreases |src| - pos
  {
    if pos < |src| {
      var line' := line + Newlines(src[pos..pos + 1]);
      NewlinesSplit(src, pos, pos + 1, |src|);
      assert src[pos..] == src[pos..|src|] && src[pos + 1..] == src[pos + 1..|src|];
      BlankInput(src, pos + 1, line');
      BlankStep(src, pos, line, line + Newlines(src[pos..]));
    } else {
      assert src[pos..] == [];
    }
  }
}
