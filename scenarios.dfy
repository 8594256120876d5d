/**
 * The tokens `Lex` yields for a few small inputs.  Each input is a parameter
 * pinned down by a `requires`, so that the verifier does not unfold `Lex` on
 * a literal eagerly; each is built from the one-step lemmas of
 * StepProperties.
 */
module Scenarios {
  import opened Tokens
  import opened Lexical
  import opened LexSpec
  import opened StepProperties
  import opened LexProperties

  /** The text after the last character scans to `Eof` alone. */
  lemma LexAtEnd(src: seq<char>, line: nat)
    ensures Lex(src, |src|, line) == Lexed([EofToken(line)], [Span(|src|, |src|)], [], false)
  {
  }

  /** A scan whose first lexeme is a token running to the end of the input
      yields that token and `Eof`. */
  lemma LexLastToken(src: seq<char>, pos: nat, line: nat, line': nat, t: Token)
    requires pos < |src| && ScanTokenAt(src, pos, line) == Step(|src|, line', Some(t), None)
    ensures Lex(src, pos, line) == Lexed([t, EofToken(line')], [Span(pos, |src|), Span(|src|, |src|)], [], false)
  {
    LexStep(src, pos, line);
  }

  /** A first lexeme that is a token, followed by the rest of the scan. */
  lemma LexEmits(src: seq<char>, pos: nat, line: nat, next: nat, t: Token)
    requires pos < |src| && ScanTokenAt(src, pos, line) == Step(next, line, Some(t), None)
    ensures next <= |src|
    ensures Lex(src, pos, line) == Preceded([t], [Span(pos, next)], [], Lex(src, next, line))
  {
    LexStep(src, pos, line);
  }

  /** A first lexeme that is skipped adds nothing to the scan of the rest. */
  lemma LexSkips(src: seq<char>, pos: nat, line: nat, next: nat, line': nat)
    requires pos < |src| && ScanTokenAt(src, pos, line) == Step(next, line', None, None)
    ensures next <= |src|
    ensures Lex(src, pos, line) == Lex(src, next, line')
  {
    LexStep(src, pos, line);
    var r := Lex(src, next, line');
    assert [] + r.tokens == r.tokens && [] + r.spans == r.spans && [] + r.diagnostics == r.diagnostics;
  }

  /** `!=` is one token, not `!` followed by `=`. */
  lemma BangEqualScan(src: seq<char>)
    requires src == ['!', '=']
    ensures Lex(src, 0, 1) == Lexed([Token(BangEqual, "!=", None, 1), EofToken(1)], [Span(0, 2), Span(2, 2)], [], false)
  {
    assert src[0..2] == "!=";
    assert ScanTokenAt(src, 0, 1) == Step(2, 1, Some(Token(BangEqual, "!=", None, 1)), None);
    LexLastToken(src, 0, 1, 1, Token(BangEqual, "!=", None, 1));
  }

  /** `!` alone is a `Bang` token. */
  lemma BangScan(src: seq<char>)
    requires src == ['!']
    ensures Lex(src, 0, 1) == Lexed([Token(Bang, "!", None, 1), EofToken(1)], [Span(0, 1), Span(1, 1)], [], false)
  {
    assert src[0..1] == "!";
    assert ScanTokenAt(src, 0, 1) == Step(1, 1, Some(Token(Bang, "!", None, 1)), None);
    LexLastToken(src, 0, 1, 1, Token(Bang, "!", None, 1));
  }

  /** `1.` makes `number` look one character past the end: the scan panics
      and hands back nothing. */
  lemma TrailingPointPanics(src: seq<char>)
    requires src == ['1', '.']
    ensures Lex(src, 0, 1).crashed && Lex(src, 0, 1).tokens == []
  {
    var step := Unrolled(src, 0, 1);
    NumberPanics(src, 0, 1);
  }

  /** The opening quote of `"a` + line feed + `b` runs to the end. */
  lemma UnterminatedStringStep(src: seq<char>)
    requires src == ['"', 'a', '\n', 'b']
    ensures ScanTokenAt(src, 0, 1) == Step(4, 2, None, Some(Diagnostic(2, UnterminatedString)))
  {
    assert Newlines(src[1..]) == 1 by {
      assert src[1..] == ['a', '\n'] + ['b'];
      NewlinesAppend(['a', '\n'], ['b']);
      NewlinesAppend(['a'], ['\n']);
    }
    StringUnterminated(src, 0, 1);
  }

  /** An unclosed string is reported on the line it reaches and yields no
      token; `Eof` follows. */
  lemma UnterminatedStringScan(src: seq<char>)
    requires src == ['"', 'a', '\n', 'b']
    ensures Lex(src, 0, 1) == Lexed([EofToken(2)], [Span(4, 4)], [Diagnostic(2, UnterminatedString)], false)
  {
    UnterminatedStringStep(src);
    LexStep(src, 0, 1);
    LexAtEnd(src, 2);
  }

  /** The text `//c`, a line feed and `7`. */
  predicate IsCommentThenNumber(src: seq<char>) {
    src == ['/', '/', 'c', '\n', '7']
  }

  lemma CommentStepOf(src: seq<char>)
    requires IsCommentThenNumber(src)
    ensures ScanTokenAt(src, 0, 1) == Step(3, 1, None, None)
  {
    CommentSkipped(src, 0, 1, 3);
  }

  lemma LineFeedStepOf(src: seq<char>)
    requires IsCommentThenNumber(src)
    ensures ScanTokenAt(src, 3, 1) == Step(4, 2, None, None)
  {
    BlankSkipped(src, 3, 1);
  }

  lemma SevenStepOf(src: seq<char>)
    requires IsCommentThenNumber(src)
    ensures ScanTokenAt(src, 4, 2) == Step(5, 2, Some(Token(TokenType.Number, "7", Some(Value.Number(7.0)), 2)), None)
  {
    IntegerLiteral(src, 4, 2, 5);
    assert src[4..5] == "7";
    assert DigitsValue("7") == 7 by {
      assert "7"[..0] == [];
    }
  }

  /** A comment runs to the line feed; the number on the next line is
      stamped with line 2. */
  lemma CommentThenNumberScan(src: seq<char>)
    requires IsCommentThenNumber(src)
    ensures Lex(src, 0, 1)
            == Lexed([Token(TokenType.Number, "7", Some(Value.Number(7.0)), 2), EofToken(2)], [Span(4, 5), Span(5, 5)], [], false)
  {
    CommentStepOf(src);
    LineFeedStepOf(src);
    SevenStepOf(src);
    LexLastToken(src, 4, 2, 2, Token(TokenType.Number, "7", Some(Value.Number(7.0)), 2));
    LexSkips(src, 3, 1, 4, 2);
    LexSkips(src, 0, 1, 3, 1);
  }

  /** The declaration `var x = 10.5;`. */
  predicate IsVarDeclaration(src: seq<char>) {
    src == "var x = 10.5;"
  }

  lemma VarKeywordStep(src: seq<char>)
    requires IsVarDeclaration(src)
    ensures ScanTokenAt(src, 0, 1) == Step(3, 1, Some(Token(Var, "var", None, 1)), None)
  {
    RunEndUnique(src, 1, 3, IdentRun);
    assert src[0..3] == "var";
  }

  lemma VarSpaceSteps(src: seq<char>)
    requires IsVarDeclaration(src)
    ensures ScanTokenAt(src, 3, 1) == Step(4, 1, None, None)
    ensures ScanTokenAt(src, 5, 1) == Step(6, 1, None, None)
    ensures ScanTokenAt(src, 7, 1) == Step(8, 1, None, None)
  {
    BlankSkipped(src, 3, 1);
    BlankSkipped(src, 5, 1);
    BlankSkipped(src, 7, 1);
  }

  lemma VarNameStep(src: seq<char>)
    requires IsVarDeclaration(src)
    ensures ScanTokenAt(src, 4, 1) == Step(5, 1, Some(Token(Identifier, "x", None, 1)), None)
  {
    RunEndUnique(src, 5, 5, IdentRun);
    assert src[4..5] == "x";
  }

  lemma VarEqualStep(src: seq<char>)
    requires IsVarDeclaration(src)
    ensures ScanTokenAt(src, 6, 1) == Step(7, 1, Some(Token(Equal, "=", None, 1)), None)
  {
    assert src[6..7] == "=";
  }

  lemma VarNumberStep(src: seq<char>)
    requires IsVarDeclaration(src)
    ensures ScanTokenAt(src, 8, 1) == Step(12, 1, Some(Token(TokenType.Number, "10.5", Some(Value.Number(10.5)), 1)), None)
  {
    assert DecimalValue(src[8..10], src[11..12]) == 10.5 by {
      assert src[8..10] == "10" && "10"[..1] == "1" && "1"[..0] == [];
      assert src[11..12] == "5" && "5"[..0] == [];
    }
    FractionLiteral(src, 8, 1, 10, 12);
    assert src[8..12] == "10.5";
  }

  lemma VarSemicolonStep(src: seq<char>)
    requires IsVarDeclaration(src)
    ensures ScanTokenAt(src, 12, 1) == Step(13, 1, Some(Token(Semicolon, ";", None, 1)), None)
  {
    assert src[12..13] == ";";
  }

  /** `var x = 10.5;` scans to the keyword, the name, `=`, the number with
      its exact value, `;` and `Eof`, all on line 1, with nothing reported. */
  lemma VarDeclarationScan(src: seq<char>)
    requires IsVarDeclaration(src)
    ensures Lex(src, 0, 1).tokens
            == [Token(Var, "var", None, 1), Token(Identifier, "x", None, 1), Token(Equal, "=", None, 1),
                Token(TokenType.Number, "10.5", Some(Value.Number(10.5)), 1), Token(Semicolon, ";", None, 1),
                EofToken(1)]
    ensures Lex(src, 0, 1).diagnostics == [] && !Lex(src, 0, 1).crashed
  {
    var var_ := Token(Var, "var", None, 1);
    var x := Token(Identifier, "x", None, 1);
    var eq := Token(Equal, "=", None, 1);
    var num := Token(TokenType.Number, "10.5", Some(Value.Number(10.5)), 1);
    var semi := Token(Semicolon, ";", None, 1);
    VarKeywordStep(src);
    VarNameStep(src);
    VarEqualStep(src);
    VarNumberStep(src);
    VarSemicolonStep(src);
    VarSpaceSteps(src);
    LexLastToken(src, 12, 1, 1, semi);
    LexEmits(src, 8, 1, 12, num);
    LexSkips(src, 7, 1, 8, 1);
    LexEmits(src, 6, 1, 7, eq);
    LexSkips(src, 5, 1, 6, 1);
    LexEmits(src, 4, 1, 5, x);
    LexSkips(src, 3, 1, 4, 1);
    LexEmits(src, 0, 1, 3, var_);
  }
}
