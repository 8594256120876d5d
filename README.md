# krab scanner, modelled in Dafny

This project models the lexical scanner of krab, a tree-walking interpreter for
a small dynamically typed, C-like scripting language. The scanner
(`src/scanner.rs`) makes one pass over the source text with a character cursor
(`start`, `current`, `line`). It dispatches on each character and emits these
tokens:

- punctuation;
- one- and two-character operators;
- string, number and identifier/keyword tokens.

It skips blanks and `//` comments. It reports "Unexpected character" and
"Unterminated string" without stopping, and it appends an `Eof` sentinel at
the end.

The model is split into these modules:

- **`Tokens`** (`tokens.dfy`) holds the data: `TokenType`, `Value`, `Token`
  (from `src/token.rs` and `src/value.rs`) and the `(line, message)`
  diagnostics handed to `error_line` (`src/lib.rs`).
- **`Lexical`** (`lexical.dfy`) holds the pure helpers: the ASCII character
  classes, the `KEYWORDS` table, maximal character runs (`RunEnd`), line-feed
  counting and the exact value of a numeral.
- **`LexSpec`** (`lex_spec.dfy`) says what one call of `scan_token` does
  (`ScanTokenAt`) and what the `scan_tokens` loop yields (`Lex`), as functions
  of the text, the offset and the line.
- **`Scanning.Scanner`** (`scanner.dfy`) is the scanner itself, as a class
  whose fields are `source`, `tokens`, `start`, `current` and `line`, plus
  ghost `diagnostics` and `spans`. Every method is an imperative loop or update
  proved to do exactly what `ScanTokenAt`/`Lex` say.
- **`StepProperties`**, **`LexProperties`** and **`Scenarios`**
  (`step_properties.dfy`, `lex_properties.dfy`, `scenarios.dfy`) prove what
  the scanner promises, lexeme class by lexeme class and over the whole input.

Modelling decisions:

- The source is ASCII. `src/scanner.rs` counts characters (`chars().nth`,
  `chars().count()`) but cuts lexemes by bytes (`&self.source[a..b]`). The two
  agree only on ASCII text, so the constructor requires `IsAscii(source)`. On
  ASCII, Rust's `is_digit(10)` is `IsDigit` and `is_alphabetic` is `IsAlpha`.
  `IsIdentStart` is the test `c == '_' || c.is_alphabetic()` and
  `IsIdentChar` the test `c == '_' || c.is_alphanumeric()` of
  `src/scanner.rs:198` and `src/scanner.rs:125`.
- `TokenType` gains a `True` variant. The keyword table maps `"true"` to
  `TokenType::True` (`src/scanner.rs:22`), but `src/token.rs` does not
  declare it.
- `Token.literal` is `Option<Value>`, which is what `add_token` passes
  (`src/scanner.rs:74-76`). The declaration in `src/token.rs:53` says
  `Option<String>`.
- A number literal is the exact rational value of its decimal text
  (`Value.Number(real)`). The rounding of `parse::<f64>()` is not modelled.
- `peek(1)` only guards `current >= len`. When the digits of a number are
  followed by a `.` that is the last character of the input (`"1."`),
  `nth(current + 1).unwrap()` panics. The model keeps this panic:
  - `Peek` has the unwrap's precondition;
  - `ScanTokenAt` returns `Crash` in that case;
  - `Scanner.Number`/`ScanToken` return `false`, and `ScanTokens` returns `None`.

  The scanner is meant to report lexical errors and keep going, never to
  abort, but the code does abort here. The model follows the code, and
  `StepProperties.NumberPanics` and `LexProperties.PanicOnlyAtTrailingPoint`
  state exactly when the panic happens.
- `error_line` becomes the ghost method `ErrorLine`, which appends a
  `Diagnostic(line, message)` to the ghost `diagnostics` sequence.
- Each token's span (the offsets it was cut from) is kept in a ghost `spans`
  sequence. The scanner does not store spans; they let the contracts say where
  each lexeme came from.

## Model

| member | source | states |
|---|---|---|
| `Lexical.IdentifierKind` | src/scanner.rs:132-133 | an identifier lexeme scans to `Identifier` exactly when it is not a reserved word, and to its table entry, a keyword kind, exactly when it is one |
| `Lexical.KeywordTableIsBijective` | src/scanner.rs:8-25 | the table maps each of the sixteen reserved words to a keyword kind spelt that way, and every keyword kind (including `True`) is reached from its spelling |
| `Lexical.RunEnd` | src/scanner.rs:103-105 | the end of a maximal run: every character before it is in the class, and the run stops at the end of the text or at the first character outside it |
| `Lexical.RunEndUnique` | src/scanner.rs:111-113 | a maximal run end is determined by those two properties |
| `Lexical.NumeralOfRuns` | src/scanner.rs:116-117 | digits, optionally followed by `.` and more digits, form a numeral of the `digits ('.' digits)?` grammar, and its value is their decimal value |
| `Lexical.NumeralValueIntegerPart` | src/scanner.rs:117 | the fractional digits add less than one, so the integer part of a number's value is the value of its integer digits |
| `LexSpec.ScanTokenAt` | src/scanner.rs:138-201 | one `scan_token` call either panics or consumes at least one character and stays within the text |
| `LexSpec.ScanTokenAtWellFormed` | src/scanner.rs:138-201 | every step advances `line` by exactly the line feeds consumed; a token it emits has the consumed text as its lexeme, the new line, and a kind other than `Eof`; a step emits or reports, not both; it crashes exactly when the lexeme is a digit run up to a final `.` |
| `StepProperties.PunctuationToken` | src/scanner.rs:142-151 | each of `( ) { } , . - + ; *` is a one-character token of its fixed kind, on the current line |
| `StepProperties.OperatorMaximalMunch` | src/scanner.rs:152-183 | the exact step for each of `! = < >`: followed by `=`, one two-character token of its `...Equal` kind (`BangEqual`, `EqualEqual`, `LessEqual`, `GreaterEqual`); otherwise one one-character token of its bare kind; no literal, current line, nothing reported |
| `StepProperties.SlashToken` | src/scanner.rs:184-191 | a `/` not followed by `/` is a one-character `Slash` token |
| `StepProperties.CommentSkipped` | src/scanner.rs:185-188 | `//` consumes up to, but not including, the next line feed, or to the end of input, and emits nothing |
| `StepProperties.BlankSkipped` | src/scanner.rs:193-195 | space, carriage return and tab consume one character silently; a line feed consumes one and increments `line` |
| `StepProperties.StringClosed` | src/scanner.rs:80-98 | a closed string is one `String` token: the lexeme keeps both quotes, the literal is exactly the text between them, and the line is the one after any embedded line feeds |
| `StepProperties.StringUnterminated` | src/scanner.rs:89-92 | a string with no closing quote consumes the rest of the input, emits no token, and reports "Unterminated string" once, on the line reached |
| `StepProperties.IntegerLiteral` | src/scanner.rs:101-120 | a digit run not followed by `.` and a digit is one `Number` token whose literal is the value of the digits |
| `StepProperties.IntegerMaximalMunch` | src/scanner.rs:103-114 | that lexeme is a numeral of exactly that value, and no longer prefix of the rest is a numeral: a `.` not followed by a digit is left unconsumed |
| `StepProperties.FractionLiteral` | src/scanner.rs:107-119 | digits, `.` and digits are one `Number` token whose literal is the integer digits' value plus the fractional digits' value shifted past the point |
| `StepProperties.FractionValue` | src/scanner.rs:116-117 | such a lexeme is a numeral, and its literal is exactly the numeral's value |
| `StepProperties.FractionMaximalMunch` | src/scanner.rs:107-114 | no longer prefix of the rest of the text is a numeral |
| `StepProperties.IdentifierToken` | src/scanner.rs:122-136 | an identifier is the maximal run of `_`/letters/digits; its kind is `KEYWORDS[lexeme]` on an exact match, else `Identifier`; its literal is `None` |
| `StepProperties.UnexpectedReported` | src/scanner.rs:199 | any other character consumes exactly one character, emits nothing, and reports "Unexpected character" at the current line |
| `StepProperties.NumberPanics` | src/scanner.rs:66-72 | a step panics exactly when it starts at a digit and the rest of the input is digits followed by one final `.` (`peek(1)` unwraps past the end) |
| `LexProperties.EofExactlyOnceLast` | src/scanner.rs:203-212 | a scan that does not panic ends with exactly one `Eof` token, with an empty lexeme, no literal and the final line (starting line plus the line feeds in the text); no earlier token is `Eof` |
| `LexProperties.LexemesAreSpans` | src/scanner.rs:74-78 | every token's lexeme is the source text of its span; spans lie in source order without overlapping; only `Eof` has an empty span, and it sits at the end of input |
| `LexProperties.TokenLines` | src/scanner.rs:82-84 | each token is stamped with the starting line plus the line feeds from the start up to the end of its lexeme |
| `LexProperties.LinesNonDecreasing` | src/scanner.rs:195 | token lines never decrease along the token list |
| `LexProperties.PanicOnlyAtTrailingPoint` | src/scanner.rs:107 | a scan can panic only when the input's last two characters are a digit and a `.` |
| `LexProperties.BlankInput` | src/scanner.rs:193-195 | input made only of blanks scans to the `Eof` token alone, on the line after the last line feed, with nothing reported |
| `Scenarios.BangEqualScan` | src/scanner.rs:152-158 | `!=` scans to `[BangEqual, Eof]` |
| `Scenarios.BangScan` | src/scanner.rs:152-158 | `!` alone scans to `[Bang, Eof]` |
| `Scenarios.TrailingPointPanics` | src/scanner.rs:107 | `1.` panics and yields no tokens |
| `Scenarios.UnterminatedStringScan` | src/scanner.rs:89-92 | an unclosed string spanning a line feed yields only `Eof`, on line 2, and one "Unterminated string" report on line 2 |
| `Scenarios.CommentThenNumberScan` | src/scanner.rs:184-195 | `//c` and a line feed, then `7`, scan to `[Number(7), Eof]`, both on line 2 |
| `Scenarios.VarDeclarationScan` | src/scanner.rs:138-207 | `var x = 10.5;` scans to `[Var, Identifier x, Equal, Number 10.5, Semicolon, Eof]` with nothing reported |
| `Scanning.SentinelLine` | src/scanner.rs:203-210 | when the `scan_tokens` loop ends without a panic, the scan did not crash and the final `line` (the sentinel's line) is the starting line plus the line feeds scanned |
| `Scanning.Scanner.constructor` | src/scanner.rs:36-44 | a fresh scanner has no tokens, `start = current = 0` and `line = 1` |
| `Scanning.Scanner.IsAtEnd` | src/scanner.rs:46-48 | true exactly when the cursor has reached the end of the source |
| `Scanning.Scanner.Advance` | src/scanner.rs:50-55 | returns the character under the cursor and moves the cursor one place |
| `Scanning.Scanner.IsMatch` | src/scanner.rs:57-64 | consumes the next character and returns true exactly when it exists and equals `expected`; otherwise `current` is unchanged |
| `Scanning.Scanner.Peek` | src/scanner.rs:66-72 | NUL at the end of input, otherwise the character `lookAhead` places ahead, which must exist (the `unwrap`) |
| `Scanning.Scanner.AddToken` | src/scanner.rs:74-78 | appends one token cut from `source[start..current]` at the current line, and nothing else |
| `Scanning.Scanner.ErrorLine` | src/lib.rs:5-7 | a report appends `(line, message)` to the diagnostics and changes nothing else |
| `Scanning.Scanner.StringContents` | src/scanner.rs:81-87 | the loop stops at the closing quote or the end of input, and advances `line` by the line feeds it passes |
| `Scanning.Scanner.String` | src/scanner.rs:80-99 | does exactly what `StringStep` describes: one `String` token, or one "Unterminated string" report |
| `Scanning.Scanner.Digits` | src/scanner.rs:103-105 | consumes the maximal digit run at the cursor |
| `Scanning.Scanner.SkipComment` | src/scanner.rs:186-188 | consumes up to the next line feed or the end of input |
| `Scanning.Scanner.Fraction` | src/scanner.rs:107-114 | consumes `.` and the following digits exactly when `.` is followed by a digit; fails exactly where `peek(1)` would unwrap past the end |
| `Scanning.Scanner.Number` | src/scanner.rs:101-120 | does exactly what `NumberStep` describes, and returns false exactly when it panics |
| `Scanning.Scanner.Identifier` | src/scanner.rs:122-136 | does exactly what `IdentifierStep` describes |
| `Scanning.Scanner.ScanToken` | src/scanner.rs:138-201 | performs exactly the step `ScanTokenAt` gives for the current offset and line |
| `Scanning.Scanner.ScanTokens` | src/scanner.rs:203-213 | tokens, spans and diagnostics are the old ones followed by those of `Lex` from the cursor; the result is the token list, or `None` exactly when the scan panics; on success the cursor is at the end of the source, `line` is the starting line plus the line feeds scanned, and the last token is the `Eof` sentinel on that final `line` |

## Left out

- The command-line driver (`src/main.rs`): argument handling, reading a file,
  the interactive loop and exit status 64. It is input/output plumbing around
  the scanner.
- The formatting and printing of diagnostics (`report` in `src/lib.rs`). The
  model records only the `(line, message)` pair.
- Non-ASCII text. The scanner mixes character indices with byte slicing, and
  the model assumes ASCII (`IsAscii`), so it says nothing about multi-byte
  characters or the Unicode meaning of `is_alphabetic`/`is_alphanumeric`.
- The rounding of `parse::<f64>()`. Number literals hold the exact decimal
  value as a `real`.
- `usize` overflow of `line` and `current`. Both are unbounded `nat`.
- The cost of re-scanning with `chars().nth`/`chars().count()`. Only results
  are modelled, not performance.
- `phf_map!` internals. `KEYWORDS` is a Dafny `map` literal.
- Reconstructing the whole source from lexemes and skipped text is not proved.
  `LexemesAreSpans` proves that lexemes are the text of ordered,
  non-overlapping spans. What lies between spans is not characterised over
  the whole input; each skipping step is covered by `CommentSkipped`,
  `BlankSkipped`, `StringUnterminated` and `UnexpectedReported`.
- LexProperties.BlankInput: covers input made of blanks only (space, carriage
  return, tab, line feed), not input that also holds `//` comments. A single
  comment step is covered by `CommentSkipped`.
