/**
 * The values the scanner produces: token kinds, literal values, tokens, and
 * the diagnostics it reports.  Mirrors src/token.rs, src/value.rs and the
 * `(line, message)` pairs handed to `error_line` in src/lib.rs.
 */
module Tokens {

  /** The closed set of token kinds.  `True` is not declared in src/token.rs,
      although the keyword table maps "true" to it; it is added here. The
      misspelt `LeftBrance` is the source's own name. */
  datatype TokenType =
    // single-character tokens
    | LeftParen | RightParen | LeftBrance | RightBrace
    | Comma | Dot | Minus | Plus | Semicolon | Slash | Star
    // one- or two-character tokens
    | Bang | BangEqual | Equal | EqualEqual
    | Greater | GreaterEqual | Less | LessEqual
    // literals
    | Identifier | String | Number
    // keywords
    | And | Class | Else | False | Fun | For | If | Nil | Or
    | Print | Return | Super | This | True | Var | While
    | Eof
  {
    /** The kinds a reserved word scans to. */
    predicate IsKeyword() {
      this in {And, Class, Else, False, Fun, For, If, TokenType.Nil, Or,
               Print, Return, Super, This, True, Var, While}
    }
  }

  /** A literal value.  A number is kept as the exact rational its decimal
      text denotes; the rounding to a 64-bit float is not modelled. */
  datatype Value =
    | Boolean(b: bool)
    | Nil
    | Number(n: real)
    | String(s: string)

  /** One token: its kind, the source text it was cut from, the literal it
      carries (strings and numbers only) and the line it ends on. */
  datatype Token = Token(kind: TokenType, lexeme: string, literal: Option<Value>, line: nat)

  datatype Option<+T> = None | Some(value: T)

  /** The half-open range `[lo, hi)` of character offsets a token was cut
      from.  The scanner does not store it; the model records it so that
      statements about lexemes can name their place in the source. */
  datatype Span = Span(lo: nat, hi: nat)

  /** A non-fatal report `(line, message)` as passed to `error_line`. */
  datatype Diagnostic = Diagnostic(line: nat, message: string)

  const UnterminatedString: string := "Unterminated string"
  const UnexpectedCharacter: string := "Unexpected character"

  /** The sentinel appended after the last character has been consumed. */
  function EofToken(line: nat): Token
  {
    Token(Eof, "", None, line)
  }
}
