/** Token kinds, values and flags, and the errors a lexer can report. */
module Tokens {
  import opened Text

  /** Keywords and operators carry their spelling: the program has one kind for each. */
  datatype TokenKind =
    | Name | Int | Float | Complex | String
    | FStringStart | FStringMiddle | FStringEnd
    | IpyEscapeCommand
    | Comment | Newline | NonLogicalNewline
    | Indent | Dedent | EndOfFile
    | Lpar | Rpar | Lsqb | Rsqb | Lbrace | Rbrace
    | Keyword(text: string)
    | Operator(text: string)
    | Unknown
  {
    predicate IsTrivia() {
      Comment? || NonLogicalNewline?
    }

    predicate IsOpening() {
      Lpar? || Lsqb? || Lbrace?
    }

    predicate IsClosing() {
      Rpar? || Rsqb? || Rbrace?
    }
  }

  /** An integer literal: one that fits an `i64`, or the digits of one that does not. */
  datatype IntValue = Small(value: int) | Big(digits: string)

  datatype TokenValue =
    | NoValue
    | NameValue(name: string)
    | IntLiteral(number: IntValue)
    | FloatLiteral
    | ComplexLiteral
    | StringValue(text: string)
    | FStringMiddleValue(text: string)
    | IpyValue(kind: string, text: string)

  datatype Flags = Flags(
    doubleQuotes: bool, tripleQuoted: bool, unicode: bool, bytes: bool,
    fstring: bool, rawLower: bool, rawUpper: bool)
  {
    predicate IsRaw() {
      rawLower || rawUpper
    }

    predicate IsTripleQuotedFString() {
      fstring && tripleQuoted
    }

    function QuoteChar(): char {
      if doubleQuotes then '"' else '\''
    }
  }

  const NO_FLAGS := Flags(false, false, false, false, false, false, false)

  datatype FStringError = SingleRbrace | UnterminatedString | UnterminatedTripleQuotedString

  datatype ErrorKind =
    | StringError | UnclosedStringError | IndentationError
    | UnrecognizedToken(tok: char)
    | FStringProblem(problem: FStringError)
    | LineContinuationError | EofError
    | OtherError(message: string)
    | UnicodeError | MissingUnicodeLbrace | MissingUnicodeRbrace
    | InvalidByteLiteral

  datatype LexicalError = LexicalError(kind: ErrorKind, location: Range)

  datatype Token = Token(kind: TokenKind, range: Range, flags: Flags)

  datatype Option<+T> = None | Some(value: T)

  datatype Result<+T> = Ok(value: T) | Err(error: LexicalError)
}
