/**
  One step of the lexer as a function from state to state.

  The scanners it calls read one character at a time, so this is also what the
  faster loops of the `Lexer` class are proved against.
 */
module LexerSpec {
  import opened Text
  import opened Tokens
  import opened Indentation
  import opened FStrings
  import opened Words
  import W = Whitespace
  import StringScan
  import FStringScan
  import NumberScan

  datatype LineState = AfterNewline | NonEmptyLogicalLine | AfterEqual | Other {
    predicate IsNewLogicalLine() {
      AfterNewline? || NonEmptyLogicalLine?
    }
  }

  /** The whole state of a lexer. `pos` and `start` are its cursor; `kind`, `range`, `value` and
      `flags` describe the current token. */
  datatype Lex = Lex(
    pos: nat, start: nat,
    kind: TokenKind, range: Range, value: TokenValue, flags: Flags,
    state: LineState, nesting: nat,
    indents: seq<Width>, pending: Option<Width>,
    fstrings: seq<FString>, errors: seq<LexicalError>)
  {
    /** The cursor lies in the source and the token mark is not after it. */
    predicate WellPlaced(src: string) {
      start <= pos <= |src|
    }

    function TokenRange(): Range
      requires start <= pos
    {
      Range(start, pos)
    }
  }

  function PushError(s: Lex, error: LexicalError): Lex {
    s.(kind := Unknown, range := error.location, errors := s.errors + [error])
  }

  /** The state of a new lexer, which skips a byte order mark only at offset 0. */
  function Init(env: Env, startOffset: nat): (s: Lex)
    requires startOffset <= |env.src|
    ensures s.WellPlaced(env.src)
  {
    var pos := if startOffset == 0 && First(env.src, 0) == BOM then 1 else startOffset;
    Lex(pos, 0, EndOfFile, Range(startOffset, startOffset), NoValue, NO_FLAGS,
        AfterNewline, 0, [], None, [], [])
  }

  function NextToken(env: Env, s: Lex): (r: Lex)
    requires s.pos <= |env.src|
  {
    var r := LexToken(env, s.(start := s.pos, value := NoValue, flags := NO_FLAGS));
    if r.kind == Unknown then r else r.(range := Range(r.start, r.pos))
  }

  /** A token that needs no further character, or `Ready` to go on. */
  datatype Progress = Emitted(lex: Lex) | Ready(lex: Lex)

  function LexToken(env: Env, s: Lex): (r: Lex)
    requires s.WellPlaced(env.src) && s.start == s.pos
    ensures r.WellPlaced(env.src)
  {
    match BeforeCharacter(env, s)
    case Emitted(r) => r
    case Ready(m) => LexCharacter(env, m)
  }

  /** Everything that comes before looking at the next character of a token. */
  function BeforeCharacter(env: Env, s: Lex): (r: Progress)
    requires s.WellPlaced(env.src) && s.start == s.pos
    ensures r.lex.WellPlaced(env.src)
  {
    match FStringTextOrDedent(env, s)
    case Emitted(r) => Emitted(r)
    case Ready(m) => if m.state.AfterNewline? then EatIndentation(env, m) else SkipWhitespace(env, m)
  }

  function FStringTextOrDedent(env: Env, s: Lex): (r: Progress)
    requires s.WellPlaced(env.src) && s.start == s.pos
    ensures r.lex.WellPlaced(env.src)
  {
    if s.fstrings == [] then OwedDedent(s)
    else if s.fstrings[|s.fstrings| - 1].InExpression(s.nesting) then Ready(s)
    else LexFStringMiddleOrEnd(env, s)
  }

  function OwedDedent(s: Lex): (r: Progress)
    requires s.start <= s.pos
    ensures r.lex.start == s.start && r.lex.pos == s.pos
  {
    if s.pending.None? then Ready(s)
    else
      match Current(s.indents).TryCompare(s.pending.value)
      case Some(Greater) => Emitted(LeaveLevel(s, s.pending.value))
      case Some(_) => Ready(s.(pending := None))
      case None => Emitted(PushError(s.(pending := None), LexicalError(IndentationError, s.TokenRange())))
  }

  /** Leaves one indentation level on the way to `target`, which stays pending. */
  function LeaveLevel(s: Lex, target: Width): Lex
    requires s.start <= s.pos
  {
    var d := DedentOne(s.indents, target);
    var s' := s.(indents := d.1, pending := Some(target));
    if d.0 then s'.(kind := TokenKind.Dedent) else PushError(s', LexicalError(IndentationError, s.TokenRange()))
  }

  function SkipWhitespace(env: Env, s: Lex): (r: Progress)
    requires s.WellPlaced(env.src)
    ensures r.lex.WellPlaced(env.src)
  {
    match W.SkipBlanks(env.src, s.start, s.pos)
    case Skipped(p) => Ready(s.(pos := p))
    case SkipError(p, error) => Emitted(PushError(s.(pos := p), error))
  }

  function EatIndentation(env: Env, s: Lex): (r: Progress)
    requires s.WellPlaced(env.src)
    ensures r.lex.WellPlaced(env.src)
  {
    match W.MeasureIndent(env.src, s.start, s.pos, ROOT)
    case IndentError(p, error) => Emitted(PushError(s.(pos := p), error))
    case Measured(p, width) =>
      var s' := s.(pos := p);
      if First(env.src, p) in {'\n', '\r', '#', EOF_CHAR} then Ready(s')
      else HandleIndentation(s'.(state := NonEmptyLogicalLine), width)
  }

  function HandleIndentation(s: Lex, width: Width): (r: Progress)
    requires s.start <= s.pos
    ensures r.lex.start <= r.lex.pos == s.pos
  {
    match Current(s.indents).TryCompare(width)
    case Some(Greater) =>
      var r := LeaveLevel(s, width);
      Emitted(if r.kind == Unknown then r else r.(start := r.pos))
    case Some(Equal) => Ready(s)
    case Some(Less) => Emitted(s.(indents := s.indents + [width], kind := TokenKind.Indent))
    case None => Emitted(PushError(s, LexicalError(IndentationError, s.TokenRange())))
  }

  function LexCharacter(env: Env, s: Lex): (r: Lex)
    requires s.pos <= |env.src|
    ensures r.WellPlaced(env.src)
  {
    var s' := s.(start := s.pos);
    if s.pos == |env.src| then ConsumeEnd(s')
    else
      var c := env.src[s.pos];
      if IsAscii(c) then ConsumeAscii(env, s', c)
      else if env.xidStart(c) then LexIdentifier(env, s').(state := Other)
      else PushError(s'.(pos := s.pos + 1), LexicalError(UnrecognizedToken(c), Range(s.pos, s.pos + 1)))
  }

  /** The token that begins with the ASCII character `c` at the token mark. */
  function ConsumeAscii(env: Env, s: Lex, c: char): (r: Lex)
    requires s.start == s.pos < |env.src| && env.src[s.pos] == c
    ensures s.start == r.start && s.pos < r.pos <= |env.src|
  {
    var src := env.src;
    var s' := s.(pos := s.pos + 1);
    if IsAsciiIdentifierStart(c) then LexIdentifier(env, s).(state := Other)
    else if IsDigit(c) then LexNumber(env, s).(state := Other)
    else if c == '#' then s.(pos := FindAny(src, s.pos + 1, {'\n', '\r'}), kind := Comment)
    else if IsQuote(c) then LexString(env, s').(state := Other)
    else if IsEscapeCommand(env.mode, s.state, s.nesting, c) then LexEscapeCommand(env, s', c).(state := Other)
    else if c == '?' && env.mode == Ipython then s'.(kind := Operator("?"), state := Other)
    else if c == '.' && IsDigit(First(src, s.pos + 1)) then LexNumber(env, s).(state := Other)
    else LexPunctuation(env, s, c)
  }

  /** Brackets, operators, line breaks and characters that begin no token. */
  function LexPunctuation(env: Env, s: Lex, c: char): (r: Lex)
    requires s.start == s.pos < |env.src| && env.src[s.pos] == c
    ensures s.start == r.start && s.pos < r.pos <= |env.src|
  {
    var src := env.src;
    var s' := s.(pos := s.pos + 1);
    if c in {'(', ')', '[', ']', '{', '}'} then Bracket(s', c)
    else if c == ':' && StartsSpec(s') then
      s'.(fstrings := OnTop(s.fstrings, s.fstrings[|s.fstrings| - 1].TryStartFormatSpec(s.nesting)),
          kind := Operator(":"), state := Other)
    else if StartsOperator(c) then LexOperator(env, s, c)
    else if c == '\n' then LexNewline(s')
    else if c == '\r' then LexNewline(if First(src, s.pos + 1) == '\n' then s.(pos := s.pos + 2) else s')
    else PushError(s'.(state := Other), LexicalError(UnrecognizedToken(c), s'.TokenRange()))
  }

  function LexOperator(env: Env, s: Lex, c: char): (r: Lex)
    requires s.start == s.pos < |env.src| && env.src[s.pos] == c
    requires StartsOperator(c)
    ensures s.start == r.start && s.pos < r.pos <= |env.src|
    ensures r == s.(pos := r.pos, kind := r.kind, state := r.state)
    ensures r.kind.Operator? && r.kind.text != [] && r.kind.text[0] == c && (r.state == AfterEqual || r.state == Other)
  {
    var text := OperatorText(c, First(env.src, s.pos + 1), First(env.src, s.pos + 2));
    s.(pos := s.pos + |text|, kind := Operator(text), state := if text == "=" then AfterEqual else Other)
  }

  /** Whether `c` begins an IPython escape command here. */
  predicate IsEscapeCommand(mode: Mode, state: LineState, nesting: nat, c: char) {
    && mode == Ipython
    && (|| (c in {'%', '!'} && state.AfterEqual? && nesting == 0)
        || (c in {'%', '!', '?', '/', ';', ','} && state.IsNewLogicalLine()))
  }

  function LexEscapeCommand(env: Env, s: Lex, c: char): (r: Lex)
    requires s.pos <= |env.src|
    ensures r == s.(pos := r.pos, kind := IpyEscapeCommand, value := r.value) && s.pos <= r.pos <= |env.src|
  {
    var token := if s.state.AfterEqual? then [c] else EscapeToken(c, First(env.src, s.pos));
    var command := ScanCommand(env.src, token, s.pos + |token| - 1, []);
    s.(pos := command.pos, value := command.value, kind := IpyEscapeCommand)
  }

  function OnTop(stack: seq<FString>, top: FString): seq<FString>
    requires stack != []
  {
    stack[..|stack| - 1] + [top]
  }

  predicate StartsSpec(s: Lex) {
    s.fstrings != [] && s.fstrings[|s.fstrings| - 1].StartsFormatSpec(s.nesting)
  }

  /** The format specification of the innermost f-string, if it is in one, ends. */
  function EndSpec(s: Lex): Lex {
    if s.fstrings == [] then s
    else s.(fstrings := OnTop(s.fstrings, s.fstrings[|s.fstrings| - 1].TryEndFormatSpec(s.nesting)))
  }

  function OpeningKind(c: char): TokenKind {
    if c == '(' then Lpar else if c == '[' then Lsqb else Lbrace
  }

  function ClosingKind(c: char): TokenKind {
    if c == ')' then Rpar else if c == ']' then Rsqb else Rbrace
  }

  function Bracket(s: Lex, c: char): (r: Lex)
    requires s.start <= s.pos
    ensures r.start == s.start && r.pos == s.pos
  {
    if c in {'(', '[', '{'} then s.(nesting := s.nesting + 1, kind := OpeningKind(c), state := Other)
    else if c == '}' && s.fstrings != [] && s.fstrings[|s.fstrings| - 1].nesting == s.nesting then
      PushError(s, LexicalError(FStringProblem(SingleRbrace), s.TokenRange()))
    else
      var s' := if c == '}' then EndSpec(s) else s;
      s'.(nesting := if s.nesting == 0 then 0 else s.nesting - 1, kind := ClosingKind(c), state := Other)
  }

  /** A line break ends the logical line outside brackets, unless nothing came before it (section 2.1.6). */
  function LexNewline(s: Lex): (r: Lex)
    ensures r.start == s.start && r.pos == s.pos
  {
    if s.nesting == 0 && !s.state.IsNewLogicalLine() then s.(state := AfterNewline, kind := Newline)
    else EndSpec(s).(kind := NonLogicalNewline)
  }

  /** The prefix that begins at `p`, with its length, if a quote follows it. */
  function StringPrefix(src: string, p: nat): (r: Option<(Flags, nat)>)
    requires p < |src|
    ensures r.Some? ==> r.value.1 in {1, 2} && p + r.value.1 < |src| && IsQuote(src[p + r.value.1])
  {
    var c1, c2 := First(src, p + 1), First(src, p + 2);
    var length := if IsQuote(c1) then 1 else 2;
    var flags := if IsQuote(c1) then SinglePrefix(src[p]) else if IsQuote(c2) then DoublePrefix(src[p], c1) else None;
    if flags.Some? then Some((flags.value, length)) else None
  }

  /** An identifier, a keyword, or a string that a prefix turns out to begin. */
  function LexIdentifier(env: Env, s: Lex): (r: Lex)
    requires s.start == s.pos < |env.src|
    ensures s.start == r.start && s.pos < r.pos <= |env.src|
  {
    match StringPrefix(env.src, s.pos)
    case None =>
      var word := ScanWord(env, s.start);
      s.(pos := word.pos, kind := word.kind, value := if word.value == NoValue then s.value else word.value)
    case Some((flags, length)) =>
      var body := s.(pos := s.pos + length + 1, flags := flags);
      if flags.fstring then LexFStringStart(env, body) else LexString(env, body)
  }

  /** The flags of a literal whose opening quote is right before `p`. */
  function QuoteFlags(src: string, flags: Flags, p: nat): Flags
    requires 1 <= p <= |src|
  {
    flags.(doubleQuotes := src[p - 1] == '"', tripleQuoted := IsTriple(src, src[p - 1], p - 1))
  }

  function LexFStringStart(env: Env, s: Lex): (r: Lex)
    requires 1 <= s.pos <= |env.src|
    ensures s.start == r.start && s.pos <= r.pos <= |env.src|
  {
    var flags := QuoteFlags(env.src, s.flags, s.pos);
    s.(pos := if flags.tripleQuoted then s.pos + 2 else s.pos, flags := flags,
       fstrings := s.fstrings + [FString(flags, s.nesting, 0)], kind := FStringStart)
  }

  /** A string literal whose opening quote is right before the cursor. */
  function LexString(env: Env, s: Lex): (r: Lex)
    requires s.start < s.pos <= |env.src|
    ensures s.start == r.start && s.pos <= r.pos <= |env.src|
  {
    var src := env.src;
    var quote := src[s.pos - 1];
    var flags := QuoteFlags(src, s.flags, s.pos);
    var begin := if flags.tripleQuoted then s.pos + 2 else s.pos;
    var s' := s.(flags := flags);
    match StringScan.ScanString(src, quote, flags.tripleQuoted, begin, false)
    case Closed(end, p) => s'.(pos := p, value := StringValue(src[begin..end]), kind := String)
    case BrokenAt(p) => PushError(s'.(pos := p), LexicalError(UnclosedStringError, Range(s.start, p)))
    case EndOfInput =>
      var error := if flags.tripleQuoted then UnclosedStringError else StringError;
      PushError(s'.(pos := |src|), LexicalError(error, Range(s.start, |src|)))
  }

  function LexNumber(env: Env, s: Lex): (r: Lex)
    requires s.start == s.pos < |env.src|
    ensures s.start == r.start && s.pos < r.pos <= |env.src|
  {
    match NumberScan.ScanNumber(env.src, s.start, env.isFloat)
    case NumberToken(p, kind, value) => s.(pos := p, kind := kind, value := value)
    case NumberError(p, error) => PushError(s.(pos := p), error)
  }

  /** The end of an f-string, a stretch of its literal text, or neither if a replacement field comes first. */
  function LexFStringMiddleOrEnd(env: Env, s: Lex): (r: Progress)
    requires s.WellPlaced(env.src) && s.start == s.pos
    requires s.fstrings != []
    ensures r.lex.start == s.start && r.lex.WellPlaced(env.src)
  {
    var f := s.fstrings[|s.fstrings| - 1];
    var outer := s.fstrings[..|s.fstrings| - 1];
    var quote := f.flags.QuoteChar();
    if f.flags.tripleQuoted && IsTriple(env.src, quote, s.pos) then
      Emitted(s.(pos := s.pos + 3, flags := f.flags, fstrings := outer, kind := FStringEnd))
    else if !f.flags.tripleQuoted && First(env.src, s.pos) == quote then
      Emitted(s.(pos := s.pos + 1, flags := f.flags, fstrings := outer, kind := FStringEnd))
    else
      match FStringScan.ScanMiddle(env.src, f.flags, f.InFormatSpec(s.nesting), s.pos, false)
      case Unterminated(p, problem) =>
        Emitted(PushError(s.(pos := p, fstrings := outer), LexicalError(FStringProblem(problem), Range(s.start, p))))
      case Text(p, value) =>
        if p == s.pos then Ready(s)
        else Emitted(s.(pos := p, value := FStringMiddleValue(value), flags := f.flags, kind := FStringMiddle))
  }

  /** At the end of the text: an error for open brackets, then the newline that closes the last logical
      line, then a dedent for every level, then the end of the file for good. */
  function ConsumeEnd(s: Lex): (r: Lex)
    requires s.start <= s.pos
    ensures r.start == s.start && r.pos == s.pos
  {
    if s.nesting > 0 then PushError(s.(nesting := 0), LexicalError(EofError, s.TokenRange()))
    else if !s.state.IsNewLogicalLine() then s.(state := AfterNewline, kind := Newline)
    else if s.indents != [] then s.(indents := s.indents[..|s.indents| - 1], kind := TokenKind.Dedent)
    else s.(kind := EndOfFile)
  }

  // ---------- Moving back ----------

  /** Everything a checkpoint keeps. The token mark is not part of it, and errors only as their number. */
  datatype Checkpoint = Checkpoint(
    value: TokenValue, kind: TokenKind, range: Range, flags: Flags,
    pos: nat, state: LineState, nesting: nat,
    indents: seq<Width>, pending: Option<Width>, fstrings: seq<FString>, errorsPosition: nat)

  function Save(s: Lex): Checkpoint {
    Checkpoint(s.value, s.kind, s.range, s.flags, s.pos, s.state,
               s.nesting, s.indents, s.pending, s.fstrings, |s.errors|)
  }

  function Truncate<T>(items: seq<T>, length: nat): seq<T> {
    if length < |items| then items[..length] else items
  }

  function Rewind(s: Lex, c: Checkpoint): Lex {
    Lex(c.pos, 0, c.kind, c.range, c.value, c.flags, c.state, c.nesting, c.indents, c.pending, c.fstrings,
        Truncate(s.errors, c.errorsPosition))
  }

  /** Gives up one open bracket, and goes back to a line break inside it to lex that again, if there is one.
      A closing bracket as the current token takes back the bracket given up. */
  function ReLex(env: Env, s: Lex, newline: Option<nat>): (r: (bool, Lex))
    requires newline.Some? ==> newline.value <= |env.src|
  {
    if s.nesting == 0 then (false, s)
    else if s.flags.IsTripleQuotedFString() || newline.None? then (false, s.(nesting := s.nesting - 1))
    else (true, NextToken(env, MovedBack(s, newline.value)))
  }

  function MovedBack(s: Lex, p: nat): Lex
    requires s.nesting > 0
  {
    s.(pos := p, start := 0, state := Other, nesting := if s.kind.IsClosing() then s.nesting else s.nesting - 1)
  }
}
