/** Tokens by their source text: how each kind is spelled, and which kind each first character begins. */
module TokenText {
  import opened Text
  import opened Tokens
  import opened Indentation
  import opened FStrings
  import opened Words
  import opened LexerSpec
  import opened LexerSteps
  import opened LexerRuns
  import opened LiteralText
  import NumberScan
  import StringScan
  import W = Whitespace

  // ---------- Words ----------

  /** An identifier reaches from `begin` to `end` and no further. */
  ghost predicate IsWholeWord(env: Env, begin: nat, end: nat) {
    && begin < end <= |env.src|
    && (forall k :: begin < k < end ==> ContinuesIdentifier(env, env.src[k]))
    && (end < |env.src| ==> !ContinuesIdentifier(env, env.src[end]))
  }

  /** Whether the word and the character after it are ASCII, which is what the lexer takes for an ASCII word. */
  ghost predicate LooksAscii(env: Env, begin: nat, end: nat) {
    forall k :: begin <= k <= end && k < |env.src| ==> IsAscii(env.src[k])
  }

  /** A name's value is its text if it looks ASCII and is no keyword, and else the text in its normal form. */
  lemma WordText(env: Env, begin: nat)
    requires begin < |env.src|
    ensures var r := ScanWord(env, begin);
            var text := env.src[begin..r.pos];
            && IsWholeWord(env, begin, r.pos)
            && (if !LooksAscii(env, begin, r.pos) then r.kind == Name && r.value == NameValue(env.nfkc(text))
                else if text in KEYWORDS then r.kind == Keyword(text) && r.value == NoValue
                else r.kind == Name && r.value == NameValue(text))
  {
    hide EatIdentifier, ContinuesIdentifier;
    AsciiFlag(env, begin + 1, IsAscii(env.src[begin]));
  }

  // ---------- Spelling ----------

  /** A comment from `begin` on ends right before the next line break, or with the text. */
  ghost predicate IsWholeComment(src: string, begin: nat, end: nat) {
    && begin < end <= |src| && src[begin] == '#'
    && (forall k :: begin <= k < end ==> !IsNewline(src[k]))
    && (end < |src| ==> IsNewline(src[end]))
  }

  /** The source text of a token that begins with a character of its own. */
  ghost predicate IsSpelled(env: Env, begin: nat, end: nat, kind: TokenKind, value: TokenValue)
    requires begin < end <= |env.src|
  {
    var text := env.src[begin..end];
    match kind
    case Lpar => text == "("
    case Rpar => text == ")"
    case Lsqb => text == "["
    case Rsqb => text == "]"
    case Lbrace => text == "{"
    case Rbrace => text == "}"
    case Operator(spelling) => text == spelling && (spelling in OPERATORS || (spelling == "?" && env.mode == Ipython))
    case Keyword(spelling) => text == spelling && spelling in KEYWORDS && IsWholeWord(env, begin, end)
    case Newline => W.IsLineBreak(env.src, begin, end)
    case NonLogicalNewline => W.IsLineBreak(env.src, begin, end)
    case Comment => IsWholeComment(env.src, begin, end)
    case Name =>
      IsWholeWord(env, begin, end) && (value == NameValue(text) || value == NameValue(env.nfkc(text)))
    case Int | Float | Complex =>
      NumberScan.ScanNumber(env.src, begin, env.isFloat) == NumberScan.NumberToken(end, kind, value)
    case IpyEscapeCommand => env.mode == Ipython
    case _ => true
  }

  /** What a first character begins. */
  ghost predicate Begins(env: Env, m: Lex, r: Lex)
    requires m.pos < |env.src|
  {
    var src, c := env.src, env.src[m.pos];
    if IsEscapeCommand(env.mode, m.state, m.nesting, c) then r.kind == IpyEscapeCommand
    else if c == '(' then r.kind == Lpar
    else if c == ')' then r.kind == Rpar
    else if c == '[' then r.kind == Lsqb
    else if c == ']' then r.kind == Rsqb
    else if c == '{' then r.kind == Lbrace
    else if c == '}' then
      if m.fstrings != [] && m.fstrings[|m.fstrings| - 1].nesting == m.nesting then
        r.kind == Unknown && Reported(m, r, FStringProblem(SingleRbrace), Range(m.pos, m.pos + 1))
      else r.kind == Rbrace
    else if IsNewline(c) then
      r.kind == if m.nesting == 0 && !m.state.IsNewLogicalLine() then Newline else NonLogicalNewline
    else if c == '#' then r.kind == Comment
    else if IsDigit(c) || (c == '.' && IsDigit(First(src, m.pos + 1))) then
      match NumberScan.ScanNumber(src, m.pos, env.isFloat)
      case NumberToken(p, kind, value) => r.kind == kind && r.pos == p
      case NumberError(p, error) => r.kind == Unknown && r.pos == p && Reported(m, r, error.kind, error.location)
    else if c == '?' && env.mode == Ipython then r.kind == Operator("?")
    else if c == ':' && StartsSpec(m) then r.kind == Operator(":")
    else if StartsOperator(c) then r.kind == Operator(OperatorText(c, First(src, m.pos + 1), First(src, m.pos + 2)))
    else if IsQuote(c) || IsAsciiIdentifierStart(c) || (!IsAscii(c) && env.xidStart(c)) then true
    else r.kind == Unknown && r.pos == m.pos + 1 && Reported(m, r, UnrecognizedToken(c), Range(m.pos, m.pos + 1))
  }

  /** The step's one error. */
  ghost predicate Reported(m: Lex, r: Lex, kind: ErrorKind, location: Range) {
    |r.errors| == |m.errors| + 1 && r.errors[|m.errors|] == LexicalError(kind, location)
  }

  /** What a word or a literal begins with: quotes, or letters with or without quotes behind them. */
  ghost predicate BeginsWord(env: Env, m: Lex, r: Lex)
    requires m.pos < |env.src|
  {
    var src, c := env.src, env.src[m.pos];
    IsQuote(c) || IsAsciiIdentifierStart(c) || (!IsAscii(c) && env.xidStart(c)) ==>
      var prefix := if IsQuote(c) then Some((NO_FLAGS, 0)) else StringPrefix(src, m.pos);
      if prefix.None? then r.kind == Name || r.kind.Keyword?
      else if prefix.value.0.fstring then r.kind == FStringStart
      else
        || r.kind == TokenKind.String
        || (r.kind == Unknown && r.pos <= |src| && |r.errors| == |m.errors| + 1
            && IsBrokenString(src, m.pos, r.pos, r.flags, r.errors[|m.errors|]))
  }

  lemma OperatorSpelled(env: Env, s: Lex)
    requires s.start == s.pos < |env.src| && StartsOperator(env.src[s.pos])
    ensures var r := LexOperator(env, s, env.src[s.pos]);
            && r.kind.Operator? && IsSpelled(env, s.pos, r.pos, r.kind, r.value)
            && r.kind == Operator(OperatorText(env.src[s.pos], First(env.src, s.pos + 1), First(env.src, s.pos + 2)))
  {
    hide OperatorText, StartsOperator, IsSpelled;
    var c, c1, c2 := env.src[s.pos], First(env.src, s.pos + 1), First(env.src, s.pos + 2);
    LongestOperator(c, c1, c2, "");
    var text := OperatorText(c, c1, c2);
    OperatorInText(env.src, s.pos, text);
    OperatorIsSpelled(env, s.pos, text, s.value);
  }

  lemma OperatorIsSpelled(env: Env, p: nat, text: string, value: TokenValue)
    requires text != [] && p + |text| <= |env.src| && env.src[p..p + |text|] == text && text in OPERATORS
    ensures IsSpelled(env, p, p + |text|, Operator(text), value)
  {
  }

  lemma OperatorInText(src: string, p: nat, text: string)
    requires p < |src| && text in OPERATORS && text <= [src[p], First(src, p + 1), First(src, p + 2)]
    ensures p + |text| <= |src| && src[p..p + |text|] == text
  {
    NoEndInOperators(text);
    assert |text| > 1 ==> text[1] == First(src, p + 1);
    assert |text| > 2 ==> text[2] == First(src, p + 2);
  }

  lemma NoEndInOperators(text: string)
    requires text in OPERATORS
    ensures text != [] && forall k :: 0 <= k < |text| ==> text[k] != EOF_CHAR
  {
  }

  lemma LineBreakSpelled(src: string, p: nat)
    requires p < |src| && IsNewline(src[p])
    ensures var end := if src[p] == '\r' && First(src, p + 1) == '\n' then p + 2 else p + 1;
            end <= |src| && W.IsLineBreak(src, p, end)
  {
    if src[p] == '\r' && First(src, p + 1) == '\n' {
      assert src[p..p + 2] == [src[p], src[p + 1]];
    } else {
      assert src[p..p + 1] == [src[p]];
    }
  }

  /** The character at `p` begins no number, comment, word or literal. */
  predicate IsPunctuation(env: Env, p: nat)
    requires p < |env.src|
  {
    var c := env.src[p];
    && IsAscii(c) && !IsQuote(c) && !IsAsciiIdentifierStart(c) && c != '#' && !IsDigit(c)
    && !(c == '.' && IsDigit(First(env.src, p + 1))) && !(c == '?' && env.mode == Ipython)
  }

  lemma PunctuationSpelled(env: Env, s: Lex)
    requires s.start == s.pos < |env.src|
    ensures var r := LexPunctuation(env, s, env.src[s.pos]); IsSpelled(env, s.pos, r.pos, r.kind, r.value)
  {
    hide LexOperator, OperatorText, IsWholeWord, IsWholeComment, NumberScan.ScanNumber, EndSpec, W.IsLineBreak;
    var c := env.src[s.pos];
    assert env.src[s.pos..s.pos + 1] == [c];
    if IsNewline(c) {
      LineBreakSpelled(env.src, s.pos);
    } else if StartsOperator(c) {
      OperatorSpelled(env, s);
    }
  }

  lemma PunctuationBegins(env: Env, s: Lex)
    requires s.start == s.pos < |env.src| && IsPunctuation(env, s.pos)
    requires !IsEscapeCommand(env.mode, s.state, s.nesting, env.src[s.pos])
    ensures Begins(env, s, LexPunctuation(env, s, env.src[s.pos]))
  {
    hide LexOperator, IsSpelled, NumberScan.ScanNumber, EndSpec, IsEscapeCommand, OperatorText;
    if StartsOperator(env.src[s.pos]) {
      OperatorSpelled(env, s);
    }
  }

  lemma NumberSpelled(env: Env, s: Lex)
    requires s.start == s.pos < |env.src|
    ensures var r := LexNumber(env, s);
            && IsSpelled(env, s.pos, r.pos, r.kind, r.value)
            && (match NumberScan.ScanNumber(env.src, s.pos, env.isFloat)
                case NumberToken(p, kind, value) => r.kind == kind && r.pos == p
                case NumberError(p, error) =>
                  r.kind == Unknown && r.pos == p && Reported(s, r, error.kind, error.location))
  {
    hide NumberScan.ScanNumber;
  }

  lemma IdentifierSpelled(env: Env, s: Lex)
    requires s.start == s.pos < |env.src| && s.flags == NO_FLAGS
    ensures var r := LexIdentifier(env, s);
            && IsSpelled(env, s.pos, r.pos, r.kind, r.value)
            && (!IsQuote(env.src[s.pos]) ==> BeginsWord(env, s, r))
  {
    hide LexString, ScanWord, StringPrefix, QuoteFlags, FlagsOf, IsBrokenString, IsStringToken, IsWholeWord, LooksAscii,
         NumberScan.ScanNumber;
    var prefix := StringPrefix(env.src, s.pos);
    if prefix.None? {
      WordText(env, s.start);
    } else {
      PrefixFlags(env.src, s.pos);
      var (flags, length) := prefix.value;
      if !flags.fstring {
        StringText(env, s.(pos := s.pos + length + 1, flags := flags), s.start);
      }
    }
  }

  lemma CommentSpelled(env: Env, p: nat)
    requires p < |env.src| && env.src[p] == '#'
    ensures IsWholeComment(env.src, p, FindAny(env.src, p + 1, {'\n', '\r'}))
  {
    hide FindAny;
  }

  lemma AsciiSpelled(env: Env, s: Lex)
    requires s.start == s.pos < |env.src| && IsAscii(env.src[s.pos]) && s.flags == NO_FLAGS
    ensures var r := ConsumeAscii(env, s, env.src[s.pos]); IsSpelled(env, s.pos, r.pos, r.kind, r.value)
  {
    hide LexIdentifier, LexNumber, LexString, LexPunctuation, IsSpelled;
    var c := env.src[s.pos];
    if IsAsciiIdentifierStart(c) {
      IdentifierSpelled(env, s);
    } else if IsDigit(c) || (c == '.' && IsDigit(First(env.src, s.pos + 1))) {
      NumberSpelled(env, s);
    } else if c == '#' {
      CommentSpelled(env, s.pos);
      CommentIsSpelled(env, s.pos, FindAny(env.src, s.pos + 1, {'\n', '\r'}), s.value);
    } else if IsQuote(c) {
      StringIsSpelled(env, s.(pos := s.pos + 1));
    } else if IsEscapeCommand(env.mode, s.state, s.nesting, c) || (c == '?' && env.mode == Ipython) {
      IpythonSpelled(env, s);
    } else {
      PunctuationSpelled(env, s);
    }
  }

  lemma CommentIsSpelled(env: Env, begin: nat, end: nat, value: TokenValue)
    requires begin < end <= |env.src| && IsWholeComment(env.src, begin, end)
    ensures IsSpelled(env, begin, end, Comment, value)
  {
  }

  lemma StringIsSpelled(env: Env, s: Lex)
    requires s.start < s.pos <= |env.src|
    ensures var r := LexString(env, s); IsSpelled(env, s.start, r.pos, r.kind, r.value)
  {
    hide StringScan.ScanString, QuoteFlags, NumberScan.ScanNumber, IsWholeWord, IsWholeComment, W.IsLineBreak;
  }

  lemma IpythonSpelled(env: Env, s: Lex)
    requires s.start == s.pos < |env.src| && env.mode == Ipython
    ensures env.src[s.pos] == '?' ==> IsSpelled(env, s.pos, s.pos + 1, Operator("?"), s.value)
    ensures forall end, value :: s.pos < end <= |env.src| ==> IsSpelled(env, s.pos, end, IpyEscapeCommand, value)
  {
    hide NumberScan.ScanNumber, IsWholeWord, IsWholeComment, W.IsLineBreak;
    assert env.src[s.pos..s.pos + 1] == [env.src[s.pos]];
  }

  lemma AsciiBegins(env: Env, s: Lex)
    requires s.start == s.pos < |env.src| && IsAscii(env.src[s.pos])
    ensures Begins(env, s, ConsumeAscii(env, s, env.src[s.pos]))
  {
    hide LexIdentifier, LexNumber, LexString, LexPunctuation, NumberScan.ScanNumber, OperatorText, FindAny,
         IsEscapeCommand;
    var c := env.src[s.pos];
    if IsDigit(c) || (c == '.' && IsDigit(First(env.src, s.pos + 1))) {
      NumberSpelled(env, s);
    } else if IsPunctuation(env, s.pos) && !IsEscapeCommand(env.mode, s.state, s.nesting, c) {
      PunctuationBegins(env, s);
    }
    CommandCharacters(env.mode, s.state, s.nesting, c);
  }

  lemma CommandCharacters(mode: Mode, state: LineState, nesting: nat, c: char)
    ensures IsEscapeCommand(mode, state, nesting, c) ==> mode == Ipython && c in {'%', '!', '?', '/', ';', ','}
  {
  }

  lemma AsciiBeginsWord(env: Env, s: Lex)
    requires s.start == s.pos < |env.src| && IsAscii(env.src[s.pos]) && s.flags == NO_FLAGS
    ensures BeginsWord(env, s, ConsumeAscii(env, s, env.src[s.pos]))
  {
    hide LexIdentifier, LexNumber, LexString, LexPunctuation, IsEscapeCommand, FindAny, LexEscapeCommand,
         IsBrokenString, IsStringToken, StringPrefix, QuoteFlags, FlagsOf;
    var c := env.src[s.pos];
    if IsAsciiIdentifierStart(c) {
      IdentifierSpelled(env, s);
    } else if IsQuote(c) {
      NoPrefixFlags(env.src, s.pos);
      StringText(env, s.(pos := s.pos + 1), s.pos);
    }
  }

  /** Every character decides what token it begins, and every token is spelled as its kind is. */
  lemma CharacterSpelled(env: Env, m: Lex)
    requires m.pos < |env.src| && m.flags == NO_FLAGS
    ensures var r := LexCharacter(env, m);
            && r.start == m.pos && IsSpelled(env, m.pos, r.pos, r.kind, r.value)
            && Begins(env, m, r) && BeginsWord(env, m, r)
  {
    hide ConsumeAscii, LexIdentifier, IsSpelled, Begins, BeginsWord;
    CharacterHasEffect(env, m);
    var s := m.(start := m.pos);
    if IsAscii(env.src[m.pos]) {
      AsciiSpelled(env, s);
      AsciiBegins(env, s);
      AsciiBeginsWord(env, s);
    } else {
      NonAsciiSpelled(env, s);
    }
    StartIsNoMatter(env, m, LexCharacter(env, m));
  }

  lemma NonAsciiSpelled(env: Env, s: Lex)
    requires s.start == s.pos < |env.src| && !IsAscii(env.src[s.pos]) && s.flags == NO_FLAGS
    ensures var r := LexCharacter(env, s);
            && IsSpelled(env, s.pos, r.pos, r.kind, r.value)
            && Begins(env, s, r) && BeginsWord(env, s, r)
  {
    hide LexIdentifier, IsWholeWord, IsBrokenString, IsStringToken, StringPrefix, NumberScan.ScanNumber;
    if env.xidStart(env.src[s.pos]) {
      IdentifierSpelled(env, s);
    }
  }

  lemma StartIsNoMatter(env: Env, m: Lex, r: Lex)
    requires m.pos < |env.src|
    ensures Begins(env, m.(start := m.pos), r) == Begins(env, m, r)
    ensures BeginsWord(env, m.(start := m.pos), r) == BeginsWord(env, m, r)
  {
    hide NumberScan.ScanNumber, IsBrokenString, StringPrefix, OperatorText;
  }

  /** A step from any state: a token with characters of its own is spelled as its kind is; the characters before it are
      blanks and joined line breaks. */
  lemma StepIsSpelled(env: Env, s: Lex)
    requires s.pos <= |env.src|
    ensures var r := NextToken(env, s);
            && s.pos <= r.start <= r.pos <= |env.src| && W.OnlyBlanks(env.src, s.pos, r.start)
            && (r.start < r.pos && r.kind != TokenKind.Indent ==> IsSpelled(env, r.start, r.pos, r.kind, r.value))
  {
    hide BeforeCharacter, LexCharacter, IsSpelled, W.OnlyBlanks;
    StepLosesNothing(env, s);
    var s' := s.(start := s.pos, value := NoValue, flags := NO_FLAGS);
    BeforeHasEffect(env, s');
    match BeforeCharacter(env, s')
    case Emitted(r) => BeforeIsSpelled(env, s', r);
    case Ready(m) =>
      CharacterOrEnd(env, m);
      if m.pos < |env.src| {
        CharacterSpelled(env, m);
      }
  }

  lemma BeforeIsSpelled(env: Env, s: Lex, r: Lex)
    requires BeforeEffect(env, s, Emitted(r))
    ensures r.start < r.pos <= |env.src| && r.kind != TokenKind.Indent ==>
              IsSpelled(env, r.start, r.pos, r.kind, r.value)
  {
    hide Reports, LeavesLevel, ReachesFrom, AtFieldBoundary, Width.TryCompare, W.WidthBefore,
         IsWholeWord, IsWholeComment, NumberScan.ScanNumber;
  }

  // ---------- The end of the text ----------

  /** Where only blanks are left, outside the literal text of f-strings and off the beginning of a line: an error for
      brackets that are open, once; then the Newline of an unfinished logical line; then a Dedent for every level; and
      then the end of the file. */
  lemma EndBegins(env: Env, s: Lex)
    requires s.pos <= |env.src| && W.OnlyBlanks(env.src, s.pos, |env.src|)
    requires s.pending == None && (s.fstrings != [] ==> s.fstrings[|s.fstrings| - 1].InExpression(s.nesting))
    ensures var r := NextToken(env, s);
            && r.start == r.pos == |env.src| && r.nesting == 0
            && (if s.nesting > 0 then
                  r.kind == Unknown && r.indents == s.indents && Reported(s, r, EofError, Range(|env.src|, |env.src|))
                else if !s.state.IsNewLogicalLine() then
                  r.kind == Newline && r.state == AfterNewline && r.indents == s.indents
                else if s.indents != [] then r.kind == TokenKind.Dedent && r.indents == DropLast(s.indents)
                else r.kind == EndOfFile)
  {
    hide W.OnlyBlanks, W.MeasureIndent, W.SkipBlanks, HandleIndentation;
    var src := env.src;
    W.MeasuresUpTo(src, s.pos, s.pos, |src|, ROOT);
    W.SkipsUpTo(src, s.pos, s.pos, |src|);
  }

  // ---------- What a token does not have ----------

  /** Kinds whose tokens carry flags: literals, and errors that a literal left. */
  predicate HasFlags(kind: TokenKind) {
    IsLiteralKind(kind) || kind == Unknown
  }

  lemma PlainAscii(env: Env, s: Lex)
    requires s.start == s.pos < |env.src| && IsAscii(env.src[s.pos]) && s.flags == NO_FLAGS
    ensures var r := ConsumeAscii(env, s, env.src[s.pos]); HasFlags(r.kind) || r.flags == NO_FLAGS
  {
    hide LexOperator, NumberScan.ScanNumber, IsEscapeCommand, StringScan.ScanString, ScanWord, StringPrefix, FindAny,
         ScanCommand, QuoteFlags;
  }

  /** No token but a literal or an error has flags. */
  lemma OnlyLiteralsHaveFlags(env: Env, s: Lex)
    requires s.pos <= |env.src|
    ensures var r := NextToken(env, s); HasFlags(r.kind) || r.flags == NO_FLAGS
  {
    hide BeforeCharacter, ConsumeAscii;
    var s' := s.(start := s.pos, value := NoValue, flags := NO_FLAGS);
    BeforeHasEffect(env, s');
    match BeforeCharacter(env, s')
    case Emitted(r) => BeforeHasNoFlags(env, s');
    case Ready(m) =>
      if m.pos < |env.src| && IsAscii(env.src[m.pos]) {
        PlainAscii(env, m.(start := m.pos));
      } else if m.pos < |env.src| {
        PlainIdentifier(env, m.(start := m.pos));
      }
  }

  lemma PlainIdentifier(env: Env, s: Lex)
    requires s.start == s.pos < |env.src| && s.flags == NO_FLAGS
    ensures var r := LexIdentifier(env, s); HasFlags(r.kind) || r.flags == NO_FLAGS
  {
    hide StringScan.ScanString, ScanWord, StringPrefix, QuoteFlags;
  }

  lemma BeforeHasNoFlags(env: Env, s: Lex)
    requires s.WellPlaced(env.src) && s.start == s.pos && s.flags == NO_FLAGS && BeforeCharacter(env, s).Emitted?
    ensures var r := BeforeCharacter(env, s).lex; HasFlags(r.kind) || r.flags == NO_FLAGS
  {
    hide W.MeasureIndent, W.SkipBlanks, Width.TryCompare, DedentOne;
  }
}
