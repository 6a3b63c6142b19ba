/** What one lexer step can do to each part of the state, whatever the state before it. */
module LexerSteps {
  import opened Text
  import opened Tokens
  import opened Indentation
  import opened FStrings
  import opened Words
  import opened LexerSpec
  import W = Whitespace
  import FStringScan
  import NumberScan
  import StringScan

  /** An Unknown token comes with exactly one new error, whose location is the token's range; any
      other token comes with none. Either way the token lies between `from` and the cursor. */
  ghost predicate Reports(s: Lex, r: Lex, from: nat) {
    if r.kind == Unknown then
      && |r.errors| == |s.errors| + 1 && s.errors == r.errors[..|s.errors|]
      && r.range == r.errors[|s.errors|].location
      && from <= r.range.start <= r.range.end <= r.pos
    else r.errors == s.errors && from <= r.start <= r.pos
  }

  /** The tokens that leave brackets and f-strings alone. */
  predicate IsPlain(kind: TokenKind) {
    kind in {Name, Int, Float, Complex, TokenKind.String, IpyEscapeCommand} || kind.Keyword?
  }

  /** The effect of lexing the character at the cursor, by the kind of token it turns out to begin. */
  ghost predicate CharacterEffect(env: Env, s: Lex, r: Lex)
    requires s.pos < |env.src|
  {
    && s.pos < r.pos <= |env.src| && r.start == s.pos && Reports(s, r, s.pos)
    && r.indents == s.indents && r.pending == s.pending
    && match r.kind {
         case Lpar | Lsqb | Lbrace =>
           r.nesting == s.nesting + 1 && r.fstrings == s.fstrings && r.state == Other
         case Rpar | Rsqb =>
           && r.nesting == (if s.nesting == 0 then 0 else s.nesting - 1) && r.fstrings == s.fstrings && r.state == Other
           && env.src[s.pos] in {')', ']'}
         case Rbrace =>
           && r.nesting == (if s.nesting == 0 then 0 else s.nesting - 1) && r.state == Other
           && r.fstrings == EndSpec(s).fstrings
           && (s.fstrings != [] ==> s.fstrings[|s.fstrings| - 1].nesting != s.nesting)
           && env.src[s.pos] == '}'
         case Newline =>
           && IsNewline(env.src[s.pos]) && s.nesting == 0 && !s.state.IsNewLogicalLine()
           && r.nesting == 0 && r.fstrings == s.fstrings && r.state == AfterNewline
         case NonLogicalNewline =>
           && IsNewline(env.src[s.pos]) && (s.nesting > 0 || s.state.IsNewLogicalLine())
           && r.nesting == s.nesting && r.fstrings == EndSpec(s).fstrings && r.state == s.state
         case FStringStart =>
           && r.nesting == s.nesting && r.state == Other && r.flags.fstring
           && env.src[s.pos] !in {'{', '}', '\n', '\r'}
           && r.fstrings == s.fstrings + [FString(r.flags, s.nesting, 0)]
         case Operator(text) =>
           && r.nesting == s.nesting && (r.state == Other || r.state == AfterEqual)
           && r.fstrings == (if text == ":" && StartsSpec(s)
                             then OnTop(s.fstrings, s.fstrings[|s.fstrings| - 1].TryStartFormatSpec(s.nesting))
                             else s.fstrings)
         case Comment => r.nesting == s.nesting && r.fstrings == s.fstrings && r.state == s.state
         case Unknown =>
           && r.nesting == s.nesting && r.fstrings == s.fstrings
           && (r.state == Other || (r.state == s.state && !IsNewline(env.src[s.pos])))
         case _ => IsPlain(r.kind) && r.nesting == s.nesting && r.fstrings == s.fstrings && r.state == Other
       }
  }

  lemma IdentifierEffect(env: Env, s: Lex)
    requires s.start == s.pos < |env.src|
    ensures CharacterEffect(env, s, LexIdentifier(env, s).(state := Other))
  {
    hide NumberScan.ScanNumber, StringScan.ScanString, ScanWord, W.SkipBlanks, ScanCommand;
  }

  lemma OperatorEffect(env: Env, s: Lex)
    requires s.start == s.pos < |env.src| && StartsOperator(env.src[s.pos])
    requires env.src[s.pos] == ':' ==> !StartsSpec(s)
    ensures CharacterEffect(env, s, LexOperator(env, s, env.src[s.pos]))
  {
    hide OperatorText;
    var r := LexOperator(env, s, env.src[s.pos]);
    assert r.kind.text[0] == env.src[s.pos];
  }

  lemma BracketEffect(env: Env, s: Lex)
    requires s.start == s.pos < |env.src| && env.src[s.pos] in {'(', ')', '[', ']', '{', '}'}
    ensures CharacterEffect(env, s, Bracket(s.(pos := s.pos + 1), env.src[s.pos]))
  {
  }

  lemma NewlineEffect(env: Env, s: Lex, width: nat)
    requires s.start == s.pos < |env.src| && IsNewline(env.src[s.pos])
    requires 0 < width <= |env.src| - s.pos
    ensures CharacterEffect(env, s, LexNewline(s.(pos := s.pos + width)))
  {
  }

  lemma LiteralEffect(env: Env, s: Lex)
    requires s.start == s.pos < |env.src|
    ensures CharacterEffect(env, s, LexNumber(env, s).(state := Other))
    ensures CharacterEffect(env, s, LexString(env, s.(pos := s.pos + 1)).(state := Other))
  {
    hide NumberScan.ScanNumber, StringScan.ScanString, QuoteFlags;
  }

  lemma PunctuationEffect(env: Env, s: Lex)
    requires s.start == s.pos < |env.src|
    ensures CharacterEffect(env, s, LexPunctuation(env, s, env.src[s.pos]))
  {
    hide LexOperator, Bracket, LexNewline;
    var c := env.src[s.pos];
    if c in {'(', ')', '[', ']', '{', '}'} {
      BracketEffect(env, s);
    } else if IsNewline(c) {
      NewlineEffect(env, s, if c == '\r' && First(env.src, s.pos + 1) == '\n' then 2 else 1);
    } else if StartsOperator(c) && !(c == ':' && StartsSpec(s)) {
      OperatorEffect(env, s);
    }
  }

  lemma AsciiEffect(env: Env, s: Lex)
    requires s.start == s.pos < |env.src| && IsAscii(env.src[s.pos])
    ensures CharacterEffect(env, s, ConsumeAscii(env, s, env.src[s.pos]))
  {
    hide LexIdentifier, LexEscapeCommand, IsEscapeCommand, LexNumber, LexString, LexPunctuation;
    var c := env.src[s.pos];
    if IsAsciiIdentifierStart(c) {
      IdentifierEffect(env, s);
    } else if IsDigit(c) || IsQuote(c) || (c == '.' && IsDigit(First(env.src, s.pos + 1))) {
      LiteralEffect(env, s);
    } else {
      PunctuationEffect(env, s);
    }
  }

  lemma CharacterHasEffect(env: Env, s: Lex)
    requires s.pos < |env.src|
    ensures CharacterEffect(env, s, LexCharacter(env, s))
  {
    hide ConsumeAscii, LexIdentifier;
    var s' := s.(start := s.pos);
    if IsAscii(env.src[s.pos]) {
      AsciiEffect(env, s');
    } else {
      IdentifierEffect(env, s');
    }
  }

  function DropLast<T>(stack: seq<T>): seq<T> {
    if stack == [] then [] else stack[..|stack| - 1]
  }

  ghost predicate SameFStrings(s: Lex, r: Lex) {
    r.nesting == s.nesting && r.fstrings == s.fstrings
  }

  /** The text stands at a brace or, in a format specification, at a line break: where the literal
      text of the innermost f-string ends without the f-string ending. */
  predicate AtFieldBoundary(env: Env, s: Lex) {
    && s.fstrings != [] && s.pos < |env.src|
    && (|| env.src[s.pos] == '{' || env.src[s.pos] == '}'
        || (IsNewline(env.src[s.pos]) && s.fstrings[|s.fstrings| - 1].InFormatSpec(s.nesting)))
  }

  /** The effect of everything before the first character of a token. */
  ghost predicate BeforeEffect(env: Env, s: Lex, p: Progress) {
    match p
    case Ready(m) =>
      && s.pos <= m.pos <= |env.src| && m.errors == s.errors && m.value == s.value && m.flags == s.flags
      && SameFStrings(s, m) && m.indents == s.indents
      && m.pending == (if s.fstrings == [] then None else s.pending)
      && (m.state == s.state ||
          (s.state.AfterNewline? && m.state.NonEmptyLogicalLine? && m.pos < |env.src| && !IsNewline(env.src[m.pos])))
      && (s.fstrings != [] && !s.fstrings[|s.fstrings| - 1].InExpression(s.nesting) ==>
            m.pos == s.pos && AtFieldBoundary(env, s))
    case Emitted(r) =>
      && s.pos <= r.pos <= |env.src| && Reports(s, r, s.pos)
      && match r.kind {
           case FStringMiddle => s.pos < r.pos && s.fstrings != [] && SameFStrings(s, r) && SameLines(s, r)
           case FStringEnd =>
             && s.pos < r.pos && s.fstrings != [] && r.nesting == s.nesting
             && r.fstrings == DropLast(s.fstrings) && SameLines(s, r)
           case Indent =>
             && s.state.AfterNewline? && r.state.NonEmptyLogicalLine?
             && SameFStrings(s, r) && s.pos < r.pos
             && r.indents == s.indents + [W.WidthBefore(env.src, s.pos, r.pos)]
             && Current(s.indents).TryCompare(W.WidthBefore(env.src, s.pos, r.pos)) == Some(Less)
             && r.pending == (if s.fstrings == [] then None else s.pending)
           case Dedent => SameFStrings(s, r) && LeavesLevel(env, s, r) && ReachesFrom(r.pending.value, r.indents)
           case Unknown =>
             || (&& s.fstrings != [] && r.nesting == s.nesting && r.fstrings == DropLast(s.fstrings) && SameLines(s, r))
             || (&& SameFStrings(s, r) && LeavesLevel(env, s, r) && !ReachesFrom(r.pending.value, r.indents)
                 && r.errors[|s.errors|].kind == IndentationError)
             || (&& SameFStrings(s, r) && r.indents == s.indents
                 && (if s.fstrings == [] then r.pending == None else r.pending == s.pending)
                 && (|| (r.state == s.state && (s.pos < r.pos || (s.fstrings == [] && s.pending.Some?)))
                     || (s.state.AfterNewline? && r.state.NonEmptyLogicalLine?)))
           case _ => false
         }
  }

  ghost predicate SameLines(s: Lex, r: Lex) {
    r.state == s.state && r.indents == s.indents && r.pending == s.pending
  }

  /** One level is left for a pending width, that of a line that begins here or began before. */
  ghost predicate LeavesLevel(env: Env, s: Lex, r: Lex)
    requires s.pos <= r.pos <= |env.src|
  {
    && s.indents != [] && r.indents == DropLast(s.indents) && r.pending.Some?
    && (|| (s.state.AfterNewline? && r.state.NonEmptyLogicalLine?
            && r.pending == Some(W.WidthBefore(env.src, s.pos, r.pos)))
        || (s.fstrings == [] && r.state == s.state && r.pending == s.pending))
  }

  predicate ReachesFrom(target: Width, stack: seq<Width>) {
    target.TryCompare(Current(stack)) in {Some(Less), Some(Equal)}
  }

  lemma FStringTextEffect(env: Env, s: Lex)
    requires s.WellPlaced(env.src) && s.start == s.pos && s.fstrings != []
    ensures LexFStringMiddleOrEnd(env, s).Emitted? ==> BeforeEffect(env, s, LexFStringMiddleOrEnd(env, s))
    ensures LexFStringMiddleOrEnd(env, s).Ready? ==>
              LexFStringMiddleOrEnd(env, s) == Ready(s) && AtFieldBoundary(env, s)
  {
    hide FStringScan.EscapeEnd;
  }

  /** A line whose blanks from `s.pos` to `p` have been measured. */
  lemma MeasuredEffect(env: Env, s: Lex, p: nat, width: Width)
    requires s.start == s.pos <= p < |env.src| && s.state.AfterNewline? && !IsNewline(env.src[p])
    requires width.character <= p - s.pos && width == W.WidthBefore(env.src, s.pos, p)
    requires s.fstrings == [] ==> s.pending.None?
    requires s.fstrings != [] && !s.fstrings[|s.fstrings| - 1].InExpression(s.nesting) ==>
               p == s.pos && AtFieldBoundary(env, s)
    ensures BeforeEffect(env, s, HandleIndentation(s.(pos := p, state := NonEmptyLogicalLine), width))
  {
    hide AtFieldBoundary, FString.InExpression, W.WidthBefore;
  }

  lemma IndentationEffect(env: Env, s: Lex)
    requires s.WellPlaced(env.src) && s.start == s.pos && s.state.AfterNewline?
    requires s.fstrings == [] ==> s.pending.None?
    requires s.fstrings != [] && !s.fstrings[|s.fstrings| - 1].InExpression(s.nesting) ==> AtFieldBoundary(env, s)
    ensures BeforeEffect(env, s, EatIndentation(env, s))
  {
    hide W.JoinLines, W.MeasureIndent, HandleIndentation;
    if AtFieldBoundary(env, s) {
      W.NothingToMeasure(env.src, s.start, s.pos);
    }
    var measured := W.MeasureIndent(env.src, s.start, s.pos, ROOT);
    if measured.Measured? && First(env.src, measured.pos) !in {'\n', '\r', '#', EOF_CHAR} {
      W.MeasuresWidthBefore(env.src, s.start, s.pos);
      MeasuredEffect(env, s, measured.pos, measured.width);
    }
  }

  lemma WhitespaceEffect(env: Env, s: Lex)
    requires s.WellPlaced(env.src) && s.start == s.pos && !s.state.AfterNewline?
    requires s.fstrings == [] ==> s.pending.None?
    requires s.fstrings != [] && !s.fstrings[|s.fstrings| - 1].InExpression(s.nesting) ==> AtFieldBoundary(env, s)
    ensures BeforeEffect(env, s, SkipWhitespace(env, s))
  {
    hide W.JoinLines;
  }

  lemma BeforeHasEffect(env: Env, s: Lex)
    requires s.WellPlaced(env.src) && s.start == s.pos
    ensures BeforeEffect(env, s, BeforeCharacter(env, s))
  {
    hide LexFStringMiddleOrEnd, EatIndentation, SkipWhitespace;
    if s.fstrings != [] && !s.fstrings[|s.fstrings| - 1].InExpression(s.nesting) {
      FStringTextEffect(env, s);
    }
    match FStringTextOrDedent(env, s)
    case Emitted(r) =>
    case Ready(m) =>
      if m.state.AfterNewline? {
        IndentationEffect(env, m);
      } else {
        WhitespaceEffect(env, m);
      }
  }
}
