/** The lexer itself: fields updated in place, loops over the source, checked against `LexerSpec`. */
module LexerClass {
  import opened Text
  import opened Tokens
  import opened Indentation
  import opened FStrings
  import opened Words
  import opened Integers
  import Spec = LexerSpec
  import W = Whitespace
  import StringScan
  import FStringScan
  import opened NumberScan

  class Lexer {
    const env: Env
    var pos: nat
    var start: nat
    var kind: TokenKind
    var range: Range
    var value: TokenValue
    var flags: Flags
    var state: Spec.LineState
    var nesting: nat
    var indents: seq<Width>
    var pending: Option<Width>
    var fstrings: seq<FString>
    var errors: seq<LexicalError>

    ghost function State(): Spec.Lex
      reads this
    {
      Spec.Lex(pos, start, kind, range, value, flags, state, nesting, indents, pending, fstrings, errors)
    }

    constructor (env: Env, startOffset: nat)
      requires startOffset <= |env.src|
      ensures this.env == env && State() == Spec.Init(env, startOffset)
    {
      this.env := env;
      pos := if startOffset == 0 then 0 else startOffset;
      start := 0;
      kind, range, value, flags := EndOfFile, Range(startOffset, startOffset), NoValue, NO_FLAGS;
      state, nesting, indents, pending := Spec.AfterNewline, 0, [], None;
      fstrings, errors := [], [];
      new;
      if startOffset == 0 {
        var _ := EatChar(BOM);
      }
    }

    // ---------- The cursor ----------

    function Peek(ahead: nat): (c: char)
      reads this
    {
      First(env.src, pos + ahead)
    }

    method EatChar(c: char) returns (eaten: bool)
      requires pos <= |env.src| && c != EOF_CHAR
      modifies this`pos
      ensures eaten == (First(env.src, old(pos)) == c)
      ensures pos == (if eaten then old(pos) + 1 else old(pos)) <= |env.src|
    {
      eaten := Peek(0) == c;
      if eaten {
        pos := pos + 1;
      }
    }

    method EatTwo(c: char) returns (eaten: bool)
      requires pos <= |env.src|
      modifies this`pos
      ensures eaten == (old(pos) + 1 < |env.src| && env.src[old(pos)] == c && env.src[old(pos) + 1] == c)
      ensures pos == (if eaten then old(pos) + 2 else old(pos)) <= |env.src|
    {
      eaten := pos + 1 < |env.src| && env.src[pos] == c && env.src[pos + 1] == c;
      if eaten {
        pos := pos + 2;
      }
    }

    method EatIf(a: char, b: char) returns (eaten: bool)
      requires pos <= |env.src|
      modifies this`pos
      ensures eaten == IsOneOf(env.src, old(pos), a, b)
      ensures pos == (if eaten then old(pos) + 1 else old(pos)) <= |env.src|
    {
      eaten := IsOneOf(env.src, pos, a, b);
      if eaten {
        pos := pos + 1;
      }
    }

    function TokenRange(): Range
      requires start <= pos
      reads this
    {
      Range(start, pos)
    }

    method PushError(error: LexicalError) returns (token: TokenKind)
      modifies this`range, this`errors
      ensures State().(kind := token) == Spec.PushError(old(State()), error)
    {
      range := error.location;
      errors := errors + [error];
      token := Unknown;
    }

    // ---------- Tokens ----------

    method NextToken() returns (token: TokenKind)
      requires pos <= |env.src|
      modifies this
      ensures State() == Spec.NextToken(env, old(State())) && token == kind && pos <= |env.src|
    {
      hide Spec.LexToken;
      start := pos;
      value := NoValue;
      flags := NO_FLAGS;
      token := LexToken();
      kind := token;
      if kind != Unknown {
        range := TokenRange();
      }
    }

    method LexToken() returns (token: TokenKind)
      requires start == pos <= |env.src|
      modifies this
      ensures State().(kind := token) == Spec.LexToken(env, old(State()))
    {
      hide Spec.LexFStringMiddleOrEnd, Spec.EatIndentation, Spec.SkipWhitespace, Spec.LexCharacter, Spec.OwedDedent;
      var early: Option<TokenKind> := None;
      if fstrings != [] {
        if !fstrings[|fstrings| - 1].InExpression(nesting) {
          early := LexFStringMiddleOrEnd();
        }
      } else {
        early := OwedDedent();
      }
      if early.Some? {
        return early.value;
      }

      if state.AfterNewline? {
        early := EatIndentation();
      } else {
        early := SkipWhitespace();
      }
      if early.Some? {
        return early.value;
      }
      token := LexCharacter();
    }

    /** Whether `token`, if any, and the state now are what `expected` says. */
    ghost predicate Matches(token: Option<TokenKind>, expected: Spec.Progress)
      reads this
    {
      match token
      case None => expected == Spec.Ready(State())
      case Some(k) => expected == Spec.Emitted(State().(kind := k))
    }

    method OwedDedent() returns (token: Option<TokenKind>)
      requires start <= pos
      modifies this`pending, this`indents, this`range, this`errors
      ensures Matches(token, Spec.OwedDedent(old(State())))
    {
      if pending.Some? {
        var indentation := pending.value;
        pending := None;
        match Current(indents).TryCompare(indentation)
        case Some(Greater) =>
          pending := Some(indentation);
          var k := LeaveLevel(indentation);
          return Some(k);
        case Some(_) =>
        case None =>
          var k := PushError(LexicalError(IndentationError, TokenRange()));
          return Some(k);
      }
      token := None;
    }

    method LeaveLevel(target: Width) returns (token: TokenKind)
      requires start <= pos && pending == Some(target)
      modifies this`indents, this`range, this`errors
      ensures State().(kind := token) == Spec.LeaveLevel(old(State()), target)
    {
      var (reachable, rest) := DedentOne(indents, target);
      indents := rest;
      if reachable {
        token := TokenKind.Dedent;
      } else {
        token := PushError(LexicalError(IndentationError, TokenRange()));
      }
    }

    /** Reads the backslash at the cursor and the line break it joins over. */
    method JoinLine() returns (error: Option<LexicalError>)
      requires start <= pos < |env.src| && env.src[pos] == '\\'
      modifies this`pos
      ensures var j := W.JoinLines(env.src, old(pos));
              if j.Joined? then error == None && pos == j.pos
              else error == Some(W.JoiningError(j, start, old(pos))) && pos == old(pos) + 1
    {
      pos := pos + 1;
      var carriageReturn := EatChar('\r');
      if carriageReturn {
        var _ := EatChar('\n');
      } else if pos == |env.src| {
        return Some(LexicalError(EofError, TokenRange()));
      } else {
        var lineFeed := EatChar('\n');
        if !lineFeed {
          return Some(LexicalError(LineContinuationError, Range(pos - 1, pos)));
        }
      }
      error := None;
    }

    method EatIndentation() returns (token: Option<TokenKind>)
      requires start <= pos <= |env.src|
      modifies this
      ensures Matches(token, Spec.EatIndentation(env, old(State())))
    {
      hide W.JoinLines, Spec.HandleIndentation;
      var width := ROOT;
      while true
        invariant old(pos) <= pos <= |env.src| && State() == old(State()).(pos := pos)
        invariant W.MeasureIndent(env.src, start, pos, width) == W.MeasureIndent(env.src, start, old(pos), ROOT)
        decreases |env.src| - pos
      {
        match Peek(0) {
          case ' ' =>
            pos := pos + 1;
            width := width.AddSpace();
          case '\t' =>
            pos := pos + 1;
            width := width.AddTab();
          case '\\' =>
            var error := JoinLine();
            if error.Some? {
              var k := PushError(error.value);
              return Some(k);
            }
            width := ROOT;
          case '\U{0C}' =>
            pos := pos + 1;
            width := ROOT;
          case _ => break;
        }
      }

      if Peek(0) !in {'\n', '\r', '#', EOF_CHAR} {
        state := Spec.NonEmptyLogicalLine;
        token := HandleIndentation(width);
        return;
      }
      token := None;
    }

    method HandleIndentation(width: Width) returns (token: Option<TokenKind>)
      requires start <= pos
      modifies this`pending, this`indents, this`range, this`errors, this`start
      ensures Matches(token, Spec.HandleIndentation(old(State()), width))
    {
      hide DedentOne, Width.TryCompare;
      match Current(indents).TryCompare(width)
      case Some(Greater) =>
        pending := Some(width);
        var k := LeaveLevel(width);
        if k != Unknown {
          start := pos;
        }
        token := Some(k);
      case Some(Equal) => token := None;
      case Some(Less) =>
        indents := indents + [width];
        token := Some(TokenKind.Indent);
      case None =>
        var k := PushError(LexicalError(IndentationError, TokenRange()));
        token := Some(k);
    }

    method SkipWhitespace() returns (token: Option<TokenKind>)
      requires start <= pos <= |env.src|
      modifies this`pos, this`range, this`errors
      ensures Matches(token, Spec.SkipWhitespace(env, old(State())))
    {
      hide W.JoinLines;
      while true
        invariant old(pos) <= pos <= |env.src| && State() == old(State()).(pos := pos)
        invariant W.SkipBlanks(env.src, start, pos) == W.SkipBlanks(env.src, start, old(pos))
        decreases |env.src| - pos
      {
        match Peek(0) {
          case ' ' => pos := pos + 1;
          case '\t' => pos := pos + 1;
          case '\\' =>
            var error := JoinLine();
            if error.Some? {
              var k := PushError(error.value);
              return Some(k);
            }
          case '\U{0C}' => pos := pos + 1;
          case _ => break;
        }
      }
      token := None;
    }

    method LexCharacter() returns (token: TokenKind)
      requires pos <= |env.src|
      modifies this
      ensures State().(kind := token) == Spec.LexCharacter(env, old(State()))
    {
      hide Spec.ConsumeAscii, Spec.LexIdentifier;
      start := pos;
      if pos < |env.src| {
        var c := env.src[pos];
        if IsAscii(c) {
          token := ConsumeAscii(c);
        } else if env.xidStart(c) {
          token := LexIdentifier();
          state := Spec.Other;
        } else {
          pos := pos + 1;
          token := PushError(LexicalError(UnrecognizedToken(c), TokenRange()));
        }
      } else {
        token := ConsumeEnd();
      }
    }

    method ConsumeEnd() returns (token: TokenKind)
      requires start <= pos
      modifies this`nesting, this`state, this`indents, this`range, this`errors
      ensures State().(kind := token) == Spec.ConsumeEnd(old(State()))
    {
      if nesting > 0 {
        nesting := 0;
        token := PushError(LexicalError(EofError, TokenRange()));
      } else if !state.IsNewLogicalLine() {
        state := Spec.AfterNewline;
        token := Newline;
      } else if indents != [] {
        indents := indents[..|indents| - 1];
        token := TokenKind.Dedent;
      } else {
        token := EndOfFile;
      }
    }

    /** Dispatches on the ASCII character at the cursor. */
    method ConsumeAscii(c: char) returns (token: TokenKind)
      requires start == pos < |env.src| && env.src[pos] == c
      modifies this
      ensures State().(kind := token) == Spec.ConsumeAscii(env, old(State()), c)
    {
      hide Spec.LexIdentifier, Spec.LexNumber, Spec.LexString, Spec.LexEscapeCommand, Spec.LexPunctuation,
        Spec.IsEscapeCommand, FindAny;
      if IsAsciiIdentifierStart(c) {
        token := LexIdentifier();
      } else if IsDigit(c) {
        token := LexNumber();
      } else if c == '#' {
        pos := pos + 1;
        token := LexComment();
        return;
      } else if IsQuote(c) {
        pos := pos + 1;
        token := LexString();
      } else if Spec.IsEscapeCommand(env.mode, state, nesting, c) {
        pos := pos + 1;
        token := LexEscapeCommand(c);
      } else if c == '?' && env.mode == Ipython {
        pos := pos + 1;
        token := Operator("?");
      } else if c == '.' && IsDigit(Peek(1)) {
        token := LexNumber();
      } else {
        token := LexPunctuation(c);
        return;
      }
      state := Spec.Other;
    }

    method LexPunctuation(c: char) returns (token: TokenKind)
      requires start == pos < |env.src| && env.src[pos] == c
      modifies this
      ensures State().(kind := token) == Spec.LexPunctuation(env, old(State()), c)
    {
      hide Spec.Bracket, Spec.LexNewline, Spec.LexOperator, FString.StartsFormatSpec, FString.TryStartFormatSpec;
      if c in {'(', ')', '[', ']', '{', '}'} {
        pos := pos + 1;
        token := Bracket(c);
      } else if c == ':' && fstrings != [] && fstrings[|fstrings| - 1].StartsFormatSpec(nesting) {
        pos := pos + 1;
        fstrings := Spec.OnTop(fstrings, fstrings[|fstrings| - 1].TryStartFormatSpec(nesting));
        state := Spec.Other;
        token := Operator(":");
      } else if StartsOperator(c) {
        token := LexOperator(c);
      } else if c == '\n' {
        pos := pos + 1;
        token := LexNewline();
      } else if c == '\r' {
        pos := pos + 1;
        var _ := EatChar('\n');
        token := LexNewline();
      } else {
        pos := pos + 1;
        state := Spec.Other;
        token := PushError(LexicalError(UnrecognizedToken(c), TokenRange()));
      }
    }

    method LexOperator(c: char) returns (token: TokenKind)
      requires start == pos < |env.src| && env.src[pos] == c && StartsOperator(c)
      modifies this`pos, this`state
      ensures State().(kind := token) == Spec.LexOperator(env, old(State()), c)
    {
      hide OperatorText;
      ghost var expected := Spec.LexOperator(env, State(), c);
      var text := OperatorText(c, Peek(1), Peek(2));
      pos := pos + |text|;
      state := if text == "=" then Spec.AfterEqual else Spec.Other;
      token := Operator(text);
    }

    method LexComment() returns (token: TokenKind)
      requires pos <= |env.src|
      modifies this`pos
      ensures pos == FindAny(env.src, old(pos), {'\n', '\r'}) && token == Comment
    {
      pos := FindAny(env.src, pos, {'\n', '\r'});
      token := Comment;
    }

    method Bracket(c: char) returns (token: TokenKind)
      requires start <= pos && c in {'(', ')', '[', ']', '{', '}'}
      modifies this`nesting, this`fstrings, this`state, this`range, this`errors
      ensures State().(kind := token) == Spec.Bracket(old(State()), c)
    {
      if c in {'(', '[', '{'} {
        nesting := nesting + 1;
        token := Spec.OpeningKind(c);
      } else {
        if c == '}' && fstrings != [] {
          if fstrings[|fstrings| - 1].nesting == nesting {
            token := PushError(LexicalError(FStringProblem(SingleRbrace), TokenRange()));
            return;
          }
          fstrings := Spec.OnTop(fstrings, fstrings[|fstrings| - 1].TryEndFormatSpec(nesting));
        }
        nesting := if nesting == 0 then 0 else nesting - 1;
        token := Spec.ClosingKind(c);
      }
      state := Spec.Other;
    }

    method LexNewline() returns (token: TokenKind)
      modifies this`fstrings, this`state
      ensures State().(kind := token) == Spec.LexNewline(old(State()))
    {
      if nesting == 0 && !state.IsNewLogicalLine() {
        state := Spec.AfterNewline;
        token := Newline;
      } else {
        if fstrings != [] {
          fstrings := Spec.OnTop(fstrings, fstrings[|fstrings| - 1].TryEndFormatSpec(nesting));
        }
        token := NonLogicalNewline;
      }
    }

    method LexIdentifier() returns (token: TokenKind)
      requires start == pos < |env.src|
      modifies this
      ensures State().(kind := token) == Spec.LexIdentifier(env, old(State()))
    {
      hide Spec.LexString, Spec.LexFStringStart, Spec.StringPrefix, ScanWord;
      var prefix := ReadPrefix();
      if prefix.None? {
        token := LexWord();
        return;
      }
      flags := prefix.value;
      if flags.fstring {
        token := LexFStringStart();
      } else {
        token := LexString();
      }
    }

    /** Reads a string prefix and the quote after it, if that is what comes next. */
    method ReadPrefix() returns (prefix: Option<Flags>)
      requires pos < |env.src|
      modifies this`pos
      ensures match Spec.StringPrefix(env.src, old(pos))
              case None => prefix == None && pos == old(pos)
              case Some((flags, length)) => prefix == Some(flags) && pos == old(pos) + length + 1
    {
      hide SinglePrefix, DoublePrefix;
      if IsQuote(Peek(1)) {
        prefix := SinglePrefix(env.src[pos]);
        if prefix.Some? {
          pos := pos + 2;
        }
      } else if IsQuote(Peek(2)) {
        prefix := DoublePrefix(env.src[pos], Peek(1));
        if prefix.Some? {
          pos := pos + 3;
        }
      } else {
        prefix := None;
      }
    }

    method LexWord() returns (token: TokenKind)
      requires start == pos < |env.src|
      modifies this`pos, this`value
      ensures var word := ScanWord(env, start);
              State().(kind := token) == old(State()).(pos := word.pos, kind := word.kind,
                                              value := if word.value == NoValue then old(value) else word.value)
    {
      hide EatIdentifier;
      pos := pos + 1;
      var isAscii := EatIdentifierTail(IsAscii(env.src[start]));
      var text := env.src[start..pos];
      if !isAscii {
        value := NameValue(env.nfkc(text));
        return Name;
      }
      if text in KEYWORDS {
        return Keyword(text);
      }
      value := NameValue(text);
      token := Name;
    }

    method EatIdentifierTail(ascii: bool) returns (isAscii: bool)
      requires pos <= |env.src|
      modifies this`pos
      ensures (pos, isAscii) == EatIdentifier(env, old(pos), ascii)
    {
      isAscii := ascii;
      while pos < |env.src|
        invariant old(pos) <= pos <= |env.src|
        invariant EatIdentifier(env, pos, isAscii) == EatIdentifier(env, old(pos), ascii)
        decreases |env.src| - pos
      {
        if !IsAscii(env.src[pos]) {
          isAscii := false;
        }
        if !ContinuesIdentifier(env, env.src[pos]) {
          break;
        }
        pos := pos + 1;
      }
    }

    method LexFStringStart() returns (token: TokenKind)
      requires 1 <= pos <= |env.src|
      modifies this`pos, this`flags, this`fstrings
      ensures State().(kind := token) == Spec.LexFStringStart(env, old(State()))
    {
      hide Spec.QuoteFlags;
      ReadQuotes();
      fstrings := fstrings + [FString(flags, nesting, 0)];
      token := FStringStart;
    }

    /** Notes which quote was just read, and reads two more if they make the literal triple-quoted. */
    method ReadQuotes()
      requires 1 <= pos <= |env.src|
      modifies this`pos, this`flags
      ensures flags == Spec.QuoteFlags(env.src, old(flags), old(pos))
      ensures pos == (if flags.tripleQuoted then old(pos) + 2 else old(pos)) <= |env.src|
    {
      var quote := env.src[pos - 1];
      flags := flags.(doubleQuotes := quote == '"');
      var triple := EatTwo(quote);
      flags := flags.(tripleQuoted := triple);
    }

    method LexFStringMiddleOrEnd() returns (token: Option<TokenKind>)
      requires start == pos <= |env.src| && fstrings != []
      modifies this
      ensures Matches(token, Spec.LexFStringMiddleOrEnd(env, old(State())))
    {
      hide FStringScan.NextStep, FStringScan.ScanMiddle;
      var fstring := fstrings[|fstrings| - 1];
      var outer := fstrings[..|fstrings| - 1];
      var quote := fstring.flags.QuoteChar();
      if fstring.flags.tripleQuoted {
        if IsTriple(env.src, quote, pos) {
          pos := pos + 3;
          flags := fstring.flags;
          fstrings := outer;
          return Some(FStringEnd);
        }
      } else {
        var closed := EatChar(quote);
        if closed {
          flags := fstring.flags;
          fstrings := outer;
          return Some(FStringEnd);
        }
      }

      var normalized, lastOffset, problem := EatMiddle(fstring, fstring.InFormatSpec(nesting));
      if problem.Some? {
        fstrings := outer;
        var k := PushError(LexicalError(FStringProblem(problem.value), TokenRange()));
        return Some(k);
      }
      if start == pos {
        return None;
      }
      value := FStringMiddleValue(if normalized == [] then env.src[start..pos]
                                  else normalized + env.src[lastOffset..pos]);
      flags := fstring.flags;
      token := Some(FStringMiddle);
    }

    /** Moves over the literal text of `fstring`. Text is copied to `normalized` only when a doubled brace
        makes it differ from the source; what follows `lastOffset` is not copied yet. */
    method EatMiddle(fstring: FString, inSpec: bool)
      returns (normalized: string, lastOffset: nat, problem: Option<FStringError>)
      requires pos <= |env.src|
      modifies this`pos
      ensures old(pos) <= lastOffset <= pos <= |env.src|
      ensures match FStringScan.ScanMiddle(env.src, fstring.flags, inSpec, old(pos), false)
              case Text(p, text) =>
                && problem == None && pos == p
                && text == (if normalized == [] then env.src[old(pos)..pos] else normalized + env.src[lastOffset..pos])
                && (normalized == [] <==>
                    FStringScan.DoubledBraces(env.src, fstring.flags, inSpec, old(pos), false) == 0)
              case Unterminated(p, error) => problem == Some(error) && pos == p
    {
      hide FStringScan.NextStep, FStringScan.ScanMiddle, FStringScan.Prepend, FStringScan.DoubledBraces,
           FStringScan.Built;
      ghost var begin := pos;
      ghost var built := "";
      ghost var doubled := 0;
      FStringScan.PrependNothing(FStringScan.ScanMiddle(env.src, fstring.flags, inSpec, begin, false));
      normalized, lastOffset, problem := [], pos, None;
      var named, done := false, false;
      FStringScan.BuiltIs(env.src, normalized, lastOffset, pos);
      while !done
        invariant begin <= lastOffset <= pos <= |env.src|
        invariant normalized == [] ==> lastOffset == begin
        invariant built == FStringScan.Built(env.src, normalized, lastOffset, pos)
        invariant normalized == [] <==> doubled == 0
        invariant FStringScan.DoubledBraces(env.src, fstring.flags, inSpec, begin, false) ==
                    doubled + if done then 0 else FStringScan.DoubledBraces(env.src, fstring.flags, inSpec, pos, named)
        invariant var all := FStringScan.ScanMiddle(env.src, fstring.flags, inSpec, begin, false);
                  if !done then problem == None &&
                    all == FStringScan.Prepend(
                      built, FStringScan.ScanMiddle(env.src, fstring.flags, inSpec, pos, named))
                  else if problem == None then all == FStringScan.Text(pos, built)
                  else all == FStringScan.Unterminated(pos, problem.value)
        decreases !done, |env.src| - pos
      {
        FStringScan.TakeOne(env.src, fstring.flags, inSpec, begin, pos, named, built);
        ghost var step := FStringScan.NextStep(env.src, fstring.flags, inSpec, pos, named);
        FStringScan.CountOne(env.src, fstring.flags, inSpec, pos, named);
        doubled := if step.Take? && |step.piece| < step.pos - pos then doubled + 1 else doubled;
        built := if step.Take? then built + step.piece else built;
        done, problem, named, normalized, lastOffset :=
          EatMiddleCharacter(fstring, inSpec, named, normalized, lastOffset);
      }
      FStringScan.BuiltIs(env.src, normalized, lastOffset, pos);
    }

    /** Takes the next character of literal text with whatever belongs to it, or says that the text is done. */
    method EatMiddleCharacter(fstring: FString, inSpec: bool, wasNamed: bool, copied: string, copiedTo: nat)
      returns (done: bool, problem: Option<FStringError>, named: bool, normalized: string, lastOffset: nat)
      requires copiedTo <= pos <= |env.src|
      modifies this`pos
      ensures match FStringScan.NextStep(env.src, fstring.flags, inSpec, old(pos), wasNamed)
              case Take(next, piece, named') =>
                && !done && problem == None && pos == next && named == named'
                && copiedTo <= lastOffset <= pos
                && FStringScan.Built(env.src, normalized, lastOffset, pos)
                   == FStringScan.Built(env.src, copied, copiedTo, old(pos)) + piece
                && (normalized == [] <==> copied == [] && |piece| == next - old(pos))
                && (normalized == [] ==> lastOffset == copiedTo)
              case Stop => done && problem == None && pos == old(pos) && normalized == copied && lastOffset == copiedTo
              case GiveUp(error) =>
                done && problem == Some(error) && pos == old(pos) && normalized == copied && lastOffset == copiedTo
    {
      hide FStringScan.BackslashStep, FStringScan.BraceStep, IsTriple;
      done, problem, named, normalized, lastOffset := false, None, wasNamed, copied, copiedTo;
      ghost var from := pos;
      var c := Peek(0);
      if pos == |env.src| {
        done, problem := true,
          Some(if fstring.flags.tripleQuoted then UnterminatedTripleQuotedString else UnterminatedString);
        return;
      } else if IsNewline(c) && !fstring.flags.tripleQuoted {
        done, problem := true, if inSpec then None else Some(UnterminatedString);
        return;
      } else if c == '\\' {
        named := EatBackslash(fstring, wasNamed);
      } else if c == fstring.flags.QuoteChar() && (!fstring.flags.tripleQuoted || IsTriple(env.src, c, pos)) {
        done := true;
        return;
      } else if c == '{' || c == '}' {
        done, named, normalized, lastOffset := EatBrace(inSpec, wasNamed, copied, copiedTo);
        return;
      } else {
        pos := pos + 1;
      }
      FStringScan.BuiltGrows(env.src, copied, copiedTo, from, pos);
    }

    method EatBackslash(fstring: FString, wasNamed: bool) returns (named: bool)
      requires pos < |env.src| && env.src[pos] == '\\'
      modifies this`pos
      ensures var step := FStringScan.BackslashStep(env.src, fstring.flags, old(pos), wasNamed);
              pos == step.pos && named == step.named
    {
      named := wasNamed;
      pos := pos + 1;
      if Peek(0) == '{' || Peek(0) == '}' {
        return;
      }
      if !fstring.flags.IsRaw() && Peek(0) == 'N' && Peek(1) == '{' {
        pos := pos + 2;
        named := true;
        return;
      }
      var carriageReturn := EatChar('\r');
      if carriageReturn {
        var _ := EatChar('\n');
      } else if pos < |env.src| {
        pos := pos + 1;
      }
    }

    method EatBrace(inSpec: bool, wasNamed: bool, copied: string, copiedTo: nat)
      returns (done: bool, named: bool, normalized: string, lastOffset: nat)
      requires copiedTo <= pos < |env.src| && (env.src[pos] == '{' || env.src[pos] == '}')
      modifies this`pos
      ensures match FStringScan.BraceStep(env.src, inSpec, old(pos), wasNamed)
              case Take(next, piece, named') =>
                && !done && pos == next && named == named'
                && copiedTo <= lastOffset <= pos
                && FStringScan.Built(env.src, normalized, lastOffset, pos)
                   == FStringScan.Built(env.src, copied, copiedTo, old(pos)) + piece
                && (normalized == [] <==> copied == [] && |piece| == next - old(pos))
                && (normalized == [] ==> lastOffset == copiedTo)
              case _ => done && pos == old(pos) && named == wasNamed && normalized == copied && lastOffset == copiedTo
    {
      var c := env.src[pos];
      done, named, normalized, lastOffset := false, wasNamed, copied, copiedTo;
      FStringScan.BuiltGrows(env.src, copied, copiedTo, pos, pos + 1);
      if c == '}' && named {
        named := false;
        pos := pos + 1;
      } else if Peek(1) == c && !inSpec {
        pos := pos + 1;
        normalized := normalized + env.src[lastOffset..pos];
        pos := pos + 1;
        lastOffset := pos;
      } else {
        done := true;
      }
    }

    method LexString() returns (token: TokenKind)
      requires start < pos <= |env.src| && IsQuote(env.src[pos - 1])
      modifies this
      ensures State().(kind := token) == Spec.LexString(env, old(State()))
    {
      hide StringScan.ScanString, Spec.QuoteFlags;
      var quote := env.src[pos - 1];
      ReadQuotes();
      var valueStart := pos;
      var end := FindEnd(quote);
      match end
      case Closed(valueEnd, _) =>
        value := StringValue(env.src[valueStart..valueEnd]);
        token := TokenKind.String;
      case BrokenAt(_) => token := PushError(LexicalError(UnclosedStringError, TokenRange()));
      case EndOfInput =>
        token := PushError(LexicalError(if flags.tripleQuoted then UnclosedStringError else StringError, TokenRange()));
    }

    method FindEnd(quote: char) returns (end: StringScan.StringEnd)
      requires pos <= |env.src| && IsQuote(quote)
      modifies this`pos
      ensures end == StringScan.ScanString(env.src, quote, flags.tripleQuoted, old(pos), false)
      ensures pos == (match end case Closed(_, p) => p case BrokenAt(p) => p case EndOfInput => |env.src|)
    {
      if flags.tripleQuoted {
        end := FindTripleEnd(quote);
      } else {
        end := FindSingleEnd(quote);
      }
    }

    /** Jumps from quote to quote until three in a row that no backslash escapes. */
    method FindTripleEnd(quote: char) returns (end: StringScan.StringEnd)
      requires pos <= |env.src| && IsQuote(quote)
      modifies this`pos
      ensures end == StringScan.ScanString(env.src, quote, true, old(pos), false)
      ensures !end.BrokenAt? && pos == (if end.Closed? then end.pos else |env.src|)
    {
      while true
        invariant old(pos) <= pos <= |env.src|
        invariant StringScan.ScanString(env.src, quote, true, pos, false)
               == StringScan.ScanString(env.src, quote, true, old(pos), false)
        decreases |env.src| - pos
      {
        var index := FindAny(env.src, pos, {quote});
        StringScan.JumpIsSound(env.src, quote, true, pos, index);
        if index == |env.src| {
          pos := |env.src|;
          return StringScan.EndOfInput;
        }
        var escaped := StringScan.TrailingBackslashes(env.src, pos, index) % 2 == 1;
        pos := index + 1;
        if escaped {
          continue;
        }
        var closed := EatTwo(quote);
        if closed {
          return StringScan.Closed(pos - 3, pos);
        }
      }
    }

    /** Jumps to the next quote or line break until one that no backslash escapes. */
    method FindSingleEnd(quote: char) returns (end: StringScan.StringEnd)
      requires pos <= |env.src| && IsQuote(quote)
      modifies this`pos
      ensures end == StringScan.ScanString(env.src, quote, false, old(pos), false)
      ensures pos == (match end case Closed(_, p) => p case BrokenAt(p) => p case EndOfInput => |env.src|)
    {
      hide StringScan.TrailingBackslashes, StringScan.ScanString;
      while true
        invariant old(pos) <= pos <= |env.src|
        invariant StringScan.ScanString(env.src, quote, false, pos, false)
               == StringScan.ScanString(env.src, quote, false, old(pos), false)
        decreases |env.src| - pos
      {
        var index := FindAny(env.src, pos, {quote, '\r', '\n'});
        StringScan.JumpIsSound(env.src, quote, false, pos, index);
        if index == |env.src| {
          StringScan.ScanAtEnd(env.src, quote, false, StringScan.TrailingBackslashes(env.src, pos, index) % 2 == 1);
          pos := |env.src|;
          return StringScan.EndOfInput;
        }
        var escaped := StringScan.TrailingBackslashes(env.src, pos, index) % 2 == 1;
        StringScan.StopInSingle(env.src, quote, index);
        pos := index;
        var quoteOrNewline := env.src[pos];
        if escaped {
          pos := pos + 1;
          if quoteOrNewline == '\r' {
            var _ := EatChar('\n');
          }
          continue;
        }
        if IsNewline(quoteOrNewline) {
          return StringScan.BrokenAt(pos);
        }
        pos := pos + 1;
        return StringScan.Closed(pos - 1, pos);
      }
    }

    // ---------- Numbers ----------

    method LexNumber() returns (token: TokenKind)
      requires start == pos < |env.src| && (IsDigit(env.src[pos]) || env.src[pos] == '.')
      modifies this`pos, this`value, this`range, this`errors
      ensures State().(kind := token) == Spec.LexNumber(env, old(State()))
    {
      hide ScanRadix, ScanDecimal, FromStrRadix, Spec.PushError, PrefixRadix;
      var first := env.src[pos];
      pos := pos + 1;
      if first == '0' {
        var radix := EatRadixPrefix();
        if radix.Some? {
          token := LexRadix(radix.value);
          return;
        }
      }
      token := LexDecimal(first);
    }

    /** Reads the letter that gives a number's radix, if it comes next. */
    method EatRadixPrefix() returns (radix: Option<nat>)
      requires pos <= |env.src|
      modifies this`pos
      ensures radix == PrefixRadix(First(env.src, old(pos))) && (radix.Some? ==> radix.value <= 16)
      ensures pos == (if radix.Some? then old(pos) + 1 else old(pos)) <= |env.src|
    {
      var hex := EatIf('x', 'X');
      if hex {
        return Some(16);
      }
      var octal := EatIf('o', 'O');
      if octal {
        return Some(8);
      }
      var binary := EatIf('b', 'B');
      radix := if binary then Some(2) else None;
    }

    /** Whether the state is the one that `expected` says, coming from `before`. */
    ghost predicate IsNumber(before: Spec.Lex, token: TokenKind, expected: Number)
      reads this
    {
      match expected
      case NumberToken(p, k, v) => State().(kind := token) == before.(pos := p, kind := k, value := v)
      case NumberError(p, error) => State().(kind := token) == Spec.PushError(before.(pos := p), error)
    }

    method LexRadix(radix: nat) returns (token: TokenKind)
      requires start + 2 == pos <= |env.src| && radix <= 16
      modifies this`pos, this`value, this`range, this`errors
      ensures IsNumber(old(State()), token, ScanRadix(env.src, start, radix))
    {
      hide DigitRun;
      var number := LexedText.Source(Range(pos, pos));
      ghost var digits := DigitRun(env.src, radix, pos).1;
      number := RadixRun(number, radix, "");
      assert "" + digits == digits;
      match FromStrRadix(radix, number.AsStr(env.src), env.src[start..pos])
      case Some(literal) =>
        value := IntLiteral(literal);
        token := Int;
      case None => token := PushError(LexicalError(OtherError(EMPTY_NUMBER), TokenRange()));
    }

    /** Moves over digits and the separators between them, and appends the digits to `number`. */
    method RadixRun(number: LexedText, radix: nat, ghost held: string) returns (r: LexedText)
      requires pos <= |env.src| && radix <= 16 && number.Holds(env.src, pos, held)
      modifies this`pos
      ensures pos == DigitRun(env.src, radix, old(pos)).0 <= |env.src|
      ensures r.Holds(env.src, pos, held + DigitRun(env.src, radix, old(pos)).1)
    {
      hide DigitRun, LexedText.Holds, LexedText.Push, LexedText.SkipChar, IsRadixDigit;
      r := number;
      ghost var pushed := held;
      while true
        invariant old(pos) <= pos <= |env.src|
        invariant r.Holds(env.src, pos, pushed)
        invariant DigitRun(env.src, radix, old(pos)).0 == DigitRun(env.src, radix, pos).0
        invariant held + DigitRun(env.src, radix, old(pos)).1 == pushed + DigitRun(env.src, radix, pos).1
        decreases |env.src| - pos
      {
        if pos == |env.src| {
          RunEnds(env.src, radix);
          break;
        }
        RunStep(env.src, radix, pos, pushed);
        if IsRadixDigit(radix, env.src[pos]) {
          r.PushHolds(env.src, pos, pushed);
          pushed := pushed + [env.src[pos]];
          pos := pos + 1;
          r := r.Push(env.src[pos - 1]);
        } else if Peek(0) == '_' && IsRadixDigit(radix, Peek(1)) {
          r.SkipHolds(env.src, pos, pushed);
          pos := pos + 1;
          r := r.SkipChar(env.src);
        } else {
          break;
        }
      }
      assert pushed + [] == pushed;
    }

    method LexDecimal(first: char) returns (token: TokenKind)
      requires start + 1 == pos <= |env.src| && env.src[start] == first && (IsDigit(first) || first == '.')
      modifies this`pos, this`value, this`range, this`errors
      ensures IsNumber(old(State()), token, ScanDecimal(env.src, start, env.isFloat))
    {
      hide DigitRun, DecimalMantissa, StartsExponent, FinishDecimal;
      var number, isFloat, badPoint := LexMantissa(first);
      ghost var mantissa := DecimalMantissa(env.src, start);
      if badPoint {
        RefusesBadPoint(env.src, start, mantissa, env.isFloat);
        token := PushError(LexicalError(OtherError(BAD_POINT), Range(pos - 1, pos)));
        return;
      }
      if StartsExponent(env.src, pos) {
        number := LexExponent(number, mantissa);
        isFloat := true;
      }
      token := FinishDecimalToken(number, isFloat, WithExponent(env.src, mantissa));
    }

    /** The token for a number that has been read, without a separator after its point. */
    method FinishDecimalToken(number: LexedText, isFloat: bool, ghost expected: DecimalText) returns (token: TokenKind)
      requires start < pos == expected.pos <= |env.src| && number.Holds(env.src, pos, expected.text)
      requires expected.isFloat == isFloat && !expected.badPoint
      modifies this`pos, this`value, this`range, this`errors
      ensures IsNumber(old(State()), token, FinishDecimal(env.src, start, expected, env.isFloat))
    {
      hide FromStrRadix, IsOneOf, AsU8IsZero;
      if isFloat && !env.isFloat(number.AsStr(env.src)) {
        token := PushError(LexicalError(OtherError(BAD_FLOAT), TokenRange()));
        return;
      }
      var imaginary := EatIf('j', 'J');
      if imaginary {
        value := ComplexLiteral;
        return Complex;
      }
      if isFloat {
        value := FloatLiteral;
        return Float;
      }
      match FromStrRadix(10, number.AsStr(env.src), number.AsStr(env.src))
      case Some(literal) =>
        if env.src[start] == '0' && !AsU8IsZero(literal) {
          token := PushError(LexicalError(OtherError(LEADING_ZERO), TokenRange()));
          return;
        }
        value := IntLiteral(literal);
        token := Int;
      case None => token := PushError(LexicalError(OtherError(EMPTY_NUMBER), TokenRange()));
    }

    method LexExponent(text: LexedText, ghost mantissa: DecimalText) returns (number: LexedText)
      requires pos == mantissa.pos <= |env.src| && StartsExponent(env.src, pos) && !mantissa.badPoint
      requires text.Holds(env.src, pos, mantissa.text)
      modifies this`pos
      ensures var expected := WithExponent(env.src, mantissa);
              pos == expected.pos && number.Holds(env.src, pos, expected.text)
    {
      hide DigitRun, LexedText.Holds;
      PushesExponentHead(env.src, pos, mantissa.text);
      text.PushHolds(env.src, pos, mantissa.text);
      number := text.Push(env.src[pos]);
      pos := pos + 1;
      ghost var held := mantissa.text + [env.src[pos - 1]];
      var signed := EatIf('+', '-');
      if signed {
        number.PushHolds(env.src, pos - 1, held);
        number := number.Push(env.src[pos - 1]);
        held := held + [env.src[pos - 1]];
      }
      assert held == mantissa.text + env.src[mantissa.pos..pos];
      number := RadixRun(number, 10, held);
    }

    /** The digits before an exponent, with the point if there is one. */
    method LexMantissa(first: char) returns (number: LexedText, isFloat: bool, badPoint: bool)
      requires start + 1 == pos <= |env.src| && env.src[start] == first && (IsDigit(first) || first == '.')
      modifies this`pos
      ensures var m := DecimalMantissa(env.src, start);
              && pos == m.pos <= |env.src| && isFloat == m.isFloat && badPoint == m.badPoint
              && (!badPoint ==> number.Holds(env.src, pos, m.text))
    {
      hide DigitRun, LexedText.Holds, IntegerPart;
      number, badPoint := LexedText.Source(Range(start, start)), false;
      NothingHolds(env.src, start);
      ghost var whole := "";
      if first == '.' {
        isFloat := true;
      } else {
        number.PushHolds(env.src, start, "");
        number := number.Push(first);
        whole := [first];
        assert "" + [first] == whole;
        number := RadixRun(number, 10, whole);
        whole := whole + DigitRun(env.src, 10, start + 1).1;
        isFloat := EatChar('.');
      }
      IntegerPartIs(env.src, start);
      if isFloat {
        number.PushHolds(env.src, pos - 1, whole);
        number := number.Push('.');
        badPoint := EatChar('_');
        if badPoint {
          return;
        }
        number := RadixRun(number, 10, whole + ".");
      }
    }

    // ---------- IPython ----------

    method LexEscapeCommand(c: char) returns (token: TokenKind)
      requires pos <= |env.src|
      modifies this`pos, this`value
      ensures State().(kind := token) == Spec.LexEscapeCommand(env, old(State()), c)
    {
      var escape := if state.AfterEqual? then [c] else EscapeToken(c, Peek(0));
      pos := pos + |escape| - 1;
      value := ReadCommand(escape);
      token := IpyEscapeCommand;
    }

    method ReadCommand(escape: string) returns (v: TokenValue)
      requires pos <= |env.src|
      modifies this`pos
      ensures Command(pos, v) == ScanCommand(env.src, escape, old(pos), []) && pos <= |env.src|
    {
      hide EndsHelp, HelpCommand, QuestionRun, ScanCommand;
      var text := [];
      while true
        invariant old(pos) <= pos <= |env.src|
        invariant ScanCommand(env.src, escape, old(pos), []) == ScanCommand(env.src, escape, pos, text)
        decreases |env.src| - pos
      {
        CommandOther(env.src, escape, pos, text);
        match Peek(0) {
          case '\\' =>
            CommandBackslash(env.src, escape, pos, text);
            if Peek(1) == '\r' {
              pos := pos + 2;
              var _ := EatChar('\n');
            } else if Peek(1) == '\n' {
              pos := pos + 2;
            } else {
              pos := pos + 1;
              text := text + ['\\'];
            }
          case '?' =>
            CommandQuestions(env.src, escape, pos, text);
            var first := pos;
            pos := pos + 1;
            EatQuestionMarks();
            if EndsHelp(env.src, first, pos, text) {
              return HelpCommand(escape, text, pos - first);
            }
            text := text + env.src[first..pos];
          case '\n' => return IpyValue(escape, text);
          case '\r' => return IpyValue(escape, text);
          case '\0' => return IpyValue(escape, text);
          case c =>
            pos := pos + 1;
            text := text + [c];
        }
      }
    }

    method EatQuestionMarks()
      requires pos <= |env.src|
      modifies this`pos
      ensures pos == QuestionRun(env.src, old(pos))
    {
      while pos < |env.src| && env.src[pos] == '?'
        invariant old(pos) <= pos <= |env.src|
        invariant QuestionRun(env.src, old(pos)) == QuestionRun(env.src, pos)
      {
        pos := pos + 1;
      }
    }

    // ---------- Moving back ----------

    method TakeValue() returns (v: TokenValue)
      modifies this`value
      ensures v == old(value) && State() == old(State()).(value := NoValue)
    {
      v := value;
      value := NoValue;
    }

    function Save(): (c: Spec.Checkpoint)
      reads this
      ensures c == Spec.Save(State())
    {
      Spec.Checkpoint(value, kind, range, flags, pos, state, nesting, indents, pending, fstrings, |errors|)
    }

    method RestoreToken(c: Spec.Checkpoint)
      modifies this`value, this`kind, this`range, this`flags
      ensures State() == old(State()).(value := c.value, kind := c.kind, range := c.range, flags := c.flags)
    {
      value, kind, range, flags := c.value, c.kind, c.range, c.flags;
    }

    method Rewind(c: Spec.Checkpoint)
      modifies this
      ensures State() == Spec.Rewind(old(State()), c)
    {
      RestoreToken(c);
      pos, start, state, nesting := c.pos, 0, c.state, c.nesting;
      indents, pending, fstrings := c.indents, c.pending, c.fstrings;
      errors := Spec.Truncate(errors, c.errorsPosition);
    }

    method ReLexLogicalToken(newline: Option<nat>) returns (moved: bool)
      requires pos <= |env.src| && (newline.Some? ==> newline.value <= |env.src|)
      modifies this
      ensures (moved, State()) == Spec.ReLex(env, old(State()), newline) && pos <= |env.src|
    {
      hide Spec.NextToken;
      if nesting == 0 {
        return false;
      }
      nesting := nesting - 1;
      if flags.IsTripleQuotedFString() || newline.None? {
        return false;
      }
      if kind.IsClosing() {
        nesting := nesting + 1;
      }
      pos, start := newline.value, 0;
      state := Spec.Other;
      var _ := NextToken();
      moved := true;
    }
  }
}
