/** String and f-string tokens by their source text: prefix, quotes, contents and flags (section 2.4.1). */
module LiteralText {
  import opened Text
  import opened Tokens
  import opened Indentation
  import opened FStrings
  import opened Words
  import opened LexerSpec
  import opened LexerSteps
  import opened LexerRuns
  import NumberScan
  import FStringScan
  import StringScan
  import W = Whitespace

  /** What the letters before a quote and the quotes themselves mean. */
  function FlagsOf(prefix: string, quote: char, triple: bool): Flags {
    Flags(quote == '"', triple, HasLetter(prefix, 'u', 'U'), HasLetter(prefix, 'b', 'B'), HasLetter(prefix, 'f', 'F'),
          'r' in prefix, 'R' in prefix)
  }

  predicate HasLetter(prefix: string, lower: char, upper: char) {
    lower in prefix || upper in prefix
  }

  /** The quotes that open or close a literal with these flags. */
  function Quotes(flags: Flags): (r: string)
    ensures |r| == if flags.tripleQuoted then 3 else 1
  {
    var q := flags.QuoteChar();
    if flags.tripleQuoted then [q, q, q] else [q]
  }

  /** A literal begins at `begin`, with its first quote at `quote`, up to `end`: the letters before the quote and the
      quotes there are the ones that `flags` says. */
  ghost predicate Opens(src: string, begin: nat, quote: nat, end: nat, flags: Flags) {
    && begin <= quote <= begin + 2 && quote < end <= |src| && IsQuote(src[quote])
    && (forall k :: begin <= k < quote ==> !IsQuote(src[k]))
    && flags == FlagsOf(src[begin..quote], src[quote], IsTriple(src, src[quote], quote))
    && quote + |Quotes(flags)| <= end && src[quote..quote + |Quotes(flags)|] == Quotes(flags)
  }

  // ---------- Prefixes ----------

  lemma QuotesAt(src: string, begin: nat, quote: nat, flags: Flags)
    requires begin <= quote < |src| && IsQuote(src[quote])
    requires flags == FlagsOf(src[begin..quote], src[quote], IsTriple(src, src[quote], quote))
    ensures flags.QuoteChar() == src[quote] && quote + |Quotes(flags)| <= |src|
    ensures src[quote..quote + |Quotes(flags)|] == Quotes(flags)
  {
    if flags.tripleQuoted {
      assert src[quote..quote + 3] == [src[quote], src[quote + 1], src[quote + 2]];
    } else {
      assert src[quote..quote + 1] == [src[quote]];
    }
  }

  /** A prefix means what its letters mean. */
  lemma OneLetter(a: char, quote: char, triple: bool)
    ensures SinglePrefix(a).Some? ==>
              && !IsQuote(a)
              && SinglePrefix(a).value.(doubleQuotes := quote == '"', tripleQuoted := triple)
                 == FlagsOf([a], quote, triple)
  {
  }

  lemma TwoLetters(a: char, b: char, quote: char, triple: bool)
    ensures DoublePrefix(a, b).Some? ==>
              && !IsQuote(a) && !IsQuote(b)
              && DoublePrefix(a, b).value.(doubleQuotes := quote == '"', tripleQuoted := triple)
                 == FlagsOf([a, b], quote, triple)
  {
  }

  lemma PrefixFlags(src: string, begin: nat)
    requires begin < |src|
    ensures StringPrefix(src, begin).Some? ==>
              var (flags, length) := StringPrefix(src, begin).value;
              var quote := begin + length;
              && (forall k :: begin <= k < quote ==> !IsQuote(src[k]))
              && QuoteFlags(src, flags, quote + 1)
                 == FlagsOf(src[begin..quote], src[quote], IsTriple(src, src[quote], quote))
  {
    hide SinglePrefix, DoublePrefix, FlagsOf, IsTriple;
    var prefix := StringPrefix(src, begin);
    if prefix.Some? {
      var quote := begin + prefix.value.1;
      if prefix.value.1 == 1 {
        OneLetter(src[begin], src[quote], IsTriple(src, src[quote], quote));
        assert src[begin..quote] == [src[begin]];
      } else {
        TwoLetters(src[begin], src[begin + 1], src[quote], IsTriple(src, src[quote], quote));
        assert src[begin..quote] == [src[begin], src[begin + 1]];
      }
    }
  }

  lemma NoPrefixFlags(src: string, quote: nat)
    requires quote < |src| && IsQuote(src[quote])
    ensures QuoteFlags(src, NO_FLAGS, quote + 1)
            == FlagsOf(src[quote..quote], src[quote], IsTriple(src, src[quote], quote))
  {
  }

  // ---------- Strings ----------

  /** A String token from `begin` to `end` is a prefix, quotes, the text that is its value, and the same quotes, the
      first that no backslash escapes. */
  ghost predicate IsStringToken(src: string, begin: nat, end: nat, flags: Flags, value: TokenValue) {
    exists quote :: begin <= quote && IsStringFrom(src, begin, quote, end, flags, value)
  }

  ghost predicate IsStringFrom(src: string, begin: nat, quote: nat, end: nat, flags: Flags, value: TokenValue) {
    && Opens(src, begin, quote, end, flags) && value.StringValue?
    && var n := |Quotes(flags)|;
       && quote + n <= end - n && src[end - n..end] == Quotes(flags) && value.text == src[quote + n..end - n]
       && StringScan.IsFirstEnd(src, flags.QuoteChar(), flags.tripleQuoted, quote + n, quote + n,
                                StringScan.Closed(end - n, end))
  }

  /** An unfinished literal from `begin` to `end`: its error covers it, up to the line break that breaks it or the end
      of the text. */
  ghost predicate IsBrokenString(src: string, begin: nat, end: nat, flags: Flags, error: LexicalError) {
    exists quote :: begin <= quote && IsBrokenFrom(src, begin, quote, end, flags, error)
  }

  ghost predicate IsBrokenFrom(src: string, begin: nat, quote: nat, end: nat, flags: Flags, error: LexicalError) {
    && end <= |src| && Opens(src, begin, quote, |src|, flags) && error.location == Range(begin, end)
    && error.kind == (if end < |src| || flags.tripleQuoted then UnclosedStringError else StringError)
    && var n := |Quotes(flags)|;
       && quote + n <= end
       && StringScan.IsFirstEnd(src, flags.QuoteChar(), flags.tripleQuoted, quote + n, quote + n,
                                if end < |src| then StringScan.BrokenAt(end) else StringScan.EndOfInput)
  }

  lemma ClosingQuotes(src: string, flags: Flags, e: nat)
    requires StringScan.ClosesAt(src, flags.QuoteChar(), flags.tripleQuoted, e)
    ensures e + |Quotes(flags)| <= |src| && src[e..e + |Quotes(flags)|] == Quotes(flags)
  {
    if flags.tripleQuoted {
      assert src[e..e + 3] == [src[e], src[e + 1], src[e + 2]];
    } else {
      assert src[e..e + 1] == [src[e]];
    }
  }

  /** Where the literal with its first quote at `quote` ends. */
  function EndOf(src: string, quote: nat, flags: Flags): StringScan.StringEnd
    requires quote + |Quotes(flags)| <= |src|
  {
    StringScan.ScanString(src, flags.QuoteChar(), flags.tripleQuoted, quote + |Quotes(flags)|, false)
  }

  lemma OpensAt(src: string, begin: nat, quote: nat, flags: Flags)
    requires begin <= quote <= begin + 2 && quote < |src| && IsQuote(src[quote])
    requires forall k :: begin <= k < quote ==> !IsQuote(src[k])
    requires flags == FlagsOf(src[begin..quote], src[quote], IsTriple(src, src[quote], quote))
    ensures quote + |Quotes(flags)| <= |src|
    ensures forall end :: quote + |Quotes(flags)| <= end <= |src| ==> Opens(src, begin, quote, end, flags)
    ensures flags.QuoteChar() == src[quote] && flags.tripleQuoted == IsTriple(src, src[quote], quote)
  {
    QuotesAt(src, begin, quote, flags);
  }

  lemma EndsAsSaid(src: string, begin: nat, quote: nat, flags: Flags)
    requires quote + |Quotes(flags)| <= |src|
    requires forall end :: quote + |Quotes(flags)| <= end <= |src| ==> Opens(src, begin, quote, end, flags)
    ensures match EndOf(src, quote, flags)
            case Closed(e, p) => IsStringFrom(src, begin, quote, p, flags, StringValue(src[quote + |Quotes(flags)|..e]))
            case BrokenAt(p) =>
              IsBrokenFrom(src, begin, quote, p, flags, LexicalError(UnclosedStringError, Range(begin, p)))
            case EndOfInput =>
              IsBrokenFrom(src, begin, quote, |src|, flags,
                           LexicalError(if flags.tripleQuoted then UnclosedStringError else StringError,
                                        Range(begin, |src|)))
  {
    hide StringScan.ScanString, StringScan.IsFree, StringScan.NothingEnds, Opens, Quotes;
    var n := |Quotes(flags)|;
    StringScan.EndIsFirst(src, flags.QuoteChar(), flags.tripleQuoted, quote + n);
    var end := EndOf(src, quote, flags);
    if end.Closed? {
      ClosingQuotes(src, flags, end.valueEnd);
    }
    if end.BrokenAt? {
      NeverTriple(src, flags, quote + n);
    }
  }

  lemma NeverTriple(src: string, flags: Flags, p: nat)
    requires p <= |src| && StringScan.ScanString(src, flags.QuoteChar(), flags.tripleQuoted, p, false).BrokenAt?
    ensures !flags.tripleQuoted
  {
    hide StringScan.ScanString;
    StringScan.EndIsFirst(src, flags.QuoteChar(), flags.tripleQuoted, p);
  }

  lemma StringText(env: Env, s: Lex, begin: nat)
    requires begin == s.start < s.pos <= |env.src| && s.pos <= begin + 3 && IsQuote(env.src[s.pos - 1])
    requires forall k :: begin <= k < s.pos - 1 ==> !IsQuote(env.src[k])
    requires QuoteFlags(env.src, s.flags, s.pos)
             == FlagsOf(env.src[begin..s.pos - 1], env.src[s.pos - 1], IsTriple(env.src, env.src[s.pos - 1], s.pos - 1))
    ensures var r := LexString(env, s);
            && (r.kind == TokenKind.String ==> IsStringToken(env.src, begin, r.pos, r.flags, r.value))
            && (r.kind != TokenKind.String ==>
                  && r.kind == Unknown && |r.errors| == |s.errors| + 1
                  && IsBrokenString(env.src, begin, r.pos, r.flags, r.errors[|s.errors|]))
  {
    hide StringScan.ScanString, QuoteFlags, FlagsOf, IsStringFrom, IsBrokenFrom, Opens;
    var quote := s.pos - 1;
    var flags := QuoteFlags(env.src, s.flags, s.pos);
    OpensAt(env.src, begin, quote, flags);
    EndsAsSaid(env.src, begin, quote, flags);
    assert EndOf(env.src, quote, flags)
           == StringScan.ScanString(env.src, env.src[quote], flags.tripleQuoted, quote + |Quotes(flags)|, false);
  }

  lemma FlagsTriple(src: string, begin: nat, quote: nat)
    requires begin <= quote < |src|
    ensures var triple := IsTriple(src, src[quote], quote);
            FlagsOf(src[begin..quote], src[quote], triple).tripleQuoted == triple
  {
  }

  // ---------- F-strings ----------

  /** An FStringStart token is a prefix with an `f` in it and quotes, and what it opens remembers both. */
  ghost predicate IsFStringStart(src: string, begin: nat, end: nat, flags: Flags) {
    && flags.fstring
    && exists quote :: begin <= quote && Opens(src, begin, quote, end, flags) && end == quote + |Quotes(flags)|
  }

  lemma FStringStartText(env: Env, s: Lex, quote: nat)
    requires s.start <= quote <= s.start + 2 && s.pos == quote + 1 <= |env.src|
    requires IsQuote(env.src[quote]) && s.flags.fstring
    requires forall k :: s.start <= k < quote ==> !IsQuote(env.src[k])
    requires QuoteFlags(env.src, s.flags, s.pos)
             == FlagsOf(env.src[s.start..quote], env.src[quote], IsTriple(env.src, env.src[quote], quote))
    ensures var r := LexFStringStart(env, s); IsFStringStart(env.src, s.start, r.pos, r.flags)
  {
    hide FlagsOf;
    var flags := QuoteFlags(env.src, s.flags, s.pos);
    QuotesAt(env.src, s.start, quote, flags);
    FlagsTriple(env.src, s.start, quote);
    assert Opens(env.src, s.start, quote, LexFStringStart(env, s).pos, flags);
  }

  // ---------- All tokens ----------

  /** What a step says of literals. */
  ghost predicate LiteralEffect(env: Env, s: Lex, r: Lex) {
    && (r.kind == TokenKind.String ==> IsStringToken(env.src, r.start, r.pos, r.flags, r.value))
    && (r.kind == FStringStart ==>
          && IsFStringStart(env.src, r.start, r.pos, r.flags)
          && r.fstrings == s.fstrings + [FString(r.flags, s.nesting, 0)])
    && (r.kind == FStringMiddle || r.kind == FStringEnd ==>
          s.fstrings != [] && r.flags == s.fstrings[|s.fstrings| - 1].flags)
    && (r.kind == FStringMiddle ==>
          && s.fstrings != [] && s.pos <= r.pos <= |env.src| && r.value.FStringMiddleValue?
          && var inSpec := s.fstrings[|s.fstrings| - 1].InFormatSpec(s.nesting);
             FStringScan.ScanMiddle(env.src, r.flags, inSpec, s.pos, false) == FStringScan.Text(r.pos, r.value.text))
    && (r.kind == FStringEnd ==>
          && r.fstrings == DropLast(s.fstrings)
          && r.start <= r.pos <= |env.src| && env.src[r.start..r.pos] == Quotes(r.flags))
  }

  lemma IdentifierLiteral(env: Env, s: Lex)
    requires s.start == s.pos < |env.src|
    ensures LiteralEffect(env, s, LexIdentifier(env, s).(state := Other))
  {
    hide LexString, LexFStringStart, ScanWord, StringPrefix, QuoteFlags, FlagsOf, IsStringToken, IsFStringStart,
         IsBrokenString;
    var prefix := StringPrefix(env.src, s.pos);
    if prefix.Some? {
      var (flags, length) := prefix.value;
      var body := s.(pos := s.pos + length + 1, flags := flags);
      PrefixFlags(env.src, s.pos);
      if flags.fstring {
        FStringStartText(env, body, s.pos + length);
        FStringStartEffect(env, body);
      } else {
        StringText(env, body, s.start);
      }
    }
  }

  lemma FStringStartEffect(env: Env, s: Lex)
    requires 1 <= s.pos <= |env.src|
    ensures var r := LexFStringStart(env, s);
            r.kind == FStringStart && r.start == s.start && r.fstrings == s.fstrings + [FString(r.flags, s.nesting, 0)]
  {
  }

  predicate IsLiteralKind(kind: TokenKind) {
    kind in {TokenKind.String, FStringStart, FStringMiddle, FStringEnd}
  }

  lemma NoLiteral(env: Env, s: Lex)
    requires s.start == s.pos < |env.src|
    requires !IsQuote(env.src[s.pos]) && !IsAsciiIdentifierStart(env.src[s.pos]) && IsAscii(env.src[s.pos])
    ensures !IsLiteralKind(ConsumeAscii(env, s, env.src[s.pos]).kind)
  {
    hide LexString, LexIdentifier, LexOperator, IsEscapeCommand, NumberScan.ScanNumber, OperatorText,
         ScanCommand, EndSpec;
  }

  lemma CharacterLiteral(env: Env, m: Lex)
    requires m.pos < |env.src| && m.flags == NO_FLAGS
    ensures LiteralEffect(env, m, LexCharacter(env, m))
  {
    hide LexString, LexIdentifier, LexEscapeCommand, LexNumber, LexPunctuation, IsEscapeCommand,
         IsStringToken, IsFStringStart, QuoteFlags, FlagsOf;
    var s, c := m.(start := m.pos), env.src[m.pos];
    if IsQuote(c) {
      NoPrefixFlags(env.src, m.pos);
      StringText(env, s.(pos := s.pos + 1), m.pos);
    } else if !IsAscii(c) || IsAsciiIdentifierStart(c) {
      IdentifierLiteral(env, s);
    } else {
      NoLiteral(env, s);
    }
  }

  lemma MiddleOrEndLiteral(env: Env, s: Lex)
    requires s.WellPlaced(env.src) && s.start == s.pos && s.fstrings != []
    ensures LexFStringMiddleOrEnd(env, s).Emitted? ==> LiteralEffect(env, s, LexFStringMiddleOrEnd(env, s).lex)
  {
    hide FStringScan.ScanMiddle;
    var flags := s.fstrings[|s.fstrings| - 1].flags;
    if StringScan.ClosesAt(env.src, flags.QuoteChar(), flags.tripleQuoted, s.pos) {
      ClosingQuotes(env.src, flags, s.pos);
    }
  }

  /** Every literal is what its source text says, from any state whatever. */
  lemma StepReadsLiterals(env: Env, s: Lex)
    requires s.pos <= |env.src|
    ensures LiteralEffect(env, s, NextToken(env, s))
  {
    hide BeforeCharacter, LexCharacter, IsStringToken, IsFStringStart, FStringScan.ScanMiddle, LiteralEffect;
    var s' := s.(start := s.pos, value := NoValue, flags := NO_FLAGS);
    BeforeHasEffect(env, s');
    match BeforeCharacter(env, s')
    case Emitted(r) =>
      BeforeLiteral(env, s');
      RangeIsNoMatter(env, s', s, r);
    case Ready(m) =>
      CharacterOrEnd(env, m);
      if m.pos < |env.src| {
        CharacterLiteral(env, m);
        StartIsNoMatter(env, s', m, LexCharacter(env, m));
      } else {
        EndLiteral(env, s', m);
      }
      RangeIsNoMatter(env, s', s, LexCharacter(env, m));
  }

  lemma StartIsNoMatter(env: Env, s: Lex, m: Lex, r: Lex)
    requires m.pos < |env.src| && BeforeEffect(env, s, Ready(m)) && CharacterEffect(env, m, r)
    requires LiteralEffect(env, m, r)
    ensures LiteralEffect(env, s, r)
  {
    hide Reports, IsStringToken, IsFStringStart, EndSpec, OnTop, StartsSpec, FStringScan.ScanMiddle, AtFieldBoundary;
  }

  lemma EndLiteral(env: Env, s: Lex, m: Lex)
    requires m.pos == |env.src|
    ensures LiteralEffect(env, s, ConsumeEnd(m.(start := m.pos)))
  {
  }

  /** A step's own bookkeeping, before and after, has nothing to do with literals. */
  lemma RangeIsNoMatter(env: Env, s': Lex, s: Lex, r: Lex)
    requires s' == s.(start := s.pos, value := NoValue, flags := NO_FLAGS) && LiteralEffect(env, s', r)
    ensures forall range :: LiteralEffect(env, s, r.(range := range))
  {
    hide IsStringToken, IsFStringStart, FStringScan.ScanMiddle;
  }

  lemma BeforeLiteral(env: Env, s: Lex)
    requires s.WellPlaced(env.src) && s.start == s.pos && BeforeCharacter(env, s).Emitted?
    ensures LiteralEffect(env, s, BeforeCharacter(env, s).lex)
  {
    hide LexFStringMiddleOrEnd, LiteralEffect;
    BeforeHasEffect(env, s);
    if s.fstrings != [] && !s.fstrings[|s.fstrings| - 1].InExpression(s.nesting)
       && LexFStringMiddleOrEnd(env, s).Emitted? {
      MiddleOrEndLiteral(env, s);
    } else {
      FromElsewhere(env, s);
    }
  }

  lemma FromElsewhere(env: Env, s: Lex)
    requires s.WellPlaced(env.src) && s.start == s.pos && BeforeCharacter(env, s).Emitted?
    requires || s.fstrings == [] || s.fstrings[|s.fstrings| - 1].InExpression(s.nesting)
             || LexFStringMiddleOrEnd(env, s).Ready?
    ensures LiteralEffect(env, s, BeforeCharacter(env, s).lex)
  {
    hide LexFStringMiddleOrEnd, W.MeasureIndent, W.SkipBlanks, Width.TryCompare;
  }

  /** An f-string whose text cannot go on: the error says why, covers the text so far, and closes the f-string. */
  lemma BrokenFString(env: Env, s: Lex)
    requires s.WellPlaced(env.src) && s.start == s.pos && s.fstrings != []
    requires LexFStringMiddleOrEnd(env, s).Emitted? && LexFStringMiddleOrEnd(env, s).lex.kind == Unknown
    ensures var f, r := s.fstrings[|s.fstrings| - 1], LexFStringMiddleOrEnd(env, s).lex;
            && !StringScan.ClosesAt(env.src, f.flags.QuoteChar(), f.flags.tripleQuoted, s.pos)
            && r.fstrings == DropLast(s.fstrings) && |r.errors| == |s.errors| + 1
            && match FStringScan.ScanMiddle(env.src, f.flags, f.InFormatSpec(s.nesting), s.pos, false)
               case Text(_, _) => false
               case Unterminated(p, problem) =>
                 r.pos == p && r.errors[|s.errors|] == LexicalError(FStringProblem(problem), Range(s.pos, p))
  {
    hide FStringScan.ScanMiddle;
  }

  // ---------- Opening and closing quotes ----------

  /** What a step does to the open f-strings: it opens one, closes the innermost, or keeps them with their flags. */
  ghost predicate KeepsQuotes(s: Lex, r: Lex) {
    if r.kind == FStringStart then |r.fstrings| == |s.fstrings| + 1 && r.fstrings[..|s.fstrings|] == s.fstrings
                                   && r.fstrings[|s.fstrings|].flags == r.flags
    else if |r.fstrings| < |s.fstrings| then r.fstrings == DropLast(s.fstrings)
    else SameQuotes(s, r)
  }

  ghost predicate SameQuotes(s: Lex, r: Lex) {
    |r.fstrings| == |s.fstrings| && forall k :: 0 <= k < |s.fstrings| ==> r.fstrings[k].flags == s.fstrings[k].flags
  }

  lemma CharacterKeepsQuotes(env: Env, m: Lex, r: Lex)
    requires m.pos < |env.src| && CharacterEffect(env, m, r)
    ensures KeepsQuotes(m, r)
  {
    hide Reports;
  }

  lemma EmittedKeepsQuotes(env: Env, s: Lex, r: Lex)
    requires BeforeEffect(env, s, Emitted(r))
    ensures KeepsQuotes(s, r)
  {
    hide Reports, LeavesLevel, ReachesFrom, AtFieldBoundary, Width.TryCompare, W.WidthBefore;
  }

  lemma StepKeepsQuotes(env: Env, s: Lex)
    requires s.pos <= |env.src|
    ensures KeepsQuotes(s, NextToken(env, s))
  {
    hide BeforeCharacter, LexCharacter, CharacterEffect, AtFieldBoundary;
    var s' := s.(start := s.pos, value := NoValue, flags := NO_FLAGS);
    BeforeHasEffect(env, s');
    match BeforeCharacter(env, s')
    case Emitted(r) => EmittedKeepsQuotes(env, s', r);
    case Ready(m) =>
      CharacterOrEnd(env, m);
      if m.pos < |env.src| {
        CharacterKeepsQuotes(env, m, LexCharacter(env, m));
      }
  }

  /** The tokens of a run that opened the f-strings still open after `n` tokens, the outermost first. */
  function Openers(s: Lex, run: seq<Lex>, n: nat): (openers: seq<nat>)
    requires n <= |run|
  {
    if n == 0 then []
    else
      var before := Openers(s, run, n - 1);
      if run[n - 1].kind == FStringStart then before + [n - 1]
      else if |run[n - 1].fstrings| < |Before(s, run, n - 1).fstrings| && before != [] then before[..|before| - 1]
      else before
  }

  /** Each open f-string was opened by an FStringStart of the run and remembers that token's prefix and quotes. */
  ghost predicate AreOpeners(s: Lex, run: seq<Lex>, n: nat, openers: seq<nat>)
    requires n <= |run|
  {
    && |openers| == |Before(s, run, n).fstrings|
    && forall k :: 0 <= k < |openers| ==>
         && openers[k] < n && run[openers[k]].kind == FStringStart
         && run[openers[k]].flags == Before(s, run, n).fstrings[k].flags
  }

  lemma {:induction false} FStringsRememberQuotes(env: Env, s: Lex, run: seq<Lex>, n: nat)
    requires IsRun(env, s, run) && n <= |run| && s.fstrings == []
    ensures AreOpeners(s, run, n, Openers(s, run, n))
  {
    hide NextToken;
    if n > 0 {
      FStringsRememberQuotes(env, s, run, n - 1);
      assert IsStep(env, s, run, n - 1);
      StepKeepsQuotes(env, Before(s, run, n - 1));
    }
  }

  /** An FStringEnd token is, character by character, the quotes with which the innermost f-string open before it was
      opened. */
  lemma FStringEndMatchesStart(env: Env, s: Lex, run: seq<Lex>, n: nat)
    requires IsRun(env, s, run) && n < |run| && s.fstrings == [] && run[n].kind == FStringEnd
    ensures var openers := Openers(s, run, n);
            && openers != []
            && var i := openers[|openers| - 1];
               && i < n && run[i].kind == FStringStart && run[n].flags == run[i].flags
               && run[n].start <= run[n].pos <= |env.src|
               && env.src[run[n].start..run[n].pos] == Quotes(run[i].flags)
  {
    hide NextToken;
    FStringsRememberQuotes(env, s, run, n);
    assert IsStep(env, s, run, n);
    StepReadsLiterals(env, Before(s, run, n));
  }
}
