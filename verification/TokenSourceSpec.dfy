/** The parser's view of the lexer, as functions on the lexer's state and the tokens kept so far. */
module TokenSourceSpec {
  import opened Text
  import opened Tokens
  import opened Indentation
  import opened Words
  import FStringScan
  import TokenList
  import opened LexerSpec
  import opened LexerSteps
  import opened LexerRuns

  datatype Source = Source(lexer: Lex, tokens: seq<Token>)

  function CurrentToken(l: Lex, kind: TokenKind): Token {
    Token(kind, l.range, l.flags)
  }

  /** Lexes up to the next token that is not trivia, and keeps the trivia before it. */
  function DoBump(env: Env, t: Source): (r: Source)
    requires t.lexer.pos <= |env.src|
    ensures r.lexer.pos <= |env.src| && !r.lexer.kind.IsTrivia()
    decreases |env.src| - t.lexer.pos, |t.lexer.fstrings|, Flag(t.lexer.nesting > 0), |t.lexer.indents|,
              Flag(t.lexer.pending.Some?), Rank(t.lexer.state)
  {
    StepMakesProgress(env, t.lexer);
    var l := NextToken(env, t.lexer);
    if l.kind.IsTrivia() then DoBump(env, Source(l, t.tokens + [CurrentToken(l, l.kind)])) else Source(l, t.tokens)
  }

  /** Keeps the current token, under the kind the parser gives it, and goes to the next one. */
  function Bump(env: Env, t: Source, kind: TokenKind): (r: Source)
    requires t.lexer.pos <= |env.src|
  {
    DoBump(env, t.(tokens := t.tokens + [CurrentToken(t.lexer, kind)]))
  }

  function FromSource(env: Env, startOffset: nat): Source
    requires startOffset <= |env.src|
  {
    DoBump(env, Source(Init(env, startOffset), []))
  }

  function NextNonTrivia(env: Env, l: Lex): (r: Lex)
    requires l.pos <= |env.src|
    ensures r.pos <= |env.src| && !r.kind.IsTrivia()
    decreases |env.src| - l.pos, |l.fstrings|, Flag(l.nesting > 0), |l.indents|, Flag(l.pending.Some?), Rank(l.state)
  {
    StepMakesProgress(env, l);
    var r := NextToken(env, l);
    if r.kind.IsTrivia() then NextNonTrivia(env, r) else r
  }

  function Peek(env: Env, t: Source): (TokenKind, Source)
    requires t.lexer.pos <= |env.src|
  {
    var ahead := NextNonTrivia(env, t.lexer);
    (ahead.kind, t.(lexer := Rewind(ahead, Save(t.lexer))))
  }

  function Peek2(env: Env, t: Source): (TokenKind, TokenKind, Source)
    requires t.lexer.pos <= |env.src|
  {
    var first := NextNonTrivia(env, t.lexer);
    var second := NextNonTrivia(env, first);
    (first.kind, second.kind, t.(lexer := Rewind(second, Save(t.lexer))))
  }

  /** The first line break among the trivia at the end of `tokens`. */
  function TrailingNewline(tokens: seq<Token>): (r: Option<nat>) {
    if tokens == [] then None
    else
      var last, rest := tokens[|tokens| - 1], tokens[..|tokens| - 1];
      if last.kind == NonLogicalNewline then
        var earlier := TrailingNewline(rest);
        if earlier.Some? then earlier else Some(last.range.start)
      else if last.kind == Comment then TrailingNewline(rest)
      else None
  }

  /** `tokens` without those at its end that start at or after `start`. */
  function DropFrom(tokens: seq<Token>, start: nat): (r: seq<Token>)
    ensures r <= tokens
  {
    if tokens != [] && tokens[|tokens| - 1].range.start >= start then DropFrom(tokens[..|tokens| - 1], start)
    else tokens
  }

  function ReLexToken(env: Env, t: Source): (r: Source)
    requires TrailingNewline(t.tokens).Some? ==> TrailingNewline(t.tokens).value <= |env.src|
  {
    var (moved, l) := ReLex(env, t.lexer, TrailingNewline(t.tokens));
    Source(l, if moved then DropFrom(t.tokens, l.range.start) else t.tokens)
  }

  datatype SourceCheckpoint = SourceCheckpoint(lexer: Checkpoint, tokensPosition: nat)

  function SaveSource(t: Source): SourceCheckpoint {
    SourceCheckpoint(Save(t.lexer), |t.tokens|)
  }

  function RewindSource(t: Source, c: SourceCheckpoint): Source {
    Source(Rewind(t.lexer, c.lexer), Truncate(t.tokens, c.tokensPosition))
  }

  // ---------- Order ----------

  /** The tokens kept are in order, do not overlap and end by `end`. */
  ghost predicate OrderedBy(env: Env, tokens: seq<Token>, end: nat) {
    && TokenList.Ordered(tokens)
    && (forall i :: 0 <= i < |tokens| ==> tokens[i].range.end <= end)
    && (forall i :: 0 <= i < |tokens| ==> IsPlaced(env, tokens[i].kind, tokens[i].range))
  }

  /** What every operation keeps: the kept tokens end by the start of the current one. */
  ghost predicate InOrder(env: Env, t: Source) {
    && t.lexer.range.start <= t.lexer.range.end <= t.lexer.pos <= |env.src|
    && IsPlaced(env, t.lexer.kind, t.lexer.range)
    && OrderedBy(env, t.tokens, t.lexer.range.start)
  }

  /** A token for a line break inside a logical line starts at a line break. */
  ghost predicate IsPlaced(env: Env, kind: TokenKind, range: Range) {
    kind == NonLogicalNewline ==> range.start < |env.src| && IsNewline(env.src[range.start])
  }

  lemma AppendKeepsOrder(env: Env, tokens: seq<Token>, end: nat, token: Token)
    requires OrderedBy(env, tokens, end)
    requires end <= token.range.start <= token.range.end
    requires IsPlaced(env, token.kind, token.range)
    ensures OrderedBy(env, tokens + [token], token.range.end)
  {
  }

  lemma NewlineTokenIsNewline(env: Env, l: Lex)
    requires l.pos <= |env.src|
    ensures var r := NextToken(env, l); IsPlaced(env, r.kind, r.range)
  {
    hide BeforeCharacter, LexCharacter;
    var s := l.(start := l.pos, value := NoValue, flags := NO_FLAGS);
    BeforeHasEffect(env, s);
    match BeforeCharacter(env, s)
    case Emitted(r) =>
    case Ready(m) => CharacterOrEnd(env, m);
  }

  lemma {:induction false} DoBumpKeepsOrder(env: Env, t: Source)
    requires t.lexer.pos <= |env.src| && OrderedBy(env, t.tokens, t.lexer.pos)
    ensures InOrder(env, DoBump(env, t)) && t.tokens <= DoBump(env, t).tokens
    decreases |env.src| - t.lexer.pos, |t.lexer.fstrings|, Flag(t.lexer.nesting > 0), |t.lexer.indents|,
              Flag(t.lexer.pending.Some?), Rank(t.lexer.state)
  {
    hide NextToken;
    StepMakesProgress(env, t.lexer);
    StepKeepsOrder(env, t.lexer);
    NewlineTokenIsNewline(env, t.lexer);
    var l := NextToken(env, t.lexer);
    if l.kind.IsTrivia() {
      AppendKeepsOrder(env, t.tokens, t.lexer.pos, CurrentToken(l, l.kind));
      DoBumpKeepsOrder(env, Source(l, t.tokens + [CurrentToken(l, l.kind)]));
    }
  }

  lemma BumpKeepsOrder(env: Env, t: Source, kind: TokenKind)
    requires InOrder(env, t) && (kind == NonLogicalNewline ==> t.lexer.kind == NonLogicalNewline)
    ensures InOrder(env, Bump(env, t, kind)) && t.tokens <= Bump(env, t, kind).tokens
  {
    AppendKeepsOrder(env, t.tokens, t.lexer.range.start, CurrentToken(t.lexer, kind));
    DoBumpKeepsOrder(env, t.(tokens := t.tokens + [CurrentToken(t.lexer, kind)]));
  }

  // ---------- Look-ahead ----------

  /** The states that a search for the next token that is not trivia goes through. */
  lemma {:induction false} AheadIsARun(env: Env, l: Lex) returns (run: seq<Lex>)
    requires l.pos <= |env.src|
    ensures IsRun(env, l, run) && Before(l, run, |run|) == NextNonTrivia(env, l)
    decreases |env.src| - l.pos, |l.fstrings|, Flag(l.nesting > 0), |l.indents|, Flag(l.pending.Some?), Rank(l.state)
  {
    hide NextToken;
    StepMakesProgress(env, l);
    var r := NextToken(env, l);
    run := [r];
    assert IsStep(env, l, [r], 0);
    if r.kind.IsTrivia() {
      var rest := AheadIsARun(env, r);
      RunsJoin(env, l, run, rest);
      run := run + rest;
    }
  }

  lemma RunsJoin(env: Env, l: Lex, a: seq<Lex>, b: seq<Lex>)
    requires IsRun(env, l, a) && IsRun(env, Before(l, a, |a|), b)
    ensures IsRun(env, l, a + b) && Before(l, a + b, |a + b|) == Before(Before(l, a, |a|), b, |b|)
  {
    hide NextToken;
    forall i | 0 <= i < |a + b| ensures IsStep(env, l, a + b, i) {
      if i < |a| {
        assert IsStep(env, l, a, i);
      } else {
        assert IsStep(env, Before(l, a, |a|), b, i - |a|);
      }
    }
  }

  /** Peeking at one token or at two changes nothing but the lexer's token mark, so that everything the
      token source does afterwards is what it would have done anyway. */
  lemma PeekingIsPure(env: Env, t: Source)
    requires t.lexer.pos <= |env.src|
    ensures Peek(env, t).1 == t.(lexer := t.lexer.(start := 0))
    ensures Peek2(env, t).2 == t.(lexer := t.lexer.(start := 0))
    ensures Peek(env, t).0 == Peek2(env, t).0 == DoBump(env, t).lexer.kind
    ensures DoBump(env, t.(lexer := t.lexer.(start := 0))) == DoBump(env, t)
  {
    hide NextToken, Lexing;
    var first := AheadIsARun(env, t.lexer);
    LookAheadIsPure(env, t.lexer, first);
    var second := AheadIsARun(env, NextNonTrivia(env, t.lexer));
    RunsJoin(env, t.lexer, first, second);
    LookAheadIsPure(env, t.lexer, first + second);
    BumpFindsTheSame(env, t);
    MarkIsForgotten(env, t.lexer, 0);
  }

  lemma {:induction false} BumpFindsTheSame(env: Env, t: Source)
    requires t.lexer.pos <= |env.src|
    ensures DoBump(env, t).lexer == NextNonTrivia(env, t.lexer)
    decreases |env.src| - t.lexer.pos, |t.lexer.fstrings|, Flag(t.lexer.nesting > 0), |t.lexer.indents|,
              Flag(t.lexer.pending.Some?), Rank(t.lexer.state)
  {
    hide NextToken;
    StepMakesProgress(env, t.lexer);
    var l := NextToken(env, t.lexer);
    if l.kind.IsTrivia() {
      BumpFindsTheSame(env, Source(l, t.tokens + [CurrentToken(l, l.kind)]));
    }
  }

  /** The token source after it has bumped once for each of `kinds`. */
  function Bumps(env: Env, t: Source, kinds: seq<TokenKind>): (r: Source)
    requires t.lexer.pos <= |env.src|
    ensures r.lexer.pos <= |env.src|
  {
    if kinds == [] then t else Bump(env, Bumps(env, t, kinds[..|kinds| - 1]), kinds[|kinds| - 1])
  }

  lemma {:induction false} DoBumpOnlyAdds(env: Env, t: Source)
    requires t.lexer.pos <= |env.src|
    ensures t.tokens <= DoBump(env, t).tokens
    decreases |env.src| - t.lexer.pos, |t.lexer.fstrings|, Flag(t.lexer.nesting > 0), |t.lexer.indents|,
              Flag(t.lexer.pending.Some?), Rank(t.lexer.state)
  {
    hide NextToken;
    StepMakesProgress(env, t.lexer);
    var l := NextToken(env, t.lexer);
    if l.kind.IsTrivia() {
      DoBumpOnlyAdds(env, Source(l, t.tokens + [CurrentToken(l, l.kind)]));
    }
  }

  /** The lexer's states on the way of several bumps, which only add tokens. */
  lemma {:induction false} BumpsAreARun(env: Env, t: Source, kinds: seq<TokenKind>) returns (run: seq<Lex>)
    requires t.lexer.pos <= |env.src|
    ensures IsRun(env, t.lexer, run) && Before(t.lexer, run, |run|) == Bumps(env, t, kinds).lexer
    ensures t.tokens <= Bumps(env, t, kinds).tokens
  {
    hide NextToken, DoBump, NextNonTrivia;
    run := [];
    if kinds != [] {
      run := BumpsAreARun(env, t, kinds[..|kinds| - 1]);
      var r := Bumps(env, t, kinds[..|kinds| - 1]);
      var kept := r.(tokens := r.tokens + [CurrentToken(r.lexer, kinds[|kinds| - 1])]);
      DoBumpOnlyAdds(env, kept);
      BumpFindsTheSame(env, kept);
      var rest := AheadIsARun(env, r.lexer);
      RunsJoin(env, t.lexer, run, rest);
      run := run + rest;
    }
  }

  /** A checkpoint undoes any number of bumps: tokens, lexer and errors are those of before, up to the mark. */
  lemma RewindUndoesBumps(env: Env, t: Source, kinds: seq<TokenKind>)
    requires t.lexer.pos <= |env.src|
    ensures RewindSource(Bumps(env, t, kinds), SaveSource(t)) == t.(lexer := t.lexer.(start := 0))
  {
    hide NextToken, Bumps, Lexing;
    var run := BumpsAreARun(env, t, kinds);
    LookAheadIsPure(env, t.lexer, run);
  }

  // ---------- Re-lexing ----------

  /** From a line break, in the state re-lexing puts it in, the lexer starts its token right there. */
  lemma StartsAtNewline(env: Env, l: Lex)
    requires l.pos < |env.src| && IsNewline(env.src[l.pos]) && l.state == Other
    ensures NextToken(env, l).range.start == l.pos
  {
    hide BeforeCharacter, LexCharacter;
    var s := l.(start := l.pos, value := NoValue, flags := NO_FLAGS);
    BeforeNewline(env, s);
    match BeforeCharacter(env, s)
    case Emitted(r) =>
    case Ready(m) => NewlineCharacter(env, m);
  }

  lemma BeforeNewline(env: Env, s: Lex)
    requires s.start == s.pos < |env.src| && IsNewline(env.src[s.pos]) && s.state == Other
    ensures match BeforeCharacter(env, s)
            case Emitted(r) => r.start == s.pos && (r.kind == Unknown ==> r.range.start == s.pos)
            case Ready(m) => m.pos == s.pos
  {
    hide FStringScan.ScanMiddle, DedentOne, Width.TryCompare, IsTriple;
  }

  lemma NewlineCharacter(env: Env, m: Lex)
    requires m.pos < |env.src| && IsNewline(env.src[m.pos])
    ensures var r := LexCharacter(env, m); r.start == m.pos && r.kind != Unknown
  {
    hide LexIdentifier, LexNumber, LexString, LexOperator, LexEscapeCommand, Bracket, EndSpec;
  }

  /** Where the first trailing line break is, everything from it on is trivia. */
  lemma {:induction false} TrailingIsTrivia(tokens: seq<Token>) returns (at: nat)
    requires TrailingNewline(tokens).Some?
    ensures at < |tokens| && tokens[at].kind == NonLogicalNewline
            && tokens[at].range.start == TrailingNewline(tokens).value
    ensures forall i :: at <= i < |tokens| ==> tokens[i].kind.IsTrivia()
  {
    var last, rest := tokens[|tokens| - 1], tokens[..|tokens| - 1];
    if last.kind == NonLogicalNewline && TrailingNewline(rest).None? {
      at := |rest|;
    } else {
      at := TrailingIsTrivia(rest);
    }
  }

  /** From `at` on there is nothing but trivia, and a line break at `at`. */
  ghost predicate BeginsTrailingLines(tokens: seq<Token>, at: nat)
    requires at < |tokens|
  {
    tokens[at].kind == NonLogicalNewline && forall i :: at <= i < |tokens| ==> tokens[i].kind.IsTrivia()
  }

  /** The line break found is the first of those with only trivia behind them, and one is found if there is any. */
  lemma {:induction false} TrailingNewlineIsFirst(tokens: seq<Token>, at: nat)
    requires at < |tokens| && BeginsTrailingLines(tokens, at)
    ensures TrailingNewline(tokens).Some?
    ensures exists first :: 0 <= first <= at && BeginsTrailingLines(tokens, first)
                            && TrailingNewline(tokens) == Some(tokens[first].range.start)
                            && forall i :: 0 <= i < first ==> !BeginsTrailingLines(tokens, i)
  {
    var n := |tokens| - 1;
    var last, rest := tokens[n], tokens[..n];
    assert last.kind.IsTrivia();
    if at < n {
      assert BeginsTrailingLines(rest, at);
      TrailingNewlineIsFirst(rest, at);
      var first :| 0 <= first <= at && BeginsTrailingLines(rest, first)
                   && TrailingNewline(rest) == Some(rest[first].range.start)
                   && forall i :: 0 <= i < first ==> !BeginsTrailingLines(rest, i);
      FirstStaysFirst(tokens, rest, first);
    } else if TrailingNewline(rest).Some? {
      var earlier := TrailingIsTrivia(rest);
      assert BeginsTrailingLines(rest, earlier);
      TrailingNewlineIsFirst(rest, earlier);
      var first :| 0 <= first <= earlier && BeginsTrailingLines(rest, first)
                   && TrailingNewline(rest) == Some(rest[first].range.start)
                   && forall i :: 0 <= i < first ==> !BeginsTrailingLines(rest, i);
      FirstStaysFirst(tokens, rest, first);
    } else {
      forall i | 0 <= i < at ensures !BeginsTrailingLines(tokens, i) {
        if BeginsTrailingLines(tokens, i) {
          assert BeginsTrailingLines(rest, i);
          TrailingNewlineIsFirst(rest, i);
          assert false;
        }
      }
    }
  }

  lemma FirstStaysFirst(tokens: seq<Token>, rest: seq<Token>, first: nat)
    requires tokens != [] && rest == tokens[..|tokens| - 1] && tokens[|tokens| - 1].kind.IsTrivia()
    requires first < |rest| && BeginsTrailingLines(rest, first)
    requires forall i :: 0 <= i < first ==> !BeginsTrailingLines(rest, i)
    ensures BeginsTrailingLines(tokens, first)
    ensures forall i :: 0 <= i < first ==> !BeginsTrailingLines(tokens, i)
  {
    forall i | 0 <= i <= first ensures BeginsTrailingLines(tokens, i) <==> BeginsTrailingLines(rest, i) {
      assert tokens[i] == rest[i];
      assert forall k :: i <= k < |rest| ==> tokens[k] == rest[k];
    }
  }

  lemma {:induction false} DropFromStops(tokens: seq<Token>, start: nat)
    ensures var r := DropFrom(tokens, start);
            && (r != [] ==> r[|r| - 1].range.start < start)
            && (forall i :: |r| <= i < |tokens| ==> tokens[i].range.start >= start)
  {
    if tokens != [] && tokens[|tokens| - 1].range.start >= start {
      DropFromStops(tokens[..|tokens| - 1], start);
    }
  }

  /** The token that re-lexing from the line break at `p` gives. */
  lemma ReLexedToken(env: Env, l: Lex, p: nat)
    requires l.nesting > 0 && p < |env.src| && IsNewline(env.src[p])
    ensures var r := NextToken(env, MovedBack(l, p));
            p == r.range.start <= r.range.end <= r.pos <= |env.src| && IsPlaced(env, r.kind, r.range)
  {
    hide NextToken;
    StartsAtNewline(env, MovedBack(l, p));
    StepKeepsOrder(env, MovedBack(l, p));
    NewlineTokenIsNewline(env, MovedBack(l, p));
  }

  /** What dropping the tokens from a trailing line break on leaves, and what it drops. */
  lemma DropKeepsOrder(env: Env, tokens: seq<Token>, end: nat)
    requires OrderedBy(env, tokens, end) && TrailingNewline(tokens).Some?
    ensures var p := TrailingNewline(tokens).value;
            var kept := DropFrom(tokens, p);
            && p < |env.src| && IsNewline(env.src[p])
            && OrderedBy(env, kept, p)
            && (forall i :: |kept| <= i < |tokens| ==> tokens[i].range.start >= p)
            && (forall i :: 0 <= i < |kept| ==> tokens[i].range.start < p)
            && forall i :: |kept| <= i < |tokens| ==> tokens[i].kind.IsTrivia() || tokens[i].range == Range(p, p)
  {
    hide TrailingNewline, DropFrom, TokenKind.IsTrivia;
    var at := TrailingIsTrivia(tokens);
    var p := tokens[at].range.start;
    DropFromStops(tokens, p);
    var kept := DropFrom(tokens, p);
    assert |kept| <= at;
    assert forall i :: 0 <= i < |kept| ==> kept[i] == tokens[i];
  }

  /** Re-lexing keeps the order. If it moves, the current token starts exactly at the line break it was
      given, and the tokens it drops are trivia or empty tokens at that very position. */
  lemma ReLexKeepsOrder(env: Env, t: Source)
    requires InOrder(env, t)
    ensures var newline := TrailingNewline(t.tokens);
            newline.Some? ==> newline.value < |env.src| && IsNewline(env.src[newline.value])
    ensures var r := ReLexToken(env, t);
            var moved := ReLex(env, t.lexer, TrailingNewline(t.tokens)).0;
            && InOrder(env, r) && r.tokens <= t.tokens
            && (!moved ==> r == t.(lexer := t.lexer.(nesting := r.lexer.nesting)))
            && (moved ==>
                  && TrailingNewline(t.tokens) == Some(r.lexer.range.start)
                  && (forall i :: 0 <= i < |r.tokens| ==> t.tokens[i].range.start < r.lexer.range.start)
                  && forall i :: |r.tokens| <= i < |t.tokens| ==>
                       t.tokens[i].kind.IsTrivia()
                       || t.tokens[i].range == Range(r.lexer.range.start, r.lexer.range.start))
  {
    hide NextToken, TrailingNewline, DropFrom, OrderedBy, IsPlaced, MovedBack;
    var newline := TrailingNewline(t.tokens);
    if newline.Some? {
      DropKeepsOrder(env, t.tokens, t.lexer.range.start);
      if t.lexer.nesting > 0 {
        ReLexedToken(env, t.lexer, newline.value);
      }
    }
  }

  // ---------- Whole sessions ----------

  /** What a parser can ask of its token source. */
  datatype Request =
    | DoBumpAs(kind: TokenKind)
    | DoTakeValue
    | DoPeek
    | DoPeek2
    | DoReLex
    | DoSave
    | DoRewind(index: nat)

  /** A token source with the checkpoints taken from it that can still be returned to. Returning to one
      gives up those taken after it, and so does a re-lex that drops tokens a checkpoint counted. */
  datatype Session = Session(source: Source, saved: seq<SourceCheckpoint>)

  predicate Allowed(s: Session, request: Request) {
    && (request.DoBumpAs? && request.kind == NonLogicalNewline ==> s.source.lexer.kind == NonLogicalNewline)
    && (request.DoRewind? ==> request.index < |s.saved|)
  }

  function StillCounted(saved: seq<SourceCheckpoint>, length: nat): (r: seq<SourceCheckpoint>)
    ensures r <= saved
  {
    if saved != [] && saved[|saved| - 1].tokensPosition > length then StillCounted(saved[..|saved| - 1], length)
    else saved
  }

  function Serve(env: Env, s: Session, request: Request): Session
    requires s.source.lexer.pos <= |env.src| && Allowed(s, request)
    requires TrailingNewline(s.source.tokens).Some? ==> TrailingNewline(s.source.tokens).value <= |env.src|
  {
    var t := s.source;
    match request
    case DoBumpAs(kind) => s.(source := Bump(env, t, kind))
    case DoTakeValue => s.(source := t.(lexer := t.lexer.(value := NoValue)))
    case DoPeek => s.(source := Peek(env, t).1)
    case DoPeek2 => s.(source := Peek2(env, t).2)
    case DoReLex =>
      var r := ReLexToken(env, t);
      Session(r, StillCounted(s.saved, |r.tokens|))
    case DoSave => s.(saved := s.saved + [SaveSource(t)])
    case DoRewind(i) => Session(RewindSource(t, s.saved[i]), s.saved[..i])
  }

  /** A checkpoint fits: the tokens it counted are still there, in order and before its current token. */
  ghost predicate Fits(env: Env, c: SourceCheckpoint, tokens: seq<Token>) {
    && c.tokensPosition <= |tokens|
    && c.lexer.range.start <= c.lexer.range.end <= c.lexer.pos <= |env.src|
    && IsPlaced(env, c.lexer.kind, c.lexer.range)
    && OrderedBy(env, tokens[..c.tokensPosition], c.lexer.range.start)
  }

  ghost predicate SessionInOrder(env: Env, s: Session) {
    && InOrder(env, s.source)
    && (forall i :: 0 <= i < |s.saved| ==> Fits(env, s.saved[i], s.source.tokens))
    && (forall i, j :: 0 <= i < j < |s.saved| ==> s.saved[i].tokensPosition <= s.saved[j].tokensPosition)
  }

  lemma FitsPrefix(env: Env, c: SourceCheckpoint, a: seq<Token>, b: seq<Token>)
    requires Fits(env, c, a) && (a <= b || b <= a) && c.tokensPosition <= |b|
    ensures Fits(env, c, b)
  {
    assert a[..c.tokensPosition] == b[..c.tokensPosition];
  }

  lemma {:induction false} StillCountedCounts(saved: seq<SourceCheckpoint>, length: nat)
    requires forall i, j :: 0 <= i < j < |saved| ==> saved[i].tokensPosition <= saved[j].tokensPosition
    ensures forall i :: 0 <= i < |StillCounted(saved, length)| ==> saved[i].tokensPosition <= length
  {
    if saved != [] && saved[|saved| - 1].tokensPosition > length {
      StillCountedCounts(saved[..|saved| - 1], length);
    }
  }

  /** A request leaves tokens in order, and of the checkpoints those whose tokens it did not drop. */
  lemma ServeKeepsTokens(env: Env, s: Session, request: Request)
    requires InOrder(env, s.source) && Allowed(s, request)
    requires forall i :: 0 <= i < |s.saved| ==> Fits(env, s.saved[i], s.source.tokens)
    requires forall i, j :: 0 <= i < j < |s.saved| ==> s.saved[i].tokensPosition <= s.saved[j].tokensPosition
    ensures s.source.lexer.pos <= |env.src|
    ensures TrailingNewline(s.source.tokens).Some? ==> TrailingNewline(s.source.tokens).value <= |env.src|
    ensures var r := Serve(env, s, request);
            && InOrder(env, r.source)
            && (request.DoSave? ==> r.source == s.source)
            && (r.source.tokens <= s.source.tokens || s.source.tokens <= r.source.tokens)
            && (if request.DoSave? then r.saved == s.saved + [SaveSource(s.source)] else r.saved <= s.saved)
            && forall i :: 0 <= i < |s.saved| && i < |r.saved| ==> s.saved[i].tokensPosition <= |r.source.tokens|
  {
    hide Bump, Peek, Peek2, ReLexToken, Fits, InOrder, RewindSource;
    InOrderInText(env, s.source);
    ReLexKeepsOrder(env, s.source);
    var r := Serve(env, s, request);
    forall i | 0 <= i < |s.saved| ensures s.saved[i].tokensPosition <= |s.source.tokens| {
      FitsCounts(env, s.saved[i], s.source.tokens);
    }
    match request {
      case DoBumpAs(kind) => BumpKeepsOrder(env, s.source, kind);
      case DoTakeValue => OrderIgnoresMarkAndValue(env, s.source, r.source);
      case DoPeek =>
        PeekingIsPure(env, s.source);
        OrderIgnoresMarkAndValue(env, s.source, r.source);
      case DoPeek2 =>
        PeekingIsPure(env, s.source);
        OrderIgnoresMarkAndValue(env, s.source, r.source);
      case DoReLex => StillCountedCounts(s.saved, |r.source.tokens|);
      case DoSave =>
      case DoRewind(i) => RewindFits(env, s.source, s.saved[i]);
    }
  }

  lemma ServeKeepsOrder(env: Env, s: Session, request: Request)
    requires SessionInOrder(env, s) && Allowed(s, request)
    ensures s.source.lexer.pos <= |env.src|
    ensures TrailingNewline(s.source.tokens).Some? ==> TrailingNewline(s.source.tokens).value <= |env.src|
    ensures SessionInOrder(env, Serve(env, s, request))
  {
    hide Serve, Fits, InOrder, TrailingNewline;
    ServeKeepsTokens(env, s, request);
    var r := Serve(env, s, request);
    forall i | 0 <= i < |s.saved| ensures s.saved[i].tokensPosition <= |s.source.tokens| {
      FitsCounts(env, s.saved[i], s.source.tokens);
    }
    forall i | 0 <= i < |s.saved| && i < |r.saved| ensures Fits(env, r.saved[i], r.source.tokens) {
      FitsPrefix(env, s.saved[i], s.source.tokens, r.source.tokens);
    }
    if request.DoSave? {
      SavedFits(env, s.source);
    }
  }

  lemma InOrderInText(env: Env, t: Source)
    requires InOrder(env, t)
    ensures t.lexer.pos <= |env.src|
  {
  }

  /** Neither the lexer's mark nor its current value has to do with the order of tokens. */
  lemma OrderIgnoresMarkAndValue(env: Env, t: Source, r: Source)
    requires InOrder(env, t) && r.tokens == t.tokens
    requires r.lexer.range == t.lexer.range && r.lexer.kind == t.lexer.kind && r.lexer.pos == t.lexer.pos
    ensures InOrder(env, r)
  {
  }

  lemma FitsCounts(env: Env, c: SourceCheckpoint, tokens: seq<Token>)
    requires Fits(env, c, tokens)
    ensures c.tokensPosition <= |tokens|
  {
  }

  lemma SavedFits(env: Env, t: Source)
    requires InOrder(env, t)
    ensures Fits(env, SaveSource(t), t.tokens)
  {
    assert t.tokens[..|t.tokens|] == t.tokens;
  }

  lemma RewindFits(env: Env, t: Source, c: SourceCheckpoint)
    requires Fits(env, c, t.tokens)
    ensures InOrder(env, RewindSource(t, c)) && RewindSource(t, c).tokens == t.tokens[..c.tokensPosition]
  {
    assert t.tokens[..|t.tokens|] == t.tokens;
  }

  /** The session after `requests`, as long as each is allowed. */
  ghost predicate Reaches(env: Env, s: Session, requests: seq<Request>, r: Session)
    requires SessionInOrder(env, s)
    decreases requests
  {
    if requests == [] then r == s
    else
      && Allowed(s, requests[0])
      && (ServeKeepsOrder(env, s, requests[0]);
          Reaches(env, Serve(env, s, requests[0]), requests[1..], r))
  }

  lemma StartsInOrder(env: Env, startOffset: nat)
    requires startOffset <= |env.src|
    ensures SessionInOrder(env, Session(FromSource(env, startOffset), []))
  {
    DoBumpKeepsOrder(env, Source(Init(env, startOffset), []));
  }

  /** However a parser bumps, peeks, re-lexes, saves and rewinds, the tokens kept stay sorted, do not
      overlap, and end by the start of the current token. */
  lemma {:induction false} SessionsStayInOrder(env: Env, s: Session, requests: seq<Request>, r: Session)
    requires SessionInOrder(env, s) && Reaches(env, s, requests, r)
    ensures SessionInOrder(env, r)
    decreases requests
  {
    if requests != [] {
      ServeKeepsOrder(env, s, requests[0]);
      SessionsStayInOrder(env, Serve(env, s, requests[0]), requests[1..], r);
    }
  }
}
