/** Indentation, brackets and f-strings over whole runs of the lexer. */
module LexerInvariants {
  import opened Text
  import opened Tokens
  import opened Indentation
  import opened FStrings
  import opened Words
  import opened LexerSpec
  import opened LexerSteps
  import opened LexerRuns
  import TokenList
  import W = Whitespace

  /** Each open f-string was entered inside a replacement field of the one around it, and the innermost
      has at least as many brackets open as format specifications. */
  ghost predicate Nested(stack: seq<FString>, nesting: nat) {
    && (forall i :: 0 <= i < |stack| - 1 ==> stack[i].nesting + stack[i].formatSpecDepth < stack[i + 1].nesting)
    && (stack != [] ==> stack[|stack| - 1].nesting + stack[|stack| - 1].formatSpecDepth <= nesting)
  }

  /** What every step keeps, as long as nobody moves the lexer back. The start of a logical line and a
      pending width each mean that no bracket and no f-string is open (sections 2.1.6 and 2.1.8). */
  ghost predicate Invariant(env: Env, s: Lex) {
    && s.pos <= |env.src|
    && StrictlyIncreasing(s.indents)
    && (s.state.IsNewLogicalLine() || s.pending.Some? ==> s.nesting == 0 && s.fstrings == [])
    && (Nested(s.fstrings, s.nesting) || (s.pos == |env.src| && s.nesting == 0))
    && (forall i :: 0 <= i < |s.fstrings| ==> s.fstrings[i].flags.fstring)
    && s.nesting <= s.pos
  }

  lemma InitKeepsInvariant(env: Env, startOffset: nat)
    requires startOffset <= |env.src|
    ensures Invariant(env, Init(env, startOffset))
  {
  }

  lemma DropKeepsIncreasing(stack: seq<Width>)
    requires StrictlyIncreasing(stack)
    ensures StrictlyIncreasing(DropLast(stack))
  {
  }

  lemma StepKeepsInvariant(env: Env, s: Lex)
    requires Invariant(env, s)
    ensures Invariant(env, NextToken(env, s))
  {
    hide BeforeCharacter, LexCharacter, StrictlyIncreasing;
    var s' := s.(start := s.pos, value := NoValue, flags := NO_FLAGS);
    BeforeHasEffect(env, s');
    match BeforeCharacter(env, s')
    case Emitted(r) => EmittedKeepsInvariant(env, s', r);
    case Ready(m) =>
      CharacterOrEnd(env, m);
      if m.pos == |env.src| {
        DropKeepsIncreasing(m.indents);
      } else {
        CharacterKeepsInvariant(env, s', m, LexCharacter(env, m));
      }
  }

  lemma EmittedKeepsInvariant(env: Env, s: Lex, r: Lex)
    requires Invariant(env, s) && BeforeEffect(env, s, Emitted(r))
    ensures Invariant(env, r)
  {
    hide StrictlyIncreasing, FString.InExpression, Reports, ReachesFrom, AtFieldBoundary;
    DropKeepsIncreasing(s.indents);
    if r.kind == TokenKind.Indent {
      PushKeepsIncreasing(s.indents, W.WidthBefore(env.src, s.pos, r.pos));
    }
  }

  /** The innermost f-string changes, with as many format specifications as brackets allow. */
  lemma TopStaysNested(stack: seq<FString>, nesting: nat, top: FString, nesting': nat)
    requires stack != [] && Nested(stack, nesting)
    requires top.nesting == stack[|stack| - 1].nesting && top.nesting + top.formatSpecDepth <= nesting'
    ensures Nested(OnTop(stack, top), nesting')
  {
  }

  lemma EnteredStaysNested(stack: seq<FString>, nesting: nat, flags: Flags)
    requires Nested(stack, nesting) && (stack != [] ==> stack[|stack| - 1].InExpression(nesting))
    ensures Nested(stack + [FString(flags, nesting, 0)], nesting)
  {
  }

  lemma TopFits(stack: seq<FString>, nesting: nat)
    requires stack != [] && Nested(stack, nesting)
    ensures stack[|stack| - 1].nesting + stack[|stack| - 1].formatSpecDepth <= nesting
    ensures OnTop(stack, stack[|stack| - 1]) == stack
  {
  }

  lemma CharacterKeepsNested(env: Env, m: Lex, r: Lex)
    requires Nested(m.fstrings, m.nesting) && m.pos < |env.src| && CharacterEffect(env, m, r)
    requires m.fstrings != [] && !m.fstrings[|m.fstrings| - 1].InExpression(m.nesting) ==> AtFieldBoundary(env, m)
    ensures Nested(r.fstrings, r.nesting)
  {
    hide Reports, Nested, OnTop;
    var stack, n := m.fstrings, m.nesting;
    if r.kind == FStringStart {
      EnteredStaysNested(stack, n, r.flags);
    } else if stack != [] {
      TopFits(stack, n);
      var top := stack[|stack| - 1];
      var top' := if r.kind == Rbrace || r.kind == NonLogicalNewline then top.TryEndFormatSpec(n)
                  else if r.kind == Operator(":") then top.TryStartFormatSpec(n) else top;
      TopStaysNested(stack, n, top', r.nesting);
    } else {
      NothingIsNested(r.nesting);
    }
  }

  lemma NothingIsNested(nesting: nat)
    ensures Nested([], nesting)
  {
  }

  lemma NestedAtZero(stack: seq<FString>)
    requires Nested(stack, 0) && stack != []
    ensures stack[|stack| - 1].formatSpecDepth == 0
  {
  }

  lemma CharacterKeepsInvariant(env: Env, s: Lex, m: Lex, r: Lex)
    requires Invariant(env, s) && BeforeEffect(env, s, Ready(m))
    requires m.pos < |env.src| && CharacterEffect(env, m, r)
    ensures Invariant(env, r)
  {
    hide StrictlyIncreasing, Reports, Nested;
    CharacterKeepsNested(env, m, r) by {
      assert Nested(m.fstrings, m.nesting);
    }
    if m.fstrings != [] && m.nesting == 0 {
      NestedAtZero(m.fstrings);
    }
  }

  lemma {:induction false} RunKeepsInvariant(env: Env, s: Lex, run: seq<Lex>, i: nat)
    requires Invariant(env, s) && IsRun(env, s, run) && i <= |run|
    ensures Invariant(env, Before(s, run, i))
  {
    hide NextToken, Invariant;
    if i > 0 {
      RunKeepsInvariant(env, s, run, i - 1);
      assert IsStep(env, s, run, i - 1);
      StepKeepsInvariant(env, Before(s, run, i - 1));
    }
  }

  // ---------- Indentation (section 2.1.8) ----------

  /** A level was left, but the pending width lies above the next one: the line fits no open level. */
  ghost predicate FailedDedent(s: Lex, r: Lex) {
    r.kind == Unknown && |r.indents| < |s.indents|
  }

  /** The indentation stack changes by the tokens alone: Indent pushes a deeper level, Dedent pops one,
      and so does the error of a line that fits no open level. */
  ghost predicate DepthEffect(env: Env, s: Lex, r: Lex)
    requires s.pos <= |env.src|
  {
    if r.kind == TokenKind.Indent then
      && s.pos <= r.pos <= |env.src|
      && r.indents == s.indents + [W.WidthBefore(env.src, s.pos, r.pos)]
      && Current(s.indents).TryCompare(W.WidthBefore(env.src, s.pos, r.pos)) == Some(Less)
    else if r.kind == TokenKind.Dedent then s.indents != [] && r.indents == DropLast(s.indents)
    else if FailedDedent(s, r) then
      && s.indents != [] && r.indents == DropLast(s.indents)
      && |r.errors| > |s.errors| && r.errors[|s.errors|].kind == IndentationError
      && r.pending.Some? && !ReachesFrom(r.pending.value, r.indents)
    else r.indents == s.indents
  }

  lemma StepDepth(env: Env, s: Lex)
    requires s.pos <= |env.src|
    ensures DepthEffect(env, s, NextToken(env, s))
  {
    hide BeforeCharacter, LexCharacter, Width.TryCompare, ReachesFrom, AtFieldBoundary;
    var s' := s.(start := s.pos, value := NoValue, flags := NO_FLAGS);
    BeforeHasEffect(env, s');
    match BeforeCharacter(env, s')
    case Emitted(r) =>
    case Ready(m) => CharacterOrEnd(env, m);
  }

  /** Indent and Dedent come only where no bracket and no f-string is open, before the step and after it. */
  lemma IndentationOutsideBrackets(env: Env, s: Lex)
    requires Invariant(env, s)
    ensures var r := NextToken(env, s);
            r.kind == TokenKind.Indent || r.kind == TokenKind.Dedent ==>
              s.nesting == 0 && r.nesting == 0 && s.fstrings == [] && r.fstrings == []
  {
    hide BeforeCharacter, LexCharacter, StrictlyIncreasing, Width.TryCompare, ReachesFrom, Reports, Nested;
    var s' := s.(start := s.pos, value := NoValue, flags := NO_FLAGS);
    BeforeHasEffect(env, s');
    match BeforeCharacter(env, s')
    case Emitted(r) =>
    case Ready(m) => CharacterOrEnd(env, m);
  }

  function Count(run: seq<Lex>, kind: TokenKind): nat {
    if run == [] then 0 else Count(run[..|run| - 1], kind) + Flag(run[|run| - 1].kind == kind)
  }

  ghost function FailedDedents(s: Lex, run: seq<Lex>): nat {
    if run == [] then 0
    else FailedDedents(s, run[..|run| - 1]) + Flag(FailedDedent(Before(s, run, |run| - 1), run[|run| - 1]))
  }

  lemma PrefixIsRun(env: Env, s: Lex, run: seq<Lex>, n: nat)
    requires IsRun(env, s, run) && n <= |run|
    ensures IsRun(env, s, run[..n])
    ensures forall i :: 0 <= i <= n ==> Before(s, run[..n], i) == Before(s, run, i)
  {
    hide NextToken;
    forall i | 0 <= i < n ensures IsStep(env, s, run[..n], i) {
      assert IsStep(env, s, run, i);
    }
  }

  /** Conservation, from any state: every level that was entered has been left, either by a Dedent or by an
      indentation error, or is still open. */
  lemma {:induction false} IndentsAreConserved(env: Env, s: Lex, run: seq<Lex>)
    requires IsRun(env, s, run)
    ensures |s.indents| + Count(run, TokenKind.Indent)
         == Count(run, TokenKind.Dedent) + FailedDedents(s, run) + |Before(s, run, |run|).indents|
    decreases |run|
  {
    hide NextToken, Invariant;
    if run != [] {
      var n := |run| - 1;
      PrefixIsRun(env, s, run, n);
      IndentsAreConserved(env, s, run[..n]);
      assert IsStep(env, s, run, n);
      StepDepth(env, Before(s, run, n));
    }
  }

  /** A whole run over a file: no prefix has more dedents than indents, and at the end there are
      equally many exactly when no line failed to fit an open level. */
  lemma IndentsBalance(env: Env, startOffset: nat, n: nat)
    requires startOffset <= |env.src|
    requires n <= |Lexing(env, Init(env, startOffset))|
    ensures var s := Init(env, startOffset);
            var run := Lexing(env, s);
            && Count(run[..n], TokenKind.Dedent) <= Count(run[..n], TokenKind.Indent)
            && (Count(run, TokenKind.Dedent) == Count(run, TokenKind.Indent) <==> FailedDedents(s, run) == 0)
  {
    hide NextToken, Lexing;
    var s := Init(env, startOffset);
    var run := Lexing(env, s);
    LexingIsARun(env, s);
    PrefixIsRun(env, s, run, n);
    IndentsAreConserved(env, s, run[..n]);
    IndentsAreConserved(env, s, run);
    var last := Before(s, run, |run| - 1);
    assert IsStep(env, s, run, |run| - 1);
    EndOfFileIsFinal(env, last);
  }

  // ---------- Indentation, wherever re-lexing leads ----------

  /** The levels stay strictly increasing whatever the step, the brackets and the f-strings. */
  lemma StepKeepsIncreasing(env: Env, s: Lex)
    requires s.pos <= |env.src| && StrictlyIncreasing(s.indents)
    ensures StrictlyIncreasing(NextToken(env, s).indents)
  {
    hide NextToken, StrictlyIncreasing;
    StepDepth(env, s);
    var r := NextToken(env, s);
    DropKeepsIncreasing(s.indents);
    if r.kind == TokenKind.Indent {
      PushKeepsIncreasing(s.indents, W.WidthBefore(env.src, s.pos, r.pos));
    }
  }

  lemma ReLexKeepsIncreasing(env: Env, s: Lex, newline: Option<nat>)
    requires StrictlyIncreasing(s.indents) && (newline.Some? ==> newline.value <= |env.src|)
    ensures StrictlyIncreasing(ReLex(env, s, newline).1.indents)
  {
    hide NextToken, StrictlyIncreasing;
    if ReLex(env, s, newline).0 {
      StepKeepsIncreasing(env, MovedBack(s, newline.value));
    }
  }

  /** What a parser can have its lexer do, apart from returning to a checkpoint. */
  datatype Move = Advance | GoBack(newline: Option<nat>)

  predicate CanMove(env: Env, move: Move) {
    move.GoBack? && move.newline.Some? ==> move.newline.value <= |env.src|
  }

  /** The lexer after a move, with whether the move gave a token. */
  function Moved(env: Env, s: Lex, move: Move): (r: (bool, Lex))
    requires s.pos <= |env.src| && CanMove(env, move)
  {
    match move
    case Advance => (true, NextToken(env, s))
    case GoBack(newline) => ReLex(env, s, newline)
  }

  /** How many tokens of each kind some moves gave, and the lexer after them. */
  datatype History = History(indents: nat, dedents: nat, failed: nat, lexer: Lex)

  /** The lexer after `moves`, each from where the one before it leads, with the Indents, the Dedents and the
      failed dedents among the tokens on the way. */
  ghost function Recount(env: Env, s: Lex, moves: seq<Move>): (r: History)
    requires s.pos <= |env.src| && forall m <- moves :: CanMove(env, m)
    ensures r.lexer.pos <= |env.src|
  {
    if moves == [] then History(0, 0, 0, s)
    else
      var h := Recount(env, s, moves[..|moves| - 1]);
      var move := moves[|moves| - 1];
      MoveStaysInText(env, h.lexer, move);
      var (token, r) := Moved(env, h.lexer, move);
      if token then
        History(h.indents + Flag(r.kind == TokenKind.Indent), h.dedents + Flag(r.kind == TokenKind.Dedent),
                h.failed + Flag(FailedDedent(h.lexer, r)), r)
      else h.(lexer := r)
  }

  lemma MoveStaysInText(env: Env, s: Lex, move: Move)
    requires s.pos <= |env.src| && CanMove(env, move)
    ensures Moved(env, s, move).1.pos <= |env.src|
  {
    hide NextToken;
    StepMakesProgress(env, s);
    if move.GoBack? && Moved(env, s, move).0 {
      StepMakesProgress(env, MovedBack(s, move.newline.value));
    }
  }

  /** However often the lexer is moved back on the way, no level is lost and none is made up, and the levels
      left are strictly increasing. */
  lemma {:induction false} MovesConserveIndents(env: Env, s: Lex, moves: seq<Move>)
    requires s.pos <= |env.src| && forall m <- moves :: CanMove(env, m)
    ensures var h := Recount(env, s, moves);
            && |s.indents| + h.indents == h.dedents + h.failed + |h.lexer.indents|
            && (StrictlyIncreasing(s.indents) ==> StrictlyIncreasing(h.lexer.indents))
  {
    hide NextToken, StrictlyIncreasing, Width.TryCompare, ReachesFrom;
    if moves != [] {
      var rest, move := moves[..|moves| - 1], moves[|moves| - 1];
      assert forall m <- rest :: m in moves;
      MovesConserveIndents(env, s, rest);
      var t := Recount(env, s, rest).lexer;
      StepDepth(env, t);
      if move.GoBack? && Moved(env, t, move).0 {
        StepDepth(env, MovedBack(t, move.newline.value));
      }
      if StrictlyIncreasing(t.indents) {
        StepKeepsIncreasing(env, t);
        ReLexKeepsIncreasing(env, t, if move.GoBack? then move.newline else None);
      }
    }
  }

  // ---------- Brackets (section 2.1.6) ----------

  /** From any state, a Newline token leaves no bracket open, and a reader of the tokens, whatever it has
      counted, is right again: this is what lets the count recover after the lexer was moved back. */
  lemma NewlineRealigns(env: Env, s: Lex, counted: nat)
    requires s.pos <= |env.src| && NextToken(env, s).kind == Newline
    ensures NextToken(env, s).nesting == 0 == TokenList.ContextStep(counted, Newline)
  {
    hide BeforeCharacter, LexCharacter, Width.TryCompare, ReachesFrom, AtFieldBoundary;
    var s' := s.(start := s.pos, value := NoValue, flags := NO_FLAGS);
    BeforeHasEffect(env, s');
    match BeforeCharacter(env, s')
    case Emitted(r) =>
    case Ready(m) => CharacterOrEnd(env, m);
  }

  /** The nesting that a reader of the tokens has counted is the lexer's own, or the lexer has given up
      on brackets that the end of the text left open and still owes the newline that makes them agree again. */
  ghost predicate NestingAgrees(env: Env, s: Lex, counted: nat) {
    counted == s.nesting || (s.pos == |env.src| && s.nesting == 0 && !s.state.IsNewLogicalLine())
  }

  /** What a step from `s` to `r` does to the agreement. */
  ghost predicate KeepsAgreement(env: Env, s: Lex, r: Lex, counted: nat) {
    && NestingAgrees(env, r, TokenList.ContextStep(counted, r.kind))
    && (r.kind == Newline && counted > 0 ==> s.pos == |env.src|)
    && (r.kind == Newline ==> r.nesting == 0 && r.fstrings == [])
  }

  lemma CharacterKeepsAgreement(env: Env, s: Lex, m: Lex, r: Lex, counted: nat)
    requires Invariant(env, s) && NestingAgrees(env, s, counted)
    requires BeforeEffect(env, s, Ready(m)) && m.pos < |env.src| && CharacterEffect(env, m, r)
    ensures KeepsAgreement(env, s, r, counted)
  {
    hide StrictlyIncreasing, Reports, EndSpec, OnTop, StartsSpec;
  }

  lemma EndKeepsAgreement(env: Env, s: Lex, m: Lex, counted: nat)
    requires Invariant(env, s) && NestingAgrees(env, s, counted)
    requires BeforeEffect(env, s, Ready(m)) && m.pos == |env.src|
    ensures KeepsAgreement(env, s, ConsumeEnd(m.(start := m.pos)), counted)
  {
    hide StrictlyIncreasing;
  }

  lemma StepKeepsAgreement(env: Env, s: Lex, counted: nat)
    requires Invariant(env, s) && NestingAgrees(env, s, counted)
    ensures KeepsAgreement(env, s, NextToken(env, s), counted)
  {
    hide BeforeCharacter, LexCharacter, StrictlyIncreasing, Nested, ConsumeEnd,
         CharacterEffect, Width.TryCompare, ReachesFrom;
    var s' := s.(start := s.pos, value := NoValue, flags := NO_FLAGS);
    BeforeHasEffect(env, s');
    match BeforeCharacter(env, s')
    case Emitted(r) =>
    case Ready(m) =>
      CharacterOrEnd(env, m);
      if m.pos == |env.src| {
        EndKeepsAgreement(env, s', m, counted);
      } else {
        CharacterKeepsAgreement(env, s', m, LexCharacter(env, m), counted);
      }
  }

  function Kinds(run: seq<Lex>): (kinds: seq<TokenKind>) {
    seq(|run|, i requires 0 <= i < |run| => run[i].kind)
  }

  /** Counting brackets over the tokens of a run gives the lexer's nesting after every token before the
      end of the text, and the count is never reset there. */
  lemma {:induction false} ReplayFollowsLexer(env: Env, s: Lex, run: seq<Lex>, n: nat)
    requires Invariant(env, s) && s.nesting == 0 && IsRun(env, s, run) && n <= |run|
    ensures NestingAgrees(env, Before(s, run, n), TokenList.Replay(Kinds(run)[..n]))
    ensures n > 0 && run[n - 1].pos < |env.src| ==> TokenList.Replay(Kinds(run)[..n]) == run[n - 1].nesting
    ensures n > 0 && run[n - 1].kind == Newline && TokenList.Replay(Kinds(run)[..n - 1]) > 0 ==>
              Before(s, run, n - 1).pos == |env.src|
  {
    hide NextToken, Invariant;
    if n > 0 {
      ReplayFollowsLexer(env, s, run, n - 1);
      RunKeepsInvariant(env, s, run, n - 1);
      assert IsStep(env, s, run, n - 1);
      StepKeepsAgreement(env, Before(s, run, n - 1), TokenList.Replay(Kinds(run)[..n - 1]));
      assert Kinds(run)[..n][..n - 1] == Kinds(run)[..n - 1];
    }
  }
}
