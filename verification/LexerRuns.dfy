/** What holds of every step of the lexer and of every whole run. */
module LexerRuns {
  import opened Text
  import opened Tokens
  import opened Indentation
  import opened FStrings
  import opened Words
  import opened LexerSpec
  import opened LexerSteps
  import W = Whitespace

  // ---------- Termination ----------

  function Rank(state: LineState): nat {
    match state
    case NonEmptyLogicalLine => 0
    case AfterNewline => 1
    case _ => 2
  }

  function Flag(b: bool): nat {
    if b then 1 else 0
  }

  /** `r` is below `s`: less text, else fewer open f-strings, else brackets no longer open, else fewer
      levels, else no pending width, else a state nearer to the start of a line's tokens. */
  ghost predicate Below(env: Env, r: Lex, s: Lex) {
    || r.pos > s.pos
    || (r.pos == s.pos &&
        (|| |r.fstrings| < |s.fstrings|
         || (|r.fstrings| == |s.fstrings| &&
             (|| Flag(r.nesting > 0) < Flag(s.nesting > 0)
              || (Flag(r.nesting > 0) == Flag(s.nesting > 0) &&
                  (|| |r.indents| < |s.indents|
                   || (|r.indents| == |s.indents| &&
                       (|| Flag(r.pending.Some?) < Flag(s.pending.Some?)
                        || (r.pending.Some? == s.pending.Some? && Rank(r.state) < Rank(s.state))))))))))
  }

  /** Every step that does not reach the end of the file makes progress, from any state at all. */
  lemma StepMakesProgress(env: Env, s: Lex)
    requires s.pos <= |env.src|
    ensures var r := NextToken(env, s); r.pos <= |env.src| && (r.kind != EndOfFile ==> Below(env, r, s))
  {
    hide BeforeCharacter, LexCharacter;
    var s' := s.(start := s.pos, value := NoValue, flags := NO_FLAGS);
    BeforeHasEffect(env, s');
    match BeforeCharacter(env, s')
    case Emitted(r) =>
    case Ready(m) => CharacterOrEnd(env, m);
  }

  /** What lies behind the last branch of a step. */
  lemma CharacterOrEnd(env: Env, m: Lex)
    requires m.pos <= |env.src|
    ensures m.pos < |env.src| ==> CharacterEffect(env, m, LexCharacter(env, m))
    ensures m.pos == |env.src| ==> LexCharacter(env, m) == ConsumeEnd(m.(start := m.pos))
  {
    if m.pos < |env.src| {
      CharacterHasEffect(env, m);
    }
  }

  /** The end of the file is for good: the state it leaves is a fixed point of the lexer. */
  lemma EndOfFileIsFinal(env: Env, s: Lex)
    requires s.pos <= |env.src|
    requires NextToken(env, s).kind == EndOfFile
    ensures NextToken(env, NextToken(env, s)) == NextToken(env, s)
    ensures var r := NextToken(env, s);
            r.pos == |env.src| && r.nesting == 0 && r.fstrings == [] && r.indents == [] && r.pending == None
            && r.state.IsNewLogicalLine() && r.errors == s.errors
  {
    var s' := s.(start := s.pos, value := NoValue, flags := NO_FLAGS);
    var r := NextToken(env, s);
    ReachesEnd(env, s);
    assert FStringTextOrDedent(env, r) == Ready(r);
  }

  lemma ReachesEnd(env: Env, s: Lex)
    requires s.pos <= |env.src|
    requires NextToken(env, s).kind == EndOfFile
    ensures var r := NextToken(env, s);
            && r.pos == r.start == |env.src| && r.nesting == 0
            && r.fstrings == [] && r.indents == [] && r.pending == None
            && r.state.IsNewLogicalLine() && r.errors == s.errors && r.value == NoValue && r.flags == NO_FLAGS
  {
    hide LexCharacter, EatIndentation, SkipWhitespace, LexFStringMiddleOrEnd;
    var s' := s.(start := s.pos, value := NoValue, flags := NO_FLAGS);
    BeforeHasEffect(env, s');
    match BeforeCharacter(env, s')
    case Emitted(r) =>
    case Ready(m) => CharacterOrEnd(env, m);
  }

  /** The states of the lexer after each token from `s` on, up to and including the end of the file.
      That this is a total function is termination, for every source, mode and state. */
  function Lexing(env: Env, s: Lex): (run: seq<Lex>)
    requires s.pos <= |env.src|
    ensures run != [] && run[|run| - 1].kind == EndOfFile
    ensures forall i :: 0 <= i < |run| - 1 ==> run[i].kind != EndOfFile
    decreases |env.src| - s.pos, |s.fstrings|, Flag(s.nesting > 0), |s.indents|, Flag(s.pending.Some?), Rank(s.state)
  {
    StepMakesProgress(env, s);
    var r := NextToken(env, s);
    if r.kind == EndOfFile then [r] else [r] + Lexing(env, r)
  }

  // ---------- Token order ----------

  /** A step puts its token between the old cursor and the new one, and reports an error exactly
      when the token is Unknown, at that token. */
  lemma StepKeepsOrder(env: Env, s: Lex)
    requires s.pos <= |env.src|
    ensures var r := NextToken(env, s);
            && s.pos <= r.range.start <= r.range.end <= r.pos <= |env.src|
            && s.errors <= r.errors
            && (if r.kind == Unknown then |r.errors| == |s.errors| + 1 && r.errors[|s.errors|].location == r.range
                else r.errors == s.errors)
  {
    hide BeforeCharacter, LexCharacter;
    var s' := s.(start := s.pos, value := NoValue, flags := NO_FLAGS);
    BeforeHasEffect(env, s');
    match BeforeCharacter(env, s')
    case Emitted(r) =>
    case Ready(m) => CharacterOrEnd(env, m);
  }

  /** `run` lists the states that successive steps from `s` lead to. */
  ghost predicate IsRun(env: Env, s: Lex, run: seq<Lex>) {
    s.pos <= |env.src| && forall i :: 0 <= i < |run| ==> IsStep(env, s, run, i)
  }

  ghost predicate IsStep(env: Env, s: Lex, run: seq<Lex>, i: nat)
    requires i < |run|
  {
    Before(s, run, i).pos <= |env.src| && run[i] == NextToken(env, Before(s, run, i))
  }

  function Before(s: Lex, run: seq<Lex>, i: nat): Lex
    requires i <= |run|
  {
    if i == 0 then s else run[i - 1]
  }

  lemma {:induction false} LexingIsARun(env: Env, s: Lex)
    requires s.pos <= |env.src|
    ensures IsRun(env, s, Lexing(env, s))
    decreases |env.src| - s.pos, |s.fstrings|, Flag(s.nesting > 0), |s.indents|, Flag(s.pending.Some?), Rank(s.state)
  {
    hide NextToken;
    StepMakesProgress(env, s);
    var r, run := NextToken(env, s), Lexing(env, s);
    if r.kind != EndOfFile {
      LexingIsARun(env, r);
      var rest := Lexing(env, r);
      forall i | 0 <= i < |run| ensures IsStep(env, s, run, i) {
        if i > 0 {
          assert IsStep(env, r, rest, i - 1);
          assert Before(s, run, i) == Before(r, rest, i - 1);
        }
      }
    }
  }

  ghost predicate Sorted(ranges: seq<Range>) {
    && (forall i :: 0 <= i < |ranges| ==> ranges[i].start <= ranges[i].end)
    && (forall i, j :: 0 <= i < j < |ranges| ==> ranges[i].end <= ranges[j].start)
  }

  function Ranges(run: seq<Lex>): (ranges: seq<Range>) {
    seq(|run|, i requires 0 <= i < |run| => run[i].range)
  }

  lemma StepInRun(env: Env, s: Lex, run: seq<Lex>, i: nat)
    requires IsRun(env, s, run) && i < |run|
    ensures Before(s, run, i).pos <= run[i].range.start <= run[i].range.end <= run[i].pos <= |env.src|
  {
    hide NextToken;
    assert IsStep(env, s, run, i);
    StepKeepsOrder(env, Before(s, run, i));
  }

  lemma {:induction false} CursorAdvances(env: Env, s: Lex, run: seq<Lex>, i: nat, j: nat)
    requires IsRun(env, s, run) && i <= j <= |run|
    ensures Before(s, run, i).pos <= Before(s, run, j).pos
    decreases j - i
  {
    if i < j {
      CursorAdvances(env, s, run, i, j - 1);
      StepInRun(env, s, run, j - 1);
    }
  }

  /** The tokens of any run come in order, never overlap and lie in the text. */
  lemma RunIsSorted(env: Env, s: Lex, run: seq<Lex>)
    requires IsRun(env, s, run)
    ensures Sorted(Ranges(run))
    ensures forall i :: 0 <= i < |run| ==> s.pos <= run[i].range.start && run[i].range.end <= |env.src|
  {
    hide IsRun;
    forall i | 0 <= i < |run|
      ensures s.pos <= run[i].range.start <= run[i].range.end <= run[i].pos <= |env.src|
    {
      CursorAdvances(env, s, run, 0, i);
      StepInRun(env, s, run, i);
    }
    forall i, j | 0 <= i < j < |run| ensures run[i].range.end <= run[j].range.start {
      CursorAdvances(env, s, run, i + 1, j);
      StepInRun(env, s, run, j);
    }
  }

  /** A byte order mark is skipped at the very beginning of a source and nowhere else: no token covers it there, and
      lexing begins exactly at any other offset. */
  lemma ByteOrderMark(env: Env, startOffset: nat, run: seq<Lex>)
    requires startOffset <= |env.src|
    requires IsRun(env, Init(env, startOffset), run)
    ensures var begin := if startOffset == 0 && env.src != [] && env.src[0] == '\U{FEFF}' then 1 else startOffset;
            && Init(env, startOffset).pos == begin && Init(env, startOffset).state == AfterNewline
            && forall i :: 0 <= i < |run| ==> begin <= run[i].range.start
  {
    hide IsRun;
    RunIsSorted(env, Init(env, startOffset), run);
  }

  // ---------- Nothing lost between tokens ----------

  /** What comes before the first character of a token is blank. */
  ghost predicate BlankBefore(env: Env, s: Lex, p: Progress) {
    var q := if p.Ready? then p.lex.pos else p.lex.start;
    s.pos <= q <= |env.src| && W.OnlyBlanks(env.src, s.pos, q)
  }

  lemma IndentationIsBlank(env: Env, s: Lex)
    requires s.WellPlaced(env.src) && s.start == s.pos
    ensures BlankBefore(env, s, EatIndentation(env, s))
  {
    hide W.OnlyBlanks, W.MeasureIndent, Width.TryCompare;
    W.MeasuresExactlyBlanks(env.src, s.start, s.pos, ROOT);
    NothingIsBlank(env.src, s.pos);
  }

  lemma WhitespaceIsBlank(env: Env, s: Lex)
    requires s.WellPlaced(env.src) && s.start == s.pos
    ensures BlankBefore(env, s, SkipWhitespace(env, s))
  {
    hide W.OnlyBlanks, W.SkipBlanks;
    W.SkipsExactlyBlanks(env.src, s.start, s.pos);
    NothingIsBlank(env.src, s.pos);
  }

  lemma NothingIsBlank(src: string, p: nat)
    requires p <= |src|
    ensures W.OnlyBlanks(src, p, p)
  {
  }

  lemma BeforeIsBlank(env: Env, s: Lex)
    requires s.WellPlaced(env.src) && s.start == s.pos
    ensures BlankBefore(env, s, BeforeCharacter(env, s))
  {
    hide LexFStringMiddleOrEnd, EatIndentation, SkipWhitespace, W.OnlyBlanks;
    NothingIsBlank(env.src, s.pos);
    if s.fstrings != [] && !s.fstrings[|s.fstrings| - 1].InExpression(s.nesting) {
      FStringTextEffect(env, s);
    }
    match FStringTextOrDedent(env, s)
    case Emitted(r) =>
    case Ready(m) =>
      IndentationIsBlank(env, m);
      WhitespaceIsBlank(env, m);
  }

  /** From any state, a step passes over blanks and joined line breaks only, and puts everything from there to
      the new cursor into its token: only an error's text can reach beyond the range of its token. */
  lemma StepLosesNothing(env: Env, s: Lex)
    requires s.pos <= |env.src|
    ensures var r := NextToken(env, s);
            && s.pos <= r.start <= r.pos <= |env.src|
            && W.OnlyBlanks(env.src, s.pos, r.start)
            && (r.kind != Unknown ==> r.range == Range(r.start, r.pos))
  {
    hide BeforeCharacter, LexCharacter, W.OnlyBlanks;
    var s' := s.(start := s.pos, value := NoValue, flags := NO_FLAGS);
    BeforeIsBlank(env, s');
    match BeforeCharacter(env, s')
    case Emitted(r) =>
    case Ready(m) => CharacterOrEnd(env, m);
  }

  /** The text that the tokens of a run cover is the source but for blanks and joined line breaks: between one
      token and the next there is nothing else, unless an error lies there. */
  lemma RunLosesNothing(env: Env, s: Lex, run: seq<Lex>, i: nat)
    requires IsRun(env, s, run) && i < |run|
    requires run[i].kind != Unknown && (i > 0 ==> run[i - 1].kind != Unknown)
    ensures var from := if i == 0 then s.pos else run[i - 1].range.end;
            && from <= run[i].range.start <= run[i].range.end <= |env.src|
            && W.OnlyBlanks(env.src, from, run[i].range.start)
  {
    hide NextToken, W.OnlyBlanks;
    assert IsStep(env, s, run, i);
    StepLosesNothing(env, Before(s, run, i));
    if i > 0 {
      assert IsStep(env, s, run, i - 1);
      StepLosesNothing(env, Before(s, run, i - 1));
    }
  }

  // ---------- Look-ahead ----------

  /** The token mark that a checkpoint forgets decides nothing: every step sets it first. */
  lemma MarkIsForgotten(env: Env, s: Lex, mark: nat)
    requires s.pos <= |env.src|
    ensures NextToken(env, s.(start := mark)) == NextToken(env, s)
    ensures Lexing(env, s.(start := mark)) == Lexing(env, s)
  {
    hide LexToken;
  }

  lemma {:induction false} ErrorsOnlyGrow(env: Env, s: Lex, run: seq<Lex>, n: nat)
    requires IsRun(env, s, run) && n <= |run|
    ensures s.errors <= Before(s, run, n).errors
  {
    hide NextToken;
    if n > 0 {
      ErrorsOnlyGrow(env, s, run, n - 1);
      assert IsStep(env, s, run, n - 1);
      StepKeepsOrder(env, Before(s, run, n - 1));
    }
  }

  /** Looking ahead any number of tokens and rewinding gives back the lexer, up to the token mark:
      the rest of the file lexes as if nobody had looked. */
  lemma LookAheadIsPure(env: Env, s: Lex, run: seq<Lex>)
    requires IsRun(env, s, run)
    ensures var back := Rewind(Before(s, run, |run|), Save(s));
            && back == s.(start := 0)
            && NextToken(env, back) == NextToken(env, s)
            && Lexing(env, back) == Lexing(env, s)
  {
    hide NextToken, Lexing;
    ErrorsOnlyGrow(env, s, run, |run|);
    MarkIsForgotten(env, s, 0);
  }
}
