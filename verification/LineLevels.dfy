/** Which levels a line enters and leaves, by the width of the blanks that begin it (section 2.1.8). */
module LineLevels {
  import opened Text
  import opened Tokens
  import opened Indentation
  import opened Words
  import opened LexerSpec
  import opened LexerSteps
  import opened LexerRuns
  import opened LexerInvariants
  import W = Whitespace

  /** A logical line begins at the cursor, and its first character that is no blank is at `q`. */
  ghost predicate BeginsLine(env: Env, s: Lex, q: nat) {
    && s.state.AfterNewline? && s.fstrings == [] && s.pending == None
    && s.pos <= q < |env.src| && W.OnlyBlanks(env.src, s.pos, q) && !W.IsBlank(env.src[q])
    && env.src[q] != '\\'
  }

  /** The line is not empty and no comment line. */
  predicate HasContent(env: Env, q: nat)
    requires q < |env.src|
  {
    env.src[q] !in {'\n', '\r', '#', EOF_CHAR}
  }

  /** The step `s` to `r` leaves one level for a line of width `w`: with a Dedent if the line reaches some open
      level, and with an error if it does not. */
  ghost predicate LeavesFor(s: Lex, r: Lex, w: Width) {
    && s.indents != [] && r.indents == DropLast(s.indents) && r.pending == Some(w)
    && (if ReachesFrom(w, r.indents) then r.kind == TokenKind.Dedent
        else r.kind == Unknown && |r.errors| > |s.errors| && r.errors[|s.errors|].kind == IndentationError)
  }

  /** What a line of width `w` whose content begins at `q` gives first. */
  ghost predicate DecidesBy(s: Lex, r: Lex, w: Width, q: nat) {
    match Current(s.indents).TryCompare(w)
    case Some(Less) => r.kind == TokenKind.Indent && r.indents == s.indents + [w] && r.pending == None && r.pos == q
    case Some(Equal) =>
      r.kind != TokenKind.Indent && r.kind != TokenKind.Dedent && r.indents == s.indents && r.start == q
    case Some(Greater) => LeavesFor(s, r, w) && r.pos == q
    case None =>
      && r.kind == Unknown && r.indents == s.indents
      && |r.errors| > |s.errors| && r.errors[|s.errors|].kind == IndentationError
  }

  lemma DecideMeasured(env: Env, s: Lex, q: nat, w: Width)
    requires s.start == s.pos <= q < |env.src|
    requires s.fstrings == [] && s.pending == None
    ensures match HandleIndentation(s.(pos := q, state := NonEmptyLogicalLine), w)
            case Emitted(r) =>
              && DecidesBy(s, r, w, q) && Current(s.indents).TryCompare(w) != Some(Equal)
              && r.state == NonEmptyLogicalLine && r.fstrings == s.fstrings
            case Ready(m) =>
              && Current(s.indents).TryCompare(w) == Some(Equal)
              && m == s.(pos := q, state := NonEmptyLogicalLine)
  {
  }

  /** The width that a line is compared by is that of the spaces and tabs right before its content: deeper than the
      current level it gives an Indent of just that width, equal to it no token of its own, and less deep a Dedent
      or an error. */
  lemma LineDecides(env: Env, s: Lex, q: nat)
    requires BeginsLine(env, s, q) && HasContent(env, q)
    ensures DecidesBy(s, NextToken(env, s), W.WidthBefore(env.src, s.pos, q), q)
  {
    hide LexCharacter, HandleIndentation, W.MeasureIndent, W.OnlyBlanks, W.WidthBefore, Width.TryCompare;
    var s' := s.(start := s.pos, value := NoValue, flags := NO_FLAGS);
    var w := W.WidthBefore(env.src, s.pos, q);
    W.MeasuresUpTo(env.src, s.pos, s.pos, q, ROOT);
    W.MeasuresWidthBefore(env.src, s.pos, s.pos);
    DecideMeasured(env, s', q, w);
    match BeforeCharacter(env, s')
    case Emitted(r) =>
    case Ready(m) => CharacterOrEnd(env, m);
  }

  /** Empty lines and comment lines neither enter nor leave a level, however they are indented. */
  lemma BlankLineKeepsLevels(env: Env, s: Lex, q: nat)
    requires BeginsLine(env, s, q) && (IsNewline(env.src[q]) || env.src[q] == '#')
    ensures var r := NextToken(env, s);
            && r.indents == s.indents && r.pending == None && r.start == q
            && r.kind != TokenKind.Indent && r.kind != TokenKind.Dedent && r.kind != Newline
  {
    hide LexCharacter, HandleIndentation, W.MeasureIndent, W.OnlyBlanks, W.WidthBefore, Width.TryCompare;
    var s' := s.(start := s.pos, value := NoValue, flags := NO_FLAGS);
    W.MeasuresUpTo(env.src, s.pos, s.pos, q, ROOT);
    match BeforeCharacter(env, s')
    case Emitted(r) =>
    case Ready(m) => CharacterOrEnd(env, m);
  }

  /** Between the beginning of a line of width `w` and its content at `q`: the line is at its level, or on the way
      down to it. */
  ghost predicate OnTheWay(env: Env, s: Lex, w: Width, q: nat) {
    && s.pos == q < |env.src| && !W.IsBlank(env.src[q]) && env.src[q] != '\\'
    && !s.state.AfterNewline? && s.fstrings == []
    && (if s.pending.Some? then s.pending == Some(w) && ReachesFrom(w, s.indents) else Current(s.indents) == w)
  }

  lemma NothingToSkip(src: string, p: nat)
    requires p < |src| && !W.IsBlank(src[p]) && src[p] != '\\'
    ensures W.SkipBlanks(src, p, p) == W.Skipped(p)
  {
  }

  /** On the way down, a further level is left as long as the line lies below the current one. */
  lemma OneLevelDown(env: Env, s: Lex, w: Width, q: nat)
    requires OnTheWay(env, s, w, q)
    ensures var r := NextToken(env, s);
            if r.kind == TokenKind.Dedent then
              LeavesFor(s, r, w) && OnTheWay(env, r, w, q)
            else
              || r.kind == Unknown
              || (r.kind != TokenKind.Indent && r.start == q && r.indents == s.indents && Current(r.indents) == w)
  {
    hide LexCharacter, W.IsBlank;
    var s' := s.(start := s.pos, value := NoValue, flags := NO_FLAGS);
    NothingToSkip(env.src, q);
    if s.pending.Some? {
      CompareIsAnOrder(Current(s.indents), w, w);
      CompareIsAnOrder(w, Current(s.indents), w);
    }
    match BeforeCharacter(env, s')
    case Emitted(r) =>
    case Ready(m) => CharacterOrEnd(env, m);
  }

  /** A pending width decides before anything else is looked at: one more level is left as long as it lies below the
      current one, it is forgotten once it does not, and it is an error if the two do not compare. */
  lemma PendingDecides(env: Env, s: Lex, w: Width)
    requires s.pos < |env.src| && s.fstrings == [] && s.pending == Some(w) && !s.state.AfterNewline?
    ensures var r := NextToken(env, s);
            match Current(s.indents).TryCompare(w)
            case Some(Greater) => LeavesFor(s, r, w) && r.pos == s.pos
            case Some(_) =>
              && r.pending == None && r.kind != TokenKind.Indent
              && (r.indents == s.indents || (r.kind == TokenKind.Dedent && r.pos == |env.src|))
            case None =>
              && r.kind == Unknown && r.indents == s.indents && r.pending == None && r.pos == s.pos
              && |r.errors| > |s.errors| && r.errors[|s.errors|].kind == IndentationError
  {
    hide LexCharacter, W.SkipBlanks;
    var s' := s.(start := s.pos, value := NoValue, flags := NO_FLAGS);
    match BeforeCharacter(env, s')
    case Emitted(r) =>
    case Ready(m) => CharacterOrEnd(env, m);
  }

  lemma FirstStep(env: Env, s: Lex, q: nat)
    requires BeginsLine(env, s, q) && HasContent(env, q)
    ensures var r, w := NextToken(env, s), W.WidthBefore(env.src, s.pos, q);
            && (r.kind == TokenKind.Indent || r.kind == TokenKind.Dedent ==> OnTheWay(env, r, w, q))
            && (r.kind != TokenKind.Indent && r.kind != TokenKind.Dedent && r.kind != Unknown ==>
                  r.start == q && Current(r.indents) == w)
  {
    hide LexCharacter, HandleIndentation, W.MeasureIndent, W.OnlyBlanks, W.WidthBefore;
    LineDecides(env, s, q);
    var w := W.WidthBefore(env.src, s.pos, q);
    CompareIsAnOrder(Current(s.indents), w, w);
    var s' := s.(start := s.pos, value := NoValue, flags := NO_FLAGS);
    W.MeasuresUpTo(env.src, s.pos, s.pos, q, ROOT);
    W.MeasuresWidthBefore(env.src, s.pos, s.pos);
    DecideMeasured(env, s', q, w);
  }

  /** The tokens that come before a line's first own token. */
  ghost predicate OnlyLevels(run: seq<Lex>, n: nat)
    requires n <= |run|
  {
    forall i :: 0 <= i < n ==> run[i].kind == TokenKind.Indent || run[i].kind == TokenKind.Dedent
  }

  lemma {:induction false} StaysOnTheWay(env: Env, s: Lex, run: seq<Lex>, n: nat, q: nat)
    requires BeginsLine(env, s, q) && HasContent(env, q)
    requires IsRun(env, s, run) && 0 < n <= |run| && OnlyLevels(run, n)
    ensures OnTheWay(env, run[n - 1], W.WidthBefore(env.src, s.pos, q), q)
  {
    hide NextToken, OnTheWay, W.WidthBefore, W.OnlyBlanks;
    if n == 1 {
      assert IsStep(env, s, run, 0);
      FirstStep(env, s, q);
    } else {
      StaysOnTheWay(env, s, run, n - 1, q);
      assert IsStep(env, s, run, n - 1);
      OneLevelDown(env, run[n - 2], W.WidthBefore(env.src, s.pos, q), q);
    }
  }

  /** When the first own token of a line comes, after whatever Indent or Dedents the line gave, the current level is
      exactly the width of the blanks before that token. */
  lemma LineIsAtItsLevel(env: Env, s: Lex, run: seq<Lex>, n: nat, q: nat)
    requires BeginsLine(env, s, q) && HasContent(env, q)
    requires IsRun(env, s, run) && n < |run| && OnlyLevels(run, n)
    requires run[n].kind != TokenKind.Indent && run[n].kind != TokenKind.Dedent && run[n].kind != Unknown
    ensures run[n].start == q && Current(run[n].indents) == W.WidthBefore(env.src, s.pos, q)
  {
    hide NextToken, OnTheWay, W.WidthBefore, W.OnlyBlanks;
    assert IsStep(env, s, run, n);
    if n == 0 {
      FirstStep(env, s, q);
    } else {
      StaysOnTheWay(env, s, run, n, q);
      OneLevelDown(env, run[n - 1], W.WidthBefore(env.src, s.pos, q), q);
    }
  }

  lemma {:induction false} LevelsStay(env: Env, s: Lex, run: seq<Lex>, n: nat, m: nat)
    requires IsRun(env, s, run) && n <= m < |run|
    requires forall i :: n < i <= m ==>
               run[i].kind != TokenKind.Indent && run[i].kind != TokenKind.Dedent && run[i].kind != Unknown
    ensures run[m].indents == run[n].indents
    decreases m - n
  {
    hide NextToken;
    if n < m {
      LevelsStay(env, s, run, n, m - 1);
      assert IsStep(env, s, run, m);
      StepDepth(env, run[m - 1]);
    }
  }

  /** Two lines of one width, with nothing but tokens of their own between them, are at one level: the second gives
      neither Indent nor Dedent. */
  lemma EqualLinesAreOneBlock(env: Env, s: Lex, run: seq<Lex>, n: nat, m: nat, q: nat, q': nat)
    requires BeginsLine(env, s, q) && HasContent(env, q)
    requires IsRun(env, s, run) && n < m < |run| && OnlyLevels(run, n)
    requires forall i :: n <= i < m ==>
               run[i].kind != TokenKind.Indent && run[i].kind != TokenKind.Dedent && run[i].kind != Unknown
    requires BeginsLine(env, run[m - 1], q') && HasContent(env, q')
    requires W.WidthBefore(env.src, run[m - 1].pos, q') == W.WidthBefore(env.src, s.pos, q)
    ensures run[m].kind != TokenKind.Indent && run[m].kind != TokenKind.Dedent && run[m].indents == run[n].indents
  {
    hide NextToken, W.WidthBefore, BeginsLine;
    LineIsAtItsLevel(env, s, run, n, q);
    LevelsStay(env, s, run, n, m - 1);
    assert IsStep(env, s, run, m);
    LineDecides(env, run[m - 1], q');
    CompareIsAnOrder(Current(run[n].indents), Current(run[n].indents), ROOT);
  }
}
