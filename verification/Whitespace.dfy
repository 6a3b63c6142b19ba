/** Blanks between tokens, explicit line joining and the indentation of a logical line. */
module Whitespace {
  import opened Text
  import opened Tokens
  import opened Indentation

  const FORM_FEED: char := '\U{0C}'

  predicate IsBlank(c: char) {
    c == ' ' || c == '\t' || c == FORM_FEED
  }

  /** What follows a backslash: a line break to join over, the end of the text, or neither. */
  datatype Joining = Joined(pos: nat) | AtEnd | NotALineBreak

  /** Explicit line joining at the backslash at `p`. */
  function JoinLines(src: string, p: nat): (r: Joining)
    requires p < |src| && src[p] == '\\'
    ensures r.Joined? ==> p + 1 < r.pos <= |src| && IsNewline(src[r.pos - 1])
  {
    if First(src, p + 1) == '\r' then
      Joined(if First(src, p + 2) == '\n' then p + 3 else p + 2)
    else if p + 1 == |src| then AtEnd
    else if First(src, p + 1) == '\n' then Joined(p + 2)
    else NotALineBreak
  }

  /** The text from `p` to `q` is one whole line break. */
  predicate IsLineBreak(src: string, p: nat, q: nat)
    requires p <= q <= |src|
  {
    && src[p..q] in {"\n", "\r", "\r\n"}
    && !(src[p..q] == "\r" && q < |src| && src[q] == '\n')
  }

  /** A backslash joins lines exactly over one whole line break right behind it, be it LF, CR or CRLF. */
  lemma JoinsOneLineBreak(src: string, p: nat)
    requires p < |src| && src[p] == '\\'
    ensures forall q :: p < q <= |src| ==> (JoinLines(src, p) == Joined(q) <==> IsLineBreak(src, p + 1, q))
    ensures JoinLines(src, p) == AtEnd <==> p + 1 == |src|
  {
    forall q | p < q <= |src| ensures JoinLines(src, p) == Joined(q) <==> IsLineBreak(src, p + 1, q) {
      if q == p + 2 {
        assert src[p + 1..q] == [src[p + 1]];
      } else if q == p + 3 {
        assert src[p + 1..q] == [src[p + 1], src[p + 2]];
      }
    }
  }

  /** The error of a backslash at `p` that joins nothing, in a token that began at `start`. */
  function JoiningError(j: Joining, start: nat, p: nat): LexicalError
    requires !j.Joined? && start <= p
  {
    if j.AtEnd? then LexicalError(EofError, Range(start, p + 1))
    else LexicalError(LineContinuationError, Range(p, p + 1))
  }

  datatype Skip = Skipped(pos: nat) | SkipError(pos: nat, error: LexicalError)

  /** The first position at or after `p` that is neither a blank nor a joined line break. */
  function SkipBlanks(src: string, start: nat, p: nat): (r: Skip)
    requires start <= p <= |src|
    ensures p <= r.pos <= |src|
    ensures r.Skipped? && r.pos < |src| ==> !IsBlank(src[r.pos]) && src[r.pos] != '\\'
    ensures r.SkipError? ==>
              p < r.pos && start <= r.error.location.start <= r.error.location.end == r.pos
    decreases |src| - p
  {
    if p == |src| then Skipped(p)
    else if IsBlank(src[p]) then SkipBlanks(src, start, p + 1)
    else if src[p] == '\\' then
      var j := JoinLines(src, p);
      if j.Joined? then SkipBlanks(src, start, j.pos) else SkipError(p + 1, JoiningError(j, start, p))
    else Skipped(p)
  }

  /** From `p` to `q` there is nothing but blanks and joined line breaks. */
  predicate OnlyBlanks(src: string, p: nat, q: nat)
    requires p <= q <= |src|
    decreases q - p
  {
    || p == q
    || (IsBlank(src[p]) && OnlyBlanks(src, p + 1, q))
    || (src[p] == '\\' && JoinLines(src, p).Joined?
        && JoinLines(src, p).pos <= q && OnlyBlanks(src, JoinLines(src, p).pos, q))
  }

  /** A position from which nothing more can be passed over. */
  predicate StopsBlanks(src: string, p: nat)
    requires p <= |src|
  {
    p < |src| ==> !IsBlank(src[p]) && (src[p] == '\\' ==> !JoinLines(src, p).Joined?)
  }

  /** The error of a backslash that joins nothing: at the end of the text it covers the token so far, and elsewhere
      the backslash alone. */
  predicate IsJoiningError(src: string, start: nat, q: nat, error: LexicalError) {
    error == if q + 1 == |src| then LexicalError(EofError, Range(start, q + 1))
             else LexicalError(LineContinuationError, Range(q, q + 1))
  }

  lemma JoiningErrorIs(src: string, start: nat, p: nat)
    requires start <= p < |src| && src[p] == '\\'
    ensures var j := JoinLines(src, p); !j.Joined? ==> IsJoiningError(src, start, p, JoiningError(j, start, p))
  {
  }

  /** The skip passes over blanks and joined line breaks, over all of them and over nothing else; it fails
      exactly where a backslash that joins nothing comes next. */
  lemma {:induction false} SkipsExactlyBlanks(src: string, start: nat, p: nat)
    requires start <= p <= |src|
    ensures var r := SkipBlanks(src, start, p);
            var q := if r.Skipped? then r.pos else r.pos - 1;
            && p <= q && OnlyBlanks(src, p, q) && StopsBlanks(src, q)
            && (r.SkipError? <==> q < |src| && src[q] == '\\')
            && (r.SkipError? ==> IsJoiningError(src, start, q, r.error))
    decreases |src| - p
  {
    hide JoinLines, JoiningError, IsJoiningError;
    if p < |src| {
      if src[p] == '\\' {
        JoiningErrorIs(src, start, p);
      }
      if IsBlank(src[p]) {
        SkipsExactlyBlanks(src, start, p + 1);
      } else if src[p] == '\\' && JoinLines(src, p).Joined? {
        SkipsExactlyBlanks(src, start, JoinLines(src, p).pos);
      }
    }
  }

  /** The skip stops at the first character after blanks and joins. */
  lemma {:induction false} SkipsUpTo(src: string, start: nat, p: nat, q: nat)
    requires start <= p <= q <= |src| && OnlyBlanks(src, p, q)
    requires q < |src| ==> !IsBlank(src[q]) && src[q] != '\\'
    ensures SkipBlanks(src, start, p) == Skipped(q)
    decreases q - p
  {
    hide JoinLines;
    if p < q {
      SkipsUpTo(src, start, if src[p] == '\\' then JoinLines(src, p).pos else p + 1, q);
    }
  }

  datatype Indent = Measured(pos: nat, width: Width) | IndentError(pos: nat, error: LexicalError)

  /** The width of the blanks that begin a line. A form feed or a joined line begins the count anew. */
  function MeasureIndent(src: string, start: nat, p: nat, width: Width): (r: Indent)
    requires start <= p <= |src|
    ensures p <= r.pos <= |src|
    ensures r.Measured? ==> r.width.character <= width.character + (r.pos - p)
    ensures r.IndentError? ==>
              p < r.pos && start <= r.error.location.start <= r.error.location.end == r.pos
    decreases |src| - p
  {
    if p == |src| then Measured(p, width)
    else if src[p] == ' ' then MeasureIndent(src, start, p + 1, width.AddSpace())
    else if src[p] == '\t' then MeasureIndent(src, start, p + 1, width.AddTab())
    else if src[p] == FORM_FEED then MeasureIndent(src, start, p + 1, ROOT)
    else if src[p] == '\\' then
      var j := JoinLines(src, p);
      if j.Joined? then MeasureIndent(src, start, j.pos, ROOT) else IndentError(p + 1, JoiningError(j, start, p))
    else Measured(p, width)
  }

  lemma NothingToMeasure(src: string, start: nat, p: nat)
    requires start <= p < |src| && !IsBlank(src[p]) && src[p] != '\\'
    ensures MeasureIndent(src, start, p, ROOT) == Measured(p, ROOT)
  {
  }

  /** The width of the run of spaces and tabs that ends at `q`, going back no further than `from`. */
  function WidthBefore(src: string, from: nat, q: nat): Width
    requires from <= q <= |src|
  {
    if from < q && src[q - 1] == ' ' then WidthBefore(src, from, q - 1).AddSpace()
    else if from < q && src[q - 1] == '\t' then WidthBefore(src, from, q - 1).AddTab()
    else ROOT
  }

  /** The measured width is that of the spaces and tabs right before the first character that is no blank and joins
      no lines; whatever a form feed or a joined line left behind is forgotten. For a joined line that is not what
      section 2.1.8 of the Python Language Reference has: see `IndentRule`. */
  lemma {:induction false} IndentIsTheFinalRun(src: string, start: nat, from: nat, p: nat)
    requires start <= from <= p <= |src|
    requires MeasureIndent(src, start, p, WidthBefore(src, from, p)).Measured?
    ensures var r := MeasureIndent(src, start, p, WidthBefore(src, from, p));
            && r.width == WidthBefore(src, from, r.pos)
            && (r.pos < |src| ==> !IsBlank(src[r.pos]) && src[r.pos] != '\\')
    decreases |src| - p
  {
    hide JoinLines;
    if p < |src| {
      if IsBlank(src[p]) {
        IndentIsTheFinalRun(src, start, from, p + 1);
      } else if src[p] == '\\' && JoinLines(src, p).Joined? {
        IndentIsTheFinalRun(src, start, from, JoinLines(src, p).pos);
      }
    }
  }

  /** Measuring stops at the first character after blanks and joins, at whatever width it began. */
  lemma {:induction false} MeasuresUpTo(src: string, start: nat, p: nat, q: nat, width: Width)
    requires start <= p <= q <= |src| && OnlyBlanks(src, p, q)
    requires q < |src| ==> !IsBlank(src[q]) && src[q] != '\\'
    ensures MeasureIndent(src, start, p, width).Measured? && MeasureIndent(src, start, p, width).pos == q
    decreases q - p
  {
    hide JoinLines, Width.AddSpace, Width.AddTab;
    if p < q {
      if src[p] == '\\' {
        MeasuresUpTo(src, start, JoinLines(src, p).pos, q, ROOT);
      } else if src[p] == ' ' {
        MeasuresUpTo(src, start, p + 1, q, width.AddSpace());
      } else if src[p] == '\t' {
        MeasuresUpTo(src, start, p + 1, q, width.AddTab());
      } else {
        MeasuresUpTo(src, start, p + 1, q, ROOT);
      }
    }
  }

  lemma MeasuresWidthBefore(src: string, start: nat, p: nat)
    requires start <= p <= |src| && MeasureIndent(src, start, p, ROOT).Measured?
    ensures MeasureIndent(src, start, p, ROOT).width == WidthBefore(src, p, MeasureIndent(src, start, p, ROOT).pos)
  {
    assert WidthBefore(src, p, p) == ROOT;
    IndentIsTheFinalRun(src, start, p, p);
  }

  /** So does the measuring of an indentation. */
  lemma {:induction false} MeasuresExactlyBlanks(src: string, start: nat, p: nat, width: Width)
    requires start <= p <= |src|
    ensures var r := MeasureIndent(src, start, p, width);
            var q := if r.Measured? then r.pos else r.pos - 1;
            && p <= q && OnlyBlanks(src, p, q) && StopsBlanks(src, q)
            && (r.IndentError? <==> q < |src| && src[q] == '\\')
            && (r.IndentError? ==> IsJoiningError(src, start, q, r.error))
    decreases |src| - p
  {
    hide JoinLines, Width.AddSpace, Width.AddTab, JoiningError, IsJoiningError;
    if p < |src| {
      if src[p] == '\\' {
        JoiningErrorIs(src, start, p);
      }
      if src[p] == ' ' {
        MeasuresExactlyBlanks(src, start, p + 1, width.AddSpace());
      } else if src[p] == '\t' {
        MeasuresExactlyBlanks(src, start, p + 1, width.AddTab());
      } else if src[p] == FORM_FEED {
        MeasuresExactlyBlanks(src, start, p + 1, ROOT);
      } else if src[p] == '\\' && JoinLines(src, p).Joined? {
        MeasuresExactlyBlanks(src, start, JoinLines(src, p).pos, ROOT);
      }
    }
  }
}
