/** A sorted index of line starts, and the positions it is asked for. */
module LineIndex {
  import opened Tokens
  import opened Sequences
  import opened Utf8
  import opened Lines

  /** A line break ends with the byte at `i`; in a CRLF that is the line feed. */
  predicate EndsBreak(text: seq<byte>, i: nat)
    requires i < |text|
  {
    text[i] == LF || (text[i] == CR && !(i + 1 < |text| && text[i + 1] == LF))
  }

  /** The starts of the lines that begin within the first `n` bytes, or right after them. */
  function StartsWithin(text: seq<byte>, n: nat): (starts: seq<nat>)
    requires n <= |text|
  {
    if n == 0 then [0]
    else StartsWithin(text, n - 1) + if EndsBreak(text, n - 1) then [n] else []
  }

  /** The line breaks that end within the first `n` bytes. */
  function BreaksWithin(text: seq<byte>, n: nat): nat
    requires n <= |text|
  {
    if n == 0 then 0 else BreaksWithin(text, n - 1) + if EndsBreak(text, n - 1) then 1 else 0
  }

  /** The offsets of the bytes after line breaks, with 0: `LineIndex::from_source_text`. */
  datatype Index = Index(starts: seq<nat>, isAscii: bool)

  ghost predicate IsIndexOf(index: Index, text: seq<byte>) {
    && index.starts == StartsWithin(text, |text|)
    && (index.isAscii <==> forall i :: 0 <= i < |text| ==> IsAsciiByte(text[i]))
  }

  method FromSourceText(text: seq<byte>) returns (index: Index)
    ensures IsIndexOf(index, text)
  {
    var starts, utf8 := [0], false;
    for i := 0 to |text|
      invariant starts == StartsWithin(text, i)
      invariant !utf8 <==> forall k :: 0 <= k < i ==> IsAsciiByte(text[k])
    {
      utf8 := utf8 || !IsAsciiByte(text[i]);
      if text[i] == CR && i + 1 < |text| && text[i + 1] == LF {
        continue;
      }
      if IsBreak(text[i]) {
        starts := starts + [i + 1];
      }
    }
    index := Index(starts, !utf8);
  }

  /** The starts begin at 0, increase strictly, stay in the text, and are the positions after line breaks. */
  lemma {:induction false} StartsAreSorted(text: seq<byte>, n: nat)
    requires n <= |text|
    ensures var starts := StartsWithin(text, n);
            && |starts| == BreaksWithin(text, n) + 1 && starts[0] == 0
            && (forall i :: 0 <= i < |starts| ==> starts[i] <= n)
            && (forall i, j :: 0 <= i < j < |starts| ==> starts[i] < starts[j])
            && (forall x :: x in starts <==> x == 0 || (1 <= x <= n && EndsBreak(text, x - 1)))
  {
    if n > 0 {
      StartsAreSorted(text, n - 1);
    }
  }

  lemma {:induction false} StartsArePrefix(text: seq<byte>, m: nat, n: nat)
    requires m <= n <= |text|
    ensures StartsWithin(text, m) <= StartsWithin(text, n)
    ensures forall i :: |StartsWithin(text, m)| <= i < |StartsWithin(text, n)| ==> m < StartsWithin(text, n)[i]
    decreases n - m
  {
    if m < n {
      StartsArePrefix(text, m, n - 1);
    }
  }

  // ---------- Queries ----------

  /** `LineIndex::line_index`, counted from zero. */
  function RowOf(s: SearchResult): (row: int) {
    match s
    case Found(row) => row
    case NotFound(next) => next - 1
  }

  /** The row that the search finds is the number of line breaks that end at or before the offset. */
  lemma RowCountsBreaks(text: seq<byte>, offset: nat, s: SearchResult)
    requires offset <= |text| && IsSearchResult(StartsWithin(text, |text|), offset, s)
    ensures RowOf(s) == BreaksWithin(text, offset)
    ensures var starts := StartsWithin(text, |text|);
            && 0 <= RowOf(s) < |starts| && starts[RowOf(s)] <= offset
            && (RowOf(s) + 1 < |starts| ==> offset < starts[RowOf(s) + 1])
            && (s.Found? <==> offset in starts)
  {
    var starts, before := StartsWithin(text, |text|), StartsWithin(text, offset);
    StartsAreSorted(text, |text|);
    StartsAreSorted(text, offset);
    StartsArePrefix(text, offset, |text|);
    var last := |before| - 1;
    assert starts[last] == before[last] <= offset;
    assert last + 1 < |starts| ==> offset < starts[last + 1];
  }

  predicate StartsWithBom(text: seq<byte>) {
    |text| >= 3 && text[0] == 0xEF && text[1] == 0xBB && text[2] == 0xBF
  }

  /** A character begins at `offset`, or the text ends there. */
  predicate IsBoundary(text: seq<byte>, offset: nat) {
    offset == |text| || (offset < |text| && !Continues(text[offset]))
  }

  /** The row and column of an offset, both counted from zero: `LineIndex::source_location`. */
  function SourceLocation(index: Index, text: seq<byte>, offset: nat, s: SearchResult): (r: (nat, nat))
    requires IsIndexOf(index, text) && IsSearchResult(index.starts, offset, s) && IsBoundary(text, offset)
  {
    RowCountsBreaks(text, offset, s);
    match s
    case Found(row) => (row, 0)
    case NotFound(next) =>
      var start := index.starts[next - 1];
      if index.isAscii then (next - 1, offset - start)
      else
        var start' := if start == 0 && StartsWithBom(text) then 3 else start;
        StartsAreSorted(text, |text|);
        (next - 1, CharCount(text[start'..offset]))
  }

  lemma NothingToCount()
    ensures CharCount([]) == 0
  {
  }

  /** The two ways to compute a column agree: with or without the ASCII shortcut it is the number of characters
      between the line start and the offset, not counting a byte order mark. */
  lemma ColumnCountsCharacters(index: Index, text: seq<byte>, offset: nat, s: SearchResult)
    requires IsIndexOf(index, text) && IsSearchResult(index.starts, offset, s) && IsBoundary(text, offset)
    ensures 0 <= RowOf(s) < |index.starts| && index.starts[RowOf(s)] <= offset
    ensures var start := index.starts[RowOf(s)];
            var from := if start == 0 && StartsWithBom(text) && offset > 0 then 3 else start;
            from <= offset && SourceLocation(index, text, offset, s)
            == (BreaksWithin(text, offset), CharCount(text[from..offset]))
  {
    hide StartsWithin, BreaksWithin, CharCount;
    RowCountsBreaks(text, offset, s);
    StartsAreSorted(text, |text|);
    var start := index.starts[RowOf(s)];
    if s.Found? {
      assert text[start..offset] == [];
      NothingToCount();
    } else if index.isAscii {
      AsciiCount(text[start..offset]);
    }
  }

  /** `LineIndex::line_start`: the end of the text for the row after the last. */
  function LineStartOf(index: Index, row: nat, text: seq<byte>): nat
    requires row <= |index.starts|
  {
    if row == |index.starts| then |text| else index.starts[row]
  }

  /** `LineIndex::line_end`, up to and including the line break. */
  function LineEndOf(index: Index, row: nat, text: seq<byte>): nat {
    if row + 1 >= |index.starts| then |text| else index.starts[row + 1]
  }

  /** `LineIndex::line_range`. */
  function LineRangeOf(index: Index, row: nat, text: seq<byte>): (nat, nat)
    requires row <= |index.starts|
  {
    if row == |index.starts| then (|text|, |text|)
    else (LineStartOf(index, row, text), LineStartOf(index, row + 1, text))
  }

  /** The line ranges tile the text, and each ends where `line_end` says. */
  lemma LineRangesTile(index: Index, text: seq<byte>, row: nat)
    requires IsIndexOf(index, text) && row < |index.starts|
    ensures LineRangeOf(index, 0, text).0 == 0
    ensures LineRangeOf(index, row, text).0 <= LineRangeOf(index, row, text).1
            == LineRangeOf(index, row + 1, text).0 <= |text|
    ensures LineRangeOf(index, row, text).1 == LineEndOf(index, row, text)
    ensures row == |index.starts| - 1 ==> LineRangeOf(index, row, text).1 == |text|
  {
    StartsAreSorted(text, |text|);
  }

  // ---------- The index and the iterator ----------

  function OffsetsOf(lines: seq<Line>): (offsets: seq<nat>) {
    seq(|lines|, i requires 0 <= i < |lines| => lines[i].offset)
  }

  lemma NoBreakInside(text: seq<byte>, p: nat, n: nat)
    requires p < |text| && !SplitsCrLf(text, p)
    requires p <= n < LineEnd(text, p) - 1
    ensures !EndsBreak(text, n)
  {
  }

  lemma {:induction false} SameStarts(text: seq<byte>, p: nat, n: nat)
    requires p <= n <= |text| && (p < |text| ==> n <= LineEnd(text, p) - 1) && !SplitsCrLf(text, p)
    ensures StartsWithin(text, n) == StartsWithin(text, p)
    decreases n - p
  {
    if p < n {
      NoBreakInside(text, p, n - 1);
      SameStarts(text, p, n - 1);
    }
  }

  lemma OffsetsConcat(a: seq<Line>, b: seq<Line>)
    ensures OffsetsOf(a + b) == OffsetsOf(a) + OffsetsOf(b)
  {
  }

  /** The starts before the line that begins at `p`. */
  function StartsBefore(text: seq<byte>, p: nat): seq<nat>
    requires p <= |text|
  {
    if p == 0 then [] else StartsWithin(text, p - 1)
  }

  lemma LinesStep(text: seq<byte>, p: nat)
    requires p < |text|
    ensures var e := LineEnd(text, p);
            OffsetsOf(LinesWithTrailing(text, p)) ==
              [p] + if e < |text| then OffsetsOf(LinesWithTrailing(text, e))
                    else if IsBreak(text[|text| - 1]) then [|text|] else []
  {
    var e := LineEnd(text, p);
    var first := Line(text[p..e], p);
    var tail := if IsBreak(text[|text| - 1]) then [Line([], |text|)] else [];
    var rest := LinesFrom(text, e, 0) + tail;
    assert LinesWithTrailing(text, p) == [first] + rest;
    OffsetsConcat([first], rest);
    assert OffsetsOf([first]) == [p];
    if e == |text| {
      assert rest == tail;
      assert OffsetsOf(tail) == if IsBreak(text[|text| - 1]) then [|text|] else [];
    }
  }

  /** From any line start on, the index lists the same starts as the iterator. */
  lemma {:induction false} StartsFollowLines(text: seq<byte>, p: nat)
    requires p < |text| && !SplitsCrLf(text, p) && (p > 0 ==> EndsBreak(text, p - 1))
    ensures StartsWithin(text, |text|) == StartsBefore(text, p) + OffsetsOf(LinesWithTrailing(text, p))
    decreases |text| - p
  {
    hide LinesWithTrailing, OffsetsOf, LineEnd;
    var e := LineEnd(text, p);
    SameStarts(text, p, e - 1);
    LinesStep(text, p);
    assert StartsWithin(text, e - 1) == StartsBefore(text, p) + [p];
    if e < |text| {
      EndsAtBreak(text, p);
      StartsFollowLines(text, e);
      assert StartsBefore(text, p) + [p] + OffsetsOf(LinesWithTrailing(text, e))
          == StartsBefore(text, p) + ([p] + OffsetsOf(LinesWithTrailing(text, e)));
    }
  }

  lemma EndsAtBreak(text: seq<byte>, p: nat)
    requires p < |text| && LineEnd(text, p) < |text|
    ensures EndsBreak(text, LineEnd(text, p) - 1) && !SplitsCrLf(text, LineEnd(text, p))
  {
  }

  /** On any text but the empty one, the index lists exactly the starts of the lines that the iterator with
      a trailing line yields. On the empty text the index has a line and the iterator none. */
  lemma IndexMatchesIterator(text: seq<byte>)
    ensures text != [] ==> StartsWithin(text, |text|) == OffsetsOf(LinesWithTrailing(text, 0))
    ensures text == [] ==> StartsWithin(text, |text|) == [0] && LinesWithTrailing(text, 0) == []
  {
    if text != [] {
      StartsFollowLines(text, 0);
    }
  }
}
