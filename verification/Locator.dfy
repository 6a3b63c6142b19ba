/** Line positions found by scanning from an offset, without an index. */
module Locator {
  import opened Tokens
  import opened Sequences
  import opened Utf8
  import opened Lines
  import opened LineIndex

  function ContentsStart(text: seq<byte>): nat {
    if StartsWithBom(text) then 3 else 0
  }

  /** `Locator::line_start`. */
  function LineStart(text: seq<byte>, offset: nat): nat
    requires offset <= |text|
  {
    var i := AfterLastBreak(text, offset);
    if i > 0 then i else ContentsStart(text)
  }

  /** `Locator::line_end`, before the line break; `Lines.LineEnd` is `Locator::full_line_end`, after it. */
  function LineEndBefore(text: seq<byte>, offset: nat): nat
    requires offset <= |text|
  {
    FindBreak(text, offset)
  }

  lemma NoBreakBeforeEnd(text: seq<byte>, offset: nat, k: nat)
    requires offset <= k < |text| && k + 1 < LineEnd(text, offset)
    ensures !EndsBreak(text, k)
  {
  }

  lemma StartIsAfterBreak(text: seq<byte>, row: nat)
    requires row < |StartsWithin(text, |text|)|
    ensures var start := StartsWithin(text, |text|)[row];
            start <= |text| && (start > 0 ==> EndsBreak(text, start - 1)) && (row > 0 ==> start > 0)
  {
    StartsAreSorted(text, |text|);
    assert StartsWithin(text, |text|)[row] in StartsWithin(text, |text|);
  }

  lemma BreakIsFollowedByStart(text: seq<byte>, i: nat) returns (row: nat)
    requires i < |text| && EndsBreak(text, i)
    ensures row < |StartsWithin(text, |text|)| && StartsWithin(text, |text|)[row] == i + 1
  {
    StartsAreSorted(text, |text|);
    assert i + 1 in StartsWithin(text, |text|);
    row :| 0 <= row < |StartsWithin(text, |text|)| && StartsWithin(text, |text|)[row] == i + 1;
  }

  /** Scanning forward for the end of the line gives the index's line end, at every offset of every text. */
  lemma FullLineEndAgrees(index: Index, text: seq<byte>, offset: nat, s: SearchResult)
    requires IsIndexOf(index, text) && offset <= |text| && IsSearchResult(index.starts, offset, s)
    ensures RowOf(s) >= 0 && LineEnd(text, offset) == LineEndOf(index, RowOf(s), text)
  {
    hide StartsWithin, IsSearchResult;
    RowCountsBreaks(text, offset, s);
    StartsAreSorted(text, |text|);
    var row, e := RowOf(s), LineEnd(text, offset);
    if row + 1 < |index.starts| {
      StartIsAfterBreak(text, row + 1);
      var next := index.starts[row + 1];
      if next < e {
        NoBreakBeforeEnd(text, offset, next - 1);
        assert false;
      }
    }
    if offset < e && EndsBreak(text, e - 1) {
      var k := BreakIsFollowedByStart(text, e - 1);
      assert row < k;
    }
  }

  /** Scanning backward for the start of the line gives the index's line start exactly when the offset is not
      between the two bytes of a CRLF and the line is not one that a byte order mark begins. */
  lemma LineStartAgrees(index: Index, text: seq<byte>, offset: nat, s: SearchResult)
    requires IsIndexOf(index, text) && offset <= |text| && IsSearchResult(index.starts, offset, s)
    ensures 0 <= RowOf(s) < |index.starts|
    ensures LineStart(text, offset) == LineStartOf(index, RowOf(s), text) <==>
              !SplitsCrLf(text, offset) && !(RowOf(s) == 0 && StartsWithBom(text))
  {
    hide StartsWithin, IsSearchResult, AfterLastBreak;
    RowCountsBreaks(text, offset, s);
    StartsAreSorted(text, |text|);
    var row := RowOf(s);
    var start := index.starts[row];
    var i := AfterLastBreak(text, offset);
    assert start in index.starts;
    assert start > 0 ==> IsBreak(text[start - 1]);
    assert start <= i;
    if i > 0 && EndsBreak(text, i - 1) {
      assert i in index.starts;
      var k :| 0 <= k < |index.starts| && index.starts[k] == i;
      assert k <= row;
    }
  }

  /** Between the two ends of a line there is exactly its line break. */
  lemma LineEndsDifferByBreak(text: seq<byte>, offset: nat)
    requires offset <= |text|
    ensures var a, b := LineEndBefore(text, offset), LineEnd(text, offset);
            && offset <= a <= b <= |text|
            && text[a..b] in {[], [LF], [CR], [CR, LF]}
            && (text[a..b] == [] <==> a == |text|)
            && !SplitsCrLf(text, b)
  {
    var a, b := LineEndBefore(text, offset), LineEnd(text, offset);
    if a == |text| {
      assert text[a..b] == [];
    } else if b == a + 2 {
      assert text[a..b] == [CR, LF];
    } else {
      assert text[a..b] == [text[a]];
    }
  }
}
