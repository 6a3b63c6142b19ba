/** Lines of a text, from either end, with LF, CR and CRLF as line breaks. */
module Lines {
  import opened Tokens
  import opened Sequences
  import opened Utf8

  const LF: byte := 10
  const CR: byte := 13

  datatype Line = Line(text: seq<byte>, offset: nat)

  predicate IsBreak(b: byte) {
    b == LF || b == CR
  }

  /** A line break that spans `i` and the byte before it. */
  predicate SplitsCrLf(text: seq<byte>, i: nat)
    requires i <= |text|
  {
    0 < i < |text| && text[i - 1] == CR && text[i] == LF
  }

  /** The first line-break byte at or after `p`, or the end. */
  function FindBreak(text: seq<byte>, p: nat): (i: nat)
    requires p <= |text|
    ensures p <= i <= |text|
    ensures forall k :: p <= k < i ==> !IsBreak(text[k])
    ensures i < |text| ==> IsBreak(text[i])
    decreases |text| - p
  {
    if p == |text| || IsBreak(text[p]) then p else FindBreak(text, p + 1)
  }

  /** The position after the line break at `i`. */
  function BreakEnd(text: seq<byte>, i: nat): (e: nat)
    requires i < |text|
    ensures i < e <= |text|
  {
    if text[i] == CR && i + 1 < |text| && text[i + 1] == LF then i + 2 else i + 1
  }

  /** The position after the line that `p` is on, including its line break. */
  function LineEnd(text: seq<byte>, p: nat): (e: nat)
    requires p <= |text|
    ensures p <= e <= |text| && (p < |text| ==> p < e)
  {
    var i := FindBreak(text, p);
    if i == |text| then i else BreakEnd(text, i)
  }

  /** The position after the last line-break byte before `p`, or 0. */
  function AfterLastBreak(text: seq<byte>, p: nat): (i: nat)
    requires p <= |text|
    ensures i <= p
    ensures forall k :: i <= k < p ==> !IsBreak(text[k])
    ensures i > 0 ==> IsBreak(text[i - 1])
  {
    if p == 0 || IsBreak(text[p - 1]) then p else AfterLastBreak(text, p - 1)
  }

  // ---------- The lines, front to back ----------

  /** The lines of `text[p..]`, each with its line break and its offset in the text that begins at `base`. */
  function LinesFrom(text: seq<byte>, p: nat, base: nat): (lines: seq<Line>)
    requires p <= |text|
    decreases |text| - p
  {
    if p == |text| then []
    else
      var e := LineEnd(text, p);
      [Line(text[p..e], base + p)] + LinesFrom(text, e, base)
  }

  function Concat(lines: seq<Line>): seq<byte> {
    if lines == [] then [] else lines[0].text + Concat(lines[1..])
  }

  /** A line has no line break but at its end, and one at its end unless the text ends there. */
  ghost predicate IsLine(line: Line, isLast: bool) {
    var n := |line.text|;
    && n > 0
    && (forall k :: 0 <= k < n - 1 && IsBreak(line.text[k]) ==>
         k == n - 2 && line.text[k] == CR && line.text[k + 1] == LF)
    && (!isLast ==> IsBreak(line.text[n - 1]))
  }

  /** Where a line of the text lies, and what it is. */
  ghost predicate IsLineAt(text: seq<byte>, line: Line, base: nat) {
    && base <= line.offset && line.offset - base + |line.text| <= |text|
    && line.text == text[line.offset - base..line.offset - base + |line.text|]
    && IsLine(line, line.offset - base + |line.text| == |text|)
    && !SplitsCrLf(text, line.offset - base)
  }

  lemma FirstLineIsLine(text: seq<byte>, p: nat, base: nat)
    requires p < |text|
    ensures var e := LineEnd(text, p); IsLine(Line(text[p..e], base + p), e == |text|)
  {
    var e := LineEnd(text, p);
    var line := Line(text[p..e], base + p);
    forall k | 0 <= k < e - p - 1 && IsBreak(line.text[k])
      ensures k == e - p - 2 && line.text[k] == CR && line.text[k + 1] == LF
    {
      BreakIsNearEnd(text, p, p + k);
    }
    if e < |text| {
      assert line.text[e - p - 1] == text[e - 1];
    }
  }

  lemma BreakIsNearEnd(text: seq<byte>, p: nat, k: nat)
    requires p <= k < |text| && k + 1 < LineEnd(text, p) && IsBreak(text[k])
    ensures k + 2 == LineEnd(text, p) && text[k] == CR && text[k + 1] == LF
  {
  }

  lemma LineEndIsWhole(text: seq<byte>, p: nat)
    requires p < |text|
    ensures !SplitsCrLf(text, LineEnd(text, p))
  {
  }

  lemma FirstLine(text: seq<byte>, p: nat, base: nat)
    requires p < |text| && !SplitsCrLf(text, p)
    ensures var e := LineEnd(text, p); IsLineAt(text, Line(text[p..e], base + p), base) && !SplitsCrLf(text, e)
  {
    hide LineEnd, IsLine;
    FirstLineIsLine(text, p, base);
    LineEndIsWhole(text, p);
  }

  /** The lines partition the text: each is one, their texts concatenate to it, each begins where the
      one before ends, and no CRLF lies across two of them. */
  lemma {:induction false} LinesPartition(text: seq<byte>, p: nat, base: nat)
    requires p <= |text| && !SplitsCrLf(text, p)
    ensures var lines := LinesFrom(text, p, base);
            && Concat(lines) == text[p..]
            && (forall i :: 0 <= i < |lines| ==> IsLineAt(text, lines[i], base))
            && (lines != [] ==> lines[0].offset == base + p)
            && (forall i :: 0 < i < |lines| ==> lines[i].offset == lines[i - 1].offset + |lines[i - 1].text|)
    decreases |text| - p
  {
    hide IsLineAt, LineEnd;
    if p < |text| {
      var e := LineEnd(text, p);
      FirstLine(text, p, base);
      LinesPartition(text, e, base);
      assert text[p..] == text[p..e] + text[e..];
      var lines, rest := LinesFrom(text, p, base), LinesFrom(text, e, base);
      assert lines[0] == Line(text[p..e], base + p) && lines[1..] == rest;
      assert forall i :: 0 < i < |lines| ==> lines[i] == rest[i - 1];
    }
  }

  // ---------- The double-ended iterator ----------

  datatype Iter = Iter(text: seq<byte>, offset: nat, offsetBack: nat) {
    predicate Valid() {
      text != [] ==> offsetBack == offset + |text|
    }

    /** The lines not yet returned from either end. */
    function Remaining(): seq<Line> {
      LinesFrom(text, 0, offset)
    }
  }

  function TakeFirst(it: Iter): (Option<Line>, Iter) {
    if it.text == [] then (None, it)
    else
      var i := FindBreak(it.text, 0);
      if i == |it.text| then (Some(Line(it.text, it.offset)), it.(text := []))
      else
        var n := BreakEnd(it.text, i);
        (Some(Line(it.text[..n], it.offset)), it.(text := it.text[n..], offset := it.offset + n))
  }

  /** Where the text without its last line break ends. */
  function TrimmedEnd(text: seq<byte>): (e: nat)
    requires text != []
    ensures e <= |text|
  {
    var n := |text|;
    if text[n - 1] == LF && n > 1 && text[n - 2] == CR then n - 2
    else if IsBreak(text[n - 1]) then n - 1
    else n
  }

  function TakeLast(it: Iter): (Option<Line>, Iter)
    requires it.Valid()
  {
    if it.text == [] then (None, it)
    else
      var e := AfterLastBreak(it.text, TrimmedEnd(it.text));
      if e > 0 then
        var back := it.offsetBack - (|it.text| - e);
        (Some(Line(it.text[e..], back)), it.(text := it.text[..e], offsetBack := back))
      else (Some(Line(it.text, it.offsetBack - |it.text|)), it.(text := []))
  }

  lemma {:induction false} LinesOfSuffix(text: seq<byte>, n: nat, p: nat, base: nat)
    requires n <= p <= |text|
    ensures LinesFrom(text[n..], p - n, base + n) == LinesFrom(text, p, base)
    decreases |text| - p
  {
    hide LineEnd;
    if p < |text| {
      var rest := text[n..];
      var e := LineEnd(text, p);
      SameLineEnd(text, n, p);
      LinesOfSuffix(text, n, e, base);
      assert rest[p - n..e - n] == text[p..e];
    }
  }

  lemma SameLineEnd(text: seq<byte>, n: nat, p: nat)
    requires n <= p <= |text|
    ensures LineEnd(text[n..], p - n) == LineEnd(text, p) - n
  {
    var i := FindBreak(text, p);
    var j := FindBreak(text[n..], p - n);
    assert i < |text| ==> text[n..][i - n] == text[i];
    assert j + n < |text| ==> text[n..][j] == text[j + n];
  }

  /** Going forward returns the first line that remains. */
  lemma NextIsFirst(it: Iter)
    requires it.Valid()
    ensures TakeFirst(it).1.Valid()
    ensures if it.Remaining() == [] then TakeFirst(it) == (None, it)
            else TakeFirst(it).0 == Some(it.Remaining()[0]) && TakeFirst(it).1.Remaining() == it.Remaining()[1..]
  {
    if it.text != [] {
      var e := LineEnd(it.text, 0);
      LinesOfSuffix(it.text, e, e, it.offset);
      assert it.text[0..e] == it.text[..e];
      if FindBreak(it.text, 0) == |it.text| {
        assert it.text[..e] == it.text;
      }
    }
  }

  /** Where a line begins, the lines so far and the lines from there on are all the lines. */
  lemma {:induction false} LinesSplitAt(text: seq<byte>, p: nat, n: nat, base: nat)
    requires p <= n <= |text|
    requires n > 0 && IsBreak(text[n - 1]) && !SplitsCrLf(text, n)
    ensures LinesFrom(text, p, base) == LinesFrom(text[..n], p, base) + LinesFrom(text, n, base)
    decreases |text| - p
  {
    hide LineEnd, SplitsCrLf;
    if p < n {
      var e := LineEnd(text, p);
      SameLineEndInPrefix(text, p, n);
      LinesSplitAt(text, e, n, base);
      assert text[..n][p..e] == text[p..e];
      assert LinesFrom(text[..n], p, base) == [Line(text[p..e], base + p)] + LinesFrom(text[..n], e, base);
    }
  }

  lemma SameLineEndInPrefix(text: seq<byte>, p: nat, n: nat)
    requires p < n <= |text|
    requires IsBreak(text[n - 1]) && !SplitsCrLf(text, n)
    ensures LineEnd(text[..n], p) == LineEnd(text, p) <= n
  {
    var i := FindBreak(text, p);
    var j := FindBreak(text[..n], p);
    assert i <= n - 1;
    assert text[..n][i] == text[i];
    assert j < n ==> text[..n][j] == text[j];
  }

  /** Going backward returns the last line that remains. */
  lemma NextBackIsLast(it: Iter)
    requires it.Valid()
    ensures TakeLast(it).1.Valid()
    ensures var lines := it.Remaining();
            if lines == [] then TakeLast(it) == (None, it)
            else TakeLast(it).0 == Some(lines[|lines| - 1]) && TakeLast(it).1.Remaining() == lines[..|lines| - 1]
  {
    if it.text != [] {
      var text := it.text;
      var e := AfterLastBreak(text, TrimmedEnd(text));
      OneLineFrom(text, e);
      assert text[e..|text|] == text[e..];
      assert LinesFrom(text, e, it.offset) == [Line(text[e..], it.offset + e)];
      if e > 0 {
        LinesSplitAt(text, 0, e, it.offset);
      } else {
        assert text[0..] == text;
      }
    }
  }

  lemma OneLineFrom(text: seq<byte>, e: nat)
    requires text != [] && e == AfterLastBreak(text, TrimmedEnd(text))
    ensures e < |text| && LineEnd(text, e) == |text| && !SplitsCrLf(text, e)
  {
  }

  /** Takes one line per choice, from the front where it is true: the iterator afterwards, with the
      lines taken from the front and those taken from the back in the order they came. */
  function Take(it: Iter, fromFront: seq<bool>): (Iter, seq<Line>, seq<Line>)
    requires it.Valid()
    ensures Take(it, fromFront).0.Valid()
    decreases |fromFront|
  {
    if fromFront == [] then (it, [], [])
    else
      var n := |fromFront| - 1;
      var (it', front, back) := Take(it, fromFront[..n]);
      NextIsFirst(it');
      NextBackIsLast(it');
      var (line, it'') := if fromFront[n] then TakeFirst(it') else TakeLast(it');
      var taken := if line.Some? then [line.value] else [];
      if fromFront[n] then (it'', front + taken, back) else (it'', front, back + taken)
  }

  lemma FirstGoesToFront<T>(front: seq<T>, lines: seq<T>, end: seq<T>)
    requires lines != []
    ensures front + [lines[0]] + lines[1..] + end == front + lines + end
  {
    assert lines == [lines[0]] + lines[1..];
  }

  lemma LastGoesToBack<T>(front: seq<T>, lines: seq<T>, back: seq<T>)
    requires lines != []
    ensures var n := |lines| - 1; front + lines[..n] + Reverse(back + [lines[n]]) == front + lines + Reverse(back)
  {
    hide Reverse;
    ReverseAppends(back, lines[|lines| - 1]);
    assert lines == lines[..|lines| - 1] + [lines[|lines| - 1]];
  }

  /** However the two ends are interleaved, every line comes exactly once: what came from the front, what
      remains and what came from the back, reversed, are the lines of the text. */
  lemma {:induction false} InterleavingYieldsEachLineOnce(it: Iter, fromFront: seq<bool>)
    requires it.Valid()
    ensures var (rest, front, back) := Take(it, fromFront);
            front + rest.Remaining() + Reverse(back) == it.Remaining()
    decreases |fromFront|
  {
    hide TakeLast, TakeFirst, LinesFrom;
    if fromFront != [] {
      var n := |fromFront| - 1;
      InterleavingYieldsEachLineOnce(it, fromFront[..n]);
      var (it', front, back) := Take(it, fromFront[..n]);
      NextIsFirst(it');
      NextBackIsLast(it');
      var lines := it'.Remaining();
      if lines != [] {
        FirstGoesToFront(front, lines, Reverse(back));
        LastGoesToBack(front, lines, back);
      } else {
        assert back + [] == back && front + [] == front;
      }
    }
  }

  class UniversalNewlineIterator {
    var text: seq<byte>
    var offset: nat
    var offsetBack: nat

    ghost function State(): Iter
      reads this
    {
      Iter(text, offset, offsetBack)
    }

    constructor WithOffset(text: seq<byte>, offset: nat)
      ensures State() == Iter(text, offset, offset + |text|)
    {
      this.text, this.offset, this.offsetBack := text, offset, offset + |text|;
    }

    method Next() returns (line: Option<Line>)
      requires State().Valid()
      modifies this
      ensures (line, State()) == TakeFirst(old(State())) && State().Valid()
      ensures var lines := old(State()).Remaining();
              if lines == [] then line == None && State() == old(State())
              else line == Some(lines[0]) && State().Remaining() == lines[1..]
    {
      NextIsFirst(State());
      if text == [] {
        return None;
      }
      var i := FindBreak(text, 0);
      if i < |text| {
        var n := BreakEnd(text, i);
        line := Some(Line(text[..n], offset));
        text := text[n..];
        offset := offset + n;
      } else {
        line := Some(Line(text, offset));
        text := [];
      }
    }

    method NextBack() returns (line: Option<Line>)
      requires State().Valid()
      modifies this
      ensures (line, State()) == TakeLast(old(State())) && State().Valid()
      ensures var lines := old(State()).Remaining();
              if lines == [] then line == None && State() == old(State())
              else line == Some(lines[|lines| - 1]) && State().Remaining() == lines[..|lines| - 1]
    {
      NextBackIsLast(State());
      if text == [] {
        return None;
      }
      var e := AfterLastBreak(text, TrimmedEnd(text));
      if e > 0 {
        offsetBack := offsetBack - (|text| - e);
        line := Some(Line(text[e..], offsetBack));
        text := text[..e];
      } else {
        line := Some(Line(text, offsetBack - |text|));
        text := [];
      }
    }
  }

  // ---------- With a trailing line ----------

  function TrailingLine(text: seq<byte>): (line: Option<Line>) {
    if text != [] && IsBreak(text[|text| - 1]) then Some(Line([], |text|)) else None
  }

  function ToSeq(line: Option<Line>): seq<Line> {
    if line.Some? then [line.value] else []
  }

  /** The lines of `text[p..]`, with an empty one after a final line break. */
  function LinesWithTrailing(text: seq<byte>, p: nat): (lines: seq<Line>)
    requires p <= |text|
  {
    LinesFrom(text, p, 0) + ToSeq(TrailingLine(text))
  }

  class NewlineWithTrailingNewline {
    var trailing: Option<Line>
    const underlying: UniversalNewlineIterator

    ghost predicate Valid()
      reads this, underlying
    {
      underlying.State().Valid()
    }

    ghost function Remaining(): seq<Line>
      requires Valid()
      reads this, underlying
    {
      underlying.State().Remaining() + ToSeq(trailing)
    }

    constructor From(text: seq<byte>)
      ensures fresh(underlying) && Valid() && Remaining() == LinesWithTrailing(text, 0)
    {
      underlying := new UniversalNewlineIterator.WithOffset(text, 0);
      trailing := TrailingLine(text);
    }

    /** The next line, and the trailing one once there is no other. */
    method Next() returns (line: Option<Line>)
      requires Valid()
      modifies this, underlying
      ensures Valid()
      ensures if old(Remaining()) == [] then line == None && Remaining() == []
              else line == Some(old(Remaining())[0]) && Remaining() == old(Remaining())[1..]
    {
      line := underlying.Next();
      if line == None {
        line, trailing := trailing, None;
      }
    }
  }
}
