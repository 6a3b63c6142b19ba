/** The tokens of a file once lexing is over: lookups by offset, and iteration with bracket context. */
module TokenList {
  import opened Text
  import opened Tokens
  import opened Sequences

  // ---------- Context ----------

  /** The nesting after a token, given the nesting before it. */
  function ContextStep(nesting: nat, kind: TokenKind): nat {
    if kind.IsOpening() then nesting + 1
    else if kind.IsClosing() then if nesting == 0 then 0 else nesting - 1
    else if kind == Newline then 0
    else nesting
  }

  /** The nesting after all the tokens of `kinds`, from none. */
  function Replay(kinds: seq<TokenKind>): nat {
    if kinds == [] then 0 else ContextStep(Replay(kinds[..|kinds| - 1]), kinds[|kinds| - 1])
  }

  function KindsOf(tokens: seq<Token>): (kinds: seq<TokenKind>)
    ensures |kinds| == |tokens|
  {
    seq(|tokens|, i requires 0 <= i < |tokens| => tokens[i].kind)
  }

  /** Iterates over tokens and keeps count of the brackets open. */
  class TokenIterWithContext {
    const tokens: seq<Token>
    var next: nat
    var nesting: nat

    ghost predicate Valid()
      reads this
    {
      next <= |tokens| && nesting == Replay(KindsOf(tokens)[..next])
    }

    constructor (tokens: seq<Token>)
      ensures Valid() && this.tokens == tokens && next == 0
    {
      this.tokens := tokens;
      next, nesting := 0, 0;
    }

    method Next() returns (token: Option<Token>)
      requires Valid()
      modifies this
      ensures Valid()
      ensures old(next) == |tokens| ==> token == None && next == old(next)
      ensures old(next) < |tokens| ==> token == Some(tokens[old(next)]) && next == old(next) + 1
    {
      if next == |tokens| {
        return None;
      }
      token := Some(tokens[next]);
      match token.value.kind {
        case Lpar | Lbrace | Lsqb => nesting := nesting + 1;
        case Rpar | Rbrace | Rsqb => nesting := if nesting == 0 then 0 else nesting - 1;
        case Newline =>
          if nesting > 0 {
            nesting := 0;
          }
        case _ =>
      }
      assert KindsOf(tokens)[..next + 1][..next] == KindsOf(tokens)[..next];
      next := next + 1;
    }
  }

  // ---------- Lookups ----------

  function Starts(tokens: seq<Token>): (keys: seq<nat>)
    ensures |keys| == |tokens|
  {
    seq(|tokens|, i requires 0 <= i < |tokens| => tokens[i].range.start)
  }

  function Ends(tokens: seq<Token>): (keys: seq<nat>)
    ensures |keys| == |tokens|
  {
    seq(|tokens|, i requires 0 <= i < |tokens| => tokens[i].range.end)
  }

  ghost predicate Ordered(tokens: seq<Token>) {
    && (forall i :: 0 <= i < |tokens| ==> tokens[i].range.start <= tokens[i].range.end)
    && (forall i, j :: 0 <= i < j < |tokens| ==> tokens[i].range.end <= tokens[j].range.start)
  }

  predicate Inside(offset: nat, r: Range) {
    r.start < offset < r.end
  }

  /** The position in `tokens` from which `Tokens::after` returns them, or None for a panic. */
  function After(tokens: seq<Token>, offset: nat, found: SearchResult): (r: Option<nat>)
    requires found.index <= |tokens|
    ensures r.Some? ==> r.value <= |tokens|
  {
    match found
    case Found(i) => Some(i)
    case NotFound(i) => if i > 0 && offset < tokens[i - 1].range.end then None else Some(i)
  }

  /** How many of `tokens`, all at or after the start of the range, `Tokens::in_range` returns, or None for a panic. */
  function UpTo(tokens: seq<Token>, end: nat, found: SearchResult): (r: Option<nat>)
    requires found.index <= |tokens| && (found.Found? ==> found.index < |tokens|)
    ensures r.Some? ==> r.value <= |tokens|
  {
    match found
    case Found(i) => Some(i + 1)
    case NotFound(i) => if i < |tokens| && tokens[i].range.start < end then None else Some(i)
  }

  /** `after` panics exactly when the offset is strictly inside a token. Otherwise the tokens it returns all
      start at or after the offset, and those it leaves out all end by it, whichever of several tokens
      at the offset the search hit. */
  lemma AfterSplits(tokens: seq<Token>, offset: nat, found: SearchResult)
    requires Ordered(tokens) && IsSearchResult(Starts(tokens), offset, found)
    ensures var r := After(tokens, offset, found);
            && (r.None? <==> exists i :: 0 <= i < |tokens| && Inside(offset, tokens[i].range))
            && (r.Some? ==>
                  && (forall i :: r.value <= i < |tokens| ==> offset <= tokens[i].range.start)
                  && (forall i :: 0 <= i < r.value ==> tokens[i].range.end <= offset))
  {
    var keys := Starts(tokens);
    assert forall i :: 0 <= i < |tokens| ==> keys[i] == tokens[i].range.start;
    if found.NotFound? && After(tokens, offset, found).None? {
      assert Inside(offset, tokens[found.index - 1].range);
    }
  }

  lemma UpToSplits(tokens: seq<Token>, end: nat, found: SearchResult)
    requires Ordered(tokens) && IsSearchResult(Ends(tokens), end, found)
    ensures var r := UpTo(tokens, end, found);
            && (r.None? <==> exists i :: 0 <= i < |tokens| && Inside(end, tokens[i].range))
            && (r.Some? ==>
                  && (forall i :: 0 <= i < r.value ==> tokens[i].range.end <= end)
                  && (forall i :: r.value <= i < |tokens| ==> end <= tokens[i].range.start))
  {
    var keys := Ends(tokens);
    assert forall i :: 0 <= i < |tokens| ==> keys[i] == tokens[i].range.end;
    if found.NotFound? && UpTo(tokens, end, found).None? {
      assert Inside(end, tokens[found.index].range);
    }
  }

  /** The slice that `in_range` returns, from the first position to before the second, or None for a panic:
      a search for the start among all tokens, then one for the end among those after the start. */
  function InRange(tokens: seq<Token>, range: Range, foundStart: SearchResult, foundEnd: SearchResult):
    (r: Option<(nat, nat)>)
    requires foundStart.index <= |tokens|
    requires var a := After(tokens, range.start, foundStart);
             a.Some? ==>
               && foundEnd.index <= |tokens[a.value..]|
               && (foundEnd.Found? ==> foundEnd.index < |tokens[a.value..]|)
  {
    match After(tokens, range.start, foundStart)
    case None => None
    case Some(first) =>
      match UpTo(tokens[first..], range.end, foundEnd)
      case None => None
      case Some(count) => Some((first, first + count))
  }

  /** The results that the two searches of `in_range` may have. */
  ghost predicate AreSearchResults(tokens: seq<Token>, range: Range, foundStart: SearchResult, foundEnd: SearchResult) {
    && IsSearchResult(Starts(tokens), range.start, foundStart)
    && var a := After(tokens, range.start, foundStart);
       a.Some? ==> IsSearchResult(Ends(tokens[a.value..]), range.end, foundEnd)
  }

  /** `in_range` panics exactly when one end of the range is strictly inside a token. */
  lemma InRangePanics(tokens: seq<Token>, range: Range, foundStart: SearchResult, foundEnd: SearchResult)
    requires Ordered(tokens) && range.start <= range.end && AreSearchResults(tokens, range, foundStart, foundEnd)
    ensures InRange(tokens, range, foundStart, foundEnd).None? <==>
              exists i :: 0 <= i < |tokens| &&
                (Inside(range.start, tokens[i].range) || Inside(range.end, tokens[i].range))
  {
    hide After, UpTo, Ends, Starts, Ordered;
    AfterSplits(tokens, range.start, foundStart);
    var a := After(tokens, range.start, foundStart);
    if a.Some? {
      var rest := tokens[a.value..];
      RestIsOrdered(tokens, a.value);
      UpToSplits(rest, range.end, foundEnd);
      if UpTo(rest, range.end, foundEnd).None? {
        var i :| 0 <= i < |rest| && Inside(range.end, rest[i].range);
        assert Inside(range.end, tokens[a.value + i].range);
      } else {
        forall i | 0 <= i < |tokens|
          ensures !Inside(range.start, tokens[i].range) && !Inside(range.end, tokens[i].range)
        {
          if a.value <= i {
            assert rest[i - a.value] == tokens[i];
          }
        }
      }
    }
  }

  /** Otherwise it returns a contiguous slice whose tokens all lie in the range, while every token it leaves
      out lies wholly at or outside one end, whichever of several tokens at an offset a search hit. */
  lemma InRangeSplits(tokens: seq<Token>, range: Range, foundStart: SearchResult, foundEnd: SearchResult)
    requires Ordered(tokens) && range.start <= range.end && AreSearchResults(tokens, range, foundStart, foundEnd)
    requires InRange(tokens, range, foundStart, foundEnd).Some?
    ensures var (from, to) := InRange(tokens, range, foundStart, foundEnd).value;
            && from <= to <= |tokens|
            && (forall i :: from <= i < to ==> range.start <= tokens[i].range.start && tokens[i].range.end <= range.end)
            && (forall i :: 0 <= i < from ==> tokens[i].range.end <= range.start)
            && (forall i :: to <= i < |tokens| ==> range.end <= tokens[i].range.start)
  {
    hide After, UpTo, Ends, Starts, Ordered;
    AfterSplits(tokens, range.start, foundStart);
    var first := After(tokens, range.start, foundStart).value;
    var rest := tokens[first..];
    RestIsOrdered(tokens, first);
    UpToSplits(rest, range.end, foundEnd);
    assert forall i :: first <= i < |tokens| ==> tokens[i] == rest[i - first];
  }

  lemma RestIsOrdered(tokens: seq<Token>, first: nat)
    requires Ordered(tokens) && first <= |tokens|
    ensures Ordered(tokens[first..])
  {
  }
}
