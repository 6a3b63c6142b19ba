/** Where a string literal ends (section 2.4.1 of the Python Language Reference). */
module StringScan {
  import opened Text

  /** A closed literal, with the end of its text and the position after its quotes; an unescaped
      line break in a literal that may not hold one; or no end before the text runs out. */
  datatype StringEnd = Closed(valueEnd: nat, pos: nat) | BrokenAt(pos: nat) | EndOfInput

  /** Reads one character at a time. `escaped`: the character before `p` is a backslash that escapes this one. */
  function ScanString(src: string, quote: char, triple: bool, p: nat, escaped: bool): (r: StringEnd)
    requires p <= |src|
    ensures r.Closed? ==> p <= r.valueEnd < r.pos <= |src|
    ensures r.BrokenAt? ==> p <= r.pos < |src|
    decreases |src| - p
  {
    if p == |src| then EndOfInput
    else if escaped then
      if !triple && src[p] == '\r' && First(src, p + 1) == '\n' then ScanString(src, quote, triple, p + 2, false)
      else ScanString(src, quote, triple, p + 1, false)
    else if src[p] == '\\' then ScanString(src, quote, triple, p + 1, true)
    else if triple && IsTriple(src, quote, p) then Closed(p, p + 3)
    else if !triple && src[p] == quote then Closed(p, p + 1)
    else if !triple && IsNewline(src[p]) then BrokenAt(p)
    else ScanString(src, quote, triple, p + 1, false)
  }

  /** The characters the byte search stops at. */
  function Stops(quote: char, triple: bool): set<char> {
    if triple then {quote} else {quote, '\r', '\n'}
  }

  /** The number of backslashes right before `i`, none of them before `p`. */
  function TrailingBackslashes(src: string, p: nat, i: nat): (n: nat)
    requires p <= i <= |src|
  {
    if p < i && src[i - 1] == '\\' then TrailingBackslashes(src, p, i - 1) + 1 else 0
  }

  /** Jumping over a stretch without stop characters loses nothing but the parity of the
      backslashes at its end, which is what the jump recovers. */
  lemma {:induction false} JumpIsSound(src: string, quote: char, triple: bool, p: nat, i: nat)
    requires p <= i <= |src|
    requires quote == '\'' || quote == '"'
    requires forall k :: p <= k < i ==> src[k] !in Stops(quote, triple)
    ensures ScanString(src, quote, triple, p, false)
         == ScanString(src, quote, triple, i, TrailingBackslashes(src, p, i) % 2 == 1)
    decreases i - p
  {
    if p < i {
      JumpIsSound(src, quote, triple, p, i - 1);
      assert src[i - 1] !in Stops(quote, triple);
    }
  }

  /** What becomes of a quote or line break, escaped and not, in a literal that ends at a line break. */
  lemma StopInSingle(src: string, quote: char, i: nat)
    requires i < |src| && src[i] in Stops(quote, false) && (quote == '\'' || quote == '"')
    ensures ScanString(src, quote, false, i, true)
         == ScanString(src, quote, false, if src[i] == '\r' && First(src, i + 1) == '\n' then i + 2 else i + 1, false)
    ensures ScanString(src, quote, false, i, false) == if src[i] == quote then Closed(i, i + 1) else BrokenAt(i)
  {
  }

  lemma ScanAtEnd(src: string, quote: char, triple: bool, escaped: bool)
    ensures ScanString(src, quote, triple, |src|, escaped) == EndOfInput
  {
  }

  /** From `p` to `end` no backslash is left without a character to escape. */
  predicate Paired(s: string, p: nat, end: nat)
    requires p <= end <= |s|
    decreases end - p
  {
    if p == end then true
    else if s[p] == '\\' then p + 1 < end && Paired(s, p + 2, end)
    else Paired(s, p + 1, end)
  }

  /** The text of a closed literal never ends inside an escape, in either form of literal. */
  lemma {:induction false} ClosedIsPaired(src: string, quote: char, triple: bool, p: nat, escaped: bool)
    requires p <= |src|
    requires quote == '\'' || quote == '"'
    requires ScanString(src, quote, triple, p, escaped).Closed?
    ensures var e := ScanString(src, quote, triple, p, escaped).valueEnd;
            if escaped then p < e && Paired(src, p + 1, e) else Paired(src, p, e)
    decreases |src| - p
  {
    var e := ScanString(src, quote, triple, p, escaped).valueEnd;
    if escaped {
      var next := if !triple && src[p] == '\r' && First(src, p + 1) == '\n' then p + 2 else p + 1;
      ClosedIsPaired(src, quote, triple, next, false);
    } else if p < e {
      ClosedIsPaired(src, quote, triple, p + 1, src[p] == '\\');
    }
  }

  lemma {:induction false} PairedSlice(src: string, begin: nat, p: nat, end: nat)
    requires begin <= p <= end <= |src|
    ensures Paired(src[begin..end], p - begin, end - begin) == Paired(src, p, end)
    decreases end - p
  {
    if p < end {
      var next := if src[p] == '\\' then p + 2 else p + 1;
      if next <= end {
        PairedSlice(src, begin, next, end);
      }
    }
  }

  // ---------- The end, said without a scanner ----------

  lemma {:induction false} PairedExtends(s: string, p: nat, i: nat)
    requires p <= i < |s| && Paired(s, p, i)
    ensures Paired(s, p, i + 1) <==> s[i] != '\\'
    ensures i + 2 <= |s| && s[i] == '\\' ==> Paired(s, p, i + 2)
    decreases i - p
  {
    if p < i {
      PairedExtends(s, if s[p] == '\\' then p + 2 else p + 1, i);
    }
  }

  /** The quotes that close a literal stand at `k`. */
  predicate ClosesAt(src: string, quote: char, triple: bool, k: nat) {
    if triple then IsTriple(src, quote, k) else k < |src| && src[k] == quote
  }

  /** A line break that a literal may not hold stands at `k`. */
  predicate BreaksAt(src: string, triple: bool, k: nat) {
    !triple && k < |src| && IsNewline(src[k])
  }

  /** Reading from `p`, no backslash escapes the character at `k`: those before it pair up, and it is not the line
      feed of a CRLF whose carriage return is escaped. */
  predicate IsFree(src: string, triple: bool, p: nat, k: nat)
    requires p <= k <= |src|
  {
    && Paired(src, p, k)
    && !(!triple && p < k < |src| && src[k] == '\n' && src[k - 1] == '\r' && !Paired(src, p, k - 1))
  }

  /** Nothing free from `i` to `end` ends the literal. */
  ghost predicate NothingEnds(src: string, quote: char, triple: bool, p: nat, i: nat, end: nat)
    requires p <= i <= end <= |src|
  {
    forall k :: i <= k < end && IsFree(src, triple, p, k) ==>
      !ClosesAt(src, quote, triple, k) && !BreaksAt(src, triple, k)
  }

  /** Where the free characters after one are: behind a backslash there is none until after what it escapes. */
  lemma FreeStep(src: string, triple: bool, p: nat, i: nat)
    requires p <= i < |src| && IsFree(src, triple, p, i)
    ensures src[i] != '\\' ==> IsFree(src, triple, p, i + 1)
    ensures src[i] == '\\' ==> !IsFree(src, triple, p, i + 1)
    ensures src[i] == '\\' && i + 1 < |src| ==>
              if !triple && src[i + 1] == '\r' && First(src, i + 2) == '\n' then
                !IsFree(src, triple, p, i + 2) && IsFree(src, triple, p, i + 3)
              else IsFree(src, triple, p, i + 2)
  {
    hide Paired;
    PairedExtends(src, p, i);
    if src[i] == '\\' && i + 2 < |src| {
      PairedExtends(src, p, i + 2);
    }
  }

  /** `end` is the first thing from `i` on that ends a literal which is read from `p`. */
  ghost predicate IsFirstEnd(src: string, quote: char, triple: bool, p: nat, i: nat, end: StringEnd)
    requires p <= i <= |src|
  {
    var at := if end.Closed? then end.valueEnd else if end.BrokenAt? then end.pos else |src|;
    && i <= at <= |src| && (!end.EndOfInput? ==> IsFree(src, triple, p, at))
    && NothingEnds(src, quote, triple, p, i, at)
    && (end.Closed? ==> ClosesAt(src, quote, triple, at) && end.pos == if triple then at + 3 else at + 1)
    && (end.BrokenAt? ==> BreaksAt(src, triple, at))
  }

  /** The next place to look for the end of a literal after `i`, which is none. */
  function NextPlace(src: string, triple: bool, i: nat): (j: nat)
    requires i < |src|
    ensures i < j <= |src|
  {
    if src[i] != '\\' || i + 1 == |src| then i + 1
    else if !triple && src[i + 1] == '\r' && First(src, i + 2) == '\n' then i + 3
    else i + 2
  }

  lemma ScanOn(src: string, quote: char, triple: bool, i: nat)
    requires i < |src| && (quote == '\'' || quote == '"')
    ensures ScanString(src, quote, triple, i, false) ==
              if ClosesAt(src, quote, triple, i) then Closed(i, if triple then i + 3 else i + 1)
              else if BreaksAt(src, triple, i) then BrokenAt(i)
              else ScanString(src, quote, triple, NextPlace(src, triple, i), false)
  {
    if src[i] == '\\' && i + 1 == |src| {
      ScanAtEnd(src, quote, triple, true);
    }
  }

  lemma NothingOnTheWay(src: string, quote: char, triple: bool, p: nat, i: nat, end: StringEnd)
    requires p <= i < |src| && IsFree(src, triple, p, i)
    requires !ClosesAt(src, quote, triple, i) && !BreaksAt(src, triple, i)
    requires src[i] == '\\' ==> i + 1 < |src|
    requires IsFirstEnd(src, quote, triple, p, NextPlace(src, triple, i), end)
    ensures IsFirstEnd(src, quote, triple, p, i, end)
  {
    hide IsFree, ClosesAt, BreaksAt;
    FreeStep(src, triple, p, i);
  }

  lemma {:induction false} EndsFrom(src: string, quote: char, triple: bool, p: nat, i: nat)
    requires p <= i <= |src| && (quote == '\'' || quote == '"') && IsFree(src, triple, p, i)
    ensures IsFirstEnd(src, quote, triple, p, i, ScanString(src, quote, triple, i, false))
    decreases |src| - i
  {
    hide IsFree, ScanString, ClosesAt, BreaksAt;
    if i == |src| {
      ScanAtEnd(src, quote, triple, false);
    } else {
      ScanOn(src, quote, triple, i);
      if src[i] == '\\' && i + 1 == |src| {
        ScanAtEnd(src, quote, triple, false);
      } else if !ClosesAt(src, quote, triple, i) && !BreaksAt(src, triple, i) {
        FreeStep(src, triple, p, i);
        EndsFrom(src, quote, triple, p, NextPlace(src, triple, i));
        NothingOnTheWay(src, quote, triple, p, i, ScanString(src, quote, triple, i, false));
      }
    }
  }

  /** A literal is closed by the first quotes that no backslash escapes, if no line break that is not escaped comes
      before them where it may not; it is broken by the first such line break; and else nothing ends it. */
  lemma EndIsFirst(src: string, quote: char, triple: bool, p: nat)
    requires p <= |src| && (quote == '\'' || quote == '"')
    ensures IsFirstEnd(src, quote, triple, p, p, ScanString(src, quote, triple, p, false))
  {
    EndsFrom(src, quote, triple, p, p);
  }
}
