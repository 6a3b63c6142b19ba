/** The measured indentation against the rules of section 2.1.8 of the Python Language Reference. */
module IndentRule {
  import opened Text
  import opened Tokens
  import opened Indentation
  import opened Words
  import opened LexerSpec
  import opened LexerSteps
  import opened LexerRuns
  import W = Whitespace

  predicate IsSpaceOrTab(c: char) {
    c == ' ' || c == '\t'
  }

  // ---------- Joined lines ----------

  /** The end of the spaces and tabs from `p` on. */
  function RunEnd(src: string, p: nat): (e: nat)
    requires p <= |src|
    ensures p <= e <= |src|
    ensures forall k :: p <= k < e ==> IsSpaceOrTab(src[k])
    ensures e < |src| ==> !IsSpaceOrTab(src[e])
    decreases |src| - p
  {
    if p < |src| && IsSpaceOrTab(src[p]) then RunEnd(src, p + 1) else p
  }

  /** Where the spaces and tabs that end at `q` begin, not before `from`. */
  function RunStart(src: string, from: nat, q: nat): (b: nat)
    requires from <= q <= |src|
    ensures from <= b <= q
    ensures forall k :: b <= k < q ==> IsSpaceOrTab(src[k])
    ensures b > from ==> !IsSpaceOrTab(src[b - 1])
  {
    if from < q && IsSpaceOrTab(src[q - 1]) then RunStart(src, from, q - 1) else q
  }

  /** The beginning of a line, after a form feed there, which does not count. */
  function LineStart(src: string, p: nat): (b: nat)
    requires p <= |src|
    ensures p <= b <= |src|
  {
    if p < |src| && src[p] == W.FORM_FEED then p + 1 else p
  }

  /** The section's indentation of the line at `p`: the width of the whitespace up to the first character that is
      neither a space nor a tab. A backslash is such a character: lines joined to this one add nothing. */
  function SectionWidth(src: string, p: nat): Width
    requires p <= |src|
  {
    W.WidthBefore(src, LineStart(src, p), RunEnd(src, LineStart(src, p)))
  }

  /** The section's whitespace ends at a backslash. */
  predicate EndsAtBackslash(src: string, p: nat)
    requires p <= |src|
  {
    First(src, RunEnd(src, LineStart(src, p))) == '\\'
  }

  lemma NothingBefore(src: string, p: nat)
    requires p <= |src|
    ensures W.WidthBefore(src, p, p) == ROOT
    ensures p < |src| && src[p] == W.FORM_FEED ==> RunEnd(src, p) == p
  {
  }

  lemma {:induction false} RunIsMeasured(src: string, start: nat, from: nat, p: nat)
    requires start <= from <= p <= |src|
    ensures var e := RunEnd(src, p);
            W.MeasureIndent(src, start, p, W.WidthBefore(src, from, p))
            == W.MeasureIndent(src, start, e, W.WidthBefore(src, from, e))
    decreases |src| - p
  {
    hide W.JoinLines;
    if p < |src| && IsSpaceOrTab(src[p]) {
      RunIsMeasured(src, start, from, p + 1);
    }
  }

  /** A form feed at the beginning of a line is ignored, as the section has it. */
  lemma LeadingFormFeed(src: string, start: nat, p: nat)
    requires start <= p <= |src|
    ensures W.MeasureIndent(src, start, p, ROOT) == W.MeasureIndent(src, start, LineStart(src, p), ROOT)
  {
    hide W.JoinLines;
  }

  /** Where no backslash follows the whitespace, and no form feed in the middle of it, for which the section
      defines nothing: the measured width is the section's. */
  lemma MeetsSection(src: string, start: nat, p: nat)
    requires start <= p <= |src|
    requires var e := RunEnd(src, LineStart(src, p)); e < |src| ==> src[e] != W.FORM_FEED && src[e] != '\\'
    ensures W.MeasureIndent(src, start, p, ROOT)
            == W.Measured(RunEnd(src, LineStart(src, p)), SectionWidth(src, p))
  {
    hide W.JoinLines;
    LeadingFormFeed(src, start, p);
    RunIsMeasured(src, start, LineStart(src, p), LineStart(src, p));
  }

  lemma {:induction false} RunStartsAt(src: string, from: nat, p: nat, q: nat)
    requires from <= p <= q <= |src|
    requires forall k :: p <= k < q ==> IsSpaceOrTab(src[k])
    requires p > from ==> !IsSpaceOrTab(src[p - 1])
    ensures RunStart(src, from, q) == p
  {
    if p < q {
      RunStartsAt(src, from, p, q - 1);
    }
  }

  /** What becomes of the measuring after spaces and tabs. */
  lemma AtRunEnd(src: string, start: nat, e: nat, width: Width)
    requires start <= e <= |src|
    requires e < |src| ==> !IsSpaceOrTab(src[e])
    ensures var r := W.MeasureIndent(src, start, e, width);
            && (First(src, e) != '\\' && First(src, e) != W.FORM_FEED ==> r == W.Measured(e, width))
            && (First(src, e) == W.FORM_FEED && r.Measured? ==> e < r.pos)
            && (First(src, e) == '\\' && r.Measured? ==>
                  && W.JoinLines(src, e).Joined?
                  && r == W.MeasureIndent(src, start, W.JoinLines(src, e).pos, ROOT))
  {
    hide W.JoinLines;
  }

  lemma NothingAfterBreak(src: string, from: nat, p: nat)
    requires from < p <= |src| && IsNewline(src[p - 1])
    ensures W.WidthBefore(src, from, p) == ROOT
  {
  }

  ghost predicate NoFormFeed(src: string, p: nat, q: nat)
    requires p <= q <= |src|
  {
    forall k :: p <= k < q ==> src[k] != W.FORM_FEED
  }

  /** One physical line after another: the run that counts begins the line, or follows a line break joined over. */
  lemma {:induction false} MeasuresAfterLastJoin(src: string, start: nat, from: nat, p: nat)
    requires start <= from <= p <= |src|
    requires p > from ==> IsNewline(src[p - 1])
    requires var r := W.MeasureIndent(src, start, p, W.WidthBefore(src, from, p));
             r.Measured? && NoFormFeed(src, p, r.pos)
    ensures var r := W.MeasureIndent(src, start, p, W.WidthBefore(src, from, p));
            var b := RunStart(src, from, r.pos);
            b > from ==> IsNewline(src[b - 1])
    decreases |src| - p
  {
    hide W.JoinLines, W.MeasureIndent, W.WidthBefore, RunStart, RunEnd;
    var r := W.MeasureIndent(src, start, p, W.WidthBefore(src, from, p));
    var e := RunEnd(src, p);
    RunIsMeasured(src, start, from, p);
    AtRunEnd(src, start, e, W.WidthBefore(src, from, e));
    if First(src, e) == '\\' {
      var j := W.JoinLines(src, e).pos;
      NothingAfterBreak(src, from, j);
      MeasuresAfterLastJoin(src, start, from, j);
    } else {
      RunStartsAt(src, from, p, e);
    }
  }

  lemma {:induction false} WidthOfLastRun(src: string, from: nat, q: nat)
    requires from <= q <= |src|
    ensures W.WidthBefore(src, from, q) == W.WidthBefore(src, RunStart(src, from, q), q)
  {
    if from < q && IsSpaceOrTab(src[q - 1]) {
      WidthOfLastRun(src, from, q - 1);
    }
  }

  /** On text without form feeds the measured width is the section's exactly when no backslash ends the line's
      whitespace, or when the whitespace after the last line break joined over has the same width. */
  lemma MeetsSectionExactlyWhen(src: string, start: nat, p: nat)
    requires start <= p <= |src|
    requires var r := W.MeasureIndent(src, start, p, ROOT); r.Measured? && NoFormFeed(src, p, r.pos)
    ensures var r := W.MeasureIndent(src, start, p, ROOT);
            var last := RunStart(src, p, r.pos);
            && (EndsAtBackslash(src, p) ==> RunEnd(src, p) < last <= r.pos && IsNewline(src[last - 1]))
            && (r.width == SectionWidth(src, p) <==>
                  !EndsAtBackslash(src, p) || W.WidthBefore(src, last, r.pos) == SectionWidth(src, p))
  {
    hide W.JoinLines, W.MeasureIndent, RunStart, RunEnd, W.WidthBefore;
    var r := W.MeasureIndent(src, start, p, ROOT);
    var e := RunEnd(src, p);
    NothingBefore(src, p);
    AtRunEnd(src, start, e, W.WidthBefore(src, p, e));
    RunIsMeasured(src, start, p, p);
    W.IndentIsTheFinalRun(src, start, p, p);
    WidthOfLastRun(src, p, r.pos);
    if EndsAtBackslash(src, p) {
      MeasuresAfterLastJoin(src, start, p, p);
      assert !IsSpaceOrTab(src[e]);
    }
  }

  lemma FourSpaces(src: string)
    requires src == "    \\\nx"
    ensures RunEnd(src, 0) == 4 && W.WidthBefore(src, 0, 4) == Width(4, 4)
  {
    assert src[0] == src[1] == src[2] == src[3] == ' ' && src[4] == '\\';
    assert RunEnd(src, 4) == 4 && RunEnd(src, 2) == 4;
    assert W.WidthBefore(src, 0, 1) == Width(1, 1);
    assert W.WidthBefore(src, 0, 2) == Width(2, 2);
    assert W.WidthBefore(src, 0, 3) == Width(3, 3);
  }

  /** Four spaces before a backslash: the section indents by four, and the lexer by nothing. */
  lemma JoinedIndentIsLost()
    ensures W.MeasureIndent("    \\\nx", 0, 0, ROOT) == W.Measured(6, ROOT)
    ensures SectionWidth("    \\\nx", 0) == Width(4, 4)
  {
    hide RunEnd, W.WidthBefore;
    var src := "    \\\nx";
    FourSpaces(src);
    NothingBefore(src, 0);
    RunIsMeasured(src, 0, 0, 0);
    assert W.JoinLines(src, 4) == W.Joined(6);
    assert W.MeasureIndent(src, 0, 6, ROOT) == W.Measured(6, ROOT);
  }

  /** So a file that consists of that line begins without the Indent that the section asks for. */
  lemma JoinedLineHasNoIndent(env: Env)
    requires env.src == "    \\\nx"
    ensures NextToken(env, Init(env, 0)).kind != TokenKind.Indent
    ensures Current([]).TryCompare(SectionWidth(env.src, 0)) == Some(Less)
  {
    hide LexCharacter, W.MeasureIndent, SectionWidth;
    JoinedIndentIsLost();
    var s := Init(env, 0);
    assert s.pos == 0;
    var m := s.(pos := 6, state := NonEmptyLogicalLine);
    assert BeforeCharacter(env, s.(start := s.pos, value := NoValue, flags := NO_FLAGS)) == Ready(m);
    CharacterOrEnd(env, m);
  }

  // ---------- Tabs and spaces ----------

  /** The column after `run` when a tab goes to the next multiple of `worth`. */
  function Columns(run: string, worth: nat): (c: nat)
    requires worth > 0
  {
    if run == [] then 0
    else
      var before := Columns(run[..|run| - 1], worth);
      if run[|run| - 1] == '\t' then NextStop(before, worth) else before + 1
  }

  function NextStop(column: nat, worth: nat): (c: nat)
    requires worth > 0
  {
    (column / worth + 1) * worth
  }

  /** The lexer's width of `run`. */
  function WidthOf(run: string): Width {
    if run == [] then ROOT
    else
      var before := WidthOf(run[..|run| - 1]);
      if run[|run| - 1] == '\t' then before.AddTab() else before.AddSpace()
  }

  /** The lexer measures with a tab worth two and with a tab worth one. */
  lemma {:induction false} MeasuresAreWorths(run: string)
    ensures WidthOf(run) == Width(Columns(run, 2), Columns(run, 1)) && Columns(run, 1) == |run|
  {
    if run != [] {
      MeasuresAreWorths(run[..|run| - 1]);
    }
  }

  /** What is measured before `q` is the width of the run that ends there. */
  lemma {:induction false} WidthBeforeIsWidthOf(src: string, from: nat, q: nat)
    requires from <= q <= |src|
    ensures W.WidthBefore(src, from, q) == WidthOf(src[RunStart(src, from, q)..q])
  {
    if from < q && IsSpaceOrTab(src[q - 1]) {
      WidthBeforeIsWidthOf(src, from, q - 1);
      var run := src[RunStart(src, from, q)..q];
      assert run[..|run| - 1] == src[RunStart(src, from, q)..q - 1];
    }
  }

  /** How two indentations compare when a tab is worth `worth`. */
  function CompareAt(a: string, b: string, worth: nat): Ordering
    requires worth > 0
  {
    Compare(Columns(a, worth), Columns(b, worth))
  }

  /** The section's rule: how the two compare must not depend on the worth of a tab. */
  ghost predicate IsConsistent(a: string, b: string) {
    forall worth: nat :: worth > 0 ==> CompareAt(a, b, worth) == CompareAt(a, b, 1)
  }

  function Tabs(run: string): nat {
    if run == [] then 0 else Tabs(run[..|run| - 1]) + if run[|run| - 1] == '\t' then 1 else 0
  }

  /** The characters after the last tab. */
  function AfterTabs(run: string): (n: nat)
    ensures n <= |run|
  {
    if run == [] || run[|run| - 1] == '\t' then 0 else AfterTabs(run[..|run| - 1]) + 1
  }

  lemma StopAfter(tabs: nat, rest: nat, worth: nat)
    requires rest < worth
    ensures NextStop(tabs * worth + rest, worth) == (tabs + 1) * worth
  {
    var c := tabs * worth + rest;
    var q := c / worth;
    assert q * worth <= c < q * worth + worth;
    if q < tabs {
      MoreTabs(q, tabs, worth);
    } else if q > tabs {
      MoreTabs(tabs, q, worth);
    }
  }

  /** A tab worth more than the run is long: tabs count first, and the characters after them second. */
  lemma {:induction false} ColumnsOfWideTabs(run: string, worth: nat)
    requires worth > |run|
    ensures Columns(run, worth) == Tabs(run) * worth + AfterTabs(run)
  {
    hide NextStop;
    if run != [] {
      var before := run[..|run| - 1];
      ColumnsOfWideTabs(before, worth);
      StopAfter(Tabs(before), AfterTabs(before), worth);
    }
  }

  function CompareTabsFirst(a: string, b: string): Ordering {
    if Tabs(a) == Tabs(b) then Compare(AfterTabs(a), AfterTabs(b)) else Compare(Tabs(a), Tabs(b))
  }

  lemma MoreTabs(a: nat, b: nat, worth: nat)
    requires a < b
    ensures a * worth + worth <= b * worth
  {
    assert (a + 1) * worth <= b * worth;
    assert (a + 1) * worth == a * worth + worth;
  }

  lemma CompareProducts(ta: nat, ra: nat, tb: nat, rb: nat, worth: nat)
    requires ra < worth && rb < worth
    ensures Compare(ta * worth + ra, tb * worth + rb) == if ta == tb then Compare(ra, rb) else Compare(ta, tb)
  {
    if ta < tb {
      MoreTabs(ta, tb, worth);
    } else if tb < ta {
      MoreTabs(tb, ta, worth);
    }
  }

  /** From some worth on, nothing changes any more. */
  lemma WideTabsCompareAlike(a: string, b: string, worth: nat)
    requires worth > |a| && worth > |b|
    ensures CompareAt(a, b, worth) == CompareTabsFirst(a, b)
  {
    hide Columns, Compare, Tabs, AfterTabs;
    ColumnsOfWideTabs(a, worth);
    ColumnsOfWideTabs(b, worth);
    CompareProducts(Tabs(a), AfterTabs(a), Tabs(b), AfterTabs(b), worth);
  }

  /** The worths that decide: those up to one more than the longer of the two is long. */
  function WorthsToTry(a: string, b: string): nat {
    1 + if |a| < |b| then |b| else |a|
  }

  ghost predicate ComparesAlikeUpTo(a: string, b: string, most: nat) {
    forall worth: nat :: 0 < worth <= most ==> CompareAt(a, b, worth) == CompareAt(a, b, 1)
  }

  lemma FewWorthsDecide(a: string, b: string)
    ensures IsConsistent(a, b) <==> ComparesAlikeUpTo(a, b, WorthsToTry(a, b))
  {
    hide CompareAt;
    if ComparesAlikeUpTo(a, b, WorthsToTry(a, b)) {
      WideTabsCompareAlike(a, b, WorthsToTry(a, b));
      forall worth: nat | worth > 0 ensures CompareAt(a, b, worth) == CompareAt(a, b, 1) {
        if worth > WorthsToTry(a, b) {
          WideTabsCompareAlike(a, b, worth);
        }
      }
    }
  }

  /** What the section accepts the lexer compares as the section does. The lexer accepts no more than that exactly
      when agreement of the worths one and two brings agreement of the few others that decide. */
  lemma MixingRule(a: string, b: string)
    ensures IsConsistent(a, b) ==> WidthOf(a).TryCompare(WidthOf(b)) == Some(CompareAt(a, b, 1))
    ensures (WidthOf(a).TryCompare(WidthOf(b)).Some? <==> IsConsistent(a, b)) <==>
              (CompareAt(a, b, 2) == CompareAt(a, b, 1) ==> ComparesAlikeUpTo(a, b, WorthsToTry(a, b)))
  {
    hide Columns, Compare;
    MeasuresAreWorths(a);
    MeasuresAreWorths(b);
    FewWorthsDecide(a, b);
    assert IsConsistent(a, b) ==> CompareAt(a, b, 2) == CompareAt(a, b, 1);
  }

  /** It does accept more: a tab is less than eight spaces to the lexer, and as much when it is worth eight. */
  lemma TabAgainstEightSpaces()
    ensures WidthOf("\t").TryCompare(WidthOf("        ")) == Some(Less)
    ensures CompareAt("\t", "        ", 8) == Equal && !IsConsistent("\t", "        ")
  {
    var a, b := "\t", "        ";
    SpacesCount(b, 1);
    SpacesCount(b, 2);
    SpacesCount(b, 8);
    MeasuresAreWorths(b);
    assert a[..0] == [];
    MeasuresAreWorths(a);
    assert CompareAt(a, b, 8) == Equal && CompareAt(a, b, 1) == Less;
  }

  lemma {:induction false} SpacesCount(run: string, worth: nat)
    requires worth > 0 && '\t' !in run
    ensures Columns(run, worth) == |run|
  {
    if run != [] {
      assert run[|run| - 1] in run;
      SpacesCount(run[..|run| - 1], worth);
    }
  }

  lemma StopIsFurther(column: nat, worth: nat)
    requires worth > 0
    ensures column < NextStop(column, worth)
  {
    var q := column / worth;
    assert column < (q + 1) * worth;
  }

  lemma {:induction false} LongerIsDeeper(a: string, b: string, worth: nat)
    requires worth > 0 && a <= b
    ensures Columns(a, worth) <= Columns(b, worth) && (a != b ==> Columns(a, worth) < Columns(b, worth))
    decreases |b|
  {
    hide NextStop;
    if a != b {
      var before := b[..|b| - 1];
      LongerIsDeeper(a, before, worth);
      StopIsFurther(Columns(before, worth), worth);
    } else {
      assert a == b;
    }
  }

  /** Indentation that only adds to the one before it is consistent, whatever mixture either is, and so the lexer
      accepts it: the deeper is the longer. */
  lemma AddingIsConsistent(a: string, b: string)
    requires a <= b
    ensures IsConsistent(a, b)
    ensures WidthOf(a).TryCompare(WidthOf(b)) == Some(if a == b then Equal else Less)
  {
    hide Columns;
    forall worth: nat | worth > 0 ensures CompareAt(a, b, worth) == if a == b then Equal else Less {
      LongerIsDeeper(a, b, worth);
    }
    MixingRule(a, b);
  }
}
