/** Indentation widths and the stack of enclosing ones (section 2.1.8 of the Python Language Reference). */
module Indentation {
  import opened Tokens

  datatype Ordering = Less | Equal | Greater

  /** A width measured twice: in columns, where a tab counts up to TAB_SIZE, and in characters. */
  datatype Width = Width(column: nat, character: nat) {
    function AddSpace(): Width {
      Width(column + 1, character + 1)
    }

    function AddTab(): Width {
      Width((column / TAB_SIZE + 1) * TAB_SIZE, character + 1)
    }

    /** The order of two widths, when both measures agree on it. */
    function TryCompare(other: Width): Option<Ordering> {
      var columns := Compare(column, other.column);
      if columns == Compare(character, other.character) then Some(columns) else None
    }
  }

  const TAB_SIZE: nat := 2
  const ROOT := Width(0, 0)

  function Compare(a: nat, b: nat): Ordering {
    if a < b then Less else if a == b then Equal else Greater
  }

  /** The innermost indentation; the root is never on the stack. */
  function Current(stack: seq<Width>): Width {
    if stack == [] then ROOT else stack[|stack| - 1]
  }

  /** Drops one level, and reports whether `target` can still be reached from what is left. */
  function DedentOne(stack: seq<Width>, target: Width): (r: (bool, seq<Width>)) {
    var rest := if stack == [] then [] else stack[..|stack| - 1];
    var reachable := target.TryCompare(Current(rest));
    (reachable == Some(Less) || reachable == Some(Equal), rest)
  }

  /** Every level is deeper than the one below it, in both measures, and the lowest is deeper than the root. */
  ghost predicate StrictlyIncreasing(stack: seq<Width>) {
    && (forall i :: 0 <= i < |stack| ==> ROOT.TryCompare(stack[i]) == Some(Less))
    && (forall i, j :: 0 <= i < j < |stack| ==> stack[i].TryCompare(stack[j]) == Some(Less))
  }

  lemma PushKeepsIncreasing(stack: seq<Width>, w: Width)
    requires StrictlyIncreasing(stack)
    requires Current(stack).TryCompare(w) == Some(Less)
    ensures StrictlyIncreasing(stack + [w])
  {
    var s := stack + [w];
    forall i, j | 0 <= i < j < |s| ensures s[i].TryCompare(s[j]) == Some(Less) {
      if j == |stack| && i < |stack| - 1 {
        assert s[i].TryCompare(s[|stack| - 1]) == Some(Less);
      }
    }
  }

  /** A tab goes to the next tab stop, never past it, and counts as one character. */
  lemma TabGoesToTheNextStop(w: Width)
    ensures var t := w.AddTab();
            && t.column % TAB_SIZE == 0 && w.column < t.column <= w.column + TAB_SIZE
            && t.character == w.character + 1
  {
  }

  /** Two measures decide one order: widths that compare are ordered the same way by every
      later comparison, so the stack never has to be searched for the right level. */
  lemma CompareIsAnOrder(a: Width, b: Width, c: Width)
    ensures a.TryCompare(a) == Some(Equal)
    ensures a.TryCompare(b) == Some(Less) <==> b.TryCompare(a) == Some(Greater)
    ensures a.TryCompare(b) == Some(Equal) <==> a == b
    ensures a.TryCompare(b) == Some(Less) && b.TryCompare(c) == Some(Less) ==> a.TryCompare(c) == Some(Less)
  {
  }
}
