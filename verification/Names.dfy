/** Dotted names: how they are stored, collected from expressions and shown. */
module Names {
  import opened Tokens
  import opened Sequences

  const SMALL_LEN: nat := 8

  /** Segments of a name: up to SMALL_LEN in an array of fixed size, and in a growing list from then on. */
  class SegmentsVec {
    const stack: array<string>
    var len: nat
    var spilled: bool
    var heap: seq<string>

    ghost predicate Valid()
      reads this, stack
    {
      stack.Length == SMALL_LEN && len <= SMALL_LEN
    }

    function AsSlice(): (s: seq<string>)
      requires Valid()
      reads this, stack
    {
      if spilled then heap else stack[..len]
    }

    constructor WithCapacity(capacity: nat)
      ensures Valid() && fresh(stack) && AsSlice() == [] && spilled == (capacity > SMALL_LEN)
    {
      stack := new string[SMALL_LEN](_ => "");
      len, spilled, heap := 0, capacity > SMALL_LEN, [];
    }

    constructor FromSlice(slice: seq<string>)
      ensures Valid() && fresh(stack) && AsSlice() == slice && spilled == (|slice| > SMALL_LEN)
    {
      stack := new string[SMALL_LEN](_ => "");
      len := if |slice| <= SMALL_LEN then |slice| else 0;
      spilled, heap := |slice| > SMALL_LEN, if |slice| <= SMALL_LEN then [] else slice;
      new;
      if |slice| <= SMALL_LEN {
        for i := 0 to |slice|
          invariant stack[..i] == slice[..i]
          modifies stack
        {
          stack[i] := slice[i];
        }
      }
    }

    /** Moves to the heap with everything in `segments`. */
    method Spill(segments: seq<string>)
      requires Valid()
      modifies this
      ensures Valid() && spilled && AsSlice() == segments
    {
      spilled, heap := true, segments;
    }

    method Push(name: string)
      requires Valid()
      modifies this, stack
      ensures Valid() && AsSlice() == old(AsSlice()) + [name]
      ensures spilled == old(spilled || |AsSlice()| == SMALL_LEN)
    {
      if spilled {
        heap := heap + [name];
      } else if len < SMALL_LEN {
        stack[len] := name;
        len := len + 1;
      } else {
        Spill(stack[..] + [name]);
      }
    }

    method Pop() returns (name: Option<string>)
      requires Valid()
      modifies this
      ensures Valid() && spilled == old(spilled)
      ensures if old(AsSlice()) == [] then name == None && AsSlice() == []
              else name == Some(old(AsSlice())[|old(AsSlice())| - 1])
                   && AsSlice() == old(AsSlice())[..|old(AsSlice())| - 1]
    {
      if spilled {
        if heap == [] {
          return None;
        }
        name := Some(heap[|heap| - 1]);
        heap := heap[..|heap| - 1];
      } else {
        if len == 0 {
          return None;
        }
        len := len - 1;
        name := Some(stack[len]);
      }
    }

    method ExtendFromSlice(slice: seq<string>)
      requires Valid()
      modifies this, stack
      ensures Valid() && AsSlice() == old(AsSlice()) + slice
      ensures spilled == old(spilled || |AsSlice()| + |slice| > SMALL_LEN)
    {
      if spilled {
        heap := heap + slice;
      } else if |slice| <= SMALL_LEN - len {
        CopyToStack(slice);
      } else {
        Spill(stack[..len] + slice);
      }
    }

    method CopyToStack(slice: seq<string>)
      requires Valid() && !spilled && |slice| <= SMALL_LEN - len
      modifies this`len, stack
      ensures Valid() && !spilled && AsSlice() == old(AsSlice()) + slice
    {
      for i := 0 to |slice|
        invariant Valid() && !spilled && len == old(len) + i
        invariant stack[..len] == old(AsSlice()) + slice[..i]
      {
        stack[len] := slice[i];
        len := len + 1;
      }
      assert slice[..|slice|] == slice;
    }

    /** Appends the items of an iterator that promises at least `lower` of them. Whatever it promises, the
        segments spill exactly when they no longer fit. */
    method Extend(items: seq<string>, lower: nat)
      requires Valid() && lower <= |items|
      modifies this, stack
      ensures Valid() && AsSlice() == old(AsSlice()) + items
      ensures spilled == old(spilled || |AsSlice()| + |items| > SMALL_LEN)
    {
      if spilled {
        heap := heap + items;
        return;
      }
      if SMALL_LEN - len < lower {
        Spill(stack[..len] + items);
        return;
      }
      var room := SMALL_LEN - len;
      var count := if room < |items| then room else |items|;
      CopyToStack(items[..count]);
      if count < |items| {
        var segments := stack[..len] + [items[count]];
        assert items == items[..count] + [items[count]] + items[count + 1..];
        Spill(segments + items[count + 1..]);
      } else {
        assert items[..count] == items;
      }
    }
  }

  // ---------- Names of expressions ----------

  datatype Expr = NameExpr(id: string) | Attribute(value: Expr, attr: string) | OtherExpr

  /** The segments of a name with any number of attributes. */
  function Dotted(e: Expr): Option<seq<string>> {
    match e
    case NameExpr(id) => Some([id])
    case Attribute(value, attr) =>
      var outer := Dotted(value);
      if outer.Some? then Some(outer.value + [attr]) else None
    case OtherExpr => None
  }

  /** The segments of `e` with more attributes around it. */
  function DottedThen(e: Expr, outer: seq<string>): Option<seq<string>> {
    var inner := Dotted(e);
    if inner.Some? then Some(inner.value + outer) else None
  }

  /** What the unrolled code returns where the attributes `outer` end, at `e`. */
  function Unrolled(e: Expr, outer: seq<string>): Option<seq<string>> {
    match e
    case NameExpr(id) => Some([id] + outer)
    case _ => None
  }

  /** `collect_call_path`: eight levels by hand, then a recursive call. The slices list attributes innermost first. */
  function CollectCallPath(e: Expr): (r: Option<seq<string>>) {
    if !e.Attribute? then Unrolled(e, [])
    else
        var (e1, s1) := (e.value, [e.attr]);
        if !e1.Attribute? then Unrolled(e1, s1)
        else
          var (e2, s2) := (e1.value, [e1.attr] + s1);
          if !e2.Attribute? then Unrolled(e2, s2)
          else
            var (e3, s3) := (e2.value, [e2.attr] + s2);
            if !e3.Attribute? then Unrolled(e3, s3)
            else
              var (e4, s4) := (e3.value, [e3.attr] + s3);
              if !e4.Attribute? then Unrolled(e4, s4)
              else
                var (e5, s5) := (e4.value, [e4.attr] + s4);
                if !e5.Attribute? then Unrolled(e5, s5)
                else
                  var (e6, s6) := (e5.value, [e5.attr] + s5);
                  if !e6.Attribute? then Unrolled(e6, s6)
                  else
                    var (e7, s7) := (e6.value, [e6.attr] + s6);
                    if !e7.Attribute? then Unrolled(e7, s7)
                    else
                      var (e8, s8) := (e7.value, [e7.attr] + s7);
                      var segments := CollectCallPath(e8);
                      if segments.None? then None else Some(segments.value + s8)
  }

  lemma NothingFollows(e: Expr)
    ensures DottedThen(e, []) == Dotted(e)
  {
    if Dotted(e).Some? {
      assert Dotted(e).value + [] == Dotted(e).value;
    }
  }

  /** One level: an attribute joins those around it, and anything else ends the traversal. */
  lemma Peel(e: Expr, outer: seq<string>)
    ensures e.Attribute? ==> DottedThen(e, outer) == DottedThen(e.value, [e.attr] + outer)
    ensures !e.Attribute? ==> DottedThen(e, outer) == Unrolled(e, outer)
  {
    if e.Attribute? && Dotted(e.value).Some? {
      assert Dotted(e.value).value + [e.attr] + outer == Dotted(e.value).value + ([e.attr] + outer);
    }
  }

  lemma UnrolledMeans(e: Expr, outer: seq<string>)
    ensures Unrolled(e, outer) == if e.NameExpr? then Some([e.id] + outer) else None
  {
  }

  /** The unrolled traversal gives the segments of the simple recursion, at every depth. */
  lemma {:induction false} CollectIsDotted(e: Expr)
    ensures CollectCallPath(e) == Dotted(e)
    decreases e
  {
    hide Unrolled;
    NothingFollows(e);
    Peel(e, []);
    if !e.Attribute? {
      return;
    }
    var e1, s1 := e.value, [e.attr];
    assert [e.attr] + [] == s1;
    Peel(e1, s1);
    if !e1.Attribute? {
      return;
    }
    var e2, s2 := e1.value, [e1.attr] + s1;
    Peel(e2, s2);
    if !e2.Attribute? {
      return;
    }
    var e3, s3 := e2.value, [e2.attr] + s2;
    Peel(e3, s3);
    if !e3.Attribute? {
      return;
    }
    var e4, s4 := e3.value, [e3.attr] + s3;
    Peel(e4, s4);
    if !e4.Attribute? {
      return;
    }
    var e5, s5 := e4.value, [e4.attr] + s4;
    Peel(e5, s5);
    if !e5.Attribute? {
      return;
    }
    var e6, s6 := e5.value, [e5.attr] + s5;
    Peel(e6, s6);
    if !e6.Attribute? {
      return;
    }
    var e7, s7 := e6.value, [e6.attr] + s6;
    Peel(e7, s7);
    if !e7.Attribute? {
      return;
    }
    var e8, s8 := e7.value, [e7.attr] + s7;
    CollectIsDotted(e8);
  }

  /** `UnqualifiedName::from_expr`: eight levels by hand, then a loop that collects the rest backward. */
  method FromExpr(expr: Expr) returns (r: Option<seq<string>>)
    ensures r == Dotted(expr)
  {
    hide Unrolled, DottedThen;
    NothingFollows(expr);
    var attr1 := expr;
    Peel(attr1, []);
    if !attr1.Attribute? {
      return Unrolled(attr1, []);
    }
    var attr2, s1 := attr1.value, [attr1.attr];
    assert [attr1.attr] + [] == s1;
    Peel(attr2, s1);
    if !attr2.Attribute? {
      return Unrolled(attr2, s1);
    }
    var attr3, s2 := attr2.value, [attr2.attr] + s1;
    Peel(attr3, s2);
    if !attr3.Attribute? {
      return Unrolled(attr3, s2);
    }
    var attr4, s3 := attr3.value, [attr3.attr] + s2;
    Peel(attr4, s3);
    if !attr4.Attribute? {
      return Unrolled(attr4, s3);
    }
    var attr5, s4 := attr4.value, [attr4.attr] + s3;
    Peel(attr5, s4);
    if !attr5.Attribute? {
      return Unrolled(attr5, s4);
    }
    var attr6, s5 := attr5.value, [attr5.attr] + s4;
    Peel(attr6, s5);
    if !attr6.Attribute? {
      return Unrolled(attr6, s5);
    }
    var attr7, s6 := attr6.value, [attr6.attr] + s5;
    Peel(attr7, s6);
    if !attr7.Attribute? {
      return Unrolled(attr7, s6);
    }
    var attr8, s7 := attr7.value, [attr7.attr] + s6;
    Peel(attr8, s7);
    if !attr8.Attribute? {
      return Unrolled(attr8, s7);
    }
    var rest, s8 := attr8.value, [attr8.attr] + s7;
    r := CollectRest(rest, s8);
  }

  /** The part of the traversal that is a loop: attributes from the outside in, reversed at the end. */
  method CollectRest(expr: Expr, last: seq<string>) returns (r: Option<seq<string>>)
    ensures r == DottedThen(expr, last)
  {
    hide Unrolled, DottedThen;
    var segments := [];
    var current := expr;
    assert Reverse(segments) + last == last;
    while current.Attribute?
      invariant DottedThen(expr, last) == DottedThen(current, Reverse(segments) + last)
      decreases current
    {
      Peel(current, Reverse(segments) + last);
      ReverseAppends(segments, current.attr);
      assert [current.attr] + (Reverse(segments) + last) == Reverse(segments + [current.attr]) + last;
      segments := segments + [current.attr];
      current := current.value;
    }
    Peel(current, Reverse(segments) + last);
    UnrolledMeans(current, Reverse(segments) + last);
    if current.OtherExpr? {
      return None;
    }
    ReverseAppends(segments, current.id);
    assert [current.id] + (Reverse(segments) + last) == Reverse(segments + [current.id]) + last;
    segments := Reverse(segments + [current.id]);
    r := Some(segments + last);
  }

  /** The expression as it is written. */
  function Written(e: Expr): Option<string> {
    match e
    case NameExpr(id) => Some(id)
    case Attribute(value, attr) =>
      var before := Written(value);
      if before.Some? then Some(before.value + "." + attr) else None
    case OtherExpr => None
  }

  /** The segments collected from an expression, joined by dots, are the expression as it is written; there are none
      exactly when it is not made of names and attributes. */
  lemma {:induction false} DottedReadsAsWritten(e: Expr)
    ensures Dotted(e).Some? ==> Dotted(e).value != [] && Written(e) == Some(Join(Dotted(e).value))
    ensures Dotted(e).None? ==> Written(e).None?
  {
    if e.Attribute? {
      DottedReadsAsWritten(e.value);
      if Dotted(e.value).Some? {
        JoinAppends(Dotted(e.value).value, e.attr);
      }
    }
  }

  lemma {:induction false} JoinAppends(segments: seq<string>, last: string)
    requires segments != []
    ensures Join(segments + [last]) == Join(segments) + "." + last
  {
    if |segments| > 1 {
      JoinAppends(segments[1..], last);
      assert (segments + [last])[1..] == segments[1..] + [last];
    } else {
      assert (segments + [last])[1..] == [last];
    }
  }

  // ---------- Showing names ----------

  /** The pieces of `s` between dots. */
  function Split(s: string): (r: seq<string>)
    ensures r != []
  {
    if s == [] then [[]]
    else
      var rest := Split(s[1..]);
      if s[0] == '.' then [[]] + rest else [[s[0]] + rest[0]] + rest[1..]
  }

  function Join(segments: seq<string>): string {
    if segments == [] then []
    else if |segments| == 1 then segments[0]
    else segments[0] + "." + Join(segments[1..])
  }

  lemma {:induction false} JoinUndoesSplit(s: string)
    ensures Join(Split(s)) == s
  {
    if s != [] {
      JoinUndoesSplit(s[1..]);
      var rest := Split(s[1..]);
      if s[0] == '.' {
        assert ([[]] + rest)[1..] == rest;
        assert Join(Split(s)) == "" + "." + Join(rest);
      } else {
        var all := [[s[0]] + rest[0]] + rest[1..];
        assert all[1..] == rest[1..];
        assert Join(all) == [s[0]] + Join(rest);
      }
    }
  }

  function FirstDot(name: string): (i: nat)
    ensures i <= |name| && (i < |name| ==> name[i] == '.') && '.' !in name[..i]
  {
    if name == [] || name[0] == '.' then 0 else FirstDot(name[1..]) + 1
  }

  /** `QualifiedName::from_dotted_name`: a name without a dot is a builtin. */
  function FromDottedName(name: string): seq<string> {
    var dot := FirstDot(name);
    if dot < |name| then [name[..dot]] + Split(name[dot + 1..]) else ["", name]
  }

  /** `call_path::from_qualified_name`. */
  function FromQualifiedName(name: string): seq<string> {
    if '.' in name then Split(name) else ["", name]
  }

  lemma {:induction false} SplitAtFirstDot(name: string)
    ensures Split(name) == if FirstDot(name) < |name|
              then [name[..FirstDot(name)]] + Split(name[FirstDot(name) + 1..]) else [name]
  {
    if name != [] && name[0] == '.' {
      assert name[..0] == [];
    } else if name != [] {
      var rest := name[1..];
      var dot := FirstDot(rest);
      SplitAtFirstDot(rest);
      assert name[..dot + 1] == [name[0]] + rest[..dot];
      if dot < |rest| {
        assert name[dot + 2..] == rest[dot + 1..];
        assert Split(rest)[1..] == Split(rest[dot + 1..]);
      } else {
        assert name == [name[0]] + rest && Split(rest)[1..] == [];
      }
    }
  }

  /** The two constructors agree. */
  lemma ConstructorsAgree(name: string)
    ensures FromDottedName(name) == FromQualifiedName(name)
  {
    hide Split, FirstDot;
    SplitAtFirstDot(name);
    var dot := FirstDot(name);
    if dot == |name| {
      assert name[..dot] == name;
    } else {
      assert name[dot] in name;
    }
  }

  /** The text after the segment at `i`, each further one after a dot. */
  function DottedTail(segments: seq<string>): string {
    if segments == [] then [] else "." + segments[0] + DottedTail(segments[1..])
  }

  /** A relative import: leading dots stand alone, and the first other segment follows them directly. */
  function ShowRelative(segments: seq<string>): string {
    if segments == [] then []
    else if segments[0] == "." then "." + ShowRelative(segments[1..])
    else segments[0] + DottedTail(segments[1..])
  }

  /** How a name is shown: relative, builtin or plain. */
  function Show(segments: seq<string>): string {
    if segments != [] && segments[0] == "." then ShowRelative(segments)
    else if segments != [] && segments[0] == "" then Join(segments[1..])
    else Join(segments)
  }

  lemma {:induction false} JoinIsTail(segments: seq<string>)
    requires segments != []
    ensures Join(segments) == segments[0] + DottedTail(segments[1..])
  {
    if |segments| > 1 {
      JoinIsTail(segments[1..]);
      assert segments[0] + "." + (segments[1] + DottedTail(segments[1..][1..]))
             == segments[0] + ("." + segments[1] + DottedTail(segments[1..][1..]));
    } else {
      assert segments[0] + [] == segments[0];
    }
  }

  /** A name without a dot is a builtin, with an empty segment before it; any other name is its pieces between dots, in
      order: they join to it again and have no dots in them. */
  lemma SegmentsOfDotted(name: string)
    ensures '.' !in name ==> FromDottedName(name) == ["", name]
    ensures '.' in name ==> Join(FromDottedName(name)) == name && |FromDottedName(name)| > 1
    ensures forall segment <- FromDottedName(name) :: '.' !in segment
  {
    ConstructorsAgree(name);
    JoinUndoesSplit(name);
    PiecesHaveNoDots(name);
    if '.' in name {
      SplitAtFirstDot(name);
    }
  }

  lemma {:induction false} PiecesHaveNoDots(s: string)
    ensures forall piece <- Split(s) :: '.' !in piece
    ensures '.' in s ==> |Split(s)| > 1
  {
    if s != [] {
      PiecesHaveNoDots(s[1..]);
    }
  }

  function Dots(k: nat): string {
    seq(k, _ => '.')
  }

  function DotSegments(k: nat): seq<string> {
    seq(k, _ => ".")
  }

  /** A relative name is shown as its leading dots right before the rest, which is shown as a plain dotted name. */
  lemma {:induction false} RelativeIsDotsAndRest(k: nat, rest: seq<string>)
    requires k > 0 && (rest != [] ==> rest[0] != ".")
    ensures Show(DotSegments(k) + rest) == Dots(k) + Join(rest)
  {
    DotsFirst(k, rest);
    assert (DotSegments(k) + rest)[0] == ".";
  }

  lemma {:induction false} DotsFirst(k: nat, rest: seq<string>)
    requires rest != [] ==> rest[0] != "."
    ensures ShowRelative(DotSegments(k) + rest) == Dots(k) + Join(rest)
  {
    if k == 0 {
      assert DotSegments(0) + rest == rest;
      assert Dots(0) + Join(rest) == Join(rest);
      if rest != [] {
        JoinIsTail(rest);
      }
    } else {
      DotsFirst(k - 1, rest);
      assert (DotSegments(k) + rest)[1..] == DotSegments(k - 1) + rest;
      assert "." + (Dots(k - 1) + Join(rest)) == Dots(k) + Join(rest);
    }
  }

  /** A builtin is shown without the empty segment before it. */
  lemma BuiltinIsRest(rest: seq<string>)
    ensures Show([""] + rest) == Join(rest)
  {
    assert ([""] + rest)[1..] == rest;
  }

  /** Showing a name gives back the dotted text it came from exactly when that does not begin with a dot. */
  lemma ShowUndoesFromDotted(name: string)
    ensures Show(FromDottedName(name)) == name <==> !(name != [] && name[0] == '.')
  {
    ConstructorsAgree(name);
    JoinUndoesSplit(name);
    SplitAtFirstDot(name);
    var dot := FirstDot(name);
    if dot == |name| {
      assert '.' !in name;
      assert FromDottedName(name)[1..] == [name];
    } else {
      var segments := FromDottedName(name);
      assert segments[0] == name[..dot];
      if dot == 0 {
        JoinUndoesSplit(name[1..]);
        assert segments[1..] == Split(name[1..]);
        assert |Show(segments)| == |name| - 1;
      } else {
        assert segments[0] != "." by {
          assert name[0] == segments[0][0];
          assert name[0] in name[..dot];
        }
      }
    }
  }

  /** The segments from `from` on, each after a dot unless it is the first. */
  method WriteJoined(segments: seq<string>, from: nat) returns (text: string)
    requires from <= |segments|
    ensures text == Join(segments[from..])
  {
    hide Join;
    ghost var whole := Join(segments[from..]);
    text := "";
    var first := true;
    for i := from to |segments|
      invariant first <==> i == from
      invariant if first then text == "" else whole == text + DottedTail(segments[i..])
    {
      assert segments[i..][1..] == segments[i + 1..];
      if first {
        JoinIsTail(segments[i..]);
        text := text + segments[i];
      } else {
        DottedStep(text, segments, i);
        text := text + "." + segments[i];
      }
      first := false;
    }
    assert segments[|segments|..] == [];
    JoinNothing();
    assert text + [] == text;
  }

  lemma JoinNothing()
    ensures Join([]) == ""
  {
  }

  lemma DottedStep(text: string, segments: seq<string>, i: nat)
    requires i < |segments|
    ensures text + DottedTail(segments[i..]) == (text + "." + segments[i]) + DottedTail(segments[i + 1..])
  {
    assert segments[i..][1..] == segments[i + 1..];
    assert text + ("." + segments[i] + DottedTail(segments[i + 1..]))
           == (text + "." + segments[i]) + DottedTail(segments[i + 1..]);
  }

  /** Writes a relative import: dots, then the first segment that is not one, then the rest after dots. */
  method WriteRelative(segments: seq<string>) returns (text: string)
    ensures text == ShowRelative(segments)
  {
    hide ShowRelative;
    text := "";
    var i := 0;
    assert segments[0..] == segments;
    assert "" + ShowRelative(segments) == ShowRelative(segments);
    while i < |segments| && segments[i] == "."
      invariant i <= |segments|
      invariant ShowRelative(segments) == text + ShowRelative(segments[i..])
    {
      RelativeStep(text, segments, i);
      text := text + ".";
      i := i + 1;
    }
    RelativeStep(text, segments, i);
    if i == |segments| {
      return;
    }
    text := WriteTail(segments, i + 1, text + segments[i]);
  }

  lemma RelativeStep(text: string, segments: seq<string>, i: nat)
    requires i <= |segments|
    ensures text + ShowRelative(segments[i..]) ==
            if i == |segments| then text
            else if segments[i] == "." then (text + ".") + ShowRelative(segments[i + 1..])
            else (text + segments[i]) + DottedTail(segments[i + 1..])
  {
    if i < |segments| {
      assert segments[i..][1..] == segments[i + 1..];
      assert text + ("." + ShowRelative(segments[i + 1..])) == (text + ".") + ShowRelative(segments[i + 1..]);
      assert text + (segments[i] + DottedTail(segments[i + 1..]))
             == (text + segments[i]) + DottedTail(segments[i + 1..]);
    } else {
      assert segments[i..] == [] && text + [] == text;
    }
  }

  /** Writes the segments from `from` on after `text`, each after a dot. */
  method WriteTail(segments: seq<string>, from: nat, written: string) returns (text: string)
    requires from <= |segments|
    ensures text == written + DottedTail(segments[from..])
  {
    text := written;
    for i := from to |segments|
      invariant written + DottedTail(segments[from..]) == text + DottedTail(segments[i..])
    {
      DottedStep(text, segments, i);
      text := text + "." + segments[i];
    }
    assert segments[|segments|..] == [];
    assert text + [] == text;
  }

  /** `Display` for qualified names. */
  method DisplayQualifiedName(segments: seq<string>) returns (text: string)
    ensures text == Show(segments)
  {
    if segments != [] && segments[0] == "." {
      text := WriteRelative(segments);
    } else {
      var from := if segments != [] && segments[0] == "" then 1 else 0;
      text := WriteJoined(segments, from);
      assert segments[0..] == segments;
    }
  }

  /** `format_call_path`: the builtin case comes first, and joins are library calls. */
  method FormatCallPath(segments: seq<string>) returns (text: string)
    ensures text == Show(segments)
  {
    if segments != [] && segments[0] == "" {
      text := Join(segments[1..]);
    } else if segments != [] && segments[0] == "." {
      text := WriteRelative(segments);
    } else {
      text := Join(segments);
    }
  }
}
