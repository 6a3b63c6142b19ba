/** The literal text between the replacement fields of an f-string. */
module FStringScan {
  import opened Text
  import opened Tokens

  /** What the scanner does with the next character: stop before it, give up, or take the
      characters up to `pos`, which stand for `piece` in the token value. */
  datatype Step =
    | Stop
    | GiveUp(problem: FStringError)
    | Take(pos: nat, piece: string, named: bool)

  /** `named`: inside the name of a `\N{...}` escape, whose closing brace is text. */
  function NextStep(src: string, flags: Flags, inSpec: bool, p: nat, named: bool): (r: Step)
    requires p <= |src|
    ensures r.Take? ==>
              p < r.pos <= |src| && (r.piece == src[p..r.pos] || (!inSpec && r.pos == p + 2 && r.piece == [src[p]]))
  {
    if p == |src| then GiveUp(if flags.tripleQuoted then UnterminatedTripleQuotedString else UnterminatedString)
    else
      var c := src[p];
      if IsNewline(c) && !flags.tripleQuoted then
        if inSpec then Stop else GiveUp(UnterminatedString)
      else if c == '\\' then BackslashStep(src, flags, p, named)
      else if c == flags.QuoteChar() then
        if flags.tripleQuoted && !IsTriple(src, c, p) then Take(p + 1, [c], named) else Stop
      else if c == '{' || c == '}' then BraceStep(src, inSpec, p, named)
      else Take(p + 1, [c], named)
  }

  /** Literal text ends at a closing quote, at a brace that is neither doubled nor the end of a character name,
      and at a line break that ends a format specification. */
  predicate EndsText(src: string, flags: Flags, inSpec: bool, p: nat, named: bool) {
    p < |src| &&
    var c := src[p];
    || (c == flags.QuoteChar() && (flags.tripleQuoted ==> IsTriple(src, c, p)))
    || (c in {'{', '}'} && !(named && c == '}') && (inSpec || Second(src, p) != c))
    || (IsNewline(c) && inSpec && !flags.tripleQuoted)
  }

  /** The scan stops exactly where literal text ends, gives up exactly where the f-string can no longer be
      closed, and takes what comes next everywhere else. */
  lemma StopsWhereTextEnds(src: string, flags: Flags, inSpec: bool, p: nat, named: bool)
    requires p <= |src|
    ensures var step := NextStep(src, flags, inSpec, p, named);
            && (step.Stop? <==> EndsText(src, flags, inSpec, p, named))
            && (step.GiveUp? <==> p == |src| || (IsNewline(src[p]) && !inSpec && !flags.tripleQuoted))
            && (step.GiveUp? ==> (step.problem == UnterminatedTripleQuotedString <==> flags.tripleQuoted))
  {
  }

  /** What the scan takes where it does not stop, as one piece: a doubled brace outside format specifications, for
      which one stands; a backslash with what it escapes, be it a whole CRLF, but without a brace behind it, which is
      looked at next; the beginning of a named character with its opening brace, after which the closing brace is text;
      and otherwise one character. Names are followed from their opening brace to their closing one. */
  lemma TakesOnePiece(src: string, flags: Flags, inSpec: bool, p: nat, named: bool)
    requires p < |src| && NextStep(src, flags, inSpec, p, named).Take?
    ensures var c, c1, step := src[p], First(src, p + 1), NextStep(src, flags, inSpec, p, named);
            var opensName := c == '\\' && !flags.IsRaw() && c1 == 'N' && First(src, p + 2) == '{';
            var doubled := c in {'{', '}'} && !(named && c == '}');
            && step.pos == (if doubled then p + 2
                            else if c != '\\' || c1 in {'{', '}'} || p + 1 == |src| then p + 1
                            else if opensName || (c1 == '\r' && First(src, p + 2) == '\n') then p + 3
                            else p + 2)
            && step.pos <= |src|
            && step.piece == (if doubled then [c] else src[p..step.pos])
            && (doubled ==> !inSpec && c1 == c)
            && step.named == (opensName || (named && c != '}'))
  {
  }

  /** A backslash takes the escaped character with it, but leaves a brace to be looked at next. */
  function BackslashStep(src: string, flags: Flags, p: nat, named: bool): (r: Step)
    requires p < |src| && src[p] == '\\'
    ensures r.Take? && p < r.pos <= |src| && r.piece == src[p..r.pos]
  {
    var next := First(src, p + 1);
    if next == '{' || next == '}' then Take(p + 1, src[p..p + 1], named)
    else if !flags.IsRaw() && next == 'N' && Second(src, p + 1) == '{' then Take(p + 3, src[p..p + 3], true)
    else
      var end := EscapeEnd(src, p);
      Take(end, src[p..end], named)
  }

  /** A doubled brace is one brace, outside format specifications; the brace after a character name is text. */
  function BraceStep(src: string, inSpec: bool, p: nat, named: bool): (r: Step)
    requires p < |src| && (src[p] == '{' || src[p] == '}')
    ensures r.Take? ==>
              p < r.pos <= |src| && (r.piece == src[p..r.pos] || (!inSpec && r.pos == p + 2 && r.piece == [src[p]]))
    ensures !r.GiveUp?
  {
    var c := src[p];
    if c == '}' && named then Take(p + 1, src[p..p + 1], false)
    else if Second(src, p) == c && !inSpec then Take(p + 2, [c], named)
    else Stop
  }

  /** The end of the escape whose backslash is at `p`; a carriage return and a line feed go together. */
  function EscapeEnd(src: string, p: nat): (end: nat)
    requires p < |src|
    ensures p < end <= |src|
  {
    if p + 1 == |src| then p + 1
    else if src[p + 1] == '\r' && First(src, p + 2) == '\n' then p + 3
    else p + 2
  }

  datatype Middle = Text(pos: nat, value: string) | Unterminated(pos: nat, problem: FStringError)

  function Prepend(piece: string, m: Middle): Middle {
    if m.Text? then m.(value := piece + m.value) else m
  }

  /** The literal text from `p` on, built one step at a time with every doubled brace collapsed. */
  function ScanMiddle(src: string, flags: Flags, inSpec: bool, p: nat, named: bool): (r: Middle)
    requires p <= |src|
    ensures p <= r.pos <= |src|
    decreases |src| - p
  {
    match NextStep(src, flags, inSpec, p, named)
    case Stop => Text(p, "")
    case GiveUp(problem) => Unterminated(p, problem)
    case Take(next, piece, named') => Prepend(piece, ScanMiddle(src, flags, inSpec, next, named'))
  }

  /** What a scan has built: the text already copied, and the source from `from` to `p` that is not copied yet. */
  function Built(src: string, copied: string, from: nat, p: nat): string
    requires from <= p <= |src|
  {
    copied + src[from..p]
  }

  lemma BuiltIs(src: string, copied: string, from: nat, p: nat)
    requires from <= p <= |src|
    ensures Built(src, copied, from, p) == copied + src[from..p]
    ensures copied == [] ==> Built(src, copied, from, p) == src[from..p]
    ensures copied == [] && from == p ==> Built(src, copied, from, p) == []
  {
  }

  lemma BuiltGrows(src: string, copied: string, from: nat, p: nat, q: nat)
    requires from <= p <= q <= |src|
    ensures Built(src, copied, from, q) == Built(src, copied, from, p) + src[p..q]
  {
    assert src[from..q] == src[from..p] + src[p..q];
  }

  /** The doubled braces the scan collapses. */
  function DoubledBraces(src: string, flags: Flags, inSpec: bool, p: nat, named: bool): (n: nat)
    requires p <= |src|
    decreases |src| - p
  {
    match NextStep(src, flags, inSpec, p, named)
    case Take(next, piece, named') =>
      (if |piece| < next - p then 1 else 0) + DoubledBraces(src, flags, inSpec, next, named')
    case _ => 0
  }

  /** A piece and a value after it make a source slice exactly when each is a slice. */
  lemma TakeIsSlice(src: string, p: nat, next: nat, end: nat, piece: string, value: string)
    requires p <= next <= end <= |src| && |piece| <= next - p && |value| <= end - next
    ensures src[p..end] == src[p..next] + src[next..end]
    ensures piece + value == src[p..end] <==> piece == src[p..next] && value == src[next..end]
  {
    if piece + value == src[p..end] {
      assert |piece| == next - p;
      assert piece == (piece + value)[..|piece|] == src[p..next];
      assert value == (piece + value)[|piece|..] == src[next..end];
    }
  }

  /** One step of counting the doubled braces. */
  lemma CountOne(src: string, flags: Flags, inSpec: bool, p: nat, named: bool)
    requires p <= |src|
    ensures DoubledBraces(src, flags, inSpec, p, named) ==
              match NextStep(src, flags, inSpec, p, named)
              case Take(next, piece, named') =>
                (if |piece| < next - p then 1 else 0) + DoubledBraces(src, flags, inSpec, next, named')
              case _ => 0
  {
    hide NextStep;
  }

  /** The value is the source slice less one brace for every doubled one, and it is the slice
      itself exactly when there is none; a format specification has none to collapse. */
  lemma {:induction false} ValueLength(src: string, flags: Flags, inSpec: bool, p: nat, named: bool)
    requires p <= |src|
    requires ScanMiddle(src, flags, inSpec, p, named).Text?
    ensures var m := ScanMiddle(src, flags, inSpec, p, named);
            var n := DoubledBraces(src, flags, inSpec, p, named);
            && |m.value| + n == m.pos - p
            && (m.value == src[p..m.pos] <==> n == 0)
            && (inSpec ==> n == 0)
    decreases |src| - p
  {
    hide NextStep, DoubledBraces;
    CountOne(src, flags, inSpec, p, named);
    match NextStep(src, flags, inSpec, p, named)
    case Take(next, piece, named') =>
      ValueLength(src, flags, inSpec, next, named');
      var m := ScanMiddle(src, flags, inSpec, next, named');
      if m.Text? {
        TakeIsSlice(src, p, next, m.pos, piece, m.value);
      }
    case _ =>
  }

  /** One step of a scan that has already copied `copied`, from `begin` to `p`. */
  lemma TakeOne(src: string, flags: Flags, inSpec: bool, begin: nat, p: nat, named: bool, copied: string)
    requires begin <= p <= |src|
    requires ScanMiddle(src, flags, inSpec, begin, false) == Prepend(copied, ScanMiddle(src, flags, inSpec, p, named))
    ensures match NextStep(src, flags, inSpec, p, named)
            case Take(next, piece, named') =>
              ScanMiddle(src, flags, inSpec, begin, false)
              == Prepend(copied + piece, ScanMiddle(src, flags, inSpec, next, named'))
            case Stop => ScanMiddle(src, flags, inSpec, begin, false) == Text(p, copied)
            case GiveUp(problem) => ScanMiddle(src, flags, inSpec, begin, false) == Unterminated(p, problem)
  {
    hide NextStep;
    match NextStep(src, flags, inSpec, p, named)
    case Take(next, piece, named') => PrependAssociates(copied, piece, ScanMiddle(src, flags, inSpec, next, named'));
    case Stop => assert copied + "" == copied;
    case GiveUp(_) =>
  }

  lemma PrependAssociates(a: string, b: string, m: Middle)
    ensures Prepend(a, Prepend(b, m)) == Prepend(a + b, m)
  {
    if m.Text? {
      assert a + (b + m.value) == (a + b) + m.value;
    }
  }

  lemma PrependNothing(m: Middle)
    ensures Prepend("", m) == m
  {
    if m.Text? {
      assert "" + m.value == m.value;
    }
  }
}
