/** Decoding of string literals, one character at a time
    (the escape table of section 2.4.1 of the Python Language Reference). */
module Decoder {
  import opened Text
  import opened Tokens
  import opened Integers
  import StringScan

  const REPLACEMENT: char := '\U{FFFD}'

  /** A literal's text, what kind of literal it is, and the table of Unicode character names. */
  datatype Literal = Literal(text: string, bytes: bool, names: string -> Option<char>) {
    /** No character has a name with a backslash in it. */
    ghost predicate NamesArePlain() {
      forall name :: '\\' in name ==> names(name) == None
    }
  }

  /** An error in a literal, located in its text. */
  datatype Problem = Problem(kind: ErrorKind, location: Range)

  /** What an escape stands for: a character, a backslash with the character after it, or nothing
      at all; and where the text goes on. */
  datatype Escape =
    | Stands(c: char, pos: nat)
    | Kept(c: char, pos: nat)
    | Joined(pos: nat)
    | Invalid(problem: Problem)

  /** The escape whose first character after the backslash is at `p`. */
  function DecodeEscape(l: Literal, p: nat): (r: Escape)
    requires p <= |l.text|
    ensures !r.Invalid? ==> p < r.pos <= |l.text|
  {
    if p == |l.text| then Invalid(Problem(StringError, Range(p, p)))
    else
      var c := l.text[p];
      if c == '\\' || c == '\'' || c == '"' then Stands(c, p + 1)
      else if c == 'a' then Stands('\U{07}', p + 1)
      else if c == 'b' then Stands('\U{08}', p + 1)
      else if c == 'f' then Stands('\U{0C}', p + 1)
      else if c == 'n' then Stands('\n', p + 1)
      else if c == 'r' then Stands('\r', p + 1)
      else if c == 't' then Stands('\t', p + 1)
      else if c == 'v' then Stands('\U{0B}', p + 1)
      else if '0' <= c <= '7' then
        var end := OctalEnd(l.text, p);
        OctalFits(l.text, p);
        Stands(PositionalValue(8, l.text[p..end]) as char, end)
      else if c == 'x' then DecodeHex(l.text, p + 1, 2)
      else if c == 'u' && !l.bytes then DecodeHex(l.text, p + 1, 4)
      else if c == 'U' && !l.bytes then DecodeHex(l.text, p + 1, 8)
      else if c == 'N' && !l.bytes then DecodeName(l, p + 1)
      else if c == '\n' then Joined(p + 1)
      else if c == '\r' then Joined(if First(l.text, p + 1) == '\n' then p + 2 else p + 1)
      else Kept(c, p + 1)
  }

  predicate IsOctal(c: char) {
    '0' <= c <= '7'
  }

  /** The end of the one to three octal digits from `p` on. */
  function OctalEnd(text: string, p: nat): (end: nat)
    requires p < |text| && IsOctal(text[p])
    ensures p < end <= |text| && end <= p + 3
    ensures forall k :: p <= k < end ==> IsOctal(text[k])
    ensures end == p + 3 || end == |text| || !IsOctal(text[end])
  {
    if p + 1 < |text| && IsOctal(text[p + 1]) then
      if p + 2 < |text| && IsOctal(text[p + 2]) then p + 3 else p + 2
    else p + 1
  }

  /** The position of the first character of `text` from `p` on that is not a hexadecimal digit, up to `end`. */
  function HexEnd(text: string, p: nat, end: nat): (r: nat)
    requires p <= end && p <= |text|
    ensures p <= r <= end && r <= |text|
    ensures forall k :: p <= k < r ==> IsRadixDigit(16, text[k])
    ensures r == end || r == |text| || !IsRadixDigit(16, text[r])
    decreases end - p
  {
    if p < end && p < |text| && IsRadixDigit(16, text[p]) then HexEnd(text, p + 1, end) else p
  }

  /** Exactly `count` hexadecimal digits from `p` on: the code point they denote.
      A surrogate becomes the replacement character. */
  function DecodeHex(text: string, p: nat, count: nat): (r: Escape)
    requires p <= |text| && count > 0
    ensures !r.Invalid? ==> r.Stands? && r.pos == p + count <= |text|
  {
    var end := HexEnd(text, p, p + count);
    if end < p + count then
      Invalid(Problem(UnicodeError, Range(end, if end < |text| then end + 1 else end)))
    else CodePoint(PositionalValue(16, text[p..end]), end)
  }

  function CodePoint(v: nat, pos: nat): (r: Escape)
    ensures !r.Invalid? ==> r.Stands? && r.pos == pos
  {
    if 0xD800 <= v <= 0xDFFF then Stands(REPLACEMENT, pos)
    else if v > 0x10FFFF then Invalid(Problem(UnicodeError, Range(pos, pos)))
    else Stands(v as char, pos)
  }

  function DecodeName(l: Literal, p: nat): (r: Escape)
    requires p <= |l.text|
    ensures !r.Invalid? ==> r.Stands? && p < r.pos <= |l.text|
  {
    if First(l.text, p) != '{' then Invalid(Problem(MissingUnicodeLbrace, Range(p, p)))
    else
      var close := FindAny(l.text, p + 1, {'}'});
      if close == |l.text| then Invalid(Problem(MissingUnicodeRbrace, Range(close, close)))
      else
        match l.names(l.text[p + 1..close])
        case Some(c) => Stands(c, close + 1)
        case None => Invalid(Problem(UnicodeError, Range(p + 1, close)))
  }

  /** Three octal digits stay below 512, so they always denote a character. */
  lemma OctalFits(text: string, p: nat)
    requires p < |text| && IsOctal(text[p])
    ensures PositionalValue(8, text[p..OctalEnd(text, p)]) <= 511
  {
    ValueBelowPower(8, text[p..OctalEnd(text, p)]);
    assert Power(8, 1) == 8 && Power(8, 2) == 64 && Power(8, 3) == 512;
  }

  function Power(base: nat, exponent: nat): nat {
    if exponent == 0 then 1 else base * Power(base, exponent - 1)
  }

  lemma {:induction false} ValueBelowPower(radix: nat, text: string)
    requires AllDigits(radix, text)
    ensures PositionalValue(radix, text) < Power(radix, |text|)
  {
    if text != [] {
      var rest, last := text[..|text| - 1], text[|text| - 1];
      assert last in text;
      assert forall c <- rest :: c in text;
      ValueBelowPower(radix, rest);
      DigitBelow(PositionalValue(radix, rest), Power(radix, |rest|), radix, DigitValue(last));
    }
  }

  lemma DigitBelow(v: nat, w: nat, radix: nat, digit: nat)
    requires v < w && digit < radix
    ensures v * radix + digit < radix * w
  {
    assert (v + 1) * radix <= w * radix;
  }

  // ---------- Whole literals ----------

  datatype Decoded = Value(value: string) | Failed(problem: Problem)

  function Prepend(piece: string, d: Decoded): Decoded {
    if d.Value? then Value(piece + d.value) else d
  }

  function Replacement(e: Escape): string
    requires !e.Invalid?
  {
    match e
    case Stands(c, _) => [c]
    case Kept(c, _) => ['\\', c]
    case Joined(_) => []
  }

  /** The text from `p` on with every escape replaced by what it stands for. */
  function Decode(l: Literal, p: nat): (r: Decoded)
    requires p <= |l.text|
    decreases |l.text| - p
  {
    if p == |l.text| then Value([])
    else if l.text[p] != '\\' then Prepend([l.text[p]], Decode(l, p + 1))
    else
      var e := DecodeEscape(l, p + 1);
      if e.Invalid? then Failed(e.problem) else Prepend(Replacement(e), Decode(l, e.pos))
  }

  /** The text of an f-string part. A backslash at its very end is text: a brace comes next in the source.
      `shift` counts the braces read so far, each of which the source doubles. */
  function DecodeFString(l: Literal, raw: bool, p: nat, shift: nat): (r: Decoded)
    requires p <= |l.text|
    decreases |l.text| - p
  {
    if p == |l.text| then Value([])
    else
      var c := l.text[p];
      if c == '{' || c == '}' then Prepend([c], DecodeFString(l, raw, p + 1, shift + 1))
      else if c != '\\' || raw || p + 1 == |l.text| then Prepend([c], DecodeFString(l, raw, p + 1, shift))
      else
        var e := DecodeEscape(l, p + 1);
        if e.Invalid? then Failed(Shift(e.problem, shift))
        else Prepend(Replacement(e), DecodeFString(l, raw, e.pos, shift))
  }

  function Shift(p: Problem, distance: nat): Problem {
    Problem(p.kind, Range(p.location.start + distance, p.location.end + distance))
  }

  /** A byte string's value: each character reduced to one byte. */
  function ToBytes(text: string): (bytes: seq<nat>) {
    seq(|text|, i requires 0 <= i < |text| => text[i] as int % 256)
  }

  // ---------- The end of the text inside an escape ----------

  /** An escape that is not the last character of the text ends where the pairing of backslashes goes on. */
  lemma EscapeKeepsPairing(l: Literal, p: nat)
    requires p < |l.text| && l.text[p] == '\\' && l.NamesArePlain()
    requires !DecodeEscape(l, p + 1).Invalid?
    ensures StringScan.Paired(l.text, p, |l.text|) == StringScan.Paired(l.text, DecodeEscape(l, p + 1).pos, |l.text|)
  {
    hide DigitValue, CodePoint;
    var e := DecodeEscape(l, p + 1);
    forall k | p + 2 <= k < e.pos ensures l.text[k] != '\\' {
      if l.text[p + 1] == 'N' && !l.bytes {
        assert l.text[k] in l.text[p + 3..e.pos - 1] || k == p + 2 || k == e.pos - 1;
      }
      NotADigit();
    }
    SkipPlain(l.text, p + 2, e.pos);
  }

  lemma NotADigit()
    ensures !IsRadixDigit(16, '\\')
  {
  }

  lemma {:induction false} SkipPlain(text: string, p: nat, q: nat)
    requires p <= q <= |text|
    requires forall k :: p <= k < q ==> text[k] != '\\'
    ensures StringScan.Paired(text, p, |text|) == StringScan.Paired(text, q, |text|)
    decreases q - p
  {
    if p < q {
      SkipPlain(text, p + 1, q);
    }
  }

  /** The error for a text that ends inside an escape needs a text with an unpaired backslash... */
  lemma {:induction false} PairedNeverRunsOut(l: Literal, p: nat)
    requires p <= |l.text| && l.NamesArePlain()
    requires StringScan.Paired(l.text, p, |l.text|)
    ensures Decode(l, p).Failed? ==> Decode(l, p).problem.kind != StringError
    decreases |l.text| - p
  {
    hide DecodeEscape;
    if p < |l.text| {
      if l.text[p] != '\\' {
        PairedNeverRunsOut(l, p + 1);
      } else {
        InvalidKind(l, p + 1);
        var e := DecodeEscape(l, p + 1);
        if !e.Invalid? {
          EscapeKeepsPairing(l, p);
          PairedNeverRunsOut(l, e.pos);
        }
      }
    }
  }

  /** ... and a text with an unpaired backslash never decodes. */
  lemma {:induction false} UnpairedNeverDecodes(l: Literal, p: nat)
    requires p <= |l.text| && l.NamesArePlain()
    requires !StringScan.Paired(l.text, p, |l.text|)
    ensures Decode(l, p).Failed?
    decreases |l.text| - p
  {
    hide DecodeEscape;
    if p < |l.text| {
      if l.text[p] != '\\' {
        UnpairedNeverDecodes(l, p + 1);
      } else {
        var e := DecodeEscape(l, p + 1);
        if !e.Invalid? {
          EscapeKeepsPairing(l, p);
          UnpairedNeverDecodes(l, e.pos);
        }
      }
    }
  }

  lemma InvalidKind(l: Literal, p: nat)
    requires p <= |l.text|
    ensures var e := DecodeEscape(l, p); e.Invalid? ==> (e.problem.kind == StringError <==> p == |l.text|)
  {
    hide DigitValue, PositionalValue;
  }

  /** One more backslash at the end changes no escape before it. */
  lemma BackslashKeepsEscape(l: Literal, p: nat)
    requires p < |l.text|
    ensures var e, e' := DecodeEscape(l, p), DecodeEscape(l.(text := l.text + "\\"), p);
            if e.Invalid? then e'.Invalid? else e' == e
  {
    hide DecodeHex, DecodeName, OctalEnd, PositionalValue;
    match l.text[p]
    case 'x' => BackslashKeepsHex(l.text, p + 1, 2);
    case 'u' => BackslashKeepsHex(l.text, p + 1, 4);
    case 'U' => BackslashKeepsHex(l.text, p + 1, 8);
    case 'N' => BackslashKeepsName(l, p + 1);
    case _ =>
      if IsOctal(l.text[p]) {
        BackslashKeepsOctal(l.text, p);
      }
  }

  lemma BackslashKeepsOctal(text: string, p: nat)
    requires p < |text| && IsOctal(text[p])
    ensures var longer := text + "\\";
            OctalEnd(longer, p) == OctalEnd(text, p) && longer[p..OctalEnd(text, p)] == text[p..OctalEnd(text, p)]
  {
  }

  lemma BackslashKeepsHex(text: string, p: nat, count: nat)
    requires p <= |text| && count > 0
    ensures var e, e' := DecodeHex(text, p, count), DecodeHex(text + "\\", p, count);
            if e.Invalid? then e'.Invalid? else e' == e
  {
    hide CodePoint, PositionalValue, IsRadixDigit, HexEnd;
    var longer := text + "\\";
    NotADigit();
    var end, end' := HexEnd(text, p, p + count), HexEnd(longer, p, p + count);
    assert longer[|text|] == '\\' && forall k :: 0 <= k < |text| ==> longer[k] == text[k];
    assert end == end';
    assert longer[p..end] == text[p..end];
  }

  lemma BackslashKeepsName(l: Literal, p: nat)
    requires p <= |l.text|
    ensures var e, e' := DecodeName(l, p), DecodeName(l.(text := l.text + "\\"), p);
            if e.Invalid? then e'.Invalid? else e' == e
  {
    hide FindAny;
    var longer := l.text + "\\";
    if First(l.text, p) == '{' {
      var close, close' := FindAny(l.text, p + 1, {'}'}), FindAny(longer, p + 1, {'}'});
      if close < |l.text| {
        assert longer[close] == '}';
        assert close' < |longer| ==> longer[close'] == '}';
        assert close == close';
        assert longer[p + 1..close] == l.text[p + 1..close];
      } else {
        assert close' == |longer|;
      }
    }
  }

  /** When a text ends inside an escape: decoding it gives that error exactly if its backslashes are not paired and
      one more backslash would make it decode. */
  lemma {:induction false} RunsOutExactlyWhen(l: Literal, p: nat)
    requires p <= |l.text| && l.NamesArePlain()
    ensures (Decode(l, p).Failed? && Decode(l, p).problem.kind == StringError) <==>
              (!StringScan.Paired(l.text, p, |l.text|) && Decode(l.(text := l.text + "\\"), p).Value?)
    decreases |l.text| - p
  {
    hide DecodeEscape;
    var longer := l.(text := l.text + "\\");
    if p == |l.text| {
    } else if l.text[p] != '\\' {
      RunsOutExactlyWhen(l, p + 1);
    } else if p + 1 == |l.text| {
      EndsInBackslash(l, p);
    } else {
      InvalidKind(l, p + 1);
      BackslashKeepsEscape(l, p + 1);
      var e := DecodeEscape(l, p + 1);
      if !e.Invalid? {
        EscapeKeepsPairing(l, p);
        RunsOutExactlyWhen(l, e.pos);
      }
    }
  }

  lemma EndsInBackslash(l: Literal, p: nat)
    requires p + 1 == |l.text| && l.text[p] == '\\'
    ensures Decode(l, p) == Failed(Problem(StringError, Range(p + 1, p + 1)))
    ensures Decode(l.(text := l.text + "\\"), p) == Value("\\")
    ensures !StringScan.Paired(l.text, p, |l.text|)
  {
    var longer := l.(text := l.text + "\\");
    assert DecodeEscape(longer, p + 1) == Stands('\\', p + 2);
    assert Decode(longer, p + 2) == Value([]);
  }

  /** An f-string part never runs out inside an escape, paired or not. */
  lemma {:induction false} FStringNeverRunsOut(l: Literal, raw: bool, p: nat, shift: nat)
    requires p <= |l.text|
    ensures DecodeFString(l, raw, p, shift).Failed? ==> DecodeFString(l, raw, p, shift).problem.kind != StringError
    decreases |l.text| - p
  {
    hide DecodeEscape;
    if p < |l.text| {
      var c := l.text[p];
      if c == '{' || c == '}' {
        FStringNeverRunsOut(l, raw, p + 1, shift + 1);
      } else if c != '\\' || raw || p + 1 == |l.text| {
        FStringNeverRunsOut(l, raw, p + 1, shift);
      } else {
        InvalidKind(l, p + 1);
        var e := DecodeEscape(l, p + 1);
        if !e.Invalid? {
          FStringNeverRunsOut(l, raw, e.pos, shift);
        }
      }
    }
  }

  /** The braces that decoding from `p` on reads as text before the escape it fails at. */
  function BracesRead(l: Literal, p: nat): nat
    requires p <= |l.text|
    decreases |l.text| - p
  {
    if p == |l.text| then 0
    else if l.text[p] != '\\' then (if l.text[p] == '{' || l.text[p] == '}' then 1 else 0) + BracesRead(l, p + 1)
    else
      var e := DecodeEscape(l, p + 1);
      if e.Invalid? then 0 else BracesRead(l, e.pos)
  }

  /** Where no backslash is left over, an f-string part means what the same text means in a plain
      string; only the position of an error moves, by the number of braces before it. */
  lemma {:induction false} FStringDecodesAlike(l: Literal, p: nat, shift: nat)
    requires p <= |l.text| && l.NamesArePlain()
    requires StringScan.Paired(l.text, p, |l.text|)
    ensures match Decode(l, p)
            case Value(v) => DecodeFString(l, false, p, shift) == Value(v)
            case Failed(problem) =>
              DecodeFString(l, false, p, shift) == Failed(Shift(problem, shift + BracesRead(l, p)))
    decreases |l.text| - p
  {
    hide DecodeEscape;
    if p < |l.text| {
      var c := l.text[p];
      if c != '\\' {
        FStringDecodesAlike(l, p + 1, if c == '{' || c == '}' then shift + 1 else shift);
      } else {
        var e := DecodeEscape(l, p + 1);
        if !e.Invalid? {
          EscapeKeepsPairing(l, p);
          FStringDecodesAlike(l, e.pos, shift);
        }
      }
    }
  }

  /** A raw f-string part is its own value. */
  lemma {:induction false} RawFStringIsItself(l: Literal, p: nat, shift: nat)
    requires p <= |l.text|
    ensures DecodeFString(l, true, p, shift) == Value(l.text[p..])
    decreases |l.text| - p
  {
    if p < |l.text| {
      var c := l.text[p];
      RawFStringIsItself(l, p + 1, if c == '{' || c == '}' then shift + 1 else shift);
      assert l.text[p..] == [c] + l.text[p + 1..];
    }
  }

  // ---------- Jumping ahead ----------

  lemma PrependAssociates(a: string, b: string, d: Decoded)
    ensures Prepend(a, Prepend(b, d)) == Prepend(a + b, d)
    ensures Prepend("", d) == d
  {
    if d.Value? {
      assert a + (b + d.value) == (a + b) + d.value;
      assert "" + d.value == d.value;
    }
  }

  /** Text without a backslash stands for itself, so decoding may jump over it. */
  lemma {:induction false} JumpDecodes(l: Literal, p: nat, q: nat)
    requires p <= q <= |l.text|
    requires forall k :: p <= k < q ==> l.text[k] != '\\'
    ensures Decode(l, p) == Prepend(l.text[p..q], Decode(l, q))
    decreases q - p
  {
    hide DecodeEscape;
    if p < q {
      JumpDecodes(l, p + 1, q);
      assert l.text[p..q] == [l.text[p]] + l.text[p + 1..q];
      PrependAssociates([l.text[p]], l.text[p + 1..q], Decode(l, q));
    } else {
      PrependAssociates("", "", Decode(l, p));
    }
  }

  lemma {:induction false} JumpDecodesFString(l: Literal, raw: bool, p: nat, q: nat, shift: nat)
    requires p <= q <= |l.text|
    requires forall k :: p <= k < q ==> l.text[k] !in {'{', '}', '\\'}
    ensures DecodeFString(l, raw, p, shift) == Prepend(l.text[p..q], DecodeFString(l, raw, q, shift))
    decreases q - p
  {
    hide DecodeEscape;
    if p < q {
      JumpDecodesFString(l, raw, p + 1, q, shift);
      assert l.text[p..q] == [l.text[p]] + l.text[p + 1..q];
      PrependAssociates([l.text[p]], l.text[p + 1..q], DecodeFString(l, raw, q, shift));
    } else {
      PrependAssociates("", "", DecodeFString(l, raw, p, shift));
    }
  }

  /** One step of decoding from `begin`, of which the text before `p` has become `value`. */
  lemma DecodeOne(l: Literal, begin: nat, p: nat, value: string)
    requires begin <= p < |l.text| && l.text[p] == '\\'
    requires Decode(l, begin) == Prepend(value, Decode(l, p))
    ensures var e := DecodeEscape(l, p + 1);
            Decode(l, begin) == if e.Invalid? then Failed(e.problem)
              else Prepend(value + Replacement(e), Decode(l, e.pos))
  {
    hide DecodeEscape;
    var e := DecodeEscape(l, p + 1);
    if !e.Invalid? {
      PrependAssociates(value, Replacement(e), Decode(l, e.pos));
    }
  }

  lemma DecodeOneFString(l: Literal, raw: bool, p: nat, shift: nat, value: string, whole: Decoded)
    requires p < |l.text|
    requires whole == Prepend(value, DecodeFString(l, raw, p, shift))
    ensures var c := l.text[p];
            if c == '{' || c == '}' then whole == Prepend(value + [c], DecodeFString(l, raw, p + 1, shift + 1))
            else if c != '\\' || raw || p + 1 == |l.text|
              then whole == Prepend(value + [c], DecodeFString(l, raw, p + 1, shift))
            else
              var e := DecodeEscape(l, p + 1);
              whole == if e.Invalid? then Failed(Shift(e.problem, shift))
                else Prepend(value + Replacement(e), DecodeFString(l, raw, e.pos, shift))
  {
    hide DecodeEscape;
    var c := l.text[p];
    if c == '{' || c == '}' {
      PrependAssociates(value, [c], DecodeFString(l, raw, p + 1, shift + 1));
    } else if c != '\\' || raw || p + 1 == |l.text| {
      PrependAssociates(value, [c], DecodeFString(l, raw, p + 1, shift));
    } else {
      var e := DecodeEscape(l, p + 1);
      if !e.Invalid? {
        PrependAssociates(value, Replacement(e), DecodeFString(l, raw, e.pos, shift));
      }
    }
  }

  /** A jump from `p` to `q` of a decoding that has come to `value` before it; `whole` is what all of it comes to. */
  lemma DecodeJump(l: Literal, p: nat, q: nat, value: string, whole: Decoded)
    requires p <= q <= |l.text| && whole == Prepend(value, Decode(l, p))
    requires forall k :: p <= k < q ==> l.text[k] != '\\'
    ensures whole == Prepend(value + l.text[p..q], Decode(l, q))
    ensures q == |l.text| ==> whole == Value(value + l.text[p..])
  {
    hide DecodeEscape;
    JumpDecodes(l, p, q);
    PrependAssociates(value, l.text[p..q], Decode(l, q));
    if q == |l.text| {
      assert value + l.text[p..q] + [] == value + l.text[p..];
    }
  }

  lemma DecodeJumpFString(l: Literal, raw: bool, p: nat, q: nat, shift: nat, value: string, whole: Decoded)
    requires p <= q <= |l.text| && whole == Prepend(value, DecodeFString(l, raw, p, shift))
    requires forall k :: p <= k < q ==> l.text[k] !in {'{', '}', '\\'}
    ensures whole == Prepend(value + l.text[p..q], DecodeFString(l, raw, q, shift))
    ensures q == |l.text| ==> whole == Value(value + l.text[p..])
  {
    hide DecodeEscape;
    JumpDecodesFString(l, raw, p, q, shift);
    PrependAssociates(value, l.text[p..q], DecodeFString(l, raw, q, shift));
    if q == |l.text| {
      assert value + l.text[p..q] + [] == value + l.text[p..];
    }
  }
}
