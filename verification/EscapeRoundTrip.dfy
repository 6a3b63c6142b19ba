/** Writing text as escapes, which decoding undoes. */
module EscapeRoundTrip {
  import opened Text
  import opened Tokens
  import opened Integers
  import opened Decoder
  import W = Whitespace

  // ---------- Numbers as digits ----------

  function DigitChar(v: nat): (c: char)
    requires v < 16
    ensures DigitValue(c) == v
  {
    if v < 10 then ('0' as int + v) as char else ('a' as int + v - 10) as char
  }

  /** A number without its last digit. */
  function Leading(radix: nat, n: nat): nat
    requires radix > 0
  {
    n / radix
  }

  function Last(radix: nat, n: nat): (d: nat)
    requires radix > 0
    ensures d < radix
  {
    n % radix
  }

  /** The last `count` digits of `n`. */
  function Digits(radix: nat, n: nat, count: nat): (r: string)
    requires 2 <= radix <= 16
    ensures |r| == count
  {
    if count == 0 then "" else Digits(radix, Leading(radix, n), count - 1) + [DigitChar(Last(radix, n))]
  }

  lemma {:induction false} DigitsDenote(radix: nat, n: nat, count: nat)
    requires 2 <= radix <= 16 && n < Power(radix, count)
    ensures AllDigits(radix, Digits(radix, n, count)) && PositionalValue(radix, Digits(radix, n, count)) == n
  {
    hide DigitValue, PositionalValue, AllDigits, Leading, Last;
    if count == 0 {
      NoDigitsDenoteZero(radix);
    } else {
      var q := Leading(radix, n);
      var rest, last := Digits(radix, q, count - 1), DigitChar(Last(radix, n));
      Quotient(radix, n, Power(radix, count - 1));
      DigitsDenote(radix, q, count - 1);
      AppendDigit(radix, rest, last);
    }
  }

  lemma NoDigitsDenoteZero(radix: nat)
    ensures AllDigits(radix, "") && PositionalValue(radix, "") == 0
  {
  }

  lemma AppendDigit(radix: nat, digits: string, last: char)
    ensures PositionalValue(radix, digits + [last]) == PositionalValue(radix, digits) * radix + DigitValue(last)
    ensures AllDigits(radix, digits + [last]) <==> AllDigits(radix, digits) && IsRadixDigit(radix, last)
  {
    hide DigitValue;
    var all := digits + [last];
    assert all[..|digits|] == digits;
    assert forall c :: c in all <==> c in digits || c == last;
  }

  lemma Quotient(radix: nat, n: nat, w: nat)
    requires radix > 0 && n < radix * w
    ensures Leading(radix, n) < w && n == Leading(radix, n) * radix + Last(radix, n)
  {
    var q := n / radix;
    assert q * radix <= n;
    assert q >= w ==> q * radix >= w * radix;
  }

  // ---------- The escape table ----------

  /** The characters that follow the backslash of a simple escape, and what each stands for. */
  const SIMPLE := "\\'\"abfnrtv"
  const MEANINGS := "\\'\"\U{07}\U{08}\U{0C}\n\r\t\U{0B}"

  /** The characters that begin an escape with digits or a name; a bytes literal has no Unicode escapes. */
  predicate TakesMore(c: char, bytes: bool) {
    IsOctal(c) || c == 'x' || (!bytes && c in {'u', 'U', 'N'})
  }

  /** The table by its columns: a simple escape has its meaning, an escaped line break vanishes as a whole,
      be it LF, CR or CRLF, and a backslash before any other character stays. */
  lemma EscapeTable(l: Literal, p: nat)
    requires p < |l.text|
    ensures var c, e := l.text[p], DecodeEscape(l, p);
            && (forall k :: 0 <= k < |SIMPLE| && SIMPLE[k] == c ==> e == Stands(MEANINGS[k], p + 1))
            && (forall q :: p < q <= |l.text| ==> (e == Joined(q) <==> W.IsLineBreak(l.text, p, q)))
            && (e.Kept? <==> c !in SIMPLE && !IsNewline(c) && !TakesMore(c, l.bytes))
            && (e.Kept? ==> e == Kept(c, p + 1))
  {
    hide PositionalValue, DigitValue, DecodeHex, DecodeName;
    forall q | p < q <= |l.text| ensures DecodeEscape(l, p) == Joined(q) <==> W.IsLineBreak(l.text, p, q) {
      if q == p + 1 {
        assert l.text[p..q] == [l.text[p]];
      } else if q == p + 2 {
        assert l.text[p..q] == [l.text[p], l.text[p + 1]];
      }
    }
  }

  // ---------- Escapes with hexadecimal digits ----------

  /** Whether `count` hexadecimal digits stand at `p`. */
  predicate HasDigits(text: string, p: nat, count: nat) {
    p + count <= |text| && forall k :: p <= k < p + count ==> IsRadixDigit(16, text[k])
  }

  /** The character at `q` is where hexadecimal digits from `p` on break off. */
  predicate BreaksOff(text: string, p: nat, q: nat) {
    && p <= q <= |text| && (forall k :: p <= k < q ==> IsRadixDigit(16, text[k]))
    && (q < |text| ==> !IsRadixDigit(16, text[q]))
  }

  lemma HexDecodes(text: string, p: nat, count: nat)
    requires p <= |text| && count > 0
    ensures HasDigits(text, p, count) ==>
              DecodeHex(text, p, count) == CodePoint(PositionalValue(16, text[p..p + count]), p + count)
    ensures !HasDigits(text, p, count) ==>
              exists q :: p <= q < p + count && BreaksOff(text, p, q)
                && DecodeHex(text, p, count)
                   == Invalid(Problem(UnicodeError, Range(q, if q < |text| then q + 1 else q)))
  {
    hide PositionalValue, CodePoint, IsRadixDigit;
    var q := HexEnd(text, p, p + count);
    if q < p + count {
      assert BreaksOff(text, p, q);
    }
  }

  /** The digits that an escape letter asks for: two after `x`, four after `u` and eight after `U`. */
  predicate AsksFor(c: char, bytes: bool, count: nat) {
    || (c == 'x' && count == 2)
    || (c == 'u' && !bytes && count == 4)
    || (c == 'U' && !bytes && count == 8)
  }

  /** An escape with just the digits it asks for is the character they denote, with a surrogate replaced and a
      number beyond Unicode refused, and the text goes on right behind them; with fewer it is refused where they
      break off. */
  lemma HexEscapes(l: Literal, p: nat, count: nat)
    requires p < |l.text| && AsksFor(l.text[p], l.bytes, count)
    ensures var e, begin, end := DecodeEscape(l, p), p + 1, p + 1 + count;
            if HasDigits(l.text, begin, count) then
              var v := PositionalValue(16, l.text[begin..end]);
              e == if 0xD800 <= v <= 0xDFFF then Stands('\U{FFFD}', end)
                   else if v > 0x10FFFF then Invalid(Problem(UnicodeError, Range(end, end)))
                   else Stands(v as char, end)
            else
              exists q :: begin <= q < end && BreaksOff(l.text, begin, q)
                && e == Invalid(Problem(UnicodeError, Range(q, if q < |l.text| then q + 1 else q)))
  {
    hide PositionalValue, DecodeHex, HasDigits, BreaksOff;
    HexDecodes(l.text, p + 1, count);
  }

  // ---------- Characters as escapes ----------

  /** The ways to write a character: as itself, by a letter, or by its number in octal or hexadecimal digits. */
  datatype Form = Plain | Letter | Octal | Hex(digits: nat)

  /** The letter before a number of that many hexadecimal digits. */
  function HexLetter(digits: nat): char {
    if digits == 2 then 'x' else if digits == 4 then 'u' else 'U'
  }

  predicate CanWrite(c: char, form: Form, bytes: bool) {
    match form
    case Plain => c != '\\'
    case Letter => c in MEANINGS
    case Octal => c as int < 512
    case Hex(2) => c as int < 0x100
    case Hex(4) => c as int < 0x1_0000 && !bytes
    case Hex(8) => !bytes
    case _ => false
  }

  function LetterOf(c: char, k: nat): (i: nat)
    requires k <= |MEANINGS| && c in MEANINGS[k..]
    ensures k <= i < |MEANINGS| && MEANINGS[i] == c
    decreases |MEANINGS| - k
  {
    if MEANINGS[k] == c then k else LetterOf(c, k + 1)
  }

  function Written(c: char, form: Form): (r: string)
    requires exists bytes :: CanWrite(c, form, bytes)
    ensures r != []
  {
    match form
    case Plain => [c]
    case Letter => ['\\', SIMPLE[LetterOf(c, 0)]]
    case Octal => "\\" + Digits(8, c as int, 3)
    case Hex(digits) => ['\\', HexLetter(digits)] + Digits(16, c as int, digits)
  }

  /** `text` with its characters written in `forms`. */
  function WrittenText(text: string, forms: seq<Form>, bytes: bool): string
    requires |forms| == |text| && forall i :: 0 <= i < |text| ==> CanWrite(text[i], forms[i], bytes)
  {
    if text == [] then ""
    else
      assert CanWrite(text[0], forms[0], bytes);
      Written(text[0], forms[0]) + WrittenText(text[1..], forms[1..], bytes)
  }

  lemma PowersOfSixteen()
    ensures Power(16, 2) == 0x100 && Power(16, 4) == 0x1_0000 && Power(16, 8) == 0x1_0000_0000
    ensures Power(8, 3) == 512
  {
    assert Power(16, 6) == 0x100_0000;
    assert Power(8, 1) == 8;
  }

  lemma SliceDigits(radix: nat, text: string, p: nat, n: nat, count: nat)
    requires 2 <= radix <= 16 && n < Power(radix, count)
    requires p + count <= |text| && text[p..p + count] == Digits(radix, n, count)
    ensures forall k :: p <= k < p + count ==> IsRadixDigit(radix, text[k])
    ensures PositionalValue(radix, text[p..p + count]) == n
  {
    hide PositionalValue, DigitValue, Digits, Power;
    DigitsDenote(radix, n, count);
    forall k | p <= k < p + count ensures IsRadixDigit(radix, text[k]) {
      assert text[k] == text[p..p + count][k - p];
    }
  }

  lemma HexStands(l: Literal, p: nat, c: char, digits: nat)
    requires CanWrite(c, Hex(digits), l.bytes)
    requires p + 2 + digits <= |l.text| && l.text[p..p + 2 + digits] == Written(c, Hex(digits))
    ensures DecodeEscape(l, p + 1) == Stands(c, p + 2 + digits) && l.text[p] == '\\'
  {
    hide PositionalValue, DigitValue, Digits, Power, DecodeEscape;
    var slice := l.text[p..p + 2 + digits];
    assert l.text[p] == slice[0] && l.text[p + 1] == slice[1];
    assert l.text[p + 2..p + 2 + digits] == slice[2..] == Digits(16, c as int, digits);
    PowersOfSixteen();
    SliceDigits(16, l.text, p + 2, c as int, digits);
    HexEscapes(l, p + 1, digits);
  }

  lemma OctalStands(l: Literal, p: nat, c: char)
    requires CanWrite(c, Octal, l.bytes) && p + 4 <= |l.text| && l.text[p..p + 4] == Written(c, Octal)
    ensures DecodeEscape(l, p + 1) == Stands(c, p + 4) && l.text[p] == '\\'
  {
    hide PositionalValue, Digits, Power;
    var digits := Digits(8, c as int, 3);
    assert l.text[p] == l.text[p..p + 4][0];
    assert l.text[p + 1..p + 4] == l.text[p..p + 4][1..] == digits;
    PowersOfSixteen();
    SliceDigits(8, l.text, p + 1, c as int, 3);
    OctalDigits(l.text, p + 1);
  }

  lemma OctalDigits(text: string, p: nat)
    requires p + 3 <= |text| && forall k :: p <= k < p + 3 ==> IsRadixDigit(8, text[k])
    ensures IsOctal(text[p]) && OctalEnd(text, p) == p + 3
  {
  }

  lemma LetterStands(l: Literal, p: nat, c: char)
    requires CanWrite(c, Letter, l.bytes) && p + 2 <= |l.text| && l.text[p..p + 2] == Written(c, Letter)
    ensures DecodeEscape(l, p + 1) == Stands(c, p + 2) && l.text[p] == '\\'
  {
    hide DecodeEscape;
    assert l.text[p] == l.text[p..p + 2][0] && l.text[p + 1] == l.text[p..p + 2][1];
    EscapeTable(l, p + 1);
  }

  lemma OneDecodes(l: Literal, p: nat, c: char, form: Form)
    requires CanWrite(c, form, l.bytes)
    requires p + |Written(c, form)| <= |l.text| && l.text[p..p + |Written(c, form)|] == Written(c, form)
    ensures Decode(l, p) == Prepend([c], Decode(l, p + |Written(c, form)|))
  {
    hide DecodeEscape;
    match form
    case Plain => assert l.text[p] == l.text[p..p + 1][0];
    case Letter => LetterStands(l, p, c);
    case Octal => OctalStands(l, p, c);
    case Hex(digits) => HexStands(l, p, c, digits);
  }

  lemma {:induction false} SuffixDecodes(l: Literal, p: nat, text: string, forms: seq<Form>)
    requires |forms| == |text| && forall i :: 0 <= i < |text| ==> CanWrite(text[i], forms[i], l.bytes)
    requires p <= |l.text| && l.text[p..] == WrittenText(text, forms, l.bytes)
    ensures Decode(l, p) == Value(text)
    decreases |text|
  {
    hide DecodeEscape, Decode, Written, CanWrite;
    if text == [] {
      DecodeNothing(l);
    } else {
      assert CanWrite(text[0], forms[0], l.bytes);
      var first := Written(text[0], forms[0]);
      var rest := WrittenText(text[1..], forms[1..], l.bytes);
      SplitsOff(l.text, p, first, rest);
      OneDecodes(l, p, text[0], forms[0]);
      SuffixDecodes(l, p + |first|, text[1..], forms[1..]);
      assert [text[0]] + text[1..] == text;
    }
  }

  lemma SplitsOff(text: string, p: nat, first: string, rest: string)
    requires p <= |text| && text[p..] == first + rest
    ensures p + |first| <= |text| && text[p..p + |first|] == first && text[p + |first|..] == rest
  {
    assert text[p..p + |first|] == text[p..][..|first|];
    assert text[p + |first|..] == text[p..][|first|..];
  }

  lemma DecodeNothing(l: Literal)
    ensures Decode(l, |l.text|) == Value([])
  {
  }

  /** Every text decodes to itself from any of the ways to write it, one for each character: as the character, by the
      letter of the table, by three octal digits, by two hexadecimal digits after `x`, four after `u` or eight after
      `U`, the last two not in a bytes literal. */
  lemma WritingRoundTrips(text: string, forms: seq<Form>, bytes: bool, names: string -> Option<char>)
    requires |forms| == |text| && forall i :: 0 <= i < |text| ==> CanWrite(text[i], forms[i], bytes)
    ensures Decode(Literal(WrittenText(text, forms, bytes), bytes, names), 0) == Value(text)
    ensures (forall c <- text :: c as int < 256) ==>
              forall i :: 0 <= i < |text| ==> ToBytes(text)[i] == text[i] as int
  {
    hide Decode, WrittenText, CanWrite;
    var written := WrittenText(text, forms, bytes);
    assert written[0..] == written;
    SuffixDecodes(Literal(written, bytes, names), 0, text, forms);
    if forall c <- text :: c as int < 256 {
      forall i | 0 <= i < |text| ensures ToBytes(text)[i] == text[i] as int {
        assert text[i] in text;
      }
    }
  }

  // ---------- Names ----------

  /** A named character: its name in braces gives it, or is refused; without either brace the escape is refused
      there. */
  lemma NameEscapes(l: Literal, p: nat, q: nat)
    requires p < |l.text| && l.text[p] == 'N' && !l.bytes
    ensures First(l.text, p + 1) != '{' ==>
              DecodeEscape(l, p) == Invalid(Problem(MissingUnicodeLbrace, Range(p + 1, p + 1)))
    ensures p + 2 <= q < |l.text| && l.text[p + 1] == '{' && IsFirstBrace(l.text, p + 2, q) ==>
              DecodeEscape(l, p) == match l.names(l.text[p + 2..q])
                                    case Some(c) => Stands(c, q + 1)
                                    case None => Invalid(Problem(UnicodeError, Range(p + 2, q)))
    ensures First(l.text, p + 1) == '{' && (forall k :: p + 2 <= k < |l.text| ==> l.text[k] != '}') ==>
              DecodeEscape(l, p) == Invalid(Problem(MissingUnicodeRbrace, Range(|l.text|, |l.text|)))
  {
    hide FindAny;
  }

  predicate IsFirstBrace(text: string, p: nat, q: nat)
    requires q < |text|
  {
    text[q] == '}' && forall k :: p <= k < q ==> text[k] != '}'
  }

  /** A bytes literal holds the low eight bits of each character. */
  lemma BytesAreReduced(text: string, i: nat)
    requires i < |text|
    ensures |ToBytes(text)| == |text| && ToBytes(text)[i] < 256
    ensures exists high: nat :: text[i] as int == high * 256 + ToBytes(text)[i]
  {
    var high := text[i] as int / 256;
    assert text[i] as int == high * 256 + ToBytes(text)[i];
  }

  // ---------- Text that no escape changes ----------

  /** A text whose every backslash comes before a character that begins no escape is its own value. */
  lemma {:induction false} UnknownEscapesAreText(l: Literal, p: nat)
    requires p <= |l.text|
    requires forall k :: p <= k < |l.text| && l.text[k] == '\\' ==>
               k + 1 < |l.text| && l.text[k + 1] !in SIMPLE && !IsNewline(l.text[k + 1])
               && !TakesMore(l.text[k + 1], l.bytes)
    ensures Decode(l, p) == Value(l.text[p..])
    decreases |l.text| - p
  {
    hide DecodeEscape;
    if p < |l.text| {
      if l.text[p] != '\\' {
        UnknownEscapesAreText(l, p + 1);
        assert l.text[p..] == [l.text[p]] + l.text[p + 1..];
      } else {
        EscapeTable(l, p + 1);
        UnknownEscapesAreText(l, p + 2);
        assert l.text[p..] == ['\\', l.text[p + 1]] + l.text[p + 2..];
      }
    }
  }

  /** An escaped line break vanishes. */
  lemma JoinedLinesVanish(l: Literal, p: nat, q: nat)
    requires p < |l.text| && l.text[p] == '\\' && p + 1 < q <= |l.text| && W.IsLineBreak(l.text, p + 1, q)
    ensures Decode(l, p) == Decode(l, q)
  {
    hide DecodeEscape;
    EscapeTable(l, p + 1);
    if Decode(l, q).Value? {
      assert [] + Decode(l, q).value == Decode(l, q).value;
    }
  }
}
