/** Number literals (sections 2.4.5 to 2.4.7 of the Python Language Reference). */
module NumberScan {
  import opened Text
  import opened Tokens
  import opened Integers

  /** The text of a number while it is being read: a slice of the source until the first
      separator is skipped, and a string of its own from then on. */
  datatype LexedText = Source(range: Range) | Owned(text: string) {
    /** Appends `c`, the character before `p`. */
    function Push(c: char): LexedText {
      match this
      case Source(range) => Source(Range(range.start, range.end + 1))
      case Owned(text) => Owned(text + [c])
    }

    function SkipChar(src: string): LexedText
      requires Source? ==> range.start <= range.end <= |src|
    {
      match this
      case Source(range) => Owned(src[range.start..range.end])
      case Owned(_) => this
    }

    function AsStr(src: string): string
      requires Source? ==> range.start <= range.end <= |src|
    {
      match this
      case Source(range) => src[range.start..range.end]
      case Owned(text) => text
    }

    /** The text holds `pushed`, the last character of which is right before `p`. */
    ghost predicate Holds(src: string, p: nat, pushed: string) {
      match this
      case Source(range) => range.start <= range.end == p <= |src| && src[range.start..p] == pushed
      case Owned(text) => text == pushed
    }

    lemma SkipHolds(src: string, p: nat, pushed: string)
      requires p < |src| && Holds(src, p, pushed)
      ensures Source? ==> range.start <= range.end <= |src|
      ensures SkipChar(src).Holds(src, p + 1, pushed)
    {
    }

    lemma PushHolds(src: string, p: nat, pushed: string)
      requires p < |src| && Holds(src, p, pushed)
      ensures Push(src[p]).Holds(src, p + 1, pushed + [src[p]])
    {
      if Source? {
        assert src[range.start..p + 1] == src[range.start..p] + [src[p]];
      }
    }
  }

  /** The digits from `p` on with their separators removed, and where they end. A separator
      counts only if a digit follows it. */
  function DigitRun(src: string, radix: nat, p: nat): (r: (nat, string))
    requires p <= |src| && radix <= 16
    ensures p <= r.0 <= |src|
    ensures AllDigits(radix, r.1)
    decreases |src| - p
  {
    if p < |src| && IsRadixDigit(radix, src[p]) then
      var rest := DigitRun(src, radix, p + 1);
      (rest.0, [src[p]] + rest.1)
    else if p + 1 < |src| && src[p] == '_' && IsRadixDigit(radix, src[p + 1]) then
      DigitRun(src, radix, p + 1)
    else (p, [])
  }

  lemma RunEnds(src: string, radix: nat)
    requires radix <= 16
    ensures DigitRun(src, radix, |src|) == (|src|, [])
  {
  }

  /** The reader's text before it has read anything. */
  lemma NothingHolds(src: string, p: nat)
    requires p <= |src|
    ensures LexedText.Source(Range(p, p)).Holds(src, p, "")
  {
  }

  /** One step of a run that has already pushed `pushed`. */
  lemma RunStep(src: string, radix: nat, p: nat, pushed: string)
    requires p < |src| && radix <= 16
    ensures !IsRadixDigit(radix, EOF_CHAR)
    ensures !IsRadixDigit(radix, src[p]) && !(src[p] == '_' && p + 1 < |src| && IsRadixDigit(radix, src[p + 1])) ==>
              DigitRun(src, radix, p) == (p, [])
    ensures IsRadixDigit(radix, src[p]) ==>
              && DigitRun(src, radix, p).0 == DigitRun(src, radix, p + 1).0
              && pushed + DigitRun(src, radix, p).1 == (pushed + [src[p]]) + DigitRun(src, radix, p + 1).1
    ensures src[p] == '_' && p + 1 < |src| && IsRadixDigit(radix, src[p + 1]) ==>
              DigitRun(src, radix, p) == DigitRun(src, radix, p + 1)
  {
  }

  /** The text from `p` to `q` without its separators. */
  function WithoutSeparators(src: string, p: nat, q: nat): string
    requires p <= q <= |src|
    decreases q - p
  {
    if p == q then []
    else (if src[p] == '_' then [] else [src[p]]) + WithoutSeparators(src, p + 1, q)
  }

  lemma {:induction false} RunIsSourceWithoutSeparators(src: string, radix: nat, p: nat)
    requires p <= |src| && radix <= 16
    ensures var r := DigitRun(src, radix, p); r.1 == WithoutSeparators(src, p, r.0)
    decreases |src| - p
  {
    var r := DigitRun(src, radix, p);
    if p < r.0 {
      RunIsSourceWithoutSeparators(src, radix, p + 1);
    }
  }

  /** A run of digits is as long as can be: every character in it is a digit or a separator before a digit, and what
      comes after it is neither. */
  lemma {:induction false} RunIsMaximal(src: string, radix: nat, p: nat)
    requires p <= |src| && radix <= 16
    ensures var end := DigitRun(src, radix, p).0;
            && (forall k :: p <= k < end ==> Belongs(src, radix, k))
            && (end < |src| ==> !Belongs(src, radix, end))
    decreases |src| - p
  {
    if p < DigitRun(src, radix, p).0 {
      RunIsMaximal(src, radix, p + 1);
    }
  }

  predicate Belongs(src: string, radix: nat, k: nat)
    requires k < |src|
  {
    IsRadixDigit(radix, src[k]) || (src[k] == '_' && k + 1 < |src| && IsRadixDigit(radix, src[k + 1]))
  }

  lemma {:induction false} SplitSeparators(src: string, p: nat, q: nat, r: nat)
    requires p <= q <= r <= |src|
    ensures WithoutSeparators(src, p, r) == WithoutSeparators(src, p, q) + WithoutSeparators(src, q, r)
    decreases q - p
  {
    if p < q {
      SplitSeparators(src, p + 1, q, r);
    }
  }

  lemma {:induction false} NoSeparators(src: string, p: nat, q: nat)
    requires p <= q <= |src|
    requires '_' !in src[p..q]
    ensures WithoutSeparators(src, p, q) == src[p..q]
    decreases q - p
  {
    if p < q {
      assert src[p] == src[p..q][0];
      assert forall c <- src[p + 1..q] :: c in src[p..q];
      NoSeparators(src, p + 1, q);
      assert src[p..q] == [src[p]] + src[p + 1..q];
    }
  }

  /** A number token and its value, or the error that stands for it. */
  datatype Number =
    | NumberToken(pos: nat, kind: TokenKind, value: TokenValue)
    | NumberError(pos: nat, error: LexicalError)

  predicate IsOneOf(src: string, p: nat, a: char, b: char) {
    p < |src| && (src[p] == a || src[p] == b)
  }

  /** An exponent begins at `p` only if a digit follows, after an optional sign. */
  predicate StartsExponent(src: string, p: nat) {
    && IsOneOf(src, p, 'e', 'E')
    && p + 1 < |src|
    && (IsDigit(src[p + 1]) || (IsOneOf(src, p + 1, '-', '+') && p + 2 < |src| && IsDigit(src[p + 2])))
  }

  /** The text of the number at `start` whose first character has been read: the digits, point, fraction
      and exponent, without separators. `badPoint`: the point is followed by a separator. */
  datatype DecimalText = DecimalText(pos: nat, text: string, isFloat: bool, badPoint: bool)

  function IntegerPart(src: string, start: nat): (r: (nat, string))
    requires start < |src|
    ensures start <= r.0 <= |src|
  {
    if src[start] == '.' then (start, [])
    else
      var digits := DigitRun(src, 10, start + 1);
      (digits.0, [src[start]] + digits.1)
  }

  lemma IntegerPartIs(src: string, start: nat)
    requires start < |src|
    ensures IntegerPart(src, start) ==
              if src[start] == '.' then (start, "")
              else (DigitRun(src, 10, start + 1).0, [src[start]] + DigitRun(src, 10, start + 1).1)
  {
  }

  function DecimalMantissa(src: string, start: nat): (r: DecimalText)
    requires start < |src|
    ensures start < r.pos <= |src|
  {
    var whole := IntegerPart(src, start);
    if whole.0 < |src| && src[whole.0] == '.' then
      if First(src, whole.0 + 1) == '_' then DecimalText(whole.0 + 2, whole.1 + ".", true, true)
      else
        var fraction := DigitRun(src, 10, whole.0 + 1);
        DecimalText(fraction.0, whole.1 + "." + fraction.1, true, false)
    else DecimalText(whole.0, whole.1, false, false)
  }

  function WithExponent(src: string, m: DecimalText): (r: DecimalText)
    requires m.pos <= |src|
    ensures m.pos <= r.pos <= |src|
  {
    if m.badPoint || !StartsExponent(src, m.pos) then m
    else
      var digits := if IsOneOf(src, m.pos + 1, '+', '-') then m.pos + 2 else m.pos + 1;
      var run := DigitRun(src, 10, digits);
      DecimalText(run.0, m.text + src[m.pos..digits] + run.1, true, false)
  }

  /** The characters before the digits of an exponent, pushed one by one. */
  lemma PushesExponentHead(src: string, p: nat, text: string)
    requires p + 1 < |src|
    ensures text + [src[p]] == text + src[p..p + 1]
    ensures text + [src[p]] + [src[p + 1]] == text + src[p..p + 2]
  {
    assert src[p..p + 1] == [src[p]];
    assert src[p..p + 2] == [src[p]] + [src[p + 1]];
    assert text + [src[p]] + [src[p + 1]] == text + ([src[p]] + [src[p + 1]]);
  }

  const EMPTY_NUMBER := "ParseIntError { kind: Empty }"
  const BAD_FLOAT := "Invalid decimal literal"
  const LEADING_ZERO := "Invalid decimal integer literal"
  const BAD_POINT := "Invalid Syntax"

  /** A number that begins with a digit or with a point before a digit. `isFloat` is `f64::from_str(_).is_ok()`. */
  function ScanDecimal(src: string, start: nat, isFloat: string -> bool): (r: Number)
    requires start < |src|
    ensures start < r.pos <= |src|
    ensures r.NumberError? ==> start <= r.error.location.start <= r.error.location.end == r.pos
    ensures r.NumberToken? ==> r.kind == Int || r.kind == Float || r.kind == Complex
  {
    FinishDecimal(src, start, WithExponent(src, DecimalMantissa(src, start)), isFloat)
  }

  /** The token for the number at `start` whose text has been read. */
  function FinishDecimal(src: string, start: nat, number: DecimalText, isFloat: string -> bool): (r: Number)
    requires start < number.pos <= |src|
    ensures start < r.pos <= |src|
    ensures r.NumberError? ==> start <= r.error.location.start <= r.error.location.end == r.pos
    ensures r.NumberToken? ==> r.kind == Int || r.kind == Float || r.kind == Complex
  {
    var p := number.pos;
    if number.badPoint then NumberError(p, LexicalError(OtherError(BAD_POINT), Range(p - 1, p)))
    else if number.isFloat && !isFloat(number.text) then
      NumberError(p, LexicalError(OtherError(BAD_FLOAT), Range(start, p)))
    else if IsOneOf(src, p, 'j', 'J') then NumberToken(p + 1, Complex, ComplexLiteral)
    else if number.isFloat then NumberToken(p, Float, FloatLiteral)
    else
      match FromStrRadix(10, number.text, number.text)
      case None => NumberError(p, LexicalError(OtherError(EMPTY_NUMBER), Range(start, p)))
      case Some(value) =>
        if src[start] == '0' && !AsU8IsZero(value) then
          NumberError(p, LexicalError(OtherError(LEADING_ZERO), Range(start, p)))
        else NumberToken(p, Int, IntLiteral(value))
  }

  lemma RefusesBadPoint(src: string, start: nat, number: DecimalText, isFloat: string -> bool)
    requires start < number.pos <= |src| && number.badPoint
    ensures var p := number.pos;
            FinishDecimal(src, start, number, isFloat) ==
              NumberError(p, LexicalError(OtherError(BAD_POINT), Range(p - 1, p)))
  {
  }

  /** The radix that a prefix letter after a leading zero selects. */
  function PrefixRadix(c: char): Option<nat> {
    if c == 'x' || c == 'X' then Some(16)
    else if c == 'o' || c == 'O' then Some(8)
    else if c == 'b' || c == 'B' then Some(2)
    else None
  }

  function ScanRadix(src: string, start: nat, radix: nat): (r: Number)
    requires start + 2 <= |src| && radix <= 16
    ensures start < r.pos <= |src|
    ensures r.NumberError? ==> start <= r.error.location.start <= r.error.location.end == r.pos
    ensures r.NumberToken? ==> r.kind == Int
  {
    var run := DigitRun(src, radix, start + 2);
    match FromStrRadix(radix, run.1, src[start..run.0])
    case None => NumberError(run.0, LexicalError(OtherError(EMPTY_NUMBER), Range(start, run.0)))
    case Some(value) => NumberToken(run.0, Int, IntLiteral(value))
  }

  function ScanNumber(src: string, start: nat, isFloat: string -> bool): (r: Number)
    requires start < |src|
    ensures start < r.pos <= |src|
    ensures r.NumberError? ==> start <= r.error.location.start <= r.error.location.end == r.pos
    ensures r.NumberToken? ==> r.kind == Int || r.kind == Float || r.kind == Complex
  {
    var radix := PrefixRadix(First(src, start + 1));
    if src[start] == '0' && radix.Some? then ScanRadix(src, start, radix.value)
    else ScanDecimal(src, start, isFloat)
  }

  /** The text of a decimal number is its source slice without the separators, whatever
      route the reader took through its integer part, fraction and exponent. */
  lemma DecimalTextIsSource(src: string, start: nat)
    requires start < |src| && (IsDigit(src[start]) || src[start] == '.')
    ensures var n := WithExponent(src, DecimalMantissa(src, start));
            !n.badPoint ==> n.text == WithoutSeparators(src, start, n.pos)
  {
    hide DecimalMantissa, DigitRun, WithoutSeparators;
    MantissaTextIsSource(src, start);
    var m := DecimalMantissa(src, start);
    if !m.badPoint && StartsExponent(src, m.pos) {
      var n := WithExponent(src, m);
      var digits := if IsOneOf(src, m.pos + 1, '+', '-') then m.pos + 2 else m.pos + 1;
      RunIsSourceWithoutSeparators(src, 10, digits);
      NoSeparators(src, m.pos, digits);
      SplitSeparators(src, start, m.pos, digits);
      SplitSeparators(src, start, digits, n.pos);
    }
  }

  lemma IntegerPartIsSource(src: string, start: nat)
    requires start < |src| && (IsDigit(src[start]) || src[start] == '.')
    ensures var whole := IntegerPart(src, start); whole.1 == WithoutSeparators(src, start, whole.0)
  {
    if src[start] != '.' {
      RunIsSourceWithoutSeparators(src, 10, start + 1);
    }
  }

  lemma MantissaTextIsSource(src: string, start: nat)
    requires start < |src| && (IsDigit(src[start]) || src[start] == '.')
    ensures var m := DecimalMantissa(src, start);
            !m.badPoint ==> m.text == WithoutSeparators(src, start, m.pos)
  {
    hide DigitRun, WithoutSeparators, IntegerPart;
    IntegerPartIsSource(src, start);
    var whole, m := IntegerPart(src, start), DecimalMantissa(src, start);
    if m.isFloat && !m.badPoint {
      var point := whole.0;
      RunIsSourceWithoutSeparators(src, 10, point + 1);
      assert src[point..point + 1] == ".";
      NoSeparators(src, point, point + 1);
      SplitSeparators(src, start, point, point + 1);
      SplitSeparators(src, start, point + 1, m.pos);
    }
  }

  /** The radix by the letter after the zero. */
  lemma PrefixMeans(c: char)
    ensures c in {'b', 'B'} ==> PrefixRadix(c) == Some(2)
    ensures c in {'o', 'O'} ==> PrefixRadix(c) == Some(8)
    ensures c in {'x', 'X'} ==> PrefixRadix(c) == Some(16)
    ensures PrefixRadix(c).Some? ==> c in {'b', 'B', 'o', 'O', 'x', 'X'}
  {
  }

  /** A prefixed literal: an Int token exactly when a digit follows the prefix, with the positional
      value in that radix when it fits an `i64` and the whole token as text when it does not. */
  lemma PrefixedIntegers(src: string, start: nat, isFloat: string -> bool)
    requires start + 1 < |src| && src[start] == '0' && src[start + 1] in {'b', 'B', 'o', 'O', 'x', 'X'}
    ensures var letter := src[start + 1];
            var radix := if letter == 'b' || letter == 'B' then 2 else if letter == 'o' || letter == 'O' then 8 else 16;
            var r := ScanNumber(src, start, isFloat);
            var digits := WithoutSeparators(src, start + 2, r.pos);
            var v := PositionalValue(radix, digits);
            && (forall k :: start + 2 <= k < r.pos ==> Belongs(src, radix, k))
            && (r.pos < |src| ==> !Belongs(src, radix, r.pos))
            && (r.NumberToken? <==> digits != [])
            && (r.NumberToken? ==> r.value == IntLiteral(if v <= I64_MAX then Small(v) else Big(src[start..r.pos])))
  {
    hide WithoutSeparators, DigitRun, PositionalValue, Belongs;
    PrefixMeans(src[start + 1]);
    RunIsSourceWithoutSeparators(src, PrefixRadix(src[start + 1]).value, start + 2);
    RunIsMaximal(src, PrefixRadix(src[start + 1]).value, start + 2);
  }

  /** Section 2.4.5 for decimal literals: the value of an Int token is the positional value of its digits
      when that fits an `i64` and their text otherwise; and a run of digits that no point, exponent or
      imaginary suffix follows is refused exactly when it begins with a zero and is not all zeros. */
  lemma DecimalIntegers(src: string, start: nat, isFloat: string -> bool)
    requires start < |src| && IsDigit(src[start])
    requires !(src[start] == '0' && PrefixRadix(First(src, start + 1)).Some?)
    ensures var r := ScanNumber(src, start, isFloat);
            var n := WithExponent(src, DecimalMantissa(src, start));
            var digits := WithoutSeparators(src, start, r.pos);
            var v := PositionalValue(10, digits);
            && (r.NumberToken? && r.kind == Int ==>
                  r.value == IntLiteral(if v <= I64_MAX then Small(v) else Big(digits)))
            && (!n.isFloat && !IsOneOf(src, n.pos, 'j', 'J') ==>
                  (r.NumberError? <==> src[start] == '0' && !AllZeros(digits)))
  {
    hide WithoutSeparators, DigitRun, PositionalValue, WithExponent;
    DecimalTextIsSource(src, start);
    var n := WithExponent(src, DecimalMantissa(src, start));
    if !n.isFloat {
      DecimalTextIsNotEmpty(src, start);
      ZeroValueMeansZeroDigits(10, n.text);
    }
  }

  /** Where a decimal number ends and what kind it is. `point` is where its integer part ends. */
  ghost predicate IsDecimalShape(src: string, start: nat, n: DecimalText, point: nat) {
    && start < |src| && start <= point <= n.pos <= |src|
    && (forall k :: start < k < point ==> Belongs(src, 10, k))
    && (src[start] == '.' ==> point == start)
    && (src[start] != '.' ==> start < point && (point < |src| ==> !Belongs(src, 10, point)))
    && (n.badPoint <==> point + 1 < |src| && src[point] == '.' && src[point + 1] == '_')
    && (n.badPoint ==> n.pos == point + 2)
    && (!n.badPoint ==> (n.isFloat <==> point < |src| && (src[point] == '.' || StartsExponent(src, point))))
    && (!n.badPoint ==> (n.pos < |src| ==> !Belongs(src, 10, n.pos)))
  }

  /** A decimal number is a run of digits, then a point with a run of digits that may be empty, then an exponent, if
      they come; a point before a separator is an error. */
  lemma DecimalShape(src: string, start: nat)
    requires start < |src| && (IsDigit(src[start]) || (src[start] == '.' && IsDigit(First(src, start + 1))))
    ensures IsDecimalShape(src, start, WithExponent(src, DecimalMantissa(src, start)), IntegerPart(src, start).0)
  {
    hide DigitRun, Belongs;
    if src[start] != '.' {
      RunIsMaximal(src, 10, start + 1);
    }
    var point := IntegerPart(src, start).0;
    if point < |src| && src[point] == '.' && First(src, point + 1) != '_' {
      RunIsMaximal(src, 10, point + 1);
    }
    var m := DecimalMantissa(src, start);
    if !m.badPoint && StartsExponent(src, m.pos) {
      RunIsMaximal(src, 10, if IsOneOf(src, m.pos + 1, '+', '-') then m.pos + 2 else m.pos + 1);
    }
  }

  /** The kind of a decimal number: Complex exactly with an imaginary suffix, else Float exactly with a point or an
      exponent; a float is refused exactly if the floating-point parser refuses its text. */
  lemma DecimalKind(src: string, start: nat, isFloat: string -> bool)
    requires start < |src| && !(src[start] == '0' && PrefixRadix(First(src, start + 1)).Some?)
    ensures var n, r := WithExponent(src, DecimalMantissa(src, start)), ScanNumber(src, start, isFloat);
            var suffixed := IsOneOf(src, n.pos, 'j', 'J');
            && (n.badPoint || (n.isFloat && !isFloat(n.text)) ==> r.NumberError? && r.pos == n.pos)
            && (!n.badPoint && (n.isFloat ==> isFloat(n.text)) && suffixed ==>
                  r == NumberToken(n.pos + 1, Complex, ComplexLiteral))
            && (!n.badPoint && n.isFloat && isFloat(n.text) && !suffixed ==>
                  r == NumberToken(n.pos, Float, FloatLiteral))
            && (!n.badPoint && !n.isFloat && !suffixed ==> r.pos == n.pos && (r.NumberToken? ==> r.kind == Int))
  {
    hide WithExponent, DecimalMantissa, FromStrRadix;
  }

  lemma DecimalTextIsNotEmpty(src: string, start: nat)
    requires start < |src| && IsDigit(src[start])
    ensures var n := WithExponent(src, DecimalMantissa(src, start)); !n.isFloat ==> n.text != [] && !n.badPoint
  {
    hide DigitRun;
  }
}
