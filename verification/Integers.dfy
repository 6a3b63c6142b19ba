/** Integer literals: small ones as an `i64`, the rest as text. */
module Integers {
  import opened Tokens

  const I64_MAX := 0x7FFF_FFFF_FFFF_FFFF

  /** The value of a digit of some radix up to 16; anything else counts as 16. */
  function DigitValue(c: char): (v: nat)
    ensures v <= 16
  {
    if '0' <= c <= '9' then c as int - '0' as int
    else if 'a' <= c <= 'f' then c as int - 'a' as int + 10
    else if 'A' <= c <= 'F' then c as int - 'A' as int + 10
    else 16
  }

  predicate IsRadixDigit(radix: nat, c: char) {
    DigitValue(c) < radix
  }

  predicate AllDigits(radix: nat, text: string) {
    forall c <- text :: IsRadixDigit(radix, c)
  }

  /** The number that `text` denotes in positional notation. */
  function PositionalValue(radix: nat, text: string): (v: nat)
  {
    if text == [] then 0
    else PositionalValue(radix, text[..|text| - 1]) * radix + DigitValue(text[|text| - 1])
  }

  datatype ParseResult = Parsed(value: int) | PosOverflow | Empty

  /** `i64::from_str_radix` on digits of the radix. */
  function ParseI64(radix: nat, text: string): ParseResult {
    if text == [] then Empty
    else if PositionalValue(radix, text) > I64_MAX then PosOverflow
    else Parsed(PositionalValue(radix, text))
  }

  /** `Int::from_str` on decimal digits, and `Int::from_str_radix`; `token` is the text a big number keeps. */
  function FromStrRadix(radix: nat, text: string, token: string): (r: Option<IntValue>) {
    match ParseI64(radix, text)
    case Parsed(value) => Some(Small(value))
    case PosOverflow => Some(Big(token))
    case Empty => None
  }

  predicate AsU8IsZero(v: IntValue) {
    v == Small(0)
  }

  predicate AllZeros(text: string) {
    forall i :: 0 <= i < |text| ==> text[i] == '0'
  }

  lemma {:induction false} ZeroValueMeansZeroDigits(radix: nat, text: string)
    requires radix > 0
    ensures PositionalValue(radix, text) == 0 <==> AllZeros(text)
  {
    if text != [] {
      var rest, last := text[..|text| - 1], text[|text| - 1];
      ZeroValueMeansZeroDigits(radix, rest);
      var v := PositionalValue(radix, rest);
      assert v > 0 ==> v * radix > 0;
      assert AllZeros(text) <==> AllZeros(rest) && last == '0';
    }
  }
}
