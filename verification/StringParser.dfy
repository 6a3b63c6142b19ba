/** The parser of string contents: a cursor that jumps from one escape to the next. */
module StringParserClass {
  import opened Text
  import opened Tokens
  import opened Integers
  import opened Decoder

  newtype u32 = v: int | 0 <= v < 0x1_0000_0000

  datatype EscapedChar = LiteralChar(c: char) | EscapeChar(c: char)

  class StringParser {
    const source: string
    const flags: Flags
    const range: Range
    const names: string -> Option<char>
    var cursor: nat
    var offset: nat

    constructor (source: string, flags: Flags, offset: nat, range: Range, names: string -> Option<char>)
      ensures this.source == source && this.flags == flags && this.offset == offset
              && this.range == range && this.names == names
      ensures cursor == 0
    {
      this.source, this.flags, this.offset, this.range, this.names := source, flags, offset, range, names;
      cursor := 0;
    }

    function Contents(): Literal {
      Literal(source, flags.bytes, names)
    }

    function Located(p: Problem): LexicalError
      reads this
    {
      LexicalError(p.kind, Range(p.location.start + offset, p.location.end + offset))
    }

    function Position(): nat
      reads this
    {
      offset + cursor
    }

    /** What an escape comes to for the caller. */
    ghost predicate Reads(e: Escape, r: Result<Option<EscapedChar>>)
      reads this
    {
      match e
      case Stands(c, p) => r == Ok(Some(LiteralChar(c))) && cursor == p
      case Kept(c, p) => r == Ok(Some(EscapeChar(c))) && cursor == p
      case Joined(p) => r == Ok(None) && cursor == p
      case Invalid(problem) => r == Err(Located(problem))
    }

    ghost predicate ReadsChar(e: Escape, r: Result<char>)
      reads this
    {
      match e
      case Stands(c, p) => r == Ok(c) && cursor == p
      case Invalid(problem) => r == Err(Located(problem))
      case _ => false
    }

    /** Adds up the digits in 32 bits, most significant first, without overflow. */
    method ParseUnicodeLiteral(count: nat) returns (r: Result<char>)
      requires cursor <= |source| && 0 < count <= 8
      modifies this`cursor
      ensures cursor <= |source| && ReadsChar(DecodeHex(source, old(cursor), count), r)
    {
      hide DigitValue, HexEnd, PositionalValue, Power, PlaceValue, Scaled, CodePoint;
      ghost var begin := cursor;
      var p: u32 := 0;
      NoDigits(source, begin, count);
      for i := 1 to count + 1
        invariant cursor == begin + i - 1 <= |source|
        invariant forall k :: begin <= k < cursor ==> IsRadixDigit(16, source[k])
        invariant p as int == Scaled(source, begin, cursor, count + 1 - i)
      {
        HexEndIs(source, begin, begin + count, cursor);
        if cursor == |source| {
          return Err(LexicalError(UnicodeError, Range(Position(), Position())));
        }
        var c := source[cursor];
        if !IsRadixDigit(16, c) {
          return Err(LexicalError(UnicodeError, Range(Position(), Position() + 1)));
        }
        AddDigit(source, begin, cursor, count);
        p := p + PlaceValue(c, count - i) as u32;
        cursor := cursor + 1;
      }
      HexEndIs(source, begin, begin + count, cursor);
      AllDigitsRead(source, begin, cursor);
      r := FromCodePoint(p);
    }

    method FromCodePoint(p: u32) returns (r: Result<char>)
      ensures ReadsChar(CodePoint(p as int, cursor), r)
    {
      if 0xD800 <= p <= 0xDFFF {
        return Ok(REPLACEMENT);
      }
      if p > 0x10FFFF {
        return Err(LexicalError(UnicodeError, Range(Position(), Position())));
      }
      r := Ok(p as char);
    }

    method ParseOctet() returns (c: char)
      requires cursor < |source| && IsOctal(source[cursor])
      modifies this`cursor
      ensures cursor == OctalEnd(source, old(cursor)) <= |source|
      ensures c as int == PositionalValue(8, source[old(cursor)..cursor])
    {
      var begin := cursor;
      cursor := cursor + 1;
      while cursor - begin < 3
        invariant begin < cursor <= |source| && cursor - begin <= 3
        invariant forall k :: begin <= k < cursor ==> IsOctal(source[k])
        decreases 3 - (cursor - begin)
      {
        if cursor == |source| || !IsOctal(source[cursor]) {
          break;
        }
        cursor := cursor + 1;
      }
      OctalFits(source, begin);
      c := PositionalValue(8, source[begin..cursor]) as char;
    }

    method ParseUnicodeName() returns (r: Result<char>)
      requires cursor <= |source|
      modifies this`cursor
      ensures cursor <= |source| && ReadsChar(DecodeName(Contents(), old(cursor)), r)
    {
      if First(source, cursor) != '{' {
        return Err(LexicalError(MissingUnicodeLbrace, Range(Position(), Position())));
      }
      cursor := cursor + 1;
      var start := cursor;
      var close := FindAny(source, cursor, {'}'});
      if close == |source| {
        return Err(LexicalError(MissingUnicodeRbrace, Range(offset + |source|, offset + |source|)));
      }
      cursor := close + 1;
      match names(source[start..close])
      case Some(c) => r := Ok(c);
      case None => r := Err(LexicalError(UnicodeError, Range(offset + start, Position() - 1)));
    }

    method ParseEscapedChar() returns (r: Result<Option<EscapedChar>>)
      requires cursor <= |source|
      modifies this`cursor
      ensures cursor <= |source| && Reads(DecodeEscape(Contents(), old(cursor)), r)
    {
      hide DecodeHex, DecodeName, OctalEnd, PositionalValue;
      if cursor == |source| {
        return Err(LexicalError(StringError, Range(Position(), Position())));
      }
      var c := source[cursor];
      cursor := cursor + 1;
      var literal: Result<char>;
      match c {
        case '\\' => literal := Ok('\\');
        case '\'' => literal := Ok('\'');
        case '"' => literal := Ok('"');
        case 'a' => literal := Ok('\U{07}');
        case 'b' => literal := Ok('\U{08}');
        case 'f' => literal := Ok('\U{0C}');
        case 'n' => literal := Ok('\n');
        case 'r' => literal := Ok('\r');
        case 't' => literal := Ok('\t');
        case 'v' => literal := Ok('\U{0B}');
        case '\n' => return Ok(None);
        case '\r' =>
          if First(source, cursor) == '\n' {
            cursor := cursor + 1;
          }
          return Ok(None);
        case _ =>
          if IsOctal(c) {
            cursor := cursor - 1;
            var octet := ParseOctet();
            literal := Ok(octet);
          } else if c == 'x' {
            literal := ParseUnicodeLiteral(2);
          } else if c == 'u' && !flags.bytes {
            literal := ParseUnicodeLiteral(4);
          } else if c == 'U' && !flags.bytes {
            literal := ParseUnicodeLiteral(8);
          } else if c == 'N' && !flags.bytes {
            literal := ParseUnicodeName();
          } else {
            return Ok(Some(EscapeChar(c)));
          }
      }
      match literal
      case Ok(value) => r := Ok(Some(LiteralChar(value)));
      case Err(error) => r := Err(error);
    }

    /** Reads an escape, whose backslash has been read, and appends what it stands for to `value`. */
    method AppendEscape(value: string) returns (r: Result<string>)
      requires cursor <= |source|
      modifies this`cursor
      ensures var e := DecodeEscape(Contents(), old(cursor));
              if e.Invalid? then r == Err(Located(e.problem))
              else r == Ok(value + Replacement(e)) && cursor == e.pos <= |source|
    {
      hide DecodeEscape;
      var c := ParseEscapedChar();
      match c
      case Err(error) => r := Err(error);
      case Ok(None) =>
        assert value + [] == value;
        r := Ok(value);
      case Ok(Some(LiteralChar(ch))) => r := Ok(value + [ch]);
      case Ok(Some(EscapeChar(ch))) => r := Ok(value + ['\\', ch]);
    }

    /** The whole value of the literal, or the error in it. */
    ghost predicate Decodes(d: Decoded, r: Result<string>)
      reads this
    {
      match d
      case Value(v) => r == Ok(v)
      case Failed(problem) => r == Err(Located(problem))
    }

    /** Decodes a literal that is not raw, jumping from one backslash to the next. */
    method DecodeEscapes() returns (r: Result<string>)
      requires cursor == 0
      modifies this`cursor
      ensures Decodes(Decode(Contents(), 0), r)
    {
      hide DecodeEscape, Decode, Replacement;
      var escape := FindAny(source, 0, {'\\'});
      var value := "";
      PrependAssociates("", "", Decode(Contents(), 0));
      while escape < |source|
        invariant cursor <= escape <= |source|
        invariant forall k :: cursor <= k < escape ==> source[k] != '\\'
        invariant escape < |source| ==> source[escape] == '\\'
        invariant Decode(Contents(), 0) == Prepend(value, Decode(Contents(), cursor))
        decreases |source| - cursor
      {
        DecodeJump(Contents(), cursor, escape, value, Decode(Contents(), 0));
        value := value + source[cursor..escape];
        DecodeOne(Contents(), 0, escape, value);
        cursor := escape + 1;
        var appended := AppendEscape(value);
        match appended {
          case Err(error) => return Err(error);
          case Ok(text) => value := text;
        }
        escape := FindAny(source, cursor, {'\\'});
      }
      DecodeJump(Contents(), cursor, |source|, value, Decode(Contents(), 0));
      r := Ok(value + source[cursor..]);
    }

    method ParseString() returns (r: Result<string>)
      requires cursor == 0
      modifies this`cursor
      ensures if flags.IsRaw() then r == Ok(source) else Decodes(Decode(Contents(), 0), r)
    {
      if flags.IsRaw() {
        return Ok(source);
      }
      r := DecodeEscapes();
    }

    method ParseBytes() returns (r: Result<seq<nat>>)
      requires cursor == 0 && flags.bytes
      modifies this`cursor
      ensures var bad := FindNonAscii(source, 0);
              if bad < |source| then r == Err(LexicalError(InvalidByteLiteral, Range(offset + bad, offset + bad + 1)))
              else if flags.IsRaw() then r == Ok(ToBytes(source))
              else match Decode(Contents(), 0)
                case Value(v) => r == Ok(ToBytes(v))
                case Failed(problem) => r == Err(Located(problem))
    {
      var bad := FindNonAscii(source, 0);
      if bad < |source| {
        return Err(LexicalError(InvalidByteLiteral, Range(offset + bad, offset + bad + 1)));
      }
      if flags.IsRaw() {
        return Ok(ToBytes(source));
      }
      var text := DecodeEscapes();
      match text
      case Ok(v) => r := Ok(ToBytes(v));
      case Err(error) => r := Err(error);
    }

    /** Decodes a part of an f-string, jumping from one brace or backslash to the next. */
    method ParseFStringMiddle() returns (r: Result<string>)
      requires cursor == 0 && !flags.bytes
      modifies this`cursor, this`offset
      ensures match DecodeFString(Contents(), flags.IsRaw(), 0, 0)
              case Value(v) => r == Ok(v)
              case Failed(problem) =>
                r == Err(LexicalError(problem.kind,
                  Range(problem.location.start + old(offset), problem.location.end + old(offset))))
    {
      hide DecodeEscape, DecodeFString, Replacement;
      ghost var whole := DecodeFString(Contents(), flags.IsRaw(), 0, 0);
      var index := FindAny(source, 0, {'{', '}', '\\'});
      var value := "";
      PrependAssociates("", "", whole);
      while index < |source|
        invariant cursor <= index <= |source| && old(offset) <= offset
        invariant forall k :: cursor <= k < index ==> source[k] !in {'{', '}', '\\'}
        invariant index < |source| ==> source[index] in {'{', '}', '\\'}
        invariant whole == Prepend(value, DecodeFString(Contents(), flags.IsRaw(), cursor, offset - old(offset)))
        decreases |source| - cursor
      {
        ghost var shift := offset - old(offset);
        DecodeJumpFString(Contents(), flags.IsRaw(), cursor, index, shift, value, whole);
        value := value + source[cursor..index];
        DecodeOneFString(Contents(), flags.IsRaw(), index, shift, value, whole);
        cursor := index + 1;
        if source[index] == '{' || source[index] == '}' {
          offset := offset + 1;
          value := value + [source[index]];
        } else if !flags.IsRaw() && cursor < |source| {
          var appended := AppendEscape(value);
          match appended {
            case Err(error) => return Err(error);
            case Ok(text) => value := text;
          }
        } else {
          value := value + ['\\'];
        }
        index := FindAny(source, cursor, {'{', '}', '\\'});
      }
      DecodeJumpFString(Contents(), flags.IsRaw(), cursor, |source|, offset - old(offset), value, whole);
      r := Ok(value + source[cursor..]);
    }
  }

  function FindNonAscii(text: string, p: nat): (r: nat)
    requires p <= |text|
    ensures p <= r <= |text|
    ensures forall k :: p <= k < r ==> IsAscii(text[k])
    ensures r < |text| ==> !IsAscii(text[r])
    decreases |text| - p
  {
    if p < |text| && IsAscii(text[p]) then FindNonAscii(text, p + 1) else p
  }

  lemma HexEndIs(text: string, p: nat, end: nat, r: nat)
    requires p <= r <= end && r <= |text|
    requires forall k :: p <= k < r ==> IsRadixDigit(16, text[k])
    ensures HexEnd(text, p, end) == r <==> r == end || r == |text| || !IsRadixDigit(16, text[r])
  {
    hide IsRadixDigit;
  }

  lemma Power16()
    ensures Power(16, 8) == 0x1_0000_0000
  {
    assert Power(16, 2) == 0x100 && Power(16, 4) == 0x1_0000 && Power(16, 6) == 0x100_0000;
  }

  lemma {:induction false} PowersGrow(m: nat, n: nat)
    requires m <= n
    ensures 1 <= Power(16, m) <= Power(16, n)
  {
    if m < n {
      PowersGrow(m, n - 1);
    } else if m > 0 {
      PowersGrow(m - 1, m - 1);
    }
  }

  /** The value of a hexadecimal digit shifted by four bits for each place to come. */
  function PlaceValue(c: char, places: nat): nat {
    DigitValue(c) * Power(16, places)
  }

  /** The value of the digits from `begin` to `p`, when `places` more digits are to come. */
  function Scaled(text: string, begin: nat, p: nat, places: nat): nat
    requires begin <= p <= |text|
  {
    PositionalValue(16, text[begin..p]) * Power(16, places)
  }

  /** One more digit: the sum stays the value of the digits so far, scaled by the places to come. */
  lemma AddDigit(text: string, begin: nat, p: nat, count: nat)
    requires begin <= p < |text| && p - begin < count <= 8
    requires forall k :: begin <= k <= p ==> IsRadixDigit(16, text[k])
    ensures var places := count - (p - begin);
            var sum := Scaled(text, begin, p + 1, places - 1);
            && sum == Scaled(text, begin, p, places) + PlaceValue(text[p], places - 1)
            && sum < 0x1_0000_0000
  {
    hide DigitValue;
    var places := count - (p - begin);
    var after := text[begin..p + 1];
    assert after[..|after| - 1] == text[begin..p];
    var v, d, w := PositionalValue(16, text[begin..p]), DigitValue(text[p]), Power(16, places - 1);
    Distribute(v, d, w);
    ScaledValueFits(after, places - 1);
  }

  lemma Distribute(v: nat, d: nat, w: nat)
    ensures (v * 16 + d) * w == v * (16 * w) + d * w
  {
  }

  lemma ScaledValueFits(digits: string, places: nat)
    requires AllDigits(16, digits) && |digits| + places <= 8
    ensures PositionalValue(16, digits) * Power(16, places) < 0x1_0000_0000
  {
    hide PositionalValue;
    ValueBelowPower(16, digits);
    PowersAdd(|digits|, places);
    Power16();
    PowersGrow(|digits| + places, 8);
    PowersGrow(0, places);
    Scale(PositionalValue(16, digits), Power(16, |digits|), Power(16, places));
  }

  lemma Scale(v: nat, bound: nat, w: nat)
    requires v < bound && w > 0
    ensures v * w < bound * w
  {
  }

  lemma NoDigits(text: string, begin: nat, places: nat)
    requires begin <= |text|
    ensures Scaled(text, begin, begin, places) == 0
  {
    assert text[begin..begin] == [];
  }

  lemma AllDigitsRead(text: string, begin: nat, end: nat)
    requires begin <= end <= |text|
    ensures Scaled(text, begin, end, 0) == PositionalValue(16, text[begin..end])
  {
    hide PositionalValue;
  }

  lemma Associate(a: nat, b: nat, c: nat)
    ensures (a * b) * c == a * (b * c)
  {
  }

  lemma {:induction false} PowersAdd(m: nat, n: nat)
    ensures Power(16, m) * Power(16, n) == Power(16, m + n)
  {
    if m > 0 {
      PowersAdd(m - 1, n);
      Associate(16, Power(16, m - 1), Power(16, n));
    }
  }
}
