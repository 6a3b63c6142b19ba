/** UTF-8: how positions in a sequence of characters and offsets in its bytes correspond. */
module Utf8 {
  import opened Text

  newtype byte = v: int | 0 <= v < 256

  predicate IsAsciiByte(b: byte) {
    b < 128
  }

  /** A byte that continues a character. */
  predicate Continues(b: byte) {
    0x80 <= b < 0xC0
  }

  function EncodeChar(c: char): (bytes: seq<byte>)
    ensures 1 <= |bytes| <= 4
    ensures IsAscii(c) <==> IsAsciiByte(bytes[0])
    ensures IsAscii(c) ==> |bytes| == 1 && bytes[0] as int == c as int
    ensures !Continues(bytes[0]) && forall i :: 1 <= i < |bytes| ==> Continues(bytes[i])
  {
    var v := c as int;
    if v < 0x80 then [v as byte]
    else if v < 0x800 then [(0xC0 + v / 0x40) as byte, Tail(v)]
    else if v < 0x1_0000 then [(0xE0 + v / 0x1000) as byte, Tail(v / 0x40), Tail(v)]
    else [(0xF0 + v / 0x4_0000) as byte, Tail(v / 0x1000), Tail(v / 0x40), Tail(v)]
  }

  function Tail(v: nat): byte {
    (0x80 + v % 0x40) as byte
  }

  function Encode(text: string): (bytes: seq<byte>) {
    if text == [] then [] else EncodeChar(text[0]) + Encode(text[1..])
  }

  /** The byte offset of position `p`, which is what the program calls the position. */
  function ByteOffset(text: string, p: nat): nat
    requires p <= |text|
  {
    |Encode(text[..p])|
  }

  lemma {:induction false} EncodeAppends(a: string, b: string)
    ensures Encode(a + b) == Encode(a) + Encode(b)
  {
    hide EncodeChar;
    if a == [] {
      assert a + b == b;
    } else {
      EncodeAppends(a[1..], b);
      assert (a + b)[0] == a[0] && (a + b)[1..] == a[1..] + b;
      assert Encode(a + b) == EncodeChar(a[0]) + Encode(a[1..] + b);
      assert EncodeChar(a[0]) + (Encode(a[1..]) + Encode(b)) == (EncodeChar(a[0]) + Encode(a[1..])) + Encode(b);
    }
  }

  /** Byte offsets order positions exactly as the positions order themselves, so ranges
      compare, nest and are empty in bytes exactly when they do in positions. */
  lemma {:induction false} OffsetsAreMonotone(text: string, p: nat, q: nat)
    requires p <= q <= |text|
    ensures q - p <= ByteOffset(text, q) - ByteOffset(text, p) <= 4 * (q - p)
    decreases q - p
  {
    if p < q {
      OffsetsAreMonotone(text, p, q - 1);
      assert text[..q] == text[..q - 1] + [text[q - 1]];
      EncodeAppends(text[..q - 1], [text[q - 1]]);
      assert Encode([text[q - 1]]) == EncodeChar(text[q - 1]);
    }
  }

  /** The first byte of `hits` at or after `i`, or the end. */
  function FindByte(bytes: seq<byte>, i: nat, hits: set<char>): (r: nat)
    requires i <= |bytes|
    ensures i <= r <= |bytes|
    decreases |bytes| - i
  {
    if i == |bytes| || (IsAsciiByte(bytes[i]) && bytes[i] as char in hits) then i else FindByte(bytes, i + 1, hits)
  }

  lemma {:induction false} FindByteInSuffix(bytes: seq<byte>, n: nat, i: nat, hits: set<char>)
    requires n <= i <= |bytes|
    ensures FindByte(bytes, i, hits) == n + FindByte(bytes[n..], i - n, hits)
    decreases |bytes| - i
  {
    if i < |bytes| {
      FindByteInSuffix(bytes, n, i + 1, hits);
    }
  }

  lemma {:induction false} SkipContinuation(bytes: seq<byte>, i: nat, j: nat, hits: set<char>)
    requires i <= j <= |bytes|
    requires forall k :: i <= k < j ==> !IsAsciiByte(bytes[k])
    ensures FindByte(bytes, i, hits) == FindByte(bytes, j, hits)
    decreases j - i
  {
    if i < j {
      SkipContinuation(bytes, i + 1, j, hits);
    }
  }

  /** Searching the bytes for ASCII characters finds the same place as searching the characters: no byte of a
      longer character can be mistaken for one. */
  lemma {:induction false} ByteSearchIsCharSearch(text: string, hits: set<char>)
    requires forall c <- hits :: IsAscii(c)
    ensures FindByte(Encode(text), 0, hits) == ByteOffset(text, FindAny(text, 0, hits))
  {
    if text != [] {
      var bytes := Encode(text);
      var head, n := EncodeChar(text[0]), |EncodeChar(text[0])|;
      var i := FindAny(text, 0, hits);
      assert bytes[..n] == head && bytes[n..] == Encode(text[1..]);
      if text[0] in hits {
        assert bytes[0] == head[0];
        assert text[..0] == [];
      } else {
        ByteSearchIsCharSearch(text[1..], hits);
        FindByteInSuffix(bytes, n, n, hits);
        FindInTail(text, hits);
        assert text[..i] == [text[0]] + text[1..][..i - 1];
        EncodeAppends([text[0]], text[1..][..i - 1]);
        assert Encode([text[0]]) == head;
        assert forall k :: 0 <= k < n ==> bytes[k] == head[k];
        SkipContinuation(bytes, 1, n, hits);
        if IsAscii(text[0]) {
          assert FindByte(bytes, 0, hits) == FindByte(bytes, 1, hits);
        } else {
          SkipContinuation(bytes, 0, n, hits);
        }
      }
    }
  }

  lemma FindInTail(text: string, hits: set<char>)
    requires text != [] && text[0] !in hits
    ensures FindAny(text, 0, hits) == 1 + FindAny(text[1..], 0, hits)
  {
    var i, j := FindAny(text, 0, hits), FindAny(text[1..], 0, hits);
    assert i < |text| ==> text[1..][i - 1] == text[i];
    assert j + 1 < |text| ==> text[1..][j] == text[j + 1];
  }

  /** The characters that begin in a slice of UTF-8 text: its bytes that do not continue one. */
  function CharCount(slice: seq<byte>): (n: nat)
    ensures n <= |slice|
  {
    if slice == [] then 0
    else CharCount(slice[..|slice| - 1]) + if Continues(slice[|slice| - 1]) then 0 else 1
  }

  lemma {:induction false} AsciiCount(slice: seq<byte>)
    requires forall i :: 0 <= i < |slice| ==> IsAsciiByte(slice[i])
    ensures CharCount(slice) == |slice|
  {
    if slice != [] {
      AsciiCount(slice[..|slice| - 1]);
    }
  }

  lemma {:induction false} CountAppends(a: seq<byte>, b: seq<byte>)
    ensures CharCount(a + b) == CharCount(a) + CharCount(b)
    decreases |b|
  {
    if b == [] {
      assert a + b == a;
    } else {
      CountAppends(a, b[..|b| - 1]);
      assert (a + b)[..|a + b| - 1] == a + b[..|b| - 1];
    }
  }

  lemma {:induction false} CountOfTail(bytes: seq<byte>)
    requires forall i :: 0 <= i < |bytes| ==> Continues(bytes[i])
    ensures CharCount(bytes) == 0
  {
    if bytes != [] {
      CountOfTail(bytes[..|bytes| - 1]);
    }
  }

  /** Counting the bytes that do not continue a character counts the characters. */
  lemma {:induction false} CountsCharacters(text: string)
    ensures CharCount(Encode(text)) == |text|
  {
    if text != [] {
      var head := EncodeChar(text[0]);
      CountsCharacters(text[1..]);
      CountAppends(head, Encode(text[1..]));
      CountOfTail(head[1..]);
      assert head == [head[0]] + head[1..];
      CountAppends([head[0]], head[1..]);
      assert CharCount([head[0]]) == 1;
    }
  }
}
