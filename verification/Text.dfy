/**
  Source text and positions in it.

  A source is a sequence of Unicode scalar values and a position counts the
  values before it. The program itself counts UTF-8 bytes (`TextSize`); module
  `Utf8` says why that makes no difference to order, emptiness or searches.
 */
module Text {
  const EOF_CHAR: char := '\0'
  const BOM: char := '\U{FEFF}'

  /** A half-open range of positions. */
  datatype Range = Range(start: nat, end: nat)

  predicate IsNewline(c: char) {
    c == '\n' || c == '\r'
  }

  predicate IsAscii(c: char) {
    c as int < 128
  }

  predicate IsDigit(c: char) {
    '0' <= c <= '9'
  }

  /** The next character, or EOF_CHAR past the end (`Cursor::first`). */
  function First(src: string, p: nat): char {
    if p < |src| then src[p] else EOF_CHAR
  }

  /** The character after the next one (`Cursor::second`). */
  function Second(src: string, p: nat): char {
    First(src, p + 1)
  }

  /** Three quotes in a row at `p`. */
  predicate IsTriple(src: string, quote: char, p: nat) {
    p + 2 < |src| && src[p] == quote && src[p + 1] == quote && src[p + 2] == quote
  }

  /** The position of the first character of `hits` at or after `p`, or the end of the text. */
  function FindAny(src: string, p: nat, hits: set<char>): (i: nat)
    requires p <= |src|
    ensures p <= i <= |src|
    ensures forall k :: p <= k < i ==> src[k] !in hits
    ensures i < |src| ==> src[i] in hits
    decreases |src| - p
  {
    if p == |src| || src[p] in hits then p else FindAny(src, p + 1, hits)
  }
}
