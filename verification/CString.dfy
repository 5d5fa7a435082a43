/**
 Bytes and NUL-terminated C strings.

 A `text` is the content of a C string without its terminator.  A function that
 takes a cursor into a string takes the suffix that starts at the cursor, so the
 terminator is the end of the sequence.
 */
module CString {

  type byte = b: int | 0 <= b < 256

  type text = seq<byte>

  datatype Option<+T> = None | Some(value: T)

  const TAB: byte := 9
  const NEWLINE: byte := 10
  const RETURN: byte := 13
  const SPACE: byte := 32
  const QUOTE: byte := 34
  const COMMA: byte := 44
  const MINUS: byte := 45
  const SLASH: byte := 47
  const STAR: byte := 42
  const ZERO: byte := 48
  const NINE: byte := 57
  const COLON: byte := 58
  const LBRACKET: byte := 91
  const BACKSLASH: byte := 92
  const RBRACKET: byte := 93
  const LBRACE: byte := 123
  const RBRACE: byte := 125
  const LOWER_U: byte := 117

  /** No byte of `s` would terminate the C string early. */
  ghost predicate NulFree(s: text) {
    forall i :: 0 <= i < |s| ==> s[i] != 0
  }

  /** The byte a C program reads at `s + i`; reading past the terminator is ruled out. */
  function At(s: text, i: nat): byte
    requires i <= |s|
  {
    if i < |s| then s[i] else 0
  }

  predicate IsDigit(b: byte) {
    ZERO <= b <= NINE
  }

  /** `r` is a suffix of `s`: what a cursor that only moves forward can point at. */
  ghost predicate Suffix(r: text, s: text) {
    |r| <= |s| && s[|s| - |r|..] == r
  }

  lemma SuffixTransitive(a: text, b: text, c: text)
    requires Suffix(a, b) && Suffix(b, c)
    ensures Suffix(a, c)
  {
    assert c[|c| - |b|..][|b| - |a|..] == c[|c| - |a|..];
  }

  /** Conversion to a C `int` of 32 bits. */
  function Int32(x: int): int {
    (x + 0x8000_0000) % 0x1_0000_0000 - 0x8000_0000
  }
}
