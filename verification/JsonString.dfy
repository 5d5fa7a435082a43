/**
 `parse_string` (cjson.c): a scan finds the end of the literal and counts how many
 bytes its value can need, then a second pass decodes into a buffer of that size.
 Both passes are proved against `JsonParse.ParseString`, which reads the literal once.
 */
module JsonString {
  import opened CString
  import opened JsonTree
  import opened JsonParse

  // ---------------------------------------------------------------- the scan

  /** Where the scan stops: the closing quote or the terminator; nowhere if the input ends in a backslash. */
  function ScanEnd(s: text, i: nat): (e: Option<nat>)
    requires i <= |s|
    ensures e.Some? ==> i <= e.value <= |s| && (e.value < |s| ==> s[e.value] == QUOTE)
    decreases |s| - i
  {
    if i == |s| || s[i] == QUOTE then Some(i)
    else if s[i] != BACKSLASH then ScanEnd(s, i + 1)
    else if i + 1 == |s| then None
    else ScanEnd(s, i + 2)
  }

  /** How many bytes the scan reserves from `i` on: one for each plain byte or escape letter. */
  function ScanLength(s: text, i: nat): nat
    requires i <= |s| && ScanEnd(s, i).Some?
    decreases |s| - i
  {
    if i == |s| || s[i] == QUOTE then 0
    else 1 + ScanLength(s, if s[i] == BACKSLASH then i + 2 else i + 1)
  }

  method Scan(s: text, start: nat) returns (r: Option<(nat, nat)>)
    requires NulFree(s) && start < |s|
    ensures r.Some? <==> ScanEnd(s, start + 1).Some?
    ensures r.Some? ==> r.value == (ScanEnd(s, start + 1).value, ScanLength(s, start + 1))
  {
    var endPtr, len := start + 1, 0;
    while At(s, endPtr) != QUOTE && At(s, endPtr) != 0
      invariant start < endPtr <= |s|
      invariant ScanEnd(s, endPtr) == ScanEnd(s, start + 1)
      invariant ScanEnd(s, endPtr).Some? ==> len + ScanLength(s, endPtr) == ScanLength(s, start + 1)
      decreases |s| - endPtr
    {
      len := len + 1;
      var escaped := At(s, endPtr) == BACKSLASH;
      endPtr := endPtr + 1;
      if escaped {
        if At(s, endPtr) == 0 { return None; }
        endPtr := endPtr + 1;
      }
    }
    r := Some((endPtr, len));
  }

  /** The scan passes over bytes that are neither quotes nor backslashes one by one. */
  lemma {:induction false} ScanPlain(s: text, i: nat, n: nat)
    requires i + n <= |s|
    requires forall k :: i <= k < i + n ==> s[k] != QUOTE && s[k] != BACKSLASH
    ensures ScanEnd(s, i) == ScanEnd(s, i + n)
    ensures ScanEnd(s, i).Some? ==> ScanLength(s, i) == n + ScanLength(s, i + n)
    decreases n
  {
    if n > 0 {
      ScanPlain(s, i + 1, n - 1);
    }
  }

  lemma ScanHex(s: text, i: nat)
    requires i <= |s| && Hex4(s[i..]) > 0
    ensures i + 4 <= |s| && ScanEnd(s, i) == ScanEnd(s, i + 4)
    ensures ScanEnd(s, i).Some? ==> ScanLength(s, i) == 4 + ScanLength(s, i + 4)
  {
    var r := s[i..];
    assert r[0] == s[i] && r[1] == s[i + 1] && r[2] == s[i + 2] && r[3] == s[i + 3];
    ScanPlain(s, i, 4);
  }

  lemma {:induction false} ScanUnicode(s: text, i: nat)
    requires i <= |s| && UnicodeEscape(s[i..]).Some?
    ensures var rest := UnicodeEscape(s[i..]).value.rest;
            var j := |s| - |rest|;
            && i + 4 <= j <= |s| && s[j..] == rest && ScanEnd(s, i) == ScanEnd(s, j)
            && (ScanEnd(s, i).Some? ==> 4 + ScanLength(s, j) <= ScanLength(s, i))
  {
    hide Hex4, Suffix, ScanEnd, ScanLength;
    var r := s[i..];
    ScanHex(s, i);
    assert r[4..] == s[i + 4..];
    if HighSurrogate(Hex4(r)) {
      assert r[6..] == s[i + 6..] && r[10..] == s[i + 10..];
      assert s[i + 4] == r[4] && s[i + 5] == r[5];
      ScanHex(s, i + 6);
      ScanPair(s, i + 4);
    }
  }

  lemma {:induction false} ScanPair(s: text, i: nat)
    requires i + 1 < |s| && s[i] == BACKSLASH
    ensures ScanEnd(s, i) == ScanEnd(s, i + 2)
    ensures ScanEnd(s, i).Some? ==> ScanLength(s, i) == 1 + ScanLength(s, i + 2)
  {
  }

  /** Where the character at `i` ends. */
  ghost function CharEnd(s: text, i: nat): nat
    requires i < |s| && ParseChar(s[i..]).Some?
  {
    |s| - |ParseChar(s[i..]).value.rest|
  }

  /** Scan and decode agree on where characters end, and the scan reserves enough room for each. */
  lemma {:induction false} ScanAligned(s: text, i: nat)
    requires i < |s| && s[i] != QUOTE && ParseChar(s[i..]).Some?
    ensures i < CharEnd(s, i) <= |s| && s[CharEnd(s, i)..] == ParseChar(s[i..]).value.rest
    ensures ScanEnd(s, i) == ScanEnd(s, CharEnd(s, i))
    ensures ScanEnd(s, i).Some? ==>
              |ParseChar(s[i..]).value.value| + ScanLength(s, CharEnd(s, i)) <= ScanLength(s, i)
  {
    hide UnicodeEscape, Utf8, Suffix, ScanEnd, ScanLength;
    var r := s[i..];
    if r[0] != BACKSLASH {
      assert r[1..] == s[i + 1..];
      ScanPlain(s, i, 1);
    } else {
      assert r[2..] == s[i + 2..];
      ScanPair(s, i);
      if r[1] == LOWER_U {
        ScanUnicode(s, i + 2);
      }
    }
  }

  // ---------------------------------------------------------------- UTF-8

  /** An independent reading of UTF-8: the syntax of section 4 of RFC 3629. */
  function Utf8Decode(b: text): Option<Parsed<nat>> {
    if b == [] then None
    else if b[0] < 0x80 then Some(Parsed(b[0], b[1..]))
    else if 0xC2 <= b[0] <= 0xDF && |b| > 1 && Tail(b[1]) then
      Some(Parsed(Bits(b[0], 0xC0) * 64 + Bits(b[1], 0x80), b[2..]))
    else if 0xE0 <= b[0] <= 0xEF && |b| > 2 && Tail(b[1]) && Tail(b[2])
         && (b[0] == 0xE0 ==> b[1] >= 0xA0) && (b[0] == 0xED ==> b[1] <= 0x9F) then
      Some(Parsed(Bits(b[0], 0xE0) * 4096 + Bits(b[1], 0x80) * 64 + Bits(b[2], 0x80), b[3..]))
    else if 0xF0 <= b[0] <= 0xF4 && |b| > 3 && Tail(b[1]) && Tail(b[2]) && Tail(b[3])
         && (b[0] == 0xF0 ==> b[1] >= 0x90) && (b[0] == 0xF4 ==> b[1] <= 0x8F) then
      Some(Parsed(Bits(b[0], 0xF0) * 262144 + Bits(b[1], 0x80) * 4096 + Bits(b[2], 0x80) * 64 + Bits(b[3], 0x80),
                  b[4..]))
    else None
  }

  predicate Tail(b: byte) { 0x80 <= b <= 0xBF }

  /** The bits of a byte below its mark. */
  function Bits(b: byte, mark: nat): nat
    requires mark <= b
  {
    b - mark
  }

  predicate Scalar(c: nat) {
    c < 0x110000 && !HighSurrogate(c) && !LowSurrogate(c)
  }

  /** Every code point an escape can name comes back from its UTF-8 bytes. */
  lemma Utf8RoundTrip(c: nat, post: text)
    requires Scalar(c)
    ensures Utf8Decode(Utf8(c) + post) == Some(Parsed(c, post))
  {
    var b := Utf8(c) + post;
    assert b[|Utf8(c)|..] == post;
    assert forall i :: 0 <= i < |Utf8(c)| ==> b[i] == Utf8(c)[i];
  }

  /** A `\u` escape that is accepted names a nonzero scalar value: never half a surrogate pair. */
  lemma EscapeNamesScalar(r: text)
    ensures UnicodeEscape(r).Some? ==> Scalar(UnicodeEscape(r).value.value) && UnicodeEscape(r).value.value > 0
  {
  }

  const LOWER_HEX: text := [48, 49, 50, 51, 52, 53, 54, 55, 56, 57, 97, 98, 99, 100, 101, 102]
  const UPPER_HEX: text := [48, 49, 50, 51, 52, 53, 54, 55, 56, 57, 65, 66, 67, 68, 69, 70]

  /** The byte is a hexadecimal digit, in either case, with the value `v`. */
  predicate Spells(b: byte, v: nat) {
    v < 16 && (b == LOWER_HEX[v] || b == UPPER_HEX[v])
  }

  /** The hexadecimal digits and their values are those of the tables. */
  lemma {:induction false} HexTable(b: byte, v: nat)
    ensures Spells(b, v) <==> IsHex(b) && HexValue(b) == v
  {
  }

  lemma {:induction false} PrintedHex(n: nat)
    requires n < 16
    ensures HexDigit(n) == LOWER_HEX[n]
  {
  }

  /** Four digits, each in either case, that spell `u`. */
  ghost predicate SpellsUnit(d: text, u: nat) {
    && |d| == 4 && u < 0x10000
    && Spells(d[0], u / 0x1000) && Spells(d[1], u / 0x100 % 16) && Spells(d[2], u / 16 % 16) && Spells(d[3], u % 16)
  }

  lemma {:induction false} Digits16(a: nat, b: nat, c: nat, d: nat)
    requires a < 16 && b < 16 && c < 16 && d < 16
    ensures var u := a * 4096 + b * 256 + c * 16 + d;
            u < 0x10000 && u / 0x1000 == a && u / 0x100 % 16 == b && u / 16 % 16 == c && u % 16 == d
  {
    var u := a * 4096 + b * 256 + c * 16 + d;
    assert u / 16 == a * 256 + b * 16 + c;
    assert u / 256 == a * 16 + b;
  }

  /** Four hexadecimal digits are read as the number they spell, and everything else as zero. */
  lemma {:induction false} Hex4Reads(r: text, u: nat)
    ensures |r| >= 4 && SpellsUnit(r[..4], u) ==> Hex4(r) == u
    ensures Hex4(r) > 0 ==> |r| >= 4 && SpellsUnit(r[..4], Hex4(r))
  {
    if |r| >= 4 {
      if SpellsUnit(r[..4], u) {
        HexTable(r[0], u / 0x1000);
        HexTable(r[1], u / 0x100 % 16);
        HexTable(r[2], u / 16 % 16);
        HexTable(r[3], u % 16);
        hide HexValue, IsHex, Spells;
        BySixteens(u);
      }
      if Hex4(r) > 0 {
        HexTable(r[0], HexValue(r[0]));
        HexTable(r[1], HexValue(r[1]));
        HexTable(r[2], HexValue(r[2]));
        HexTable(r[3], HexValue(r[3]));
        hide HexValue, IsHex, Spells;
        Digits16(HexValue(r[0]), HexValue(r[1]), HexValue(r[2]), HexValue(r[3]));
      }
    }
  }

  lemma {:induction false} BySixteens(u: nat)
    ensures u == u / 0x1000 * 4096 + u / 0x100 % 16 * 256 + u / 16 % 16 * 16 + u % 16
  {
    assert u / 0x100 == u / 0x1000 * 16 + u / 0x100 % 16;
    assert u / 16 == u / 0x100 * 16 + u / 16 % 16;
  }

  /**
   The text `e` is an escape of the code point by section 7 of RFC 8259, in any spelling: one unit, or the surrogate
   pair of section 2.1 of RFC 2781.
   */
  ghost predicate Names(e: text, c: nat) {
    && Scalar(c) && |e| == (if c < 0x10000 then 6 else 12) && e[0] == BACKSLASH && e[1] == LOWER_U
    && if c < 0x10000 then SpellsUnit(e[2..6], c)
       else && SpellsUnit(e[2..6], 0xD800 + (c - 0x10000) / 1024) && e[6] == BACKSLASH && e[7] == LOWER_U
            && SpellsUnit(e[8..12], 0xDC00 + (c - 0x10000) % 1024)
  }

  /** Every escape of a code point except zero decodes to its UTF-8 encoding, and exactly the escape is consumed. */
  lemma {:induction false} EscapeDecodes(e: text, c: nat, post: text)
    requires Names(e, c) && c > 0
    ensures ParseChar(e + post) == Some(Parsed(Utf8(c), post))
  {
    hide Hex4, SpellsUnit, Utf8, Suffix;
    var r := (e + post)[2..];
    assert r[..4] == e[2..6];
    if c < 0x10000 {
      Hex4Reads(r, c);
      assert r[4..] == post;
    } else {
      var hi, lo := 0xD800 + (c - 0x10000) / 1024, 0xDC00 + (c - 0x10000) % 1024;
      assert r[6..][..4] == e[8..12] && r[4] == e[6] && r[5] == e[7] && r[10..] == post;
      Hex4Reads(r, hi);
      Hex4Reads(r[6..], lo);
      assert Combine(hi, lo) == c;
    }
  }

  /** And nothing else is taken for an escape: what is consumed names the code point that it stands for. */
  lemma {:induction false} EscapeIsNamed(r: text)
    requires UnicodeEscape(r).Some?
    ensures var p := UnicodeEscape(r).value; Names([BACKSLASH, LOWER_U] + r[..|r| - |p.rest|], p.value)
  {
    hide Hex4, SpellsUnit, Suffix;
    var p := UnicodeEscape(r).value;
    var e := [BACKSLASH, LOWER_U] + r[..|r| - |p.rest|];
    Hex4Reads(r, 0);
    if HighSurrogate(Hex4(r)) {
      Hex4Reads(r[6..], 0);
      assert e[2..6] == r[..4] && e[8..12] == r[6..][..4];
    } else {
      assert e[2..6] == r[..4];
    }
  }

  const CONTROL_LETTERS: text := [98, 116, 110, 102, 114]
  const CONTROL_VALUES: text := [8, 9, 10, 12, 13]

  /** An escape of one letter: five letters stand for control characters, every other for itself. */
  lemma {:induction false} LetterDecodes(b: byte, post: text)
    requires b != LOWER_U
    ensures forall i :: 0 <= i < 5 && b == CONTROL_LETTERS[i] ==>
              ParseChar([BACKSLASH, b] + post) == Some(Parsed([CONTROL_VALUES[i]], post))
    ensures b !in CONTROL_LETTERS ==> ParseChar([BACKSLASH, b] + post) == Some(Parsed([b], post))
  {
    assert ([BACKSLASH, b] + post)[2..] == post;
    assert [98, 116, 110, 102, 114] == CONTROL_LETTERS;
    assert CONTROL_LETTERS[0] == 98 && CONTROL_LETTERS[1] == 116 && CONTROL_LETTERS[2] == 110;
    assert CONTROL_LETTERS[3] == 102 && CONTROL_LETTERS[4] == 114;
  }

  // ---------------------------------------------------------------- the decode

  const FIRST_BYTE_MARK: seq<nat> := [0x00, 0x00, 0xC0, 0xE0, 0xF0]

  /** Writes the last byte first, taking six bits of `uc` each time; the marks and the shifted value share no bits. */
  method WriteUtf8(out: array<byte>, at: nat, uc: nat) returns (n: nat)
    requires uc < 0x110000 && at + |Utf8(uc)| <= out.Length
    modifies out
    ensures n == |Utf8(uc)|
    ensures out[..at] == old(out[..at]) && out[at..at + n] == Utf8(uc)
  {
    n := 4;
    if uc < 0x80 { n := 1; } else if uc < 0x800 { n := 2; } else if uc < 0x10000 { n := 3; }
    var p, c := at + n, uc;
    if n >= 4 {
      p := p - 1;
      out[p] := 0x80 + c % 64;
      c := c / 64;
    }
    if n >= 3 {
      p := p - 1;
      out[p] := 0x80 + c % 64;
      c := c / 64;
    }
    if n >= 2 {
      p := p - 1;
      out[p] := 0x80 + c % 64;
      c := c / 64;
    }
    p := p - 1;
    out[p] := c + FIRST_BYTE_MARK[n];
  }

  /** The code point of the escape whose `u` is at `ptr`, and where the escape ends. */
  method DecodeUnicode(s: text, ptr: nat, endPtr: nat) returns (r: Option<(nat, nat)>)
    requires NulFree(s) && ptr < endPtr <= |s| && ScanEnd(s, ptr + 1) == Some(endPtr)
    ensures r.Some? <==> UnicodeEscape(s[ptr + 1..]).Some?
    ensures r.Some? ==> var p := UnicodeEscape(s[ptr + 1..]).value; r.value == (p.value, |s| - |p.rest|)
  {
    hide Hex4, Suffix;
    var uc := Hex4(s[ptr + 1..]);
    var p := ptr + 4;
    if uc > 0 { ScanHex(s, ptr + 1); }
    if p >= endPtr { return None; }
    if LowSurrogate(uc) || uc == 0 { return None; }
    if HighSurrogate(uc) {
      assert |s| >= ptr + 7 ==> s[ptr + 1..][6..] == s[ptr + 7..];
      if p + 6 > endPtr {
        if UnicodeEscape(s[ptr + 1..]).Some? {
          assert s[ptr + 1..][4] == s[ptr + 5] && s[ptr + 1..][5] == s[ptr + 6];
          ScanHex(s, ptr + 7);
          assert false;
        }
        return None;
      }
      if At(s, p + 1) != BACKSLASH || At(s, p + 2) != LOWER_U { return None; }
      var uc2 := Hex4(s[p + 3..]);
      p := p + 6;
      if !LowSurrogate(uc2) { return None; }
      ScanHex(s, ptr + 7);
      uc := Combine(uc, uc2);
    }
    r := Some((uc, p + 1));
  }

  /** Decodes the character at `ptr`; the result is the next write and read positions. */
  method DecodeChar(s: text, ptr: nat, endPtr: nat, out: array<byte>, at: nat) returns (r: Option<(nat, nat)>)
    requires NulFree(s) && ptr < endPtr <= |s| && ScanEnd(s, ptr) == Some(endPtr) && at < out.Length
    requires ParseChar(s[ptr..]).Some? ==> at + |ParseChar(s[ptr..]).value.value| <= out.Length
    modifies out
    ensures r.Some? <==> ParseChar(s[ptr..]).Some?
    ensures r.Some? ==> var p := ParseChar(s[ptr..]).value;
                        r.value == (at + |p.value|, |s| - |p.rest|)
                        && out[..at + |p.value|] == old(out[..at]) + p.value
  {
    hide UnicodeEscape, Utf8, Suffix;
    ghost var before := out[..at];
    if At(s, ptr) != BACKSLASH {
      PlainChar(s, ptr);
      out[at] := At(s, ptr);
      return Some((at + 1, ptr + 1));
    }
    assert s[ptr..][0] == s[ptr] && s[ptr..][1] == s[ptr + 1] && s[ptr..][2..] == s[ptr + 2..];
    if At(s, ptr + 1) == LOWER_U {
      ScanPair(s, ptr);
      var u := DecodeUnicode(s, ptr + 1, endPtr);
      if u.None? { return None; }
      var n := WriteUtf8(out, at, u.value.0);
      assert out[..at + n] == before + out[at..at + n];
      return Some((at + n, u.value.1));
    }
    out[at] := Unescape(At(s, ptr + 1));
    r := Some((at + 1, ptr + 2));
  }

  /** The value of the whole literal is the bytes decoded so far and the value of the rest. */
  ghost predicate Joined(whole: Option<Parsed<text>>, done: text, r: text) {
    var p := ParseChars(r);
    (whole.Some? <==> p.Some?) && (p.Some? ==> whole.value == Parsed(done + p.value.value, p.value.rest))
  }

  lemma {:induction false} JoinedStart(r: text)
    ensures Joined(ParseChars(r), [], r)
  {
    hide ParseChars;
    if ParseChars(r).Some? {
      assert [] + ParseChars(r).value.value == ParseChars(r).value.value;
    }
  }

  lemma {:induction false} JoinedStep(whole: Option<Parsed<text>>, done: text, r: text)
    requires Joined(whole, done, r) && r != [] && r[0] != QUOTE
    ensures ParseChar(r).None? ==> whole.None?
    ensures ParseChar(r).Some? ==> Joined(whole, done + ParseChar(r).value.value, ParseChar(r).value.rest)
  {
    hide ParseChar, Suffix;
    var c := ParseChar(r);
    if c.Some? && ParseChars(c.value.rest).Some? {
      var more := ParseChars(c.value.rest).value.value;
      assert done + (c.value.value + more) == done + c.value.value + more;
    }
  }

  lemma {:induction false} JoinedEnd(whole: Option<Parsed<text>>, done: text, r: text)
    requires Joined(whole, done, r) && (r == [] || r[0] == QUOTE)
    ensures whole == Some(Parsed(done, if r == [] then [] else r[1..]))
  {
    assert done + [] == done;
  }

  lemma {:induction false} ParseStringIs(s: text, start: nat)
    requires start < |s| && s[start] == QUOTE
    ensures ParseString(s[start..]) == ParseChars(s[start + 1..])
  {
    assert s[start..][1..] == s[start + 1..];
  }

  lemma {:induction false} PlainChar(s: text, i: nat)
    requires i < |s| && s[i] != BACKSLASH
    ensures ParseChar(s[i..]) == Some(Parsed([s[i]], s[i + 1..]))
  {
    assert s[i..][1..] == s[i + 1..];
  }

  /**
   The second pass.  It succeeds exactly when the literal is one `ParseString` accepts; then
   the buffer holds the decoded value and its terminator, and the cursor is just past the
   closing quote, or at the end of the input when there is none.
   */
  method Decode(s: text, start: nat, endPtr: nat, out: array<byte>) returns (r: Option<(nat, nat)>)
    requires NulFree(s) && start < |s| && s[start] == QUOTE
    requires ScanEnd(s, start + 1) == Some(endPtr) && out.Length == ScanLength(s, start + 1) + 1
    modifies out
    ensures r.Some? <==> ParseString(s[start..]).Some?
    ensures r.Some? ==> var p := ParseString(s[start..]).value;
                        var (n, end) := r.value;
                        && n < out.Length && out[..n] == p.value && out[n] == 0
                        && end == (if endPtr < |s| then endPtr + 1 else endPtr) && s[end..] == p.rest
  {
    hide ParseChars, ParseChar, Joined, Suffix, ScanLength, ParseString;
    var ptr: nat, at: nat := start + 1, 0;
    ghost var whole := ParseChars(s[start + 1..]);
    ParseStringIs(s, start);
    JoinedStart(s[start + 1..]);
    assert out[..0] == [];
    while ptr < endPtr
      invariant start < ptr <= endPtr
      invariant ScanEnd(s, ptr) == Some(endPtr)
      invariant at + ScanLength(s, ptr) < out.Length
      invariant Joined(whole, out[..at], s[ptr..])
    {
      if ParseChar(s[ptr..]).Some? { ScanAligned(s, ptr); }
      JoinedStep(whole, out[..at], s[ptr..]);
      var c := DecodeChar(s, ptr, endPtr, out, at);
      if c.None? { return None; }
      at, ptr := c.value.0, c.value.1;
    }
    ghost var value := out[..at];
    JoinedEnd(whole, value, s[ptr..]);
    out[at] := 0;
    if At(s, ptr) == QUOTE {
      ptr := ptr + 1;
    }
    assert out[..at] == value;
    r := Some((at, ptr));
  }

  /**
   Where an accepted literal ends, given by the scan alone: just past the first quote that no
   backslash escapes, or at the end of the input when there is no such quote.
   */
  lemma {:induction false} LiteralEnd(s: text, i: nat)
    requires i <= |s| && ParseChars(s[i..]).Some?
    ensures ScanEnd(s, i).Some?
    ensures var e := ScanEnd(s, i).value;
            ParseChars(s[i..]).value.rest == s[if e < |s| then e + 1 else e..]
    decreases |s| - i
  {
    hide ParseChar, Suffix, ScanLength;
    if i < |s| && s[i] != QUOTE {
      ScanAligned(s, i);
      LiteralEnd(s, |s| - |ParseChar(s[i..]).value.rest|);
    } else if i < |s| {
      assert s[i..][1..] == s[i + 1..];
    }
  }

  /** A literal needs no closing quote: plain characters behind a quote are accepted with and without one. */
  lemma {:induction false} UnclosedLiteral(s: text)
    requires QUOTE !in s && BACKSLASH !in s
    ensures ParseString([QUOTE] + s) == Some(Parsed(s, [])) == ParseString([QUOTE] + s + [QUOTE])
  {
    PlainChars(s, []);
    PlainChars(s, [QUOTE]);
    assert ([QUOTE] + s)[1..] == s + [];
    assert ([QUOTE] + s + [QUOTE])[1..] == s + [QUOTE];
  }

  lemma {:induction false} BareChar(r: text)
    requires r != [] && r[0] != BACKSLASH
    ensures ParseChar(r) == Some(Parsed([r[0]], r[1..]))
  {
  }

  lemma {:induction false} PlainChars(s: text, post: text)
    requires QUOTE !in s && BACKSLASH !in s && (post == [] || post == [QUOTE])
    ensures ParseChars(s + post) == Some(Parsed(s, []))
  {
    hide Suffix, ParseChar;
    if s == [] {
      assert s + post == post && [QUOTE][1..] == [];
    } else {
      PlainChars(s[1..], post);
      var r := s + post;
      assert r[0] == s[0] && s[0] in s && r[1..] == s[1..] + post;
      BareChar(r);
      assert s == [s[0]] + s[1..];
    }
  }
}
