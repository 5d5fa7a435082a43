/**
 What the cJSON parser (cjson.c) computes, as functions from the suffix at the
 cursor to the value and the suffix where the parse stopped.  `None` is the
 source's null return.
 */
module JsonParse {
  import opened CString
  import opened JsonTree

  datatype Parsed<+T> = Parsed(value: T, rest: text)

  /** The byte at the cursor. */
  function Lead(r: text): byte {
    if r == [] then 0 else r[0]
  }

  /** Jump over white space and control bytes. */
  function Skip(r: text): (q: text)
    ensures Suffix(q, r)
    ensures |q| > 0 ==> q[0] > 32 || q[0] == 0
  {
    if r != [] && 0 < r[0] <= 32 then
      var q := Skip(r[1..]);
      SuffixTransitive(q, r[1..], r);
      q
    else r
  }

  // ---------------------------------------------------------------- numbers

  function Pow10(e: int): real
    decreases if e < 0 then -e else e
  {
    if e == 0 then 1.0 else if e > 0 then 10.0 * Pow10(e - 1) else Pow10(e + 1) / 10.0
  }

  function Scaled(n: int, e: int): real {
    n as real * Pow10(e)
  }

  /** Reads digits into the accumulator `n`. */
  function Digits(n: int, r: text): (p: Parsed<int>)
    ensures Suffix(p.rest, r)
    ensures IsDigit(Lead(r)) ==> |p.rest| < |r|
    ensures |p.rest| > 0 ==> !IsDigit(p.rest[0])
    decreases r
  {
    if r != [] && IsDigit(r[0]) then
      var p := Digits(n * 10 + (r[0] - ZERO), r[1..]);
      SuffixTransitive(p.rest, r[1..], r);
      p
    else Parsed(n, r)
  }

  /** The digits before the fraction: a zero is a digit on its own, but more digits may follow it. */
  function IntegerPart(r: text): (p: Parsed<int>)
    ensures Suffix(p.rest, r)
    ensures IsDigit(Lead(r)) ==> |p.rest| < |r|
  {
    var r1 := if Lead(r) == ZERO then r[1..] else r;
    assert Suffix(r1, r);
    if ZERO < Lead(r1) <= NINE then
      var p := Digits(0, r1);
      SuffixTransitive(p.rest, r1, r);
      p
    else Parsed(0, r1)
  }

  /** The digits after the point, appended to the accumulator `n`; each one lowers the scale. */
  function FractionPart(n: int, r: text): (p: Parsed<(int, int)>)
    ensures Suffix(p.rest, r)
  {
    if |r| > 1 && r[0] == 46 && IsDigit(r[1]) then
      var p := Digits(n, r[1..]);
      SuffixTransitive(p.rest, r[1..], r);
      Parsed((p.value, |p.rest| - (|r| - 1)), p.rest)
    else Parsed((n, 0), r)
  }

  function ExponentPart(r: text): (p: Parsed<int>)
    ensures Suffix(p.rest, r)
  {
    if Lead(r) == 101 || Lead(r) == 69 then
      var r1 := r[1..];
      var r2 := if Lead(r1) == 43 || Lead(r1) == MINUS then r1[1..] else r1;
      var p := Digits(0, r2);
      assert Suffix(r2, r);
      SuffixTransitive(p.rest, r2, r);
      Parsed(if Lead(r1) == MINUS then -p.value else p.value, p.rest)
    else Parsed(0, r)
  }

  /** `parse_number`: sign, digits, fraction, exponent. */
  function ParseNumber(r: text): (p: Parsed<real>)
    requires Lead(r) == MINUS || IsDigit(Lead(r))
    ensures Suffix(p.rest, r)
    ensures |p.rest| < |r|
  {
    var negative := Lead(r) == MINUS;
    var r0 := if negative then r[1..] else r;
    var i := IntegerPart(r0);
    var f := FractionPart(i.value, i.rest);
    var e := ExponentPart(f.rest);
    SuffixTransitive(i.rest, r0, r);
    SuffixTransitive(f.rest, i.rest, r);
    SuffixTransitive(e.rest, f.rest, r);
    Parsed(Scaled(if negative then -f.value.0 else f.value.0, f.value.1 + e.value), e.rest)
  }

  // ---------------------------------------------------------------- strings

  predicate IsHex(b: byte) {
    IsDigit(b) || 65 <= b <= 70 || 97 <= b <= 102
  }

  function HexValue(b: byte): (v: nat)
    requires IsHex(b)
    ensures v < 16
  {
    if IsDigit(b) then b - ZERO else if b <= 70 then b - 55 else b - 87
  }

  /** `parse_hex4`: the value of four hexadecimal digits, and zero when they are not there. */
  function Hex4(r: text): (h: nat)
    ensures h < 0x10000
    ensures h > 0 ==> |r| >= 4 && IsHex(r[0]) && IsHex(r[1]) && IsHex(r[2]) && IsHex(r[3])
  {
    if |r| >= 4 && IsHex(r[0]) && IsHex(r[1]) && IsHex(r[2]) && IsHex(r[3]) then
      HexValue(r[0]) * 4096 + HexValue(r[1]) * 256 + HexValue(r[2]) * 16 + HexValue(r[3])
    else 0
  }

  /** The UTF-8 encoding of a code point (section 3 of RFC 3629). */
  function Utf8(c: nat): (bytes: text)
    requires c < 0x110000
    ensures 1 <= |bytes| <= 4
  {
    var c1 := c / 64;
    var c2 := c1 / 64;
    var c3 := c2 / 64;
    if c < 0x80 then [c]
    else if c < 0x800 then [0xC0 + c1, 0x80 + c % 64]
    else if c < 0x10000 then [0xE0 + c2, 0x80 + c1 % 64, 0x80 + c % 64]
    else [0xF0 + c3, 0x80 + c2 % 64, 0x80 + c1 % 64, 0x80 + c % 64]
  }

  predicate HighSurrogate(u: nat) { 0xD800 <= u <= 0xDBFF }
  predicate LowSurrogate(u: nat) { 0xDC00 <= u <= 0xDFFF }

  /** The code point whose surrogate pair (section 2.2 of RFC 2781) is `hi` and `lo`. */
  function Combine(hi: nat, lo: nat): (c: nat)
    requires HighSurrogate(hi) && LowSurrogate(lo)
    ensures 0x10000 <= c < 0x110000
    ensures hi == 0xD800 + (c - 0x10000) / 1024 && lo == 0xDC00 + (c - 0x10000) % 1024
  {
    0x10000 + (hi - 0xD800) * 1024 + (lo - 0xDC00)
  }

  /** The code point of the escape whose hex digits start at the cursor, and the suffix after it. */
  function UnicodeEscape(r: text): (p: Option<Parsed<nat>>)
    ensures p.Some? ==> 0 < p.value.value < 0x110000 && Suffix(p.value.rest, r) && |p.value.rest| < |r|
  {
    var u := Hex4(r);
    if u == 0 || LowSurrogate(u) then None
    else if !HighSurrogate(u) then Some(Parsed(u, r[4..]))
    else if |r| < 10 || r[4] != BACKSLASH || r[5] != LOWER_U || !LowSurrogate(Hex4(r[6..])) then None
    else Some(Parsed(Combine(u, Hex4(r[6..])), r[10..]))
  }

  /** The byte that a one-letter escape stands for; an unknown letter stands for itself. */
  function Unescape(b: byte): byte {
    if b == 98 then 8 else if b == 102 then 12 else if b == 110 then NEWLINE
    else if b == 114 then RETURN else if b == 116 then TAB else b
  }

  /** One character of a string literal: the bytes it stands for. */
  function ParseChar(r: text): (p: Option<Parsed<text>>)
    requires r != []
    ensures p.Some? ==> Suffix(p.value.rest, r) && |p.value.rest| < |r| && p.value.value != []
  {
    if r[0] != BACKSLASH then Some(Parsed([r[0]], r[1..]))
    else if |r| == 1 then None
    else if r[1] == LOWER_U then
      var e := UnicodeEscape(r[2..]);
      if e.None? then None
      else
        SuffixTransitive(e.value.rest, r[2..], r);
        Some(Parsed(Utf8(e.value.value), e.value.rest))
    else Some(Parsed([Unescape(r[1])], r[2..]))
  }

  /** The rest of a string literal after its opening quote.  The end of the input ends it too. */
  function ParseChars(r: text): (p: Option<Parsed<text>>)
    ensures p.Some? ==> Suffix(p.value.rest, r)
    decreases |r|
  {
    if r == [] then Some(Parsed([], []))
    else if r[0] == QUOTE then Some(Parsed([], r[1..]))
    else
      var c := ParseChar(r);
      if c.None? then None
      else
        var p := ParseChars(c.value.rest);
        if p.None? then None
        else
          SuffixTransitive(p.value.rest, c.value.rest, r);
          Some(Parsed(c.value.value + p.value.value, p.value.rest))
  }

  function ParseString(r: text): (p: Option<Parsed<text>>)
    ensures p.Some? ==> Suffix(p.value.rest, r) && |p.value.rest| < |r|
  {
    if Lead(r) != QUOTE then None
    else
      var p := ParseChars(r[1..]);
      if p.Some? then SuffixTransitive(p.value.rest, r[1..], r); p else p
  }

  // ---------------------------------------------------------------- values

  function ParseValue(r: text): (p: Option<Parsed<Json>>)
    ensures p.Some? ==> Suffix(p.value.rest, r) && |p.value.rest| < |r|
    decreases |r|, 0
  {
    if NULL_TEXT <= r then Some(Parsed(Null, r[4..]))
    else if FALSE_TEXT <= r then Some(Parsed(False, r[5..]))
    else if TRUE_TEXT <= r then Some(Parsed(True, r[4..]))
    else if Lead(r) == QUOTE then
      var p := ParseString(r);
      if p.None? then None else Some(Parsed(String(p.value.value), p.value.rest))
    else if Lead(r) == MINUS || IsDigit(Lead(r)) then
      var p := ParseNumber(r);
      Some(Parsed(Number(p.value), p.rest))
    else if Lead(r) == LBRACKET then
      var q := Skip(r[1..]);
      SuffixTransitive(q, r[1..], r);
      if Lead(q) == RBRACKET then
        SuffixTransitive(q[1..], q, r);
        Some(Parsed(Array(Nil), q[1..]))
      else
        var p := ParseItems(q);
        if p.None? then None
        else
          SuffixTransitive(p.value.rest, q, r);
          Some(Parsed(Array(p.value.value), p.value.rest))
    else if Lead(r) == LBRACE then
      var q := Skip(r[1..]);
      SuffixTransitive(q, r[1..], r);
      if Lead(q) == RBRACE then
        SuffixTransitive(q[1..], q, r);
        Some(Parsed(Object(Nil), q[1..]))
      else
        var p := ParseMembers(q);
        if p.None? then None
        else
          SuffixTransitive(p.value.rest, q, r);
          Some(Parsed(Object(p.value.value), p.value.rest))
    else None
  }

  /** One or more comma-separated items and the closing bracket. */
  function ParseItems(r: text): (p: Option<Parsed<Kids>>)
    ensures p.Some? ==> p.value.value.Cons? && Suffix(p.value.rest, r) && |p.value.rest| < |r|
    decreases |r|, 1
  {
    var v := ParseValue(Skip(r));
    if v.None? then None
    else
      var q := Skip(v.value.rest);
      SuffixTransitive(v.value.rest, Skip(r), r);
      SuffixTransitive(q, v.value.rest, r);
      if Lead(q) == COMMA then
        var p := ParseItems(q[1..]);
        if p.None? then None
        else
          SuffixTransitive(q[1..], q, r);
          SuffixTransitive(p.value.rest, q[1..], r);
          Some(Parsed(Cons(None, v.value.value, p.value.value), p.value.rest))
      else if Lead(q) == RBRACKET then
        SuffixTransitive(q[1..], q, r);
        Some(Parsed(Cons(None, v.value.value, Nil), q[1..]))
      else None
  }

  /** A name, a colon and a value. */
  function ParseMember(r: text): (p: Option<Parsed<(text, Json)>>)
    ensures p.Some? ==> Suffix(p.value.rest, r) && |p.value.rest| < |r|
    decreases |r|, 1
  {
    var name := ParseString(Skip(r));
    if name.None? then None
    else
      var q := Skip(name.value.rest);
      SuffixTransitive(name.value.rest, Skip(r), r);
      SuffixTransitive(q, name.value.rest, r);
      if Lead(q) != COLON then None
      else
        SuffixTransitive(q[1..], q, r);
        SuffixTransitive(Skip(q[1..]), q[1..], r);
        var v := ParseValue(Skip(q[1..]));
        if v.None? then None
        else
          SuffixTransitive(v.value.rest, Skip(q[1..]), r);
          Some(Parsed((name.value.value, v.value.value), v.value.rest))
  }

  function ParseMembers(r: text): (p: Option<Parsed<Kids>>)
    ensures p.Some? ==> p.value.value.Cons? && Suffix(p.value.rest, r) && |p.value.rest| < |r|
    decreases |r|, 2
  {
    var m := ParseMember(r);
    if m.None? then None
    else
      var (name, v) := m.value.value;
      var q := Skip(m.value.rest);
      SuffixTransitive(q, m.value.rest, r);
      if Lead(q) == COMMA then
        var p := ParseMembers(q[1..]);
        if p.None? then None
        else
          SuffixTransitive(q[1..], q, r);
          SuffixTransitive(p.value.rest, q[1..], r);
          Some(Parsed(Cons(Some(name), v, p.value.value), p.value.rest))
      else if Lead(q) == RBRACE then
        SuffixTransitive(q[1..], q, r);
        Some(Parsed(Cons(Some(name), v, Nil), q[1..]))
      else None
  }

  /** `cJSON_ParseWithOpts`. */
  function Parse(s: text, requireEnd: bool): Option<Parsed<Json>> {
    var p := ParseValue(Skip(s));
    if p.None? || !requireEnd then p
    else if Skip(p.value.rest) == [] then Some(Parsed(p.value.value, []))
    else None
  }
}
