/**
 `parse_number` (cjson.c) as the source runs it, against `JsonParse.ParseNumber`.
 */
module JsonNumber {
  import opened CString
  import opened JsonTree
  import opened JsonParse
  import opened JsonRender

  /** A digit loop: appends digits to the accumulator. */
  method DigitsAt(s: text, i: nat, n: int) returns (m: int, j: nat)
    requires i <= |s|
    ensures i <= j <= |s| && Digits(n, s[i..]) == Parsed(m, s[j..])
  {
    hide Suffix;
    m, j := n, i;
    while IsDigit(At(s, j))
      invariant i <= j <= |s| && Digits(m, s[j..]) == Digits(n, s[i..])
      decreases |s| - j
    {
      assert s[j..][1..] == s[j + 1..];
      m, j := m * 10 + (At(s, j) - ZERO), j + 1;
    }
  }

  method IntegerAt(s: text, i: nat) returns (n: int, j: nat)
    requires i <= |s|
    ensures i <= j <= |s| && IntegerPart(s[i..]) == Parsed(n, s[j..])
  {
    hide Suffix;
    n, j := 0, i;
    if At(s, j) == ZERO {
      assert s[j..][1..] == s[j + 1..];
      j := j + 1;
    }
    if ZERO < At(s, j) <= NINE {
      n, j := DigitsAt(s, j, n);
    }
  }

  method FractionAt(s: text, i: nat, n: int) returns (m: int, scale: int, j: nat)
    requires i <= |s|
    ensures i <= j <= |s| && FractionPart(n, s[i..]) == Parsed((m, scale), s[j..])
  {
    hide Suffix;
    m, scale, j := n, 0, i;
    if At(s, j) == 46 && IsDigit(At(s, j + 1)) {
      assert s[j..][1..] == s[j + 1..];
      m, j := DigitsAt(s, j + 1, m);
      scale := -(j - (i + 1));
    }
  }

  method ExponentAt(s: text, i: nat) returns (e: int, j: nat)
    requires i <= |s|
    ensures i <= j <= |s| && ExponentPart(s[i..]) == Parsed(e, s[j..])
  {
    hide Suffix;
    e, j := 0, i;
    if At(s, j) == 101 || At(s, j) == 69 {
      assert s[j..][1..] == s[j + 1..];
      j := j + 1;
      var negative := At(s, j) == MINUS;
      if At(s, j) == 43 || negative {
        assert s[j..][1..] == s[j + 1..];
        j := j + 1;
      }
      e, j := DigitsAt(s, j, 0);
      if negative { e := -e; }
    }
  }

  method ParseNumberAt(s: text, i: nat) returns (d: real, end: nat)
    requires i < |s| && (s[i] == MINUS || IsDigit(s[i]))
    ensures i < end <= |s| && ParseNumber(s[i..]) == Parsed(d, s[end..])
  {
    hide Suffix, IntegerPart, FractionPart, ExponentPart, Scaled;
    var num := i;
    var negative := At(s, num) == MINUS;
    if negative {
      assert s[i..][1..] == s[i + 1..];
      num := num + 1;
    }
    var n, j := IntegerAt(s, num);
    var m, scale, k := FractionAt(s, j, n);
    var e, l := ExponentAt(s, k);
    d := Scaled(if negative then -m else m, scale + e);
    end := l;
  }

  // ---------------------------------------------------------------- what a number means

  ghost predicate AllDigits(ds: text) {
    forall i :: 0 <= i < |ds| ==> 48 <= ds[i] <= 57
  }

  /** The value of decimal digits. */
  function Val(ds: text): int {
    if ds == [] then 0 else 10 * Val(ds[..|ds| - 1]) + (ds[|ds| - 1] as int - 48)
  }

  /** The digit loop is Horner's rule for the digits behind what was read before. */
  lemma {:induction false} DigitsRead(n: int, ds: text, post: text)
    requires AllDigits(ds) && !IsDigit(Lead(post))
    ensures Digits(n, ds + post) == Parsed(n * Pow10Nat(|ds|) + Val(ds), post)
    decreases |ds|
  {
    hide Suffix;
    if ds == [] {
      assert ds + post == post;
    } else {
      var m := n * 10 + (ds[0] - ZERO);
      assert (ds + post)[1..] == ds[1..] + post;
      DigitsRead(m, ds[1..], post);
      ValFirst(ds);
      Horner(n, ds[0] - ZERO, Pow10Nat(|ds| - 1), Val(ds[1..]));
      hide Val;
    }
  }

  lemma {:induction false} Horner(n: int, d: int, p: nat, v: int)
    ensures (n * 10 + d) * p + v == n * (10 * p) + (d * p + v)
  {
    assert (n * 10 + d) * p == n * 10 * p + d * p;
  }

  lemma {:induction false} ValFirst(ds: text)
    requires AllDigits(ds) && ds != []
    ensures Val(ds) == (ds[0] - 48) * Pow10Nat(|ds| - 1) + Val(ds[1..])
  {
    var n := |ds| - 1;
    if n > 0 {
      ValFirst(ds[..n]);
      assert ds[..n][1..] == ds[1..][..n - 1];
      assert (ds[0] - 48) * Pow10Nat(n) == 10 * ((ds[0] - 48) * Pow10Nat(n - 1));
    } else {
      assert ds[..0] == [] && ds[1..] == [];
    }
  }

  lemma {:induction false} Pow10Next(e: int)
    ensures Pow10(e) * 10.0 == Pow10(e + 1)
  {
  }

  lemma {:induction false} Pow10Shift(e: int, k: nat)
    ensures Pow10(e - k) * Pow10Nat(k) as real == Pow10(e)
  {
    if k > 0 {
      Pow10Next(e - k);
      Pow10Shift(e, k - 1);
      hide Pow10;
      var a, b := Pow10(e - k), Pow10Nat(k - 1) as real;
      assert Pow10Nat(k) as real == 10.0 * b;
      assert a * (10.0 * b) == (a * 10.0) * b;
    }
  }

  function Positive(e: int): nat {
    if e > 0 then e else 0
  }

  lemma {:induction false} Pow10Means(e: int)
    ensures Pow10(e) * Pow10Nat(Positive(-e)) as real == Pow10Nat(Positive(e)) as real
  {
    Pow10Shift(if e < 0 then 0 else e, if e < 0 then -e else e);
    assert Pow10(0) == 1.0 && Pow10Nat(0) == 1;
    hide Pow10, Pow10Nat;
  }

  /** `v` is `n` with the point before its last `f` digits, times ten to the `e`; written without division. */
  ghost predicate DecimalValue(v: real, n: int, f: nat, e: int) {
    v * Pow10Nat(f) as real * Pow10Nat(Positive(-e)) as real == n as real * Pow10Nat(Positive(e)) as real
  }

  lemma {:induction false} ScaledMeans(n: int, f: nat, e: int)
    ensures DecimalValue(Scaled(n, e - f), n, f, e)
  {
    Pow10Shift(e, f);
    Pow10Means(e);
    hide Pow10, Pow10Nat, Positive;
    Regroup(n as real, Pow10(e - f), Pow10Nat(f) as real, Pow10Nat(Positive(-e)) as real, Pow10(e), Pow10Nat(Positive(e)) as real);
  }

  lemma {:induction false} Regroup(n: real, a: real, b: real, c: real, ab: real, abc: real)
    requires a * b == ab && ab * c == abc
    ensures n * a * b * c == n * abc
  {
    assert n * a * b == n * ab;
    assert n * ab * c == n * abc;
  }

  /** The sign and the digits of an exponent. */
  datatype Exponent = Absent | Written(mark: byte, sign: text, digits: text)

  ghost predicate WellWritten(x: Exponent) {
    x.Written? ==> (x.mark == 101 || x.mark == 69) && (x.sign == [] || x.sign == [43] || x.sign == [45]) && AllDigits(x.digits)
  }

  function ExponentText(x: Exponent): text {
    match x case Absent => [] case Written(mark, sign, digits) => [mark] + sign + digits
  }

  ghost function ExponentVal(x: Exponent): int {
    match x case Absent => 0 case Written(_, sign, digits) => if sign == [45] then -Val(digits) else Val(digits)
  }

  /** A byte that ends a number: no digit, point, `e` or sign. */
  predicate EndsNumber(b: byte) {
    !(48 <= b <= 57) && b != 46 && b != 101 && b != 69 && b != 43 && b != 45
  }

  lemma {:induction false} ExponentReads(x: Exponent, post: text)
    requires WellWritten(x) && EndsNumber(Lead(post))
    ensures ExponentPart(ExponentText(x) + post) == Parsed(ExponentVal(x), post)
  {
    hide Suffix, Digits, Val;
    var r := ExponentText(x) + post;
    if x.Absent? {
      assert r == post;
    } else {
      var tail := x.digits + post;
      DigitsRead(0, x.digits, post);
      assert Lead(tail) == if x.digits == [] then Lead(post) else x.digits[0];
      Marked(x.mark, x.sign, x.digits, post, r);
    }
  }

  lemma {:induction false} Marked(mark: byte, sign: text, digits: text, post: text, r: text)
    requires r == [mark] + sign + digits + post && |sign| <= 1
    ensures |r| > 0 && r[0] == mark && r[1..] == sign + (digits + post)
    ensures if sign == [] then r[1..] == digits + post else Lead(r[1..]) == sign[0] && r[1..][1..] == digits + post
  {
    assert r[1..] == sign + (digits + post);
  }

  /** The digits before the point; one zero may stand in front of them. */
  ghost predicate WholeDigits(i: text) {
    AllDigits(i) && |i| > 0 && (|i| == 1 || i[0] != 48 || i[1] != 48)
  }

  lemma {:induction false} IntegerReads(i: text, post: text)
    requires WholeDigits(i) && !IsDigit(Lead(post))
    ensures AllDigits(i) && IntegerPart(i + post) == Parsed(Val(i), post)
  {
    hide Suffix, Val;
    var r := i + post;
    DigitsRead(0, i, post);
    assert r[0] == i[0] && r[1..] == i[1..] + post;
    if i[0] == ZERO {
      assert Digits(0, r) == Digits(0, r[1..]);
      assert Lead(r[1..]) == if |i| == 1 then Lead(post) else i[1];
    }
  }

  lemma {:induction false} FractionReads(n: int, f: text, post: text)
    requires AllDigits(f) && !IsDigit(Lead(post)) && Lead(post) != 46
    ensures FractionPart(n, If(f != [], [46] + f) + post) == Parsed((n * Pow10Nat(|f|) + Val(f), -|f|), post)
  {
    hide Suffix, Digits;
    var r := If(f != [], [46] + f) + post;
    if f == [] {
      assert r == post && Val(f) == 0;
    } else {
      hide Val;
      assert r[1..] == f + post && r[0] == 46 && r[1] == f[0];
      DigitsRead(n, f, post);
    }
  }

  function NumberText(negative: bool, i: text, f: text, x: Exponent): text {
    If(negative, [45]) + i + If(f != [], [46] + f) + ExponentText(x)
  }

  /** The digits of a number without its point, as a signed integer. */
  ghost function Mantissa(negative: bool, i: text, f: text): int {
    var n := Val(i) * Pow10Nat(|f|) + Val(f);
    if negative then -n else n
  }

  lemma {:induction false} TextParts(negative: bool, i: text, mid: text, tail: text, f: text, x: Exponent, post: text)
    requires WholeDigits(i) && AllDigits(f) && WellWritten(x) && EndsNumber(Lead(post))
    requires tail == ExponentText(x) + post && mid == If(f != [], [46] + f) + tail
    ensures var r := NumberText(negative, i, f, x) + post;
            && (if negative then Lead(r) == MINUS && r[1..] == i + mid else IsDigit(Lead(r)) && Lead(r) != MINUS && r == i + mid)
    ensures !IsDigit(Lead(mid)) && !IsDigit(Lead(tail)) && Lead(tail) != 46
  {
    assert Lead(tail) == if x.Absent? then Lead(post) else x.mark;
    assert Lead(mid) == if f == [] then Lead(tail) else 46;
    assert Lead(i + mid) == i[0] && IsDigit(i[0]) && i[0] != MINUS;
    hide AllDigits, WholeDigits, ExponentText, WellWritten, EndsNumber;
    FivePieces(If(negative, [45]), i, If(f != [], [46] + f), ExponentText(x), post);
    var r := NumberText(negative, i, f, x) + post;
    assert r == If(negative, [45]) + (i + mid);
    if negative {
      assert r[1..] == i + mid;
    } else {
      assert r == i + mid;
    }
  }

  lemma {:induction false} FivePieces(a: text, b: text, c: text, d: text, e: text)
    ensures a + b + c + d + e == a + (b + (c + (d + e)))
  {
  }

  /** The parser reads the number `v` at `r` and stops at `post`. */
  ghost predicate Reads(r: text, v: real, post: text) {
    (Lead(r) == MINUS || IsDigit(Lead(r))) && ParseNumber(r) == Parsed(v, post)
  }

  lemma {:induction false} ParseParts(r: text, negative: bool, r0: text, i: Parsed<int>, f: Parsed<(int, int)>, e: Parsed<int>)
    requires if negative then Lead(r) == MINUS && r[1..] == r0 else IsDigit(Lead(r)) && Lead(r) != MINUS && r == r0
    requires IntegerPart(r0) == i && FractionPart(i.value, i.rest) == f && ExponentPart(f.rest) == e
    ensures Reads(r, Scaled(if negative then -f.value.0 else f.value.0, f.value.1 + e.value), e.rest)
  {
    hide IntegerPart, FractionPart, ExponentPart, Scaled, Suffix;
  }

  /** The pieces of a number, and text that does not go on with it. */
  ghost predicate Numeric(i: text, f: text, x: Exponent, post: text) {
    WholeDigits(i) && AllDigits(f) && WellWritten(x) && EndsNumber(Lead(post))
  }

  lemma {:induction false} NumberParts(negative: bool, i: text, f: text, x: Exponent, post: text)
    requires Numeric(i, f, x, post)
    ensures Reads(NumberText(negative, i, f, x) + post, Scaled(Mantissa(negative, i, f), ExponentVal(x) - |f|), post)
  {
    hide Reads, IntegerPart, FractionPart, ExponentPart, Scaled, Val, Pow10Nat, ExponentVal, ExponentText, WellWritten;
    hide NumberText, AllDigits, Lead, WholeDigits;
    var tail := ExponentText(x) + post;
    var mid := If(f != [], [46] + f) + tail;
    TextParts(negative, i, mid, tail, f, x, post);
    IntegerReads(i, mid);
    FractionReads(Val(i), f, tail);
    ExponentReads(x, post);
    var n := Val(i) * Pow10Nat(|f|) + Val(f);
    hide If;
    ParseParts(NumberText(negative, i, f, x) + post, negative, i + mid,
               Parsed(Val(i), mid), Parsed((n, -|f|), tail), Parsed(ExponentVal(x), post));
    assert -|f| + ExponentVal(x) == ExponentVal(x) - |f|;
  }

  /** What a number means: sign, digits, digits after a point and an exponent give the decimal value. */
  lemma {:induction false} NumberReads(negative: bool, i: text, f: text, x: Exponent, post: text) returns (v: real)
    requires Numeric(i, f, x, post)
    ensures Reads(NumberText(negative, i, f, x) + post, v, post) && DecimalValue(v, Mantissa(negative, i, f), |f|, ExponentVal(x))
  {
    hide *;
    NumberParts(negative, i, f, x, post);
    v := Scaled(Mantissa(negative, i, f), ExponentVal(x) - |f|);
    ScaledMeans(Mantissa(negative, i, f), |f|, ExponentVal(x));
  }

  /** A second zero ends the number. */
  lemma {:induction false} SecondZeroEnds(post: text)
    ensures ParseNumber([48, 48] + post) == Parsed(0.0, [48] + post)
  {
    var r := [48, 48] + post;
    assert r[1..] == [48] + post;
    hide Suffix;
  }
}
