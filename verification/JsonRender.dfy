/**
 Pieces shared by the two cJSON printers (cjson.c): allocation, and writing strings
 and numbers into a buffer.
 */
module JsonRender {
  import opened CString
  import opened JsonTree

  /** `cJSON_malloc`: with `plenty` of memory only a negative size fails, else it may fail at any time. */
  method Malloc(n: int, plenty: bool) returns (a: array?<byte>)
    ensures a != null ==> fresh(a) && a.Length == n
    ensures plenty && n >= 0 ==> a != null
  {
    if n < 0 { return null; }
    if !plenty {
      if * { return null; }
    }
    a := new byte[n];
  }

  /** Copies `s` into `a` at `at`. */
  method Put(a: array<byte>, at: nat, s: text)
    requires at + |s| <= a.Length
    modifies a
    ensures a[..at] == old(a[..at]) && a[at..at + |s|] == s
    ensures a[at + |s|..] == old(a[at + |s|..])
  {
    for i := 0 to |s|
      invariant forall k :: 0 <= k < a.Length && !(at <= k < at + i) ==> a[k] == old(a[k])
      invariant forall k :: 0 <= k < i ==> a[at + k] == s[k]
    {
      a[at + i] := s[i];
    }
  }

  // ---------------------------------------------------------------- numbers

  function Pow10Nat(k: nat): nat {
    if k == 0 then 1 else 10 * Pow10Nat(k - 1)
  }

  lemma {:induction false} DecimalLength(n: nat, k: nat)
    requires 0 < k && n < Pow10Nat(k)
    ensures |Decimal(n)| <= k
  {
    if n >= 10 {
      DecimalLength(n / 10, k - 1);
    }
  }

  /** The 64 bytes set aside for a number are enough for every exact integer. */
  lemma IntFits(d: real)
    requires ExactInteger(d)
    ensures 1 <= |PrintInt(d.Floor)| <= 17
    ensures NulFree(PrintInt(d.Floor))
  {
    var n := if d.Floor < 0 then -d.Floor else d.Floor;
    assert Pow10Nat(4) == 10000;
    assert Pow10Nat(8) == 100000000;
    assert Pow10Nat(12) == 1000000000000;
    assert Pow10Nat(16) == 10000000000000000;
    DecimalLength(n, 16);
  }

  // ---------------------------------------------------------------- strings

  predicate NeedsEscape(b: byte) {
    0 < b < 32 || b == QUOTE || b == BACKSLASH
  }

  /** The first pass of print_string_ptr. */
  method AnyEscape(s: text) returns (flag: bool)
    requires NulFree(s)
    ensures flag <==> Escape(s) != s
  {
    flag := false;
    for i := 0 to |s|
      invariant flag <==> exists k :: 0 <= k < i && NeedsEscape(s[k])
    {
      if NeedsEscape(s[i]) { flag := true; }
    }
    EscapeChanges(s);
  }

  lemma {:induction false} EscapeChanges(s: text)
    requires NulFree(s)
    ensures |Escape(s)| >= |s| && (Escape(s) == s <==> forall i :: 0 <= i < |s| ==> !NeedsEscape(s[i]))
    ensures Escape(s) != s ==> |Escape(s)| > |s|
  {
    if s != [] {
      EscapeChanges(s[1..]);
      assert s == [s[0]] + s[1..];
      assert forall i :: 0 <= i < |s| - 1 ==> s[1..][i] == s[i + 1];
    }
  }

  lemma {:induction false} EscapeSplit(a: text, b: text)
    ensures Escape(a + b) == Escape(a) + Escape(b)
  {
    if a == [] {
      assert a + b == b;
    } else {
      assert (a + b)[1..] == a[1..] + b;
      EscapeSplit(a[1..], b);
    }
  }

  lemma {:induction false} EscapeOneMore(s: text, i: nat)
    requires i < |s|
    ensures Escape(s[..i + 1]) == Escape(s[..i]) + EscapeByte(s[i])
  {
    assert s[..i + 1] == s[..i] + [s[i]];
    EscapeSplit(s[..i], [s[i]]);
    assert [s[i]][1..] == [];
    assert Escape([s[i]]) == EscapeByte(s[i]);
  }

  lemma EscapeEmpty()
    ensures Escape([]) == []
  {
  }

  lemma {:induction false} EscapePrefix(s: text, i: nat)
    requires i <= |s|
    ensures |Escape(s[..i])| <= |Escape(s)|
  {
    assert s == s[..i] + s[i..];
    EscapeSplit(s[..i], s[i..]);
  }

  lemma {:induction false} EscapeNulFree(s: text)
    requires NulFree(s)
    ensures NulFree(Escape(s))
  {
    if s != [] {
      EscapeNulFree(s[1..]);
      var e := EscapeByte(s[0]);
      assert NulFree(e);
    }
  }

  /** The second pass: how long the escaped string is. */
  method EscapedLength(s: text) returns (len: nat)
    ensures len == |Escape(s)|
  {
    len := 0;
    for i := 0 to |s|
      invariant len == |Escape(s[..i])|
    {
      EscapeOneMore(s, i);
      len := len + 1;
      if s[i] == QUOTE || s[i] == BACKSLASH || s[i] == 8 || s[i] == 12 || s[i] == NEWLINE || s[i] == RETURN || s[i] == TAB {
        len := len + 1;
      } else if s[i] < 32 {
        len := len + 5;
      }
    }
    assert s[..|s|] == s;
  }

  /** The third pass: writes the escaped string. */
  method WriteEscaped(a: array<byte>, at: nat, s: text)
    requires at + |Escape(s)| <= a.Length
    modifies a
    ensures a[..at + |Escape(s)|] == old(a[..at]) + Escape(s)
  {
    hide Escape, EscapeByte;
    ghost var before := a[..at];
    var ptr2 := at;
    EscapeEmpty();
    assert before + [] == before;
    for i := 0 to |s|
      invariant ptr2 == at + |Escape(s[..i])| <= a.Length
      invariant a[..ptr2] == before + Escape(s[..i])
    {
      EscapeOneMore(s, i);
      EscapePrefix(s, i + 1);
      ptr2 := WriteOne(a, ptr2, s[i]);
      assert before + Escape(s[..i]) + EscapeByte(s[i]) == before + (Escape(s[..i]) + EscapeByte(s[i]));
    }
    assert s[..|s|] == s;
  }

  method WriteOne(a: array<byte>, ptr2: nat, b: byte) returns (next: nat)
    requires ptr2 + |EscapeByte(b)| <= a.Length
    modifies a
    ensures next == ptr2 + |EscapeByte(b)|
    ensures a[..next] == old(a[..ptr2]) + EscapeByte(b)
  {
    var bytes: text;
    if b > 31 && b != QUOTE && b != BACKSLASH {
      bytes := [b];
    } else if b == BACKSLASH || b == QUOTE {
      bytes := [BACKSLASH, b];
    } else if b == 8 {
      bytes := [BACKSLASH, 98];
    } else if b == 12 {
      bytes := [BACKSLASH, 102];
    } else if b == NEWLINE {
      bytes := [BACKSLASH, 110];
    } else if b == RETURN {
      bytes := [BACKSLASH, 114];
    } else if b == TAB {
      bytes := [BACKSLASH, 116];
    } else {
      bytes := [BACKSLASH, LOWER_U, ZERO, ZERO, HexDigit(b / 16), HexDigit(b % 16)];
    }
    PutAfter(a, ptr2, bytes);
    next := ptr2 + |bytes|;
  }

  /** `Put` seen as appending to what is written so far. */
  method PutAfter(a: array<byte>, at: nat, s: text)
    requires at + |s| <= a.Length
    modifies a
    ensures a[..at + |s|] == old(a[..at]) + s
  {
    Put(a, at, s);
    assert a[..at + |s|] == a[..at] + a[at..at + |s|];
  }

  /** How many bytes print_string_ptr asks for, and which of its two ways of writing it takes. */
  method StringRoom(name: Option<text>) returns (len: nat, flag: bool)
    requires name.Some? ==> NulFree(name.value)
    ensures len == |PrintName(name)| + 1
    ensures !flag && name.Some? ==> Escape(name.value) == name.value
  {
    flag := false;
    if name.None? { return 3, false; }
    flag := AnyEscape(name.value);
    if !flag {
      return |name.value| + 3, false;
    }
    var n := EscapedLength(name.value);
    len := n + 3;
  }

  /** Writes the quoted string and its terminator. */
  method WriteString(a: array<byte>, at: nat, name: Option<text>, flag: bool)
    requires at + |PrintName(name)| < a.Length
    requires !flag && name.Some? ==> Escape(name.value) == name.value
    modifies a
    ensures a[..at + |PrintName(name)| + 1] == old(a[..at]) + PrintName(name) + [0]
  {
    hide Escape;
    if name.None? {
      PutAfter(a, at, [QUOTE, QUOTE, 0]);
    } else {
      PutAfter(a, at, [QUOTE]);
      var end := WriteBody(a, at + 1, name.value, flag);
      PutAfter(a, end, [QUOTE, 0]);
      QuoteJoins(old(a[..at]), name.value);
    }
  }

  lemma QuoteJoins(before: text, s: text)
    ensures before + [QUOTE] + Escape(s) + [QUOTE, 0] == before + Quote(s) + [0]
  {
    hide Escape;
  }

  method WriteBody(a: array<byte>, at: nat, s: text, flag: bool) returns (end: nat)
    requires at + |Escape(s)| <= a.Length && (!flag ==> Escape(s) == s)
    modifies a
    ensures end == at + |Escape(s)| && a[..end] == old(a[..at]) + Escape(s)
  {
    if flag {
      var len := EscapedLength(s);
      WriteEscaped(a, at, s);
      end := at + len;
    } else {
      PutAfter(a, at, s);
      end := at + |s|;
    }
  }
}
