/**
 Parsing what cJSON printed gives the value back, for every printable tree, in both
 formats, and stops at the end of the text.
 */
module JsonRoundTrip {
  import opened CString
  import opened JsonTree
  import opened JsonParse

  // ---------------------------------------------------------------- numbers

  ghost predicate AllDigits(a: text) {
    forall i :: 0 <= i < |a| ==> IsDigit(a[i])
  }

  /** The accumulator after the digits `a`. */
  ghost function Accumulate(n: int, a: text): int
    requires AllDigits(a)
  {
    if a == [] then n else Accumulate(n, a[..|a| - 1]) * 10 + (a[|a| - 1] - ZERO)
  }

  lemma {:induction false} AccumulateFirst(n: int, a: text)
    requires AllDigits(a) && a != []
    ensures Accumulate(n, a) == Accumulate(n * 10 + (a[0] - ZERO), a[1..])
  {
    if |a| > 1 {
      AccumulateFirst(n, a[..|a| - 1]);
      assert a[..|a| - 1][1..] == a[1..][..|a| - 2];
    } else {
      assert a[..0] == [] && a[1..] == [];
    }
  }

  lemma {:induction false} AccumulateNone(n: int, a: text)
    requires a == []
    ensures Accumulate(n, a) == n
  {
  }

  lemma {:induction false} DigitsOver(n: int, a: text, post: text)
    requires AllDigits(a)
    ensures Digits(n, a + post) == Digits(Accumulate(n, a), post)
    decreases |a|
  {
    hide Suffix, Accumulate;
    if a == [] {
      assert a + post == post;
      assert Accumulate(n, a) == n by { AccumulateNone(n, a); }
    } else {
      assert (a + post)[1..] == a[1..] + post;
      AccumulateFirst(n, a);
      DigitsOver(n * 10 + (a[0] - ZERO), a[1..], post);
    }
  }

  lemma {:induction false} AccumulateDecimal(n: nat)
    ensures Accumulate(0, Decimal(n)) == n
  {
    var a := Decimal(n);
    if n < 10 {
      assert a[..|a| - 1] == [];
    } else {
      AccumulateDecimal(n / 10);
      assert a[..|a| - 1] == Decimal(n / 10);
    }
  }

  /** While reading the digits of `n` the accumulator never exceeds `n`, so up to 2^53 a double holds it exactly. */
  lemma {:induction false} AccumulatorStaysExact(n: nat, k: nat)
    requires k <= |Decimal(n)|
    ensures 0 <= Accumulate(0, Decimal(n)[..k]) <= n
  {
    var a := Decimal(n);
    if k == |a| {
      assert a[..k] == a;
      AccumulateDecimal(n);
    } else if n < 10 {
      assert a[..k] == [];
    } else {
      assert a[..k] == Decimal(n / 10)[..k];
      AccumulatorStaysExact(n / 10, k);
    }
  }

  /** What may follow a number without becoming part of it. */
  predicate EndsNumber(post: text) {
    var b := Lead(post);
    !IsDigit(b) && b != 46 && b != 101 && b != 69
  }

  lemma {:induction false} IntegerPartOfDecimal(n: nat, post: text)
    requires !IsDigit(Lead(post))
    ensures IntegerPart(Decimal(n) + post) == Parsed(n, post)
  {
    var r := Decimal(n) + post;
    if n == 0 {
      assert r[1..] == post;
    } else {
      DigitsOver(0, Decimal(n), post);
      AccumulateDecimal(n);
    }
  }

  lemma {:induction false} ParsePrintedInt(n: int, post: text)
    requires EndsNumber(post)
    ensures Lead(PrintInt(n) + post) == MINUS || IsDigit(Lead(PrintInt(n) + post))
    ensures ParseNumber(PrintInt(n) + post) == Parsed(n as real, post)
  {
    hide Suffix, IntegerPart, Decimal;
    var r := PrintInt(n) + post;
    if n < 0 {
      assert r[1..] == Decimal(-n) + post;
      IntegerPartOfDecimal(-n, post);
    } else {
      IntegerPartOfDecimal(n, post);
    }
  }

  // ---------------------------------------------------------------- strings

  lemma {:induction false} HexDigitValue(n: nat)
    requires n < 16
    ensures IsHex(HexDigit(n)) && HexValue(HexDigit(n)) == n
  {
  }

  lemma {:induction false} ParseEscapedByte(b: byte, post: text)
    requires b != 0
    ensures EscapeByte(b)[0] != QUOTE
    ensures ParseChar(EscapeByte(b) + post) == Some(Parsed([b], post))
  {
    var r := EscapeByte(b) + post;
    if |EscapeByte(b)| == 6 {
      HexDigitValue(b / 16);
      HexDigitValue(b % 16);
      assert r[2..][4..] == post;
      assert Hex4(r[2..]) == b;
      assert UnicodeEscape(r[2..]) == Some(Parsed(b, post));
    } else if |EscapeByte(b)| == 2 {
      assert r[2..] == post;
    } else {
      assert r[1..] == post;
    }
  }

  lemma {:induction false} ParseEscaped(s: text, post: text)
    requires NulFree(s)
    ensures ParseChars(Escape(s) + [QUOTE] + post) == Some(Parsed(s, post))
    decreases |s|
  {
    var r := Escape(s) + [QUOTE] + post;
    if s == [] {
      assert r == [QUOTE] + post;
    } else {
      var rest := Escape(s[1..]) + [QUOTE] + post;
      assert r == EscapeByte(s[0]) + rest;
      ParseEscapedByte(s[0], rest);
      ParseEscaped(s[1..], post);
      assert s == [s[0]] + s[1..];
    }
  }

  /** Any C string survives printing and parsing. */
  lemma {:induction false} ParseQuoted(s: text, post: text)
    requires NulFree(s)
    ensures ParseString(Quote(s) + post) == Some(Parsed(s, post))
  {
    hide Suffix, Escape, ParseChars;
    ParseEscaped(s, post);
    assert (Quote(s) + post)[1..] == Escape(s) + [QUOTE] + post;
  }

  // ---------------------------------------------------------------- values

  /** A printed value starts with a visible byte that is not a closing bracket. */
  lemma {:induction false} ValueLead(t: Json, depth: nat, fmt: bool)
    requires Printable(t)
    ensures var r := PrintValue(t, depth, fmt);
            |r| > 0 && r[0] > 32 && r[0] != RBRACKET && r[0] != RBRACE && r[0] != COMMA
  {
  }

  lemma {:induction false} SkipTabs(n: nat, r: text)
    requires Lead(r) > 32
    ensures Skip(Tabs(n) + r) == r
  {
    if n == 0 {
      assert Tabs(n) + r == r;
    } else {
      SkipTabs(n - 1, r);
      assert (Tabs(n) + r)[1..] == Tabs(n - 1) + r;
    }
  }

  // One step of the parser each, so that the inductions below need not unfold it.

  lemma {:induction false} ParseWord(t: Json, post: text)
    requires t.Null? || t.False? || t.True?
    ensures ParseValue(PrintValue(t, 0, false) + post) == Some(Parsed(t, post))
  {
    hide Suffix;
    var word := PrintValue(t, 0, false);
    var r := word + post;
    assert r[..|word|] == word && r[|word|..] == post;
    assert r[0] == word[0];
  }

  lemma {:induction false} ParseNumberStep(n: int, post: text)
    requires EndsNumber(post)
    ensures ParseValue(PrintInt(n) + post) == Some(Parsed(Number(n as real), post))
  {
    hide Suffix, ParseNumber;
    ParsePrintedInt(n, post);
  }

  lemma {:induction false} ParseStringStep(s: text, post: text)
    requires NulFree(s)
    ensures ParseValue(Quote(s) + post) == Some(Parsed(String(s), post))
  {
    hide Suffix, ParseString;
    ParseQuoted(s, post);
    assert (Quote(s) + post)[0] == QUOTE;
  }

  lemma {:induction false} ParseArrayStep(r: text, q: text, k: Kids, post: text)
    requires Lead(r) == LBRACKET && Skip(r[1..]) == q
    requires if k.Nil? then q == [RBRACKET] + post
             else Lead(q) != RBRACKET && ParseItems(q) == Some(Parsed(k, post))
    ensures ParseValue(r) == Some(Parsed(Array(k), post))
  {
    hide Suffix, ParseItems, ParseMembers, Skip;
    assert k.Nil? ==> q[1..] == post;
  }

  lemma {:induction false} ParseObjectStep(r: text, q: text, k: Kids, post: text)
    requires Lead(r) == LBRACE && Skip(r[1..]) == q
    requires if k.Nil? then q == [RBRACE] + post
             else Lead(q) != RBRACE && ParseMembers(q) == Some(Parsed(k, post))
    ensures ParseValue(r) == Some(Parsed(Object(k), post))
  {
    hide Suffix, ParseItems, ParseMembers, Skip;
    assert k.Nil? ==> q[1..] == post;
  }

  lemma {:induction false} ParseItemsStep(r: text, v: Json, after: text, k: Kids, post: text)
    requires ParseValue(Skip(r)) == Some(Parsed(v, after))
    requires if k.Nil? then Skip(after) == [RBRACKET] + post
             else Lead(Skip(after)) == COMMA && ParseItems(Skip(after)[1..]) == Some(Parsed(k, post))
    ensures ParseItems(r) == Some(Parsed(Cons(None, v, k), post))
  {
    hide Suffix, ParseValue, Skip;
    assert k.Nil? ==> Skip(after)[1..] == post;
  }

  lemma {:induction false} ParseMemberStep(r: text, name: text, tail: text, v: Json, post: text)
    requires ParseString(Skip(r)) == Some(Parsed(name, [COLON] + tail))
    requires ParseValue(Skip(tail)) == Some(Parsed(v, post))
    ensures ParseMember(r) == Some(Parsed((name, v), post))
  {
    hide Suffix, ParseValue, ParseString;
    assert ([COLON] + tail)[1..] == tail;
  }

  lemma {:induction false} ParseMembersStep(r: text, name: text, v: Json, after: text, k: Kids, post: text)
    requires ParseMember(r) == Some(Parsed((name, v), after))
    requires if k.Nil? then Skip(after) == [RBRACE] + post
             else Lead(Skip(after)) == COMMA && ParseMembers(Skip(after)[1..]) == Some(Parsed(k, post))
    ensures ParseMembers(r) == Some(Parsed(Cons(Some(name), v, k), post))
  {
    hide Suffix, ParseMember, ParseValue, Skip;
    assert k.Nil? ==> Skip(after)[1..] == post;
  }

  lemma {:induction false} ParsePrinted(t: Json, depth: nat, fmt: bool, post: text)
    requires Printable(t) && Named(t)
    requires t.Number? ==> EndsNumber(post)
    ensures ParseValue(PrintValue(t, depth, fmt) + post) == Some(Parsed(t, post))
    decreases t, 0
  {
    hide ParseValue;
    match t
    case Number(d) => ParseNumberStep(d.Floor, post);
    case String(s) => ParseStringStep(s, post);
    case Array(k) => ParsePrintedArray(k, depth, fmt, post);
    case Object(k) => ParsePrintedObject(k, depth, fmt, post);
    case _ => ParseWord(t, post);
  }

  lemma {:induction false} ParsePrintedArray(k: Kids, depth: nat, fmt: bool, post: text)
    requires PrintableKids(k) && NamedKids(k, false)
    ensures ParseValue(PrintValue(Array(k), depth, fmt) + post) == Some(Parsed(Array(k), post))
    decreases k, 2
  {
    hide Suffix, Skip, ParseValue, ParseItems, PrintItems;
    var inner := if k.Nil? then [RBRACKET] + post else [] + PrintItems(k, depth + 1, fmt) + [RBRACKET] + post;
    var r := PrintValue(Array(k), depth, fmt) + post;
    assert r == [LBRACKET] + inner;
    if k.Cons? {
      ParsePrintedItems(k, depth + 1, fmt, [], post);
      ItemsLead(k, depth + 1, fmt);
      assert inner[0] == PrintItems(k, depth + 1, fmt)[0];
    }
    SkipVisible(inner);
    assert r[1..] == inner;
    ParseArrayStep(r, inner, k, post);
  }

  lemma {:induction false} ItemsLead(k: Kids, depth: nat, fmt: bool)
    requires k.Cons? && PrintableKids(k)
    ensures var r := PrintItems(k, depth, fmt);
            |r| > 0 && r[0] > 32 && r[0] != RBRACKET && r[0] != RBRACE && r[0] != COMMA
  {
    ValueLead(k.value, depth, fmt);
  }

  /** `gap` is what the printer puts in front of an item. */
  lemma {:induction false} ParsePrintedItems(k: Kids, depth: nat, fmt: bool, gap: text, post: text)
    requires k.Cons? && PrintableKids(k) && NamedKids(k, false)
    requires gap == [] || gap == [SPACE]
    ensures ParseItems(gap + PrintItems(k, depth, fmt) + [RBRACKET] + post) == Some(Parsed(k, post))
    decreases k, 1
  {
    hide Suffix, Skip, ParseValue, ParseItems, PrintValue, PrintItems;
    var r := gap + PrintItems(k, depth, fmt) + [RBRACKET] + post;
    var after := Separator(k.rest, fmt) + (PrintItems(k.rest, depth, fmt) + [RBRACKET] + post);
    var value := PrintValue(k.value, depth, fmt) + after;
    ValueLead(k.value, depth, fmt);
    assert r == gap + value by {
      UnfoldItems(k, depth, fmt);
      Regroup(gap, PrintValue(k.value, depth, fmt), Separator(k.rest, fmt), PrintItems(k.rest, depth, fmt), post);
    }
    SkipGap(gap, value);
    SkipVisible(value);
    AfterItem(k.rest, depth, fmt, post);
    if k.rest.Cons? {
      ParsePrintedItems(k.rest, depth, fmt, If(fmt, [SPACE]), post);
    }
    ParsePrinted(k.value, depth, fmt, after);
    SkipVisible(after);
    ParseItemsStep(r, k.value, after, k.rest, post);
  }

  lemma {:induction false} Regroup(gap: text, p: text, sep: text, rest: text, post: text)
    ensures gap + (p + (sep + rest)) + [RBRACKET] + post == gap + (p + (sep + (rest + [RBRACKET] + post)))
  {
  }

  /** What the parser finds after an item. */
  lemma {:induction false} AfterItem(rest: Kids, depth: nat, fmt: bool, post: text)
    requires PrintableKids(rest)
    ensures var after := Separator(rest, fmt) + (PrintItems(rest, depth, fmt) + [RBRACKET] + post);
            if rest.Nil? then after == [RBRACKET] + post
            else Lead(after) == COMMA && after[1..] == If(fmt, [SPACE]) + PrintItems(rest, depth, fmt) + [RBRACKET] + post
  {
    UnfoldItems(rest, depth, fmt);
    hide PrintItems, PrintValue, PrintableKids;
    var items, gap := PrintItems(rest, depth, fmt), If(fmt, [SPACE]);
    var tail := items + [RBRACKET] + post;
    if rest.Nil? {
      assert tail == [RBRACKET] + post;
    } else {
      CommaThen(gap, items, post);
    }
  }

  lemma {:induction false} CommaThen(gap: text, items: text, post: text)
    ensures var r := [COMMA] + gap + (items + [RBRACKET] + post);
            r[0] == COMMA && r[1..] == gap + items + [RBRACKET] + post
  {
  }

  lemma {:induction false} UnfoldItems(k: Kids, depth: nat, fmt: bool)
    requires PrintableKids(k)
    ensures PrintItems(k, depth, fmt)
            == if k.Nil? then []
               else PrintValue(k.value, depth, fmt) + (Separator(k.rest, fmt) + PrintItems(k.rest, depth, fmt))
  {
    hide PrintValue;
  }

  lemma {:induction false} SkipVisible(r: text)
    requires Lead(r) > 32 || r == []
    ensures Skip(r) == r
  {
  }

  lemma {:induction false} SkipGap(gap: text, r: text)
    requires gap == [] || gap == [SPACE] || gap == [TAB] || gap == [NEWLINE]
    ensures Skip(gap + r) == Skip(r)
  {
    hide Suffix;
    if gap == [] {
      assert gap + r == r;
    } else {
      assert (gap + r)[1..] == r;
    }
  }

  /** The close of an object printed at `depth`. */
  function ObjectEnd(depth: nat, fmt: bool): text {
    If(fmt, Tabs(depth)) + [RBRACE]
  }

  lemma {:induction false} SkipEnd(depth: nat, fmt: bool, post: text)
    ensures Skip(ObjectEnd(depth, fmt) + post) == [RBRACE] + post
    ensures EndsNumber(ObjectEnd(depth, fmt) + post)
  {
    if fmt {
      assert ObjectEnd(depth, fmt) + post == Tabs(depth) + ([RBRACE] + post);
      SkipTabs(depth, [RBRACE] + post);
    } else {
      assert ObjectEnd(depth, fmt) + post == [RBRACE] + post;
    }
  }

  lemma {:induction false} MembersStart(k: Kids, depth: nat, fmt: bool)
    requires k.Cons? && PrintableKids(k)
    ensures PrintMembers(k, depth, fmt) == If(fmt, Tabs(depth)) + PrintFromName(k, depth, fmt)
  {
    hide PrintValue, Escape, Tabs, PrintFromName;
  }

  lemma {:induction false} NameLeads(k: Kids, depth: nat, fmt: bool)
    requires k.Cons? && PrintableKids(k)
    ensures var r := PrintFromName(k, depth, fmt); |r| > 0 && r[0] == QUOTE
  {
    hide PrintValue, Escape, Tabs, PrintMembers;
  }

  lemma {:induction false} SkipToName(k: Kids, depth: nat, fmt: bool, post: text)
    requires k.Cons? && PrintableKids(k)
    ensures Skip(PrintMembers(k, depth, fmt) + post) == PrintFromName(k, depth, fmt) + post
    ensures Lead(PrintFromName(k, depth, fmt) + post) == QUOTE
  {
    hide Suffix, Tabs, PrintFromName, PrintMembers;
    var r := PrintFromName(k, depth, fmt) + post;
    MembersStart(k, depth, fmt);
    NameLeads(k, depth, fmt);
    assert PrintMembers(k, depth, fmt) + post == If(fmt, Tabs(depth)) + r;
    if fmt {
      SkipTabs(depth, r);
    } else {
      assert [] + r == r;
    }
  }

  lemma {:induction false} ParsePrintedObject(k: Kids, depth: nat, fmt: bool, post: text)
    requires PrintableKids(k) && NamedKids(k, true)
    ensures ParseValue(PrintValue(Object(k), depth, fmt) + post) == Some(Parsed(Object(k), post))
    decreases k, 3
  {
    hide Suffix, Skip, Tabs, ParseValue, ParseMembers, PrintMembers, PrintFromName;
    var r := PrintValue(Object(k), depth, fmt) + post;
    var end := ObjectEnd(depth, fmt) + post;
    var inner := PrintMembers(k, depth + 1, fmt) + end;
    assert r[1..] == If(fmt, [NEWLINE]) + inner;
    SkipGap(If(fmt, [NEWLINE]), inner);
    assert Lead(r) == LBRACE;
    if k.Nil? {
      SkipEnd(depth, fmt, post);
      assert inner == end by { NoMembers(depth + 1, fmt); }
    } else {
      SkipToName(k, depth + 1, fmt, end);
      SkipTwice(inner);
      ParsePrintedMembers(k, depth, fmt, Skip(inner), post);
    }
    ParseObjectStep(r, Skip(inner), k, post);
  }

  lemma {:induction false} NoMembers(depth: nat, fmt: bool)
    ensures PrintMembers(Nil, depth, fmt) == []
  {
  }

  lemma {:induction false} ParsePrintedName(name: text, tail: text)
    requires NulFree(name)
    ensures ParseString(Quote(name) + [COLON] + tail) == Some(Parsed(name, [COLON] + tail))
  {
    assert Quote(name) + [COLON] + tail == Quote(name) + ([COLON] + tail);
    ParseQuoted(name, [COLON] + tail);
  }

  lemma {:induction false} ParsePrintedMembers(k: Kids, depth: nat, fmt: bool, r: text, post: text)
    requires k.Cons? && PrintableKids(k) && NamedKids(k, true)
    requires Skip(r) == PrintFromName(k, depth + 1, fmt) + (ObjectEnd(depth, fmt) + post)
    ensures ParseMembers(r) == Some(Parsed(k, post))
    decreases k, 1
  {
    hide Suffix, Skip, ParseValue, ParseMember, ParseMembers, ParseString, PrintValue, PrintMembers, ObjectEnd, Quote;
    var end := ObjectEnd(depth, fmt) + post;
    var next := PrintMembers(k.rest, depth + 1, fmt) + end;
    var after := MemberEnd(k.rest, fmt) + next;
    var value := PrintValue(k.value, depth + 1, fmt) + after;
    var tail := If(fmt, [TAB]) + value;
    assert Skip(r) == Quote(k.name.value) + [COLON] + tail;
    ParsePrintedName(k.name.value, tail);
    ValueLead(k.value, depth + 1, fmt);
    SkipGap(If(fmt, [TAB]), value);
    SkipVisible(value);
    if k.rest.Nil? {
      NoMembers(depth + 1, fmt);
      assert next == end;
      SkipEnd(depth, fmt, post);
    }
    AfterMember(k.rest, fmt, next);
    ParsePrinted(k.value, depth + 1, fmt, after);
    ParseMemberStep(r, k.name.value, tail, k.value, after);
    if k.rest.Cons? {
      SkipToName(k.rest, depth + 1, fmt, end);
      ParsePrintedMembers(k.rest, depth, fmt, Skip(after)[1..], post);
    }
    ParseMembersStep(r, k.name.value, k.value, after, k.rest, post);
  }

  /** What the parser finds after a member. */
  lemma {:induction false} AfterMember(rest: Kids, fmt: bool, next: text)
    requires rest.Nil? ==> EndsNumber(next)
    ensures EndsNumber(MemberEnd(rest, fmt) + next)
    ensures rest.Nil? ==> Skip(MemberEnd(rest, fmt) + next) == Skip(next)
    ensures rest.Cons? ==> Lead(Skip(MemberEnd(rest, fmt) + next)) == COMMA
    ensures rest.Cons? ==> Skip(Skip(MemberEnd(rest, fmt) + next)[1..]) == Skip(next)
  {
    hide Suffix;
    var r := MemberEnd(rest, fmt) + next;
    SkipGap(If(fmt, [NEWLINE]), next);
    if rest.Nil? {
      assert r == If(fmt, [NEWLINE]) + next;
    } else {
      assert r[1..] == If(fmt, [NEWLINE]) + next;
    }
  }

  lemma SkipTwice(r: text)
    ensures Skip(Skip(r)) == Skip(r)
  {
  }

  // ---------------------------------------------------------------- main results

  /** cJSON_Parse(cJSON_Print(t)) and cJSON_Parse(cJSON_PrintUnformatted(t)) are `t`, and nothing is left over. */
  lemma {:induction false} RoundTrip(t: Json, fmt: bool, requireEnd: bool)
    requires Printable(t) && Named(t)
    ensures Parse(PrintValue(t, 0, fmt), requireEnd) == Some(Parsed(t, []))
  {
    var s := PrintValue(t, 0, fmt);
    assert s + [] == s;
    ValueLead(t, 0, fmt);
    ParsePrinted(t, 0, fmt, []);
  }

  /** Printed text determines the value: no two named trees print alike, even in different formats. */
  lemma {:induction false} PrintInjective(t: Json, fmt: bool, u: Json, fmt': bool)
    requires Printable(t) && Named(t) && Printable(u) && Named(u)
    requires PrintValue(t, 0, fmt) == PrintValue(u, 0, fmt')
    ensures t == u
  {
    RoundTrip(t, fmt, false);
    RoundTrip(u, fmt', false);
  }
}
