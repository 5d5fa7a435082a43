/**
 The cJSON printer that writes into one growable buffer (cjson.c, `printbuffer`).
 Every piece first makes sure there is room, which may move the text to a larger
 buffer; a failed allocation leaves no buffer, and then every later piece fails too.
 */
module JsonPrintBuffer {
  import opened CString
  import opened JsonTree
  import opened JsonRender

  /** Bitwise or, which `pow2gt` smears the top bit down with. */
  function Or(a: nat, b: nat): (r: nat)
    ensures r >= a
  {
    if a == 0 && b == 0 then 0
    else 2 * Or(a / 2, b / 2) + (if a % 2 == 1 || b % 2 == 1 then 1 else 0)
  }

  /** Shift to the right. */
  function Shr(z: nat, n: nat): nat
    decreases n
  {
    if n == 0 then z else Shr(z / 2, n - 1)
  }

  /** `pow2gt`: never less than what is asked for. */
  function Pow2gt(x: nat): (r: nat)
    ensures r >= x
  {
    if x == 0 then 0
    else
      var x1 := Or(x - 1, Shr(x - 1, 1));
      var x2 := Or(x1, Shr(x1, 2));
      var x4 := Or(x2, Shr(x2, 4));
      var x8 := Or(x4, Shr(x4, 8));
      Or(x8, Shr(x8, 16)) + 1
  }

  function Pow2(n: nat): (p: nat)
    ensures p > 0
  {
    if n == 0 then 1 else 2 * Pow2(n - 1)
  }

  /** Of the `k` bits of `z` the first `s` are set. */
  ghost predicate Filled(z: nat, k: nat, s: nat) {
    z < Pow2(k) <= z + Pow2(if s < k then k - s else 0)
  }

  lemma {:induction false} ShrHalf(z: nat, n: nat)
    ensures Shr(z / 2, n) == Shr(z, n) / 2
  {
    if n > 0 {
      ShrHalf(z / 2, n - 1);
    }
  }

  lemma {:induction false} FilledHalf(z: nat, k: nat, s: nat)
    requires k > 0 && s > 0 && Filled(z, k, s)
    ensures Filled(z / 2, k - 1, s)
  {
    if s == k - 1 {
      assert Pow2(k - s) == 2 * Pow2(0);
    }
  }

  lemma {:induction false} FilledShr(z: nat, k: nat, s: nat, n: nat)
    requires n <= k && s > 0 && Filled(z, k, s)
    ensures Filled(Shr(z, n), k - n, s)
    decreases n
  {
    if n > 0 {
      FilledHalf(z, k, s);
      FilledShr(z / 2, k - 1, s, n - 1);
    }
  }

  /** The last bit is set in the number or in the number shifted by `s`, if at most `2 * s` bits are to be set. */
  lemma {:induction false} LastBitSet(z: nat, k: nat, s: nat)
    requires 0 < s && 0 < k <= 2 * s && Filled(z, k, s)
    ensures z % 2 == 1 || Shr(z, s) % 2 == 1
  {
    if s < k {
      FilledShr(z, k, s, s);
      assert Pow2(k - s) == 2 * Pow2(k - s - 1);
    }
  }

  /** Or with the number shifted by `s` sets twice as many bits. */
  lemma {:induction false} Smear(z: nat, k: nat, s: nat)
    requires s > 0 && Filled(z, k, s)
    ensures Filled(Or(z, Shr(z, s)), k, 2 * s)
    decreases k
  {
    hide Or, Shr, Filled;
    if k > 0 {
      var b, w := Shr(z, s), Or(z, Shr(z, s));
      FilledHalf(z, k, s);
      ShrHalf(z, s);
      Smear(z / 2, k - 1, s);
      OrHalf(z, b);
      if k <= 2 * s {
        LastBitSet(z, k, s);
      }
      Doubled(w, k, 2 * s);
    } else {
      NoBits(z, s);
    }
  }

  lemma {:induction false} NoBits(z: nat, s: nat)
    requires Filled(z, 0, s)
    ensures Filled(Or(z, Shr(z, s)), 0, 2 * s)
  {
    ZeroShr(s);
    assert z == 0;
  }

  lemma {:induction false} ZeroShr(s: nat)
    ensures Shr(0, s) == 0
  {
    if s > 0 {
      ZeroShr(s - 1);
    }
  }

  lemma {:induction false} OrHalf(a: nat, b: nat)
    ensures Or(a, b) / 2 == Or(a / 2, b / 2)
    ensures Or(a, b) % 2 == 1 <==> a % 2 == 1 || b % 2 == 1
  {
    assert Or(0, 0) == 0;
  }

  lemma {:induction false} Doubled(w: nat, k: nat, s: nat)
    requires k > 0 && s > 0 && Filled(w / 2, k - 1, s) && (k <= s ==> w % 2 == 1)
    ensures Filled(w, k, s)
  {
  }

  lemma {:induction false} BitsOf(y: nat, n: nat) returns (k: nat)
    requires 0 < y < Pow2(n)
    ensures 0 < k <= n && Pow2(k - 1) <= y < Pow2(k)
  {
    k := n;
    if y < Pow2(n - 1) {
      k := BitsOf(y, n - 1);
    }
  }

  /** For every size up to 2^32 the result is the least power of two that suffices. */
  lemma {:induction false} Pow2gtLeast(x: nat) returns (k: nat)
    requires 0 < x <= Pow2(32)
    ensures Pow2gt(x) == Pow2(k) && x <= Pow2(k) < 2 * x
  {
    var y := x - 1;
    if y == 0 {
      assert Pow2gt(1) == 1 by { ZeroShr(1); ZeroShr(2); ZeroShr(4); ZeroShr(8); ZeroShr(16); assert Or(0, 0) == 0; }
      k := 0;
    } else {
      k := BitsOf(y, 32);
      AllSmeared(y, k);
      HalfOf(k);
    }
  }

  lemma {:induction false} AllSmeared(y: nat, k: nat)
    requires 0 < k <= 32 && Pow2(k - 1) <= y < Pow2(k)
    ensures Pow2gt(y + 1) == Pow2(k)
  {
    HalfOf(k);
    assert Filled(y, k, 1);
    var x1 := Or(y, Shr(y, 1));
    var x2 := Or(x1, Shr(x1, 2));
    var x4 := Or(x2, Shr(x2, 4));
    var x8 := Or(x4, Shr(x4, 8));
    var x16 := Or(x8, Shr(x8, 16));
    assert Pow2gt(y + 1) == x16 + 1;
    hide Or, Shr, Pow2gt, Pow2;
    Smear(y, k, 1);
    Smear(x1, k, 2);
    Smear(x2, k, 4);
    Smear(x4, k, 8);
    Smear(x8, k, 16);
  }

  lemma {:induction false} HalfOf(k: nat)
    requires k > 0
    ensures Pow2(k) == 2 * Pow2(k - 1) && Pow2(0) == 1
  {
  }

  class PrintBuffer {
    var buffer: array?<byte>
    var length: int
    var offset: nat
    const plenty: bool      // no allocation fails
    ghost var denied: bool  // an allocation has failed

    ghost predicate Valid()
      reads this, buffer
    {
      && (buffer == null <==> denied) && (denied ==> !plenty)
      && (buffer != null ==> buffer.Length == length && offset <= length)
    }

    /** The text in front of the write position. */
    ghost function Text(): text
      requires Valid()
      reads this, buffer
    {
      if buffer == null then [] else buffer[..offset]
    }

    /** The buffer holds the C string `s`, and the write position has not passed its end. */
    ghost predicate Done(s: text)
      reads this, buffer
    {
      buffer != null && offset <= |s| < buffer.Length && buffer[..|s|] == s && buffer[|s|] == 0
    }

    constructor (prebuffer: int, plenty: bool)
      requires plenty ==> prebuffer >= 0
      ensures this.plenty == plenty && Valid() && offset == 0 && (buffer != null ==> fresh(buffer))
    {
      var b := Malloc(prebuffer, plenty);
      this.plenty := plenty;
      buffer, length, offset, denied := b, prebuffer, 0, b == null;
    }

    /** `ensure` */
    method Ensure(needed: nat) returns (ok: bool)
      requires Valid()
      modifies this
      ensures Valid() && offset == old(offset)
      ensures ok <==> buffer != null
      ensures ok ==> old(buffer) != null && offset + needed <= length && Text() == old(Text())
      ensures buffer == null || buffer == old(buffer) || fresh(buffer)
    {
      if buffer == null { return false; }
      var total := needed + offset;
      if total <= length { return true; }
      var newsize := Pow2gt(total);
      var newbuffer := Malloc(newsize, plenty);
      if newbuffer == null {
        length, buffer, denied := 0, null, true;
        return false;
      }
      Put(newbuffer, 0, buffer[..length]);
      assert newbuffer[..offset] == newbuffer[0..length][..offset];
      length, buffer := newsize, newbuffer;
      ok := true;
    }

    /** Makes room, writes `s` and moves the write position past it. */
    method Append(needed: nat, s: text) returns (ok: bool)
      requires Valid() && |s| <= needed
      modifies this, buffer
      ensures Valid()
      ensures ok <==> buffer != null
      ensures ok ==> old(buffer) != null && Text() == old(Text()) + s && offset == old(offset) + |s|
      ensures buffer == null || buffer == old(buffer) || fresh(buffer)
    {
      ok := Ensure(needed);
      if ok {
        PutAfter(buffer, offset, s);
        offset := offset + |s|;
      }
    }

    /** Makes room and writes `s` and a terminator, but leaves the write position in front of them. */
    method Finish(needed: nat, s: text) returns (ok: bool)
      requires Valid() && |s| < needed
      modifies this, buffer
      ensures Valid()
      ensures ok <==> buffer != null
      ensures ok ==> old(buffer) != null && Done(old(Text()) + s) && offset == old(offset)
      ensures buffer == null || buffer == old(buffer) || fresh(buffer)
    {
      ok := Ensure(needed);
      if ok {
        PutAfter(buffer, offset, s + [0]);
        DoneIs(buffer, offset + |s|, old(Text()) + s);
      }
    }

    static lemma DoneIs(a: array<byte>, n: nat, s: text)
      requires n < a.Length && a[..n + 1] == s + [0]
      ensures |s| == n && a[..n] == s && a[n] == 0
    {
      assert |s| == n;
      assert a[..n] == a[..n + 1][..n];
      assert a[n] == a[..n + 1][n];
    }

    /** `p->offset = update(p)`: the write position moves to the terminator. */
    method Update(ghost s: text)
      requires Valid() && (buffer != null ==> Done(s) && forall i :: offset <= i < |s| ==> s[i] != 0)
      modifies this`offset
      ensures Valid() && (buffer != null ==> Text() == s) && (buffer == null ==> offset == 0)
    {
      if buffer == null {
        offset := 0;
        return;
      }
      var n := offset;
      while buffer[n] != 0
        invariant offset <= n <= |s|
        decreases |s| - n
      {
        assert buffer[n] == buffer[..|s|][n];
        n := n + 1;
      }
      offset := n;
    }

    /** `print_string_ptr` */
    method PrintString(name: Option<text>) returns (ok: bool)
      requires Valid() && (name.Some? ==> NulFree(name.value))
      modifies this, buffer
      ensures Valid()
      ensures ok <==> buffer != null
      ensures ok ==> old(buffer) != null && Done(old(Text()) + PrintName(name)) && offset == old(offset)
      ensures buffer == null || buffer == old(buffer) || fresh(buffer)
    {
      hide PrintName;
      var len, flag := StringRoom(name);
      ok := Ensure(len);
      if ok {
        WriteString(buffer, offset, name, flag);
        DoneIs(buffer, offset + |PrintName(name)|, old(Text()) + PrintName(name));
      }
    }

    /** Prints a name and moves past it; the source does not look at whether printing worked. */
    method NameAndUpdate(name: Option<text>)
      requires Valid() && (name.Some? ==> NulFree(name.value))
      modifies this, buffer
      ensures Valid()
      ensures buffer != null ==> old(buffer) != null && Text() == old(Text()) + PrintName(name)
      ensures buffer != null ==> offset >= old(offset)
      ensures buffer == null || buffer == old(buffer) || fresh(buffer)
    {
      hide PrintName;
      var ok := PrintString(name);
      NameNulFree(name);
      Update(old(Text()) + PrintName(name));
    }

    /** `print_value`: null, or where the text starts. */
    method PrintItem(t: Json, depth: nat, fmt: bool) returns (r: Option<nat>)
      requires Valid() && Printable(t)
      modifies this, buffer
      ensures Valid()
      ensures r.Some? <==> buffer != null
      ensures r.Some? ==> old(buffer) != null && Done(old(Text()) + PrintValue(t, depth, fmt)) && offset >= old(offset)
      ensures r.Some? ==> r.value == (if t.Object? && t.members.Cons? && fmt then depth else old(offset))
      ensures buffer == null || buffer == old(buffer) || fresh(buffer)
      decreases t, 3
    {
      var ok: bool;
      match t {
        case Null => ok := Finish(5, NULL_TEXT);
        case False => ok := Finish(6, FALSE_TEXT);
        case True => ok := Finish(5, TRUE_TEXT);
        case Number(d) =>
          IntFits(d);
          if d == 0.0 {
            ok := Finish(2, [ZERO]);
          } else {
            ok := Finish(64, PrintInt(d.Floor));
          }
        case String(v) => ok := PrintString(Some(v));
        case Array(k) =>
          r := PrintArray(k, depth, fmt);
          return;
        case Object(k) =>
          r := PrintObject(k, depth, fmt);
          return;
      }
      r := if ok then Some(offset) else None;
    }

    /** Prints a child and moves past it; the source does not look at whether printing worked. */
    method ItemAndUpdate(t: Json, depth: nat, fmt: bool)
      requires Valid() && Printable(t)
      modifies this, buffer
      ensures Valid()
      ensures buffer != null ==> old(buffer) != null && Text() == old(Text()) + PrintValue(t, depth, fmt)
      ensures buffer != null ==> offset >= old(offset)
      ensures buffer == null || buffer == old(buffer) || fresh(buffer)
      decreases t, 4
    {
      hide PrintValue;
      var r := PrintItem(t, depth, fmt);
      ValueNulFree(t, depth, fmt);
      Update(old(Text()) + PrintValue(t, depth, fmt));
    }

    /** `print_array` */
    method PrintArray(k: Kids, depth: nat, fmt: bool) returns (r: Option<nat>)
      requires Valid() && PrintableKids(k)
      modifies this, buffer
      ensures Valid()
      ensures r.Some? <==> buffer != null
      ensures r.Some? ==> old(buffer) != null && Done(old(Text()) + PrintValue(Array(k), depth, fmt))
      ensures r.Some? ==> offset >= old(offset) && r.value == old(offset)
      ensures buffer == null || buffer == old(buffer) || fresh(buffer)
      decreases k, 2
    {
      hide PrintItems;
      var ok: bool;
      var i := offset;
      ghost var pre := Text();
      if k.Nil? {
        ok := Finish(3, [LBRACKET, RBRACKET]);
        return if ok then Some(i) else None;
      }
      ok := Append(1, [LBRACKET]);
      if !ok { return None; }
      ok := PrintChain(k, depth + 1, fmt);
      if !ok { return None; }
      ok := Finish(2, [RBRACKET]);
      ArrayJoins(pre, k, depth, fmt);
      r := if ok then Some(i) else None;
    }

    /** The loop of `print_array`. */
    method PrintChain(k: Kids, depth: nat, fmt: bool) returns (ok: bool)
      requires Valid() && PrintableKids(k)
      modifies this, buffer
      ensures Valid()
      ensures buffer != null ==> ok && old(buffer) != null && Text() == old(Text()) + PrintItems(k, depth, fmt)
      ensures buffer != null ==> offset >= old(offset)
      ensures buffer == null || buffer == old(buffer) || fresh(buffer)
      decreases k, 1
    {
      hide PrintValue, PrintItems;
      ghost var goal := Text() + PrintItems(k, depth, fmt);
      var child := k;
      while child.Cons?
        invariant Valid() && PrintableKids(child) && (child == k || child < k)
        invariant buffer != null ==> old(buffer) != null && Text() + PrintItems(child, depth, fmt) == goal
        invariant buffer != null ==> offset >= old(offset)
        invariant buffer == null || buffer == old(buffer) || fresh(buffer)
        decreases child
      {
        ItemsJoin(Text(), child, depth, fmt);
        ItemAndUpdate(child.value, depth, fmt);
        if child.rest.Cons? {
          ok := Append(if fmt then 3 else 2, Separator(child.rest, fmt));
          if !ok { return false; }
        }
        child := child.rest;
      }
      ItemsEnd(Text(), depth, fmt);
      ok := true;
    }

    /** `print_object`.  Formatted, it returns a count of tabs in place of the start, which agree only at the top. */
    method PrintObject(k: Kids, depth: nat, fmt: bool) returns (r: Option<nat>)
      requires Valid() && PrintableKids(k)
      modifies this, buffer
      ensures Valid()
      ensures r.Some? <==> buffer != null
      ensures r.Some? ==> old(buffer) != null && Done(old(Text()) + PrintValue(Object(k), depth, fmt))
      ensures r.Some? ==> offset >= old(offset) && r.value == (if k.Cons? && fmt then depth else old(offset))
      ensures buffer == null || buffer == old(buffer) || fresh(buffer)
      decreases k, 2
    {
      hide PrintMembers, PrintValue;
      var ok: bool;
      var i := offset;
      ghost var pre := Text();
      ObjectJoins(pre, k, depth, fmt);
      if k.Nil? {
        ok := Finish(if fmt then depth + 4 else 3, [LBRACE] + If(fmt, [NEWLINE] + Tabs(depth)) + [RBRACE]);
        return if ok then Some(i) else None;
      }
      ok := Append(if fmt then 3 else 2, [LBRACE] + If(fmt, [NEWLINE]));
      if !ok { return None; }
      ok := PrintMemberChain(k, depth + 1, fmt);
      if !ok { return None; }
      ok := Finish(if fmt then depth + 2 else 2, If(fmt, Tabs(depth)) + [RBRACE]);
      if fmt { i := depth; }
      r := if ok then Some(i) else None;
    }

    /** The loop of `print_object`. */
    method PrintMemberChain(k: Kids, depth: nat, fmt: bool) returns (ok: bool)
      requires Valid() && PrintableKids(k)
      modifies this, buffer
      ensures Valid()
      ensures buffer != null ==> ok && old(buffer) != null && Text() == old(Text()) + PrintMembers(k, depth, fmt)
      ensures buffer != null ==> offset >= old(offset)
      ensures buffer == null || buffer == old(buffer) || fresh(buffer)
      decreases k, 1
    {
      hide PrintValue, PrintMembers, PrintMember, Tabs;
      ghost var goal := Text() + PrintMembers(k, depth, fmt);
      var child := k;
      while child.Cons?
        invariant Valid() && PrintableKids(child) && (child == k || child < k)
        invariant buffer != null ==> old(buffer) != null && Text() + PrintMembers(child, depth, fmt) == goal
        invariant buffer != null ==> offset >= old(offset)
        invariant buffer == null || buffer == old(buffer) || fresh(buffer)
        decreases child
      {
        MembersJoin(Text(), child, depth, fmt);
        ok := PrintOneMember(child, depth, fmt);
        if !ok { return; }
        child := child.rest;
      }
      MembersEnd(Text(), depth, fmt);
      ok := true;
    }

    method PrintOneMember(child: Kids, depth: nat, fmt: bool) returns (ok: bool)
      requires Valid() && child.Cons? && PrintableKids(child)
      modifies this, buffer
      ensures Valid()
      ensures ok <==> buffer != null
      ensures ok ==> old(buffer) != null && Text() == old(Text()) + (If(fmt, Tabs(depth)) + PrintMember(child, depth, fmt))
      ensures buffer != null ==> offset >= old(offset)
      ensures buffer == null || buffer == old(buffer) || fresh(buffer)
      decreases child, 0
    {
      hide PrintValue, PrintName, PrintMember, Tabs;
      ghost var pre := Text();
      if fmt {
        ok := Append(depth, Tabs(depth));
        if !ok { return; }
      }
      NameAndUpdate(child.name);
      ok := Append(if fmt then 2 else 1, [COLON] + If(fmt, [TAB]));
      if !ok { return; }
      ItemAndUpdate(child.value, depth, fmt);
      ok := Append((if fmt then 1 else 0) + (if child.rest.Cons? then 1 else 0) + 1, MemberEnd(child.rest, fmt));
      MemberJoins(pre, child, depth, fmt);
    }
  }

  // ---------------------------------------------------------------- texts

  lemma {:induction false} MemberJoins(pre: text, k: Kids, depth: nat, fmt: bool)
    requires k.Cons? && PrintableKids(k)
    ensures (if fmt then pre + Tabs(depth) else pre) + PrintName(k.name) + ([COLON] + If(fmt, [TAB]))
            + PrintValue(k.value, depth, fmt) + MemberEnd(k.rest, fmt)
            == pre + (If(fmt, Tabs(depth)) + PrintMember(k, depth, fmt))
  {
    hide PrintName, PrintValue, Tabs;
  }

  lemma {:induction false} MembersJoin(pre: text, k: Kids, depth: nat, fmt: bool)
    requires k.Cons? && PrintableKids(k)
    ensures pre + PrintMembers(k, depth, fmt)
            == pre + (If(fmt, Tabs(depth)) + PrintMember(k, depth, fmt)) + PrintMembers(k.rest, depth, fmt)
  {
    hide PrintMember, Tabs;
  }

  lemma {:induction false} MembersEnd(pre: text, depth: nat, fmt: bool)
    ensures pre + PrintMembers(Nil, depth, fmt) == pre
  {
  }

  lemma {:induction false} ObjectJoins(pre: text, k: Kids, depth: nat, fmt: bool)
    requires PrintableKids(k)
    ensures if k.Nil? then
              pre + ([LBRACE] + If(fmt, [NEWLINE] + Tabs(depth)) + [RBRACE]) == pre + PrintValue(Object(k), depth, fmt)
            else
              pre + ([LBRACE] + If(fmt, [NEWLINE])) + PrintMembers(k, depth + 1, fmt) + (If(fmt, Tabs(depth)) + [RBRACE])
              == pre + PrintValue(Object(k), depth, fmt)
  {
    hide PrintFromName, Tabs;
    if k.Nil? {
      MembersEnd([], depth + 1, fmt);
    }
  }

  lemma {:induction false} ArrayJoins(pre: text, k: Kids, depth: nat, fmt: bool)
    requires k.Cons? && PrintableKids(k)
    ensures pre + [LBRACKET] + PrintItems(k, depth + 1, fmt) + [RBRACKET] == pre + PrintValue(Array(k), depth, fmt)
  {
    hide PrintItems;
  }

  lemma {:induction false} ItemsJoin(pre: text, k: Kids, depth: nat, fmt: bool)
    requires k.Cons? && PrintableKids(k)
    ensures pre + PrintItems(k, depth, fmt)
            == pre + PrintValue(k.value, depth, fmt) + Separator(k.rest, fmt) + PrintItems(k.rest, depth, fmt)
  {
    hide PrintValue;
  }

  lemma {:induction false} ItemsEnd(pre: text, depth: nat, fmt: bool)
    ensures pre + PrintItems(Nil, depth, fmt) == pre
  {
  }

  lemma {:induction false} NameNulFree(name: Option<text>)
    requires name.Some? ==> NulFree(name.value)
    ensures NulFree(PrintName(name))
  {
    if name.Some? {
      EscapeNulFree(name.value);
    }
  }

  /** Printed text never holds a terminator. */
  lemma {:induction false} ValueNulFree(t: Json, depth: nat, fmt: bool)
    requires Printable(t)
    ensures NulFree(PrintValue(t, depth, fmt))
    decreases t, 2
  {
    hide PrintItems, PrintMembers;
    match t
    case Number(d) => IntFits(d);
    case String(s) => NameNulFree(Some(s));
    case Array(k) => ItemsNulFree(k, depth + 1, fmt);
    case Object(k) => MembersNulFree(k, depth + 1, fmt);
    case _ =>
  }

  lemma {:induction false} ItemsNulFree(k: Kids, depth: nat, fmt: bool)
    requires PrintableKids(k)
    ensures NulFree(PrintItems(k, depth, fmt))
    decreases k, 1
  {
    hide PrintValue;
    if k.Cons? {
      ValueNulFree(k.value, depth, fmt);
      ItemsNulFree(k.rest, depth, fmt);
    }
  }

  lemma {:induction false} MembersNulFree(k: Kids, depth: nat, fmt: bool)
    requires PrintableKids(k)
    ensures NulFree(PrintMembers(k, depth, fmt))
    decreases k, 1
  {
    hide PrintMember;
    if k.Cons? {
      MemberNulFree(k, depth, fmt);
      MembersNulFree(k.rest, depth, fmt);
    }
  }

  lemma {:induction false} MemberNulFree(k: Kids, depth: nat, fmt: bool)
    requires k.Cons? && PrintableKids(k)
    ensures NulFree(PrintMember(k, depth, fmt))
    decreases k, 0
  {
    hide PrintValue, PrintName;
    NameNulFree(k.name);
    ValueNulFree(k.value, depth, fmt);
  }

  /** `cJSON_PrintBuffered`: null only after a failed allocation, and otherwise the printed text. */
  method PrintBuffered(t: Json, prebuffer: int, fmt: bool, plenty: bool) returns (r: Option<array<byte>>)
    requires Printable(t)
    ensures plenty && prebuffer >= 0 ==> r.Some?
    ensures r.Some? ==> fresh(r.value)
    ensures r.Some? ==> var s := PrintValue(t, 0, fmt);
                        |s| < r.value.Length && r.value[..|s|] == s && r.value[|s|] == 0
  {
    var p := new PrintBuffer(prebuffer, plenty && prebuffer >= 0);
    var start := p.PrintItem(t, 0, fmt);
    if start.None? { return None; }
    assert start.value == 0;
    assert [] + PrintValue(t, 0, fmt) == PrintValue(t, 0, fmt);
    r := Some(p.buffer);
  }
}
