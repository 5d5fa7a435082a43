/**
 The cJSON printer that allocates every piece and joins the pieces (cjson.c).  The C
 strings it returns are not written again, so they are values here; the block a
 string is composed in is an array of the size the source computes for it, and
 every write is shown to fall inside.
 */
module JsonPrintAlloc {
  import opened CString
  import opened JsonTree
  import opened JsonRender

  // ---------------------------------------------------------------- pieces

  /** The texts of the children of an array. */
  ghost function ItemTexts(k: Kids, depth: nat, fmt: bool): seq<text>
    requires PrintableKids(k)
  {
    if k.Nil? then [] else [PrintValue(k.value, depth, fmt)] + ItemTexts(k.rest, depth, fmt)
  }

  ghost function JoinItems(texts: seq<text>, fmt: bool): text {
    if texts == [] then []
    else texts[0] + (if |texts| == 1 then [] else [COMMA] + If(fmt, [SPACE])) + JoinItems(texts[1..], fmt)
  }

  lemma {:induction false} JoinItemsIsPrint(k: Kids, depth: nat, fmt: bool)
    requires PrintableKids(k)
    ensures JoinItems(ItemTexts(k, depth, fmt), fmt) == PrintItems(k, depth, fmt)
  {
    hide PrintValue;
    if k.Cons? {
      JoinItemsIsPrint(k.rest, depth, fmt);
      assert ItemTexts(k, depth, fmt)[1..] == ItemTexts(k.rest, depth, fmt);
    }
  }

  /** The length print_array adds up, without its constant. */
  ghost function ItemsRoom(texts: seq<text>, fmt: bool): nat {
    if texts == [] then 0
    else ItemsRoom(texts[..|texts| - 1], fmt) + |texts[|texts| - 1]| + 2 + (if fmt then 1 else 0)
  }

  lemma {:induction false} ItemsRoomFront(texts: seq<text>, fmt: bool)
    requires texts != []
    ensures ItemsRoom(texts, fmt) == |texts[0]| + 2 + (if fmt then 1 else 0) + ItemsRoom(texts[1..], fmt)
  {
    if |texts| > 1 {
      ItemsRoomFront(texts[..|texts| - 1], fmt);
      assert texts[..|texts| - 1][1..] == texts[1..][..|texts| - 2];
    } else {
      assert texts[..0] == [] && texts[1..] == [];
    }
  }

  lemma {:induction false} ItemsRoomSuffices(texts: seq<text>, fmt: bool)
    ensures |JoinItems(texts, fmt)| <= ItemsRoom(texts, fmt)
  {
    if texts != [] {
      ItemsRoomFront(texts, fmt);
      ItemsRoomSuffices(texts[1..], fmt);
    }
  }

  /** One more item: what the collecting loop and the composing loop each do. */
  lemma {:induction false} CollectItem(done: seq<text>, k: Kids, depth: nat, fmt: bool)
    requires k.Cons? && PrintableKids(k)
    ensures var v := PrintValue(k.value, depth, fmt);
            && done + [v] + ItemTexts(k.rest, depth, fmt) == done + ItemTexts(k, depth, fmt)
            && ItemsRoom(done + [v], fmt) == ItemsRoom(done, fmt) + |v| + 2 + (if fmt then 1 else 0)
  {
    hide PrintValue;
    assert (done + [PrintValue(k.value, depth, fmt)])[..|done|] == done;
  }

  ghost function ItemSeparator(entries: seq<text>, i: nat, fmt: bool): text {
    if i + 1 != |entries| then [COMMA] + If(fmt, [SPACE]) else []
  }

  lemma {:induction false} ComposeItem(pre: text, entries: seq<text>, i: nat, fmt: bool)
    requires i < |entries|
    ensures pre + JoinItems(entries[i..], fmt)
            == pre + entries[i] + ItemSeparator(entries, i, fmt) + JoinItems(entries[i + 1..], fmt)
  {
    assert entries[i..][1..] == entries[i + 1..];
  }

  lemma {:induction false} NoItems(pre: text, entries: seq<text>, fmt: bool)
    ensures entries[0..] == entries
    ensures pre + JoinItems(entries[|entries|..], fmt) == pre
  {
  }

  /** The names and values of the members of an object, printed. */
  ghost function MemberTexts(k: Kids, depth: nat, fmt: bool): seq<(text, text)>
    requires PrintableKids(k)
  {
    if k.Nil? then []
    else [(PrintName(k.name), PrintValue(k.value, depth, fmt))] + MemberTexts(k.rest, depth, fmt)
  }

  ghost function JoinMember(m: (text, text), last: bool, depth: nat, fmt: bool): text {
    If(fmt, Tabs(depth)) + (m.0 + [COLON] + If(fmt, [TAB]) + m.1 + (If(!last, [COMMA]) + If(fmt, [NEWLINE])))
  }

  ghost function JoinMembers(ms: seq<(text, text)>, depth: nat, fmt: bool): text {
    if ms == [] then [] else JoinMember(ms[0], |ms| == 1, depth, fmt) + JoinMembers(ms[1..], depth, fmt)
  }

  lemma {:induction false} JoinMemberIsPrint(k: Kids, depth: nat, fmt: bool)
    requires k.Cons? && PrintableKids(k)
    ensures JoinMember((PrintName(k.name), PrintValue(k.value, depth, fmt)), k.rest.Nil?, depth, fmt)
            == If(fmt, Tabs(depth)) + PrintMember(k, depth, fmt)
  {
    hide PrintValue, PrintName, Tabs;
  }

  lemma {:induction false} JoinMembersIsPrint(k: Kids, depth: nat, fmt: bool)
    requires PrintableKids(k)
    ensures JoinMembers(MemberTexts(k, depth, fmt), depth, fmt) == PrintMembers(k, depth, fmt)
  {
    hide PrintMember, JoinMember, Tabs;
    if k.Cons? {
      var ms := MemberTexts(k, depth, fmt);
      JoinMembersIsPrint(k.rest, depth, fmt);
      assert ms[1..] == MemberTexts(k.rest, depth, fmt);
      assert |ms| == 1 <==> k.rest.Nil?;
      JoinMemberIsPrint(k, depth, fmt);
    }
  }

  function MemberRoom(m: (text, text), depth: nat, fmt: bool): nat {
    |m.1| + |m.0| + 2 + (if fmt then 2 + depth else 0)
  }

  ghost function MembersRoom(ms: seq<(text, text)>, depth: nat, fmt: bool): nat {
    if ms == [] then 0
    else MembersRoom(ms[..|ms| - 1], depth, fmt) + MemberRoom(ms[|ms| - 1], depth, fmt)
  }

  lemma {:induction false} MembersRoomFront(ms: seq<(text, text)>, depth: nat, fmt: bool)
    requires ms != []
    ensures MembersRoom(ms, depth, fmt) == MemberRoom(ms[0], depth, fmt) + MembersRoom(ms[1..], depth, fmt)
  {
    if |ms| > 1 {
      MembersRoomFront(ms[..|ms| - 1], depth, fmt);
      assert ms[..|ms| - 1][1..] == ms[1..][..|ms| - 2];
    } else {
      assert ms[..0] == [] && ms[1..] == [];
    }
  }

  lemma {:induction false} MembersRoomSuffices(ms: seq<(text, text)>, depth: nat, fmt: bool)
    ensures |JoinMembers(ms, depth, fmt)| <= MembersRoom(ms, depth, fmt)
  {
    if ms != [] {
      MembersRoomFront(ms, depth, fmt);
      MembersRoomSuffices(ms[1..], depth, fmt);
    }
  }

  lemma {:induction false} CollectMember(done: seq<(text, text)>, k: Kids, depth: nat, fmt: bool)
    requires k.Cons? && PrintableKids(k)
    ensures var m := (PrintName(k.name), PrintValue(k.value, depth, fmt));
            && done + [m] + MemberTexts(k.rest, depth, fmt) == done + MemberTexts(k, depth, fmt)
            && MembersRoom(done + [m], depth, fmt) == MembersRoom(done, depth, fmt) + MemberRoom(m, depth, fmt)
  {
    hide PrintValue, PrintName;
    assert (done + [(PrintName(k.name), PrintValue(k.value, depth, fmt))])[..|done|] == done;
  }

  lemma {:induction false} ComposeNext(pre: text, entries: seq<(text, text)>, i: nat, depth: nat, fmt: bool)
    requires i < |entries|
    ensures pre + JoinMembers(entries[i..], depth, fmt)
            == pre + JoinMember(entries[i], i + 1 == |entries|, depth, fmt) + JoinMembers(entries[i + 1..], depth, fmt)
  {
    hide JoinMember;
    assert entries[i..][1..] == entries[i + 1..];
  }

  lemma {:induction false} NoMembers(pre: text, entries: seq<(text, text)>, depth: nat, fmt: bool)
    ensures entries[0..] == entries
    ensures pre + JoinMembers(entries[|entries|..], depth, fmt) == pre
  {
  }

  // ---------------------------------------------------------------- the printer

  /** Allocates `room` bytes and copies the string `s` there. */
  method Strdup(s: text, room: nat, plenty: bool) returns (r: Option<text>)
    requires |s| < room
    ensures plenty ==> r.Some?
    ensures r.Some? ==> r.value == s
  {
    var out := Malloc(room, plenty);
    if out == null { return None; }
    PutAfter(out, 0, s + [0]);
    assert out[..|s|] == out[..|s| + 1][..|s|];
    r := Some(out[..|s|]);
  }

  method PrintStringPtr(name: Option<text>, plenty: bool) returns (r: Option<text>)
    requires name.Some? ==> NulFree(name.value)
    ensures plenty ==> r.Some?
    ensures r.Some? ==> r.value == PrintName(name)
  {
    hide PrintName;
    var len, flag := StringRoom(name);
    var out := Malloc(len, plenty);
    if out == null { return None; }
    WriteString(out, 0, name, flag);
    assert out[..len - 1] == out[..len][..len - 1] == PrintName(name);
    r := Some(out[..len - 1]);
  }

  /** `print_value`: null only after a failed allocation, and otherwise the printed text.  `plenty` rules failures out. */
  method PrintItem(t: Json, depth: nat, fmt: bool, plenty: bool) returns (r: Option<text>)
    requires Printable(t)
    ensures plenty ==> r.Some?
    ensures r.Some? ==> r.value == PrintValue(t, depth, fmt)
    decreases t, 2
  {
    match t
    case Null => r := Strdup(NULL_TEXT, 5, plenty);
    case False => r := Strdup(FALSE_TEXT, 6, plenty);
    case True => r := Strdup(TRUE_TEXT, 5, plenty);
    case Number(d) =>
      IntFits(d);
      if d == 0.0 {
        r := Strdup([ZERO], 2, plenty);
      } else {
        r := Strdup(PrintInt(d.Floor), 64, plenty);
      }
    case String(s) => r := PrintStringPtr(Some(s), plenty);
    case Array(k) => r := PrintArray(k, depth, fmt, plenty);
    case Object(k) => r := PrintObject(k, depth, fmt, plenty);
  }

  /** The loop of `print_array` that prints the children. */
  method CollectItems(k: Kids, depth: nat, fmt: bool, plenty: bool) returns (entries: seq<text>, len: nat, fail: bool)
    requires PrintableKids(k)
    ensures plenty ==> !fail
    ensures !fail ==> entries == ItemTexts(k, depth, fmt) && len == 5 + ItemsRoom(entries, fmt)
    decreases k, 1
  {
    hide PrintValue, ItemTexts;
    assert [] + ItemTexts(k, depth, fmt) == ItemTexts(k, depth, fmt);
    entries, len, fail := [], 5, false;
    var child := k;
    while child.Cons? && !fail
      invariant PrintableKids(child) && (child == k || child < k) && (plenty ==> !fail)
      invariant !fail ==> entries + ItemTexts(child, depth, fmt) == ItemTexts(k, depth, fmt)
      invariant !fail ==> len == 5 + ItemsRoom(entries, fmt)
      decreases child
    {
      var ret := PrintItem(child.value, depth, fmt, plenty);
      if ret.Some? {
        CollectItem(entries, child, depth, fmt);
        entries := entries + [ret.value];
        len := len + |ret.value| + 2 + (if fmt then 1 else 0);
      } else {
        fail := true;
      }
      child := child.rest;
    }
    NoTexts(depth, fmt);
  }

  lemma NoTexts(depth: nat, fmt: bool)
    ensures ItemTexts(Nil, depth, fmt) == [] && MemberTexts(Nil, depth, fmt) == []
  {
  }

  /** Copies the pieces into one block. */
  method ComposeItems(entries: seq<text>, fmt: bool, out: array<byte>) returns (n: nat)
    requires entries != [] && out.Length == 5 + ItemsRoom(entries, fmt)
    modifies out
    ensures n < out.Length && out[..n] == [LBRACKET] + JoinItems(entries, fmt) + [RBRACKET] && out[n] == 0
  {
    hide JoinItems, ItemsRoom;
    ghost var goal := [LBRACKET] + JoinItems(entries, fmt);
    ItemsRoomSuffices(entries, fmt);
    NoItems(goal, entries, fmt);
    PutAfter(out, 0, [LBRACKET]);
    var ptr: nat := 1;
    for i := 0 to |entries|
      invariant ptr <= |goal|
      invariant out[..ptr] + JoinItems(entries[i..], fmt) == goal
    {
      ComposeItem(out[..ptr], entries, i, fmt);
      PutAfter(out, ptr, entries[i]);
      ptr := ptr + |entries[i]|;
      if i != |entries| - 1 {
        var sep := [COMMA] + If(fmt, [SPACE]);
        PutAfter(out, ptr, sep);
        ptr := ptr + |sep|;
      }
    }
    NoItems(out[..ptr], entries, fmt);
    n := CloseBlock(out, ptr, [RBRACKET]);
  }

  /** Writes the end of a composed string and its terminator. */
  method CloseBlock(out: array<byte>, ptr: nat, end: text) returns (n: nat)
    requires ptr + |end| < out.Length
    modifies out
    ensures n == ptr + |end| && out[..n] == old(out[..ptr]) + end && out[n] == 0
  {
    PutAfter(out, ptr, end + [0]);
    n := ptr + |end|;
    assert out[..n] == out[..n + 1][..n];
    assert out[n] == out[..n + 1][n];
  }

  method PrintArray(k: Kids, depth: nat, fmt: bool, plenty: bool) returns (r: Option<text>)
    requires PrintableKids(k)
    ensures plenty ==> r.Some?
    ensures r.Some? ==> r.value == PrintValue(Array(k), depth, fmt)
    decreases k, 2
  {
    hide PrintItems;
    if k.Nil? {
      r := Strdup([LBRACKET, RBRACKET], 3, plenty);
      return;
    }
    var entries, len, fail := CollectItems(k, depth + 1, fmt, plenty);
    if fail { return None; }
    var out := Malloc(len, plenty);
    if out == null { return None; }
    var n := ComposeItems(entries, fmt, out);
    JoinItemsIsPrint(k, depth + 1, fmt);
    r := Some(out[..n]);
  }

  /** The loop of `print_object` that prints names and values; `depth` is already one deeper. */
  method CollectMembers(k: Kids, depth: nat, fmt: bool, plenty: bool) returns (entries: seq<(text, text)>, len: nat, fail: bool)
    requires PrintableKids(k)
    ensures plenty ==> !fail
    ensures !fail ==> entries == MemberTexts(k, depth, fmt)
    ensures !fail ==> len == 7 + (if fmt then depth else 0) + MembersRoom(entries, depth, fmt)
    decreases k, 1
  {
    hide PrintValue, PrintName, MemberTexts, MemberRoom;
    assert [] + MemberTexts(k, depth, fmt) == MemberTexts(k, depth, fmt);
    entries, len, fail := [], 7 + (if fmt then depth else 0), false;
    var child := k;
    while child.Cons? && !fail
      invariant PrintableKids(child) && (child == k || child < k) && (plenty ==> !fail)
      invariant !fail ==> entries + MemberTexts(child, depth, fmt) == MemberTexts(k, depth, fmt)
      invariant !fail ==> len == 7 + (if fmt then depth else 0) + MembersRoom(entries, depth, fmt)
      decreases child
    {
      var str := PrintStringPtr(child.name, plenty);
      var ret := PrintItem(child.value, depth, fmt, plenty);
      if str.Some? && ret.Some? {
        var m := (str.value, ret.value);
        CollectMember(entries, child, depth, fmt);
        entries := entries + [m];
        len := len + MemberRoom(m, depth, fmt);
      } else {
        fail := true;
      }
      child := child.rest;
    }
    NoTexts(depth, fmt);
  }

  method ComposeMembers(entries: seq<(text, text)>, depth: nat, fmt: bool, out: array<byte>) returns (n: nat)
    requires depth > 0 && out.Length == 7 + (if fmt then depth else 0) + MembersRoom(entries, depth, fmt)
    modifies out
    ensures n < out.Length && out[n] == 0
    ensures out[..n] == [LBRACE] + If(fmt, [NEWLINE]) + JoinMembers(entries, depth, fmt)
                        + (If(fmt, Tabs(depth - 1)) + [RBRACE])
  {
    hide Tabs, JoinMember, JoinMembers, MembersRoom;
    ghost var goal := [LBRACE] + If(fmt, [NEWLINE]) + JoinMembers(entries, depth, fmt);
    MembersRoomSuffices(entries, depth, fmt);
    NoMembers(goal, entries, depth, fmt);
    PutAfter(out, 0, [LBRACE] + If(fmt, [NEWLINE]));
    var ptr: nat := if fmt then 2 else 1;
    for i := 0 to |entries|
      invariant ptr <= |goal|
      invariant out[..ptr] + JoinMembers(entries[i..], depth, fmt) == goal
    {
      ComposeNext(out[..ptr], entries, i, depth, fmt);
      ptr := ComposeMember(entries[i], i == |entries| - 1, depth, fmt, out, ptr);
    }
    NoMembers(out[..ptr], entries, depth, fmt);
    n := CloseBlock(out, ptr, If(fmt, Tabs(depth - 1)) + [RBRACE]);
  }

  method ComposeMember(m: (text, text), last: bool, depth: nat, fmt: bool, out: array<byte>, ptr: nat) returns (n: nat)
    requires ptr + |JoinMember(m, last, depth, fmt)| <= out.Length
    modifies out
    ensures n == ptr + |JoinMember(m, last, depth, fmt)|
    ensures out[..n] == old(out[..ptr]) + JoinMember(m, last, depth, fmt)
  {
    hide Tabs, JoinMember;
    ghost var pre := out[..ptr];
    MemberJoins(pre, m, last, depth, fmt);
    n := ptr;
    if fmt {
      PutAfter(out, n, Tabs(depth));
      n := n + depth;
    }
    n := PutNameColon(out, n, m.0, fmt);
    n := PutValueEnd(out, n, m.1, last, fmt);
  }

  method PutValueEnd(out: array<byte>, ptr: nat, value: text, last: bool, fmt: bool) returns (n: nat)
    requires ptr + |value| + |If(!last, [COMMA]) + If(fmt, [NEWLINE])| <= out.Length
    modifies out
    ensures n == ptr + |value| + |If(!last, [COMMA]) + If(fmt, [NEWLINE])|
    ensures out[..n] == old(out[..ptr]) + value + (If(!last, [COMMA]) + If(fmt, [NEWLINE]))
  {
    hide If;
    PutAfter(out, ptr, value);
    var end := If(!last, [COMMA]) + If(fmt, [NEWLINE]);
    PutAfter(out, ptr + |value|, end);
    n := ptr + |value| + |end|;
  }

  method PutNameColon(out: array<byte>, ptr: nat, name: text, fmt: bool) returns (n: nat)
    requires ptr + |name| + (if fmt then 2 else 1) <= out.Length
    modifies out
    ensures n == ptr + |name| + (if fmt then 2 else 1)
    ensures out[..n] == old(out[..ptr]) + name + ([COLON] + If(fmt, [TAB]))
  {
    PutAfter(out, ptr, name);
    var colon := [COLON] + If(fmt, [TAB]);
    PutAfter(out, ptr + |name|, colon);
    n := ptr + |name| + |colon|;
  }

  lemma {:induction false} MemberJoins(pre: text, m: (text, text), last: bool, depth: nat, fmt: bool)
    ensures (if fmt then pre + Tabs(depth) else pre) + m.0 + ([COLON] + If(fmt, [TAB])) + m.1
            + (If(!last, [COMMA]) + If(fmt, [NEWLINE]))
            == pre + JoinMember(m, last, depth, fmt)
  {
    hide Tabs;
  }

  lemma {:induction false} EmptyObject(depth: nat, fmt: bool)
    ensures [LBRACE] + If(fmt, [NEWLINE] + Tabs(depth)) + [RBRACE] == PrintValue(Object(Nil), depth, fmt)
  {
    hide Tabs;
  }

  lemma {:induction false} ObjectText(members: text, depth: nat, fmt: bool)
    ensures [LBRACE] + If(fmt, [NEWLINE]) + members + (If(fmt, Tabs(depth)) + [RBRACE])
            == [LBRACE] + If(fmt, [NEWLINE]) + members + If(fmt, Tabs(depth)) + [RBRACE]
  {
    hide Tabs;
  }

  method PrintObject(k: Kids, depth: nat, fmt: bool, plenty: bool) returns (r: Option<text>)
    requires PrintableKids(k)
    ensures plenty ==> r.Some?
    ensures r.Some? ==> r.value == PrintValue(Object(k), depth, fmt)
    decreases k, 2
  {
    hide PrintFromName, PrintMembers, Tabs;
    if k.Nil? {
      EmptyObject(depth, fmt);
      r := Strdup([LBRACE] + If(fmt, [NEWLINE] + Tabs(depth)) + [RBRACE], if fmt then depth + 4 else 3, plenty);
      return;
    }
    var entries, len, fail := CollectMembers(k, depth + 1, fmt, plenty);
    if fail { return None; }
    var out := Malloc(len, plenty);
    if out == null { return None; }
    var n := ComposeMembers(entries, depth + 1, fmt, out);
    JoinMembersIsPrint(k, depth + 1, fmt);
    r := Some(out[..n]);
    ObjectText(PrintMembers(k, depth + 1, fmt), depth, fmt);
  }
}
