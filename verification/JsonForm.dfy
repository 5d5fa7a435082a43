/**
 The text that cJSON prints (cjson.c), spelled out in characters: words, numbers, escapes, and
 the children of arrays and objects as texts joined by a separator.
 */
module JsonForm {
  import opened CString
  import opened JsonTree
  import opened JsonNumber

  /** The bytes of a string of ASCII characters. */
  function Ascii(s: string): (r: text)
    requires forall i :: 0 <= i < |s| ==> s[i] as int < 128
    ensures |r| == |s| && forall i :: 0 <= i < |s| ==> r[i] == s[i] as int
  {
    seq(|s|, i requires 0 <= i < |s| => s[i] as int)
  }

  function Join(parts: seq<text>, separator: text): text {
    if parts == [] then []
    else if |parts| == 1 then parts[0]
    else parts[0] + separator + Join(parts[1..], separator)
  }

  // ---------------------------------------------------------------- words, numbers and strings

  lemma {:induction false} WordForms(depth: nat, fmt: bool)
    ensures PrintValue(Null, depth, fmt) == Ascii("null")
    ensures PrintValue(False, depth, fmt) == Ascii("false")
    ensures PrintValue(True, depth, fmt) == Ascii("true")
  {
    assert NULL_TEXT == Ascii("null");
    assert FALSE_TEXT == Ascii("false");
    assert TRUE_TEXT == Ascii("true");
  }

  /** An integer prints as its decimal digits without zeros in front. */
  lemma {:induction false} DecimalForm(n: nat)
    ensures AllDigits(Decimal(n)) && Val(Decimal(n)) == n && |Decimal(n)| > 0
    ensures |Decimal(n)| > 1 ==> Decimal(n)[0] != 48
  {
    if n >= 10 {
      DecimalForm(n / 10);
      assert Decimal(n)[..|Decimal(n)| - 1] == Decimal(n / 10);
    } else {
      assert Decimal(n)[..0] == [];
    }
  }

  lemma {:induction false} IntForm(d: real, depth: nat, fmt: bool)
    requires ExactInteger(d)
    ensures PrintValue(Number(d), depth, fmt) == if d < 0.0 then Ascii("-") + Decimal(-d.Floor) else Decimal(d.Floor)
  {
    assert Ascii("-") == [MINUS];
  }

  const LETTERS := "btnfr"
  const CONTROLS := [8, 9, 10, 12, 13]

  /** Quotes and backslashes are escaped, and control bytes by a letter or by four digits; other bytes are kept. */
  lemma {:induction false} EscapeForms(b: byte)
    ensures b == 34 ==> EscapeByte(b) == Ascii("\\\"")
    ensures b == 92 ==> EscapeByte(b) == Ascii("\\\\")
    ensures forall i :: 0 <= i < 5 && b == CONTROLS[i] ==> EscapeByte(b) == Ascii("\\") + [LETTERS[i] as int]
    ensures b < 32 && b !in CONTROLS ==>
              EscapeByte(b) == Ascii("\\u00") + [Ascii("0123456789abcdef")[b / 16], Ascii("0123456789abcdef")[b % 16]]
    ensures b >= 32 && b != 34 && b != 92 ==> EscapeByte(b) == [b]
  {
    assert CONTROLS == [8, 9, 10, 12, 13];
    assert CONTROLS[0] == 8 && CONTROLS[1] == 9 && CONTROLS[2] == 10 && CONTROLS[3] == 12 && CONTROLS[4] == 13;
    assert Ascii("\\") == [92];
    assert Ascii("\\u00") == [92, 117, 48, 48];
    HexForm(b / 16);
    HexForm(b % 16);
  }

  lemma {:induction false} HexForm(n: nat)
    requires n < 16
    ensures HexDigit(n) == Ascii("0123456789abcdef")[n]
  {
  }

  lemma {:induction false} StringForm(s: text, depth: nat, fmt: bool)
    requires NulFree(s)
    ensures PrintValue(String(s), depth, fmt) == Ascii("\"") + Join(seq(|s|, i requires 0 <= i < |s| => EscapeByte(s[i])), []) + Ascii("\"")
  {
    EscapeJoins(s);
    assert Ascii("\"") == [QUOTE];
  }

  lemma {:induction false} EscapeJoins(s: text)
    ensures Escape(s) == Join(seq(|s|, i requires 0 <= i < |s| => EscapeByte(s[i])), [])
  {
    hide EscapeByte;
    if s != [] {
      EscapeJoins(s[1..]);
      var parts := seq(|s|, i requires 0 <= i < |s| => EscapeByte(s[i]));
      assert parts[1..] == seq(|s| - 1, i requires 0 <= i < |s| - 1 => EscapeByte(s[1..][i]));
      if |s| == 1 {
        assert Escape(s[1..]) == [];
      } else {
        assert parts[0] + [] == parts[0];
      }
    }
  }

  // ---------------------------------------------------------------- arrays and objects

  ghost function ItemTexts(k: Kids, depth: nat, fmt: bool): seq<text>
    requires PrintableKids(k)
  {
    if k.Nil? then [] else [PrintValue(k.value, depth, fmt)] + ItemTexts(k.rest, depth, fmt)
  }

  lemma {:induction false} ItemsJoin(k: Kids, depth: nat, fmt: bool)
    requires PrintableKids(k)
    ensures PrintItems(k, depth, fmt) == Join(ItemTexts(k, depth, fmt), if fmt then Ascii(", ") else Ascii(","))
  {
    hide PrintValue;
    if k.Cons? {
      ItemsJoin(k.rest, depth, fmt);
      assert ItemTexts(k, depth, fmt)[1..] == ItemTexts(k.rest, depth, fmt);
      assert k.rest.Nil? <==> ItemTexts(k.rest, depth, fmt) == [];
      assert Separator(k.rest, fmt) == if k.rest.Nil? then [] else if fmt then Ascii(", ") else Ascii(",");
      if k.rest.Nil? {
        assert PrintItems(k.rest, depth, fmt) == [];
      }
    }
  }

  /** An array is its items between brackets, on one line. */
  lemma {:induction false} ArrayForm(k: Kids, depth: nat, fmt: bool)
    requires PrintableKids(k)
    ensures PrintValue(Array(k), depth, fmt) ==
            Ascii("[") + Join(ItemTexts(k, depth + 1, fmt), if fmt then Ascii(", ") else Ascii(",")) + Ascii("]")
  {
    ItemsJoin(k, depth + 1, fmt);
    assert Ascii("[") == [LBRACKET] && Ascii("]") == [RBRACKET];
  }

  ghost function MemberTexts(k: Kids, depth: nat, fmt: bool): seq<text>
    requires PrintableKids(k)
  {
    if k.Nil? then []
    else
      [If(fmt, Tabs(depth)) + PrintName(k.name) + (if fmt then Ascii(":\t") else Ascii(":")) + PrintValue(k.value, depth, fmt)]
      + MemberTexts(k.rest, depth, fmt)
  }

  lemma {:induction false} MembersJoin(k: Kids, depth: nat, fmt: bool)
    requires PrintableKids(k) && k.Cons?
    ensures PrintMembers(k, depth, fmt) ==
            Join(MemberTexts(k, depth, fmt), if fmt then Ascii(",\n") else Ascii(",")) + If(fmt, Ascii("\n"))
  {
    var sep, nl, texts := if fmt then Ascii(",\n") else Ascii(","), If(fmt, Ascii("\n")), MemberTexts(k, depth, fmt);
    assert texts[1..] == MemberTexts(k.rest, depth, fmt);
    assert k.rest.Nil? <==> texts[1..] == [];
    MemberSplits(k, depth, fmt);
    EndForms(k.rest, fmt);
    hide *;
    JoinFirst(texts, sep);
    var first := texts[0];
    if k.rest.Cons? {
      MembersJoin(k.rest, depth, fmt);
      var others := Join(texts[1..], sep);
      assert first + sep + (others + nl) == (first + sep + others) + nl;
    } else {
      NoMembers(k.rest, depth, fmt);
      assert first + nl + [] == first + nl;
    }
  }

  lemma {:induction false} NoMembers(k: Kids, depth: nat, fmt: bool)
    requires k.Nil? && PrintableKids(k)
    ensures PrintMembers(k, depth, fmt) == []
  {
  }

  lemma {:induction false} JoinFirst(parts: seq<text>, separator: text)
    requires parts != []
    ensures Join(parts, separator) == if parts[1..] == [] then parts[0] else parts[0] + separator + Join(parts[1..], separator)
  {
  }

  lemma {:induction false} EndForms(rest: Kids, fmt: bool)
    ensures MemberEnd(rest, fmt) == if rest.Cons? then if fmt then Ascii(",\n") else Ascii(",") else If(fmt, Ascii("\n"))
  {
    assert Ascii(",\n") == [COMMA, NEWLINE] && Ascii(",") == [COMMA] && Ascii("\n") == [NEWLINE];
  }

  lemma {:induction false} MemberSplits(k: Kids, depth: nat, fmt: bool)
    requires PrintableKids(k) && k.Cons?
    ensures MemberTexts(k, depth, fmt) != []
    ensures PrintMembers(k, depth, fmt) == MemberTexts(k, depth, fmt)[0] + MemberEnd(k.rest, fmt) + PrintMembers(k.rest, depth, fmt)
  {
    hide PrintValue, PrintName, Tabs, MemberEnd;
    assert Ascii(":\t") == [COLON, TAB] && Ascii(":") == [COLON];
    assert [COLON] + If(fmt, [TAB]) == if fmt then [COLON, TAB] else [COLON];
  }

  /** An object is its members between braces; formatted, each is on a line of its own, indented by the depth. */
  lemma {:induction false} ObjectForm(k: Kids, depth: nat, fmt: bool)
    requires PrintableKids(k)
    ensures PrintValue(Object(k), depth, fmt) ==
            Ascii("{") + If(fmt, Ascii("\n"))
            + (if k.Nil? then [] else Join(MemberTexts(k, depth + 1, fmt), if fmt then Ascii(",\n") else Ascii(",")) + If(fmt, Ascii("\n")))
            + If(fmt, Tabs(depth)) + Ascii("}")
  {
    if k.Cons? {
      MembersJoin(k, depth + 1, fmt);
    }
    assert Ascii("{") == [LBRACE] && Ascii("}") == [RBRACE] && Ascii("\n") == [NEWLINE];
  }

  lemma {:induction false} PlainObject(k: Kids, depth: nat)
    requires PrintableKids(k) && k.Cons?
    ensures PrintValue(Object(k), depth, false) == Ascii("{") + Join(MemberTexts(k, depth + 1, false), Ascii(",")) + Ascii("}")
  {
    hide PrintValue, MemberTexts, Join, Ascii, Tabs, PrintableKids;
    ObjectForm(k, depth, false);
    var a, b, c := Ascii("{"), Join(MemberTexts(k, depth + 1, false), Ascii(",")), Ascii("}");
    assert a + [] + (b + []) + [] + c == a + b + c;
  }

  /** A name prints as a string, and a missing one as the empty string. */
  lemma {:induction false} NameForm(name: Option<text>, depth: nat, fmt: bool)
    requires name.Some? ==> NulFree(name.value)
    ensures PrintName(name) == PrintValue(String(if name.Some? then name.value else []), depth, fmt)
  {
    assert Quote([]) == [QUOTE, QUOTE];
  }
}
