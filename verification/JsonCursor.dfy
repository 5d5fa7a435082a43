/**
 The parser functions seen from positions in the text, one step at a time.
 */
module JsonCursor {
  import opened CString
  import opened JsonTree
  import opened JsonParse
  import opened JsonString

  /** `skip` */
  method SkipAt(s: text, i: nat) returns (j: nat)
    requires NulFree(s) && i <= |s|
    ensures Skips(s, i, j)
    ensures (forall k :: i <= k < j ==> 1 <= s[k] <= 32) && (j < |s| ==> s[j] > 32)
  {
    j := i;
    while At(s, j) != 0 && At(s, j) <= 32
      invariant i <= j <= |s| && Skip(s[j..]) == Skip(s[i..])
      invariant forall k :: i <= k < j ==> 1 <= s[k] <= 32
      decreases |s| - j
    {
      assert s[j..][1..] == s[j + 1..];
      j := j + 1;
    }
  }

  /** `skip` moves the cursor from `i` to `j`. */
  ghost predicate Skips(s: text, i: nat, j: nat) {
    i <= j <= |s| && s[j..] == Skip(s[i..])
  }

  lemma SkipsInside(s: text, i: nat, j: nat)
    requires Skips(s, i, j)
    ensures i <= j <= |s| && (At(s, j) != 0 ==> j < |s|)
  {
  }

  ghost function WithItem(name: Option<text>, v: Json, p: Option<Parsed<Kids>>): Option<Parsed<Kids>> {
    if p.None? then None else Some(Parsed(Cons(name, v, p.value.value), p.value.rest))
  }

  lemma {:induction false} StringCases(s: text, i: nat)
    requires i <= |s|
    ensures At(s, i) != QUOTE ==> ParseString(s[i..]).None?
    ensures At(s, i) == QUOTE && ScanEnd(s, i + 1).None? ==> ParseString(s[i..]).None?
  {
    hide ParseChars, ScanEnd, Suffix;
    if At(s, i) == QUOTE {
      assert s[i..][1..] == s[i + 1..];
      if ParseChars(s[i + 1..]).Some? {
        LiteralEnd(s, i + 1);
      }
    }
  }

  lemma {:induction false} WordCases(s: text, i: nat)
    requires i <= |s|
    ensures NULL_TEXT <= s[i..] ==> i + 4 <= |s| && ParseValue(s[i..]) == Some(Parsed(Null, s[i + 4..]))
    ensures FALSE_TEXT <= s[i..] ==> i + 5 <= |s| && ParseValue(s[i..]) == Some(Parsed(False, s[i + 5..]))
    ensures TRUE_TEXT <= s[i..] ==> i + 4 <= |s| && ParseValue(s[i..]) == Some(Parsed(True, s[i + 4..]))
    ensures !(NULL_TEXT <= s[i..] && FALSE_TEXT <= s[i..]) && !(NULL_TEXT <= s[i..] && TRUE_TEXT <= s[i..])
    ensures !(FALSE_TEXT <= s[i..] && TRUE_TEXT <= s[i..])
  {
    hide Suffix;
    var r := s[i..];
    assert |r| >= 4 ==> r[4..] == s[i + 4..];
    assert |r| >= 5 ==> r[5..] == s[i + 5..];
    if NULL_TEXT <= r { assert r[0] == NULL_TEXT[0]; }
    if FALSE_TEXT <= r { assert r[0] == FALSE_TEXT[0]; }
    if TRUE_TEXT <= r { assert r[0] == TRUE_TEXT[0]; }
  }

  lemma {:induction false} StringCase(r: text)
    requires Lead(r) == QUOTE
    ensures var p := ParseString(r);
            ParseValue(r) == if p.None? then None else Some(Parsed(String(p.value.value), p.value.rest))
  {
    hide ParseString, Suffix;
  }

  lemma {:induction false} NumberCase(r: text)
    requires Lead(r) == MINUS || IsDigit(Lead(r))
    ensures ParseValue(r) == Some(Parsed(Number(ParseNumber(r).value), ParseNumber(r).rest))
  {
    hide ParseNumber, Suffix;
  }

  lemma {:induction false} NoCase(s: text, i: nat)
    requires i <= |s| && !(NULL_TEXT <= s[i..]) && !(FALSE_TEXT <= s[i..]) && !(TRUE_TEXT <= s[i..])
    requires At(s, i) != QUOTE && At(s, i) != MINUS && !IsDigit(At(s, i))
    requires At(s, i) != LBRACKET && At(s, i) != LBRACE
    ensures ParseValue(s[i..]).None?
  {
    hide Suffix;
  }

  /** After the opening bracket at `i`, with `j` the next visible byte. */
  lemma {:induction false} ArrayCase(s: text, i: nat, j: nat)
    requires i < |s| && s[i] == LBRACKET && Skips(s, i + 1, j)
    ensures At(s, j) == RBRACKET ==> ParseValue(s[i..]) == Some(Parsed(Array(Nil), s[j + 1..]))
    ensures At(s, j) != RBRACKET ==>
              var p := ParseItems(s[j..]);
              ParseValue(s[i..]) == if p.None? then None else Some(Parsed(Array(p.value.value), p.value.rest))
  {
    hide ParseItems, Skip, Suffix;
    assert s[i..][1..] == s[i + 1..];
    assert j < |s| ==> s[j..][1..] == s[j + 1..];
  }

  lemma {:induction false} ObjectCase(s: text, i: nat, j: nat)
    requires i < |s| && s[i] == LBRACE && Skips(s, i + 1, j)
    ensures At(s, j) == RBRACE ==> ParseValue(s[i..]) == Some(Parsed(Object(Nil), s[j + 1..]))
    ensures At(s, j) != RBRACE ==>
              var p := ParseMembers(s[j..]);
              ParseValue(s[i..]) == if p.None? then None else Some(Parsed(Object(p.value.value), p.value.rest))
  {
    hide ParseMembers, Skip, Suffix;
    assert s[i..][1..] == s[i + 1..];
    assert j < |s| ==> s[j..][1..] == s[j + 1..];
  }

  /** An item that starts at `j0` and ends at `e`, with `j` the next visible byte after it. */
  lemma {:induction false} ItemStep(s: text, i: nat, j0: nat, e: nat, j: nat, v: Json)
    requires Skips(s, i, j0) && e <= |s| && ParseValue(s[j0..]) == Some(Parsed(v, s[e..])) && Skips(s, e, j)
    ensures ParseItems(s[i..]) == if At(s, j) == COMMA then WithItem(None, v, ParseItems(s[j + 1..]))
                                  else if At(s, j) == RBRACKET then Some(Parsed(Cons(None, v, Nil), s[j + 1..]))
                                  else None
  {
    hide ParseValue, Skip, Suffix;
    assert j < |s| ==> s[j..][1..] == s[j + 1..];
  }

  lemma {:induction false} ItemFails(s: text, i: nat, j0: nat)
    requires Skips(s, i, j0) && ParseValue(s[j0..]).None?
    ensures ParseItems(s[i..]).None?
  {
    hide ParseValue, Skip, Suffix;
  }

  /** A name that starts at `j0` and ends at `e0`, and the colon expected at `j1`. */
  lemma {:induction false} NameFails(s: text, i: nat, j0: nat)
    requires Skips(s, i, j0)
    ensures ParseString(s[j0..]).None? ==> ParseMembers(s[i..]).None?
    ensures forall name: text, e0: nat, j1: nat ::
              e0 <= |s| && ParseString(s[j0..]) == Some(Parsed(name, s[e0..])) && Skips(s, e0, j1) && At(s, j1) != COLON
              ==> ParseMembers(s[i..]).None?
  {
    hide ParseValue, Skip, Suffix, ParseString;
  }

  lemma {:induction false} MemberValue(s: text, i: nat, j0: nat, name: text, e0: nat, j1: nat, j2: nat)
    requires Skips(s, i, j0) && e0 <= |s| && ParseString(s[j0..]) == Some(Parsed(name, s[e0..]))
    requires Skips(s, e0, j1) && At(s, j1) == COLON && j1 < |s| && Skips(s, j1 + 1, j2)
    ensures ParseMember(s[i..]) == var v := ParseValue(s[j2..]);
                                   if v.None? then None else Some(Parsed((name, v.value.value), v.value.rest))
  {
    hide ParseValue, Skip, Suffix, ParseString;
    assert s[j1..][1..] == s[j1 + 1..];
  }

  lemma {:induction false} MemberStep(s: text, i: nat, name: text, v: Json, e: nat, j: nat)
    requires i <= |s| && e <= |s| && ParseMember(s[i..]) == Some(Parsed((name, v), s[e..])) && Skips(s, e, j)
    ensures ParseMembers(s[i..]) == if At(s, j) == COMMA then WithItem(Some(name), v, ParseMembers(s[j + 1..]))
                                    else if At(s, j) == RBRACE then Some(Parsed(Cons(Some(name), v, Nil), s[j + 1..]))
                                    else None
  {
    hide ParseMember, Skip, Suffix;
    assert j < |s| ==> s[j..][1..] == s[j + 1..];
  }

  lemma {:induction false} MemberFails(s: text, i: nat)
    requires i <= |s| && ParseMember(s[i..]).None?
    ensures ParseMembers(s[i..]).None?
  {
    hide ParseMember, Skip, Suffix;
  }
}
