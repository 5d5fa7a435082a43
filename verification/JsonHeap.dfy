/**
 Operations on cJSON nodes (cjson.c): parsing allocates them, `cJSON_Delete` frees
 them, and the list edits, references and copies in between.
 */
module JsonHeap {
  import opened CString
  import opened JsonTree
  import opened JsonCells
  import opened JsonChains
  import opened JsonParse
  import opened JsonString
  import opened JsonNumber
  import opened JsonCursor

  // ---------------------------------------------------------------- memory

  class Memory {
    var cells: Cells
    var brk: nat
    const plenty: bool      // no allocation fails
    ghost var denied: bool  // an allocation has failed

    ghost predicate Valid()
      reads this
    {
      0 < brk && (forall a :: a in cells ==> 0 < a < brk) && (denied ==> !plenty)
    }

    constructor (plenty: bool)
      ensures Valid() && cells == map[] && !denied && this.plenty == plenty
    {
      this.plenty := plenty;
      cells, brk, denied := map[], 1, false;
    }

    /** Allocates a cell; null when the allocator fails. */
    method Alloc(c: Cell) returns (p: nat)
      requires Valid()
      modifies this
      ensures Valid()
      ensures p == 0 ==> denied && cells == old(cells)
      ensures p != 0 ==> denied == old(denied) && p !in old(cells) && cells == old(cells)[p := c]
    {
      if !plenty {
        if * {
          denied := true;
          return 0;
        }
      }
      p, cells, brk := brk, cells[brk := c], brk + 1;
    }

    /** An assignment to fields of a node, or to the bytes of a string. */
    method Store(p: nat, c: Cell)
      requires Valid() && p in cells
      modifies this`cells
      ensures Valid() && cells == old(cells)[p := c]
    {
      cells := cells[p := c];
    }

    /** `cJSON_free`: only what is allocated can be freed, so nothing is freed twice. */
    method Free(p: nat)
      requires Valid() && p in cells
      modifies this`cells
      ensures Valid() && cells == old(cells) - {p}
    {
      cells := cells - {p};
    }

    /** `cJSON_Delete`: frees the cells the chain owns, each exactly once, and nothing else. */
    method Delete(head: nat, ghost chain: Chain, ghost prev: nat)
      requires Valid() && Owns(cells, chain, head, prev) && Distinct(chain)
      modifies this`cells
      ensures Valid() && cells == old(cells) - Foot(chain)
      decreases chain
    {
      hide Foot, Distinct, OwnFoot;
      var c := head;
      ghost var ch, pr, gone := chain, prev, {};
      while c != 0
        invariant Valid() && Owns(cells, ch, c, pr) && Distinct(ch) && (ch == chain || ch < chain)
        invariant gone + Foot(ch) == Foot(chain) && gone !! Foot(ch)
        invariant cells == old(cells) - gone
        decreases ch
      {
        Separate(ch);
        var next := cells[c].node.next;
        FreeNode(c, ch, pr);
        gone := gone + OwnFoot(ch);
        pr, c, ch := c, next, ch.rest;
      }
      EmptyFoot();
    }

    /** The body of the loop: one node, its strings and its children. */
    method FreeNode(c: nat, ghost ch: Chain, ghost pr: nat)
      requires Valid() && ch.Link? && Owns(cells, ch, c, pr) && Distinct(ch)
      modifies this`cells
      ensures Valid() && cells == old(cells) - OwnFoot(ch)
      ensures Owns(cells, ch.rest, old(cells)[c].node.next, c)
      decreases ch, 0
    {
      hide Foot, Distinct;
      Separate(ch);
      EmptyFoot();
      var n := cells[c].node;
      ghost var before := cells;
      if !n.isReference && n.child != 0 {
        Delete(n.child, ch.sub, 0);
      }
      assert cells == before - Foot(ch.sub);
      if !n.isReference && n.valuestring != 0 {
        Free(n.valuestring);
      }
      assert cells == before - (Foot(ch.sub) + Some1(ch.vs));
      if !n.stringIsConst && n.name != 0 {
        Free(n.name);
      }
      assert cells == before - (Foot(ch.sub) + Some1(ch.vs) + Some1(ch.nm));
      Free(c);
      assert cells == before - OwnFoot(ch);
      FrameOwns(before, cells, ch.rest, n.next, c);
    }

    // -------------------------------------------------------------- parsing

    /** `parse_string`: decodes the literal at `i` into a new string of the item. */
    method ParseStringAt(item: nat, s: text, i: nat) returns (end: Option<nat>, ghost vs: nat)
      requires Valid() && NulFree(s) && i <= |s| && IsNode(cells, item) && cells[item].node.valuestring == 0
      modifies this
      ensures Valid() && (old(denied) ==> denied)
      ensures Grew(old(cells), cells, item, Some1(vs)) && (vs != 0 ==> IsChars(cells, vs))
      ensures IsNode(cells, item)
      ensures cells[item].node == old(cells)[item].node.(valuestring := vs, kind := cells[item].node.kind)
      ensures end.Some? ==> vs != 0 && cells[item].node.kind.IsString? && end.value <= |s|
      ensures end.Some? ==> ParseString(s[i..]) == Some(Parsed(cells[vs].s, s[end.value..]))
      ensures end.None? ==> denied || ParseString(s[i..]).None?
    {
      hide ParseString;
      vs := 0;
      StringCases(s, i);
      if At(s, i) != QUOTE { return None, vs; }
      var scan := Scan(s, i);
      if scan.None? { return None, vs; }
      var (endPtr, len) := scan.value;
      var out := new byte[len + 1];
      var p := Alloc(Chars([]));
      vs := p;
      if p == 0 { return None, vs; }
      Store(item, Block(cells[item].node.(valuestring := p, kind := IsString)));
      var r := Decode(s, i, endPtr, out);
      if r.None? { return None, vs; }
      Store(p, Chars(out[..r.value.0]));
      end := Some(r.value.1);
    }

    /** `parse_value`: fills the item in.  What it allocates hangs from the item, also when it fails. */
    method ParseValueAt(item: nat, s: text, i: nat) returns (end: Option<nat>, ghost vs: nat, ghost sub: Chain)
      requires Valid() && NulFree(s) && i <= |s| && IsNode(cells, item) && Empty(cells[item].node)
      modifies this
      ensures Valid() && (old(denied) ==> denied)
      ensures Built(old(cells), cells, item, vs, sub) && Tells(cells, item, vs, sub, s, i, end, denied)
      decreases |s| - i, 1
    {
      hide Built, Tells, Empty, NulFree;
      if NULL_TEXT <= s[i..] || FALSE_TEXT <= s[i..] || TRUE_TEXT <= s[i..] {
        end, vs, sub := ParseWordAt(item, s, i);
      } else if At(s, i) == QUOTE {
        end, vs, sub := ParseStringItem(item, s, i);
      } else if At(s, i) == MINUS || IsDigit(At(s, i)) {
        end, vs, sub := ParseNumberItem(item, s, i);
      } else if At(s, i) == LBRACKET {
        end, vs, sub := ParseArrayAt(item, s, i);
      } else if At(s, i) == LBRACE {
        end, vs, sub := ParseObjectAt(item, s, i);
      } else {
        end, vs, sub := None, 0, End;
        NotAValue(cells, item, s, i, denied);
      }
    }

    method ParseWordAt(item: nat, s: text, i: nat) returns (end: Option<nat>, ghost vs: nat, ghost sub: Chain)
      requires Valid() && NulFree(s) && i <= |s| && IsNode(cells, item) && Empty(cells[item].node)
      requires NULL_TEXT <= s[i..] || FALSE_TEXT <= s[i..] || TRUE_TEXT <= s[i..]
      modifies this
      ensures Valid() && (old(denied) ==> denied)
      ensures Built(old(cells), cells, item, vs, sub) && Tells(cells, item, vs, sub, s, i, end, denied)
    {
      hide NulFree, Foot, Owns, Distinct;
      vs, sub := 0, End;
      WordCases(s, i);
      var kind := IsTrue;
      end := Some(i + 4);
      if NULL_TEXT <= s[i..] {
        kind := IsNull;
      } else if FALSE_TEXT <= s[i..] {
        kind, end := IsFalse, Some(i + 5);
      }
      Store(item, Block(cells[item].node.(kind := kind)));
      OwnsNothing(cells);
    }

    method ParseStringItem(item: nat, s: text, i: nat) returns (end: Option<nat>, ghost vs: nat, ghost sub: Chain)
      requires Valid() && NulFree(s) && i <= |s| && IsNode(cells, item) && Empty(cells[item].node)
      requires At(s, i) == QUOTE
      modifies this
      ensures Valid() && (old(denied) ==> denied)
      ensures Built(old(cells), cells, item, vs, sub) && Tells(cells, item, vs, sub, s, i, end, denied)
    {
      hide NulFree, Foot, Owns, Distinct, ParseValue, ParseString;
      end, vs := ParseStringAt(item, s, i);
      sub := End;
      OwnsNothing(cells);
      StringCase(s[i..]);
    }

    method ParseNumberItem(item: nat, s: text, i: nat) returns (end: Option<nat>, ghost vs: nat, ghost sub: Chain)
      requires Valid() && NulFree(s) && i <= |s| && IsNode(cells, item) && Empty(cells[item].node)
      requires At(s, i) == MINUS || IsDigit(At(s, i))
      modifies this
      ensures Valid() && (old(denied) ==> denied)
      ensures Built(old(cells), cells, item, vs, sub) && Tells(cells, item, vs, sub, s, i, end, denied)
    {
      hide NulFree, Foot, Owns, Distinct, ParseValue, ParseNumber;
      vs, sub := 0, End;
      var d, e := ParseNumberAt(s, i);
      Store(item, Block(cells[item].node.(kind := IsNumber, valuedouble := d)));
      OwnsNothing(cells);
      NumberCase(s[i..]);
      end := Some(e);
    }

    /** `parse_array` */
    method ParseArrayAt(item: nat, s: text, i: nat) returns (end: Option<nat>, ghost vs: nat, ghost sub: Chain)
      requires Valid() && NulFree(s) && i <= |s| && IsNode(cells, item) && Empty(cells[item].node)
      requires At(s, i) == LBRACKET
      modifies this
      ensures Valid() && (old(denied) ==> denied)
      ensures Built(old(cells), cells, item, vs, sub) && Tells(cells, item, vs, sub, s, i, end, denied)
      decreases |s| - i, 0
    {
      hide NulFree, Foot, Owns, Distinct, ParseValue, ParseItems, Looks, LooksChain, Built, Strung, Skips;
      vs, sub := 0, End;
      Store(item, Block(cells[item].node.(kind := IsArray)));
      NoChildren(old(cells), cells, item);
      var j := SkipAt(s, i + 1);
      SkipsInside(s, i + 1, j);
      ArrayCase(s, i, j);
      if At(s, j) == RBRACKET {
        return Some(j + 1), vs, sub;
      }
      var child := Alloc(Block(BLANK));
      if child == 0 { return None, vs, sub; }
      Store(item, Block(cells[item].node.(child := child)));
      ghost var mid := cells;
      end, sub := ParseItemsAt(child, 0, s, j);
      ChainAdded(old(cells), mid, cells, item, child, sub);
      if end.Some? { ChildrenLook(cells, item, sub, ParseItems(s[j..]).value.value); }
    }

    /** A new node, linked behind `child`. */
    method NewSibling(child: nat) returns (new_item: nat)
      requires Valid() && IsNode(cells, child)
      modifies this
      ensures Valid() && (old(denied) ==> denied)
      ensures new_item == 0 ==> denied && cells == old(cells)
      ensures new_item != 0 ==> LinkedIn(old(cells), cells, child, new_item)
      ensures new_item != 0 ==> IsNode(cells, new_item) && cells[new_item].node == BLANK.(prev := child)
    {
      new_item := Alloc(Block(BLANK));
      if new_item == 0 { return; }
      Store(child, Block(cells[child].node.(next := new_item)));
      Store(new_item, Block(cells[new_item].node.(prev := child)));
    }

    /** The elements of an array, the first of which goes into `child`: the loop of `parse_array`. */
    method ParseItemsAt(child: nat, ghost prev: nat, s: text, i: nat) returns (end: Option<nat>, ghost ch: Chain)
      requires Valid() && NulFree(s) && i <= |s| && IsNode(cells, child) && cells[child].node == BLANK.(prev := prev)
      modifies this
      ensures Valid() && (old(denied) ==> denied)
      ensures Strung(old(cells), cells, child, prev, ch)
      ensures TellsChain(cells, ch, s, i, end, ParseItems(s[i..]), denied)
      decreases |s| - i, 2
    {
      hide NulFree, Foot, Owns, Distinct, ParseValue, ParseItems, Looks, LooksChain, Built, Strung, Skips, Skip, LinkedIn, Suffix;
      ghost var vs, sub;
      var start := SkipAt(s, i);
      SkipsInside(s, i, start);
      end, vs, sub := ParseValueAt(child, s, start);
      ch := Link(child, vs, 0, sub, End);
      LastLink(old(cells), cells, child, prev, vs, sub);
      if end.None? {
        if !denied { ItemFails(s, i, start); }
        return;
      }
      ghost var one, e, v := cells, end.value, ParseValue(s[start..]).value.value;
      var j := SkipAt(s, end.value);
      SkipsInside(s, end.value, j);
      ItemStep(s, i, start, e, j, v);
      if At(s, j) == COMMA {
        var new_item := NewSibling(child);
        if new_item == 0 { return None, ch; }
        ghost var mid, rest := cells, End;
        end, rest := ParseItemsAt(new_item, child, s, j + 1);
        MoreLinks(old(cells), one, mid, cells, prev, ch, new_item, rest);
        StrungParts(old(cells), cells, child, prev, ch.(rest := rest));
        MoreLooks(one, cells, ch, rest, None, v, s, j + 1, end, ParseItems(s[j + 1..]), denied);
        ch := ch.(rest := rest);
      } else {
        StrungParts(old(cells), cells, child, prev, ch);
        LastLooks(cells, ch, None, v);
        end := if At(s, j) == RBRACKET then Some(j + 1) else None;
      }
    }

    /** `parse_object` */
    method ParseObjectAt(item: nat, s: text, i: nat) returns (end: Option<nat>, ghost vs: nat, ghost sub: Chain)
      requires Valid() && NulFree(s) && i <= |s| && IsNode(cells, item) && Empty(cells[item].node)
      requires At(s, i) == LBRACE
      modifies this
      ensures Valid() && (old(denied) ==> denied)
      ensures Built(old(cells), cells, item, vs, sub) && Tells(cells, item, vs, sub, s, i, end, denied)
      decreases |s| - i, 0
    {
      hide NulFree, Foot, Owns, Distinct, ParseValue, ParseMembers, Looks, LooksChain, Built, Strung, Skips;
      vs, sub := 0, End;
      Store(item, Block(cells[item].node.(kind := IsObject)));
      NoChildren(old(cells), cells, item);
      var j := SkipAt(s, i + 1);
      SkipsInside(s, i + 1, j);
      ObjectCase(s, i, j);
      if At(s, j) == RBRACE {
        return Some(j + 1), vs, sub;
      }
      var child := Alloc(Block(BLANK));
      if child == 0 { return None, vs, sub; }
      Store(item, Block(cells[item].node.(child := child)));
      ghost var mid := cells;
      end, sub := ParseMembersAt(child, 0, s, j);
      ChainAdded(old(cells), mid, cells, item, child, sub);
      if end.Some? { ChildrenLook(cells, item, sub, ParseMembers(s[j..]).value.value); }
    }

    /** A name, a colon and a value, into `child`; the end of the value. */
    method ParseMemberAt(child: nat, ghost prev: nat, s: text, i: nat) returns (end: Option<nat>, ghost ch: Chain)
      requires Valid() && NulFree(s) && i <= |s| && IsNode(cells, child) && cells[child].node == BLANK.(prev := prev)
      modifies this
      ensures Valid() && (old(denied) ==> denied)
      ensures Strung(old(cells), cells, child, prev, ch)
      ensures ch.rest.End? && IsNode(cells, child) && cells[child].node.next == 0
      ensures end.Some? ==> i < end.value <= |s| && ParseMember(s[i..]).Some? && ParseMember(s[i..]).value.rest == s[end.value..]
      ensures end.Some? ==> var (name, v) := ParseMember(s[i..]).value.value;
                            && cells[child].node.name == ch.nm && LooksName(cells, Foot(ch), ch.nm, Some(name))
                            && Looks(cells, {child} + Some1(ch.vs) + Foot(ch.sub), child, v)
      ensures end.None? ==> denied || ParseMembers(s[i..]).None?
      decreases |s| - i, 2
    {
      hide NulFree, Foot, Owns, Distinct, ParseString, ParseValue, ParseMember, ParseMembers, Looks, Built, Strung, Skips, Skip;
      ghost var vs, sub, nm;
      var start := SkipAt(s, i);
      SkipsInside(s, i, start);
      NameFails(s, i, start);
      end, nm := ParseStringAt(child, s, start);
      ch := Link(child, nm, 0, End, End);
      NameParsed(old(cells), cells, child, prev, nm);
      if end.None? { return; }
      Store(child, Block(cells[child].node.(name := cells[child].node.valuestring, valuestring := 0)));
      ghost var named, name := cells, cells[nm].s;
      ch := Link(child, 0, nm, End, End);
      NameMoved(old(cells), cells, child, prev, nm);
      ghost var e := end.value;
      var colon := SkipAt(s, end.value);
      SkipsInside(s, end.value, colon);
      if At(s, colon) != COLON { return None, ch; }
      var j := SkipAt(s, colon + 1);
      SkipsInside(s, colon + 1, j);
      MemberValue(s, i, start, name, e, colon, j);
      end, vs, sub := ParseValueAt(child, s, j);
      ch := Link(child, vs, nm, sub, End);
      NamedLink(old(cells), named, cells, child, prev, nm, vs, sub);
      if end.None? && !denied { MemberFails(s, i); }
    }

    /** The members of an object, the first of which goes into `child`: the loop of `parse_object`. */
    method ParseMembersAt(child: nat, ghost prev: nat, s: text, i: nat) returns (end: Option<nat>, ghost ch: Chain)
      requires Valid() && NulFree(s) && i <= |s| && IsNode(cells, child) && cells[child].node == BLANK.(prev := prev)
      modifies this
      ensures Valid() && (old(denied) ==> denied)
      ensures Strung(old(cells), cells, child, prev, ch)
      ensures TellsChain(cells, ch, s, i, end, ParseMembers(s[i..]), denied)
      decreases |s| - i, 3
    {
      hide NulFree, Foot, Owns, Distinct, ParseValue, ParseMember, ParseMembers, Looks, LooksChain, LooksName, Built, Strung, Skips, Skip, LinkedIn;
      end, ch := ParseMemberAt(child, prev, s, i);
      StrungParts(old(cells), cells, child, prev, ch);
      if end.None? { return; }
      ghost var one := cells;
      ghost var (name, v) := ParseMember(s[i..]).value.value;
      var j := SkipAt(s, end.value);
      SkipsInside(s, end.value, j);
      MemberStep(s, i, name, v, end.value, j);
      if At(s, j) == COMMA {
        var new_item := NewSibling(child);
        if new_item == 0 { return None, ch; }
        ghost var mid, rest := cells, End;
        end, rest := ParseMembersAt(new_item, child, s, j + 1);
        MoreLinks(old(cells), one, mid, cells, prev, ch, new_item, rest);
        StrungParts(old(cells), cells, child, prev, ch.(rest := rest));
        MoreLooks(one, cells, ch, rest, Some(name), v, s, j + 1, end, ParseMembers(s[j + 1..]), denied);
        ch := ch.(rest := rest);
      } else {
        StrungParts(old(cells), cells, child, prev, ch);
        LastLooks(cells, ch, Some(name), v);
        end := if At(s, j) == RBRACE then Some(j + 1) else None;
      }
    }

    /**
     `cJSON_ParseWithOpts`.  After a failure memory is exactly as before: every node and string
     that was allocated has been freed, once.  After a success the new cells are the ones the
     result owns, and a program that reads from the result sees the parsed value.
     */
    method ParseWithOpts(s: text, requireEnd: bool) returns (root: nat, end: nat, ghost ch: Chain)
      requires Valid() && NulFree(s)
      modifies this
      ensures Valid()
      ensures root == 0 ==> cells == old(cells) && (denied || Parse(s, requireEnd).None?)
      ensures root != 0 ==> Parse(s, requireEnd).Some? && end <= |s| && Parse(s, requireEnd).value.rest == s[end..]
      ensures root != 0 ==> ch.Link? && ch.rest.End? && Owns(cells, ch, root, 0) && Distinct(ch)
      ensures root != 0 ==> old(cells).Keys !! Foot(ch) && cells.Keys == old(cells).Keys + Foot(ch)
      ensures root != 0 ==> SameOn(old(cells), cells, old(cells).Keys)
      ensures root != 0 ==> Looks(cells, Foot(ch), root, Parse(s, requireEnd).value.value)
    {
      hide NulFree, Foot, Owns, Distinct, ParseValue, Looks, Built, Strung, Skips, Skip;
      denied, ch, end := false, End, 0;
      root := Alloc(Block(BLANK));
      if root == 0 { return; }
      ghost var base, vs, sub := cells, 0, End;
      var j := SkipAt(s, 0);
      SkipsInside(s, 0, j);
      var r: Option<nat>;
      r, vs, sub := ParseValueAt(root, s, j);
      ch := Link(root, vs, 0, sub, End);
      LastLink(base, cells, root, 0, vs, sub);
      RootIs(old(cells), base, cells, root, ch);
      ParseIs(s, j);
      if r.None? {
        Delete(root, ch, 0);
        return 0, 0, End;
      }
      end := r.value;
      if requireEnd {
        end := SkipAt(s, end);
        SkipsInside(s, r.value, end);
        ParseToEnd(s, j, r.value, end);
        if At(s, end) != 0 {
          Delete(root, ch, 0);
          return 0, 0, End;
        }
      }
      RootLooks(cells, ch, ParseValue(s[j..]).value.value);
    }

    // -------------------------------------------------------------- references

    /** `create_reference`: a node that shows the same value and owns nothing but itself. */
    method CreateReference(item: nat, ghost s: set<nat>, ghost t: Json) returns (ref: nat)
      requires Valid() && Looks(cells, s, item, t) && s <= cells.Keys
      modifies this
      ensures Valid()
      ensures ref == 0 ==> denied && cells == old(cells)
      ensures ref != 0 ==> ref !in old(cells) && ref in cells && cells == old(cells)[ref := cells[ref]]
      ensures ref != 0 ==> Owns(cells, Link(ref, 0, 0, End, End), ref, 0)
      ensures ref != 0 ==> Looks(cells, {ref} + s - {item}, ref, t)
    {
      LooksNode(cells, s, item, t);
      ref := Alloc(Block(BLANK));
      if ref == 0 { return; }
      Store(ref, Block(cells[item].node.(name := 0, isReference := true, next := 0, prev := 0)));
      ReferenceLooks(old(cells), cells, s, item, ref, t);
    }

    /** `cJSON_AddItemReferenceToArray`, then the array is deleted: the referenced value stays as it was. */
    method AddReferenceAndDelete(array_: nat, item: nat, ghost own: Chain, ghost s: set<nat>, ghost t: Json)
      requires Valid() && ItemOwns(cells, array_, own) && !cells[array_].node.isReference
      requires Looks(cells, s, item, t) && s <= cells.Keys && s !! Foot(own)
      modifies this
      ensures Valid() && cells == old(cells) - Foot(own) && Looks(cells, s, item, t)
    {
      hide Looks, Foot, Owns, Distinct, HasChildren, Relinked, Adopts, Tops;
      ghost var now := own;
      ArrayOfItem(cells, array_, own);
      var ref := CreateReference(item, s, t);
      ghost var mid := cells;
      ArrayLinked(old(cells), array_, own.sub);
      StillOwned(old(cells), mid, array_, own, ref);
      if ref != 0 { LoneLink(cells, ref); }
      AddItemToArray(array_, ref, Tops(own.sub));
      if ref != 0 {
        now := HolderOwns(mid, cells, array_, own, ref);
      }
      ghost var full := cells;
      Delete(array_, now, 0);
      BothFreed(old(cells), mid, full, cells, array_, own, ref, now);
      DeleteSpares(old(cells), own, s, item, t);
    }

    // -------------------------------------------------------------- child lists

    /** Walks to the child at index `which`, or to the first if `which` is negative, or past the last. */
    method WalkTo(array_: nat, which: int, ghost ps: seq<nat>) returns (c: nat, ghost k: nat)
      requires HasChildren(cells, array_, ps)
      ensures k == Clamp(which, |ps|) && c == Nth(ps, k)
    {
      c, k := cells[array_].node.child, 0;
      var w := which;
      while c != 0 && w > 0
        invariant k <= |ps| && c == Nth(ps, k) && w == which - k && (k > 0 ==> w >= 0)
        decreases |ps| - k
      {
        c, w, k := cells[c].node.next, w - 1, k + 1;
      }
      assert k < |ps| ==> ps[k] != 0;
    }

    /** `cJSON_AddItemToArray`: the item becomes the last child. */
    method AddItemToArray(array_: nat, item: nat, ghost ps: seq<nat>)
      requires Valid() && HasChildren(cells, array_, ps) && (item != 0 ==> Detached(cells, array_, item, ps))
      modifies this`cells
      ensures Valid()
      ensures item == 0 ==> cells == old(cells)
      ensures item != 0 ==> HasChildren(cells, array_, ps + [item])
      ensures item != 0 ==> Relinked(old(cells), cells, array_, {item, 0, Nth(ps, |ps| - 1), array_})
      ensures item != 0 ==> Adopts(old(cells), cells, array_, item, |ps|)
    {
      hide HasChildren, Relinked, Adopts;
      if item == 0 { return; }
      ghost var k := |ps|;
      ChildFacts(cells, array_, ps, k);
      var c := cells[array_].node.child;
      if c == 0 {
        Store(array_, Block(cells[array_].node.(child := item)));
      } else {
        c := LastChild(c, array_, ps);
        ChildFacts(cells, array_, ps, k - 1);
        Store(c, Block(cells[c].node.(next := item)));
        Store(item, Block(cells[item].node.(prev := c)));
      }
      InsertedAt(old(cells), cells, array_, item, ps, k);
      InsertedOwns(old(cells), cells, array_, item, ps, k);
      assert ps[..k] + [item] + ps[k..] == ps + [item];
    }

    method LastChild(head: nat, ghost array_: nat, ghost ps: seq<nat>) returns (c: nat)
      requires HasChildren(cells, array_, ps) && ps != [] && head == ps[0]
      ensures c == ps[|ps| - 1]
    {
      c := head;
      ghost var k := 0;
      while cells[c].node.next != 0
        invariant k < |ps| && c == ps[k]
        decreases |ps| - k
      {
        c, k := cells[c].node.next, k + 1;
      }
    }

    /** `cJSON_InsertItemInArray`: the item goes in at the clamped index. */
    method InsertItemInArray(array_: nat, which: int, newitem: nat, ghost ps: seq<nat>)
      requires Valid() && HasChildren(cells, array_, ps) && newitem != 0 && Detached(cells, array_, newitem, ps)
      modifies this`cells
      ensures Valid()
      ensures var k := Clamp(which, |ps|); HasChildren(cells, array_, ps[..k] + [newitem] + ps[k..])
      ensures var k := Clamp(which, |ps|); Relinked(old(cells), cells, array_, {newitem, Nth(ps, k), Nth(ps, k - 1), array_})
      ensures Adopts(old(cells), cells, array_, newitem, Clamp(which, |ps|))
    {
      hide HasChildren, Relinked, Adopts;
      ghost var k;
      var c;
      c, k := WalkTo(array_, which, ps);
      ChildFacts(cells, array_, ps, k);
      if c == 0 {
        AddItemToArray(array_, newitem, ps);
        assert ps[..k] + [newitem] + ps[k..] == ps + [newitem];
        return;
      }
      var before := cells[c].node.prev;
      Store(newitem, Block(cells[newitem].node.(next := c, prev := before)));
      Store(c, Block(cells[c].node.(prev := newitem)));
      if c == cells[array_].node.child {
        Store(array_, Block(cells[array_].node.(child := newitem)));
      } else {
        Store(before, Block(cells[before].node.(next := newitem)));
      }
      InsertedAt(old(cells), cells, array_, newitem, ps, k);
      InsertedOwns(old(cells), cells, array_, newitem, ps, k);
    }

    /** `cJSON_DetachItemFromArray`: takes out the child at the index; null past the end. */
    method DetachItemFromArray(array_: nat, which: int, ghost ps: seq<nat>) returns (c: nat)
      requires Valid() && HasChildren(cells, array_, ps)
      modifies this`cells
      ensures Valid()
      ensures var k := Clamp(which, |ps|);
              if k == |ps| then c == 0 && cells == old(cells)
              else && c == ps[k] && HasChildren(cells, array_, ps[..k] + ps[k + 1..])
                   && Detached(cells, array_, c, ps[..k] + ps[k + 1..])
                   && Relinked(old(cells), cells, array_, {c, Nth(ps, k - 1), Nth(ps, k + 1), array_})
                   && Releases(old(cells), cells, array_, k)
    {
      hide HasChildren, Relinked, Releases;
      ghost var k;
      c, k := WalkTo(array_, which, ps);
      ChildFacts(cells, array_, ps, k);
      if c == 0 { return; }
      var n := cells[c].node;
      if n.prev != 0 {
        Store(n.prev, Block(cells[n.prev].node.(next := n.next)));
      }
      if n.next != 0 {
        Store(n.next, Block(cells[n.next].node.(prev := n.prev)));
      }
      if c == cells[array_].node.child {
        Store(array_, Block(cells[array_].node.(child := n.next)));
      }
      Store(c, Block(cells[c].node.(prev := 0, next := 0)));
      TakenOut(old(cells), cells, array_, ps, k);
      DetachedOwns(old(cells), cells, array_, ps, k);
    }

    /** Links the new item where `c` was. */
    method TakePlace(array_: nat, c: nat, newitem: nat, ghost ps: seq<nat>, ghost k: nat)
      requires Valid() && HasChildren(cells, array_, ps) && newitem != 0 && Detached(cells, array_, newitem, ps)
      requires k < |ps| && c == ps[k]
      modifies this`cells
      ensures Valid() && cells.Keys == old(cells).Keys && ReplaceCells(old(cells), cells, array_, newitem, ps, k)
    {
      hide Linked;
      ChildFacts(cells, array_, ps, k);
      assert c in ps && (k > 0 ==> ps[k - 1] in ps) && (k + 1 < |ps| ==> ps[k + 1] in ps);
      var n := cells[c].node;
      Store(newitem, Block(cells[newitem].node.(next := n.next, prev := n.prev)));
      if n.next != 0 {
        Store(n.next, Block(cells[n.next].node.(prev := newitem)));
      }
      if c == cells[array_].node.child {
        Store(array_, Block(cells[array_].node.(child := newitem)));
      } else {
        Store(n.prev, Block(cells[n.prev].node.(next := newitem)));
      }
      Store(c, Block(cells[c].node.(next := 0, prev := 0)));
    }

    /** `cJSON_ReplaceItemInArray`: the item takes the place of the child at the index, which is deleted. */
    method ReplaceItemInArray(array_: nat, which: int, newitem: nat, ghost ps: seq<nat>, ghost ch: Chain)
      requires Valid() && HasChildren(cells, array_, ps) && newitem != 0 && Detached(cells, array_, newitem, ps)
      requires Clamp(which, |ps|) < |ps| ==> Replaceable(cells, array_, newitem, ps, Clamp(which, |ps|), ch)
      modifies this`cells
      ensures Valid()
      ensures var k := Clamp(which, |ps|);
              if k == |ps| then cells == old(cells)
              else && HasChildren(cells, array_, ps[k := newitem]) && cells.Keys == old(cells).Keys - Foot(ch)
                   && Relinked(old(cells) - Foot(ch), cells, array_, {newitem, Nth(ps, k - 1), Nth(ps, k + 1), array_})
                   && Exchanges(old(cells), cells, array_, newitem, k, ch)
    {
      hide HasChildren, Exchanges, Relinked, Replaceable, ReplaceCells, Detached, Owns, Distinct, Foot;
      ghost var k;
      var c;
      c, k := WalkTo(array_, which, ps);
      ChildFacts(cells, array_, ps, k);
      if c == 0 { return; }
      TakePlace(array_, c, newitem, ps, k);
      ghost var m := cells;
      ReplacedAt(old(cells), m, array_, newitem, ps, k, ch);
      ReplacedRelinked(old(cells), m, array_, newitem, ps, k, ch);
      Delete(c, ch, 0);
      StillChildren(m, cells, array_, ps[k := newitem], Foot(ch));
      ExchangedOwns(old(cells), cells, array_, newitem, ps, k, ch);
    }

    // -------------------------------------------------------------- duplication

    /** A copy of the node and its string. */
    method CopyValue(n: Node) returns (newitem: nat, vs: nat)
      requires Valid() && (n.valuestring != 0 ==> IsChars(cells, n.valuestring))
      modifies this
      ensures Valid()
      ensures newitem == 0 ==> denied && cells == old(cells)
      ensures newitem != 0 ==> Bare(old(cells), cells, newitem, n, vs, 0)
    {
      vs := 0;
      newitem := Alloc(Block(BLANK));
      if newitem == 0 { return; }
      Store(newitem, Block(BLANK.(kind := n.kind, valuedouble := n.valuedouble, stringIsConst := n.stringIsConst)));
      if n.valuestring != 0 {
        ghost var m := cells;
        vs := Alloc(cells[n.valuestring]);
        if vs == 0 {
          BareOwns(old(cells), m, newitem, n.(valuestring := 0), 0, 0);
          Delete(newitem, Link(newitem, 0, 0, End, End), 0);
          return 0, 0;
        }
        Store(newitem, Block(cells[newitem].node.(valuestring := vs)));
      }
    }

    /** A copy of the node, its string and its name, but not of its children. */
    method CopyNode(item: nat, ghost s: set<nat>, ghost t: Json, ghost name: Option<text>)
      returns (newitem: nat, ghost ch: Chain)
      requires Valid() && Looks(cells, s, item, t) && LooksName(cells, s, cells[item].node.name, name)
      modifies this
      ensures Valid()
      ensures newitem == 0 ==> denied && cells == old(cells)
      ensures newitem != 0 ==> CopyShows(old(cells), cells, Lends(old(cells), item), newitem, ch, Shallow(t), name)
      ensures newitem != 0 ==> ch.sub.End? && cells[newitem].node.stringIsConst == old(cells)[item].node.stringIsConst
    {
      hide Looks, Owns, Distinct, Foot, CopyShows;
      StringsThere(cells, s, item, t, name);
      var n := cells[item].node;
      var vs, nm := 0, 0;
      ch := End;
      newitem, vs := CopyValue(n);
      if newitem == 0 { return; }
      if n.name != 0 {
        ghost var m := cells;
        nm := Alloc(cells[n.name]);
        if nm == 0 {
          BareOwns(old(cells), m, newitem, n, vs, 0);
          Delete(newitem, Link(newitem, vs, 0, End, End), 0);
          return 0, End;
        }
        Store(newitem, Block(cells[newitem].node.(name := nm)));
      }
      ch := Link(newitem, vs, if n.stringIsConst then 0 else nm, End, End);
      BareShows(old(cells), cells, s, item, t, name, newitem, vs, nm);
    }

    /**
     `cJSON_Duplicate`: a copy in new cells that shows the same value.  The copy of a constant name is marked constant
     as well, so nobody frees it: of the new cells one per copied constant name is not owned, and may stay after a failure.
     */
    method Duplicate(item: nat, recurse: bool, ghost s: set<nat>, ghost t: Json, ghost name: Option<text>)
      returns (newitem: nat, ghost ch: Chain)
      requires Valid() && s <= cells.Keys && Looks(cells, s, item, t) && LooksName(cells, s, cells[item].node.name, name)
      modifies this
      ensures Valid() && Extends(old(cells), cells, 0)
      ensures newitem == 0 ==> denied && Beyond(old(cells).Keys, cells.Keys, {}) <= Lent(old(cells), item, Copied(t, recurse))
      ensures newitem == 0 && Lent(old(cells), item, Copied(t, recurse)) == 0 ==> cells == old(cells)
      ensures newitem != 0 ==> CopyShows(old(cells), cells, Lent(old(cells), item, Copied(t, recurse)), newitem, ch, Copied(t, recurse), name)
      ensures newitem != 0 ==> (cells.Keys == old(cells).Keys + Foot(ch) <==> Lent(old(cells), item, Copied(t, recurse)) == 0)
      decreases t, 1
    {
      newitem, ch := DuplicateItem(item, recurse, s, t, name);
      hide Owns, Distinct, Foot, LooksName, LooksChain, Looks, Lent, Beyond;
      if newitem == 0 {
        NothingLost(old(cells), cells);
      } else {
        AllOwned(old(cells), cells, Lent(old(cells), item, Copied(t, recurse)), newitem, ch, Copied(t, recurse), name);
      }
    }

    method DuplicateItem(item: nat, recurse: bool, ghost s: set<nat>, ghost t: Json, ghost name: Option<text>)
      returns (newitem: nat, ghost ch: Chain)
      requires Valid() && s <= cells.Keys && Looks(cells, s, item, t) && LooksName(cells, s, cells[item].node.name, name)
      modifies this
      ensures Valid() && Extends(old(cells), cells, 0)
      ensures newitem == 0 ==> denied && Beyond(old(cells).Keys, cells.Keys, {}) <= Lent(old(cells), item, Copied(t, recurse))
      ensures newitem != 0 ==> CopyShows(old(cells), cells, Lent(old(cells), item, Copied(t, recurse)), newitem, ch, Copied(t, recurse), name)
      decreases t, 0
    {
      hide Owns, Distinct, Foot, CopyShows, LooksName, LooksChain, Looks, RestShows, Bare, Lent, LentChain, Lends, Beyond;
      newitem, ch := CopyNode(item, s, t, name);
      if newitem == 0 {
        BeyondSame(cells.Keys);
        return;
      }
      ghost var base, k, under, own := cells, Children(t), s - {item}, Lends(old(cells), item);
      CopyBegun(old(cells), base, s, item, t, name, newitem, ch);
      var cptr := cells[item].node.child;
      LentShallow(old(cells), item, t);
      if !recurse || cptr == 0 { return; }
      ghost var child, rest, first := End, End, Lent(base, cptr, k.value);
      LentFirst(base, cptr, k);
      var newchild, ok;
      newchild, child := Duplicate(cptr, true, under, k.value, k.name);
      if newchild == 0 {
        NoChildCopied(old(cells), base, cells, own, first, newitem, ch, t, name);
        ghost var m := cells;
        Delete(newitem, ch, 0);
        CopyGone(old(cells), m, cells, own + first, ch);
        return 0, End;
      }
      ghost var one := cells;
      CopiedNode(base, one, first, newchild, child, k.value, k.name);
      Store(newitem, Block(cells[newitem].node.(child := newchild)));
      ghost var mid := cells;
      NextToCopy(base, one, mid, under, newitem, 0, cptr, newchild, child, k);
      ok, rest := DuplicateRest(newchild, cells[cptr].node.next, under - {cptr}, k.rest);
      RestCopied(base, one, mid, cells, first, LentChain(base, cptr, k) - first, newitem, 0, newchild, child, rest, k, ok);
      ChildrenCopied(old(cells), base, cells, own, LentChain(base, cptr, k), newitem, newchild, ch, child.(rest := rest), t, name, ok);
      ch := ch.(sub := child.(rest := rest));
      if !ok {
        ghost var m := cells;
        Delete(newitem, ch, 0);
        CopyGone(old(cells), m, cells, own + LentChain(base, cptr, k), ch);
        newitem, ch := 0, End;
      }
    }

    /** Copies the siblings from `cptr` on behind the copy `nptr`: the rest of the loop of `cJSON_Duplicate`. */
    method DuplicateRest(nptr: nat, cptr: nat, ghost s: set<nat>, ghost k: Kids) returns (ok: bool, ghost rest: Chain)
      requires Valid() && s <= cells.Keys && IsNode(cells, nptr) && cells[nptr].node.next == 0 && nptr !in s
      requires LooksChain(cells, s, cptr, k)
      modifies this
      ensures Valid() && IsNode(cells, nptr) && (!ok ==> denied)
      ensures RestShows(old(cells), cells, LentChain(old(cells), cptr, k), nptr, rest, cells[nptr].node.next, k, ok)
      decreases k, 0
    {
      hide Owns, Distinct, Foot, CopyShows, LooksName, LooksChain, Looks, Lent, LentChain, RestShows, Beyond;
      ok, rest := true, End;
      ChainHead(cells, s, cptr, k);
      if cptr == 0 {
        BeyondSame(cells.Keys);
        assert LentChain(cells, cptr, k) == 0 by { NoneLent(cells, cptr); }
        NothingCopied(cells, cells, 0, nptr, k, ok);
        return;
      }
      ghost var child, more, first := End, End, Lent(cells, cptr, k.value);
      LentFirst(cells, cptr, k);
      var newchild;
      newchild, child := Duplicate(cptr, true, s, k.value, k.name);
      if newchild == 0 {
        ok := false;
        NothingCopied(old(cells), cells, LentChain(old(cells), cptr, k), nptr, k, ok);
        return;
      }
      ghost var one := cells;
      CopiedNode(old(cells), one, first, newchild, child, k.value, k.name);
      Store(nptr, Block(cells[nptr].node.(next := newchild)));
      Store(newchild, Block(cells[newchild].node.(prev := nptr)));
      ghost var mid := cells;
      NextToCopy(old(cells), one, mid, s, nptr, nptr, cptr, newchild, child, k);
      ok, more := DuplicateRest(newchild, cells[cptr].node.next, s - {cptr}, k.rest);
      RestCopied(old(cells), one, mid, cells, first, LentChain(old(cells), cptr, k) - first, nptr, nptr, newchild, child, more, k, ok);
      RestAttached(old(cells), cells, LentChain(old(cells), cptr, k), nptr, child.(rest := more), newchild, k, ok);
      rest := child.(rest := more);
    }
  }

  // ---------------------------------------------------------------- an array that holds a reference

  lemma {:induction false} ArrayOfItem(m: Cells, a: nat, own: Chain)
    requires 0 !in m && ItemOwns(m, a, own) && !m[a].node.isReference
    ensures ArrayOwns(m, a, own.sub) && Foot(own.sub) <= Foot(own) <= m.Keys && a in Foot(own)
  {
    Separate(own);
    UnfoldFoot(own);
    FootAllocated(m, own, a, 0);
  }

  /** A new node changes nothing for the array. */
  lemma {:induction false} StillOwned(m: Cells, mid: Cells, a: nat, own: Chain, ref: nat)
    requires 0 !in m && ItemOwns(m, a, own) && !m[a].node.isReference && Foot(own) <= m.Keys
    requires mid == m || (ref != 0 && ref !in m && ref in mid && mid == m[ref := mid[ref]])
    ensures ItemOwns(mid, a, own) && ArrayOwns(mid, a, own.sub) && HasChildren(mid, a, Tops(own.sub))
    ensures ref != 0 && ref !in m ==> ref !in Foot(own) && ref !in Tops(own.sub) && ref != a
  {
    hide Owns, Foot, Distinct, HasChildren, Tops;
    FrameOwns(m, mid, own, a, 0);
    ArrayOfItem(m, a, own);
    if 0 !in mid {
      ArrayOfItem(mid, a, own);
      ArrayLinked(mid, a, own.sub);
    }
    TopsInFoot(own.sub);
    Separate(own);
    UnfoldFoot(own);
  }

  /** The array owns its children and the reference behind them. */
  lemma {:induction false} HolderOwns(m: Cells, m': Cells, a: nat, own: Chain, ref: nat) returns (now: Chain)
    requires 0 !in m && ItemOwns(m, a, own) && ArrayOwns(m, a, own.sub) && Foot(own) <= m.Keys
    requires ref !in Foot(own) && Owns(m, Link(ref, 0, 0, End, End), ref, 0)
    requires Adopts(m, m', a, ref, |Tops(own.sub)|) && HasChildren(m, a, Tops(own.sub))
    requires Relinked(m, m', a, {ref, 0, Nth(Tops(own.sub), |Tops(own.sub)| - 1), a})
    ensures Owns(m', now, a, 0) && Distinct(now) && Foot(now) == Foot(own) + {ref}
  {
    var x, k := Link(ref, 0, 0, End, End), |Tops(own.sub)|;
    LoneLink(m, ref);
    Separate(own);
    assert ItemOwns(m, ref, x);
    UnfoldFoot(own);
    var sub := PutLink(own.sub, k, x);
    now := own.(sub := sub);
    assert ArrayOwns(m', a, sub);
    hide Adopts;
    PutFoot(own.sub, k, x);
    LastInFoot(own.sub);
    HolderNode(m, m', a, own, {ref, 0, Nth(Tops(own.sub), k - 1), a}, sub, ref);
  }

  lemma {:induction false} LoneLink(m: Cells, ref: nat)
    requires Owns(m, Link(ref, 0, 0, End, End), ref, 0)
    ensures Foot(Link(ref, 0, 0, End, End)) == {ref} && Distinct(Link(ref, 0, 0, End, End))
    ensures IsNode(m, ref) && m[ref].node.next == 0 && m[ref].node.prev == 0
  {
    UnfoldFoot(Link(ref, 0, 0, End, End));
    EmptyFoot();
    assert Owns(m, End, m[ref].node.next, ref);
  }

  lemma {:induction false} LastInFoot(c: Chain)
    ensures Nth(Tops(c), |Tops(c)| - 1) != 0 ==> Nth(Tops(c), |Tops(c)| - 1) in Foot(c)
  {
    TopsInFoot(c);
  }

  lemma {:induction false} HolderNode(m: Cells, m': Cells, a: nat, own: Chain, changed: set<nat>, sub: Chain, ref: nat)
    requires 0 !in m && ItemOwns(m, a, own) && ArrayOwns(m, a, own.sub) && ref !in Foot(own) && Foot(own) <= m.Keys
    requires Relinked(m, m', a, changed) && a in changed && ArrayOwns(m', a, sub) && Foot(sub) == Foot(own.sub) + {ref}
    requires forall b :: b in changed ==> b == ref || b == 0 || b in Foot(own.sub) || b == a
    ensures Owns(m', own.(sub := sub), a, 0) && Distinct(own.(sub := sub)) && Foot(own.(sub := sub)) == Foot(own) + {ref}
  {
    UnfoldFoot(own);
    Separate(own);
    HolderDistinct(own, sub, ref);
    assert forall b :: b in Some1(own.vs) + Some1(own.nm) ==> m'[b] == m[b];
    assert SameExceptLinks(m[a], m'[a], true);
    assert Owns(m, own.rest, m[a].node.next, a);
    hide Foot, Relinked, Distinct;
    assert OwnsNode(m', a, own.vs, own.nm);
    assert Owns(m', own.rest, 0, a);
  }

  lemma {:induction false} HolderDistinct(own: Chain, sub: Chain, ref: nat)
    requires own.Link? && own.rest.End? && Distinct(own) && Distinct(sub) && ref !in Foot(own)
    requires Foot(sub) == Foot(own.sub) + {ref}
    ensures Distinct(own.(sub := sub)) && Foot(own.(sub := sub)) == Foot(own) + {ref}
  {
    UnfoldFoot(own);
    UnfoldFoot(own.(sub := sub));
    EmptyFoot();
    FootNotNull(sub);
    hide Foot;
  }

  /** Deleting the array with the reference leaves what was there before without the array. */
  lemma {:induction false} BothFreed(m: Cells, mid: Cells, full: Cells, m': Cells, a: nat, own: Chain, ref: nat, now: Chain)
    requires 0 !in mid && a in Foot(own) && HasChildren(mid, a, Tops(own.sub)) && Foot(own.sub) <= Foot(own)
    requires m' == full - Foot(now)
    requires ref == 0 ==> mid == m && full == mid && now == own
    requires ref != 0 ==> ref !in m && ref in mid && mid == m[ref := mid[ref]] && Foot(now) == Foot(own) + {ref}
                          && Relinked(mid, full, a, {ref, 0, Nth(Tops(own.sub), |Tops(own.sub)| - 1), a})
    ensures m' == m - Foot(own)
  {
    LastInFoot(own.sub);
  }

  // ---------------------------------------------------------------- duplication

  /** `m'` is `m` with more cells; of the old ones at most `item` changed. */
  ghost predicate Extends(m: Cells, m': Cells, item: nat) {
    m.Keys <= m'.Keys && forall a :: a in m && a != item ==> m'[a] == m[a]
  }

  ghost function NodeAt(m: Cells, p: nat): Node {
    if IsNode(m, p) then m[p].node else BLANK
  }

  /** One if the node has a name that it does not own. */
  ghost function Lends(m: Cells, p: nat): nat {
    if NodeAt(m, p).stringIsConst && NodeAt(m, p).name != 0 then 1 else 0
  }

  /** How many nodes of the value `t` at `p` have a name that they do not own. */
  ghost function Lent(m: Cells, p: nat, t: Json): nat
    decreases t, 0
  {
    Lends(m, p) + match t
                  case Array(k) => LentChain(m, NodeAt(m, p).child, k)
                  case Object(k) => LentChain(m, NodeAt(m, p).child, k)
                  case _ => 0
  }

  ghost function LentChain(m: Cells, p: nat, k: Kids): nat
    decreases k, 0
  {
    match k
    case Nil => 0
    case Cons(_, v, rest) => Lent(m, p, v) + LentChain(m, NodeAt(m, p).next, rest)
  }

  lemma {:induction false} LentShallow(m: Cells, p: nat, t: Json)
    ensures Lent(m, p, Shallow(t)) == Lends(m, p)
    ensures Lent(m, p, t) == Lends(m, p) + LentChain(m, NodeAt(m, p).child, Children(t))
  {
    match t
    case Array(_) => assert LentChain(m, NodeAt(m, p).child, Nil) == 0;
    case Object(_) => assert LentChain(m, NodeAt(m, p).child, Nil) == 0;
    case _ =>
  }

  lemma {:induction false} NoneLent(m: Cells, p: nat)
    ensures LentChain(m, p, Nil) == 0
  {
  }

  lemma {:induction false} LentFirst(m: Cells, p: nat, k: Kids)
    requires k.Cons?
    ensures LentChain(m, p, k) == Lent(m, p, k.value) + LentChain(m, NodeAt(m, p).next, k.rest)
  {
  }

  lemma {:induction false} FrameLent(m: Cells, m': Cells, s: set<nat>, p: nat, t: Json)
    requires Looks(m, s, p, t) && SameOn(m, m', s)
    ensures Lent(m', p, t) == Lent(m, p, t)
    decreases t, 0
  {
    match t
    case Array(k) => FrameLentChain(m, m', s - {p}, m[p].node.child, k);
    case Object(k) => FrameLentChain(m, m', s - {p}, m[p].node.child, k);
    case _ =>
  }

  lemma {:induction false} FrameLentChain(m: Cells, m': Cells, s: set<nat>, p: nat, k: Kids)
    requires LooksChain(m, s, p, k) && SameOn(m, m', s)
    ensures LentChain(m', p, k) == LentChain(m, p, k)
    decreases k, 0
  {
    if k.Cons? {
      FrameLent(m, m', s, p, k.value);
      FrameLentChain(m, m', s - {p}, m[p].node.next, k.rest);
    }
  }

  /** How many of the cells `k'` are neither among `k` nor in `foot`. */
  ghost function Beyond(k: set<nat>, k': set<nat>, foot: set<nat>): nat {
    |k' - k - foot|
  }

  lemma {:induction false} BeyondNone(k: set<nat>, k': set<nat>, foot: set<nat>)
    requires k <= k' && foot <= k'
    ensures Beyond(k, k', foot) == 0 <==> k' == k + foot
  {
    if Beyond(k, k', foot) == 0 {
      assert k' - k - foot == {};
      assert k' == k + foot;
    } else {
      assert k' - k - foot != {};
    }
  }

  /** What is lost in two stages is lost in one or the other. */
  lemma {:induction false} BeyondBoth(k: set<nat>, k1: set<nat>, k2: set<nat>, f1: set<nat>, f2: set<nat>)
    requires k <= k1 <= k2 && f1 <= k1 && f2 !! k1
    ensures Beyond(k, k2, f1 + f2) == Beyond(k, k1, f1) + Beyond(k1, k2, f2)
  {
    var a, b := k1 - k - f1, k2 - k1 - f2;
    assert k2 - k - (f1 + f2) == a + b;
    assert a !! b;
  }

  lemma {:induction false} BeyondFreed(k: set<nat>, k': set<nat>, foot: set<nat>)
    ensures Beyond(k, k' - foot, {}) == Beyond(k, k', foot)
  {
    assert (k' - foot) - k - {} == k' - k - foot;
  }

  lemma {:induction false} BeyondSame(k: set<nat>)
    ensures Beyond(k, k, {}) == 0
  {
    assert k - k - {} == {};
  }

  lemma {:induction false} BeyondOne(k: set<nat>, k': set<nat>, foot: set<nat>, p: nat)
    requires k' == k + foot + {p} && p !in k && p !in foot
    ensures Beyond(k, k', foot) == 1
  {
    assert k' - k - foot == {p};
  }

  lemma {:induction false} NothingLost(m: Cells, m': Cells)
    requires Extends(m, m', 0) && 0 !in m
    ensures Beyond(m.Keys, m'.Keys, {}) == 0 ==> m' == m
  {
    BeyondNone(m.Keys, m'.Keys, {});
    assert m.Keys + {} == m.Keys;
  }

  lemma {:induction false} AllOwned(m: Cells, m': Cells, lent: nat, p: nat, ch: Chain, t: Json, name: Option<text>)
    requires CopyShows(m, m', lent, p, ch, t, name)
    ensures m'.Keys == m.Keys + Foot(ch) <==> lent == 0
  {
    hide Beyond, Looks, LooksName, Distinct, Foot;
    FootAllocated(m', ch, p, 0);
    BeyondNone(m.Keys, m'.Keys, Foot(ch));
  }

  /** A new node at `p` with the kind and value of `n`, and copies `vs` and `nm` of its string and name. */
  ghost predicate Bare(m: Cells, m': Cells, p: nat, n: Node, vs: nat, nm: nat) {
    && p != 0 && p !in m && (vs != 0 ==> vs !in m && vs != p) && (nm != 0 ==> nm !in m && nm != p && nm != vs)
    && m'.Keys == m.Keys + {p} + Some1(vs) + Some1(nm) && (forall a :: a in m ==> m'[a] == m[a])
    && m'[p] == Block(BLANK.(kind := n.kind, valuedouble := n.valuedouble, stringIsConst := n.stringIsConst,
                             valuestring := vs, name := nm))
    && (n.valuestring != 0 <==> vs != 0) && (vs != 0 ==> IsChars(m, n.valuestring) && m'[vs] == m[n.valuestring])
    && (nm != 0 ==> IsChars(m, n.name) && m'[nm] == m[n.name])
  }

  lemma {:induction false} BareOwns(m: Cells, m': Cells, p: nat, n: Node, vs: nat, nm: nat)
    requires Bare(m, m', p, n, vs, nm)
    ensures var ch := Link(p, vs, if n.stringIsConst then 0 else nm, End, End);
            && Owns(m', ch, p, 0) && Distinct(ch) && Foot(ch) !! m.Keys
            && Foot(ch) == {p} + Some1(vs) + Some1(ch.nm)
            && (ch.nm == nm ==> m' - Foot(ch) == m && m'.Keys == m.Keys + Foot(ch))
            && (ch.nm != nm ==> nm in m' - Foot(ch) && nm !in m)
  {
    UnfoldFoot(Link(p, vs, if n.stringIsConst then 0 else nm, End, End));
    EmptyFoot();
  }

  /** A node with a constant name, copied and deleted: the copy of the name is never freed. */
  method ConstantNameLeaks() returns (before: Cells, after: Cells)
    ensures |before| == 2 && |after| == 3
  {
    var m := new Memory(true);
    var name := m.Alloc(Chars([120]));
    var item := m.Alloc(Block(BLANK.(kind := IsNull, stringIsConst := true, name := name)));
    before := m.cells;
    ghost var s := {name, item};
    ConstantNamed(before, name, item);
    hide *;
    var copy, ch := m.Duplicate(item, true, s, Null, Some([120]));
    ghost var with := m.cells;
    CopiedNode(before, with, 1, copy, ch, Null, Some([120]));
    m.Delete(copy, ch, 0);
    after := m.cells;
    CopyLeft(before, with, after, ch);
  }

  lemma {:induction false} ConstantNamed(m: Cells, name: nat, item: nat)
    requires name != 0 && item != 0 && name != item
    requires m == map[name := Chars([120]), item := Block(BLANK.(kind := IsNull, stringIsConst := true, name := name))]
    ensures m.Keys == {name, item} && |m| == 2 && Lent(m, item, Null) == 1
    ensures Looks(m, {name, item}, item, Null) && LooksName(m, {name, item}, m[item].node.name, Some([120]))
  {
    assert m.Keys == {name, item};
    assert |m| == |m.Keys|;
  }

  lemma {:induction false} CopyLeft(m: Cells, m1: Cells, m': Cells, ch: Chain)
    requires m.Keys <= m1.Keys && Foot(ch) !! m.Keys && m' == m1 - Foot(ch)
    ensures |m'| == |m| + Beyond(m.Keys, m1.Keys, Foot(ch))
  {
    var left := m1.Keys - m.Keys - Foot(ch);
    assert m'.Keys == m.Keys + left;
    assert |m'| == |m'.Keys| && |m| == |m.Keys|;
  }

  lemma {:induction false} StringsThere(m: Cells, s: set<nat>, item: nat, t: Json, name: Option<text>)
    requires Looks(m, s, item, t) && LooksName(m, s, m[item].node.name, name)
    ensures IsNode(m, item) && item in s
    ensures m[item].node.valuestring != 0 ==> IsChars(m, m[item].node.valuestring)
    ensures m[item].node.name != 0 ==> IsChars(m, m[item].node.name)
  {
  }

  /** The new cells show the value and the name, and the chain owns all of them but `lent`. */
  ghost predicate CopyShows(m: Cells, m': Cells, lent: nat, p: nat, ch: Chain, t: Json, name: Option<text>) {
    && m.Keys <= m'.Keys && (forall a :: a in m ==> m'[a] == m[a])
    && ch.Link? && ch.rest.End? && ch.p == p && Owns(m', ch, p, 0) && Distinct(ch) && Foot(ch) !! m.Keys
    && Beyond(m.Keys, m'.Keys, Foot(ch)) == lent && !m'[p].node.isReference
    && Looks(m', m'.Keys - m.Keys, p, t) && LooksName(m', m'.Keys - m.Keys, m'[p].node.name, name)
  }

  lemma {:induction false} BareShows(m: Cells, m': Cells, s: set<nat>, item: nat, t: Json, name: Option<text>,
                                     p: nat, vs: nat, nm: nat)
    requires Looks(m, s, item, t) && LooksName(m, s, m[item].node.name, name)
    requires Bare(m, m', p, m[item].node, vs, nm) && (m[item].node.name != 0 <==> nm != 0)
    ensures CopyShows(m, m', Lends(m, item), p, Link(p, vs, if m[item].node.stringIsConst then 0 else nm, End, End), Shallow(t), name)
  {
    hide Owns, Distinct, Foot, Beyond;
    var n := m[item].node;
    BareOwns(m, m', p, n, vs, nm);
    BareLoses(m, m', item, p, vs, nm);
    assert LooksChain(m', m'.Keys - m.Keys - {p}, 0, Nil);
    assert LooksName(m', m'.Keys - m.Keys, nm, name);
    assert Looks(m', m'.Keys - m.Keys, p, Shallow(t));
  }

  lemma {:induction false} BareLoses(m: Cells, m': Cells, item: nat, p: nat, vs: nat, nm: nat)
    requires IsNode(m, item) && Bare(m, m', p, m[item].node, vs, nm) && (m[item].node.name != 0 <==> nm != 0)
    ensures Beyond(m.Keys, m'.Keys, Foot(Link(p, vs, if m[item].node.stringIsConst then 0 else nm, End, End))) == Lends(m, item)
  {
    hide Owns, Distinct, Foot, Beyond;
    var n := m[item].node;
    BareOwns(m, m', p, n, vs, nm);
    var foot := Foot(Link(p, vs, if n.stringIsConst then 0 else nm, End, End));
    if n.stringIsConst && nm != 0 {
      BeyondOne(m.Keys, m'.Keys, foot, nm);
    } else {
      BeyondNone(m.Keys, m'.Keys, foot);
    }
  }

  ghost function Children(t: Json): Kids {
    match t
    case Array(k) => k
    case Object(k) => k
    case _ => Nil
  }

  /** A chain of copies `rest` hangs from `head`, behind the node `q`. */
  ghost predicate RestShows(m: Cells, m': Cells, lent: nat, q: nat, rest: Chain, head: nat, k: Kids, ok: bool) {
    && Extends(m, m', q) && IsNode(m, q) && m'[q] == Block(m[q].node.(next := head))
    && Owns(m', rest, head, q) && Distinct(rest) && Foot(rest) !! m.Keys
    && Beyond(m.Keys, m'.Keys, Foot(rest)) <= lent && (ok ==> Beyond(m.Keys, m'.Keys, Foot(rest)) == lent)
    && (ok ==> LooksChain(m', m'.Keys - m.Keys, head, k))
  }

  lemma {:induction false} ChainHead(m: Cells, s: set<nat>, cptr: nat, k: Kids)
    requires LooksChain(m, s, cptr, k)
    ensures cptr == 0 <==> k.Nil?
    ensures k.Cons? ==> IsNode(m, cptr) && cptr in s && Looks(m, s, cptr, k.value)
    ensures k.Cons? ==> LooksName(m, s, m[cptr].node.name, k.name) && LooksChain(m, s - {cptr}, m[cptr].node.next, k.rest)
  {
    hide Looks, LooksName;
    if k.Cons? {
      LooksNode(m, s, cptr, k.value);
    }
  }

  lemma {:induction false} NothingCopied(m: Cells, m': Cells, lent: nat, q: nat, k: Kids, ok: bool)
    requires 0 !in m && IsNode(m, q) && m[q].node.next == 0 && Extends(m, m', 0) && Beyond(m.Keys, m'.Keys, {}) <= lent
    requires ok ==> k.Nil? && lent == 0
    ensures RestShows(m, m', lent, q, End, 0, k, ok) && IsNode(m', q) && m'[q].node.next == 0
  {
    hide Beyond;
    OwnsNothing(m');
    assert m'[q] == m[q];
    assert Owns(m', End, 0, q);
    assert m[q].node.(next := 0) == m[q].node;
    assert ok ==> LooksChain(m', m'.Keys - m.Keys, 0, k);
  }

  lemma {:induction false} CopiedNode(m: Cells, m': Cells, lent: nat, p: nat, c: Chain, t: Json, name: Option<text>)
    requires CopyShows(m, m', lent, p, c, t, name)
    ensures c.Link? && c.p == p && c.rest.End? && IsNode(m', p) && p !in m && m.Keys <= m'.Keys
    ensures m'[p].node.next == 0 && m'[p].node.prev == 0 && !m'[p].node.isReference
    ensures forall a :: a in m ==> m'[a] == m[a]
    ensures Owns(m', c, p, 0) && Distinct(c) && Foot(c) !! m.Keys && Foot(c) <= m'.Keys
    ensures Beyond(m.Keys, m'.Keys, Foot(c)) == lent
    ensures Looks(m', m'.Keys - m.Keys, p, t) && LooksName(m', m'.Keys - m.Keys, m'[p].node.name, name)
  {
    hide Looks, LooksName, Distinct, Beyond;
    UnfoldFoot(c);
    FootAllocated(m', c, p, 0);
    assert Owns(m', c.rest, m'[p].node.next, p);
  }

  /** The copy of a node is attached: the node `q` points to it, and its `prev` is set. */
  ghost predicate Attaches(m: Cells, one: Cells, mid: Cells, q: nat, pr: nat, p: nat) {
    && q in m && p in one && q in mid && one[p].Block?
    && mid == one[q := mid[q]][p := Block(one[p].node.(prev := pr))]
  }

  lemma {:induction false} NextToCopy(m: Cells, one: Cells, mid: Cells, s: set<nat>, q: nat, pr: nat, cptr: nat,
                                      p: nat, c: Chain, k: Kids)
    requires k.Cons? && CopyShows(m, one, Lent(m, cptr, k.value), p, c, k.value, k.name) && LooksChain(m, s, cptr, k)
    requires s <= m.Keys && q !in s && Attaches(m, one, mid, q, pr, p)
    ensures IsNode(mid, cptr) && s - {cptr} <= mid.Keys && IsNode(mid, p) && mid[p].node.next == 0 && p !in s
    ensures LooksChain(mid, s - {cptr}, mid[cptr].node.next, k.rest)
    ensures LentChain(m, cptr, k) == Lent(m, cptr, k.value) + LentChain(mid, mid[cptr].node.next, k.rest)
  {
    CopiedNode(m, one, Lent(m, cptr, k.value), p, c, k.value, k.name);
    ChainHead(m, s, cptr, k);
    LentFirst(m, cptr, k);
    hide CopyShows, LooksChain, Looks, LooksName, Lent, LentChain, Beyond;
    assert forall a :: a in s ==> a in mid && mid[a] == m[a];
    FrameLooksChain(m, mid, s - {cptr}, s - {cptr}, m[cptr].node.next, k.rest);
    FrameLentChain(m, mid, s - {cptr}, m[cptr].node.next, k.rest);
  }

  lemma {:induction false} RestCopied(m: Cells, one: Cells, mid: Cells, m': Cells, first: nat, others: nat, q: nat, pr: nat,
                                      p: nat, c: Chain, more: Chain, k: Kids, ok: bool)
    requires k.Cons? && CopyShows(m, one, first, p, c, k.value, k.name)
    requires Attaches(m, one, mid, q, pr, p)
    requires p in m' && m'[p].Block? && RestShows(mid, m', others, p, more, m'[p].node.next, k.rest, ok)
    ensures Extends(m, m', q) && q in m' && m'[q] == mid[q]
    ensures c.Link? && var rest := c.(rest := more);
            && Owns(m', rest, p, pr) && Distinct(rest) && Foot(rest) !! m.Keys
            && Beyond(m.Keys, m'.Keys, Foot(rest)) <= first + others && (ok ==> Beyond(m.Keys, m'.Keys, Foot(rest)) == first + others)
    ensures ok ==> LooksChain(m', m'.Keys - m.Keys, p, k)
  {
    hide LooksChain, Looks, LooksName, Owns, Distinct, Foot, CopyShows, Beyond;
    CopiedNode(m, one, first, p, c, k.value, k.name);
    assert forall a :: a in one && a != q && a != p ==> m'[a] == one[a];
    CopiedOwns(one, m', p, pr, q, m, c, more);
    CopiedFoot(c, more);
    assert mid.Keys == one.Keys;
    BeyondBoth(m.Keys, one.Keys, m'.Keys, Foot(c), Foot(more));
    if ok {
      CopiedLooks(m, one, m', p, k, m'.Keys - mid.Keys);
    }
  }

  /** The copies hang from the node `q`. */
  lemma {:induction false} RestAttached(m: Cells, m': Cells, lent: nat, q: nat, rest: Chain, head: nat, k: Kids, ok: bool)
    requires Extends(m, m', q) && IsNode(m, q) && q in m' && m'[q] == Block(m[q].node.(next := head))
    requires Owns(m', rest, head, q) && Distinct(rest) && Foot(rest) !! m.Keys
    requires Beyond(m.Keys, m'.Keys, Foot(rest)) <= lent && (ok ==> Beyond(m.Keys, m'.Keys, Foot(rest)) == lent)
    requires ok ==> LooksChain(m', m'.Keys - m.Keys, head, k)
    ensures RestShows(m, m', lent, q, rest, head, k, ok)
  {
  }

  lemma {:induction false} CopiedFoot(c: Chain, more: Chain)
    requires c.Link? && c.rest.End?
    ensures Foot(c.(rest := more)) == Foot(c) + Foot(more)
  {
    UnfoldFoot(c);
    UnfoldFoot(c.(rest := more));
    EmptyFoot();
  }

  lemma {:induction false} CopiedOwns(one: Cells, m': Cells, p: nat, pr: nat, q: nat, m: Cells, c: Chain, more: Chain)
    requires c.Link? && c.rest.End? && c.p == p && Owns(one, c, p, 0) && Distinct(c) && Foot(c) !! m.Keys && q in m
    requires Foot(c) <= one.Keys <= m'.Keys && !one[p].node.isReference
    requires forall a :: a in one && a != q && a != p ==> m'[a] == one[a]
    requires m'[p].Block? && m'[p].node == one[p].node.(prev := pr, next := m'[p].node.next)
    requires Owns(m', more, m'[p].node.next, p) && Distinct(more) && Foot(more) !! one.Keys
    ensures Owns(m', c.(rest := more), p, pr) && Distinct(c.(rest := more))
  {
    UnfoldFoot(c);
    Separate(c);
    FrameOwns(one, m', c.sub, one[p].node.child, 0);
    MoreDistinct(c, more);
  }

  lemma {:induction false} CopiedLooks(m: Cells, one: Cells, m': Cells, p: nat, k: Kids, s: set<nat>)
    requires k.Cons? && p in one && one[p].Block? && p !in m && m.Keys <= one.Keys <= m'.Keys
    requires Looks(one, one.Keys - m.Keys, p, k.value) && LooksName(one, one.Keys - m.Keys, one[p].node.name, k.name)
    requires forall a :: a in one && a !in m && a != p ==> m'[a] == one[a]
    requires m'[p].Block? && m'[p].node == one[p].node.(prev := m'[p].node.prev, next := m'[p].node.next)
    requires LooksChain(m', s, m'[p].node.next, k.rest) && s <= m'.Keys - one.Keys
    ensures LooksChain(m', m'.Keys - m.Keys, p, k)
  {
    FrameLooks(one, m', one.Keys - m.Keys, m'.Keys - m.Keys, p, k.value);
    FrameLooksChain(m', m', s, m'.Keys - m.Keys - {p}, m'[p].node.next, k.rest);
    hide Looks;
    assert LooksName(m', m'.Keys - m.Keys, m'[p].node.name, k.name);
  }

  /** After the node itself has been copied. */
  lemma {:induction false} CopyBegun(m: Cells, base: Cells, s: set<nat>, item: nat, t: Json, name: Option<text>, p: nat, ch: Chain)
    requires s <= m.Keys && Looks(m, s, item, t) && CopyShows(m, base, Lends(m, item), p, ch, Shallow(t), name)
    ensures ch.Link? && Extends(m, base, 0) && IsNode(base, item) && IsNode(base, p) && p !in s && s <= base.Keys
    ensures base[item] == m[item] && Lent(m, item, t) == Lends(m, item) + LentChain(base, base[item].node.child, Children(t))
    ensures base[item].node.child == 0 ==> Shallow(t) == t
    ensures base[item].node.child != 0 ==>
              var k := Children(t);
              && k.Cons? && k < t && LooksChain(base, s - {item}, base[item].node.child, k)
              && Looks(base, s - {item}, base[item].node.child, k.value)
              && IsNode(base, base[item].node.child)
              && LooksName(base, s - {item}, base[base[item].node.child].node.name, k.name)
  {
    hide Beyond;
    CopiedNode(m, base, Lends(m, item), p, ch, Shallow(t), name);
    LooksNode(m, s, item, t);
    LentShallow(m, item, t);
    assert base[item] == m[item];
    var k, cptr := Children(t), m[item].node.child;
    if t.Array? || t.Object? {
      FrameLooksChain(m, base, s - {item}, s - {item}, cptr, k);
      FrameLentChain(m, base, s - {item}, cptr, k);
      ChainHead(base, s - {item}, cptr, k);
    }
  }

  /** The first child could not be copied: the copy so far can be deleted. */
  lemma {:induction false} NoChildCopied(m: Cells, base: Cells, m': Cells, own: nat, first: nat, p: nat, ch: Chain,
                                         t: Json, name: Option<text>)
    requires CopyShows(m, base, own, p, ch, Shallow(t), name)
    requires Extends(base, m', 0) && Beyond(base.Keys, m'.Keys, {}) <= first
    ensures Owns(m', ch, p, 0) && Distinct(ch) && Foot(ch) !! m.Keys && Extends(m, m', 0)
    ensures Beyond(m.Keys, m'.Keys, Foot(ch)) <= own + first
  {
    hide Looks, LooksName, Owns, Distinct, CopyShows, Foot, Beyond;
    CopiedNode(m, base, own, p, ch, Shallow(t), name);
    FootNotNull(ch);
    assert SameOn(base, m', Foot(ch));
    FrameOwns(base, m', ch, p, 0);
    BeyondBoth(m.Keys, base.Keys, m'.Keys, Foot(ch), {});
    assert Foot(ch) + {} == Foot(ch);
  }

  lemma {:induction false} CopyGone(m: Cells, m1: Cells, m': Cells, lent: nat, ch: Chain)
    requires 0 !in m && Extends(m, m1, 0) && m' == m1 - Foot(ch) && Foot(ch) !! m.Keys
    requires Beyond(m.Keys, m1.Keys, Foot(ch)) <= lent
    ensures Extends(m, m', 0) && Beyond(m.Keys, m'.Keys, {}) <= lent
  {
    hide Beyond, Foot;
    BeyondFreed(m.Keys, m1.Keys, Foot(ch));
    assert m'.Keys == m1.Keys - Foot(ch);
  }

  lemma {:induction false} ChildrenCopied(m: Cells, base: Cells, m': Cells, own: nat, under: nat, p: nat, first: nat,
                                          ch: Chain, sub: Chain, t: Json, name: Option<text>, ok: bool)
    requires CopyShows(m, base, own, p, ch, Shallow(t), name) && ch.sub.End? && (t.Array? || t.Object?)
    requires Extends(base, m', p) && p in m' && m'[p] == Block(base[p].node.(child := first))
    requires Owns(m', sub, first, 0) && Distinct(sub) && Foot(sub) !! base.Keys
    requires Beyond(base.Keys, m'.Keys, Foot(sub)) <= under && (ok ==> Beyond(base.Keys, m'.Keys, Foot(sub)) == under)
    requires ok ==> LooksChain(m', m'.Keys - base.Keys, first, Children(t))
    ensures Extends(m, m', 0) && Owns(m', ch.(sub := sub), p, 0) && Distinct(ch.(sub := sub)) && Foot(ch.(sub := sub)) !! m.Keys
    ensures Beyond(m.Keys, m'.Keys, Foot(ch.(sub := sub))) <= own + under
    ensures ok ==> CopyShows(m, m', own + under, p, ch.(sub := sub), t, name)
  {
    hide Owns, Distinct, Foot, Beyond, Looks, LooksName, LooksChain;
    CopiedNode(m, base, own, p, ch, Shallow(t), name);
    OwnsChildren(base, m', p, first, ch, sub);
    BeyondBoth(m.Keys, base.Keys, m'.Keys, Foot(ch), Foot(sub));
    if ok {
      ShowsChildren(m, base, m', p, first, t, name);
      assert CopyShows(m, m', own + under, p, ch.(sub := sub), t, name);
    }
  }

  lemma {:induction false} OwnsChildren(base: Cells, m': Cells, p: nat, first: nat, ch: Chain, sub: Chain)
    requires ch.Link? && ch.p == p && ch.sub.End? && ch.rest.End? && Owns(base, ch, p, 0) && Distinct(ch)
    requires !base[p].node.isReference && Extends(base, m', p) && m'[p] == Block(base[p].node.(child := first))
    requires Owns(m', sub, first, 0) && Distinct(sub) && Foot(sub) !! base.Keys && Foot(ch) <= base.Keys
    ensures Owns(m', ch.(sub := sub), p, 0) && Distinct(ch.(sub := sub)) && Foot(ch.(sub := sub)) == Foot(ch) + Foot(sub)
  {
    UnfoldFoot(ch);
    UnfoldFoot(ch.(sub := sub));
    EmptyFoot();
    FootNotNull(sub);
    Separate(ch);
    assert Owns(base, ch.rest, base[p].node.next, p);
  }

  lemma {:induction false} ShowsChildren(m: Cells, base: Cells, m': Cells, p: nat, first: nat, t: Json, name: Option<text>)
    requires m.Keys <= base.Keys && p in base && p !in m && base[p].Block? && (t.Array? || t.Object?)
    requires Looks(base, base.Keys - m.Keys, p, Shallow(t)) && LooksName(base, base.Keys - m.Keys, base[p].node.name, name)
    requires Extends(base, m', p) && m'[p] == Block(base[p].node.(child := first))
    requires LooksChain(m', m'.Keys - base.Keys, first, Children(t))
    ensures Looks(m', m'.Keys - m.Keys, p, t) && LooksName(m', m'.Keys - m.Keys, m'[p].node.name, name)
  {
    FrameLooksChain(m', m', m'.Keys - base.Keys, m'.Keys - m.Keys - {p}, first, Children(t));
  }

  ghost function Copied(t: Json, recurse: bool): Json {
    if recurse then t else Shallow(t)
  }

  /** What a copy shows before its children are copied. */
  ghost function Shallow(t: Json): Json {
    match t
    case Array(_) => Array(Nil)
    case Object(_) => Object(Nil)
    case _ => t
  }

  lemma {:induction false} ReferenceLooks(m: Cells, m': Cells, s: set<nat>, item: nat, ref: nat, t: Json)
    requires Looks(m, s, item, t) && s <= m.Keys && ref != 0 && ref !in m
    requires m' == m[ref := Block(m[item].node.(name := 0, isReference := true, next := 0, prev := 0))]
    ensures Looks(m', {ref} + s - {item}, ref, t)
  {
    var s' := {ref} + s - {item};
    assert s' - {ref} == s - {item};
    match t
    case Array(k) => FrameLooksChain(m, m', s - {item}, s - {item}, m[item].node.child, k);
    case Object(k) => FrameLooksChain(m, m', s - {item}, s - {item}, m[item].node.child, k);
    case _ =>
  }

  /** Cells were added, and of the old ones only the item changed. */
  ghost predicate Grew(m: Cells, m': Cells, item: nat, added: set<nat>) {
    && m'.Keys == m.Keys + added && m.Keys !! added
    && forall a :: a in m && a != item ==> m'[a] == m[a]
  }

  /** An item nothing has been parsed into yet. */
  ghost predicate Empty(n: Node) {
    n.child == 0 && n.valuestring == 0 && !n.isReference && !n.stringIsConst
  }

  /** Parsing into the item added the string `vs` and the children `sub`, changed nothing else, and left its links alone. */
  ghost predicate Built(m: Cells, m': Cells, item: nat, vs: nat, sub: Chain) {
    && Grew(m, m', item, Some1(vs) + Foot(sub)) && IsNode(m, item) && IsNode(m', item)
    && var n, n' := m[item].node, m'[item].node;
       && n' == n.(kind := n'.kind, child := n'.child, valuestring := vs, valuedouble := n'.valuedouble)
       && (vs != 0 ==> IsChars(m', vs)) && vs !in Foot(sub) && Owns(m', sub, n'.child, 0) && Distinct(sub)
  }

  /** The outcome agrees with the parser functions, unless memory ran out. */
  ghost predicate Tells(m: Cells, item: nat, vs: nat, sub: Chain, s: text, i: nat, end: Option<nat>, denied: bool) {
    && i <= |s|
    && (end.Some? ==>
          && i < end.value <= |s|
          && ParseValue(s[i..]).Some? && ParseValue(s[i..]).value.rest == s[end.value..]
          && Looks(m, {item} + Some1(vs) + Foot(sub), item, ParseValue(s[i..]).value.value))
    && (end.None? ==> denied || ParseValue(s[i..]).None?)
  }

  /** A chain of new nodes starts at `child`, which was there before; nothing else changed. */
  ghost predicate Strung(m: Cells, m': Cells, child: nat, prev: nat, ch: Chain) {
    && ch.Link? && Grew(m, m', child, Foot(ch) - {child}) && Owns(m', ch, child, prev) && Distinct(ch)
  }

  ghost predicate TellsChain(m: Cells, ch: Chain, s: text, i: nat, end: Option<nat>, p: Option<Parsed<Kids>>, denied: bool) {
    && ch.Link?
    && (end.Some? ==> i < end.value <= |s| && p.Some? && p.value.rest == s[end.value..]
                      && LooksChain(m, Foot(ch), ch.p, p.value.value))
    && (end.None? ==> denied || p.None?)
  }

  lemma {:induction false} StrungParts(m: Cells, m': Cells, child: nat, prev: nat, ch: Chain)
    requires Strung(m, m', child, prev, ch)
    ensures ch.Link? && Distinct(ch) && ch.p == child
  {
  }

  lemma {:induction false} NotAValue(m: Cells, item: nat, s: text, i: nat, denied: bool)
    requires i <= |s| && IsNode(m, item) && Empty(m[item].node)
    requires !(NULL_TEXT <= s[i..]) && !(FALSE_TEXT <= s[i..]) && !(TRUE_TEXT <= s[i..])
    requires At(s, i) != QUOTE && At(s, i) != MINUS && !IsDigit(At(s, i))
    requires At(s, i) != LBRACKET && At(s, i) != LBRACE
    ensures Built(m, m, item, 0, End) && Tells(m, item, 0, End, s, i, None, denied)
  {
    hide ParseValue;
    NoCase(s, i);
  }

  /** An item whose kind has been set, with no children. */
  lemma {:induction false} NoChildren(m: Cells, m': Cells, item: nat)
    requires IsNode(m, item) && Empty(m[item].node) && IsNode(m', item)
    requires m' == m[item := Block(m[item].node.(kind := m'[item].node.kind))]
    ensures Built(m, m', item, 0, End)
    ensures m'[item].node.kind.IsArray? ==> Looks(m', {item} + Some1(0) + Foot(End), item, Array(Nil))
    ensures m'[item].node.kind.IsObject? ==> Looks(m', {item} + Some1(0) + Foot(End), item, Object(Nil))
  {
  }

  lemma {:induction false} ChildrenLook(m: Cells, item: nat, sub: Chain, k: Kids)
    requires IsNode(m, item) && item !in Foot(sub) && LooksChain(m, Foot(sub), m[item].node.child, k)
    requires m[item].node.valuestring == 0
    ensures m[item].node.kind.IsArray? ==> Looks(m, {item} + Some1(0) + Foot(sub), item, Array(k))
    ensures m[item].node.kind.IsObject? ==> Looks(m, {item} + Some1(0) + Foot(sub), item, Object(k))
  {
    hide LooksChain, Foot;
    assert {item} + Some1(0) + Foot(sub) - {item} == Foot(sub);
  }

  /** The children hang from the item. */
  lemma {:induction false} ChainAdded(m: Cells, mid: Cells, m': Cells, item: nat, child: nat, sub: Chain)
    requires IsNode(m, item) && Empty(m[item].node) && child !in m && child != 0
    requires IsNode(mid, item) && mid[item].node.child == child
    requires mid[item].node == m[item].node.(kind := mid[item].node.kind, child := child)
    requires mid == m[child := Block(BLANK)][item := mid[item]]
    requires Strung(mid, m', child, 0, sub)
    ensures Built(m, m', item, 0, sub) && m'[item] == mid[item] && IsNode(m', item) && item !in Foot(sub)
    ensures sub.p == child
  {
    hide Distinct;
    UnfoldFoot(sub);
    FootNotNull(sub);
    assert sub.p == child;
    assert mid.Keys == m.Keys + {child};
    assert m'[item] == mid[item];
    assert m'.Keys == m.Keys + Foot(sub);
    forall a | a in Foot(sub)
      ensures a !in m
    {
      assert a == child || a in Foot(sub) - {child};
    }
  }

  /** One parsed node is a chain on its own. */
  lemma {:induction false} LastLink(m: Cells, m': Cells, child: nat, prev: nat, vs: nat, sub: Chain)
    requires IsNode(m, child) && m[child].node == BLANK.(prev := prev)
    requires Built(m, m', child, vs, sub)
    ensures Strung(m, m', child, prev, Link(child, vs, 0, sub, End))
    ensures IsNode(m', child) && m'[child].node.name == 0 && m'[child].node.next == 0
  {
    UnfoldFoot(Link(child, vs, 0, sub, End));
    EmptyFoot();
    FootNotNull(sub);
  }

  /** A name has been read into the string of a new node. */
  lemma {:induction false} NameParsed(m: Cells, m': Cells, child: nat, prev: nat, nm: nat)
    requires IsNode(m, child) && m[child].node == BLANK.(prev := prev) && IsNode(m', child)
    requires Grew(m, m', child, Some1(nm)) && (nm != 0 ==> IsChars(m', nm))
    requires m'[child].node == m[child].node.(valuestring := nm, kind := m'[child].node.kind)
    ensures Strung(m, m', child, prev, Link(child, nm, 0, End, End))
  {
    UnfoldFoot(Link(child, nm, 0, End, End));
    EmptyFoot();
  }

  /** The string has become the name. */
  lemma {:induction false} NameMoved(m: Cells, m': Cells, child: nat, prev: nat, nm: nat)
    requires IsNode(m, child) && m[child].node == BLANK.(prev := prev) && IsNode(m', child)
    requires nm != 0 && Grew(m, m', child, Some1(nm)) && IsChars(m', nm)
    requires m'[child].node == m[child].node.(name := nm, kind := m'[child].node.kind)
    ensures Strung(m, m', child, prev, Link(child, 0, nm, End, End))
  {
    UnfoldFoot(Link(child, 0, nm, End, End));
    EmptyFoot();
  }

  /** A value has been parsed into a named node. */
  lemma {:induction false} NamedLink(m: Cells, named: Cells, m': Cells, child: nat, prev: nat, nm: nat, vs: nat, sub: Chain)
    requires IsNode(m, child) && m[child].node == BLANK.(prev := prev) && IsNode(named, child)
    requires nm != 0 && Grew(m, named, child, Some1(nm)) && IsChars(named, nm)
    requires named[child].node == m[child].node.(name := nm, kind := named[child].node.kind)
    requires Built(named, m', child, vs, sub)
    ensures Strung(m, m', child, prev, Link(child, vs, nm, sub, End))
    ensures IsNode(m', child) && m'[child].node.name == nm && m'[child].node.next == 0
    ensures LooksName(m', Foot(Link(child, vs, nm, sub, End)), nm, Some(named[nm].s))
  {
    var ch := Link(child, vs, nm, sub, End);
    UnfoldFoot(ch);
    EmptyFoot();
    FootNotNull(sub);
    assert nm in named && nm != child;
    assert m'[nm] == named[nm];
    assert nm !in Foot(sub) && nm != vs;
  }

  /** A node linked in front of a new one. */
  ghost predicate LinkedIn(m: Cells, m': Cells, child: nat, new_item: nat) {
    && IsNode(m, child) && new_item != 0 && new_item !in m
    && m' == m[child := Block(m[child].node.(next := new_item))][new_item := Block(BLANK.(prev := child))]
  }

  lemma {:induction false} MoreSame(one: Cells, mid: Cells, m': Cells, p: nat, new_item: nat, rest: Chain)
    requires LinkedIn(one, mid, p, new_item) && Strung(mid, m', new_item, p, rest)
    ensures rest.p == new_item && Foot(rest) !! one.Keys
    ensures m'.Keys == one.Keys + Foot(rest)
    ensures forall a :: a in one && a != p ==> m'[a] == one[a]
    ensures m'[p] == Block(one[p].node.(next := new_item))
  {
    hide Distinct;
    UnfoldFoot(rest);
    assert mid.Keys == one.Keys + {new_item};
    assert m'[p] == mid[p];
    forall a | a in Foot(rest)
      ensures a !in one
    {
      assert a == new_item || a in Foot(rest) - {new_item};
    }
  }

  lemma {:induction false} MoreLinks(m: Cells, one: Cells, mid: Cells, m': Cells, prev: nat, c: Chain, new_item: nat, rest: Chain)
    requires c.Link? && c.rest.End? && Strung(m, one, c.p, prev, c)
    requires LinkedIn(one, mid, c.p, new_item) && Strung(mid, m', new_item, c.p, rest)
    ensures Strung(m, m', c.p, prev, c.(rest := rest))
    ensures SameOn(one, m', Some1(c.vs) + Some1(c.nm) + Foot(c.sub))
    ensures IsNode(m', c.p) && m'[c.p].node == one[c.p].node.(next := rest.p)
  {
    var ch := c.(rest := rest);
    MoreSame(one, mid, m', c.p, new_item, rest);
    FootAllocated(one, c, c.p, prev);
    Separate(c);
    EmptyFoot();
    MoreDistinct(c, rest);
    MoreOwns(one, m', prev, c, new_item, rest);
    hide Owns, Distinct;
    UnfoldFoot(c);
    UnfoldFoot(ch);
    assert Foot(ch) - {c.p} == (Foot(c) - {c.p}) + Foot(rest);
  }

  lemma {:induction false} MoreOwns(one: Cells, m': Cells, prev: nat, c: Chain, new_item: nat, rest: Chain)
    requires c.Link? && c.rest.End? && Owns(one, c, c.p, prev) && Distinct(c)
    requires Foot(c) <= one.Keys <= m'.Keys && new_item != 0
    requires forall a :: a in one && a != c.p ==> m'[a] == one[a]
    requires m'[c.p] == Block(one[c.p].node.(next := new_item)) && Owns(m', rest, new_item, c.p)
    ensures Owns(m', c.(rest := rest), c.p, prev)
  {
    UnfoldFoot(c);
    Separate(c);
    if !one[c.p].node.isReference {
      FrameOwns(one, m', c.sub, one[c.p].node.child, 0);
    }
  }

  lemma {:induction false} MoreDistinct(c: Chain, rest: Chain)
    requires c.Link? && c.rest.End? && Distinct(c) && Distinct(rest) && Foot(c) !! Foot(rest)
    ensures Distinct(c.(rest := rest))
  {
    UnfoldFoot(c);
    FootNotNull(rest);
  }

  /** What a program sees from the first node of a chain on. */
  lemma {:induction false} LinkLooks(one: Cells, m: Cells, ch: Chain, name: Option<text>, v: Json, k: Kids)
    requires ch.Link? && Distinct(ch) && ch.p in m && ch.p in one
    requires Looks(one, {ch.p} + Some1(ch.vs) + Foot(ch.sub), ch.p, v)
    requires SameOn(one, m, Some1(ch.vs) + Foot(ch.sub)) && SameButLinks(one[ch.p], m[ch.p])
    requires LooksName(m, Foot(ch), m[ch.p].node.name, name)
    requires LooksChain(m, Foot(ch.rest), m[ch.p].node.next, k)
    ensures LooksChain(m, Foot(ch), ch.p, Cons(name, v, k))
  {
    hide Looks;
    UnfoldFoot(ch);
    FrameLooks(one, m, {ch.p} + Some1(ch.vs) + Foot(ch.sub), Foot(ch), ch.p, v);
    Separate(ch);
    FrameLooksChain(m, m, Foot(ch.rest), Foot(ch) - {ch.p}, m[ch.p].node.next, k);
    assert IsNode(m, ch.p) by { LooksNode(m, Foot(ch), ch.p, v); }
  }

  lemma {:induction false} LastLooks(m: Cells, ch: Chain, name: Option<text>, v: Json)
    requires ch.Link? && ch.rest.End? && Distinct(ch) && IsNode(m, ch.p) && m[ch.p].node.next == 0
    requires Looks(m, {ch.p} + Some1(ch.vs) + Foot(ch.sub), ch.p, v)
    requires LooksName(m, Foot(ch), m[ch.p].node.name, name)
    ensures LooksChain(m, Foot(ch), ch.p, Cons(name, v, Nil))
  {
    LinkLooks(m, m, ch, name, v, Nil);
  }

  lemma {:induction false} MoreLooks(one: Cells, m: Cells, c: Chain, rest: Chain, name: Option<text>, v: Json,
                                     s: text, i: nat, end: Option<nat>, p: Option<Parsed<Kids>>, denied: bool)
    requires c.Link? && c.rest.End? && rest.Link? && Distinct(c.(rest := rest))
    requires IsNode(one, c.p) && Looks(one, {c.p} + Some1(c.vs) + Foot(c.sub), c.p, v)
    requires LooksName(one, Foot(c), one[c.p].node.name, name) && (name.Some? ==> one[c.p].node.name == c.nm)
    requires SameOn(one, m, Some1(c.vs) + Some1(c.nm) + Foot(c.sub))
    requires IsNode(m, c.p) && m[c.p].node == one[c.p].node.(next := rest.p)
    requires TellsChain(m, rest, s, i, end, p, denied)
    ensures end.Some? ==> LooksChain(m, Foot(c.(rest := rest)), c.p, Cons(name, v, p.value.value))
  {
    hide Looks, LooksChain, Distinct;
    var ch := c.(rest := rest);
    UnfoldFoot(c);
    UnfoldFoot(ch);
    assert LooksName(m, Foot(ch), m[c.p].node.name, name);
    if end.Some? {
      LinkLooks(one, m, ch, name, v, p.value.value);
    }
  }

  /** The root of a parse is a chain of one node. */
  lemma {:induction false} RootIs(m: Cells, base: Cells, m': Cells, root: nat, ch: Chain)
    requires root != 0 && root !in m && base == m[root := Block(BLANK)] && Strung(base, m', root, 0, ch)
    ensures m.Keys !! Foot(ch) && m'.Keys == m.Keys + Foot(ch) && SameOn(m, m', m.Keys)
    ensures m' - Foot(ch) == m && Owns(m', ch, root, 0) && Distinct(ch)
  {
    UnfoldFoot(ch);
    assert base.Keys == m.Keys + {root};
    forall a | a in Foot(ch)
      ensures a !in m
    {
      assert a == root || a in Foot(ch) - {root};
    }
  }

  lemma {:induction false} RootLooks(m: Cells, ch: Chain, t: Json)
    requires ch.Link? && Distinct(ch) && ch.nm == 0 && ch.rest.End? && Looks(m, {ch.p} + Some1(ch.vs) + Foot(ch.sub), ch.p, t)
    ensures Looks(m, Foot(ch), ch.p, t)
  {
    hide Looks;
    UnfoldFoot(ch);
    EmptyFoot();
    assert Foot(ch) == {ch.p} + Some1(ch.vs) + Foot(ch.sub);
  }

  lemma {:induction false} ParseIs(s: text, j: nat)
    requires Skips(s, 0, j)
    ensures ParseValue(s[j..]).None? ==> Parse(s, true).None? && Parse(s, false).None?
    ensures Parse(s, false) == ParseValue(s[j..])
  {
    hide ParseValue, Skip;
    assert s[0..] == s;
  }

  lemma {:induction false} ParseToEnd(s: text, j: nat, e: nat, end: nat)
    requires NulFree(s)
    requires Skips(s, 0, j) && ParseValue(s[j..]).Some? && e <= |s| && ParseValue(s[j..]).value.rest == s[e..]
    requires Skips(s, e, end)
    ensures At(s, end) == 0 <==> end == |s|
    ensures Parse(s, true) == if end == |s| then Some(Parsed(ParseValue(s[j..]).value.value, [])) else None
  {
    hide ParseValue, Skip;
    assert s[0..] == s;
    assert end == |s| <==> s[end..] == [];
  }
}
