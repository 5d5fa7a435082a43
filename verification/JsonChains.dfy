/**
 What an edit of a list of children does to ownership: the chain that an array
 owns gets a link, loses one, or has one exchanged, and every other link keeps
 its strings and its own children.
 */
module JsonChains {
  import opened CString
  import opened JsonCells

  /** The array at `a` owns its children `sub`, and is none of them. */
  ghost predicate ArrayOwns(m: Cells, a: nat, sub: Chain) {
    && 0 !in m && IsNode(m, a) && !m[a].node.isReference && a !in Foot(sub)
    && Owns(m, sub, m[a].node.child, 0) && Distinct(sub)
  }

  /** The node `p` stands alone and owns `x`. */
  ghost predicate ItemOwns(m: Cells, p: nat, x: Chain) {
    x.Link? && x.rest.End? && x.p == p && Owns(m, x, p, 0) && Distinct(x)
  }

  /** The nodes of a chain of siblings. */
  ghost function Tops(c: Chain): seq<nat> {
    if c.End? then [] else [c.p] + Tops(c.rest)
  }

  ghost function PutLink(c: Chain, k: nat, x: Chain): Chain
    requires x.Link? && k <= |Tops(c)|
  {
    if k == 0 then x.(rest := c) else c.(rest := PutLink(c.rest, k - 1, x))
  }

  ghost function DropLink(c: Chain, k: nat): Chain
    requires k < |Tops(c)|
  {
    if k == 0 then c.rest else c.(rest := DropLink(c.rest, k - 1))
  }

  /** The link at `k` on its own. */
  ghost function LinkAt(c: Chain, k: nat): Chain
    requires k < |Tops(c)|
  {
    if k == 0 then c.(rest := End) else LinkAt(c.rest, k - 1)
  }

  /** Wherever the array owned its children and the item stood alone, the item is now owned as child `k`. */
  ghost predicate Adopts(m: Cells, m': Cells, a: nat, item: nat, k: nat) {
    forall sub: Chain, x: Chain {:trigger ArrayOwns(m, a, sub), ItemOwns(m, item, x)} ::
      ArrayOwns(m, a, sub) && ItemOwns(m, item, x) && Foot(sub) !! Foot(x) && a !in Foot(x) ==>
        k <= |Tops(sub)| && ArrayOwns(m', a, PutLink(sub, k, x))
  }

  /** Wherever the array owned its children, child `k` now stands alone and the others are owned. */
  ghost predicate Releases(m: Cells, m': Cells, a: nat, k: nat) {
    forall sub: Chain {:trigger ArrayOwns(m, a, sub)} ::
      ArrayOwns(m, a, sub) ==>
        && k < |Tops(sub)| && ArrayOwns(m', a, DropLink(sub, k))
        && ItemOwns(m', Tops(sub)[k], LinkAt(sub, k))
  }

  /** The item is now owned in the place of the child that owned `ch`. */
  ghost predicate Exchanges(m: Cells, m': Cells, a: nat, item: nat, k: nat, ch: Chain) {
    forall sub: Chain, x: Chain {:trigger ArrayOwns(m, a, sub), ItemOwns(m, item, x)} ::
      ArrayOwns(m, a, sub) && ItemOwns(m, item, x) && Foot(sub) !! Foot(x) && a !in Foot(x)
      && k < |Tops(sub)| && LinkAt(sub, k) == ch ==>
        k <= |Tops(DropLink(sub, k))| && ArrayOwns(m', a, PutLink(DropLink(sub, k), k, x))
  }

  // ---------------------------------------------------------------- chains

  lemma {:induction false} TopsInFoot(c: Chain)
    ensures forall a :: a in Tops(c) ==> a in Foot(c)
  {
    if c.Link? {
      UnfoldFoot(c);
      TopsInFoot(c.rest);
    }
  }

  lemma {:induction false} TopsDistinct(c: Chain)
    requires Distinct(c)
    ensures NoRepeats(Tops(c))
  {
    if c.Link? {
      TopsDistinct(c.rest);
      TopsInFoot(c.rest);
    }
  }

  lemma {:induction false} PutTops(c: Chain, k: nat, x: Chain)
    requires x.Link? && x.rest.End? && k <= |Tops(c)|
    ensures Tops(PutLink(c, k, x)) == Inserted(Tops(c), k, x.p) && PutLink(c, k, x).Link?
  {
    if k > 0 {
      PutTops(c.rest, k - 1, x);
    }
  }

  /** Putting a link in adds its cells and no others. */
  lemma {:induction false} PutFoot(c: Chain, k: nat, x: Chain)
    requires x.Link? && x.rest.End? && k <= |Tops(c)| && Distinct(c) && Distinct(x) && Foot(c) !! Foot(x)
    ensures Foot(PutLink(c, k, x)) == Foot(c) + Foot(x) && Distinct(PutLink(c, k, x))
  {
    UnfoldFoot(PutLink(c, k, x));
    FootNotNull(c);
    FootNotNull(x);
    UnfoldFoot(x);
    EmptyFoot();
    if k > 0 {
      UnfoldFoot(c);
      PutFoot(c.rest, k - 1, x);
    }
  }

  lemma {:induction false} DropTops(c: Chain, k: nat)
    requires k < |Tops(c)|
    ensures Tops(DropLink(c, k)) == Removed(Tops(c), k)
    ensures LinkAt(c, k).Link? && LinkAt(c, k).rest.End? && LinkAt(c, k).p == Tops(c)[k]
  {
    if k > 0 {
      DropTops(c.rest, k - 1);
    }
  }

  /** A link that is taken out and the chain that is left share the cells between them. */
  lemma {:induction false} DropFoot(c: Chain, k: nat)
    requires k < |Tops(c)| && Distinct(c)
    ensures Foot(c) == Foot(DropLink(c, k)) + Foot(LinkAt(c, k)) && Foot(DropLink(c, k)) !! Foot(LinkAt(c, k))
    ensures Distinct(DropLink(c, k)) && Distinct(LinkAt(c, k))
  {
    Separate(c);
    if k == 0 {
      FirstAlone(c);
    } else {
      DropFoot(c.rest, k - 1);
      var left, x := DropLink(c.rest, k - 1), LinkAt(c.rest, k - 1);
      assert DropLink(c, k) == c.(rest := left) && LinkAt(c, k) == x;
      hide Foot, Distinct, OwnFoot;
      WithRest(c, left);
    }
  }

  lemma {:induction false} FirstAlone(c: Chain)
    requires c.Link? && Distinct(c)
    ensures Foot(c.(rest := End)) == OwnFoot(c) && Distinct(c.(rest := End))
  {
    UnfoldFoot(c.(rest := End));
    EmptyFoot();
    FootNotNull(c);
  }

  /** The first link in front of fewer siblings. */
  lemma {:induction false} WithRest(c: Chain, rest: Chain)
    requires c.Link? && Distinct(c) && Distinct(rest) && Foot(rest) <= Foot(c.rest)
    ensures Foot(c.(rest := rest)) == OwnFoot(c) + Foot(rest) && Distinct(c.(rest := rest))
  {
    UnfoldFoot(c.(rest := rest));
  }

  // ---------------------------------------------------------------- ownership without the links

  /** Every node of the chain owns its strings and its children. */
  ghost predicate Parts(m: Cells, c: Chain) {
    c.Link? ==> OwnsNode(m, c.p, c.vs, c.nm) && OwnsKids(m, c) && Parts(m, c.rest)
  }

  ghost predicate OwnsKids(m: Cells, c: Chain)
    requires c.Link? && IsNode(m, c.p)
  {
    if m[c.p].node.isReference then c.sub.End? else Owns(m, c.sub, m[c.p].node.child, 0)
  }

  lemma {:induction false} OwnsParts(m: Cells, c: Chain, head: nat, prev: nat)
    requires Owns(m, c, head, prev)
    ensures Parts(m, c)
  {
    if c.Link? {
      OwnsParts(m, c.rest, m[c.p].node.next, c.p);
    }
  }

  lemma {:induction false} PutParts(m: Cells, c: Chain, k: nat, x: Chain)
    requires x.Link? && k <= |Tops(c)| && Parts(m, c) && Parts(m, x)
    ensures Parts(m, PutLink(c, k, x))
  {
    if k > 0 {
      PutParts(m, c.rest, k - 1, x);
    }
  }

  lemma {:induction false} DropParts(m: Cells, c: Chain, k: nat)
    requires k < |Tops(c)| && Parts(m, c)
    ensures Parts(m, DropLink(c, k)) && Parts(m, LinkAt(c, k))
  {
    if k > 0 {
      DropParts(m, c.rest, k - 1);
    }
  }

  /** The siblings may have been linked anew; nothing else of the chain has changed. */
  ghost predicate Regrouped(m: Cells, m': Cells, c: Chain) {
    forall a :: a in Foot(c) ==>
      a in m && a in m' && if a in Tops(c) then SameExceptLinks(m[a], m'[a], false) else m'[a] == m[a]
  }

  lemma {:induction false} FrameParts(m: Cells, m': Cells, c: Chain)
    requires Parts(m, c) && Distinct(c) && Regrouped(m, m', c)
    ensures Parts(m', c)
  {
    if c.Link? {
      UnfoldFoot(c);
      Separate(c);
      TopsInFoot(c.rest);
      assert c.p in Tops(c);
      assert forall a :: a in Foot(c.rest) ==> (a in Tops(c) <==> a in Tops(c.rest));
      FrameParts(m, m', c.rest);
      FrameHead(m, m', c);
    }
  }

  lemma {:induction false} FrameHead(m: Cells, m': Cells, c: Chain)
    requires c.Link? && Distinct(c) && OwnsNode(m, c.p, c.vs, c.nm) && OwnsKids(m, c) && Regrouped(m, m', c)
    ensures OwnsNode(m', c.p, c.vs, c.nm) && OwnsKids(m', c)
  {
    UnfoldFoot(c);
    Separate(c);
    TopsInFoot(c.rest);
    assert c.p in Tops(c);
    assert forall a :: a in Some1(c.vs) + Some1(c.nm) + Foot(c.sub) ==> a !in Tops(c);
    if !m[c.p].node.isReference {
      FrameOwns(m, m', c.sub, m[c.p].node.child, 0);
    }
  }

  /** Parts that are linked as a list are a chain that is owned. */
  lemma {:induction false} PartsOwn(m: Cells, c: Chain, head: nat, ps: seq<nat>, i: nat)
    requires Parts(m, c) && Linked(m, head, ps) && i <= |ps| && Tops(c) == ps[i..]
    ensures Owns(m, c, Nth(ps, i), Nth(ps, i - 1))
  {
    if c.Link? {
      assert c.p == ps[i] && Tops(c.rest) == ps[i + 1..];
      LinkedAt(m, head, ps, i);
      PartsOwn(m, c.rest, head, ps, i + 1);
    }
  }

  /** A chain that is owned is a list of its nodes: both describe the same children. */
  lemma {:induction false} TopsLinked(m: Cells, c: Chain, prev: nat, head: nat, ps: seq<nat>, i: nat)
    requires 0 !in m && Linked(m, head, ps) && i <= |ps| && Owns(m, c, Nth(ps, i), prev)
    ensures Tops(c) == ps[i..]
  {
    if i < |ps| {
      LinkedAt(m, head, ps, i);
      TopsLinked(m, c.rest, c.p, head, ps, i + 1);
    }
  }

  lemma {:induction false} TopsAt(m: Cells, c: Chain, head: nat, prev: nat, i: nat)
    requires Owns(m, c, head, prev) && i < |Tops(c)|
    ensures head == Tops(c)[0] && IsNode(m, Tops(c)[i]) && m[Tops(c)[i]].node.next == Nth(Tops(c), i + 1)
    ensures m[Tops(c)[i]].node.prev == if i == 0 then prev else Tops(c)[i - 1]
  {
    if i > 0 {
      TopsAt(m, c.rest, m[c.p].node.next, c.p, i - 1);
    } else if c.rest.Link? {
      TopsAt(m, c.rest, m[c.p].node.next, c.p, 0);
    }
  }

  lemma {:induction false} ArrayLinked(m: Cells, a: nat, sub: Chain)
    requires ArrayOwns(m, a, sub)
    ensures HasChildren(m, a, Tops(sub))
  {
    hide Linked;
    var ps := Tops(sub);
    TopsDistinct(sub);
    TopsInFoot(sub);
    forall i | 0 <= i < |ps| ensures NodeLinked(m, ps, i) {
      TopsAt(m, sub, m[a].node.child, 0, i);
    }
    if |ps| > 0 {
      TopsAt(m, sub, m[a].node.child, 0, 0);
    }
    MakeLinked(m, a, ps);
  }

  lemma {:induction false} SameTops(m: Cells, a: nat, sub: Chain, ps: seq<nat>)
    requires ArrayOwns(m, a, sub) && HasChildren(m, a, ps)
    ensures Tops(sub) == ps
  {
    TopsLinked(m, sub, 0, m[a].node.child, ps, 0);
    assert ps[0..] == ps;
  }

  /** The array owns `c` once its nodes are its children and nothing but links has changed. */
  lemma {:induction false} NowOwns(m: Cells, m': Cells, a: nat, c: Chain)
    requires IsNode(m, a) && !m[a].node.isReference && Parts(m, c) && Distinct(c) && a !in Foot(c)
    requires Regrouped(m, m', c) && HasChildren(m', a, Tops(c)) && SameExceptLinks(m[a], m'[a], true)
    ensures ArrayOwns(m', a, c)
  {
    hide Linked, Foot, Distinct, Regrouped;
    FrameParts(m, m', c);
    PartsOwn(m', c, m'[a].node.child, Tops(c), 0);
    ChildFacts(m', a, Tops(c), 0);
  }

  // ---------------------------------------------------------------- edits

  /** Only links of siblings in `c`, and the array, have changed. */
  lemma {:induction false} RelinkedRegroups(m: Cells, m': Cells, a: nat, changed: set<nat>, c: Chain)
    requires Relinked(m, m', a, changed) && 0 !in m && a in changed && a in m && a !in Foot(c) && Foot(c) <= m.Keys
    requires forall b :: b in changed ==> b == a || b == 0 || b in Tops(c) || b !in Foot(c)
    ensures forall b :: b in Tops(c) ==> b in Foot(c)
    ensures (forall b :: b in Tops(c) ==> m[b].Block?) ==> Regrouped(m, m', c)
    ensures SameExceptLinks(m[a], m'[a], true)
  {
    TopsInFoot(c);
    hide Foot, Tops;
  }

  lemma {:induction false} PartsBlocks(m: Cells, c: Chain)
    requires Parts(m, c)
    ensures forall b :: b in Tops(c) ==> b in m && m[b].Block?
  {
    if c.Link? {
      PartsBlocks(m, c.rest);
    }
  }

  lemma {:induction false} PartsAllocated(m: Cells, c: Chain)
    requires Parts(m, c)
    ensures Foot(c) <= m.Keys
  {
    if c.Link? {
      UnfoldFoot(c);
      PartsAllocated(m, c.rest);
      if m[c.p].node.isReference {
        EmptyFoot();
      } else {
        FootAllocated(m, c.sub, m[c.p].node.child, 0);
      }
    }
  }

  lemma {:induction false} InsertedOwns(m: Cells, m': Cells, a: nat, item: nat, ps: seq<nat>, k: nat)
    requires HasChildren(m, a, ps) && k <= |ps| && HasChildren(m', a, Inserted(ps, k, item))
    requires Relinked(m, m', a, {item, Nth(ps, k), Nth(ps, k - 1), a})
    ensures Adopts(m, m', a, item, k)
  {
    hide ArrayOwns, Relinked, HasChildren, Foot, Tops, Owns, Distinct, PutLink, DropLink, LinkAt;
    forall sub: Chain, x: Chain | ArrayOwns(m, a, sub) && ItemOwns(m, item, x) && Foot(sub) !! Foot(x) && a !in Foot(x)
      ensures k <= |Tops(sub)| && ArrayOwns(m', a, PutLink(sub, k, x))
    {
      SameTops(m, a, sub, ps);
      OneInserted(m, m', a, sub, x, k);
    }
  }

  lemma {:induction false} OneInserted(m: Cells, m': Cells, a: nat, sub: Chain, x: Chain, k: nat)
    requires ArrayOwns(m, a, sub) && x.Link? && ItemOwns(m, x.p, x) && Foot(sub) !! Foot(x) && a !in Foot(x)
    requires k <= |Tops(sub)| && HasChildren(m', a, Inserted(Tops(sub), k, x.p))
    requires Relinked(m, m', a, {x.p, Nth(Tops(sub), k), Nth(Tops(sub), k - 1), a})
    ensures ArrayOwns(m', a, PutLink(sub, k, x))
  {
    OwnsParts(m, sub, m[a].node.child, 0);
    OwnsParts(m, x, x.p, 0);
    hide Foot, Tops, Relinked, HasChildren, Parts, PutLink, Owns, Distinct, Regrouped;
    OnePut(m, m', a, sub, x, k);
  }

  lemma {:induction false} OnePut(m: Cells, m': Cells, a: nat, left: Chain, x: Chain, k: nat)
    requires 0 !in m && IsNode(m, a) && !m[a].node.isReference && Parts(m, left) && Distinct(left) && a !in Foot(left)
    requires x.Link? && x.rest.End? && Parts(m, x) && Distinct(x) && a !in Foot(x) && Foot(left) !! Foot(x)
    requires k <= |Tops(left)| && HasChildren(m', a, Inserted(Tops(left), k, x.p))
    requires Relinked(m, m', a, {x.p, Nth(Tops(left), k), Nth(Tops(left), k - 1), a})
    ensures ArrayOwns(m', a, PutLink(left, k, x))
  {
    hide Foot, Tops, Relinked, HasChildren, Parts, PutLink, Owns, Distinct, Regrouped, ArrayOwns;
    PutFoot(left, k, x);
    PutTops(left, k, x);
    PutParts(m, left, k, x);
    InsertedNear(Tops(left), k, x.p);
    PartLeft(m, m', a, {x.p, Nth(Tops(left), k), Nth(Tops(left), k - 1), a}, PutLink(left, k, x));
  }

  lemma {:induction false} InsertedNear(ps: seq<nat>, k: nat, x: nat)
    requires k <= |ps|
    ensures forall b :: b in {x, Nth(ps, k), Nth(ps, k - 1)} ==> b == 0 || b in Inserted(ps, k, x)
  {
    var qs := Inserted(ps, k, x);
    assert qs[k] == x;
    assert k < |ps| ==> qs[k + 1] == ps[k];
    assert k > 0 ==> qs[k - 1] == ps[k - 1];
  }

  lemma {:induction false} DetachedOwns(m: Cells, m': Cells, a: nat, ps: seq<nat>, k: nat)
    requires HasChildren(m, a, ps) && k < |ps| && HasChildren(m', a, Removed(ps, k)) && Detached(m', a, ps[k], Removed(ps, k))
    requires Relinked(m, m', a, {ps[k], Nth(ps, k - 1), Nth(ps, k + 1), a})
    ensures Releases(m, m', a, k)
  {
    hide ArrayOwns, ItemOwns, Relinked, HasChildren, Foot, Tops, Detached, DropLink, LinkAt;
    forall sub: Chain | ArrayOwns(m, a, sub)
      ensures k < |Tops(sub)| && ArrayOwns(m', a, DropLink(sub, k)) && ItemOwns(m', Tops(sub)[k], LinkAt(sub, k))
    {
      SameTops(m, a, sub, ps);
      OneDetached(m, m', a, sub, k);
    }
  }

  lemma {:induction false} OneDetached(m: Cells, m': Cells, a: nat, sub: Chain, k: nat)
    requires ArrayOwns(m, a, sub) && k < |Tops(sub)|
    requires HasChildren(m', a, Removed(Tops(sub), k)) && Detached(m', a, Tops(sub)[k], Removed(Tops(sub), k))
    requires Relinked(m, m', a, {Tops(sub)[k], Nth(Tops(sub), k - 1), Nth(Tops(sub), k + 1), a})
    ensures ArrayOwns(m', a, DropLink(sub, k)) && ItemOwns(m', Tops(sub)[k], LinkAt(sub, k))
  {
    var c, x, changed := DropLink(sub, k), LinkAt(sub, k), {Tops(sub)[k], Nth(Tops(sub), k - 1), Nth(Tops(sub), k + 1), a};
    OwnsParts(m, sub, m[a].node.child, 0);
    hide Foot, Tops, Relinked, HasChildren, Parts, DropLink, LinkAt, Owns, Distinct;
    DropFoot(sub, k);
    DropTops(sub, k);
    DropParts(m, sub, k);
    RemovedNear(Tops(sub), k);
    OneTop(x);
    NearTops(c, x, changed, a);
    PartLeft(m, m', a, changed, c);
    PartGone(m, m', a, changed, x);
  }

  /** A changed cell is a sibling that is left, the one taken out, the array, or null. */
  lemma {:induction false} NearTops(c: Chain, x: Chain, changed: set<nat>, a: nat)
    requires x.Link? && Tops(x) == [x.p] && x.p in Foot(x) && Foot(c) !! Foot(x)
    requires forall b :: b in changed ==> b == a || b == 0 || b in Tops(c) || b == x.p
    ensures forall b :: b in changed ==> b == a || b == 0 || b in Tops(c) || b !in Foot(c)
    ensures forall b :: b in changed ==> b == a || b == 0 || b in Tops(x) || b !in Foot(x)
  {
    TopsInFoot(c);
    hide Foot, Tops;
  }

  lemma {:induction false} PartLeft(m: Cells, m': Cells, a: nat, changed: set<nat>, c: Chain)
    requires 0 !in m && IsNode(m, a) && !m[a].node.isReference && Parts(m, c) && Distinct(c) && a !in Foot(c)
    requires HasChildren(m', a, Tops(c)) && Relinked(m, m', a, changed) && a in changed
    requires forall b :: b in changed ==> b == a || b == 0 || b in Tops(c) || b !in Foot(c)
    ensures ArrayOwns(m', a, c)
  {
    hide Foot, Tops, Relinked, HasChildren, Parts, Owns, Distinct, Regrouped, ArrayOwns;
    PartsAllocated(m, c);
    PartsBlocks(m, c);
    RelinkedRegroups(m, m', a, changed, c);
    NowOwns(m, m', a, c);
  }

  lemma {:induction false} PartGone(m: Cells, m': Cells, a: nat, changed: set<nat>, x: Chain)
    requires 0 !in m && a in m && x.Link? && x.rest.End? && Parts(m, x) && Distinct(x) && a !in Foot(x)
    requires IsNode(m', x.p) && m'[x.p].node.next == 0 && m'[x.p].node.prev == 0
    requires Relinked(m, m', a, changed) && a in changed
    requires forall b :: b in changed ==> b == a || b == 0 || b in Tops(x) || b !in Foot(x)
    ensures ItemOwns(m', x.p, x)
  {
    hide Foot, Tops, Relinked, HasChildren, Parts, Owns, Distinct, Regrouped, ItemOwns;
    PartsAllocated(m, x);
    PartsBlocks(m, x);
    RelinkedRegroups(m, m', a, changed, x);
    NowAlone(m, m', x);
  }

  lemma {:induction false} OneTop(x: Chain)
    requires x.Link? && x.rest.End?
    ensures Tops(x) == [x.p] && x.p in Foot(x)
  {
    UnfoldFoot(x);
  }

  lemma {:induction false} RemovedNear(ps: seq<nat>, k: nat)
    requires k < |ps|
    ensures forall b :: b in {Nth(ps, k - 1), Nth(ps, k + 1)} ==> b == 0 || b in Removed(ps, k)
  {
    var qs := Removed(ps, k);
    assert k + 1 < |ps| ==> qs[k] == ps[k + 1];
    assert k > 0 ==> qs[k - 1] == ps[k - 1];
  }

  /** A node with its links cleared stands alone. */
  lemma {:induction false} NowAlone(m: Cells, m': Cells, x: Chain)
    requires x.Link? && x.rest.End? && Distinct(x) && Parts(m, x) && Regrouped(m, m', x)
    requires IsNode(m', x.p) && m'[x.p].node.next == 0 && m'[x.p].node.prev == 0
    ensures ItemOwns(m', x.p, x)
  {
    hide Distinct, Regrouped, Foot;
    FrameParts(m, m', x);
    assert Owns(m', x.rest, 0, x.p);
  }

  lemma {:induction false} ExchangedOwns(m: Cells, m': Cells, a: nat, item: nat, ps: seq<nat>, k: nat, ch: Chain)
    requires HasChildren(m, a, ps) && k < |ps| && HasChildren(m', a, ps[k := item]) && a !in Foot(ch)
    requires Relinked(m - Foot(ch), m', a, {item, Nth(ps, k - 1), Nth(ps, k + 1), a})
    ensures Exchanges(m, m', a, item, k, ch)
  {
    hide ArrayOwns, Relinked, HasChildren, Foot, Tops, Owns, Distinct, PutLink, DropLink, LinkAt;
    forall sub: Chain, x: Chain | ArrayOwns(m, a, sub) && ItemOwns(m, item, x) && Foot(sub) !! Foot(x) && a !in Foot(x)
                                  && k < |Tops(sub)| && LinkAt(sub, k) == ch
      ensures k <= |Tops(DropLink(sub, k))| && ArrayOwns(m', a, PutLink(DropLink(sub, k), k, x))
    {
      SameTops(m, a, sub, ps);
      OneExchanged(m, m', a, sub, x, k);
    }
  }

  lemma {:induction false} OneExchanged(m: Cells, m': Cells, a: nat, sub: Chain, x: Chain, k: nat)
    requires ArrayOwns(m, a, sub) && x.Link? && ItemOwns(m, x.p, x) && Foot(sub) !! Foot(x) && a !in Foot(x)
    requires k < |Tops(sub)| && HasChildren(m', a, Tops(sub)[k := x.p])
    requires Relinked(m - Foot(LinkAt(sub, k)), m', a, {x.p, Nth(Tops(sub), k - 1), Nth(Tops(sub), k + 1), a})
    ensures k <= |Tops(DropLink(sub, k))| && ArrayOwns(m', a, PutLink(DropLink(sub, k), k, x))
  {
    var left, x0 := DropLink(sub, k), LinkAt(sub, k);
    OwnsParts(m, sub, m[a].node.child, 0);
    OwnsParts(m, x, x.p, 0);
    hide Foot, Tops, Relinked, HasChildren, Parts, PutLink, DropLink, LinkAt, Owns, Distinct, Regrouped;
    DropFoot(sub, k);
    DropTops(sub, k);
    DropParts(m, sub, k);
    SparedParts(m, Foot(x0), left);
    SparedParts(m, Foot(x0), x);
    ExchangedTops(Tops(sub), k, x.p);
    OnePut(m - Foot(x0), m', a, left, x, k);
  }

  lemma {:induction false} ExchangedTops(ps: seq<nat>, k: nat, x: nat)
    requires k < |ps|
    ensures Inserted(Removed(ps, k), k, x) == ps[k := x]
    ensures Nth(Removed(ps, k), k) == Nth(ps, k + 1) && Nth(Removed(ps, k), k - 1) == Nth(ps, k - 1)
  {
  }

  /** Freeing cells outside the chain leaves its parts. */
  lemma {:induction false} SparedParts(m: Cells, gone: set<nat>, c: Chain)
    requires Parts(m, c) && Foot(c) !! gone && Distinct(c)
    ensures Parts(m - gone, c) && Foot(c) <= (m - gone).Keys
  {
    PartsAllocated(m, c);
    PartsBlocks(m, c);
    TopsInFoot(c);
    hide Parts, Foot, Distinct, Tops;
    assert forall b :: b in Foot(c) ==> (m - gone)[b] == m[b];
    FrameParts(m, m - gone, c);
  }
}
