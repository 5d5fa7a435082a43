/**
 cJSON nodes in memory (cjson.c): which values a program can read from them, which
 cells a chain of nodes owns, and the lists of children.

 Memory is explicit, so that what is freed, and how often, can be stated: a map from
 addresses to nodes and strings.  Zero is the null pointer.
 */
module JsonCells {
  import opened CString
  import opened JsonTree

  datatype Kind = Invalid | IsNull | IsFalse | IsTrue | IsNumber | IsString | IsArray | IsObject

  datatype Node = Node(next: nat, prev: nat, child: nat, kind: Kind, isReference: bool, stringIsConst: bool,
                       valuestring: nat, valuedouble: real, name: nat)

  const BLANK: Node := Node(0, 0, 0, Invalid, false, false, 0, 0.0, 0)

  datatype Cell = Block(node: Node) | Chars(s: text)

  type Cells = map<nat, Cell>

  ghost predicate IsNode(m: Cells, p: nat) {
    p != 0 && p in m && m[p].Block?
  }

  ghost predicate IsChars(m: Cells, p: nat) {
    p != 0 && p in m && m[p].Chars?
  }

  ghost predicate SameOn(m: Cells, m': Cells, s: set<nat>) {
    forall a :: a in s && a in m ==> a in m' && m'[a] == m[a]
  }

  // ---------------------------------------------------------------- what a program reads

  /** Reading from the node at `p`, and touching only addresses in `s`, a program sees the value `t`. */
  ghost predicate Looks(m: Cells, s: set<nat>, p: nat, t: Json) {
    && p in s && IsNode(m, p)
    && var n := m[p].node;
       && (if t.String? then n.valuestring in s && IsChars(m, n.valuestring) else n.valuestring == 0)
       && match t
          case Null => n.kind.IsNull? && n.child == 0
          case False => n.kind.IsFalse? && n.child == 0
          case True => n.kind.IsTrue? && n.child == 0
          case Number(d) => n.kind.IsNumber? && n.valuedouble == d && n.child == 0
          case String(v) => n.kind.IsString? && m[n.valuestring].s == v && n.child == 0
          case Array(k) => n.kind.IsArray? && LooksChain(m, s - {p}, n.child, k)
          case Object(k) => n.kind.IsObject? && LooksChain(m, s - {p}, n.child, k)
  }

  ghost predicate LooksChain(m: Cells, s: set<nat>, p: nat, k: Kids) {
    match k
    case Nil => p == 0
    case Cons(name, v, rest) =>
      && Looks(m, s, p, v) && LooksName(m, s, m[p].node.name, name)
      && LooksChain(m, s - {p}, m[p].node.next, rest)
  }

  ghost predicate LooksName(m: Cells, s: set<nat>, q: nat, name: Option<text>) {
    match name
    case None => q == 0
    case Some(v) => q in s && IsChars(m, q) && m[q].s == v
  }

  ghost predicate SameButLinks(c: Cell, c': Cell) {
    c.Block? && c'.Block? && c'.node == c.node.(next := c'.node.next, prev := c'.node.prev, name := c'.node.name)
  }

  lemma {:induction false} FrameLooks(m: Cells, m': Cells, s: set<nat>, s': set<nat>, p: nat, t: Json)
    requires Looks(m, s, p, t) && s <= s' && SameOn(m, m', s - {p}) && p in m' && SameButLinks(m[p], m'[p])
    ensures Looks(m', s', p, t)
    decreases t, 0
  {
    match t
    case Array(k) => FrameLooksChain(m, m', s - {p}, s' - {p}, m[p].node.child, k);
    case Object(k) => FrameLooksChain(m, m', s - {p}, s' - {p}, m[p].node.child, k);
    case _ =>
  }

  lemma {:induction false} FrameLooksChain(m: Cells, m': Cells, s: set<nat>, s': set<nat>, p: nat, k: Kids)
    requires LooksChain(m, s, p, k) && s <= s' && SameOn(m, m', s)
    ensures LooksChain(m', s', p, k)
    decreases k, 0
  {
    if k.Cons? {
      FrameLooks(m, m', s, s', p, k.value);
      FrameLooksChain(m, m', s - {p}, s' - {p}, m[p].node.next, k.rest);
    }
  }

  // ---------------------------------------------------------------- who frees what

  /**
   The nodes and strings a chain of siblings owns: for each node its address, the string and
   the name that are freed with it (zero for none), and the chain of its children.
   */
  datatype Chain = End | Link(p: nat, vs: nat, nm: nat, sub: Chain, rest: Chain)

  ghost function Some1(p: nat): set<nat> {
    if p == 0 then {} else {p}
  }

  ghost function Foot(c: Chain): set<nat>
    decreases c, 1
  {
    if c.End? then {} else OwnFoot(c) + Foot(c.rest)
  }

  /** The part of the first node. */
  ghost function OwnFoot(c: Chain): set<nat>
    requires c.Link?
    decreases c, 0
  {
    {c.p} + Some1(c.vs) + Some1(c.nm) + Foot(c.sub)
  }

  lemma {:induction false} UnfoldFoot(c: Chain)
    requires c.Link?
    ensures Foot(c) == {c.p} + Some1(c.vs) + Some1(c.nm) + Foot(c.sub) + Foot(c.rest)
  {
  }

  /** No address occurs twice. */
  ghost predicate Distinct(c: Chain) {
    c.Link? ==>
      && c.p != 0 && c.p != c.vs && c.p != c.nm && (c.vs != 0 ==> c.vs != c.nm)
      && {c.p, c.vs, c.nm} !! Foot(c.sub) && {c.p, c.vs, c.nm} !! Foot(c.rest) && Foot(c.sub) !! Foot(c.rest)
      && Distinct(c.sub) && Distinct(c.rest)
  }

  /** The chain is in memory from `head` on, linked in both directions; a reference owns no children and no string. */
  ghost predicate Owns(m: Cells, c: Chain, head: nat, prev: nat) {
    if c.End? then head == 0
    else
      && head == c.p && OwnsNode(m, c.p, c.vs, c.nm) && m[c.p].node.prev == prev
      && (if m[c.p].node.isReference then c.sub.End? else Owns(m, c.sub, m[c.p].node.child, 0))
      && Owns(m, c.rest, m[c.p].node.next, c.p)
  }

  ghost predicate OwnsNode(m: Cells, p: nat, vs: nat, nm: nat) {
    && IsNode(m, p)
    && vs == (if m[p].node.isReference then 0 else m[p].node.valuestring)
    && nm == (if m[p].node.stringIsConst then 0 else m[p].node.name)
    && (vs != 0 ==> IsChars(m, vs)) && (nm != 0 ==> IsChars(m, nm))
  }

  lemma {:induction false} FootNotNull(c: Chain)
    requires Distinct(c)
    ensures 0 !in Foot(c)
  {
    if c.Link? {
      FootNotNull(c.sub);
      FootNotNull(c.rest);
    }
  }

  lemma {:induction false} FootAllocated(m: Cells, c: Chain, head: nat, prev: nat)
    requires Owns(m, c, head, prev)
    ensures Foot(c) <= m.Keys
  {
    if c.Link? {
      UnfoldFoot(c);
      if !m[c.p].node.isReference {
        FootAllocated(m, c.sub, m[c.p].node.child, 0);
      }
      FootAllocated(m, c.rest, m[c.p].node.next, c.p);
    }
  }

  lemma {:induction false} FrameOwns(m: Cells, m': Cells, c: Chain, head: nat, prev: nat)
    requires Owns(m, c, head, prev) && SameOn(m, m', Foot(c))
    ensures Owns(m', c, head, prev)
  {
    if c.Link? {
      UnfoldFoot(c);
      if !m[c.p].node.isReference {
        FrameOwns(m, m', c.sub, m[c.p].node.child, 0);
      }
      FrameOwns(m, m', c.rest, m[c.p].node.next, c.p);
    }
  }

  /** Deleting what a chain owns leaves every value shown by other cells: what it only refers to stays. */
  lemma {:induction false} DeleteSpares(m: Cells, c: Chain, s: set<nat>, item: nat, t: Json)
    requires Looks(m, s, item, t) && s <= m.Keys && s !! Foot(c)
    ensures Looks(m - Foot(c), s, item, t)
  {
    FrameLooks(m, m - Foot(c), s, s, item, t);
  }
  lemma OwnsNothing(m: Cells)
    ensures Foot(End) == {} && Distinct(End) && Owns(m, End, 0, 0)
  {
  }

  lemma {:induction false} EmptyFoot()
    ensures Foot(End) == {}
  {
  }

  lemma {:induction false} Separate(c: Chain)
    requires c.Link? && Distinct(c)
    ensures Foot(c) == OwnFoot(c) + Foot(c.rest) && OwnFoot(c) !! Foot(c.rest)
    ensures c.p != 0 && c.p != c.vs && c.p != c.nm && (c.vs != 0 ==> c.vs != c.nm)
    ensures c.p !in Foot(c.sub) && c.vs !in Foot(c.sub) && c.nm !in Foot(c.sub)
    ensures Distinct(c.sub) && Distinct(c.rest)
  {
    FootNotNull(c);
  }

  lemma LooksNode(m: Cells, s: set<nat>, p: nat, t: Json)
    requires Looks(m, s, p, t)
    ensures p in s && IsNode(m, p)
  {
  }

  // ---------------------------------------------------------------- child lists

  /** The `i`-th pointer of a list; null outside it. */
  ghost function Nth(ps: seq<nat>, i: int): nat {
    if 0 <= i < |ps| then ps[i] else 0
  }

  ghost function Clamp(which: int, n: nat): nat {
    if which < 0 then 0 else if which > n then n else which
  }

  /** The nodes `ps`, in this order, are a list from `head` on, with `next` and `prev` each other's inverse. */
  ghost predicate Linked(m: Cells, head: nat, ps: seq<nat>) {
    && head == Nth(ps, 0)
    && (forall i :: 0 <= i < |ps| ==> IsNode(m, ps[i]))
    && (forall i {:trigger m[ps[i]]} :: 0 <= i < |ps| ==> m[ps[i]].node.next == Nth(ps, i + 1))
    && (forall i {:trigger m[ps[i]]} :: 0 <= i < |ps| ==> m[ps[i]].node.prev == Nth(ps, i - 1))
    && NoRepeats(ps)
  }

  ghost predicate NoRepeats(ps: seq<nat>) {
    forall i, j :: 0 <= i < j < |ps| ==> ps[i] != ps[j]
  }

  /** The node at index `i` of the list is linked to its neighbours. */
  ghost predicate NodeLinked(m: Cells, ps: seq<nat>, i: nat) {
    && i < |ps| && IsNode(m, ps[i])
    && m[ps[i]].node.next == Nth(ps, i + 1) && m[ps[i]].node.prev == Nth(ps, i - 1)
  }

  lemma {:induction false} MakeLinked(m: Cells, array_: nat, ps: seq<nat>)
    requires 0 !in m && IsNode(m, array_) && array_ !in ps && m[array_].node.child == Nth(ps, 0)
    requires NoRepeats(ps) && forall i :: 0 <= i < |ps| ==> NodeLinked(m, ps, i)
    ensures HasChildren(m, array_, ps)
  {
    hide NoRepeats;
    forall i | 0 <= i < |ps|
      ensures IsNode(m, ps[i]) && m[ps[i]].node.next == Nth(ps, i + 1) && m[ps[i]].node.prev == Nth(ps, i - 1)
    {
      assert NodeLinked(m, ps, i);
    }
  }

  ghost predicate HasChildren(m: Cells, array_: nat, ps: seq<nat>) {
    0 !in m && IsNode(m, array_) && array_ !in ps && Linked(m, m[array_].node.child, ps)
  }

  /** A node on no list. */
  ghost predicate Detached(m: Cells, array_: nat, item: nat, ps: seq<nat>) {
    IsNode(m, item) && item != array_ && item !in ps && m[item].node.next == 0 && m[item].node.prev == 0
  }

  /** `m'` is `m` with new values in the given cells only. */
  ghost predicate Elsewhere(m: Cells, m': Cells, changed: set<nat>) {
    m'.Keys == m.Keys && forall a :: a in m && a !in changed ==> m'[a] == m[a]
  }

  /** Only the given cells differ: the array in its first child, the others in their links. */
  ghost predicate Relinked(m: Cells, m': Cells, array_: nat, changed: set<nat>) {
    Elsewhere(m, m', changed) && forall a :: a in changed && a in m ==> SameExceptLinks(m[a], m'[a], a == array_)
  }

  ghost predicate SameExceptLinks(c: Cell, c': Cell, isArray: bool) {
    && c.Block? && c'.Block?
    && if isArray then c'.node == c.node.(child := c'.node.child)
       else c'.node == c.node.(next := c'.node.next, prev := c'.node.prev)
  }

  /** What is known around the index `k`. */
  lemma {:induction false} ChildFacts(m: Cells, array_: nat, ps: seq<nat>, k: nat)
    requires HasChildren(m, array_, ps) && k <= |ps|
    ensures IsNode(m, array_) && m[array_].node.child == Nth(ps, 0)
    ensures k < |ps| ==> IsNode(m, ps[k]) && ps[k] != array_
    ensures k < |ps| ==> m[ps[k]].node.prev == Nth(ps, k - 1) && m[ps[k]].node.next == Nth(ps, k + 1)
    ensures 0 < k ==> IsNode(m, ps[k - 1]) && ps[k - 1] != array_
    ensures 0 < k < |ps| ==> ps[k - 1] != ps[k] && ps[0] != ps[k]
    ensures k + 1 < |ps| ==> IsNode(m, ps[k + 1]) && ps[k + 1] != array_ && ps[k + 1] != ps[k]
    ensures 0 < k && k + 1 < |ps| ==> ps[k - 1] != ps[k + 1]
    ensures (k < |ps| ==> ps[0] != 0) && (|ps| == 0 <==> Nth(ps, 0) == 0)
  {
    assert |ps| > 0 ==> IsNode(m, ps[0]);
    assert k < |ps| ==> ps[k] in ps;
    assert 0 < k ==> ps[k - 1] in ps;
    assert k + 1 < |ps| ==> ps[k + 1] in ps;
  }

  ghost function Inserted(ps: seq<nat>, k: nat, x: nat): seq<nat>
    requires k <= |ps|
  {
    ps[..k] + [x] + ps[k..]
  }

  /** The cells after `x` has been linked in between the nodes at `k - 1` and `k`. */
  ghost predicate InsertCells(m: Cells, m': Cells, array_: nat, x: nat, ps: seq<nat>, k: nat)
    requires HasChildren(m, array_, ps) && Detached(m, array_, x, ps) && k <= |ps|
  {
    && Elsewhere(m, m', {x, Nth(ps, k), Nth(ps, k - 1), array_})
    && m'[x] == Block(m[x].node.(next := Nth(ps, k), prev := Nth(ps, k - 1)))
    && (k < |ps| ==> m'[ps[k]] == Block(m[ps[k]].node.(prev := x)))
    && (k > 0 ==> m'[ps[k - 1]] == Block(m[ps[k - 1]].node.(next := x)))
    && m'[array_] == Block(m[array_].node.(child := if k == 0 then x else ps[0]))
  }

  lemma {:induction false} LinkedAt(m: Cells, head: nat, ps: seq<nat>, i: nat)
    requires Linked(m, head, ps) && i < |ps|
    ensures IsNode(m, ps[i]) && m[ps[i]].node.next == Nth(ps, i + 1) && m[ps[i]].node.prev == Nth(ps, i - 1)
    ensures head == ps[0] && ps[i] in ps
  {
  }

  lemma {:induction false} LinkedDiffer(m: Cells, head: nat, ps: seq<nat>, i: nat, k: int)
    requires Linked(m, head, ps) && i < |ps| && i != k
    ensures ps[i] != Nth(ps, k)
  {
    LinkedAt(m, head, ps, i);
  }

  lemma {:induction false} InsertedNode(m: Cells, m': Cells, array_: nat, x: nat, ps: seq<nat>, k: nat, i: nat)
    requires HasChildren(m, array_, ps) && Detached(m, array_, x, ps) && k <= |ps| && InsertCells(m, m', array_, x, ps, k)
    requires i <= |ps|
    ensures NodeLinked(m', Inserted(ps, k, x), i)
  {
    hide Linked;
    var head, qs := m[array_].node.child, Inserted(ps, k, x);
    if i != k {
      var j := if i < k then i else i - 1;
      assert qs[i] == ps[j];
      LinkedAt(m, head, ps, j);
      if j != k { LinkedDiffer(m, head, ps, j, k); }
      if j != k - 1 { LinkedDiffer(m, head, ps, j, k - 1); }
    }
  }

  lemma {:induction false} InsertedAt(m: Cells, m': Cells, array_: nat, x: nat, ps: seq<nat>, k: nat)
    requires HasChildren(m, array_, ps) && Detached(m, array_, x, ps) && k <= |ps| && InsertCells(m, m', array_, x, ps, k)
    ensures HasChildren(m', array_, Inserted(ps, k, x)) && Relinked(m, m', array_, {x, Nth(ps, k), Nth(ps, k - 1), array_})
  {
    hide InsertCells, Relinked, HasChildren, NodeLinked;
    var qs := Inserted(ps, k, x);
    forall i | 0 <= i < |qs|
      ensures NodeLinked(m', qs, i)
    {
      InsertedNode(m, m', array_, x, ps, k, i);
    }
    InsertedRelinked(m, m', array_, x, ps, k);
    InsertedSet(m, array_, x, ps, k);
    MakeLinked(m', array_, qs);
  }

  lemma {:induction false} InsertedSet(m: Cells, array_: nat, x: nat, ps: seq<nat>, k: nat)
    requires HasChildren(m, array_, ps) && Detached(m, array_, x, ps) && k <= |ps|
    ensures NoRepeats(Inserted(ps, k, x)) && array_ !in Inserted(ps, k, x)
  {
    assert NoRepeats(ps);
    hide Linked;
  }

  lemma {:induction false} InsertedRelinked(m: Cells, m': Cells, array_: nat, x: nat, ps: seq<nat>, k: nat)
    requires HasChildren(m, array_, ps) && Detached(m, array_, x, ps) && k <= |ps| && InsertCells(m, m', array_, x, ps, k)
    ensures Relinked(m, m', array_, {x, Nth(ps, k), Nth(ps, k - 1), array_})
    ensures 0 !in m' && IsNode(m', array_) && m'[array_].node.child == Inserted(ps, k, x)[0]
  {
    hide Linked;
    ChildFacts(m, array_, ps, k);
  }

  ghost function Removed(ps: seq<nat>, k: nat): seq<nat>
    requires k < |ps|
  {
    ps[..k] + ps[k + 1..]
  }

  /** The cells after the node at `k` has been unlinked. */
  ghost predicate RemoveCells(m: Cells, m': Cells, array_: nat, ps: seq<nat>, k: nat)
    requires HasChildren(m, array_, ps) && k < |ps|
  {
    && Elsewhere(m, m', {ps[k], Nth(ps, k - 1), Nth(ps, k + 1), array_})
    && m'[ps[k]] == Block(m[ps[k]].node.(next := 0, prev := 0))
    && (k > 0 ==> m'[ps[k - 1]] == Block(m[ps[k - 1]].node.(next := Nth(ps, k + 1))))
    && (k + 1 < |ps| ==> m'[ps[k + 1]] == Block(m[ps[k + 1]].node.(prev := Nth(ps, k - 1))))
    && m'[array_] == Block(m[array_].node.(child := if k == 0 then Nth(ps, 1) else ps[0]))
  }

  lemma {:induction false} RemovedNode(m: Cells, m': Cells, array_: nat, ps: seq<nat>, k: nat, i: nat)
    requires HasChildren(m, array_, ps) && k < |ps| && RemoveCells(m, m', array_, ps, k) && i + 1 < |ps|
    ensures NodeLinked(m', Removed(ps, k), i)
  {
    hide Linked;
    var head, qs := m[array_].node.child, Removed(ps, k);
    var j := if i < k then i else i + 1;
    assert qs[i] == ps[j];
    LinkedAt(m, head, ps, j);
    LinkedDiffer(m, head, ps, j, k);
    if j != k - 1 { LinkedDiffer(m, head, ps, j, k - 1); }
    if j != k + 1 { LinkedDiffer(m, head, ps, j, k + 1); }
  }

  lemma {:induction false} TakenOut(m: Cells, m': Cells, array_: nat, ps: seq<nat>, k: nat)
    requires HasChildren(m, array_, ps) && k < |ps| && RemoveCells(m, m', array_, ps, k)
    ensures HasChildren(m', array_, Removed(ps, k)) && Detached(m', array_, ps[k], Removed(ps, k))
    ensures Relinked(m, m', array_, {ps[k], Nth(ps, k - 1), Nth(ps, k + 1), array_})
  {
    hide RemoveCells, Relinked, HasChildren, NodeLinked;
    var qs := Removed(ps, k);
    forall i | 0 <= i < |qs|
      ensures NodeLinked(m', qs, i)
    {
      RemovedNode(m, m', array_, ps, k, i);
    }
    RemovedRelinked(m, m', array_, ps, k);
    RemovedSet(m, array_, ps, k);
    MakeLinked(m', array_, qs);
  }

  lemma {:induction false} RemovedSet(m: Cells, array_: nat, ps: seq<nat>, k: nat)
    requires HasChildren(m, array_, ps) && k < |ps|
    ensures NoRepeats(Removed(ps, k)) && array_ !in Removed(ps, k)
    ensures ps[k] !in Removed(ps, k) && ps[k] != array_
  {
    assert NoRepeats(ps);
    assert ps[k] in ps;
    hide Linked;
  }

  lemma {:induction false} RemovedRelinked(m: Cells, m': Cells, array_: nat, ps: seq<nat>, k: nat)
    requires HasChildren(m, array_, ps) && k < |ps| && RemoveCells(m, m', array_, ps, k)
    ensures Relinked(m, m', array_, {ps[k], Nth(ps, k - 1), Nth(ps, k + 1), array_})
    ensures 0 !in m' && IsNode(m', array_) && m'[array_].node.child == Nth(Removed(ps, k), 0)
    ensures IsNode(m', ps[k]) && m'[ps[k]].node.next == 0 && m'[ps[k]].node.prev == 0
  {
    hide Linked;
    ChildFacts(m, array_, ps, k);
  }

  /** The child at `k` owns the cells of `ch`, and none of them is the array, the new item or another child. */
  ghost predicate Replaceable(m: Cells, array_: nat, x: nat, ps: seq<nat>, k: nat, ch: Chain) {
    && k < |ps| && ch.Link? && ch.rest.End? && ch.p == ps[k] && Distinct(ch) && OwnsNode(m, ch.p, ch.vs, ch.nm)
    && (if m[ch.p].node.isReference then ch.sub.End? else Owns(m, ch.sub, m[ch.p].node.child, 0))
    && array_ !in Foot(ch) && x !in Foot(ch) && (forall i :: 0 <= i < |ps| && i != k ==> ps[i] !in Foot(ch))
  }

  ghost predicate Avoids(ps: seq<nat>, s: set<nat>) {
    forall i :: 0 <= i < |ps| ==> ps[i] !in s
  }

  /** The cells after `x` has taken the place of the node at `k`. */
  ghost predicate ReplaceCells(m: Cells, m': Cells, array_: nat, x: nat, ps: seq<nat>, k: nat)
    requires HasChildren(m, array_, ps) && k < |ps| && Detached(m, array_, x, ps)
  {
    && Elsewhere(m, m', {x, ps[k], Nth(ps, k - 1), Nth(ps, k + 1), array_})
    && m'[x] == Block(m[x].node.(next := Nth(ps, k + 1), prev := Nth(ps, k - 1)))
    && m'[ps[k]] == Block(m[ps[k]].node.(next := 0, prev := 0))
    && (k > 0 ==> m'[ps[k - 1]] == Block(m[ps[k - 1]].node.(next := x)))
    && (k + 1 < |ps| ==> m'[ps[k + 1]] == Block(m[ps[k + 1]].node.(prev := x)))
    && m'[array_] == Block(m[array_].node.(child := if k == 0 then x else ps[0]))
  }

  /** Memory with the child at `k` unlinked. */
  ghost function Unlink(m: Cells, array_: nat, ps: seq<nat>, k: nat): Cells
    requires HasChildren(m, array_, ps) && k < |ps|
  {
    ChildFacts(m, array_, ps, k);
    var m1 := m[ps[k] := Block(m[ps[k]].node.(next := 0, prev := 0))];
    var m2 := if k > 0 then m1[ps[k - 1] := Block(m1[ps[k - 1]].node.(next := Nth(ps, k + 1)))] else m1;
    var m3 := if k + 1 < |ps| then m2[ps[k + 1] := Block(m2[ps[k + 1]].node.(prev := Nth(ps, k - 1)))] else m2;
    if k == 0 then m3[array_ := Block(m3[array_].node.(child := Nth(ps, 1)))] else m3
  }

  lemma {:induction false} UnlinkRemoves(m: Cells, array_: nat, ps: seq<nat>, k: nat)
    requires HasChildren(m, array_, ps) && k < |ps|
    ensures RemoveCells(m, Unlink(m, array_, ps, k), array_, ps, k)
  {
    ChildFacts(m, array_, ps, k);
  }

  /** Replacing is unlinking the old child and linking the new one in at the same place. */
  lemma {:induction false} ReplacedAt(m: Cells, m': Cells, array_: nat, x: nat, ps: seq<nat>, k: nat, ch: Chain)
    requires HasChildren(m, array_, ps) && k < |ps| && x != 0 && Detached(m, array_, x, ps)
    requires Replaceable(m, array_, x, ps, k, ch) && ReplaceCells(m, m', array_, x, ps, k)
    ensures HasChildren(m', array_, ps[k := x]) && Owns(m', ch, ps[k], 0) && Distinct(ch)
    ensures array_ !in Foot(ch) && Avoids(ps[k := x], Foot(ch))
  {
    hide HasChildren, ReplaceCells, RemoveCells, InsertCells, Replaceable, Unlink, Detached, Owns, Distinct, Foot, Relinked;
    var mid, qs := Unlink(m, array_, ps, k), Removed(ps, k);
    UnlinkRemoves(m, array_, ps, k);
    TakenOut(m, mid, array_, ps, k);
    ReplaceInserts(m, m', mid, array_, x, ps, k);
    InsertedAt(mid, m', array_, x, qs, k);
    assert Inserted(qs, k, x) == ps[k := x];
    ReplacedOwns(m, m', array_, x, ps, k, ch);
  }

  lemma {:induction false} ReplaceInserts(m: Cells, m': Cells, mid: Cells, array_: nat, x: nat, ps: seq<nat>, k: nat)
    requires HasChildren(m, array_, ps) && k < |ps| && x != 0 && Detached(m, array_, x, ps)
    requires ReplaceCells(m, m', array_, x, ps, k)
    requires RemoveCells(m, mid, array_, ps, k) && HasChildren(mid, array_, Removed(ps, k))
    ensures Detached(mid, array_, x, Removed(ps, k)) && InsertCells(mid, m', array_, x, Removed(ps, k), k)
  {
    hide Linked;
    ChildFacts(m, array_, ps, k);
    var qs := Removed(ps, k);
    assert Nth(qs, k) == Nth(ps, k + 1) && Nth(qs, k - 1) == Nth(ps, k - 1);
    assert ps[k] in ps && (k > 0 ==> ps[k - 1] in ps) && (k + 1 < |ps| ==> ps[k + 1] in ps);
    assert mid[x] == m[x];
  }

  lemma {:induction false} ReplacedRelinked(m: Cells, m': Cells, array_: nat, x: nat, ps: seq<nat>, k: nat, ch: Chain)
    requires HasChildren(m, array_, ps) && k < |ps| && Detached(m, array_, x, ps)
    requires ReplaceCells(m, m', array_, x, ps, k) && Replaceable(m, array_, x, ps, k, ch)
    ensures Relinked(m - Foot(ch), m' - Foot(ch), array_, {x, Nth(ps, k - 1), Nth(ps, k + 1), array_})
  {
    hide Linked;
    ChildFacts(m, array_, ps, k);
    UnfoldFoot(ch);
    assert ps[k] in Foot(ch);
    assert k > 0 ==> ps[k - 1] in ps;
    assert k + 1 < |ps| ==> ps[k + 1] in ps;
  }

  lemma {:induction false} ReplacedOwns(m: Cells, m': Cells, array_: nat, x: nat, ps: seq<nat>, k: nat, ch: Chain)
    requires HasChildren(m, array_, ps) && k < |ps| && Detached(m, array_, x, ps)
    requires ReplaceCells(m, m', array_, x, ps, k) && Replaceable(m, array_, x, ps, k, ch)
    ensures Owns(m', ch, ps[k], 0) && Distinct(ch)
    ensures array_ !in Foot(ch) && Avoids(ps[k := x], Foot(ch))
  {
    hide Linked;
    UnfoldFoot(ch);
    Separate(ch);
    FootNotNull(ch);
    assert SameOn(m, m', Foot(ch) - {ps[k]});
    if !m[ch.p].node.isReference {
      FrameOwns(m, m', ch.sub, m[ch.p].node.child, 0);
    }
  }

  lemma {:induction false} StillChildren(m: Cells, m': Cells, array_: nat, ps: seq<nat>, gone: set<nat>)
    requires HasChildren(m, array_, ps) && m' == m - gone && array_ !in gone
    requires Avoids(ps, gone)
    ensures HasChildren(m', array_, ps)
  {
    hide Linked;
    forall i | 0 <= i < |ps|
      ensures NodeLinked(m', ps, i)
    {
      LinkedAt(m, m[array_].node.child, ps, i);
    }
    ChildFacts(m, array_, ps, 0);
    AsSet(m, array_, ps);
    MakeLinked(m', array_, ps);
  }

  lemma {:induction false} AsSet(m: Cells, array_: nat, ps: seq<nat>)
    requires HasChildren(m, array_, ps)
    ensures NoRepeats(ps)
  {
  }
}
