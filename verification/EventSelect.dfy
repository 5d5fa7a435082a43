/** libev's select backend (`ev_select.c`, bit vector path): growing words of read and write bits. */
module EventSelect {
  import opened EventMask

  const NFDBITS := 64

  // The operations on words, each on its own: the proofs below combine their laws without looking at bits.

  function Shl1(x: bv64): bv64 { x << 1 }
  function Shl2(x: bv64): bv64 { x << 2 }
  function Shl4(x: bv64): bv64 { x << 4 }
  function Shl8(x: bv64): bv64 { x << 8 }
  function Shl16(x: bv64): bv64 { x << 16 }
  function Shl32(x: bv64): bv64 { x << 32 }

  function And(w: bv64, m: bv64): bv64 { w & m }

  /** Some bit of the mask is on. */
  predicate Meets(w: bv64, m: bv64) {
    And(w, m) != 0
  }

  predicate Apart(m: bv64, b: bv64) {
    And(m, b) == 0
  }

  predicate Within(x: bv64, top: bv64) {
    0 < x <= top
  }

  function Set(w: bv64, m: bv64): bv64 { w | m }

  function Clear(w: bv64, m: bv64): bv64 { w & !m }

  lemma {:induction false} Twice1(x: bv64)
    ensures Shl1(Shl1(x)) == Shl2(x)
  {
  }

  lemma {:induction false} Twice2(x: bv64)
    ensures Shl2(Shl2(x)) == Shl4(x)
  {
  }

  lemma {:induction false} Twice4(x: bv64)
    ensures Shl4(Shl4(x)) == Shl8(x)
  {
  }

  lemma {:induction false} Twice8(x: bv64)
    ensures Shl8(Shl8(x)) == Shl16(x)
  {
  }

  lemma {:induction false} Twice16(x: bv64)
    ensures Shl16(Shl16(x)) == Shl32(x)
  {
  }

  lemma {:induction false} Widen4(x: bv64)
    requires Within(x, 0x8)
    ensures Within(x, 0x80) && Within(Shl4(x), 0x80)
  {
  }

  lemma {:induction false} Widen8(x: bv64)
    requires Within(x, 0x80)
    ensures Within(x, 0x8000) && Within(Shl8(x), 0x8000)
  {
  }

  lemma {:induction false} Widen16(x: bv64)
    requires Within(x, 0x8000)
    ensures Within(x, 0x8000_0000) && Within(Shl16(x), 0x8000_0000)
  {
  }

  lemma {:induction false} Widen32(x: bv64)
    requires Within(x, 0x8000_0000)
    ensures Within(x, 0x8000_0000_0000_0000) && Within(Shl32(x), 0x8000_0000_0000_0000)
  {
  }

  lemma {:induction false} SetOwn(w: bv64, m: bv64)
    requires 0 < m
    ensures Meets(Set(w, m), m)
  {
  }

  lemma {:induction false} SetOther(w: bv64, m: bv64, b: bv64)
    requires Apart(m, b)
    ensures And(Set(w, m), b) == And(w, b)
  {
  }

  lemma {:induction false} ClearOwn(w: bv64, m: bv64)
    ensures !Meets(Clear(w, m), m)
  {
  }

  lemma {:induction false} ClearOther(w: bv64, m: bv64, b: bv64)
    requires Apart(m, b)
    ensures And(Clear(w, m), b) == And(w, b)
  {
  }

  lemma {:induction false} ApartLow(b: bv64)
    ensures Apart(1, Shl1(b)) && Apart(Shl1(b), 1)
  {
  }

  lemma {:induction false} ApartShifted(m: bv64, b: bv64)
    requires Apart(m, b)
    ensures Apart(Shl1(m), Shl1(b))
  {
  }

  /** The mask of a bit within a word: one, shifted left `k` times. */
  function Bit(k: nat): bv64 {
    if k == 0 then 1 else Shl1(Bit(k - 1))
  }

  lemma {:induction false} BitShifts(k: nat)
    ensures Bit(k + 4) == Shl4(Bit(k))
  {
    hide Shl1, Shl2, Shl4, Shl8;
    assert Bit(k + 1) == Shl1(Bit(k)) && Bit(k + 2) == Shl1(Bit(k + 1));
    assert Bit(k + 3) == Shl1(Bit(k + 2)) && Bit(k + 4) == Shl1(Bit(k + 3));
    Twice1(Bit(k));
    Twice1(Bit(k + 2));
    Twice2(Bit(k));
  }

  lemma {:induction false} BitShifts8(k: nat)
    ensures Bit(k + 8) == Shl8(Bit(k))
  {
    hide *;
    BitShifts(k);
    BitShifts(k + 4);
    Twice4(Bit(k));
  }

  lemma {:induction false} BitShifts16(k: nat)
    ensures Bit(k + 16) == Shl16(Bit(k))
  {
    hide *;
    BitShifts8(k);
    BitShifts8(k + 8);
    Twice8(Bit(k));
  }

  lemma {:induction false} BitShifts32(k: nat)
    ensures Bit(k + 32) == Shl32(Bit(k))
  {
    hide *;
    BitShifts16(k);
    BitShifts16(k + 16);
    Twice16(Bit(k));
  }

  lemma {:induction false} Bit4(k: nat)
    requires k < 4
    ensures Within(Bit(k), 0x8)
  {
    assert Bit(0) == 1;
    assert Bit(1) == Shl1(Bit(0));
    assert Bit(2) == Shl1(Bit(1));
    assert Bit(3) == Shl1(Bit(2));
  }

  lemma {:induction false} Bit8(k: nat)
    requires k < 8
    ensures Within(Bit(k), 0x80)
  {
    hide *;
    if k < 4 {
      Bit4(k);
      Widen4(Bit(k));
    } else {
      Bit4(k - 4);
      Widen4(Bit(k - 4));
      BitShifts(k - 4);
    }
  }

  lemma {:induction false} Bit16(k: nat)
    requires k < 16
    ensures Within(Bit(k), 0x8000)
  {
    hide *;
    if k < 8 {
      Bit8(k);
      Widen8(Bit(k));
    } else {
      Bit8(k - 8);
      Widen8(Bit(k - 8));
      BitShifts8(k - 8);
    }
  }

  lemma {:induction false} Bit32(k: nat)
    requires k < 32
    ensures Within(Bit(k), 0x8000_0000)
  {
    hide *;
    if k < 16 {
      Bit16(k);
      Widen16(Bit(k));
    } else {
      Bit16(k - 16);
      Widen16(Bit(k - 16));
      BitShifts16(k - 16);
    }
  }

  lemma {:induction false} Bit64(k: nat)
    requires k < 64
    ensures Within(Bit(k), 0x8000_0000_0000_0000)
  {
    hide *;
    if k < 32 {
      Bit32(k);
      Widen32(Bit(k));
    } else {
      Bit32(k - 32);
      Widen32(Bit(k - 32));
      BitShifts32(k - 32);
    }
  }

  lemma {:induction false} BitsApart(i: nat, j: nat)
    requires i != j
    ensures Apart(Bit(i), Bit(j))
  {
    hide Apart, Shl1;
    if i == 0 {
      ApartLow(Bit(j - 1));
    } else if j == 0 {
      ApartLow(Bit(i - 1));
    } else {
      BitsApart(i - 1, j - 1);
      ApartShifted(Bit(i - 1), Bit(j - 1));
    }
  }

  /** Exactly one bit is on. */
  ghost predicate Single(x: bv64) {
    x != 0 && x & (x - 1) == 0
  }

  lemma {:induction false} DoubleSingle(x: bv64)
    requires Single(x) && Shl1(x) != 0
    ensures Single(Shl1(x)) && x < Shl1(x)
  {
  }

  /** The masks of a word are its single bits in ascending order: mask `k` has the value two to the power `k`. */
  lemma {:induction false} BitsAscend(i: nat, k: nat)
    requires i <= k < 64
    ensures Single(Bit(i)) && Single(Bit(k)) && (i < k ==> Bit(i) < Bit(k)) && Bit(0) == 1
    decreases k
  {
    hide Shl1, Single, Within;
    if k == 0 {
      assert Single(1) by { OneSingle(); }
    } else {
      BitsAscend(if i < k then i else k - 1, k - 1);
      assert Bit(k) == Shl1(Bit(k - 1));
      assert Bit(k) != 0 by { Bit64(k); NotZero(Bit(k)); }
      DoubleSingle(Bit(k - 1));
    }
  }

  lemma {:induction false} OneSingle()
    ensures Single(1)
  {
  }

  lemma {:induction false} NotZero(x: bv64)
    requires Within(x, 0x8000_0000_0000_0000)
    ensures x != 0
  {
  }

  predicate Has(w: bv64, k: nat) {
    Meets(w, Bit(k))
  }

  /** The word with bit `k` on or off: set, then cleared again unless wanted. */
  function WithBit(w: bv64, k: nat, on: bool): bv64 {
    if on then Set(w, Bit(k)) else Clear(Set(w, Bit(k)), Bit(k))
  }

  lemma {:induction false} OneBit(w: bv64, k: nat, on: bool, i: nat)
    requires k < NFDBITS
    ensures Has(WithBit(w, k, on), i) <==> if i == k then on else Has(w, i)
  {
    hide Bit, And, Apart, Set, Clear;
    if i == k {
      assert 0 < Bit(k) by { Bit64(k); }
      SetOwn(w, Bit(k));
      ClearOwn(Set(w, Bit(k)), Bit(k));
    } else {
      BitsApart(k, i);
      SetOther(w, Bit(k), Bit(i));
      ClearOther(Set(w, Bit(k)), Bit(k), Bit(i));
    }
  }

  /** The bit of a descriptor in the words. */
  predicate On(v: seq<bv64>, fd: nat) {
    fd / NFDBITS < |v| && Has(v[fd / NFDBITS], fd % NFDBITS)
  }

  function EventsOf(readable: bool, writable: bool): bv8 {
    (if readable then EV_READ else 0) | (if writable then EV_WRITE else 0)
  }

  function EventsAt(r: seq<bv64>, w: seq<bv64>, fd: nat): bv8 {
    EventsOf(On(r, fd), On(w, fd))
  }

  /** The words with the bit of one descriptor on or off. */
  function WithFd(v: seq<bv64>, fd: nat, on: bool): seq<bv64>
    requires fd / NFDBITS < |v|
  {
    var word := fd / NFDBITS;
    v[word := WithBit(v[word], fd % NFDBITS, on)]
  }

  lemma {:induction false} OneFd(v: seq<bv64>, fd: nat, on: bool, x: nat)
    requires fd / NFDBITS < |v|
    ensures On(WithFd(v, fd, on), x) <==> if x == fd then on else On(v, x)
  {
    hide WithBit, Has;
    if x / NFDBITS == fd / NFDBITS {
      OneBit(v[fd / NFDBITS], fd % NFDBITS, on, x % NFDBITS);
      assert x == fd <==> x % NFDBITS == fd % NFDBITS;
    }
  }

  /** The wanted events as the two vectors say. */
  ghost function Decode(r: seq<bv64>, w: seq<bv64>): Wants
    requires |r| == |w|
  {
    map fd: nat | fd < |r| * NFDBITS && EventsAt(r, w, fd) != 0 :: EventsAt(r, w, fd)
  }

  lemma {:induction false} Grown(r: seq<bv64>, w: seq<bv64>)
    requires |r| == |w|
    ensures Decode(r + [0], w + [0]) == Decode(r, w)
  {
    forall fd: nat ensures EventsAt(r + [0], w + [0], fd) == EventsAt(r, w, fd) {
    }
  }

  lemma {:induction false} Modified(r: seq<bv64>, w: seq<bv64>, fd: nat, ev: bv8)
    requires |r| == |w| && fd / NFDBITS < |r| && IsEvents(ev)
    ensures var r', w' := WithFd(r, fd, ev & EV_READ != 0), WithFd(w, fd, ev & EV_WRITE != 0);
            Decode(r', w') == Updated(Decode(r, w), fd, ev)
  {
    var r', w' := WithFd(r, fd, ev & EV_READ != 0), WithFd(w, fd, ev & EV_WRITE != 0);
    forall x: nat ensures EventsAt(r', w', x) == if x == fd then ev else EventsAt(r, w, x) {
      OneFd(r, fd, ev & EV_READ != 0, x);
      OneFd(w, fd, ev & EV_WRITE != 0, x);
      hide On, WithFd;
    }
    hide EventsAt, WithFd;
  }

  lemma {:induction false} WantIs(r: seq<bv64>, w: seq<bv64>, fd: nat)
    requires |r| == |w|
    ensures Want(Decode(r, w), fd) == if fd / 64 < |r| then EventsAt(r, w, fd) else 0
  {
    hide EventsAt;
    assert fd / 64 < |r| <==> fd < |r| * 64;
  }

  lemma {:induction false} EventsMean(readable: bool, writable: bool)
    ensures var ev := EventsOf(readable, writable); (ev & EV_READ != 0 <==> readable) && (ev & EV_WRITE != 0 <==> writable)
  {
  }

  class Select {
    var vecRi: seq<bv64>
    var vecWi: seq<bv64>

    ghost predicate Valid()
      reads this
    {
      |vecRi| == |vecWi|
    }

    ghost function Decoded(): Wants
      requires Valid()
      reads this
    {
      Decode(vecRi, vecWi)
    }

    constructor ()
      ensures Valid() && Decoded() == map[]
    {
      vecRi, vecWi := [], [];
    }

    /** Bit `fd % 64` of word `fd / 64` is on in the read and in the write vector as the events are wanted. */
    lemma {:induction false} WordsShow(fd: nat)
      requires Valid()
      ensures fd / 64 >= |vecRi| ==> Want(Decoded(), fd) == 0
      ensures fd / 64 < |vecRi| ==>
                && (Meets(vecRi[fd / 64], Bit(fd % 64)) <==> Want(Decoded(), fd) & EV_READ != 0)
                && (Meets(vecWi[fd / 64], Bit(fd % 64)) <==> Want(Decoded(), fd) & EV_WRITE != 0)
    {
      WantIs(vecRi, vecWi, fd);
      hide Bit, EventsAt, EventsOf, Decode, Want, Meets;
      if fd / 64 < |vecRi| {
        EventsIn(vecRi, vecWi, fd);
        EventsMean(Meets(vecRi[fd / 64], Bit(fd % 64)), Meets(vecWi[fd / 64], Bit(fd % 64)));
      }
    }

    /** `select_modify`. */
    method Modify(fd: nat, oev: bv8, nev: bv8)
      requires Valid() && IsEvents(nev) && oev == Want(Decoded(), fd)
      modifies this
      ensures Valid() && Decoded() == Updated(old(Decoded()), fd, nev)
    {
      hide Decode, Updated, Want, IsEvents, Bit, WithBit;
      if oev == nev {
        Proper64(vecRi, vecWi);
        UpdatedSame(Decoded(), fd);
        return;
      }
      var word := fd / NFDBITS;
      while |vecRi| <= word
        invariant Valid() && Decoded() == old(Decoded())
        decreases word - |vecRi|
      {
        Grown(vecRi, vecWi);
        vecRi, vecWi := vecRi + [0], vecWi + [0];
      }
      Modified(vecRi, vecWi, fd, nev);
      vecRi := vecRi[word := WithBit(vecRi[word], fd % NFDBITS, nev & EV_READ != 0)];
      vecWi := vecWi[word := WithBit(vecWi[word], fd % NFDBITS, nev & EV_WRITE != 0)];
    }
  }

  /** What the scan of the result vectors reports below `n`, from the highest descriptor down. */
  function Reports(r: seq<bv64>, w: seq<bv64>, n: nat): seq<Feed> {
    if n == 0 then []
    else (if EventsAt(r, w, n - 1) != 0 then [Feed(n - 1, EventsAt(r, w, n - 1))] else []) + Reports(r, w, n - 1)
  }

  /** Each ready descriptor is reported exactly once. */
  lemma {:induction false} ReportedOnce(r: seq<bv64>, w: seq<bv64>, n: nat)
    ensures forall f :: f in Reports(r, w, n) <==> f.fd < n && f.events == EventsAt(r, w, f.fd) != 0
    ensures Once(Reports(r, w, n))
  {
    hide EventsAt;
    if n > 0 {
      ReportedOnce(r, w, n - 1);
      var rest := Reports(r, w, n - 1);
      forall i | 0 <= i < |rest| ensures rest[i].fd < n - 1 {
        assert rest[i] in rest;
      }
    }
  }

  lemma {:induction false} EmptyWord(r: seq<bv64>, w: seq<bv64>, word: nat, bit: nat)
    requires word < |r| == |w| && r[word] == 0 && w[word] == 0 && bit <= NFDBITS
    ensures Reports(r, w, word * NFDBITS + bit) == Reports(r, w, word * NFDBITS)
  {
    if bit > 0 {
      var fd := word * NFDBITS + bit - 1;
      assert fd / NFDBITS == word;
      assert EventsAt(r, w, fd) == 0 by { NoBits(Bit(fd % NFDBITS)); }
      EmptyWord(r, w, word, bit - 1);
    }
  }

  lemma {:induction false} NoBits(m: bv64)
    ensures !Meets(0, m)
  {
  }

  /** The loops of `select_poll` over the words and the bits of the result vectors, both downwards. */
  method Scan(vecRo: seq<bv64>, vecWo: seq<bv64>) returns (fed: seq<Feed>)
    requires |vecRo| == |vecWo|
    ensures fed == Reports(vecRo, vecWo, |vecRo| * NFDBITS)
  {
    hide Reports, EventsAt;
    fed := [];
    var word: nat := |vecRo|;
    while word > 0
      invariant word <= |vecRo|
      invariant fed + Reports(vecRo, vecWo, word * NFDBITS) == Reports(vecRo, vecWo, |vecRo| * NFDBITS)
    {
      word := word - 1;
      if vecRo[word] != 0 || vecWo[word] != 0 {
        var more := ScanWord(vecRo, vecWo, word);
        fed := fed + more;
      } else {
        EmptyWord(vecRo, vecWo, word, NFDBITS);
      }
    }
    assert Reports(vecRo, vecWo, 0) == [] by { NoReports(vecRo, vecWo); }
  }

  lemma {:induction false} NoReports(r: seq<bv64>, w: seq<bv64>)
    ensures Reports(r, w, 0) == []
  {
  }

  lemma {:induction false} EventsIn(r: seq<bv64>, w: seq<bv64>, fd: nat)
    requires fd / NFDBITS < |r| == |w|
    ensures EventsAt(r, w, fd)
            == EventsOf(Meets(r[fd / NFDBITS], Bit(fd % NFDBITS)), Meets(w[fd / NFDBITS], Bit(fd % NFDBITS)))
  {
  }

  lemma {:induction false} NextReport(r: seq<bv64>, w: seq<bv64>, fd: nat, fed: seq<Feed>, ev: bv8)
    requires ev == EventsAt(r, w, fd)
    ensures fed + Reports(r, w, fd + 1) == (if ev != 0 then fed + [Feed(fd, ev)] else fed) + Reports(r, w, fd)
  {
    hide EventsAt;
  }

  /** The loop over the bits of one word. */
  method ScanWord(vecRo: seq<bv64>, vecWo: seq<bv64>, word: nat) returns (fed: seq<Feed>)
    requires word < |vecRo| == |vecWo|
    ensures fed + Reports(vecRo, vecWo, word * NFDBITS) == Reports(vecRo, vecWo, (word + 1) * NFDBITS)
  {
    hide Bit, Reports, EventsAt, Meets;
    var wordR, wordW := vecRo[word], vecWo[word];
    fed := [];
    var bit: nat := NFDBITS;
    while bit > 0
      invariant bit <= NFDBITS
      invariant fed + Reports(vecRo, vecWo, word * NFDBITS + bit) == Reports(vecRo, vecWo, (word + 1) * NFDBITS)
    {
      bit := bit - 1;
      var mask := Bit(bit);
      ghost var fd := word * NFDBITS + bit;
      assert fd / NFDBITS == word && fd % NFDBITS == bit;
      var events := EventsOf(Meets(wordR, mask), Meets(wordW, mask));
      assert events == EventsAt(vecRo, vecWo, fd) by { EventsIn(vecRo, vecWo, fd); }
      NextReport(vecRo, vecWo, fd, fed, events);
      if events != 0 {
        fed := fed + [Feed(word * NFDBITS + bit, events)];
      }
    }
  }

  lemma {:induction false} Proper64(r: seq<bv64>, w: seq<bv64>)
    requires |r| == |w|
    ensures Proper(Decode(r, w))
  {
    hide EventsAt;
  }
}
