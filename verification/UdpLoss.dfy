/**
 The sequence accounting of iperf's UDP streams (`iperf_udp.c`): the sender
 numbers its packets, and the receiver keeps the highest number, a count of gaps
 and a count of packets that came late, in C `int`s.
 */
module UdpLoss {
  import opened CString

  const TWO_31 := 0x8000_0000
  const TWO_32 := 0x1_0000_0000

  /** Conversion to a 64-bit unsigned integer. */
  function UInt64(x: int): int {
    x % 0x1_0000_0000_0000_0000
  }

  /** Equal as 32-bit quantities. */
  ghost predicate Congruent(x: int, y: int) {
    (x - y) % TWO_32 == 0
  }

  lemma {:induction false} Int32Congruent(x: int)
    ensures Congruent(Int32(x), x) && -TWO_31 <= Int32(x) < TWO_31 && (-TWO_31 <= x < TWO_31 ==> Int32(x) == x)
  {
  }

  lemma {:induction false} UInt64Congruent(x: int)
    ensures Congruent(UInt64(x), x)
  {
    Multiple(UInt64(x), x, -TWO_32 * (x / 0x1_0000_0000_0000_0000));
  }

  lemma {:induction false} Multiple(x: int, y: int, k: int)
    requires x - y == TWO_32 * k
    ensures Congruent(x, y)
  {
  }

  lemma {:induction false} CongruentSum(x: int, x': int, y: int, y': int)
    requires Congruent(x, x') && Congruent(y, y')
    ensures Congruent(x + y, x' + y') && Congruent(x - y, x' - y')
  {
    var a, b := (x - x') / TWO_32, (y - y') / TWO_32;
    Multiple(x + y, x' + y', a + b);
    Multiple(x - y, x' - y', a - b);
  }

  lemma {:induction false} CongruentTrans(x: int, y: int, z: int)
    requires Congruent(x, y) && Congruent(y, z)
    ensures Congruent(x, z)
  {
    Multiple(x, z, (x - y) / TWO_32 + (y - z) / TWO_32);
  }

  datatype Counters = Counters(packetCount: int, cntError: int, outOfOrder: int)

  /** The counters after a packet numbered `pcount`. */
  function Counted(c: Counters, pcount: nat): Counters {
    var next := UInt64(c.packetCount + 1);
    if pcount > next then
      Counters(Int32(pcount), Int32(c.cntError + UInt64(pcount - 1 - c.packetCount)), c.outOfOrder)
    else if pcount == next then
      c.(packetCount := Int32(pcount))
    else
      c.(outOfOrder := Int32(c.outOfOrder + 1))
  }

  /** The counters after a sequence of arrivals. */
  function Count(arrivals: seq<nat>): Counters {
    if arrivals == [] then Counters(0, 0, 0)
    else Counted(Count(arrivals[..|arrivals| - 1]), arrivals[|arrivals| - 1])
  }

  class Stream {
    var counters: Counters
    var bytesReceived: nat
    ghost var arrivals: seq<nat>

    ghost predicate Valid()
      reads this
    {
      counters == Count(arrivals)
    }

    constructor ()
      ensures Valid() && arrivals == [] && bytesReceived == 0
    {
      counters, bytesReceived, arrivals := Counters(0, 0, 0), 0, [];
    }

    /** `iperf_udp_recv` with the outcome `r` of the read; the number is in the packet. */
    method Recv(r: int, pcount: nat)
      requires Valid() && pcount < 0x1_0000_0000_0000_0000
      modifies this
      ensures Valid()
      ensures r <= 0 ==> arrivals == old(arrivals) && counters == old(counters) && bytesReceived == old(bytesReceived)
      ensures r > 0 ==> arrivals == old(arrivals) + [pcount] && bytesReceived == old(bytesReceived) + r
      ensures Exact(counters, arrivals)
    {
      hide Exact;
      if r > 0 {
        bytesReceived := bytesReceived + r;
        var next := UInt64(counters.packetCount + 1);
        if pcount >= next {
          if pcount > next {
            counters := counters.(cntError := Int32(counters.cntError + UInt64(pcount - 1 - counters.packetCount)));
          }
          counters := counters.(packetCount := Int32(pcount));
        } else {
          counters := counters.(outOfOrder := Int32(counters.outOfOrder + 1));
        }
        arrivals := arrivals + [pcount];
        assert arrivals[..|arrivals| - 1] == old(arrivals);
      }
      CountExact(arrivals);
    }
  }

  // ---------------------------------------------------------------- every arrival order

  /** How far the counters are from the law `packets = received - late + gaps`. */
  ghost function Excess(c: Counters, received: nat): int {
    received - c.outOfOrder + c.cntError - c.packetCount
  }

  /** The law holds as 32-bit quantities for any numbers in any order, also after the counters have wrapped. */
  lemma {:induction false} GapLaw(arrivals: seq<nat>)
    ensures Congruent(Excess(Count(arrivals), |arrivals|), 0)
  {
    hide Congruent, Counted;
    if arrivals == [] {
      CongruentSelf(0);
    } else {
      var n := |arrivals| - 1;
      GapLaw(arrivals[..n]);
      GapStep(Count(arrivals[..n]), n, arrivals[n]);
    }
  }

  lemma {:induction false} GapStep(c: Counters, n: nat, pcount: nat)
    requires Congruent(Excess(c, n), 0)
    ensures Congruent(Excess(Counted(c, pcount), n + 1), 0)
  {
    hide Congruent, Int32, UInt64;
    var c' := Counted(c, pcount);
    var next := UInt64(c.packetCount + 1);
    Int32Congruent(pcount);
    UInt64Congruent(c.packetCount + 1);
    if pcount > next {
      var gap := pcount - 1 - c.packetCount;
      UInt64Congruent(gap);
      CongruentSelf(c.cntError);
      CongruentSum(c.cntError, c.cntError, UInt64(gap), gap);
      Int32Congruent(c.cntError + UInt64(gap));
      CongruentTrans(c'.cntError, c.cntError + UInt64(gap), c.cntError + gap);
      CongruentSum(c'.cntError, c.cntError + gap, c'.packetCount, pcount);
      CongruentSelf(n + 1 - c.outOfOrder);
      CongruentSum(n + 1 - c.outOfOrder, n + 1 - c.outOfOrder, c'.cntError - c'.packetCount, c.cntError + gap - pcount);
      CongruentTrans(Excess(c', n + 1), Excess(c, n), 0);
    } else if pcount == next {
      CongruentTrans(c'.packetCount, pcount, c.packetCount + 1);
      CongruentSelf(n + 1 - c.outOfOrder + c.cntError);
      CongruentSum(n + 1 - c.outOfOrder + c.cntError, n + 1 - c.outOfOrder + c.cntError, c'.packetCount, c.packetCount + 1);
      CongruentTrans(Excess(c', n + 1), Excess(c, n), 0);
    } else {
      Int32Congruent(c.outOfOrder + 1);
      CongruentSelf(n + 1 + c.cntError - c.packetCount);
      CongruentSum(n + 1 + c.cntError - c.packetCount, n + 1 + c.cntError - c.packetCount, c'.outOfOrder, c.outOfOrder + 1);
      CongruentTrans(Excess(c', n + 1), Excess(c, n), 0);
    }
  }

  lemma {:induction false} CongruentSelf(x: int)
    ensures Congruent(x, x)
  {
  }

  /** Numbers that fit the counters, and not so many of them that the counters wrap. */
  ghost predicate Fits(arrivals: seq<nat>) {
    |arrivals| < TWO_31 && forall p :: p in arrivals ==> p < TWO_31
  }

  function Highest(arrivals: seq<nat>): nat {
    if arrivals == [] then 0
    else
      var n := |arrivals| - 1;
      var h := Highest(arrivals[..n]);
      if arrivals[n] > h then arrivals[n] else h
  }

  /** Without wrapping the law is exact, and the packet count is the highest number seen. */
  lemma {:induction false} ExactLaw(arrivals: seq<nat>)
    requires Fits(arrivals)
    ensures var c := Count(arrivals);
            && c.packetCount == Highest(arrivals) < TWO_31 && 0 <= c.outOfOrder <= |arrivals|
            && 0 <= c.cntError <= c.packetCount && Excess(c, |arrivals|) == 0
  {
    if arrivals != [] {
      var n := |arrivals| - 1;
      assert arrivals[n] in arrivals && forall p :: p in arrivals[..n] ==> p in arrivals;
      ExactLaw(arrivals[..n]);
      hide Counted, Int32, UInt64;
      ExactStep(Count(arrivals[..n]), n, arrivals[n]);
    }
  }

  lemma {:induction false} ExactStep(c: Counters, n: nat, pcount: nat)
    requires 0 <= c.packetCount < TWO_31 && 0 <= c.outOfOrder <= n < TWO_31 - 1 && pcount < TWO_31
    requires 0 <= c.cntError <= c.packetCount && Excess(c, n) == 0
    ensures var c' := Counted(c, pcount);
            && c'.packetCount == (if pcount > c.packetCount then pcount else c.packetCount) && 0 <= c'.outOfOrder <= n + 1
            && 0 <= c'.cntError <= c'.packetCount && Excess(c', n + 1) == 0
  {
    assert UInt64(c.packetCount + 1) == c.packetCount + 1;
    Int32Congruent(pcount);
    Int32Congruent(c.outOfOrder + 1);
    if pcount > c.packetCount + 1 {
      assert UInt64(pcount - 1 - c.packetCount) == pcount - 1 - c.packetCount;
      Int32Congruent(c.cntError + (pcount - 1 - c.packetCount));
    }
  }

  lemma {:induction false} HighestIs(arrivals: seq<nat>)
    ensures (forall p :: p in arrivals ==> p <= Highest(arrivals)) && (Highest(arrivals) in arrivals || Highest(arrivals) == 0)
  {
    if arrivals != [] {
      var n := |arrivals| - 1;
      HighestIs(arrivals[..n]);
      assert arrivals == arrivals[..n] + [arrivals[n]];
    }
  }

  /** The places at which a number arrived that does not exceed all before it. */
  ghost function LateAt(arrivals: seq<nat>): set<nat> {
    set i: nat | i < |arrivals| && arrivals[i] <= Highest(arrivals[..i])
  }

  /** The numbers left out each time a number exceeded all before it. */
  function Skipped(arrivals: seq<nat>): nat {
    if arrivals == [] then 0
    else
      var n := |arrivals| - 1;
      var h := Highest(arrivals[..n]);
      Skipped(arrivals[..n]) + if arrivals[n] > h then arrivals[n] - 1 - h else 0
  }

  /** Each counter on its own: the late arrivals, and the numbers skipped. */
  lemma {:induction false} CountersExact(arrivals: seq<nat>)
    requires Fits(arrivals)
    ensures Count(arrivals) == Counters(Highest(arrivals), Skipped(arrivals), |LateAt(arrivals)|)
  {
    if arrivals == [] {
      assert LateAt([]) == {};
    } else {
      var n := |arrivals| - 1;
      var was := arrivals[..n];
      assert arrivals[n] in arrivals && forall p :: p in was ==> p in arrivals;
      ExactLaw(was);
      CountersExact(was);
      LateLast(arrivals);
      hide Counted, Int32, UInt64, LateAt, Congruent;
      CountedStep(Count(was), n, arrivals[n]);
    }
  }

  /** While the counters fit: the highest number, the numbers skipped and the late arrivals. */
  ghost predicate Exact(c: Counters, arrivals: seq<nat>) {
    Fits(arrivals) ==> c == Counters(Highest(arrivals), Skipped(arrivals), |LateAt(arrivals)|)
  }

  lemma {:induction false} CountExact(arrivals: seq<nat>)
    ensures Exact(Count(arrivals), arrivals)
  {
    if Fits(arrivals) {
      CountersExact(arrivals);
    }
  }

  lemma {:induction false} LateLast(arrivals: seq<nat>)
    requires arrivals != []
    ensures var n := |arrivals| - 1;
            |LateAt(arrivals)| == |LateAt(arrivals[..n])| + if arrivals[n] <= Highest(arrivals[..n]) then 1 else 0
  {
    var n := |arrivals| - 1;
    var was := arrivals[..n];
    forall i: nat | i < n ensures i in LateAt(arrivals) <==> i in LateAt(was) {
      assert was[..i] == arrivals[..i];
    }
    if arrivals[n] <= Highest(was) {
      assert LateAt(arrivals) == LateAt(was) + {n};
    } else {
      assert LateAt(arrivals) == LateAt(was);
    }
  }

  /** One packet without wrapping. */
  lemma {:induction false} CountedStep(c: Counters, n: nat, pcount: nat)
    requires 0 <= c.packetCount < TWO_31 && 0 <= c.outOfOrder <= n < TWO_31 - 1 && pcount < TWO_31
    requires 0 <= c.cntError <= c.packetCount
    ensures Counted(c, pcount) ==
            if pcount > c.packetCount then Counters(pcount, c.cntError + (pcount - 1 - c.packetCount), c.outOfOrder)
            else c.(outOfOrder := c.outOfOrder + 1)
  {
    assert UInt64(c.packetCount + 1) == c.packetCount + 1;
    Int32Congruent(pcount);
    Int32Congruent(c.outOfOrder + 1);
    if pcount > c.packetCount + 1 {
      assert UInt64(pcount - 1 - c.packetCount) == pcount - 1 - c.packetCount;
      Int32Congruent(c.cntError + (pcount - 1 - c.packetCount));
    }
  }

  /** One packet overtaken by another: one number skipped, one arrival late. */
  lemma {:induction false} Overtaken()
    ensures Count([1, 3, 2]) == Counters(3, 1, 1)
  {
    hide Count;
    var a := [1, 3, 2];
    CountersExact(a);
    assert a[..0] == [] && a[..1] == [1] && a[..2] == [1, 3] && [1, 3][..1] == [1] && [1][..0] == [];
    assert Highest([]) == 0 && Highest([1]) == 1 && Highest([1, 3]) == 3 && Highest(a) == 3;
    assert Skipped([1]) == 0 && Skipped([1, 3]) == 1 && Skipped(a) == 1;
    assert LateAt(a) == {2};
  }

  /** Arrivals that bring no new number: repeated ones, and the number zero. */
  function Repeats(arrivals: seq<nat>): nat {
    if arrivals == [] then 0
    else
      var n := |arrivals| - 1;
      Repeats(arrivals[..n]) + if arrivals[n] == 0 || arrivals[n] in arrivals[..n] then 1 else 0
  }

  ghost function Seen(arrivals: seq<nat>): set<nat> {
    set p | p in arrivals && p != 0
  }

  /** The numbers up to the highest that never arrived. */
  ghost function Missing(arrivals: seq<nat>): set<nat> {
    Range(Highest(arrivals)) - Seen(arrivals)
  }

  ghost function Range(n: nat): set<nat> {
    if n == 0 then {} else Range(n - 1) + {n}
  }

  lemma {:induction false} InRange(n: nat)
    ensures forall p: nat :: p in Range(n) <==> 1 <= p <= n
  {
    if n > 0 {
      InRange(n - 1);
    }
  }

  lemma {:induction false} RangeSize(n: nat)
    ensures |Range(n)| == n
  {
    if n > 0 {
      RangeSize(n - 1);
      InRange(n - 1);
    }
  }

  lemma {:induction false} SeenSize(arrivals: seq<nat>)
    ensures |Seen(arrivals)| == |arrivals| - Repeats(arrivals)
    ensures Seen(arrivals) <= Range(Highest(arrivals))
  {
    if arrivals != [] {
      var n := |arrivals| - 1;
      var p, was := arrivals[n], arrivals[..n];
      SeenSize(was);
      assert arrivals == was + [p];
      assert Seen(arrivals) == if p == 0 then Seen(was) else Seen(was) + {p};
      assert p in Seen(was) <==> p != 0 && p in was;
      InRange(Highest(arrivals));
      InRange(Highest(was));
    }
  }

  /** The reported loss is the number of missing packets less the arrivals that brought nothing new. */
  lemma {:induction false} LossExact(arrivals: seq<nat>)
    requires Fits(arrivals)
    ensures var c := Count(arrivals); |Missing(arrivals)| == c.cntError - c.outOfOrder + Repeats(arrivals)
  {
    ExactLaw(arrivals);
    SeenSize(arrivals);
    RangeSize(Highest(arrivals));
  }

  /** So it is exact if and only if no packet was duplicated. */
  lemma {:induction false} LossExactIff(arrivals: seq<nat>)
    requires Fits(arrivals)
    ensures var c := Count(arrivals);
            |Missing(arrivals)| == c.cntError - c.outOfOrder <==>
            0 !in arrivals && forall i, j :: 0 <= i < j < |arrivals| ==> arrivals[i] != arrivals[j]
  {
    LossExact(arrivals);
    NoRepeats(arrivals);
  }

  lemma {:induction false} NoRepeats(arrivals: seq<nat>)
    ensures Repeats(arrivals) == 0 <==>
            0 !in arrivals && forall i, j :: 0 <= i < j < |arrivals| ==> arrivals[i] != arrivals[j]
  {
    if arrivals != [] {
      var n := |arrivals| - 1;
      NoRepeats(arrivals[..n]);
      assert arrivals == arrivals[..n] + [arrivals[n]];
    }
  }

  /** One duplicated packet: nothing is missing, yet the reported loss is minus one. */
  lemma {:induction false} DuplicateHidesLoss()
    ensures Missing([1, 1]) == {} && Count([1, 1]).cntError - Count([1, 1]).outOfOrder == -1
  {
    hide Count;
    LossExact([1, 1]);
    InRange(1);
    assert [1, 1][..1] == [1] && [1][..0] == [];
    assert Highest([1]) == 1 && Repeats([1]) == 0;
  }
}
