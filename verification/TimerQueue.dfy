/**
 The timer queue of `timer.c`: a doubly linked active list sorted by expiry, a
 free list linked through `next`, and a run loop that moves timers inside the
 active list while it walks it.  The ghost sequences `active` and `spare` give
 the timers of the two lists in link order.
 */
module TimerQueue {
  import opened CString

  // ---------------------------------------------------------------- time

  datatype Time = Time(sec: int, usec: int)

  function Micros(t: Time): int {
    t.sec * 1_000_000 + t.usec
  }

  predicate Normal(t: Time) {
    0 <= t.usec < 1_000_000
  }

  /** The comparison of the list code: seconds first, then microseconds. */
  predicate Before(a: Time, b: Time) {
    a.sec < b.sec || (a.sec == b.sec && a.usec < b.usec)
  }

  /** Division and remainder of C: truncation toward zero. */
  function CDiv(u: int): int {
    if u >= 0 then u / 1_000_000 else -(-u / 1_000_000)
  }

  function CMod(u: int): int {
    u - CDiv(u) * 1_000_000
  }

  /** `add_usecs`.  A negative amount can leave a negative microsecond part. */
  function AddUsecs(t: Time, u: int): (r: Time)
    ensures Micros(r) == Micros(t) + u && r.usec < 1_000_000
    ensures Normal(t) ==> (Normal(r) <==> t.usec + CMod(u) >= 0)
    ensures u >= 0 && Normal(t) ==> Normal(r)
  {
    var sec, usec := t.sec + CDiv(u), t.usec + CMod(u);
    if usec >= 1_000_000 then Time(sec + usec / 1_000_000, usec % 1_000_000) else Time(sec, usec)
  }

  lemma {:induction false} BeforeMicros(a: Time, b: Time)
    requires a.usec < 1_000_000 && Normal(b)
    ensures !Before(b, a) ==> Micros(a) <= Micros(b)
    ensures Normal(a) ==> (Before(a, b) <==> Micros(a) < Micros(b)) && (Before(b, a) <==> Micros(b) < Micros(a))
  {
    if a.sec < b.sec {
      assert a.sec + 1 <= b.sec;
    } else if a.sec > b.sec {
      assert a.sec >= b.sec + 1;
    }
  }

  /** A time that `add_usecs` can leave is ordered by the list code as by its microseconds iff it is normal. */
  lemma {:induction false} OrderedIffNormal(a: Time)
    requires a.usec < 1_000_000
    ensures Normal(a) <==> forall b :: Normal(b) ==> (Before(b, a) <==> Micros(b) < Micros(a))
  {
    if Normal(a) {
      forall b | Normal(b) ensures Before(b, a) <==> Micros(b) < Micros(a) {
        BeforeMicros(a, b);
      }
    } else {
      var b := Time(a.sec - 1, 999_999);
      assert Normal(b) && Before(b, a) && Micros(a) <= Micros(b);
    }
  }

  /** A negative delay with a fraction leaves a negative microsecond part: 1.9 seconds before 6. */
  lemma {:induction false} NegativeDelay()
    ensures AddUsecs(Time(6, 0), -1_900_000) == Time(5, -900_000) && !Normal(Time(5, -900_000))
  {
    assert CDiv(-1_900_000) == -1;
  }

  // ---------------------------------------------------------------- timers

  class Timer {
    var time: Time
    var usecs: int
    var periodic: bool
    var prev: Timer?
    var next: Timer?

    constructor ()
    {
      time, usecs, periodic, prev, next := Time(0, 0), 0, false, null, null;
    }
  }

  /** The element at `i`, or null outside the sequence. */
  ghost function Nth(s: seq<Timer>, i: int): Timer? {
    if 0 <= i < |s| then s[i] else null
  }

  ghost predicate Unique(s: seq<Timer>) {
    forall i, j :: 0 <= i < j < |s| ==> s[i] != s[j]
  }

  ghost predicate Forward(s: seq<Timer>)
    reads s`next
  {
    forall i {:trigger s[i].next} :: 0 <= i < |s| ==> s[i].next == Nth(s, i + 1)
  }

  ghost predicate Backward(s: seq<Timer>)
    reads s`prev
  {
    forall i {:trigger s[i].prev} :: 0 <= i < |s| ==> s[i].prev == Nth(s, i - 1)
  }

  /** The links of the timers in `s`, as they are now. */
  ghost function Links(s: set<Timer>): map<Timer, (Timer?, Timer?)>
    reads s
  {
    map t | t in s :: (t.prev, t.next)
  }

  ghost predicate WasForward(s: seq<Timer>, was: map<Timer, (Timer?, Timer?)>) {
    && (forall x :: x in s ==> x in was)
    && forall i {:trigger was[s[i]]} :: 0 <= i < |s| ==> was[s[i]].1 == Nth(s, i + 1)
  }

  ghost predicate WasBackward(s: seq<Timer>, was: map<Timer, (Timer?, Timer?)>) {
    && (forall x :: x in s ==> x in was)
    && forall i {:trigger was[s[i]]} :: 0 <= i < |s| ==> was[s[i]].0 == Nth(s, i - 1)
  }

  ghost predicate Sorted(s: seq<Timer>)
    reads s`time
  {
    forall i, j :: 0 <= i < j < |s| ==> !Before(s[j].time, s[i].time)
  }

  /** Every microsecond part is below a million, as `add_usecs` leaves it. */
  ghost predicate Carried(s: seq<Timer>)
    reads s`time
  {
    forall t :: t in s ==> t.time.usec < 1_000_000
  }

  ghost function Elems(s: seq<Timer>): set<Timer> {
    set t | t in s
  }

  /** `t` put in at position `k`. */
  ghost function Put(s: seq<Timer>, k: nat, t: Timer): (r: seq<Timer>)
    requires k <= |s|
    ensures |r| == |s| + 1 && r[k] == t
  {
    s[..k] + [t] + s[k..]
  }

  ghost function Without(s: seq<Timer>, k: nat): (r: seq<Timer>)
    requires k < |s|
    ensures |r| == |s| - 1
  {
    s[..k] + s[k + 1..]
  }

  /** `k` is the place behind every timer that expires no later than `at`: equal expiries keep their order. */
  ghost predicate PlaceFor(s: seq<Timer>, at: Time, k: nat)
    reads s`time
  {
    && k <= |s|
    && (forall i :: 0 <= i < k ==> !Before(at, s[i].time))
    && (forall i :: k <= i < |s| ==> Before(at, s[i].time))
  }

  lemma {:induction false} HeadPlace(s: seq<Timer>, at: Time)
    requires Sorted(s) && |s| > 0 && Before(at, s[0].time)
    ensures PlaceFor(s, at, 0)
  {
  }

  lemma {:induction false} PutAt(s: seq<Timer>, k: nat, t: Timer, i: int)
    requires k <= |s|
    ensures Nth(Put(s, k, t), i) == if i < k then Nth(s, i) else if i == k then t else Nth(s, i - 1)
  {
  }

  lemma {:induction false} WithoutAt(s: seq<Timer>, k: nat, i: int)
    requires k < |s|
    ensures Nth(Without(s, k), i) == if i < k then Nth(s, i) else if i < 0 then null else Nth(s, i + 1)
  {
  }

  lemma {:induction false} ForwardPut(s: seq<Timer>, k: nat, t: Timer, was: map<Timer, (Timer?, Timer?)>)
    requires k <= |s| && WasForward(s, was)
    requires t.next == Nth(s, k) && (k > 0 ==> s[k - 1].next == t)
    requires forall x {:trigger x.next} :: x in s && x != Nth(s, k - 1) ==> x.next == was[x].1
    requires Unique(s)
    ensures Forward(Put(s, k, t))
  {
    var r := Put(s, k, t);
    forall i {:trigger r[i].next} | 0 <= i < |r| ensures r[i].next == Nth(r, i + 1) {
      PutAt(s, k, t, i);
      PutAt(s, k, t, i + 1);
    }
  }

  lemma {:induction false} BackwardPut(s: seq<Timer>, k: nat, t: Timer, was: map<Timer, (Timer?, Timer?)>)
    requires k <= |s| && WasBackward(s, was)
    requires t.prev == Nth(s, k - 1) && (k < |s| ==> s[k].prev == t)
    requires forall x {:trigger x.prev} :: x in s && x != Nth(s, k) ==> x.prev == was[x].0
    requires Unique(s)
    ensures Backward(Put(s, k, t))
  {
    var r := Put(s, k, t);
    forall i {:trigger r[i].prev} | 0 <= i < |r| ensures r[i].prev == Nth(r, i - 1) {
      PutAt(s, k, t, i);
      PutAt(s, k, t, i - 1);
    }
  }

  lemma {:induction false} UniquePut(s: seq<Timer>, k: nat, t: Timer)
    requires k <= |s| && Unique(s) && t !in s
    ensures Unique(Put(s, k, t)) && Elems(Put(s, k, t)) == Elems(s) + {t}
    ensures forall x :: x in Put(s, k, t) <==> x in s || x == t
  {
    var r := Put(s, k, t);
    assert s == s[..k] + s[k..];
    forall x | x in s ensures x in r {
      var i :| 0 <= i < |s| && s[i] == x;
      PutAt(s, k, t, if i < k then i else i + 1);
    }
    assert forall x :: x in Elems(r) <==> x in r;
  }

  lemma {:induction false} SortedPut(s: seq<Timer>, k: nat, t: Timer)
    requires Sorted(s) && PlaceFor(s, t.time, k)
    ensures Sorted(Put(s, k, t))
  {
    var r := Put(s, k, t);
    forall i, j | 0 <= i < j < |r| ensures !Before(r[j].time, r[i].time) {
      PutAt(s, k, t, i);
      PutAt(s, k, t, j);
    }
  }

  lemma {:induction false} ForwardWithout(s: seq<Timer>, k: nat, was: map<Timer, (Timer?, Timer?)>)
    requires k < |s| && WasForward(s, was)
    requires k > 0 ==> s[k - 1].next == Nth(s, k + 1)
    requires forall x {:trigger x.next} :: x in s && x != Nth(s, k - 1) ==> x.next == was[x].1
    requires Unique(s)
    ensures Forward(Without(s, k))
  {
    var r := Without(s, k);
    forall i {:trigger r[i].next} | 0 <= i < |r| ensures r[i].next == Nth(r, i + 1) {
      WithoutAt(s, k, i);
      WithoutAt(s, k, i + 1);
    }
  }

  lemma {:induction false} BackwardWithout(s: seq<Timer>, k: nat, was: map<Timer, (Timer?, Timer?)>)
    requires k < |s| && WasBackward(s, was)
    requires k + 1 < |s| ==> s[k + 1].prev == Nth(s, k - 1)
    requires forall x {:trigger x.prev} :: x in s && x != Nth(s, k + 1) ==> x.prev == was[x].0
    requires Unique(s)
    ensures Backward(Without(s, k))
  {
    var r := Without(s, k);
    forall i {:trigger r[i].prev} | 0 <= i < |r| ensures r[i].prev == Nth(r, i - 1) {
      WithoutAt(s, k, i);
      WithoutAt(s, k, i - 1);
    }
  }

  lemma {:induction false} UniqueWithout(s: seq<Timer>, k: nat)
    requires k < |s| && Unique(s)
    ensures Unique(Without(s, k)) && Elems(s) == Elems(Without(s, k)) + {s[k]}
    ensures forall x :: x in Without(s, k) <==> x in s && x != s[k]
  {
    var r := Without(s, k);
    forall x | x in s && x != s[k] ensures x in r {
      var i :| 0 <= i < |s| && s[i] == x;
      WithoutAt(s, k, if i < k then i else i - 1);
    }
    assert forall x :: x in Elems(r) <==> x in r;
  }

  lemma {:induction false} SortedWithout(s: seq<Timer>, k: nat)
    requires k < |s| && Sorted(s)
    ensures Sorted(Without(s, k))
  {
    var r := Without(s, k);
    forall i, j | 0 <= i < j < |r| ensures !Before(r[j].time, r[i].time) {
      WithoutAt(s, k, i);
      WithoutAt(s, k, j);
    }
  }

  class Queue {
    var timers: Timer?
    var freeTimers: Timer?
    const plenty: bool  // no allocation fails
    ghost var active: seq<Timer>
    ghost var spare: seq<Timer>
    ghost var pool: set<Timer>

    /** The lists are linked as the ghost sequences say and share no timer. */
    ghost predicate Linked()
      reads this, pool
    {
      && (forall t :: t in active ==> t in pool) && (forall t :: t in spare ==> t in pool)
      && timers == Nth(active, 0) && Forward(active) && Backward(active) && Unique(active)
      && freeTimers == Nth(spare, 0) && Forward(spare) && Unique(spare)
      && (forall t :: t in active ==> t !in spare)
    }

    /** Sorted, and each timer on exactly one of the two lists. */
    ghost predicate Valid()
      reads this, pool
    {
      Linked() && Sorted(active) && Carried(active) && pool == Elems(active) + Elems(spare)
    }

    constructor (plenty: bool)
      ensures Valid() && active == [] && spare == [] && pool == {} && this.plenty == plenty
    {
      this.plenty := plenty;
      timers, freeTimers, active, spare, pool := null, null, [], [], {};
    }

    /** The links of the active timers before a change. */
    ghost predicate WasLinked(s: seq<Timer>, was: map<Timer, (Timer?, Timer?)>) {
      && Unique(s) && WasForward(s, was)
      && WasBackward(s, was)
    }

    lemma {:induction false} SpareKept(s: seq<Timer>, was: map<Timer, (Timer?, Timer?)>, x: Timer?)
      requires WasForward(spare, was) && (x == null || x in s) && forall t :: t in s ==> t !in spare
      requires forall y {:trigger y.next} :: y in spare && y != x ==> y.next == was[y].1
      ensures Forward(spare)
    {
      forall i {:trigger spare[i].next} | 0 <= i < |spare| ensures spare[i].next == Nth(spare, i + 1) {
        assert spare[i].next == was[spare[i]].1;
      }
    }

    /** The pointers around position `k` have been set for `t`. */
    lemma {:induction false} Inserted(s: seq<Timer>, was: map<Timer, (Timer?, Timer?)>, k: nat, t: Timer)
      requires WasLinked(s, was) && was.Keys == pool && t in pool && t !in s && t !in spare
      requires freeTimers == Nth(spare, 0) && WasForward(spare, was) && Unique(spare)
      requires (forall x :: x in s ==> x in pool && x !in spare) && (forall x :: x in spare ==> x in pool)
      requires k <= |s| && PlaceFor(s, t.time, k) && Sorted(s) && active == Put(s, k, t)
      requires timers == Nth(active, 0) && t.next == Nth(s, k) && t.prev == Nth(s, k - 1)
      requires (k > 0 ==> s[k - 1].next == t) && (k < |s| ==> s[k].prev == t)
      requires forall x {:trigger x.next} :: x in pool && x != t && x != Nth(s, k - 1) ==> x.next == was[x].1
      requires forall x {:trigger x.prev} :: x in pool && x != t && x != Nth(s, k) ==> x.prev == was[x].0
      ensures Linked() && Sorted(active)
    {
      SpareKept(s, was, Nth(s, k - 1));
      hide Sorted, Forward, Backward, PlaceFor, Put;
      ForwardPut(s, k, t, was);
      BackwardPut(s, k, t, was);
      UniquePut(s, k, t);
      SortedPut(s, k, t);
    }

    lemma {:induction false} Removed(s: seq<Timer>, was: map<Timer, (Timer?, Timer?)>, k: nat)
      requires WasLinked(s, was) && was.Keys == pool && k < |s|
      requires freeTimers == Nth(spare, 0) && WasForward(spare, was) && Unique(spare)
      requires (forall x :: x in s ==> x in pool && x !in spare) && (forall x :: x in spare ==> x in pool)
      requires active == Without(s, k) && Sorted(active) && timers == Nth(active, 0)
      requires (k > 0 ==> s[k - 1].next == Nth(s, k + 1)) && (k + 1 < |s| ==> s[k + 1].prev == Nth(s, k - 1))
      requires forall x {:trigger x.next} :: x in pool && x != Nth(s, k - 1) ==> x.next == was[x].1
      requires forall x {:trigger x.prev} :: x in pool && x != Nth(s, k + 1) ==> x.prev == was[x].0
      ensures Linked() && Sorted(active) && s[k] !in active
    {
      SpareKept(s, was, Nth(s, k - 1));
      hide Sorted, Forward, Backward, Without;
      ForwardWithout(s, k, was);
      BackwardWithout(s, k, was);
      UniqueWithout(s, k);
    }

    /** The walk of `list_add` behind the head: where `t` goes if it does not go first. */
    method InsertionPoint(t: Timer) returns (t2prev: Timer, t2: Timer?, ghost k: nat)
      requires Linked() && Sorted(active) && timers != null && !Before(t.time, timers.time)
      ensures 0 < k && PlaceFor(active, t.time, k) && t2prev == active[k - 1] && t2 == Nth(active, k)
    {
      t2prev, t2 := timers, timers.next;
      k := 1;
      while t2 != null
        invariant 1 <= k <= |active| && t2prev == active[k - 1] && t2 == Nth(active, k)
        invariant forall i :: 0 <= i < k ==> !Before(t.time, active[i].time)
        decreases |active| - k
      {
        if Before(t.time, t2.time) { return; }
        t2prev, t2, k := t2, t2.next, k + 1;
      }
    }

    lemma {:induction false} WasLinkedNow(was: map<Timer, (Timer?, Timer?)>)
      requires Linked() && was == Links(pool)
      ensures WasLinked(active, was) && WasForward(spare, was) && was.Keys == pool
    {
    }

    /** The pointer assignments of `list_add`, between the neighbours it found. */
    method LinkBetween(t: Timer, before: Timer?, after: Timer?, ghost k: nat)
      requires Linked() && Sorted(active) && t in pool && t !in active && t !in spare
      requires k <= |active| && PlaceFor(active, t.time, k) && before == Nth(active, k - 1) && after == Nth(active, k)
      modifies this`timers, this`active, pool`prev, pool`next
      ensures Linked() && Sorted(active) && spare == old(spare) && active == Put(old(active), k, t)
    {
      ghost var was := Links(pool);
      WasLinkedNow(was);
      hide Put, Forward, Backward, WasLinked, WasForward, Sorted, PlaceFor;
      if before == null {
        timers := t;
      } else {
        before.next := t;
      }
      t.prev := before;
      t.next := after;
      if after != null {
        after.prev := t;
      }
      active := Put(active, k, t);
      PutAt(old(active), k, t, 0);
      Inserted(old(active), was, k, t);
    }

    /** `list_add`: behind every timer that expires no later, so equal expiries stay in order of arrival. */
    method ListAdd(t: Timer) returns (ghost k: nat)
      requires Linked() && Sorted(active) && t in pool && t !in active && t !in spare
      modifies this`timers, this`active, pool`prev, pool`next
      ensures Linked() && Sorted(active) && spare == old(spare)
      ensures PlaceFor(old(active), t.time, k) && active == Put(old(active), k, t)
    {
      hide Put, Forward, Backward, Unique;
      k := 0;
      if timers == null {
        LinkBetween(t, null, null, k);
      } else if Before(t.time, timers.time) {
        HeadPlace(active, t.time);
        LinkBetween(t, null, timers, k);
      } else {
        var t2prev, t2;
        t2prev, t2, k := InsertionPoint(t);
        LinkBetween(t, t2prev, t2, k);
      }
    }

    /** `list_remove`. */
    method ListRemove(t: Timer, ghost k: nat)
      requires Linked() && k < |active| && active[k] == t && Sorted(Without(active, k))
      modifies this`timers, this`active, pool`prev, pool`next
      ensures Linked() && Sorted(active) && spare == old(spare) && active == Without(old(active), k) && t !in active
    {
      ghost var was := Links(pool);
      WasLinkedNow(was);
      assert t.prev == Nth(active, k - 1) && t.next == Nth(active, k + 1);
      assert forall i :: 0 <= i < |active| && i != k ==> active[i] != t;
      hide Forward, Backward, WasLinked, WasForward, Sorted, Without;
      if t.prev == null {
        timers := t.next;
      } else {
        t.prev.next := t.next;
      }
      if t.next != null {
        t.next.prev := t.prev;
      }
      active := Without(active, k);
      WithoutAt(old(active), k, 0);
      Removed(old(active), was, k);
    }

    /** `list_resort`: the timer at `j` has a new expiry and moves to its place. */
    method ListResort(t: Timer, ghost j: nat) returns (ghost k: nat)
      requires Linked() && j < |active| && active[j] == t && Sorted(Without(active, j))
      modifies this`timers, this`active, pool`prev, pool`next
      ensures Linked() && Sorted(active) && spare == old(spare)
      ensures PlaceFor(Without(old(active), j), t.time, k) && active == Put(Without(old(active), j), k, t)
    {
      hide Put, Without, Forward, Backward, Unique, Sorted, PlaceFor;
      assert t in active;
      ListRemove(t, j);
      k := ListAdd(t);
    }

    /** Setting the expiry of the timer at `j` and resorting. */
    method Reschedule(t: Timer, time: Time, ghost j: nat) returns (ghost k: nat)
      requires Valid() && j < |active| && active[j] == t && time.usec < 1_000_000
      modifies this`timers, this`active, pool`prev, pool`next, t`time
      ensures Valid() && spare == old(spare) && t.time == time
      ensures PlaceFor(Without(old(active), j), time, k) && active == Put(Without(old(active), j), k, t)
      ensures forall x :: x in active <==> x in old(active)
    {
      hide Put, Without, Forward, Backward, Unique, Sorted, Elems;
      ghost var others := Without(active, j);
      SortedWithout(active, j);
      UniqueWithout(active, j);
      assert t !in others;
      t.time := time;
      assert Sorted(others);
      k := ListResort(t, j);
      UniquePut(Without(old(active), j), k, t);
      assert t in old(active);
    }

    /** `tmr_cancel`: off the active list and first on the free list. */
    method Cancel(t: Timer, ghost j: nat)
      requires Valid() && j < |active| && active[j] == t
      modifies this`timers, this`freeTimers, this`active, this`spare, pool`prev, pool`next
      ensures Valid() && active == Without(old(active), j) && spare == [t] + old(spare)
      ensures forall x :: x in active <==> x in old(active) && x != t
    {
      hide Without, Backward, Forward, Sorted, Elems, Put, Unique;
      SortedWithout(active, j);
      UniqueWithout(active, j);
      assert t in active;
      ListRemove(t, j);
      t.next := freeTimers;
      freeTimers := t;
      t.prev := null;
      SparePushed(spare, t);
      spare := [t] + spare;
    }

    /** The timer for `tmr_create`: the first free one, else a new one if the allocator has one. */
    method Take() returns (t: Timer?)
      requires Valid()
      modifies this`freeTimers, this`spare, this`pool
      ensures Linked() && Sorted(active) && Carried(active)
      ensures t == null ==> !plenty && Valid() && old(spare) == [] && spare == old(spare) && pool == old(pool)
      ensures t != null ==> t !in active && t !in spare && pool == Elems(active) + Elems(spare) + {t}
      ensures t != null ==> (if old(spare) == [] then spare == [] && fresh(t) && pool == old(pool) + {t}
                             else t == old(spare)[0] && spare == old(spare)[1..] && pool == old(pool))
    {
      hide Backward, Sorted;
      if freeTimers != null {
        t := freeTimers;
        freeTimers := t.next;
        spare := spare[1..];
      } else {
        if !plenty {
          if * { return null; }
        }
        t := new Timer();
        pool := pool + {t};
      }
    }

    /** `tmr_create`; null only when the free list is empty and the allocator fails. */
    method Create(now: Time, usecs: int, periodic: bool) returns (t: Timer?, ghost k: nat)
      requires Valid() && Normal(now)
      modifies this, pool
      ensures Valid()
      ensures forall x :: x in old(pool) && x != t ==>
                x.time == old(x.time) && x.usecs == old(x.usecs) && x.periodic == old(x.periodic)
      ensures t == null ==> !plenty && old(spare) == spare == [] && active == old(active) && pool == old(pool)
      ensures t != null ==> t.time == AddUsecs(now, usecs) && t.usecs == usecs && t.periodic == periodic
      ensures t != null ==> pool == old(pool) + {t} && PlaceFor(old(active), t.time, k) && active == Put(old(active), k, t) && t !in old(active)
      ensures t != null ==> if old(spare) == [] then spare == [] && fresh(t) else t == old(spare)[0] && spare == old(spare)[1..]
      ensures forall x :: x in active <==> x in old(active) || (t != null && x == t)
      ensures fresh(pool - old(pool))
    {
      hide Backward, Sorted, Forward, Elems, Put, Unique, AddUsecs;
      t := Take();
      k := 0;
      if t == null { return; }
      t.usecs := usecs;
      t.periodic := periodic;
      t.time := AddUsecs(now, usecs);
      assert Linked() && Sorted(active);
      k := Enter(t);
    }

    /** A timer that is on neither list joins the active one. */
    method Enter(t: Timer) returns (ghost k: nat)
      requires Linked() && Sorted(active) && Carried(active) && t in pool && t !in active && t !in spare
      requires pool == Elems(active) + Elems(spare) + {t} && t.time.usec < 1_000_000
      modifies this`timers, this`active, pool`prev, pool`next
      ensures Valid() && spare == old(spare)
      ensures PlaceFor(old(active), t.time, k) && active == Put(old(active), k, t)
      ensures forall x :: x in active <==> x in old(active) || x == t
    {
      hide Backward, Sorted, Forward, Elems, Put, Unique, PlaceFor;
      ghost var was := active;
      assert Unique(was) by { WellLinked(); }
      k := ListAdd(t);
      PlaceFits(was, t.time, k);
      UniquePut(was, k, t);
    }

    /** `tmr_reset`. */
    method Reset(now: Time, t: Timer, ghost j: nat) returns (ghost k: nat)
      requires Valid() && Normal(now) && j < |active| && active[j] == t
      modifies this`timers, this`active, pool`prev, pool`next, t`time
      ensures Valid() && spare == old(spare) && t.time == AddUsecs(now, t.usecs)
      ensures PlaceFor(Without(old(active), j), t.time, k) && active == Put(Without(old(active), j), k, t)
      ensures forall x :: x in active <==> x in old(active)
    {
      k := Reschedule(t, AddUsecs(now, t.usecs), j);
    }

    /** `tmr_timeout`: reading only the head gives the shortest wait, and until it is over no timer is due. */
    method Timeout(now: Time) returns (wait: Option<Time>)
      requires Valid() && Normal(now)
      ensures wait.None? <==> active == []
      ensures wait.Some? ==> active != [] && wait.value == WaitFor(now, active[0].time)
      ensures wait.Some? && AllNormal(active) ==> Shortest(active, now, wait.value)
    {
      WellLinked();
      if timers == null { return None; }
      wait := Some(WaitFor(now, timers.time));
      hide Micros, Normal, Remaining, Before, WaitFor, Linked;
      if AllNormal(active) {
        HeadFirst(active, now);
        WaitSafe(active, now, Micros(wait.value));
        assert active[0] in active;
      }
    }

    /** What is known of `x`, due first at `t0`, when the walk of `tmr_run` stands at position `p`. */
    ghost predicate Tracked(x: Timer, t0: Time, now: Time, log: seq<Firing>, p: nat)
      requires p <= |active|
      reads this, x
    {
      var n := Count(log, x);
      if n == 0 then x in active && x.time == t0 && (Due(t0, now) ==> x !in active[..p])
      else if x.periodic then Due(t0, now) && x in active && Micros(x.time) == Micros(t0) + n * x.usecs
      else Due(t0, now) && n == 1 && x in spare
    }

    /** The invariant of the walk: `was` holds the expiry on entry of every timer then active. */
    ghost predicate Walking(was: map<Timer, Time>, now: Time, log: seq<Firing>, p: nat)
      reads this, pool
    {
      && p <= |active|
      && (forall x :: x in was ==> x in pool && Tracked(x, was[x], now, log, p))
      && (forall x :: x in active ==> x in was)
      && (forall e :: e in log ==> e.t in was && Due(e.at, now))
    }

    /** A due periodic timer at `p` has fired and is moved on. */
    method MoveOn(t: Timer, ghost p: nat, now: Time) returns (ghost p': nat)
      requires Valid() && Normal(now) && p < |active| && active[p] == t && Due(t.time, now) && t.usecs > 0
      modifies this`timers, this`active, pool`prev, pool`next, t`time
      ensures Valid() && p' <= |active| && Nth(old(active), p + 1) == Nth(active, p')
      ensures Backlog(active, now) < old(Backlog(active, now))
      ensures forall x :: x in active[..p'] ==> x in old(active)[..p] || x == t
      ensures forall x :: x in active <==> x in old(active)
      ensures Micros(t.time) == Micros(old(t.time)) + t.usecs && spare == old(spare)
      ensures Normal(old(t.time)) ==> Normal(t.time)
    {
      hide Put, Without, Forward, Backward, Unique, Sorted, Elems, PlaceFor, Micros, Late, Backlog, Linked;
      ghost var others, k := Without(active, p), 0;
      assert Unique(active) by { WellLinked(); }
      UniqueWithout(active, p);
      BacklogWithout(active, p, now);
      WithoutAt(active, p, p);
      LessLate(t.time, t.usecs, now);
      assert t !in others;
      k := Reschedule(t, AddUsecs(t.time, t.usecs), p);
      assert Backlog(others, now) == old(Backlog(Without(active, p), now));
      PlaceFits(others, t.time, k);
      UniqueWithout(old(active), p);
      UniquePut(others, k, t);
      BacklogPut(others, k, t, now);
      p' := if k <= p then p + 1 else p;
      PutAt(others, k, t, p');
      PrefixMoved(old(active), p, k, t, p');
    }

    lemma {:induction false} WellLinked()
      requires Linked()
      ensures Unique(active) && timers == Nth(active, 0)
    {
    }

    /** A due one-shot at `p` has fired and is cancelled. */
    method Retire(t: Timer, ghost p: nat, now: Time)
      requires Valid() && Normal(now) && p < |active| && active[p] == t && Due(t.time, now)
      modifies this`timers, this`freeTimers, this`active, this`spare, pool`prev, pool`next
      ensures Valid() && p <= |active| && Nth(old(active), p + 1) == Nth(active, p)
      ensures Backlog(active, now) < old(Backlog(active, now))
      ensures active[..p] == old(active)[..p] && spare == [t] + old(spare)
      ensures forall x :: x in active <==> x in old(active) && x != t
    {
      hide Without, Forward, Backward, Unique, Sorted, Elems, Micros, Late, Backlog, Linked;
      assert Unique(active) by { WellLinked(); }
      UniqueWithout(active, p);
      BacklogWithout(active, p, now);
      WithoutAt(active, p, p);
      AtLeastLate(t.time, now);
      Cancel(t, p);
      assert Backlog(active, now) == old(Backlog(Without(active, p), now));
      UniqueWithout(old(active), p);
      PrefixRemoved(old(active), p);
    }

    /** One round of the loop of `tmr_run` with a due periodic timer. */
    method FirePeriodic(t: Timer, now: Time, ghost p: nat, ghost log: seq<Firing>, ghost was: map<Timer, Time>)
      returns (ghost p': nat)
      requires Valid() && Normal(now) && p < |active| && active[p] == t && t.periodic
      requires Due(t.time, now) && t.usecs > 0 && Walking(was, now, log, p)
      modifies this`timers, this`freeTimers, this`active, this`spare, pool`prev, pool`next, pool`time
      ensures Valid() && p' <= |active| && Nth(old(active), p + 1) == Nth(active, p')
      ensures Backlog(active, now) < old(Backlog(active, now))
      ensures Walking(was, now, log + [Firing(t, old(t.time))], p')
      ensures old(AllNormal(active)) ==> AllNormal(active)
    {
      hide Forward, Backward, Unique, Sorted, Carried, Elems, Micros, Late, Backlog, Linked, Before, Count, Due, Normal;
      ghost var log', n := log + [Firing(t, t.time)], Count(log, t);
      assert forall x :: x in active ==> x in pool by { WellPooled(); }
      FreshShot(t, was[t], now, log, p);
      OneMore(n, t.usecs);
      p' := MoveOn(t, p, now);
      forall x | x in was ensures Tracked(x, was[x], now, log', p') {
        CountLast(log, Firing(t, old(t.time)), x);
      }
    }

    /** One round of the loop of `tmr_run` with a due one-shot timer. */
    method FireOnce(t: Timer, now: Time, ghost p: nat, ghost log: seq<Firing>, ghost was: map<Timer, Time>)
      returns (ghost p': nat)
      requires Valid() && Normal(now) && p < |active| && active[p] == t && !t.periodic
      requires Due(t.time, now) && Walking(was, now, log, p)
      modifies this`timers, this`freeTimers, this`active, this`spare, pool`prev, pool`next, pool`time
      ensures Valid() && p' <= |active| && Nth(old(active), p + 1) == Nth(active, p')
      ensures Backlog(active, now) < old(Backlog(active, now))
      ensures Walking(was, now, log + [Firing(t, old(t.time))], p')
      ensures old(AllNormal(active)) ==> AllNormal(active)
    {
      hide Forward, Backward, Unique, Sorted, Carried, Elems, Micros, Late, Backlog, Linked, Before, Count, Due, Normal;
      ghost var log', n := log + [Firing(t, t.time)], Count(log, t);
      assert forall x :: x in active ==> x in pool by { WellPooled(); }
      FreshShot(t, was[t], now, log, p);
      Retire(t, p, now);
      p' := p;
      forall x | x in was ensures Tracked(x, was[x], now, log', p') {
        CountLast(log, Firing(t, old(t.time)), x);
      }
    }

    lemma {:induction false} WellPooled()
      requires Linked()
      ensures forall x :: x in active ==> x in pool && x !in spare
    {
    }

    /** An active one-shot has not fired yet; the first firing of a timer is at its expiry on entry. */
    lemma {:induction false} FreshShot(t: Timer, t0: Time, now: Time, log: seq<Firing>, p: nat)
      requires Linked() && p < |active| && active[p] == t && Tracked(t, t0, now, log, p) && Due(t.time, now)
      ensures !t.periodic ==> Count(log, t) == 0
      ensures Due(t0, now)
    {
    }

    /**
     `tmr_run`, with callbacks that leave the lists alone.  `log` records each firing with the expiry at that
     moment.  The walk remembers `next` before it moves a timer, so a periodic timer can fire several times.
     */
    method Run(now: Time) returns (ghost log: seq<Firing>)
      requires Valid() && Normal(now) && forall t :: t in active && t.periodic ==> t.usecs > 0
      modifies this`timers, this`freeTimers, this`active, this`spare, pool`prev, pool`next, pool`time
      ensures Valid()
      ensures forall e :: e in log ==> e.t in old(active) && Due(e.at, now)
      ensures forall x :: x in old(active) ==> (Due(old(x.time), now) <==> Count(log, x) > 0)
      ensures forall x :: x in old(active) && x.periodic ==>
                x in active && Micros(x.time) == Micros(old(x.time)) + Count(log, x) * x.usecs
      ensures forall x :: x in old(active) && !x.periodic && Due(old(x.time), now) ==> Count(log, x) == 1 && x in spare
      ensures forall x :: x in old(active) && !x.periodic && !Due(old(x.time), now) ==> x in active && x.time == old(x.time)
      ensures forall x :: x in active ==> x in old(active)
      ensures old(AllNormal(active)) ==> AllNormal(active)
      ensures old(NoneDue(active, now)) ==> log == []
    {
      hide Forward, Backward, Unique, Sorted, Elems, Micros, Late, Backlog, Linked, Before, Normal, AllNormal;
      log := [];
      ghost var was: map<Timer, Time> := map x: Timer | x in active :: x.time;
      WellLinked();
      WellPooled();
      var t := timers;
      ghost var p: nat := 0;
      assert Walking(was, now, log, p);
      hide Walking, Count, Valid, Due, Tracked;
      while t != null
        invariant Valid() && p <= |active| && t == Nth(active, p) && Walking(was, now, log, p)
        invariant forall x :: x in was && x.periodic ==> x.usecs > 0
        invariant old(AllNormal(active)) ==> AllNormal(active)
        decreases Backlog(active, now)
      {
        Parts();
        NextIs(p);
        var next := t.next;
        if Before(now, t.time) {
          RestNotDue(active, p, now);
          break;
        }
        WasPositive(was, now, log, p);
        DueIfNot(t.time, now);
        ghost var at := t.time;
        if t.periodic {
          p := FirePeriodic(t, now, p, log, was);
        } else {
          p := FireOnce(t, now, p, log, was);
        }
        log := log + [Firing(t, at)];
        t := next;
      }
      assert forall x :: x in active && Due(x.time, now) ==> x in active[..p];
      WalkEnds(was, now, log, p);
      NoneFired(was, now, log);
    }

    /** The timer at position `j`, if there is one. */
    method At(j: nat) returns (t: Timer?)
      requires Linked()
      ensures t == Nth(active, j)
    {
      t := timers;
      var i := 0;
      while t != null && i < j
        invariant i <= j && (t == null ==> i >= |active|) && t == Nth(active, i)
      {
        NextIs(i);
        t, i := t.next, i + 1;
      }
    }

    /** Every expiry is normal and every delay can be added again. */
    ghost predicate Steady()
      reads this, pool
    {
      Valid() && AllNormal(active) && forall t :: t in active ==> t.usecs >= 0 && (t.periodic ==> t.usecs > 0)
    }

    /** One call of the program that owns the timers. */
    method Call(c: Call)
      requires Steady() && Sensible(c)
      modifies this, pool
      ensures Steady() && fresh(pool - old(pool))
    {
      hide Sorted, Backward, Forward, Unique, Elems, Put, Without, PlaceFor, Normal, AddUsecs, Micros, Due, Count;
      match c
      case Creates(now, usecs, periodic) =>
        var t, _ := Create(now, usecs, periodic);
        StaysNormal(now, usecs);
      case Resets(now, j) =>
        var t := At(j);
        if t != null {
          StaysNormal(now, t.usecs);
          var _ := Reset(now, t, j);
        }
      case Cancels(j) =>
        var t := At(j);
        if t != null {
          Cancel(t, j);
        }
      case Runs(now) =>
        var _ := Run(now);
    }

    /** After any calls, the wait that `tmr_timeout` reads off the head is the least of all. */
    method WaitAfter(calls: seq<Call>, now: Time) returns (wait: Option<Time>)
      requires Steady() && Normal(now) && forall c :: c in calls ==> Sensible(c)
      modifies this, pool
      ensures Steady() && fresh(pool - old(pool)) && (wait.None? <==> active == [])
      ensures wait.Some? ==> Shortest(active, now, wait.value)
    {
      for i := 0 to |calls|
        invariant Steady() && fresh(pool - old(pool))
      {
        Call(calls[i]);
      }
      wait := Timeout(now);
    }

    lemma {:induction false} Parts()
      requires Valid()
      ensures Linked() && Sorted(active)
    {
    }

    lemma {:induction false} WasPositive(was: map<Timer, Time>, now: Time, log: seq<Firing>, p: nat)
      requires Walking(was, now, log, p)
      ensures forall x :: x in active ==> x in was
    {
    }

    /** Once no due timer is left at or behind the position of the walk. */
    lemma {:induction false} WalkEnds(was: map<Timer, Time>, now: Time, log: seq<Firing>, p: nat)
      requires Walking(was, now, log, p) && forall x :: x in active && Due(x.time, now) ==> x in active[..p]
      ensures forall e :: e in log ==> e.t in was && Due(e.at, now)
      ensures forall x :: x in was ==> (Due(was[x], now) <==> Count(log, x) > 0)
      ensures forall x :: x in was && x.periodic ==>
                x in active && Micros(x.time) == Micros(was[x]) + Count(log, x) * x.usecs
      ensures forall x :: x in was && !x.periodic && Due(was[x], now) ==> Count(log, x) == 1 && x in spare
      ensures forall x :: x in was && !x.periodic && !Due(was[x], now) ==> x in active && x.time == was[x]
      ensures forall x :: x in active ==> x in was
    {
    }

    static lemma {:induction false} NoneFired(was: map<Timer, Time>, now: Time, log: seq<Firing>)
      requires forall e :: e in log ==> e.t in was
      requires forall x :: x in was ==> (Due(was[x], now) <==> Count(log, x) > 0)
      ensures (forall x :: x in was ==> Before(now, was[x])) ==> log == []
    {
      if log != [] {
        var e := log[|log| - 1];
        assert e in log && Count(log, e.t) > 0;
      }
    }

    lemma {:induction false} NextIs(p: nat)
      requires Linked() && p < |active|
      ensures active[p].next == Nth(active, p + 1)
    {
    }
  }

  /** A call that a program makes; timers are named by their place in the active list. */
  datatype Call =
    | Creates(now: Time, usecs: int, periodic: bool)
    | Resets(now: Time, at: nat)
    | Cancels(at: nat)
    | Runs(now: Time)

  /** Clock readings are normal, delays are not negative and periods are positive. */
  predicate Sensible(c: Call) {
    match c
    case Creates(now, usecs, periodic) => Normal(now) && usecs >= 0 && (periodic ==> usecs > 0)
    case Resets(now, _) => Normal(now)
    case Cancels(_) => true
    case Runs(now) => Normal(now)
  }

  lemma {:induction false} StaysNormal(t: Time, u: int)
    requires Normal(t) && u >= 0
    ensures Normal(AddUsecs(t, u))
  {
  }

  /**
   A delay of minus 1.999999 seconds set at 6 seconds expires at 4.000001, yet is kept behind a timer that expires
   at 4.5: at 4 seconds `tmr_timeout` answers half a second where one microsecond is left.
   */
  method HeadNotEarliest() returns (wait: Option<Time>, least: int)
    ensures wait == Some(Time(0, 500_000)) && least == 1
  {
    hide *;
    Early();
    Later();
    Half();
    Ordered();
    var q := new Queue(true);
    var early, k := q.Create(Time(6, 0), -1_999_999, false);
    PutFirst([], k, early);
    assert [early] + [] == [early] && q.active == [early];
    var late, l := q.Create(Time(4, 0), 500_000, false);
    PutFirst([early], l, late);
    wait := q.Timeout(Time(4, 0));
    least := Remaining(Time(4, 0), early.time);
  }

  lemma {:induction false} Early()
    ensures AddUsecs(Time(6, 0), -1_999_999) == Time(5, -999_999)
  {
    assert CDiv(-1_999_999) == -1;
  }

  lemma {:induction false} Later()
    ensures AddUsecs(Time(4, 0), 500_000) == Time(4, 500_000)
  {
    assert CDiv(500_000) == 0;
  }

  lemma {:induction false} Ordered()
    ensures Normal(Time(6, 0)) && Normal(Time(4, 0)) && Before(Time(4, 500_000), Time(5, -999_999))
    ensures Remaining(Time(4, 0), Time(5, -999_999)) == 1
  {
  }

  lemma {:induction false} Half()
    ensures WaitFor(Time(4, 0), Time(4, 500_000)) == Time(0, 500_000)
  {
  }

  lemma {:induction false} PutFirst(s: seq<Timer>, k: nat, t: Timer)
    requires PlaceFor(s, t.time, k) && (s == [] || Before(t.time, s[0].time))
    ensures k == 0 && Put(s, k, t) == [t] + s
  {
  }

  datatype Firing = Firing(t: Timer, at: Time)

  predicate Due(at: Time, now: Time) {
    !Before(now, at)
  }

  ghost function Count(log: seq<Firing>, t: Timer): nat {
    if log == [] then 0 else Count(log[..|log| - 1], t) + if log[|log| - 1].t == t then 1 else 0
  }

  /** How long past its expiry a timer is, counted from one; zero while it is not due. */
  ghost function Late(at: Time, now: Time): nat {
    if Micros(now) < Micros(at) then 0 else Micros(now) - Micros(at) + 1
  }

  ghost function Backlog(s: seq<Timer>, now: Time): nat
    reads s`time
  {
    if s == [] then 0 else Late(s[0].time, now) + Backlog(s[1..], now)
  }

  lemma {:induction false} DueIfNot(at: Time, now: Time)
    ensures Due(at, now) <==> !Before(now, at)
  {
  }

  /** A normal expiry is due from its microsecond on. */
  lemma {:induction false} DueMicros(at: Time, now: Time)
    requires Normal(at) && Normal(now)
    ensures Due(at, now) <==> Micros(at) <= Micros(now)
  {
    BeforeMicros(at, now);
  }

  lemma {:induction false} AtLeastLate(at: Time, now: Time)
    requires Due(at, now) && Normal(now) && at.usec < 1_000_000
    ensures Late(at, now) > 0
  {
    BeforeMicros(at, now);
  }

  lemma {:induction false} LessLate(at: Time, u: int, now: Time)
    requires Due(at, now) && Normal(now) && at.usec < 1_000_000 && u > 0
    ensures Late(AddUsecs(at, u), now) < Late(at, now)
  {
    BeforeMicros(at, now);
  }

  lemma {:induction false} OneMore(n: nat, u: int)
    ensures (n + 1) * u == n * u + u
  {
  }

  lemma {:induction false} CountLast(log: seq<Firing>, e: Firing, x: Timer)
    ensures Count(log + [e], x) == Count(log, x) + if e.t == x then 1 else 0
  {
    assert (log + [e])[..|log|] == log;
  }

  /** From a timer that is not due on, none is. */
  lemma {:induction false} RestNotDue(s: seq<Timer>, p: nat, now: Time)
    requires p < |s| && Sorted(s) && Before(now, s[p].time)
    ensures forall x :: x in s && Due(x.time, now) ==> x in s[..p]
  {
    forall x | x in s && Due(x.time, now) ensures x in s[..p] {
      var i :| 0 <= i < |s| && s[i] == x;
      assert i < p;
      assert s[..p][i] == x;
    }
  }

  lemma {:induction false} BacklogSplit(s: seq<Timer>, k: nat, now: Time)
    requires k <= |s|
    ensures Backlog(s, now) == Backlog(s[..k], now) + Backlog(s[k..], now)
  {
    if k == 0 {
      assert s[..0] == [] && s[0..] == s;
    } else {
      BacklogSplit(s[1..], k - 1, now);
      assert s[..k][1..] == s[1..][..k - 1] && s[1..][k - 1..] == s[k..];
    }
  }

  lemma {:induction false} BacklogPut(s: seq<Timer>, k: nat, t: Timer, now: Time)
    requires k <= |s|
    ensures Backlog(Put(s, k, t), now) == Backlog(s, now) + Late(t.time, now)
  {
    BacklogSplit(s, k, now);
    var r := Put(s, k, t);
    BacklogSplit(r, k, now);
    assert r[..k] == s[..k] && r[k..] == [t] + s[k..];
    assert ([t] + s[k..])[1..] == s[k..];
  }

  lemma {:induction false} BacklogWithout(s: seq<Timer>, k: nat, now: Time)
    requires k < |s|
    ensures Backlog(s, now) == Backlog(Without(s, k), now) + Late(s[k].time, now)
  {
    assert s == Put(Without(s, k), k, s[k]);
    BacklogPut(Without(s, k), k, s[k], now);
  }

  lemma {:induction false} PlaceFits(s: seq<Timer>, at: Time, k: nat)
    requires PlaceFor(s, at, k)
    ensures k <= |s|
  {
  }

  lemma {:induction false} PrefixMoved(s: seq<Timer>, p: nat, k: nat, t: Timer, p': nat)
    requires p < |s| && k <= |s| - 1 && p' == if k <= p then p + 1 else p
    ensures forall x :: x in Put(Without(s, p), k, t)[..p'] ==> x in s[..p] || x == t
  {
    var r := Put(Without(s, p), k, t);
    forall x | x in r[..p'] ensures x in s[..p] || x == t {
      var i :| 0 <= i < p' && r[i] == x;
      PutAt(Without(s, p), k, t, i);
      WithoutAt(s, p, i);
      WithoutAt(s, p, i - 1);
    }
  }

  lemma {:induction false} PrefixRemoved(s: seq<Timer>, p: nat)
    requires p < |s|
    ensures Without(s, p)[..p] == s[..p]
  {
  }

  lemma {:induction false} WaitSafe(s: seq<Timer>, now: Time, wait: int)
    requires AllNormal(s) && forall t :: t in s ==> wait <= Remaining(now, t.time)
    ensures forall w :: Normal(w) && 0 < wait && Micros(w) < Micros(now) + wait ==> NoneDue(s, w)
  {
    forall w, t | Normal(w) && 0 < wait && Micros(w) < Micros(now) + wait && t in s ensures Before(w, t.time) {
      BeforeMicros(t.time, w);
    }
  }

  ghost predicate AllNormal(s: seq<Timer>)
    reads s`time
  {
    forall t :: t in s ==> Normal(t.time)
  }

  /** The wait is normal and the least that remains until any expiry, and before it is over no timer is due. */
  ghost predicate Shortest(s: seq<Timer>, now: Time, wait: Time)
    reads s`time
  {
    && Normal(wait)
    && (exists t :: t in s && Micros(wait) == Remaining(now, t.time))
    && (forall t :: t in s ==> Micros(wait) <= Remaining(now, t.time))
    && forall w :: Normal(w) && 0 < Micros(wait) && Micros(w) < Micros(now) + Micros(wait) ==> NoneDue(s, w)
  }

  ghost predicate NoneDue(s: seq<Timer>, now: Time)
    reads s`time
  {
    forall t :: t in s ==> Before(now, t.time)
  }

  /** Microseconds from `now` until `at`, zero once it has passed. */
  function Remaining(now: Time, at: Time): int {
    if Micros(at) <= Micros(now) then 0 else Micros(at) - Micros(now)
  }

  function WaitFor(now: Time, at: Time): (r: Time)
    ensures Normal(r) && Micros(r) == Remaining(now, at)
  {
    var d := (at.sec - now.sec) * 1_000_000 + (at.usec - now.usec);
    var usecs := if d <= 0 then 0 else d;
    Time(usecs / 1_000_000, usecs % 1_000_000)
  }

  lemma {:induction false} HeadFirst(s: seq<Timer>, now: Time)
    requires |s| > 0 && Sorted(s) && AllNormal(s)
    ensures forall t :: t in s ==> Remaining(now, s[0].time) <= Remaining(now, t.time)
  {
    forall t | t in s ensures Remaining(now, s[0].time) <= Remaining(now, t.time) {
      BeforeMicros(s[0].time, t.time);
    }
  }

  lemma {:induction false} SparePushed(s: seq<Timer>, t: Timer)
    requires Forward(s) && Unique(s) && t !in s && t.next == Nth(s, 0)
    ensures Forward([t] + s) && Unique([t] + s) && Elems([t] + s) == {t} + Elems(s)
  {
  }
}
