/** libev's poll backend (`ev_poll.c`): a dense array of `pollfd`s and an index from descriptors into it. */
module EventPoll {
  import opened EventMask

  const POLLIN: bv16 := 0x001
  const POLLOUT: bv16 := 0x004
  const POLLERR: bv16 := 0x008
  const POLLHUP: bv16 := 0x010
  const POLLNVAL: bv16 := 0x020

  /** The bits `bits` ask for exactly the events `ev`. */
  ghost predicate Asks(bits: bv16, ev: bv8) {
    && (bits & POLLIN != 0 <==> ev & EV_READ != 0)
    && (bits & POLLOUT != 0 <==> ev & EV_WRITE != 0)
    && bits & !(POLLIN | POLLOUT) == 0
  }

  /** The bits `revents` of a result mean the events `got`: errors and hang-ups count as both. */
  ghost predicate Means(revents: bv16, got: bv8) {
    && (got & EV_READ != 0 <==> revents & POLLIN != 0 || revents & POLLERR != 0 || revents & POLLHUP != 0)
    && (got & EV_WRITE != 0 <==> revents & POLLOUT != 0 || revents & POLLERR != 0 || revents & POLLHUP != 0)
    && IsEvents(got)
  }

  function Bits(ev: bv8): (bits: bv16)
    ensures Asks(bits, ev)
  {
    (if ev & EV_READ != 0 then POLLIN else 0) | (if ev & EV_WRITE != 0 then POLLOUT else 0)
  }

  /** The libev mask of a `pollfd`. */
  function Mask(bits: bv16): bv8 {
    (if bits & POLLIN != 0 then EV_READ else 0) | (if bits & POLLOUT != 0 then EV_WRITE else 0)
  }

  lemma {:induction false} MaskBits(ev: bv8)
    requires IsEvents(ev)
    ensures Mask(Bits(ev)) == ev
  {
  }

  /** Every entry asks for the events it decodes to and for nothing else. */
  ghost predicate Tidy(polls: seq<PollFd>) {
    forall i :: 0 <= i < |polls| ==> Asks(polls[i].events, Mask(polls[i].events))
  }

  function Got(revents: bv16): (got: bv8)
    ensures Means(revents, got)
  {
    (if revents & (POLLOUT | POLLERR | POLLHUP) != 0 then EV_WRITE else 0)
    | (if revents & (POLLIN | POLLERR | POLLHUP) != 0 then EV_READ else 0)
  }

  datatype PollFd = PollFd(fd: nat, events: bv16)

  /** The index and the array are inverse to each other. */
  ghost predicate Inverse(idxs: seq<int>, polls: seq<PollFd>) {
    && (forall fd :: 0 <= fd < |idxs| && idxs[fd] >= 0 ==> idxs[fd] < |polls| && polls[idxs[fd]].fd == fd)
    && (forall i :: 0 <= i < |polls| ==> polls[i].fd < |idxs| && idxs[polls[i].fd] == i)
  }

  ghost function Decode(idxs: seq<int>, polls: seq<PollFd>): Wants
    requires Inverse(idxs, polls)
  {
    map fd: nat | fd < |idxs| && idxs[fd] >= 0 :: Mask(polls[idxs[fd]].events)
  }

  lemma {:induction false} Grown(idxs: seq<int>, polls: seq<PollFd>)
    requires Inverse(idxs, polls)
    ensures Inverse(idxs + [-1], polls) && Decode(idxs + [-1], polls) == Decode(idxs, polls)
  {
    hide Mask;
  }

  lemma {:induction false} Indexed(idxs: seq<int>, polls: seq<PollFd>, fd: nat)
    requires Inverse(idxs, polls) && fd < |idxs| && idxs[fd] >= 0
    ensures idxs[fd] < |polls| && polls[idxs[fd]].fd == fd && polls[|polls| - 1].fd < |idxs|
  {
  }

  lemma {:induction false} Appended(idxs: seq<int>, polls: seq<PollFd>, fd: nat, ev: bv16)
    requires Inverse(idxs, polls) && fd < |idxs| && idxs[fd] < 0
    ensures var idxs', polls' := idxs[fd := |polls|], polls + [PollFd(fd, ev)];
            Inverse(idxs', polls') && Decode(idxs', polls') == Decode(idxs, polls)[fd := Mask(ev)]
  {
    hide Mask;
  }

  lemma {:induction false} Set(idxs: seq<int>, polls: seq<PollFd>, fd: nat, ev: bv16)
    requires Inverse(idxs, polls) && fd < |idxs| && idxs[fd] >= 0
    ensures var polls' := polls[idxs[fd] := PollFd(fd, ev)];
            Inverse(idxs, polls') && Decode(idxs, polls') == Decode(idxs, polls)[fd := Mask(ev)]
  {
    hide Mask;
  }

  /** Swap-remove: the last entry takes the place of the removed one. */
  function SwapRemove(idxs: seq<int>, polls: seq<PollFd>, fd: nat): (seq<int>, seq<PollFd>)
    requires fd < |idxs| && 0 <= idxs[fd] < |polls| && polls[|polls| - 1].fd < |idxs|
  {
    var last := |polls| - 1;
    var moved := polls[last];
    if idxs[fd] < last then (idxs[fd := -1][moved.fd := idxs[fd]], polls[idxs[fd] := moved][..last])
    else (idxs[fd := -1], polls[..last])
  }

  lemma {:induction false} Removed(idxs: seq<int>, polls: seq<PollFd>, fd: nat)
    requires Inverse(idxs, polls) && fd < |idxs| && idxs[fd] >= 0
    ensures var (idxs', polls') := SwapRemove(idxs, polls, fd);
            Inverse(idxs', polls') && Decode(idxs', polls') == Decode(idxs, polls) - {fd}
  {
    hide Mask;
    var (idxs', polls') := SwapRemove(idxs, polls, fd);
    var last := polls[|polls| - 1];
    assert idxs[last.fd] == |polls| - 1;
    assert Inverse(idxs', polls');
  }

  class Poll {
    var pollidxs: seq<int>
    var polls: seq<PollFd>

    ghost predicate Valid()
      reads this
    {
      && Inverse(pollidxs, polls) && Tidy(polls)
      && Proper(Decode(pollidxs, polls))
    }

    /** The array asks the kernel for exactly the wanted events of every descriptor, each in one entry. */
    lemma {:induction false} EntriesAsk(i: nat)
      requires Valid() && i < |polls|
      ensures polls[i].fd in Decoded() && Asks(polls[i].events, Decoded()[polls[i].fd])
      ensures forall j :: 0 <= j < |polls| && j != i ==> polls[j].fd != polls[i].fd
      ensures forall fd :: fd in Decoded() ==> exists j :: 0 <= j < |polls| && polls[j].fd == fd
    {
      hide Mask, Asks;
    }

    ghost function Decoded(): Wants
      requires Valid()
      reads this
    {
      Decode(pollidxs, polls)
    }

    constructor ()
      ensures Valid() && Decoded() == map[]
    {
      pollidxs, polls := [], [];
    }

    /** `array_needsize` with `pollidx_init`: new index entries are unused. */
    method Grow(n: nat)
      requires Valid()
      modifies this`pollidxs
      ensures Valid() && n <= |pollidxs| && Decoded() == old(Decoded())
    {
      hide Inverse, Decode, Tidy;
      while |pollidxs| < n
        invariant Valid() && Decoded() == old(Decoded())
        decreases n - |pollidxs|
      {
        Grown(pollidxs, polls);
        pollidxs := pollidxs + [-1];
      }
    }

    /** `poll_modify`. */
    method Modify(fd: nat, oev: bv8, nev: bv8)
      requires Valid() && IsEvents(nev) && oev == Want(Decoded(), fd)
      modifies this
      ensures Valid() && Decoded() == Updated(old(Decoded()), fd, nev)
    {
      hide Inverse, Decode, Bits, Mask, Asks, IsEvents, Tidy;
      if oev == nev {
        UpdatedSame(Decoded(), fd);
        return;
      }
      MaskBits(nev);
      Grow(fd + 1);
      var idx := pollidxs[fd];
      if idx < 0 {
        Appended(pollidxs, polls, fd, 0);
        TidyAdd(polls, fd);
        idx := |polls|;
        pollidxs := pollidxs[fd := idx];
        polls := polls + [PollFd(fd, 0)];
      }
      Indexed(pollidxs, polls, fd);
      assert polls[idx].fd == fd;
      if nev != 0 {
        Set(pollidxs, polls, fd, Bits(nev));
        TidySet(polls, idx, PollFd(fd, Bits(nev)));
        polls := polls[idx := PollFd(fd, Bits(nev))];
      } else {
        Removed(pollidxs, polls, fd);
        TidyDrop(polls, idx);
        pollidxs := pollidxs[fd := -1];
        var last := |polls| - 1;
        if idx < last {
          polls := polls[idx := polls[last]];
          pollidxs := pollidxs[polls[idx].fd := idx];
        }
        polls := polls[..last];
      }
    }

    /**
     `poll_poll` after a `poll` that returned `res`, the number of entries with events: the walk ends inside the
     array and passes on every ready descriptor, in array order.
     */
    method Scan(revents: seq<bv16>, res: nat) returns (fed: seq<Feed>, killed: seq<nat>)
      requires Valid() && |revents| == |polls| && res == Ready(revents, |revents|)
      ensures fed == Feeds(polls, revents, |polls|) && killed == Invalid(polls, revents, |polls|)
    {
      hide Inverse, Decode, Got, Means, Tidy;
      fed, killed := [], [];
      var left, p: nat := res, 0;
      while left > 0
        invariant p <= |polls| && left == Ready(revents, |revents|) - Ready(revents, p)
        invariant fed == Feeds(polls, revents, p) && killed == Invalid(polls, revents, p)
        decreases |polls| - p
      {
        assert p < |polls|;
        var r := revents[p];
        if r != 0 {
          left := left - 1;
          if IsInvalid(r) {
            killed := killed + [polls[p].fd];
          } else {
            fed := fed + [Feed(polls[p].fd, Got(r))];
          }
        }
        p := p + 1;
      }
      NoneLeft(polls, revents, p, |polls|);
    }
  }

  lemma {:induction false} TidyAdd(polls: seq<PollFd>, fd: nat)
    requires Tidy(polls)
    ensures Tidy(polls + [PollFd(fd, 0)])
  {
    assert Asks(0, Mask(0));
    hide Asks, Mask;
  }

  lemma {:induction false} TidySet(polls: seq<PollFd>, i: nat, p: PollFd)
    requires Tidy(polls) && i < |polls| && Asks(p.events, Mask(p.events))
    ensures Tidy(polls[i := p])
  {
    hide Asks, Mask;
  }

  lemma {:induction false} TidyDrop(polls: seq<PollFd>, i: nat)
    requires Tidy(polls) && i < |polls|
    ensures Tidy(polls[i := polls[|polls| - 1]][..|polls| - 1]) && Tidy(polls[..|polls| - 1])
  {
    hide Asks, Mask;
  }

  predicate IsInvalid(r: bv16) {
    r & POLLNVAL != 0
  }

  /** The number of entries with events among the first `n`. */
  function Ready(revents: seq<bv16>, n: nat): nat
    requires n <= |revents|
  {
    if n == 0 then 0 else Ready(revents, n - 1) + if revents[n - 1] != 0 then 1 else 0
  }

  function Feeds(polls: seq<PollFd>, revents: seq<bv16>, n: nat): seq<Feed>
    requires n <= |polls| == |revents|
  {
    if n == 0 then []
    else Feeds(polls, revents, n - 1) +
         if revents[n - 1] != 0 && !IsInvalid(revents[n - 1]) then [Feed(polls[n - 1].fd, Got(revents[n - 1]))] else []
  }

  function Invalid(polls: seq<PollFd>, revents: seq<bv16>, n: nat): seq<nat>
    requires n <= |polls| == |revents|
  {
    if n == 0 then []
    else Invalid(polls, revents, n - 1) + if IsInvalid(revents[n - 1]) then [polls[n - 1].fd] else []
  }

  lemma {:induction false} NoneLeft(polls: seq<PollFd>, revents: seq<bv16>, p: nat, n: nat)
    requires p <= n <= |polls| == |revents| && Ready(revents, p) >= Ready(revents, n)
    ensures Feeds(polls, revents, n) == Feeds(polls, revents, p) && Invalid(polls, revents, n) == Invalid(polls, revents, p)
  {
    if p < n {
      MoreReady(revents, p, n - 1);
      NoneLeft(polls, revents, p, n - 1);
    }
  }

  lemma {:induction false} MoreReady(revents: seq<bv16>, p: nat, n: nat)
    requires p <= n <= |revents|
    ensures Ready(revents, p) <= Ready(revents, n)
  {
    if p < n {
      MoreReady(revents, p, n - 1);
    }
  }

  /** The scan passes on each ready descriptor exactly once. */
  lemma {:induction false} FedOnce(idxs: seq<int>, polls: seq<PollFd>, revents: seq<bv16>, n: nat)
    requires Inverse(idxs, polls) && n <= |polls| == |revents|
    ensures forall f :: f in Feeds(polls, revents, n) <==>
              0 <= FdIndex(idxs, f.fd) < n && revents[idxs[f.fd]] != 0 && revents[idxs[f.fd]] & POLLNVAL == 0
              && f.events == Got(revents[idxs[f.fd]]) && Means(revents[idxs[f.fd]], f.events)
    ensures Once(Feeds(polls, revents, n))
  {
    hide Got, Means;
    if n > 0 {
      FedOnce(idxs, polls, revents, n - 1);
      assert idxs[polls[n - 1].fd] == n - 1;
      var fed, all := Feeds(polls, revents, n - 1), Feeds(polls, revents, n);
      forall i | 0 <= i < |fed| ensures fed[i].fd != polls[n - 1].fd {
        assert fed[i] in fed;
      }
      assert all == fed || all == fed + [Feed(polls[n - 1].fd, Got(revents[n - 1]))];
    }
  }

  /** The scan kills exactly the descriptors that the kernel calls invalid. */
  lemma {:induction false} KilledInvalid(idxs: seq<int>, polls: seq<PollFd>, revents: seq<bv16>, n: nat)
    requires Inverse(idxs, polls) && n <= |polls| == |revents|
    ensures forall fd: nat :: fd in Invalid(polls, revents, n) <==>
              0 <= FdIndex(idxs, fd) < n && revents[idxs[fd]] & POLLNVAL != 0
  {
    if n > 0 {
      KilledInvalid(idxs, polls, revents, n - 1);
      assert idxs[polls[n - 1].fd] == n - 1;
    }
  }

  /** The index of a descriptor, negative when it has none. */
  function FdIndex(idxs: seq<int>, fd: nat): int {
    if fd < |idxs| then idxs[fd] else -1
  }
}
