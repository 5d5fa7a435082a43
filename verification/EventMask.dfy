/** Event masks of libev, and the plain map from descriptors to events that every backend implements. */
module EventMask {
  const EV_READ: bv8 := 0x01
  const EV_WRITE: bv8 := 0x02

  predicate IsEvents(ev: bv8) {
    ev == 0 || ev == EV_READ || ev == EV_WRITE || ev == EV_READ | EV_WRITE
  }

  /** An event passed on to the watchers of a descriptor. */
  datatype Feed = Feed(fd: nat, events: bv8)

  /** No descriptor is fed twice. */
  ghost predicate Once(fed: seq<Feed>) {
    forall i, j :: 0 <= i < j < |fed| ==> fed[i].fd != fed[j].fd
  }

  /** The wanted events of the descriptors that have any. */
  type Wants = map<nat, bv8>

  function Want(m: Wants, fd: nat): bv8 {
    if fd in m then m[fd] else 0
  }

  /** The meaning of a modify call. */
  function Updated(m: Wants, fd: nat, ev: bv8): Wants {
    if ev == 0 then m - {fd} else m[fd := ev]
  }

  ghost predicate Proper(m: Wants) {
    forall fd :: fd in m ==> m[fd] != 0
  }

  /** One descriptor has other events, and only wanted ones are in the map. */
  lemma {:induction false} UpdatedMeans(m: Wants, fd: nat, ev: bv8, x: nat)
    requires Proper(m)
    ensures Want(Updated(m, fd, ev), x) == (if x == fd then ev else Want(m, x)) && Proper(Updated(m, fd, ev))
  {
  }

  lemma {:induction false} UpdatedSame(m: Wants, fd: nat)
    requires Proper(m)
    ensures Updated(m, fd, Want(m, fd)) == m
  {
  }
}
