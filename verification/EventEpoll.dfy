/**
 libev's epoll backend (`ev_epoll.c`) against a small model of the kernel's
 epoll set.  The backend avoids `epoll_ctl` calls: it keeps its own idea of the
 registered mask (`emask`), never unregisters on a modify to zero, and numbers
 registrations with a generation counter (`egen`).  A closed descriptor vanishes
 from the kernel set without the backend hearing of it; descriptors are never
 duplicated.
 */
module EventEpoll {
  import opened EventMask

  const EV_EMASK_EPERM: bv8 := 0x80

  const EPOLLIN: bv8 := 0x01
  const EPOLLOUT: bv8 := 0x04
  const EPOLLERR: bv8 := 0x08
  const EPOLLHUP: bv8 := 0x10

  /** The bits `mask` ask the kernel for exactly the events `ev`. */
  ghost predicate Asks(mask: bv8, ev: bv8) {
    && (mask & EPOLLIN != 0 <==> ev & EV_READ != 0)
    && (mask & EPOLLOUT != 0 <==> ev & EV_WRITE != 0)
    && mask & !(EPOLLIN | EPOLLOUT) == 0
  }

  /** The bits `events` of a notification mean the events `got`: errors and hang-ups count as both. */
  ghost predicate Means(events: bv8, got: bv8) {
    && (got & EV_READ != 0 <==> events & EPOLLIN != 0 || events & EPOLLERR != 0 || events & EPOLLHUP != 0)
    && (got & EV_WRITE != 0 <==> events & EPOLLOUT != 0 || events & EPOLLERR != 0 || events & EPOLLHUP != 0)
    && IsEvents(got)
  }

  /** Some event in `got` is not in `want`. */
  ghost predicate NotAsked(got: bv8, want: bv8) {
    (got & EV_READ != 0 && want & EV_READ == 0) || (got & EV_WRITE != 0 && want & EV_WRITE == 0)
  }

  /** The kernel's event bits for a libev mask. */
  function Bits(ev: bv8): (mask: bv8)
    ensures Asks(mask, ev)
  {
    (if ev & EV_READ != 0 then EPOLLIN else 0) | (if ev & EV_WRITE != 0 then EPOLLOUT else 0)
  }

  /** The libev mask for the event bits of a notification. */
  function Got(events: bv8): (got: bv8)
    ensures Means(events, got)
  {
    (if events & (EPOLLOUT | EPOLLERR | EPOLLHUP) != 0 then EV_WRITE else 0)
    | (if events & (EPOLLIN | EPOLLERR | EPOLLHUP) != 0 then EV_READ else 0)
  }

  /** Something was notified that is not wanted. */
  predicate Unwanted(got: bv8, want: bv8) {
    got & !want != 0
  }

  lemma {:induction false} UnwantedIs(got: bv8, want: bv8)
    requires IsEvents(got)
    ensures Unwanted(got, want) <==> NotAsked(got, want)
  {
  }

  /** The cached mask of a descriptor that epoll cannot handle. */
  predicate IsEperm(m: bv8) {
    m & EV_EMASK_EPERM != 0
  }

  lemma {:induction false} EpermBit(m: bv8)
    ensures IsEvents(m) ==> !IsEperm(m)
    ensures IsEperm(EV_EMASK_EPERM) && !IsEvents(EV_EMASK_EPERM) && EV_EMASK_EPERM != 0
  {
  }

  /** A registration; descriptor and generation are the two halves of the user data. */
  datatype Reg = Reg(mask: bv8, fd: nat, gen: bv32)
  datatype Op = Add | Mod | Del
  datatype Errno = Success | NoEnt | Exist | Perm | BadF | NoMem
  datatype Event = Event(events: bv8, fd: nat, gen: bv32)

  // ---------------------------------------------------------------- kernel

  class Kernel {
    var watched: map<nat, Reg>
    var open: map<nat, bool>  // open descriptors, and whether epoll can handle them
    const plenty: bool        // adding does not run out of memory

    ghost predicate Valid()
      reads this
    {
      forall fd :: fd in watched ==> fd in open && open[fd]
    }

    constructor (plenty: bool)
      ensures Valid() && watched == map[] && open == map[] && this.plenty == plenty
    {
      this.plenty := plenty;
      watched, open := map[], map[];
    }

    /** `epoll_ctl`. Adding may also fail for want of memory. */
    method Ctl(op: Op, fd: nat, r: Reg) returns (err: Errno)
      requires Valid()
      modifies this`watched
      ensures Valid()
      ensures err == BadF <==> fd !in open
      ensures err == Perm <==> fd in open && !open[fd]
      ensures err == Exist <==> op.Add? && fd in old(watched)
      ensures err == NoEnt <==> !op.Add? && fd !in old(watched) && fd in open && open[fd]
      ensures err == NoMem ==> op.Add? && !plenty
      ensures err != Success ==> watched == old(watched)
      ensures err == Success ==> watched == if op.Del? then old(watched) - {fd} else old(watched)[fd := r]
    {
      if fd !in open { return BadF; }
      if !open[fd] { return Perm; }
      match op {
        case Add =>
          if fd in watched { return Exist; }
          if !plenty {
            if * { return NoMem; }
          }
          watched := watched[fd := r];
        case Mod =>
          if fd !in watched { return NoEnt; }
          watched := watched[fd := r];
        case Del =>
          if fd !in watched { return NoEnt; }
          watched := watched - {fd};
      }
      err := Success;
    }

    /** Closing a descriptor takes it out of the epoll set. */
    method Close(fd: nat)
      requires Valid()
      modifies this
      ensures Valid() && open == old(open) - {fd} && watched == old(watched) - {fd}
    {
      open, watched := open - {fd}, watched - {fd};
    }

    method Open(fd: nat, pollable: bool)
      requires Valid() && fd !in open
      modifies this
      ensures Valid() && open == old(open)[fd := pollable] && watched == old(watched)
    {
      open := open[fd := pollable];
    }

    /** What `epoll_wait` may return: notifications for watched descriptors, each at most once. */
    ghost predicate Reports(events: seq<Event>)
      reads this
    {
      && (forall i :: 0 <= i < |events| ==> Reported(events[i]))
      && (forall i, j :: 0 <= i < j < |events| ==> events[i].fd != events[j].fd)
    }

    lemma {:induction false} NothingReported()
      ensures Reports([])
    {
    }

    ghost predicate Reported(e: Event)
      reads this
    {
      exists k :: k in watched && e.fd == watched[k].fd && e.gen == watched[k].gen
    }
  }

  // ---------------------------------------------------------------- the backend

  datatype Anfd = Anfd(events: bv8, emask: bv8, egen: bv32)
  type Table = map<nat, Anfd>

  /** The entry of a descriptor; the table is zero where it has not been written. */
  function At(t: Table, fd: nat): Anfd {
    if fd in t then t[fd] else Anfd(0, 0, 0)
  }

  /** What the backend believes of a descriptor is what the kernel holds, if it holds anything. */
  ghost predicate InSync(a: Anfd, fd: nat, watched: map<nat, Reg>, eperms: seq<nat>) {
    && IsEvents(a.events) && (IsEvents(a.emask) || a.emask == EV_EMASK_EPERM)
    && (a.emask == EV_EMASK_EPERM ==> fd in eperms && fd !in watched)
    && (fd in watched ==>
          && watched[fd].fd == fd && watched[fd].gen == a.egen
          && (a.emask == 0 || watched[fd].mask == Bits(a.emask)))
  }

  ghost predicate AllInSync(t: Table, watched: map<nat, Reg>, eperms: seq<nat>) {
    forall fd: nat {:trigger At(t, fd)} :: InSync(At(t, fd), fd, watched, eperms)
  }

  /** The kernel holds exactly this mask and the current generation, or the descriptor is on the always-ready list. */
  ghost predicate Registered(a: Anfd, fd: nat, ev: bv8, watched: map<nat, Reg>, eperms: seq<nat>) {
    || (fd in watched && watched[fd] == Reg(Bits(ev), fd, a.egen))
    || (a.emask == EV_EMASK_EPERM && fd in eperms)
  }

  /** At most the descriptor `fd` has changed in the kernel. */
  ghost predicate SameBut(w: map<nat, Reg>, w': map<nat, Reg>, fd: nat) {
    forall x :: x != fd ==> (x in w <==> x in w') && (x in w ==> w'[x] == w[x])
  }

  ghost predicate SameEntries(t: Table, t': Table, fd: nat) {
    forall x: nat {:trigger At(t', x)} :: x != fd ==> At(t', x) == At(t, x)
  }

  /** A wanted descriptor is registered for exactly what is wanted. */
  ghost predicate Armed(a: Anfd, fd: nat, watched: map<nat, Reg>, eperms: seq<nat>) {
    a.events != 0 && Registered(a, fd, a.events, watched, eperms)
  }

  ghost predicate AllArmed(armed: set<nat>, t: Table, watched: map<nat, Reg>, eperms: seq<nat>) {
    forall fd :: fd in armed ==> Armed(At(t, fd), fd, watched, eperms)
  }

  lemma {:induction false} OneArmed(armed: set<nat>, fd: nat, t: Table, t': Table, w: map<nat, Reg>, w': map<nat, Reg>,
                                    e: seq<nat>, e': seq<nat>)
    requires AllArmed(armed - {fd}, t, w, e) && SameEntries(t, t', fd) && SameBut(w, w', fd)
    requires forall x :: x in e && x != fd ==> x in e'
    requires fd in armed ==> Armed(At(t', fd), fd, w', e')
    ensures AllArmed(armed, t', w', e')
  {
    forall x | x in armed ensures Armed(At(t', x), x, w', e') {
      assert x != fd ==> Armed(At(t, x), x, w, e);
    }
  }

  lemma {:induction false} LessArmed(armed: set<nat>, fd: nat, t: Table, w: map<nat, Reg>, e: seq<nat>)
    requires AllArmed(armed, t, w, e)
    ensures AllArmed(armed - {fd}, t, w, e)
  {
  }

  lemma {:induction false} WantedArmed(armed: set<nat>, fd: nat, t: Table, w: map<nat, Reg>, e: seq<nat>)
    requires AllArmed(armed, t, w, e)
    ensures fd in armed ==> At(t, fd).events != 0
  {
  }

  lemma {:induction false} EntryInSync(t: Table, w: map<nat, Reg>, e: seq<nat>, fd: nat)
    requires AllInSync(t, w, e)
    ensures InSync(At(t, fd), fd, w, e)
  {
  }

  lemma {:induction false} OneChanged(t: Table, w: map<nat, Reg>, w': map<nat, Reg>, e: seq<nat>, e': seq<nat>, fd: nat, a: Anfd)
    requires AllInSync(t, w, e) && SameBut(w, w', fd) && (forall x :: x in e && x != fd ==> x in e')
    requires InSync(a, fd, w', e')
    ensures AllInSync(t[fd := a], w', e')
  {
    hide IsEvents, Bits;
    var t' := t[fd := a];
    forall x: nat {:trigger At(t', x)} ensures InSync(At(t', x), x, w', e') {
      assert InSync(At(t, x), x, w, e);
    }
  }

  /** Registered anew; still registered with the same mask; not a descriptor for epoll; not registered. */
  datatype Outcome = Held | Kept | AlwaysReady | Failed

  class Loop {
    const kernel: Kernel
    var anfds: Table
    var eperms: seq<nat>
    var postfork: bool
    ghost var armed: set<nat>  // set to a nonzero mask, not killed, and not closed since

    ghost predicate Synced()
      reads this, kernel
    {
      kernel.Valid() && AllInSync(anfds, kernel.watched, eperms)
    }

    ghost predicate Valid()
      reads this, kernel
    {
      Synced() && AllArmed(armed, anfds, kernel.watched, eperms)
    }

    constructor (k: Kernel)
      requires k.Valid() && k.watched == map[]
      ensures Valid() && kernel == k && armed == {} && anfds == map[] && eperms == [] && !postfork
      ensures forall fd :: At(anfds, fd) == Anfd(0, 0, 0)
    {
      kernel, anfds, eperms, postfork, armed := k, map[], [], false, {};
    }

    /** The `epoll_ctl` calls of `epoll_modify`. */
    method Register(fd: nat, oev: bv8, oldmask: bv8, nev: bv8, r: Reg) returns (o: Outcome)
      requires kernel.Valid()
      modifies kernel`watched
      ensures kernel.Valid()
      ensures kernel.watched == if o.Held? then old(kernel.watched)[fd := r] else old(kernel.watched)
      ensures o.Kept? <==> fd in old(kernel.watched) && oldmask == nev
      ensures o.AlwaysReady? <==> fd in kernel.open && !kernel.open[fd]
      ensures o.Failed? ==> fd !in old(kernel.watched) && (fd !in kernel.open || !kernel.plenty)
    {
      var err := kernel.Ctl(if oev != 0 && oldmask != nev then Mod else Add, fd, r);
      match err {
        case Success => return Held;
        case NoEnt =>
          // the descriptor went away
          err := kernel.Ctl(Add, fd, r);
          return if err == Success then Held else Failed;
        case Exist =>
          // a modify to zero was ignored and the descriptor is still there
          if oldmask == nev { return Kept; }
          err := kernel.Ctl(Mod, fd, r);
          return if err == Success then Held else Failed;
        case Perm => return AlwaysReady;
        case _ => return Failed;
      }
    }

    /** `epoll_modify`: unless it kills the descriptor, a nonzero mask is what the kernel then holds. */
    method Modify(fd: nat, oev: bv8, nev: bv8) returns (killed: bool)
      requires Synced() && IsEvents(nev)
      modifies this`anfds, this`eperms, kernel`watched
      ensures Synced()
      ensures nev != 0 && !killed ==> Registered(At(anfds, fd), fd, nev, kernel.watched, eperms)
      ensures nev != 0 && !killed && fd in kernel.open && kernel.open[fd] ==>
                fd in kernel.watched && Asks(kernel.watched[fd].mask, nev)
      ensures nev == 0 ==> !killed && anfds == old(anfds) && eperms == old(eperms) && kernel.watched == old(kernel.watched)
      ensures killed ==> fd !in kernel.watched && (fd !in kernel.open || !kernel.plenty)
      ensures SameBut(old(kernel.watched), kernel.watched, fd)
      ensures eperms == if nev != 0 && fd in kernel.open && !kernel.open[fd] && !IsEperm(At(old(anfds), fd).emask)
                        then old(eperms) + [fd] else old(eperms)
      ensures NoRepeats(old(eperms)) ==>
                (NoRepeats(eperms) <==> !(nev != 0 && fd in kernel.open && !kernel.open[fd] && fd in old(eperms)
                                          && !IsEperm(At(old(anfds), fd).emask)))
      ensures At(anfds, fd).events == At(old(anfds), fd).events && SameEntries(old(anfds), anfds, fd)
      ensures At(anfds, fd).emask == if nev == 0 then At(old(anfds), fd).emask
                                     else if fd in kernel.open && !kernel.open[fd] then EV_EMASK_EPERM else nev
    {
      killed := false;
      if nev == 0 { return; }
      hide IsEvents, Bits, Asks, AllInSync, IsEperm, NoRepeats;
      var a := At(anfds, fd);
      var oldmask := a.emask;
      EpermBit(oldmask);
      EpermBit(nev);
      EntryInSync(anfds, kernel.watched, eperms, fd);
      ghost var t, w, e := anfds, kernel.watched, eperms;
      anfds := anfds[fd := a.(emask := nev, egen := a.egen + 1)];
      var outcome := Register(fd, oev, oldmask, nev, Reg(Bits(nev), fd, a.egen + 1));
      match outcome {
        case Held =>
        case AlwaysReady =>
          anfds := anfds[fd := a.(emask := EV_EMASK_EPERM, egen := a.egen + 1)];
          if !IsEperm(oldmask) {
            eperms := eperms + [fd];
          }
        case _ =>
          killed := outcome.Failed?;
          anfds := anfds[fd := a.(emask := nev)];
      }
      OneChanged(t, w, kernel.watched, e, eperms, fd, anfds[fd]);
      assert anfds == t[fd := anfds[fd]];
      Appended(e, fd);
    }

    /** A round of `fd_reify` for a descriptor whose watchers ask for `nev`. */
    method Reify(fd: nat, nev: bv8) returns (killed: bool)
      requires Valid() && IsEvents(nev)
      modifies this`anfds, this`eperms, this`armed, kernel`watched
      ensures Valid() && At(anfds, fd).events == nev
      ensures eperms == if nev != 0 && fd in kernel.open && !kernel.open[fd] && !IsEperm(At(old(anfds), fd).emask)
                        then old(eperms) + [fd] else old(eperms)
      ensures At(anfds, fd).emask == if nev == 0 then At(old(anfds), fd).emask
                                     else if fd in kernel.open && !kernel.open[fd] then EV_EMASK_EPERM else nev
      ensures nev != 0 && !killed && fd in kernel.open && kernel.open[fd] ==>
                fd in kernel.watched && Asks(kernel.watched[fd].mask, nev)
      ensures armed == if nev == 0 || killed then old(armed) - {fd} else old(armed) + {fd}
      ensures killed ==> fd !in kernel.open || !kernel.plenty
    {
      hide AllInSync, AllArmed, Bits, Asks, IsEvents;
      var a := At(anfds, fd);
      assert InSync(a, fd, kernel.watched, eperms) by { EntryInSync(anfds, kernel.watched, eperms, fd); }
      OneChanged(anfds, kernel.watched, kernel.watched, eperms, eperms, fd, a.(events := nev));
      anfds := anfds[fd := a.(events := nev)];
      killed := Modify(fd, a.events, nev);
      LessArmed(armed, fd, old(anfds), old(kernel.watched), old(eperms));
      armed := if nev == 0 || killed then armed - {fd} else armed + {fd};
      assert armed - {fd} == old(armed) - {fd};
      OneArmed(armed, fd, old(anfds), anfds, old(kernel.watched), kernel.watched, old(eperms), eperms);
    }

    /** The kernel watches every armed descriptor for exactly what is wanted of it, unless it is always ready. */
    lemma {:induction false} ArmedAsks(fd: nat)
      requires Valid() && fd in armed
      ensures || fd in eperms
              || (fd in kernel.watched && Asks(kernel.watched[fd].mask, At(anfds, fd).events)
                  && kernel.watched[fd].gen == At(anfds, fd).egen)
    {
      hide Bits, Asks, AllInSync;
      assert Armed(At(anfds, fd), fd, kernel.watched, eperms);
    }

    /** The descriptor is closed behind the backend's back. */
    method Close(fd: nat)
      requires Valid()
      modifies this`armed, kernel
      ensures Valid() && armed == old(armed) - {fd} && fd !in kernel.watched && fd !in kernel.open
    {
      armed := armed - {fd};
      kernel.Close(fd);
    }

    method Open(fd: nat, pollable: bool)
      requires Valid() && fd !in kernel.open
      modifies kernel
      ensures Valid() && fd in kernel.open && kernel.open[fd] == pollable
    {
      kernel.Open(fd, pollable);
    }

    lemma {:induction false} ReportedHeld(e: Event)
      requires Synced() && kernel.Reported(e)
      ensures Holds(kernel.watched, e)
    {
      var k :| k in kernel.watched && e.fd == kernel.watched[k].fd && e.gen == kernel.watched[k].gen;
      EntryInSync(anfds, kernel.watched, eperms, k);
    }

    /** Registers what is wanted instead of what was notified. */
    method Correct(e: Event) returns (failed: bool)
      requires Valid() && Holds(kernel.watched, e)
      modifies this`anfds, kernel`watched
      ensures Valid() && !failed && SameReady(old(anfds), anfds)
      ensures var want := At(anfds, e.fd).events;
              kernel.watched == if want == 0 then old(kernel.watched) - {e.fd}
                                else old(kernel.watched)[e.fd := Reg(Bits(want), e.fd, e.gen)]
    {
      EntryInSync(anfds, kernel.watched, eperms, e.fd);
      var a := At(anfds, e.fd);
      var want := a.events;
      EpermBit(want);
      assert e.fd in armed ==> want != 0 by { WantedArmed(armed, e.fd, anfds, kernel.watched, eperms); }
      EpermBit(a.emask);
      SetMask(anfds, e.fd, want);
      hide AllInSync, AllArmed, Bits, Asks, IsEvents, SameReady;
      anfds := anfds[e.fd := a.(emask := want)];
      var err := kernel.Ctl(if want != 0 then Mod else Del, e.fd, Reg(Bits(want), e.fd, e.gen));
      failed := err != Success;
      OneChanged(old(anfds), old(kernel.watched), kernel.watched, eperms, eperms, e.fd, anfds[e.fd]);
      LessArmed(armed, e.fd, old(anfds), old(kernel.watched), eperms);
      OneArmed(armed, e.fd, old(anfds), anfds, old(kernel.watched), kernel.watched, eperms, eperms);
    }

    /** One notification of `epoll_poll`: it is never spurious, and an unwanted one corrects the registration. */
    method Notify(e: Event) returns (got: bv8)
      requires Valid() && Holds(kernel.watched, e)
      modifies this`anfds, this`postfork, kernel`watched
      ensures Valid() && postfork == old(postfork) && got == Got(e.events) && Means(e.events, got)
      ensures SameBut(old(kernel.watched), kernel.watched, e.fd) && SameReady(old(anfds), anfds)
      ensures NotAsked(got, At(anfds, e.fd).events) ==>
                if At(anfds, e.fd).events == 0 then e.fd !in kernel.watched
                else e.fd in kernel.watched && Asks(kernel.watched[e.fd].mask, At(anfds, e.fd).events)
    {
      EntryInSync(anfds, kernel.watched, eperms, e.fd);
      SameReadySelf(anfds);
      hide AllInSync, AllArmed, Bits, Asks, Got, SameReady, Unwanted, InSync, NotAsked;
      got := Got(e.events);
      UnwantedIs(got, At(anfds, e.fd).events);
      hide IsEvents, Means;
      var recreate := At(anfds, e.fd).egen != e.gen;
      ghost var t := anfds;
      if !recreate && Unwanted(got, At(anfds, e.fd).events) {
        recreate := Correct(e);
        SameWanted(t, anfds, e.fd);
      }
      postfork := postfork || recreate;
    }

    /** Drops the entry at `i` of the always-ready list, moving the last one there. */
    method Drop(i: nat)
      requires Valid() && i < |eperms| && !Ready(anfds, eperms[i])
      modifies this`anfds, this`eperms
      ensures Valid() && SameReady(old(anfds), anfds)
      ensures eperms == Dropped(old(eperms), i)
    {
      var fd, last := eperms[i], |eperms| - 1;
      EntryInSync(anfds, kernel.watched, eperms, fd);
      EpermBit(At(anfds, fd).events);
      WantedArmed(armed, fd, anfds, kernel.watched, eperms);
      if fd in armed {
        StaysArmed(armed, fd, anfds, kernel.watched, eperms);
      }
      SetMask(anfds, fd, 0);
      hide AllInSync, AllArmed, Bits, IsEvents, SameReady, Ready;
      DroppedKeeps(eperms, i);
      eperms := eperms[i := eperms[last]][..last];
      anfds := anfds[fd := At(anfds, fd).(emask := 0)];
      OneChanged(old(anfds), kernel.watched, kernel.watched, old(eperms), eperms, fd, anfds[fd]);
      LessArmed(armed, fd, old(anfds), kernel.watched, old(eperms));
      OneArmed(armed, fd, old(anfds), anfds, kernel.watched, kernel.watched, old(eperms), eperms);
    }

    /** The loop over `epoll_eperms`, from the back, dropping the entries that are no longer always ready or not wanted. */
    method FeedEperms() returns (fed: seq<Feed>)
      requires Valid()
      modifies this`anfds, this`eperms
      ensures Valid() && SameReady(old(anfds), anfds)
      ensures fed == Fed(old(eperms), old(anfds))
      ensures Remain(eperms, old(eperms), old(anfds))
    {
      hide AllInSync, AllArmed, Ready, Dropped, SameReady, Fed, Remain, InSync;
      SameReadySelf(anfds);
      NothingRemains(anfds);
      fed := [];
      var i: nat := |eperms|;
      assert eperms[i..] == [];
      while i > 0
        invariant i <= |eperms| && i <= |old(eperms)| && Valid() && SameReady(old(anfds), anfds)
        invariant eperms[..i] == old(eperms)[..i]
        invariant fed == Fed(old(eperms)[i..], old(anfds))
        invariant Remain(eperms[i..], old(eperms)[i..], old(anfds))
      {
        i := i - 1;
        var fd := eperms[i];
        var events := At(anfds, fd).events & (EV_READ | EV_WRITE);
        SameWanted(old(anfds), anfds, fd);
        IsReady(anfds, fd);
        FedFrom(old(eperms), i, old(anfds));
        RemainFrom(eperms, old(eperms), i, old(anfds));
        if IsEperm(At(anfds, fd).emask) && events != 0 {
          WantedBits(anfds, kernel.watched, eperms, fd);
          fed := fed + [Feed(fd, events)];
        } else {
          ghost var e, t := eperms, anfds;
          Drop(i);
          SameReadyTrans(old(anfds), t, anfds);
          DroppedTail(e, i);
        }
      }
    }

    /** `epoll_poll` on the notifications `events`: all are passed on, then the wanted always-ready descriptors. */
    method Poll(events: seq<Event>) returns (fed: seq<Feed>)
      requires Valid() && kernel.Reports(events)
      modifies this`anfds, this`eperms, this`postfork, kernel`watched
      ensures Valid() && postfork == old(postfork) && |fed| >= |events| && SameReady(old(anfds), anfds)
      ensures forall i :: 0 <= i < |events| ==> fed[i].fd == events[i].fd && Means(events[i].events, fed[i].events)
      ensures fed[|events|..] == Fed(old(eperms), old(anfds))
      ensures Remain(eperms, old(eperms), old(anfds))
    {
      hide AllInSync, AllArmed, Bits, IsEvents, Got, Means, NotAsked, Asks, Ready, SameReady, Fed, Remain;
      SameReadySelf(anfds);
      forall i | 0 <= i < |events| ensures Holds(kernel.watched, events[i]) {
        assert kernel.Reported(events[i]);
        ReportedHeld(events[i]);
      }
      fed := [];
      var i: nat := 0;
      while i < |events|
        invariant i <= |events| && |fed| == i && Valid() && postfork == old(postfork)
        invariant SameReady(old(anfds), anfds) && eperms == old(eperms)
        invariant forall j :: 0 <= j < i ==> fed[j].fd == events[j].fd && Means(events[j].events, fed[j].events)
        invariant forall j :: i <= j < |events| ==> Holds(kernel.watched, events[j])
      {
        ghost var t := anfds;
        var got := Notify(events[i]);
        SameReadyTrans(old(anfds), t, anfds);
        fed := fed + [Feed(events[i].fd, got)];
        i := i + 1;
      }
      ghost var t := anfds;
      var more := FeedEperms();
      SameReadyTrans(old(anfds), t, anfds);
      FedSame(old(eperms), old(anfds), t);
      RemainSame(eperms, old(eperms), old(anfds), t);
      assert (fed + more)[|events|..] == more;
      fed := fed + more;
    }
  }

  /** The kernel holds the registration that the notification is for. */
  ghost predicate Holds(watched: map<nat, Reg>, e: Event) {
    e.fd in watched && watched[e.fd].gen == e.gen
  }

  /** An always-ready descriptor that somebody waits for. */
  predicate Ready(t: Table, fd: nat) {
    IsEperm(At(t, fd).emask) && At(t, fd).events & (EV_READ | EV_WRITE) != 0
  }

  /** What is wanted, and which descriptors are always ready, is unchanged. */
  ghost predicate SameReady(t: Table, t': Table) {
    forall fd: nat {:trigger At(t', fd)} :: At(t', fd).events == At(t, fd).events && (Ready(t', fd) <==> Ready(t, fd))
  }

  /** The entries of the list without the one at `i`, the last one in its place. */
  function Dropped(e: seq<nat>, i: nat): seq<nat>
    requires i < |e|
  {
    e[i := e[|e| - 1]][..|e| - 1]
  }

  lemma {:induction false} DroppedKeeps(e: seq<nat>, i: nat)
    requires i < |e|
    ensures forall x :: x in e && x != e[i] ==> x in Dropped(e, i)
  {
    var d := Dropped(e, i);
    forall x | x in e && x != e[i] ensures x in d {
      var j :| 0 <= j < |e| && e[j] == x;
      assert j < |d| ==> d[j] == x;
      assert j == |e| - 1 ==> d[i] == x;
    }
  }

  lemma {:induction false} DroppedTail(e: seq<nat>, i: nat)
    requires i < |e|
    ensures |Dropped(e, i)| == |e| - 1
    ensures Dropped(e, i)[..i] == e[..i] && multiset(Dropped(e, i)[i..]) == multiset(e[i + 1..])
  {
    var last := |e| - 1;
    assert Dropped(e, i)[..i] == e[..i];
    if i < last {
      assert Dropped(e, i)[i..] == [e[last]] + e[i + 1..last];
      assert e[i + 1..] == e[i + 1..last] + [e[last]];
    }
  }

  /** No descriptor is on the list twice. */
  ghost predicate NoRepeats(e: seq<nat>) {
    forall fd :: multiset(e)[fd] <= 1
  }

  lemma {:induction false} Appended(e: seq<nat>, fd: nat)
    ensures NoRepeats(e) ==> (NoRepeats(e + [fd]) <==> fd !in e)
  {
    assert fd in e ==> multiset(e + [fd])[fd] >= 2;
    assert forall x :: multiset(e + [fd])[x] == multiset(e)[x] + if x == fd then 1 else 0;
  }

  /** The events synthesised for a list: one for every entry that is ready, from the back. */
  function Fed(e: seq<nat>, t: Table): seq<Feed> {
    if e == [] then []
    else Fed(e[1..], t) + if Ready(t, e[0]) then [Feed(e[0], At(t, e[0]).events)] else []
  }

  /** A ready descriptor is fed as often as it is on the list, with what is wanted of it; no other is fed. */
  lemma {:induction false} FedAsListed(e: seq<nat>, t: Table, f: Feed)
    ensures multiset(Fed(e, t))[f] == if Ready(t, f.fd) && f.events == At(t, f.fd).events then multiset(e)[f.fd] else 0
  {
    hide Ready, At;
    if e == [] {
    } else {
      FedAsListed(e[1..], t, f);
      assert e == [e[0]] + e[1..];
    }
  }

  /** What is left of a list: as many entries as before for every ready descriptor, none for the others. */
  ghost predicate Remain(left: seq<nat>, e: seq<nat>, t: Table) {
    forall fd :: multiset(left)[fd] == if Ready(t, fd) then multiset(e)[fd] else 0
  }

  lemma {:induction false} NothingRemains(t: Table)
    ensures Fed([], t) == [] && Remain([], [], t)
  {
  }

  lemma {:induction false} FedFrom(e: seq<nat>, i: nat, t: Table)
    requires i < |e|
    ensures Fed(e[i..], t) == Fed(e[i + 1..], t) + if Ready(t, e[i]) then [Feed(e[i], At(t, e[i]).events)] else []
  {
    assert e[i..][1..] == e[i + 1..];
  }

  /** One more entry: it remains if it is ready, and is gone once dropped if not. */
  lemma {:induction false} RemainFrom(left: seq<nat>, e: seq<nat>, i: nat, t: Table)
    requires i < |left| && i < |e| && left[i] == e[i] && Remain(left[i + 1..], e[i + 1..], t)
    ensures |Dropped(left, i)| == |left| - 1
    ensures if Ready(t, e[i]) then Remain(left[i..], e[i..], t) else Remain(Dropped(left, i)[i..], e[i..], t)
  {
    hide Ready;
    assert e[i..] == [e[i]] + e[i + 1..] && left[i..] == [left[i]] + left[i + 1..];
    DroppedTail(left, i);
  }

  lemma {:induction false} WantedBits(t: Table, w: map<nat, Reg>, e: seq<nat>, fd: nat)
    requires AllInSync(t, w, e)
    ensures At(t, fd).events & (EV_READ | EV_WRITE) == At(t, fd).events
  {
    EntryInSync(t, w, e, fd);
  }

  lemma {:induction false} FedSame(e: seq<nat>, t0: Table, t: Table)
    requires SameReady(t0, t)
    ensures Fed(e, t) == Fed(e, t0)
  {
    if e == [] {
    } else {
      hide Ready;
      FedSame(e[1..], t0, t);
      SameWanted(t0, t, e[0]);
    }
  }

  lemma {:induction false} RemainSame(left: seq<nat>, e: seq<nat>, t0: Table, t: Table)
    requires Remain(left, e, t) && SameReady(t0, t)
    ensures Remain(left, e, t0)
  {
    hide Ready;
    forall fd ensures multiset(left)[fd] == if Ready(t0, fd) then multiset(e)[fd] else 0 {
      SameWanted(t0, t, fd);
    }
  }

  /**
   Descriptor 5 is opened as a file that epoll cannot handle, then as one that it can, then again as the first kind.
   The second `epoll_modify` forgets that 5 is on the always-ready list, so the third puts it there once more.
   */
  method ListedTwice() returns (eperms: seq<nat>, fed: seq<Feed>)
    ensures eperms == [5, 5] && fed == [Feed(5, EV_READ), Feed(5, EV_READ)]
  {
    hide *;
    var k := new Kernel(true);
    var loop := new Loop(k);
    EpermBit(EV_READ);
    ReadIsEvents();
    loop.Open(5, false);
    var _ := loop.Reify(5, EV_READ);
    loop.Close(5);
    loop.Open(5, true);
    var _ := loop.Reify(5, EV_READ);
    loop.Close(5);
    loop.Open(5, false);
    var _ := loop.Reify(5, EV_READ);
    eperms := loop.eperms;
    assert eperms == [5, 5];
    FedTwice(loop.anfds, 5);
    k.NothingReported();
    fed := loop.Poll([]);
  }

  lemma {:induction false} ReadIsEvents()
    ensures IsEvents(EV_READ) && EV_READ != 0 && !IsEperm(At(map[], 5).emask)
  {
  }

  lemma {:induction false} FedTwice(t: Table, fd: nat)
    requires At(t, fd).events == EV_READ && At(t, fd).emask == EV_EMASK_EPERM
    ensures Fed([fd, fd], t) == [Feed(fd, EV_READ), Feed(fd, EV_READ)]
  {
    assert Ready(t, fd);
    FedFrom([fd, fd], 1, t);
    assert [fd, fd][1..] == [fd];
  }

  lemma {:induction false} SameWanted(t: Table, t': Table, fd: nat)
    requires SameReady(t, t')
    ensures At(t', fd).events == At(t, fd).events && (Ready(t', fd) <==> Ready(t, fd))
  {
  }

  lemma {:induction false} SameReadySelf(t: Table)
    ensures SameReady(t, t)
  {
  }

  lemma {:induction false} SameReadyTrans(t: Table, t1: Table, t2: Table)
    requires SameReady(t, t1) && SameReady(t1, t2)
    ensures SameReady(t, t2)
  {
    hide Ready;
    forall fd: nat {:trigger At(t2, fd)} ensures At(t2, fd).events == At(t, fd).events && (Ready(t2, fd) <==> Ready(t, fd)) {
      assert At(t1, fd) == At(t1, fd);
    }
  }

  lemma {:induction false} SetMask(t: Table, fd: nat, m: bv8)
    requires !Ready(t, fd) && !IsEperm(m)
    ensures SameReady(t, t[fd := At(t, fd).(emask := m)])
  {
  }

  lemma {:induction false} IsReady(t: Table, fd: nat)
    ensures Ready(t, fd) <==> IsEperm(At(t, fd).emask) && At(t, fd).events & (EV_READ | EV_WRITE) != 0
  {
  }

  lemma {:induction false} StaysArmed(armed: set<nat>, fd: nat, t: Table, w: map<nat, Reg>, e: seq<nat>)
    requires AllArmed(armed, t, w, e) && AllInSync(t, w, e) && !Ready(t, fd) && fd in armed
    ensures fd in w && w[fd] == Reg(Bits(At(t, fd).events), fd, At(t, fd).egen)
  {
    EntryInSync(t, w, e, fd);
    assert Armed(At(t, fd), fd, w, e);
  }
}
