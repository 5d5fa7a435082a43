/** The two simple backends side by side: both hold the plain map that the calls describe. */
module EventBackends {
  import opened EventMask
  import EventPoll
  import EventSelect

  datatype Call = Call(fd: nat, ev: bv8)

  /** The map after the modify calls, from an empty one. */
  function Replay(calls: seq<Call>): Wants {
    if calls == [] then map[]
    else var last := calls[|calls| - 1]; Updated(Replay(calls[..|calls| - 1]), last.fd, last.ev)
  }

  /** A loop that makes the calls on both backends, passing each the mask it set before, as `fd_reify` does. */
  method InLockstep(calls: seq<Call>) returns (p: EventPoll.Poll, s: EventSelect.Select)
    requires forall i :: 0 <= i < |calls| ==> IsEvents(calls[i].ev)
    ensures fresh(p) && fresh(s) && p.Valid() && s.Valid()
    ensures p.Decoded() == s.Decoded() == Replay(calls)
  {
    p := new EventPoll.Poll();
    s := new EventSelect.Select();
    var events: Wants := map[];
    var i: nat := 0;
    while i < |calls|
      invariant i <= |calls| && p.Valid() && s.Valid() && fresh(p) && fresh(s)
      invariant p.Decoded() == s.Decoded() == events == Replay(calls[..i])
    {
      var c := calls[i];
      var oev := Want(events, c.fd);
      p.Modify(c.fd, oev, c.ev);
      s.Modify(c.fd, oev, c.ev);
      events := Updated(events, c.fd, c.ev);
      assert calls[..i + 1][..i] == calls[..i];
      i := i + 1;
    }
    assert calls[..i] == calls;
  }
}
