/**
 A splice of the transparent proxy (`tproxy.c`): two connections joined by two
 pipes.  A pipe watches its source for readability, or, after it was held up by
 the destination, the destination for writability.  The sockets and the event
 loop are modelled by what the callback is promised of them.
 */
module ProxySplice {
  import opened CString

  const BUFFER_SIZE := 64 * 1024

  /** A connection: bytes waiting to be read, end of stream or error seen, room for writing, and `write_shut`. */
  datatype Conn = Conn(queue: text, eof: bool, failed: bool, space: nat, writeShut: bool)

  datatype Pipe = Pipe(fromActive: bool, toActive: bool)

  /** `uinet_soreadable`: bytes to read; -1 for an error or the end of the stream. */
  function Readable(c: Conn): int {
    if c.failed then -1 else if c.queue != [] then |c.queue| else if c.eof then -1 else 0
  }

  /** `uinet_sowritable`. */
  function Writable(c: Conn): int {
    if c.failed || c.writeShut then -1 else c.space
  }

  function Min(a: int, b: int): int {
    if a < b then a else b
  }

  /** Nothing can be passed on any more: an error on either side, or the source has ended and is drained. */
  ghost predicate Broken(source: Conn, dest: Conn) {
    source.failed || dest.failed || (source.queue == [] && source.eof)
  }

  /**
   One direction.  While it is open it has exactly one active watcher, the write
   watcher only if there is something to write, and nothing is lost or reordered.
   When it was shut without an error everything has been passed on.
   */
  ghost predicate Flowing(p: Pipe, source: Conn, dest: Conn, arrived: text, delivered: text, faulty: bool) {
    && delivered <= arrived
    && if dest.writeShut then
         !p.fromActive && !p.toActive && (faulty || (source.eof && delivered == arrived))
       else
         p.fromActive != p.toActive && (p.toActive ==> source.queue != []) && arrived == delivered + source.queue
  }

  /**
   Between two states the first bytes of the queue were delivered: as many as are there, as there is room for, or as
   fit the buffer, whichever is least.
   */
  ghost predicate PassesOn(source: Conn, dest: Conn, source': Conn, dest': Conn, before: text, after: text) {
    var k := |after| - |before|;
    && 0 <= k <= |source.queue| && k <= dest.space && k <= 65536
    && (k == |source.queue| || k == dest.space || k == 65536)
    && after == before + source.queue[..k]
    && source' == source.(queue := source.queue[k..]) && dest' == dest.(space := dest.space - k)
  }

  class Splice {
    var conns: seq<Conn>    // the client and the server
    var pipes: seq<Pipe>    // pipe `i` reads from connection `i` and writes to the other
    var freed: bool
    const reliable: bool    // receiving and sending within what is ready do not fail
    ghost var arrived: seq<text>     // bytes received from each connection
    ghost var delivered: seq<text>   // bytes each pipe has passed on
    ghost var faulty: seq<bool>      // whether the pipe was shut by an error
    ghost var frees: nat

    ghost predicate Shape()
      reads this
    {
      |conns| == |pipes| == |arrived| == |delivered| == |faulty| == 2
    }

    ghost predicate Flows(i: nat)
      requires Shape() && i < 2
      reads this
    {
      Flowing(pipes[i], conns[i], conns[1 - i], arrived[i], delivered[i], faulty[i])
    }

    ghost predicate Valid()
      reads this
    {
      && Shape() && Flows(0) && Flows(1)
      && (freed <==> conns[0].writeShut && conns[1].writeShut)
      && frees == if freed then 1 else 0
    }

    /** Both pipes after `pipe_init`. */
    constructor (client: Conn, server: Conn, reliable: bool)
      requires !client.writeShut && !server.writeShut
      ensures this.reliable == reliable && Valid() && !freed && arrived == [client.queue, server.queue] && delivered == [[], []]
    {
      this.reliable := reliable;
      conns, pipes := [client, server], [Pipe(true, false), Pipe(true, false)];
      freed, frees, faulty := false, 0, [false, false];
      arrived, delivered := [client.queue, server.queue], [[], []];
    }

    // ---------------------------------------------------------------- the network

    method Arrive(i: nat, bytes: text)
      requires Valid() && i < 2 && !conns[i].eof
      modifies this`conns, this`arrived
      ensures Valid() && arrived == old(arrived)[i := old(arrived)[i] + bytes]
    {
      ghost var c := conns[i];
      conns := conns[i := conns[i].(queue := conns[i].queue + bytes)];
      arrived := arrived[i := arrived[i] + bytes];
      assert delivered[i] + (c.queue + bytes) == delivered[i] + c.queue + bytes;
    }

    /** The peer finishes, an error is noticed, or the room for writing changes. */
    method Change(i: nat, eof: bool, failed: bool, space: nat)
      requires Valid() && i < 2 && (conns[i].eof ==> eof)
      modifies this`conns
      ensures Valid() && conns == old(conns)[i := old(conns)[i].(eof := eof, failed := failed, space := space)]
    {
      conns := conns[i := conns[i].(eof := eof, failed := failed, space := space)];
    }

    // ---------------------------------------------------------------- the callback

    /** `splice_free`. */
    method Free()
      requires !freed && frees == 0
      modifies this`freed, this`frees
      ensures freed && frees == 1
    {
      freed, frees := true, frees + 1;
    }

    /** What holds around a pipe that is about to be shut. */
    ghost predicate Closing(i: nat)
      requires Shape() && i < 2
      reads this
    {
      && Flows(1 - i) && delivered[i] <= arrived[i] && !conns[1 - i].writeShut && !freed && frees == 0
    }

    /** The error exit of `pipe_cb`, with `splice_pipe_shut`. */
    method Shut(i: nat, ghost fault: bool)
      requires Shape() && i < 2 && Closing(i) && (fault || (conns[i].eof && delivered[i] == arrived[i]))
      modifies this`pipes, this`conns, this`faulty, this`freed, this`frees
      ensures Valid() && faulty == old(faulty)[i := fault] && pipes == old(pipes)[i := Pipe(false, false)]
      ensures conns == old(conns)[1 - i := old(conns)[1 - i].(writeShut := true)]
    {
      pipes := pipes[i := Pipe(false, false)];
      conns := conns[1 - i := conns[1 - i].(writeShut := true)];
      faulty := faulty[i := fault];
      if conns[0].writeShut && conns[1].writeShut {
        Free();
      }
    }

    /** `uinet_soreceive` of `n` waiting bytes, then `uinet_sosend` of them; false when either fails. */
    method Move(i: nat, n: nat) returns (ok: bool)
      requires Valid() && i < 2 && !conns[1 - i].writeShut && n <= |conns[i].queue| && n <= conns[1 - i].space
      modifies this`conns, this`delivered
      ensures Shape() && (!ok ==> Closing(i)) && delivered[1 - i] == old(delivered)[1 - i]
      ensures ok ==> conns == old(conns)[i := old(conns)[i].(queue := old(conns)[i].queue[n..])]
                                        [1 - i := old(conns)[1 - i].(space := old(conns)[1 - i].space - n)]
      ensures ok ==> delivered[i] == old(delivered)[i] + old(conns)[i].queue[..n]
      ensures (!ok ==> delivered == old(delivered)) && (reliable ==> ok)
      ensures ok ==> Closing(i) && arrived[i] == delivered[i] + conns[i].queue
    {
      assert arrived[i] == delivered[i] + conns[i].queue;
      Split(arrived[i], delivered[i], conns[i].queue, n);
      hide Flowing;
      if !reliable {
        if * { return false; }
      }
      var bytes := conns[i].queue[..n];
      conns := conns[i := conns[i].(queue := conns[i].queue[n..])];
      SameFlow(pipes[1 - i], conns[1 - i], old(conns)[i], conns[1 - i], conns[i], arrived[1 - i], delivered[1 - i], faulty[1 - i]);
      if !reliable {
        if * { return false; }
      }
      conns := conns[1 - i := conns[1 - i].(space := conns[1 - i].space - n)];
      delivered := delivered[i := delivered[i] + bytes];
      SameFlow(pipes[1 - i], old(conns)[1 - i], old(conns)[i], conns[1 - i], conns[i], arrived[1 - i], delivered[1 - i], faulty[1 - i]);
      ok := true;
    }

    /** The rest of `pipe_cb` once both sides are ready: move a chunk and choose the watcher to go on with. */
    method Pass(i: nat, write: bool, maxRead: nat, maxWrite: nat)
      requires Valid() && i < 2 && (if write then pipes[i].toActive else pipes[i].fromActive)
      requires maxRead == Readable(conns[i]) > 0 && maxWrite == Writable(conns[1 - i])
      modifies this`pipes, this`conns, this`faulty, this`freed, this`frees, this`delivered
      ensures Valid() && delivered[1 - i] == old(delivered)[1 - i] && old(delivered)[i] <= delivered[i]
      ensures !conns[1 - i].writeShut ==>
                && PassesOn(old(conns)[i], old(conns)[1 - i], conns[i], conns[1 - i], old(delivered)[i], delivered[i])
                && (pipes[i].toActive <==> old(conns)[1 - i].space < |old(conns)[i].queue|)
      ensures reliable ==> !conns[1 - i].writeShut
      ensures pipes[1 - i] == old(pipes)[1 - i]
    {
      assert !conns[1 - i].writeShut && pipes[i].fromActive != pipes[i].toActive;
      hide Flowing, Min, PassesOn;
      var n := Min(Min(maxRead, maxWrite), BUFFER_SIZE);
      MinOf(maxRead, maxWrite, n);
      var ok := Move(i, n);
      if !ok {
        Shut(i, true);
        return;
      }
      Passed(old(conns)[i], old(conns)[1 - i], old(delivered)[i], n);
      assert PassesOn(old(conns)[i], old(conns)[1 - i], conns[i], conns[1 - i], old(delivered)[i], delivered[i]);
      if maxWrite < maxRead {
        // held up by the destination
        assert Readable(conns[i]) > 0;
        if !write {
          pipes := pipes[i := Pipe(false, true)];
        }
      } else if write {
        pipes := pipes[i := Pipe(true, false)];
      }
      GoesOn(pipes[i], conns[i], conns[1 - i], arrived[i], delivered[i], faulty[i]);
    }

    /**
     `pipe_cb` for the read watcher, or with `write` for the write watcher, of pipe `i`.  The event loop calls an
     active watcher; the read watcher only when there is something to read, an error or the end of the stream.
     */
    method Callback(i: nat, write: bool)
      requires Valid() && i < 2
      requires if write then pipes[i].toActive else pipes[i].fromActive && Readable(conns[i]) != 0
      modifies this`pipes, this`conns, this`faulty, this`freed, this`frees, this`delivered
      ensures Valid() && delivered[1 - i] == old(delivered)[1 - i] && old(delivered)[i] <= delivered[i]
      ensures !conns[1 - i].writeShut ==>
                && PassesOn(old(conns)[i], old(conns)[1 - i], conns[i], conns[1 - i], old(delivered)[i], delivered[i])
                && (pipes[i].toActive <==> old(conns)[1 - i].space < |old(conns)[i].queue|)
      ensures !conns[1 - i].writeShut && old(conns)[i].queue != [] && old(conns)[1 - i].space > 0 ==>
                |delivered[i]| > |old(delivered)[i]|
      ensures Broken(old(conns)[i], old(conns)[1 - i]) ==> conns[1 - i].writeShut && delivered == old(delivered)
      ensures reliable && conns[1 - i].writeShut ==> Broken(old(conns)[i], old(conns)[1 - i])
      ensures pipes[1 - i] == old(pipes)[1 - i]
    {
      var maxRead := Readable(conns[i]);
      if maxRead <= 0 {
        assert maxRead != 0;
        Shut(i, conns[i].failed);
        return;
      }
      var maxWrite := Writable(conns[1 - i]);
      if maxWrite == -1 {
        Shut(i, true);
        return;
      }
      Pass(i, write, maxRead, maxWrite);
    }
  }

  lemma {:induction false} MinOf(a: int, b: int, n: int)
    requires n == Min(Min(a, b), BUFFER_SIZE) && a >= 0 && b >= 0
    ensures 0 <= n <= a && n <= b && n <= 65536 && (n == a || n == b || n == 65536)
  {
  }

  lemma {:induction false} Passed(source: Conn, dest: Conn, before: text, n: nat)
    requires n <= |source.queue| && n <= dest.space && n <= 65536
    requires n == |source.queue| || n == dest.space || n == 65536
    ensures PassesOn(source, dest, source.(queue := source.queue[n..]), dest.(space := dest.space - n),
                     before, before + source.queue[..n])
  {
  }

  lemma {:induction false} Split(arrived: text, delivered: text, queue: text, n: nat)
    requires arrived == delivered + queue && n <= |queue|
    ensures arrived == (delivered + queue[..n]) + queue[n..] && delivered <= arrived && delivered + queue[..n] <= arrived
  {
    assert queue == queue[..n] + queue[n..];
  }

  lemma {:induction false} SameFlow(p: Pipe, source: Conn, dest: Conn, source': Conn, dest': Conn,
                                    arrived: text, delivered: text, faulty: bool)
    requires Flowing(p, source, dest, arrived, delivered, faulty)
    requires source'.queue == source.queue && source'.eof == source.eof && dest'.writeShut == dest.writeShut
    ensures Flowing(p, source', dest', arrived, delivered, faulty)
  {
  }

  lemma {:induction false} GoesOn(p: Pipe, source: Conn, dest: Conn, arrived: text, delivered: text, faulty: bool)
    requires p.fromActive != p.toActive && (p.toActive ==> source.queue != []) && !dest.writeShut
    requires arrived == delivered + source.queue
    ensures Flowing(p, source, dest, arrived, delivered, faulty)
  {
  }
}
