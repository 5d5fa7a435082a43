/**
 iperf's control connection on the wire (`net.c`, `iperf_api.c`): transfers in
 pieces of any size, one-byte states, cookies, and JSON documents behind a
 four-byte length.
 */
module ControlWire {
  import opened CString
  import opened JsonTree
  import opened JsonParse
  import opened JsonRoundTrip
  import JsonPrintAlloc
  import JsonPrintBuffer

  const COOKIE_SIZE: nat := 37
  const NET_SOFTERROR := -1
  const NET_HARDERROR := -2

  /** A length in network byte order. */
  function Be32(n: nat): (b: text)
    requires n < 0x1_0000_0000
    ensures |b| == 4
  {
    [n / 0x100_0000, n / 0x1_0000 % 0x100, n / 0x100 % 0x100, n % 0x100]
  }

  function FromBe32(b: text): nat
    requires |b| == 4
  {
    b[0] as nat * 0x100_0000 + b[1] as nat * 0x1_0000 + b[2] as nat * 0x100 + b[3] as nat
  }

  lemma {:induction false} Be32RoundTrip(n: nat)
    requires n < 0x1_0000_0000
    ensures FromBe32(Be32(n)) == n
  {
    assert n / 0x100 == n / 0x1_0000 * 0x100 + n / 0x100 % 0x100;
    assert n / 0x1_0000 == n / 0x100_0000 * 0x100 + n / 0x1_0000 % 0x100;
  }

  lemma {:induction false} FromBe32RoundTrip(b: text)
    requires |b| == 4
    ensures FromBe32(b) < 0x1_0000_0000 && Be32(FromBe32(b)) == b
  {
    var n := FromBe32(b);
    assert n / 0x100 == b[0] as int * 0x1_0000 + b[1] as int * 0x100 + b[2] as int;
    assert n / 0x1_0000 == b[0] as int * 0x100 + b[1] as int;
    assert n / 0x100_0000 == b[0] as int;
  }

  /** The most significant byte comes first: numbers are ordered as their texts. */
  lemma {:induction false} Be32Ordered(m: nat, n: nat)
    requires m < n < 0x1_0000_0000
    ensures exists k :: 0 <= k < 4 && Be32(m)[..k] == Be32(n)[..k] && Be32(m)[k] < Be32(n)[k]
  {
    var a, b := Be32(m), Be32(n);
    Be32RoundTrip(m);
    Be32RoundTrip(n);
    hide Be32;
    var k := if a[0] != b[0] then 0 else if a[1] != b[1] then 1 else if a[2] != b[2] then 2 else 3;
    assert a[..k] == b[..k];
    assert a[k] < b[k];
  }

  datatype Kind = StateKind | DocKind | CookieKind

  datatype Msg = State(code: byte) | Doc(t: Json) | Cookie(c: text)

  function KindOf(m: Msg): Kind {
    match m
    case State(_) => StateKind
    case Doc(_) => DocKind
    case Cookie(_) => CookieKind
  }

  /** Documents with a length that fits the header, and cookies of the fixed size. */
  ghost predicate Framable(m: Msg) {
    match m
    case State(_) => true
    case Doc(t) => Printable(t) && Named(t) && |PrintValue(t, 0, false)| < 0x1_0000_0000
    case Cookie(c) => |c| == COOKIE_SIZE
  }

  /** Documents that also fit the `int` that the transfer functions return. */
  ghost predicate Sendable(m: Msg) {
    Framable(m) && (m.Doc? ==> |PrintValue(m.t, 0, false)| < 0x8000_0000)
  }

  /** The bytes of a message. */
  ghost function Frame(m: Msg): text
    requires Framable(m)
  {
    match m
    case State(code) => [code]
    case Doc(t) => Be32(|PrintValue(t, 0, false)|) + PrintValue(t, 0, false)
    case Cookie(c) => c
  }

  ghost function FrameAll(ms: seq<Msg>): text
    requires forall m :: m in ms ==> Sendable(m)
  {
    if ms == [] then [] else assert Sendable(ms[0]); Frame(ms[0]) + FrameAll(ms[1..])
  }

  /** What a reader that asks for a kind takes off the stream: the message, and the bytes behind it. */
  function Take(k: Kind, bytes: text): Option<(Msg, text)> {
    match k
    case StateKind => if bytes == [] then None else Some((State(bytes[0]), bytes[1..]))
    case CookieKind =>
      if |bytes| < COOKIE_SIZE then None else Some((Cookie(bytes[..COOKIE_SIZE]), bytes[COOKIE_SIZE..]))
    case DocKind =>
      if |bytes| < 4 then None
      else
        var n := FromBe32(bytes[..4]);
        if n >= 0x8000_0000 || |bytes| < 4 + n then None
        else
          var json := Parse(CText(bytes[4..][..n]), false);
          if json.None? then None else Some((Doc(json.value.value), bytes[4..][n..]))
  }

  /** A whole header, whose length plus one still fits 32 bits. */
  predicate Headed(bytes: text) {
    |bytes| >= 4 && FromBe32(bytes[..4]) < 0xffff_ffff
  }

  lemma {:induction false} TakeDoc(t: Json, rest: text)
    requires Sendable(Doc(t))
    ensures Take(DocKind, Frame(Doc(t)) + rest) == Some((Doc(t), rest)) && |Frame(Doc(t))| > 0
  {
    assert Framable(Doc(t)) && |PrintValue(t, 0, false)| < 0x8000_0000;
    hide Parse, CText, FromBe32, PrintValue, Printable, Named, Be32, Framable, Frame;
    FrameSplits(t, rest, Frame(Doc(t)) + rest);
    assert |Frame(Doc(t)) + rest| >= 4 + |rest|;
  }

  /** How many bytes a message takes. */
  lemma {:induction false} FrameLength(m: Msg)
    requires Framable(m)
    ensures |Frame(m)| == match m case State(_) => 1 case Cookie(_) => 37 case Doc(t) => 4 + |PrintValue(t, 0, false)|
  {
    if m.Doc? {
      DocFrame(m.t);
    }
    hide PrintValue, Be32;
  }

  /** Asking for the kind that was sent takes exactly the message. */
  lemma {:induction false} TakeFrame(m: Msg, rest: text)
    requires Sendable(m)
    ensures Take(KindOf(m), Frame(m) + rest) == Some((m, rest)) && |Frame(m)| > 0
  {
    hide Parse, CText, FromBe32, PrintValue, Printable, Named, Be32;
    var bytes := Frame(m) + rest;
    match m
    case State(code) => assert bytes[1..] == rest;
    case Doc(t) => TakeDoc(t, rest);
    case Cookie(c) => assert bytes[..COOKIE_SIZE] == c && bytes[COOKIE_SIZE..] == rest;
  }

  // ---------------------------------------------------------------- sockets

  /** The outcome of a system call: bytes moved, a signal or a full buffer, no buffers, or an error. */
  datatype Io = Moved(n: nat) | Interrupted | NoBuffers | Broken

  /**
   A blocking socket: the bytes that will still arrive before the peer closes, and the bytes written.  On a `reliable`
   one no call fails, is interrupted or moves nothing; `plenty` says that no allocation fails.  `outcome` is that of the
   last call.
   */
  class Socket {
    var input: text
    var output: text
    ghost var outcome: Io
    const reliable: bool
    const plenty: bool

    constructor (input: text, reliable: bool, plenty: bool)
      ensures this.input == input && output == [] && this.reliable == reliable && this.plenty == plenty
    {
      this.input, output, outcome, this.reliable, this.plenty := input, [], Moved(0), reliable, plenty;
    }

    /** `read`: some of the next bytes; none only at the end of the stream. */
    method Read(n: nat) returns (io: Io, chunk: text)
      requires n > 0
      modifies this`input, this`outcome
      ensures outcome == io && !io.NoBuffers? && (reliable ==> io.Moved?) && (!io.Moved? ==> input == old(input))
      ensures io.Moved? ==> io.n <= n && (io.n == 0 <==> old(input) == []) && io.n <= |old(input)|
      ensures io.Moved? ==> chunk == old(input)[..io.n] && input == old(input)[io.n..]
    {
      chunk := [];
      if !reliable {
        if * { outcome := Interrupted; return Interrupted, chunk; }
        if * { outcome := Broken; return Broken, chunk; }
      }
      if input == [] { outcome := Moved(0); return Moved(0), chunk; }
      var r: nat :| 0 < r <= n && r <= |input|;
      io, outcome, chunk, input := Moved(r), Moved(r), input[..r], input[r..];
    }

    /** `write`: takes some of the bytes. */
    method Write(buf: text) returns (io: Io)
      requires buf != []
      modifies this`output, this`outcome
      ensures outcome == io && (!io.Moved? ==> output == old(output))
      ensures io.Moved? ==> io.n <= |buf| && output == old(output) + buf[..io.n]
      ensures reliable ==> io.Moved? && io.n > 0
    {
      if !reliable {
        if * { outcome := Interrupted; return Interrupted; }
        if * { outcome := NoBuffers; return NoBuffers; }
        if * { outcome := Broken; return Broken; }
      }
      var r: nat :| r <= |buf| && (reliable ==> r > 0);
      output := output + buf[..r];
      io, outcome := Moved(r), Moved(r);
    }

    /** `Nread`: exactly the next bytes, all of them unless the stream ends or a call fails; the count is an `int`. */
    method Nread(count: nat) returns (rc: int, buf: text)
      modifies this`input, this`outcome
      ensures |buf| <= count && |buf| <= |old(input)| && buf == old(input)[..|buf|] && input == old(input)[|buf|..]
      ensures rc == if count > 0 && outcome.Broken? then -2 else Int32(|buf|)
      ensures |buf| < count ==> outcome.Broken? || outcome.Interrupted? || outcome == Moved(0)
      ensures reliable ==> rc == Int32(|buf|) && (|buf| == count || |buf| == |old(input)| < count)
    {
      buf := [];
      var nleft: nat := count;
      while nleft > 0
        invariant nleft + |buf| == count && |buf| <= |old(input)|
        invariant buf == old(input)[..|buf|] && input == old(input)[|buf|..]
        invariant nleft == count || !outcome.Broken?
        decreases nleft
      {
        var io, chunk := Read(nleft);
        match io {
          case Interrupted =>
            break;
          case Moved(r) =>
            if r == 0 { break; }
            nleft, buf := nleft - r, buf + chunk;
          case _ =>
            return NET_HARDERROR, buf;
        }
      }
      rc := Int32(count - nleft);
    }

    /** `Nwrite`: what was written is a prefix of the buffer, all of it unless a call fails or moves nothing. */
    method Nwrite(buf: text) returns (rc: int)
      modifies this`output, this`outcome
      ensures old(output) <= output <= old(output) + buf
      ensures rc == if buf == [] then 0 else if outcome.Broken? then -2 else if outcome.NoBuffers? || outcome == Moved(0) then -1
                    else Int32(|output| - |old(output)|)
      ensures if buf == [] then outcome == old(outcome) else (outcome.Moved? && outcome.n > 0 <==> output == old(output) + buf)
      ensures reliable ==> rc == Int32(|buf|) && output == old(output) + buf
    {
      var done: nat := 0;
      while done < |buf|
        invariant done <= |buf| && output == old(output) + buf[..done]
        invariant if done == 0 then outcome == old(outcome) else outcome.Moved? && outcome.n > 0
        decreases |buf| - done
      {
        var io := Write(buf[done..]);
        match io {
          case Interrupted =>
            return Int32(done);
          case NoBuffers =>
            return NET_SOFTERROR;
          case Broken =>
            return NET_HARDERROR;
          case Moved(r) =>
            assert buf[..done] + buf[done..][..r] == buf[..done + r];
            if r == 0 { return NET_SOFTERROR; }
            done := done + r;
        }
      }
      assert buf[..done] == buf;
      rc := Int32(|buf|);
    }

    /** `iperf_set_send_state`, without the local state.  An interrupted call counts as a success. */
    method SendState(code: byte) returns (ok: bool)
      modifies this`output, this`outcome
      ensures reliable ==> ok && output == old(output) + Frame(State(code))
      ensures ok <==> output == old(output) + [code] || outcome.Interrupted?
      ensures ok <==> !outcome.Broken? && !outcome.NoBuffers? && outcome != Moved(0)
    {
      Int32Sign(0);
      Int32Sign(1);
      var rc := Nwrite([code]);
      ok := rc >= 0;
    }

    /**
     `JSON_write`.  A short write counts as a success, so success alone does not mean a whole frame; and a text of
     2^31 bytes or more counts as a failure although all of it was written.
     */
    method JsonWrite(t: Json) returns (ok: bool)
      requires Framable(Doc(t))
      modifies this`output, this`outcome
      ensures reliable && plenty ==> output == old(output) + Frame(Doc(t)) && (ok <==> Sendable(Doc(t)))
      ensures plenty && Sendable(Doc(t)) ==> (ok <==> !outcome.Broken? && !outcome.NoBuffers? && outcome != Moved(0))
    {
      DocFrame(t);
      hide *;
      var str := JsonPrintAlloc.PrintItem(t, 0, false, plenty);
      if str.None? { return false; }
      ok := WriteBoth(Be32(|str.value|), str.value);
    }

    /** Two writes in turn, the second only if the first does not fail. */
    method WriteBoth(header: text, body: text) returns (ok: bool)
      requires |header| == 4 && |body| < 0x1_0000_0000
      modifies this`output, this`outcome
      ensures reliable ==> output == old(output) + (header + body) && (ok <==> |body| < 0x8000_0000)
      ensures |body| < 0x8000_0000 ==> (ok <==> !outcome.Broken? && !outcome.NoBuffers? && outcome != Moved(0))
    {
      hide Int32;
      ghost var before := output;
      var rc := Nwrite(header);
      Int32Sign(|output| - |before|);
      if rc < 0 { return false; }
      ghost var between := output;
      var rc2 := Nwrite(body);
      Int32Sign(|output| - |between|);
      Int32Sign(|body|);
      ok := rc2 >= 0;
      Joined(before, header, body);
    }

    /**
     `JSON_read`.  After a short header the length is whatever was in the variable.  A length of 2^31 or more makes
     the count of bytes read negative, so the document is refused.
     */
    method JsonRead() returns (r: Option<Json>)
      modifies this`input, this`outcome
      ensures reliable && plenty && Take(DocKind, old(input)).Some? ==>
                var (m, rest) := Take(DocKind, old(input)).value; m == Doc(m.t) && r == Some(m.t) && input == rest
      ensures reliable && plenty && Headed(old(input)) && Take(DocKind, old(input)).None? ==> r.None?
    {
      hide Parse, CText, FromBe32, Int32;
      r := None;
      Int32Sign(4);
      var rc, header := Nread(4);
      if rc < 0 { return; }
      var hsize: nat;
      if |header| == 4 {
        hsize := FromBe32(header);
      } else {
        hsize :| hsize < 0x1_0000_0000;
      }
      if !plenty {
        if * { return; }
      }
      var rc2, str := Nread(hsize);
      Int32Sign(|str|);
      if rc2 >= 0 && rc2 == hsize {
        var json := JsonParse.Parse(CText(str), false);
        r := if json.Some? then Some(json.value.value) else None;
      }
    }
  }

  lemma {:induction false} Int32Sign(n: nat)
    ensures n < 0x8000_0000 ==> Int32(n) == n
    ensures 0x8000_0000 <= n < 0x1_0000_0000 ==> Int32(n) < 0
    ensures Int32(n) < 0x8000_0000
  {
  }

  lemma {:induction false} Joined(a: text, b: text, c: text)
    ensures a + b + c == a + (b + c)
  {
  }

  lemma {:induction false} DocFrame(t: Json)
    requires Framable(Doc(t))
    ensures var p := PrintValue(t, 0, false);
            && Printable(t) && |p| < 0x1_0000_0000 && Frame(Doc(t)) == Be32(|p|) + p && |Be32(|p|)| == 4
            && (Sendable(Doc(t)) <==> |p| < 0x8000_0000)
  {
  }

  /** The C string at the start of a buffer. */
  function CText(s: text): text {
    if s == [] || s[0] == 0 then [] else [s[0]] + CText(s[1..])
  }

  lemma {:induction false} CTextWhole(s: text)
    requires NulFree(s)
    ensures CText(s) == s
  {
    if s != [] {
      CTextWhole(s[1..]);
    }
  }

  /** Splitting a frame at the length it announces gives back its text. */
  lemma {:induction false} FrameSplits(t: Json, rest: text, bytes: text)
    requires Framable(Doc(t)) && bytes == Frame(Doc(t)) + rest
    ensures var p := PrintValue(t, 0, false);
            && |bytes| >= 4 + |p| && bytes[..4] == Be32(|p|) && FromBe32(bytes[..4]) == |p|
            && bytes[4..][..|p|] == p && bytes[4..][|p|..] == rest
            && CText(p) == p && Parse(p, false) == Some(Parsed(t, []))
  {
    DocFrame(t);
    hide *;
    var p := PrintValue(t, 0, false);
    Be32RoundTrip(|p|);
    SplitAt(Be32(|p|), p, rest, bytes);
    PrintedText(t);
  }

  lemma {:induction false} SplitAt(header: text, p: text, rest: text, bytes: text)
    requires |header| == 4 && bytes == header + p + rest
    ensures |bytes| >= 4 + |p| && bytes[..4] == header && bytes[4..][..|p|] == p && bytes[4..][|p|..] == rest
  {
    assert bytes == header + (p + rest);
    assert bytes[4..] == p + rest;
  }

  lemma {:induction false} PrintedText(t: Json)
    requires Framable(Doc(t))
    ensures var p := PrintValue(t, 0, false); CText(p) == p && Parse(p, false) == Some(Parsed(t, []))
  {
    assert Printable(t) && Named(t);
    hide *;
    JsonPrintBuffer.ValueNulFree(t, 0, false);
    CTextWhole(PrintValue(t, 0, false));
    RoundTrip(t, false, false);
  }

  /** Reading a kind takes off the stream what `Take` says, in pieces of any size. */
  method ReadMsg(sock: Socket, k: Kind) returns (r: Option<Msg>)
    modifies sock`input, sock`outcome
    ensures sock.reliable && sock.plenty && Take(k, old(sock.input)).Some? ==>
              r == Some(Take(k, old(sock.input)).value.0) && sock.input == Take(k, old(sock.input)).value.1
    ensures sock.reliable && sock.plenty && Take(k, old(sock.input)).None? ==>
              (k.StateKind? || (k.DocKind? && Headed(old(sock.input))) ==> r.None?)
  {
    hide Parse, CText, FromBe32;
    match k {
      case StateKind =>
        Int32Sign(1);
        var rc, buf := sock.Nread(1);
        r := if |buf| == 1 && rc > 0 then Some(State(buf[0])) else None;
      case DocKind =>
        var t := sock.JsonRead();
        r := if t.Some? then Some(Doc(t.value)) else None;
      case CookieKind =>
        Int32Sign(COOKIE_SIZE);
        var rc, buf := sock.Nread(COOKIE_SIZE);
        r := if rc >= 0 then Some(Cookie(buf)) else None;
    }
  }

  /**
   A reader that asks for the kinds in the writer's order stays on the frame boundaries and gets the writer's
   messages, however the bytes are split into reads.
   */
  method ReadAll(sock: Socket, kinds: seq<Kind>, ghost ms: seq<Msg>, ghost rest: text) returns (r: seq<Msg>)
    requires sock.reliable && sock.plenty && (forall m :: m in ms ==> Sendable(m)) && |kinds| == |ms|
    requires forall i :: 0 <= i < |ms| ==> kinds[i] == KindOf(ms[i])
    requires sock.input == FrameAll(ms) + rest
    modifies sock`input, sock`outcome
    ensures r == ms && sock.input == rest
  {
    hide Sendable, Framable, Frame, KindOf, Take;
    r := [];
    var i: nat := 0;
    while i < |kinds|
      invariant i <= |kinds| && r == ms[..i] && sock.input == FrameAll(ms[i..]) + rest
    {
      ghost var tail := FrameAll(ms[i + 1..]) + rest;
      UnfoldFrames(ms[i..]);
      assert ms[i..][0] == ms[i] && ms[i..][1..] == ms[i + 1..];
      assert sock.input == Frame(ms[i]) + tail;
      TakeFrame(ms[i], tail);
      var m := ReadMsg(sock, kinds[i]);
      r := r + [m.value];
      i := i + 1;
    }
    assert ms[i..] == [] && ms[..i] == ms;
  }

  lemma {:induction false} UnfoldFrames(ms: seq<Msg>)
    requires (forall m :: m in ms ==> Sendable(m)) && ms != []
    ensures Framable(ms[0]) && (forall m :: m in ms[1..] ==> Sendable(m)) && FrameAll(ms) == Frame(ms[0]) + FrameAll(ms[1..])
  {
    assert ms[0] in ms;
  }

  /** The writer's side: each message in turn, in pieces of any size. */
  method WriteAll(sock: Socket, ms: seq<Msg>)
    requires sock.reliable && sock.plenty && forall m :: m in ms ==> Sendable(m)
    modifies sock`output, sock`outcome
    ensures sock.output == old(sock.output) + FrameAll(ms)
  {
    hide Sendable, Framable, Frame;
    var i: nat := 0;
    while i < |ms|
      invariant i <= |ms| && sock.output + FrameAll(ms[i..]) == old(sock.output) + FrameAll(ms)
    {
      UnfoldFrames(ms[i..]);
      assert ms[i..][0] == ms[i] && ms[i..][1..] == ms[i + 1..];
      ghost var before := sock.output;
      var ok := WriteMsg(sock, ms[i]);
      Joined(before, Frame(ms[i]), FrameAll(ms[i + 1..]));
      i := i + 1;
    }
    assert ms[i..] == [];
  }

  method WriteMsg(sock: Socket, m: Msg) returns (ok: bool)
    requires Framable(m)
    modifies sock`output, sock`outcome
    ensures sock.reliable && sock.plenty ==> sock.output == old(sock.output) + Frame(m) && (ok <==> Sendable(m))
    ensures sock.plenty && Sendable(m) ==>
              (ok <==> !sock.outcome.Broken? && !sock.outcome.NoBuffers? && sock.outcome != Moved(0))
  {
    match m {
      case State(code) =>
        ok := sock.SendState(code);
      case Doc(t) =>
        ok := sock.JsonWrite(t);
      case Cookie(c) =>
        ghost var before := sock.output;
        var rc := sock.Nwrite(c);
        Int32Sign(|sock.output| - |before|);
        Int32Sign(COOKIE_SIZE);
        ok := rc >= 0;
    }
  }

  /** Written on one side and read on the other, a sequence of messages arrives as it was sent. */
  method Exchange(ms: seq<Msg>, kinds: seq<Kind>) returns (r: seq<Msg>)
    requires (forall m :: m in ms ==> Sendable(m)) && |kinds| == |ms|
    requires forall i :: 0 <= i < |ms| ==> kinds[i] == KindOf(ms[i])
    ensures r == ms
  {
    hide Sendable, Framable, Frame, KindOf;
    var writer := new Socket([], true, true);
    WriteAll(writer, ms);
    var reader := new Socket(writer.output, true, true);
    assert writer.output == FrameAll(ms) + [];
    r := ReadAll(reader, kinds, ms, []);
  }

  lemma {:induction false} FramesJoin(a: seq<Msg>, b: seq<Msg>)
    requires (forall m :: m in a ==> Sendable(m)) && (forall m :: m in b ==> Sendable(m))
    ensures FrameAll(a + b) == FrameAll(a) + FrameAll(b)
  {
    hide Sendable, Framable, Frame;
    if a == [] {
      assert a + b == b;
    } else {
      UnfoldFrames(a);
      UnfoldFrames(a + b);
      FramesJoin(a[1..], b);
      assert (a + b)[1..] == a[1..] + b;
      Joined(Frame(a[0]), FrameAll(a[1..]), FrameAll(b));
    }
  }
}
