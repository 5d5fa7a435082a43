/**
 An iperf TCP session: client and server as two machines that exchange messages
 on the control connection (`iperf_client_api.c`, `iperf_server_api.c`).  A step
 is what one side does between two blocking points.  Other clients may connect at
 any time and send a cookie of their own.  Calls succeed, except on a socket that
 has been closed.
 */
module Session {
  import opened CString
  import opened JsonTree
  import opened ControlWire

  const TEST_START: byte := 1
  const TEST_RUNNING: byte := 2
  const TEST_END: byte := 4
  const PARAM_EXCHANGE: byte := 9
  const CREATE_STREAMS: byte := 10
  const CLIENT_TERMINATE: byte := 12
  const EXCHANGE_RESULTS: byte := 13
  const DISPLAY_RESULTS: byte := 14
  const IPERF_START: byte := 15
  const IPERF_DONE: byte := 16

  // ---------------------------------------------------------------- parameters

  /** What the client was asked to do; `sender` and `reverse` are as the setters left them. */
  datatype Config = Config(numStreams: int, reverse: bool, sender: bool)

  const NAME_TCP: text := [116, 99, 112]
  const NAME_PARALLEL: text := [112, 97, 114, 97, 108, 108, 101, 108]
  const NAME_REVERSE: text := [114, 101, 118, 101, 114, 115, 101]

  /** `send_parameters`, the members that the session depends on. */
  function Params(cfg: Config): Json {
    var tail := if cfg.reverse then Cons(Some(NAME_REVERSE), True, Nil) else Nil;
    Object(Cons(Some(NAME_TCP), True, Cons(Some(NAME_PARALLEL), Number(cfg.numStreams as real), tail)))
  }

  /** `tolower` on a string. */
  function Lower(s: text): (r: text)
    ensures |r| == |s|
  {
    seq(|s|, i requires 0 <= i < |s| => if 65 <= s[i] <= 90 then s[i] + 32 else s[i])
  }

  /** `cJSON_GetObjectItem`: the first member with the name, in either case. */
  function Lookup(k: Kids, name: text): Option<Json> {
    match k
    case Nil => None
    case Cons(n, v, rest) => if n.Some? && Lower(n.value) == Lower(name) then Some(v) else Lookup(rest, name)
  }

  /** Names are the same if they differ at most in the case of letters. */
  lemma {:induction false} SameName(a: text, b: text)
    ensures Lower(a) == Lower(b) <==>
            |a| == |b| && forall i :: 0 <= i < |a| ==>
              a[i] == b[i] || (65 <= a[i] <= 90 && b[i] == a[i] + 32) || (65 <= b[i] <= 90 && a[i] == b[i] + 32)
  {
    if Lower(a) == Lower(b) {
      forall i | 0 <= i < |a|
        ensures a[i] == b[i] || (65 <= a[i] <= 90 && b[i] == a[i] + 32) || (65 <= b[i] <= 90 && a[i] == b[i] + 32)
      {
        assert Lower(a)[i] == Lower(b)[i];
      }
    }
  }

  function Members(ms: seq<(text, Json)>): Kids {
    if ms == [] then Nil else Cons(Some(ms[0].0), ms[0].1, Members(ms[1..]))
  }

  /** A lookup finds the first member with the name, and nothing exactly when there is none. */
  lemma {:induction false} LookupFirst(ms: seq<(text, Json)>, name: text)
    ensures Lookup(Members(ms), name).None? <==> forall i :: 0 <= i < |ms| ==> Lower(ms[i].0) != Lower(name)
    ensures forall i :: 0 <= i < |ms| && Lower(ms[i].0) == Lower(name) && (forall j :: 0 <= j < i ==> Lower(ms[j].0) != Lower(name))
              ==> Lookup(Members(ms), name) == Some(ms[i].1)
  {
    hide Lower;
    if ms != [] {
      LookupFirst(ms[1..], name);
      forall i | 0 <= i < |ms| && Lower(ms[i].0) == Lower(name) && (forall j :: 0 <= j < i ==> Lower(ms[j].0) != Lower(name))
        ensures Lookup(Members(ms), name) == Some(ms[i].1)
      {
        if i > 0 {
          assert ms[1..][i - 1] == ms[i];
          assert forall j :: 0 <= j < i - 1 ==> ms[1..][j] == ms[j + 1];
        }
      }
      if Lower(ms[0].0) != Lower(name) {
        assert (forall i :: 0 <= i < |ms| ==> Lower(ms[i].0) != Lower(name)) <==>
               forall i :: 0 <= i < |ms| - 1 ==> Lower(ms[1..][i].0) != Lower(name);
      }
    }
  }

  /** The `valueint` of a parsed value: numbers are truncated toward zero. */
  function ValueInt(j: Json): int {
    match j
    case Number(d) => if d < 0.0 then -(-d).Floor else d.Floor
    case True => 1
    case _ => 0
  }

  /** Truncation toward zero; a truth counts as one, and what is not a number as zero. */
  lemma {:induction false} ValueIntMeans(j: Json)
    ensures j.Number? ==> var v := ValueInt(j) as real;
              if j.d >= 0.0 then v <= j.d < v + 1.0 else v - 1.0 < j.d <= v
    ensures !j.Number? ==> ValueInt(j) == if j == True then 1 else 0
  {
  }

  /** `get_parameters`: the number of streams, one if absent. */
  function ParallelOf(j: Json): int {
    var item := if j.Object? then Lookup(j.members, NAME_PARALLEL) else None;
    if item.Some? then ValueInt(item.value) else 1
  }

  function ReverseOf(j: Json): bool {
    j.Object? && Lookup(j.members, NAME_REVERSE).Some?
  }

  /** What is not said keeps its default: one stream, not reversed. */
  lemma {:induction false} ParamsAbsent(ms: seq<(text, Json)>)
    ensures (forall i :: 0 <= i < |ms| ==> Lower(ms[i].0) != Lower(NAME_PARALLEL)) ==> ParallelOf(Object(Members(ms))) == 1
    ensures ReverseOf(Object(Members(ms))) <==> exists i :: 0 <= i < |ms| && Lower(ms[i].0) == Lower(NAME_REVERSE)
  {
    LookupFirst(ms, NAME_PARALLEL);
    LookupFirst(ms, NAME_REVERSE);
    hide Lower, Lookup, Members;
  }

  lemma {:induction false} ParamsArrive(cfg: Config)
    ensures ParallelOf(Params(cfg)) == cfg.numStreams && ReverseOf(Params(cfg)) == cfg.reverse
  {
    var tail := if cfg.reverse then Cons(Some(NAME_REVERSE), True, Nil) else Nil;
    var streams := Cons(Some(NAME_PARALLEL), Number(cfg.numStreams as real), tail);
    assert |NAME_TCP| != |NAME_PARALLEL| && |NAME_TCP| != |NAME_REVERSE| && |NAME_PARALLEL| != |NAME_REVERSE|;
    hide Lower;
    assert Params(cfg).members == Cons(Some(NAME_TCP), True, streams);
    assert Lookup(Params(cfg).members, NAME_PARALLEL) == Lookup(streams, NAME_PARALLEL) == Some(Number(cfg.numStreams as real));
    assert Lookup(Params(cfg).members, NAME_REVERSE) == Lookup(streams, NAME_REVERSE) == Lookup(tail, NAME_REVERSE);
  }

  // ---------------------------------------------------------------- machines

  datatype Phase =
    | Away            // before the control connection
    | Looping         // in the select loop
    | Opening         // the client, opening data connections
    | AwaitParams     // the server, reading the parameters
    | AwaitResults    // reading the other side's results
    | Finished
    | Aborted         // ended by an error of a call
    | Failed          // an unknown message, or one of the wrong kind

  datatype Client = Client(phase: Phase, state: byte, toOpen: nat, streams: nat)

  datatype Server = Server(phase: Phase, state: byte, cookie: text, numStreams: int, sender: bool, accepted: nat)

  /**
   `sentC` and `sentS` are all messages sent by client and server; `gotS` and `gotC` of them have been read by the
   other side.  `pending` holds the cookies of connections at the listener.  With `congestion` the server is built
   with HAVE_TCP_CONGESTION, and asks every accepted connection for its congestion control.
   */
  datatype Session = Session(
    cfg: Config, congestion: bool, cookie: text, clientResults: Json, serverResults: Json,
    c: Client, s: Server, sentC: seq<Msg>, gotS: nat, sentS: seq<Msg>, gotC: nat, pending: seq<text>)

  function Start(cfg: Config, congestion: bool, cookie: text, clientResults: Json, serverResults: Json): Session {
    Session(cfg, congestion, cookie, clientResults, serverResults,
            Client(Away, 0, 0, 0), Server(Away, IPERF_START, [], 1, false, 0), [], 0, [], 0, [])
  }

  function ClientSends(x: Session, m: Msg): Session {
    x.(sentC := x.sentC + [m])
  }

  function ServerSends(x: Session, m: Msg): Session {
    x.(sentS := x.sentS + [m])
  }

  /** `iperf_handle_message_client`. */
  function ClientHandles(x: Session, code: byte): Session {
    var y := x.(c := x.c.(state := code));
    if code == PARAM_EXCHANGE then ClientSends(y, Doc(Params(x.cfg)))
    else if code == CREATE_STREAMS then
      if x.cfg.numStreams > 0 then y.(c := y.c.(phase := Opening, toOpen := x.cfg.numStreams)) else y
    else if code == TEST_START || code == TEST_RUNNING then y
    else if code == EXCHANGE_RESULTS then
      ClientSends(y.(c := y.c.(phase := AwaitResults)), Doc(x.clientResults))
    else if code == DISPLAY_RESULTS then
      ClientSends(y.(c := y.c.(phase := Finished, state := IPERF_DONE)), State(IPERF_DONE))
    else if code == IPERF_DONE then y.(c := y.c.(phase := Finished))
    else y.(c := y.c.(phase := Failed))
  }

  /** The client has read `m`: a state in the loop, a document inside `iperf_exchange_results`. */
  function ClientTakes(x: Session, m: Msg): Session {
    var y := x.(gotC := x.gotC + 1);
    match m
    case State(code) => if x.c.phase.Looping? then ClientHandles(y, code) else y.(c := y.c.(phase := Failed))
    case Doc(_) => y.(c := y.c.(phase := if x.c.phase.AwaitResults? then Looping else Failed))
    case Cookie(_) => y.(c := y.c.(phase := Failed))
  }

  /** The client ends with an error: its control connection or the listener is gone. */
  function ClientAborts(x: Session): Session {
    x.(c := x.c.(phase := Aborted, toOpen := 0))
  }

  /** The start of the test once all streams are there. */
  function CheckStreams(x: Session): Session {
    if x.s.state == CREATE_STREAMS && x.s.accepted == x.s.numStreams then
      ServerSends(ServerSends(x, State(TEST_START)), State(TEST_RUNNING)).(s := x.s.(state := TEST_RUNNING))
    else x
  }

  /** `iperf_handle_message_server`. */
  function ServerHandles(x: Session, code: byte): Session {
    var y := x.(s := x.s.(state := code));
    if code == TEST_START then y
    else if code == TEST_END then
      ServerSends(y.(s := y.s.(phase := AwaitResults, state := EXCHANGE_RESULTS)), State(EXCHANGE_RESULTS))
    else if code == IPERF_DONE || code == CLIENT_TERMINATE then y.(s := y.s.(phase := Finished, state := IPERF_DONE))
    else y.(s := y.s.(phase := Failed))
  }

  /** The server has read `m` from the control connection, in `iperf_accept` or in its loop. */
  function ServerTakes(x: Session, m: Msg): Session {
    var y := x.(gotS := x.gotS + 1);
    match m
    case Cookie(ck) =>
      if x.s.phase.Away? then
        ServerSends(y.(s := y.s.(cookie := ck, state := PARAM_EXCHANGE, phase := AwaitParams)), State(PARAM_EXCHANGE))
      else y.(s := y.s.(phase := Failed))
    case Doc(j) =>
      if x.s.phase.AwaitParams? then
        var s := y.s.(numStreams := ParallelOf(j), sender := ReverseOf(j), state := CREATE_STREAMS, phase := Looping);
        CheckStreams(ServerSends(y.(s := s), State(CREATE_STREAMS)))
      else if x.s.phase.AwaitResults? then
        ServerSends(ServerSends(y.(s := y.s.(phase := Looping, state := DISPLAY_RESULTS)), Doc(x.serverResults)),
                    State(DISPLAY_RESULTS))
      else y.(s := y.s.(phase := Failed))
    case State(code) => if x.s.phase.Looping? then ServerHandles(y, code) else y.(s := y.s.(phase := Failed))
  }

  /**
   A connection at the listener.  Outside CREATE_STREAMS it is denied.  In it, `iperf_tcp_accept` compares the cookies
   and closes the socket of a stranger but still returns it.  The congestion query on the closed socket then fails and
   ends the server; without the query `is_closed` finds it out and the connection is not counted.
   */
  function ServerAccepts(x: Session): Session
    requires x.pending != []
  {
    var y := x.(pending := x.pending[1..]);
    if x.s.state != CREATE_STREAMS then y
    else if x.pending[0] == x.s.cookie then CheckStreams(y.(s := y.s.(accepted := y.s.accepted + 1)))
    else if x.congestion then y.(s := y.s.(phase := Aborted))
    else y
  }

  datatype Step =
    | Connect            // the client opens the control connection and sends its cookie
    | ClientRead
    | OpenStream         // the client opens a data connection and sends its cookie on it
    | EndTest            // the client finds the test done
    | ServerRead
    | ServerAccept
    | Stranger(cookie: text)

  predicate ServerListens(phase: Phase) {
    !phase.Finished? && !phase.Failed? && !phase.Aborted?
  }

  predicate Enabled(x: Session, step: Step) {
    match step
    case Connect => x.c.phase.Away?
    case ClientRead => (x.c.phase.Looping? || x.c.phase.AwaitResults?) && (x.gotC < |x.sentS| || x.s.phase.Aborted?)
    case OpenStream => x.c.phase.Opening? && x.c.toOpen > 0
    case EndTest => x.c.phase.Looping? && x.c.state == TEST_RUNNING
    case ServerRead => ServerListens(x.s.phase) && x.gotS < |x.sentC|
    case ServerAccept => x.s.phase.Looping? && x.pending != []
    case Stranger(ck) => ck != x.cookie
  }

  function Next(x: Session, step: Step): Session
    requires Enabled(x, step)
  {
    match step
    case Connect => ClientSends(x.(c := x.c.(phase := Looping)), Cookie(x.cookie))
    case ClientRead => if x.gotC < |x.sentS| then ClientTakes(x, x.sentS[x.gotC]) else ClientAborts(x)
    case OpenStream =>
      if x.s.phase.Aborted? then ClientAborts(x) else
      x.(c := Client(if x.c.toOpen == 1 then Looping else Opening, x.c.state, x.c.toOpen - 1, x.c.streams + 1),
         pending := x.pending + [x.cookie])
    case EndTest => ClientSends(x.(c := x.c.(state := TEST_END)), State(TEST_END))
    case ServerRead => ServerTakes(x, x.sentC[x.gotS])
    case ServerAccept => ServerAccepts(x)
    case Stranger(ck) => x.(pending := x.pending + [ck])
  }

  /** The state after a run, if every step was enabled. */
  function Run(x: Session, steps: seq<Step>): Option<Session> {
    if steps == [] then Some(x)
    else
      var n := |steps| - 1;
      var y := Run(x, steps[..n]);
      if y.Some? && Enabled(y.value, steps[n]) then Some(Next(y.value, steps[n])) else None
  }

  // ---------------------------------------------------------------- what every reachable state satisfies

  /** All that the client ever sends, and all that the server ever sends. */
  ghost function ClientScript(x: Session): seq<Msg> {
    [Cookie(x.cookie), Doc(Params(x.cfg)), State(TEST_END), Doc(x.clientResults), State(IPERF_DONE)]
  }

  ghost function ServerScript(x: Session): seq<Msg> {
    [State(PARAM_EXCHANGE), State(CREATE_STREAMS), State(TEST_START), State(TEST_RUNNING),
     State(EXCHANGE_RESULTS), Doc(x.serverResults), State(DISPLAY_RESULTS)]
  }

  function Wanted(cfg: Config): nat {
    if cfg.numStreams > 0 then cfg.numStreams else 0
  }

  /** The client after `got` messages from the server, having sent `sent`. */
  ghost predicate ClientAt(c: Client, got: nat, sent: nat) {
    match c.phase
    case Away => got == 0 && sent == 0 && c.state == 0
    case Looping =>
      || (got == 0 && sent == 1 && c.state == 0)
      || (got == 1 && sent == 2 && c.state == PARAM_EXCHANGE)
      || (got == 2 && sent == 2 && c.state == CREATE_STREAMS)
      || (got == 3 && sent == 2 && c.state == TEST_START)
      || (got == 4 && sent == 2 && c.state == TEST_RUNNING)
      || (got == 4 && sent == 3 && c.state == TEST_END)
      || (got == 6 && sent == 4 && c.state == EXCHANGE_RESULTS)
    case Opening => got == 2 && sent == 2 && c.state == CREATE_STREAMS && c.toOpen > 0
    case AwaitResults => got == 5 && sent == 4 && c.state == EXCHANGE_RESULTS
    case Finished => got == 7 && sent == 5 && c.state == IPERF_DONE
    case Aborted => got == 2 && sent == 2 && c.state == CREATE_STREAMS
    case _ => false
  }

  /** The server after `got` messages from the client, having sent `sent`. */
  ghost predicate ServerAt(s: Server, got: nat, sent: nat) {
    match s.phase
    case Away => got == 0 && sent == 0 && s.state == IPERF_START
    case AwaitParams => got == 1 && sent == 1 && s.state == PARAM_EXCHANGE
    case Looping =>
      || (got == 2 && sent == 2 && s.state == CREATE_STREAMS && s.accepted != s.numStreams)
      || (got == 2 && sent == 4 && s.state == TEST_RUNNING && s.accepted == s.numStreams)
      || (got == 4 && sent == 7 && s.state == DISPLAY_RESULTS && s.accepted == s.numStreams)
    case AwaitResults => got == 3 && sent == 5 && s.state == EXCHANGE_RESULTS && s.accepted == s.numStreams
    case Finished => got == 5 && sent == 7 && s.state == IPERF_DONE && s.accepted == s.numStreams
    case Aborted => got == 2 && sent == 2 && s.state == CREATE_STREAMS && s.accepted != s.numStreams
    case _ => false
  }

  /** The waiting connections with the client's cookie. */
  function Own(pending: seq<text>, cookie: text): nat {
    if pending == [] then 0 else (if pending[0] == cookie then 1 else 0) + Own(pending[1..], cookie)
  }

  lemma {:induction false} OwnMore(pending: seq<text>, ck: text, cookie: text)
    ensures Own(pending + [ck], cookie) == Own(pending, cookie) + if ck == cookie then 1 else 0
  {
    if pending == [] {
      assert ([ck])[1..] == [];
    } else {
      OwnMore(pending[1..], ck, cookie);
      assert (pending + [ck])[1..] == pending[1..] + [ck];
    }
  }

  /** Every connection of the client is counted or still waits; before the parameters there is none. */
  ghost predicate StreamsAt(x: Session) {
    && (!x.c.phase.Opening? ==> x.c.toOpen == 0)
    && (if x.c.phase.Aborted? then x.c.streams <= Wanted(x.cfg)
        else x.c.streams + x.c.toOpen == (if x.gotC >= 2 then Wanted(x.cfg) else 0))
    && x.s.accepted + Own(x.pending, x.cookie) == x.c.streams
    && (x.gotS >= 1 ==> x.s.cookie == x.cookie)
    && (x.gotS >= 2 ==> x.s.numStreams == x.cfg.numStreams && x.s.sender == x.cfg.reverse)
  }

  ghost predicate Inv(x: Session) {
    && |x.sentC| <= 5 && |x.sentS| <= 7 && x.gotS <= |x.sentC| && x.gotC <= |x.sentS|
    && x.sentC == ClientScript(x)[..|x.sentC|] && x.sentS == ServerScript(x)[..|x.sentS|]
    && ClientAt(x.c, x.gotC, |x.sentC|) && ServerAt(x.s, x.gotS, |x.sentS|) && StreamsAt(x)
    && (x.c.phase.Aborted? ==> x.s.phase.Aborted?) && (x.s.phase.Aborted? ==> x.congestion)
  }

  lemma {:induction false} ClientReadKeeps(x: Session)
    requires Inv(x) && Enabled(x, ClientRead)
    ensures Inv(Next(x, ClientRead))
  {
    hide Params, Own;
    if x.gotC < |x.sentS| {
      assert x.sentS[x.gotC] == ServerScript(x)[x.gotC];
    }
  }

  lemma {:induction false} ServerParamsKeep(x: Session)
    requires Inv(x) && Enabled(x, ServerRead) && x.gotS == 1
    ensures Inv(Next(x, ServerRead))
  {
    ParamsArrive(x.cfg);
    hide Params, Own, ParallelOf, ReverseOf;
    assert x.sentC[1] == ClientScript(x)[1];
    assert x.sentS + [State(CREATE_STREAMS)] == ServerScript(x)[..2];
    assert x.sentS + [State(CREATE_STREAMS)] + [State(TEST_START)] + [State(TEST_RUNNING)] == ServerScript(x)[..4];
  }

  lemma {:induction false} ServerReadKeeps(x: Session)
    requires Inv(x) && Enabled(x, ServerRead)
    ensures Inv(Next(x, ServerRead))
  {
    if x.gotS == 1 {
      ServerParamsKeep(x);
    } else {
      hide Params, Own, ParallelOf, ReverseOf;
      assert x.sentC[x.gotS] == ClientScript(x)[x.gotS];
    }
  }

  lemma {:induction false} ServerAcceptKeeps(x: Session)
    requires Inv(x) && Enabled(x, ServerAccept)
    ensures Inv(Next(x, ServerAccept))
  {
    hide Params;
  }

  lemma {:induction false} OtherKeeps(x: Session, step: Step)
    requires Inv(x) && Enabled(x, step) && (step.Connect? || step.OpenStream? || step.EndTest? || step.Stranger?)
    ensures Inv(Next(x, step))
  {
    hide Params, Own;
    var y := Next(x, step);
    match step
    case OpenStream =>
      OwnMore(x.pending, x.cookie, x.cookie);
    case Stranger(ck) =>
      OwnMore(x.pending, ck, x.cookie);
    case _ =>
  }

  lemma {:induction false} StepKeeps(x: Session, step: Step)
    requires Inv(x) && Enabled(x, step)
    ensures Inv(Next(x, step)) && SameTest(x, Next(x, step))
  {
    SameTestKept(x, step);
    hide *;
    match step
    case ClientRead => ClientReadKeeps(x);
    case ServerRead => ServerReadKeeps(x);
    case ServerAccept => ServerAcceptKeeps(x);
    case _ => OtherKeeps(x, step);
  }

  ghost predicate SameTest(x: Session, y: Session) {
    y.cfg == x.cfg && y.congestion == x.congestion && y.cookie == x.cookie && y.clientResults == x.clientResults && y.serverResults == x.serverResults
  }

  lemma {:induction false} SameTestKept(x: Session, step: Step)
    requires Enabled(x, step)
    ensures SameTest(x, Next(x, step))
  {
    hide Params, ParallelOf, ReverseOf;
  }

  /** Where a session starts. */
  ghost predicate Starts(x: Session) {
    x == Start(x.cfg, x.congestion, x.cookie, x.clientResults, x.serverResults)
  }

  /** The invariant holds in every reachable state. */
  lemma {:induction false} Reachable(x: Session, steps: seq<Step>)
    requires Starts(x) && Run(x, steps).Some?
    ensures Inv(Run(x, steps).value) && SameTest(x, Run(x, steps).value)
  {
    if steps == [] {
      hide Params;
    } else {
      var n := |steps| - 1;
      Reachable(x, steps[..n]);
      hide Inv, Next, Enabled;
      StepKeeps(Run(x, steps[..n]).value, steps[n]);
    }
  }

  // ---------------------------------------------------------------- main results

  function Codes(ms: seq<Msg>): seq<byte> {
    if ms == [] then []
    else Codes(ms[..|ms| - 1]) + match ms[|ms| - 1] case State(code) => [code] case _ => []
  }

  /** The states on the wire are prefixes of the two fixed sequences, and no side meets an unknown message. */
  lemma {:induction false} ControlSequence(x: Session)
    requires Inv(x)
    ensures Codes(x.sentS) <= [9, 10, 1, 2, 13, 14]
    ensures Codes(x.sentC) <= [4, 16]
    ensures !x.c.phase.Failed? && !x.s.phase.Failed?
  {
    CodesPrefix(ServerScript(x), |x.sentS|);
    CodesPrefix(ClientScript(x), |x.sentC|);
    CodesOfScripts(x);
  }

  lemma {:induction false} CodesPrefix(ms: seq<Msg>, n: nat)
    requires n <= |ms|
    ensures Codes(ms[..n]) <= Codes(ms)
  {
    if n == |ms| {
      assert ms[..n] == ms;
    } else {
      CodesPrefix(ms[..|ms| - 1], n);
      assert ms[..|ms| - 1][..n] == ms[..n];
    }
  }

  lemma {:induction false} CodesTake(ms: seq<Msg>, k: nat)
    requires k < |ms|
    ensures Codes(ms[..k + 1]) == Codes(ms[..k]) + match ms[k] case State(code) => [code] case _ => []
  {
    assert ms[..k + 1][..k] == ms[..k];
  }

  lemma {:induction false} CodesOfScripts(x: Session)
    ensures Codes(ServerScript(x)) ==
            [PARAM_EXCHANGE, CREATE_STREAMS, TEST_START, TEST_RUNNING, EXCHANGE_RESULTS, DISPLAY_RESULTS]
    ensures Codes(ClientScript(x)) == [TEST_END, IPERF_DONE]
  {
    hide Params;
    CodesOfServer(ServerScript(x));
    CodesOfClient(ClientScript(x));
  }

  lemma {:induction false} CodesOfServer(ss: seq<Msg>)
    requires |ss| == 7 && ss[5].Doc? && forall i :: 0 <= i < 7 && i != 5 ==> ss[i].State?
    ensures Codes(ss) == [ss[0].code, ss[1].code, ss[2].code, ss[3].code, ss[4].code, ss[6].code]
  {
    hide Codes;
    assert Codes(ss[..0]) == [] by { NoCodes(ss[..0]); }
    CodesTake(ss, 0);
    CodesTake(ss, 1);
    CodesTake(ss, 2);
    CodesTake(ss, 3);
    CodesTake(ss, 4);
    CodesTake(ss, 5);
    CodesTake(ss, 6);
    assert ss[..7] == ss;
  }

  lemma {:induction false} CodesOfClient(cs: seq<Msg>)
    requires |cs| == 5 && cs[0].Cookie? && cs[1].Doc? && cs[2].State? && cs[3].Doc? && cs[4].State?
    ensures Codes(cs) == [cs[2].code, cs[4].code]
  {
    hide Codes;
    assert Codes(cs[..0]) == [] by { NoCodes(cs[..0]); }
    CodesTake(cs, 0);
    CodesTake(cs, 1);
    CodesTake(cs, 2);
    CodesTake(cs, 3);
    CodesTake(cs, 4);
    assert cs[..5] == cs;
  }

  lemma {:induction false} NoCodes(ms: seq<Msg>)
    requires ms == []
    ensures Codes(ms) == []
  {
  }

  /** The kind of message that a side reads in a phase. */
  function Asked(phase: Phase): Kind {
    match phase
    case Away => CookieKind
    case AwaitParams => DocKind
    case AwaitResults => DocKind
    case _ => StateKind
  }

  /** What each reader asks for next is the kind of the next message: it stays on the frame boundaries. */
  lemma {:induction false} KindsAgree(x: Session)
    requires Inv(x)
    ensures Enabled(x, ClientRead) && x.gotC < |x.sentS| ==> KindOf(x.sentS[x.gotC]) == Asked(x.c.phase)
    ensures Enabled(x, ServerRead) ==> KindOf(x.sentC[x.gotS]) == Asked(x.s.phase)
  {
    hide Params, Own;
    if x.gotC < |x.sentS| {
      assert x.sentS[x.gotC] == ServerScript(x)[x.gotC];
    }
    if x.gotS < |x.sentC| {
      assert x.sentC[x.gotS] == ClientScript(x)[x.gotS];
    }
  }

  /** When the start of the test has been sent, both sides hold the wanted streams and no own connection is left over. */
  lemma {:induction false} StreamsAgree(x: Session)
    requires Inv(x) && State(TEST_START) in x.sentS
    ensures x.s.accepted == x.c.streams == x.cfg.numStreams && x.c.toOpen == 0 && Own(x.pending, x.cookie) == 0
  {
    hide Params;
    assert |x.sentS| >= 3;
  }

  /** A connection with another cookie is never counted; it ends the server if it is asked for its congestion control. */
  lemma {:induction false} StrangersNotCounted(x: Session)
    requires Inv(x) && Enabled(x, ServerAccept) && x.pending[0] != x.cookie
    ensures var y := Next(x, ServerAccept);
            if x.congestion && x.s.state == CREATE_STREAMS
            then y == x.(pending := x.pending[1..], s := x.s.(phase := Aborted))
            else y == x.(pending := x.pending[1..])
  {
    hide Params, Own;
  }

  /** The step `n` of a run accepts a stranger while streams are created. */
  ghost predicate StrangerAccepted(x: Session, steps: seq<Step>, n: nat) {
    && n < |steps| && steps[n].ServerAccept? && Run(x, steps[..n]).Some?
    && var y := Run(x, steps[..n]).value;
       Enabled(y, ServerAccept) && y.s.state == CREATE_STREAMS && y.pending[0] != y.cookie
  }

  lemma {:induction false} ServerAbortStep(y: Session, step: Step)
    requires Inv(y) && Enabled(y, step)
    ensures Next(y, step).s.phase.Aborted? <==>
              y.s.phase.Aborted?
              || (y.congestion && step.ServerAccept? && y.s.state == CREATE_STREAMS && y.pending[0] != y.cookie)
  {
    StepKeeps(y, step);
    hide Params, Own, ParallelOf, ReverseOf, ServerScript, ClientScript;
  }

  ghost predicate AnyStrangerAccepted(x: Session, steps: seq<Step>) {
    exists n: nat :: StrangerAccepted(x, steps, n)
  }

  lemma {:induction false} LastStranger(x: Session, steps: seq<Step>)
    requires steps != []
    ensures AnyStrangerAccepted(x, steps) <==>
              AnyStrangerAccepted(x, steps[..|steps| - 1]) || StrangerAccepted(x, steps, |steps| - 1)
  {
    hide Next, Enabled, Run;
    var n := |steps| - 1;
    var was := steps[..n];
    forall k: nat | k < n ensures StrangerAccepted(x, steps, k) <==> StrangerAccepted(x, was, k) {
      assert was[..k] == steps[..k];
    }
    if k: nat :| StrangerAccepted(x, was, k) {
      assert StrangerAccepted(x, steps, k);
    }
  }

  /** The server ends with an error if and only if it was built with the query and accepted a stranger then. */
  lemma {:induction false} AbortIff(x: Session, steps: seq<Step>)
    requires Starts(x) && Run(x, steps).Some?
    ensures Run(x, steps).value.s.phase.Aborted? <==> x.congestion && AnyStrangerAccepted(x, steps)
  {
    hide Inv, Next, Enabled, AnyStrangerAccepted, SameTest, Starts;
    if steps == [] {
      NoStranger(x);
    } else {
      var n := |steps| - 1;
      AbortIff(x, steps[..n]);
      Reachable(x, steps[..n]);
      LastStranger(x, steps);
      AbortLast(x, Run(x, steps[..n]).value, steps);
    }
  }

  lemma {:induction false} NoStranger(x: Session)
    requires Starts(x)
    ensures !AnyStrangerAccepted(x, []) && !x.s.phase.Aborted?
  {
  }

  lemma {:induction false} AbortLast(x: Session, y: Session, steps: seq<Step>)
    requires steps != [] && Run(x, steps[..|steps| - 1]) == Some(y) && Inv(y) && SameTest(x, y) && Run(x, steps).Some?
    ensures Run(x, steps).value.s.phase.Aborted? <==>
              y.s.phase.Aborted? || (x.congestion && StrangerAccepted(x, steps, |steps| - 1))
  {
    hide Inv, Next;
    ServerAbortStep(y, steps[|steps| - 1]);
  }

  ghost predicate Completed(x: Session) {
    x.c.phase.Finished? && x.s.phase.Finished?
  }

  /** A step of the session itself, not of a stranger, is possible. */
  ghost predicate CanMove(x: Session) {
    exists step: Step :: !step.Stranger? && Enabled(x, step)
  }

  ghost predicate EndedInError(x: Session) {
    x.c.phase.Aborted? && x.s.phase.Aborted?
  }

  /** No reachable state is stuck before an end, unless a negative number of streams was asked for. */
  lemma {:induction false} NoDeadlock(x: Session)
    requires Inv(x) && !Completed(x) && !EndedInError(x) && x.cfg.numStreams >= 0
    ensures CanMove(x)
  {
    hide Params, Own;
    if x.c.phase.Away? {
      assert Enabled(x, Connect);
    } else if x.c.phase.Opening? {
      assert Enabled(x, OpenStream);
    } else if x.s.phase.Looping? && x.pending != [] {
      assert Enabled(x, ServerAccept);
    } else if x.s.phase.Aborted? {
      assert Enabled(x, ClientRead);
    } else if x.gotS < |x.sentC| {
      assert Enabled(x, ServerRead);
    } else if x.gotC < |x.sentS| {
      assert Enabled(x, ClientRead);
    } else {
      StuckOnlyRunning(x);
      assert Enabled(x, EndTest);
    }
  }

  lemma {:induction false} StuckOnlyRunning(x: Session)
    requires Inv(x) && !Completed(x) && !x.s.phase.Aborted? && x.cfg.numStreams >= 0
    requires !x.c.phase.Away? && !x.c.phase.Opening?
    requires x.gotS == |x.sentC| && x.gotC == |x.sentS| && (x.s.phase.Looping? ==> x.pending == [])
    ensures x.c.phase.Looping? && x.c.state == TEST_RUNNING
  {
    hide Params;
  }

  /**
   The results for every run from the start.  The run ends in error only through a stranger accepted while streams are
   created by a server with the congestion query, and then always.
   */
  lemma {:induction false} EveryRun(x: Session, steps: seq<Step>)
    requires Starts(x) && Run(x, steps).Some?
    ensures var y := Run(x, steps).value;
            && Codes(y.sentS) <= [9, 10, 1, 2, 13, 14]
            && Codes(y.sentC) <= [4, 16] && !y.c.phase.Failed? && !y.s.phase.Failed?
            && (State(TEST_START) in y.sentS ==> y.s.accepted == y.c.streams == x.cfg.numStreams)
            && (y.s.phase.Aborted? <==> x.congestion && AnyStrangerAccepted(x, steps))
            && (y.c.phase.Aborted? ==> y.s.phase.Aborted?)
            && (x.cfg.numStreams >= 0 && !Completed(y) && !EndedInError(y) ==> CanMove(y))
            && (x.cfg.numStreams < 0 ==> !Completed(y))
  {
    Reachable(x, steps);
    AbortIff(x, steps);
    var y := Run(x, steps).value;
    assert y.c.phase.Aborted? ==> y.s.phase.Aborted?;
    hide Inv, Codes, Completed, CanMove, Run, EndedInError, AnyStrangerAccepted;
    ControlSequence(y);
    if State(TEST_START) in y.sentS {
      StreamsAgree(y);
    }
    if x.cfg.numStreams < 0 {
      NegativeNeverCompletes(y);
    } else if !Completed(y) && !EndedInError(y) {
      NoDeadlock(y);
    }
  }

  /** One stranger between the parameters and the first stream ends a server with the query. */
  lemma {:induction false} StrangerEndsServer(cookie: text, stranger: text, clientResults: Json, serverResults: Json)
    requires stranger != cookie
    ensures var x := Start(Config(1, false, true), true, cookie, clientResults, serverResults);
            var y := Run(x, [Connect, ServerRead, ClientRead, ServerRead, Stranger(stranger)] + [ServerAccept]);
            y.Some? && y.value.s.phase.Aborted?
  {
    var x := Start(Config(1, false, true), true, cookie, clientResults, serverResults);
    var steps := [Connect, ServerRead, ClientRead, ServerRead, Stranger(stranger)];
    StrangerArrives(x, stranger);
    RunFive(x, Connect, ServerRead, ClientRead, ServerRead, Stranger(stranger));
    hide Next, Enabled;
    assert (steps + [ServerAccept])[..5] == steps;
  }

  lemma {:induction false} StrangerArrives(x: Session, stranger: text)
    requires x == Start(Config(1, false, true), true, x.cookie, x.clientResults, x.serverResults) && stranger != x.cookie
    ensures Enabled(x, Connect) && Enabled(Next(x, Connect), ServerRead)
    ensures var x2 := Next(Next(x, Connect), ServerRead);
            Enabled(x2, ClientRead) && Enabled(Next(x2, ClientRead), ServerRead)
            && var x4 := Next(Next(x2, ClientRead), ServerRead);
            Enabled(x4, Stranger(stranger)) && Enabled(Next(x4, Stranger(stranger)), ServerAccept)
            && Next(Next(x4, Stranger(stranger)), ServerAccept).s.phase.Aborted?
  {
    hide Params, ParallelOf, ReverseOf;
    ParamsArrive(x.cfg);
  }

  // ---------------------------------------------------------------- progress

  /** Bounds the steps the session can still make: messages to send and read, connections to open and accept. */
  ghost function Rank(x: Session): int {
    (5 - |x.sentC|) + (5 - x.gotS) + (7 - |x.sentS|) + (7 - x.gotC) + 2 * (Wanted(x.cfg) - x.c.streams) + |x.pending|
    + if x.c.phase.Aborted? then 0 else 1
  }

  lemma {:induction false} RankNotNegative(x: Session)
    requires Inv(x)
    ensures 0 <= Rank(x)
  {
    hide Params, Own, ClientScript, ServerScript;
  }

  lemma {:induction false} ClientReadRank(x: Session)
    requires Enabled(x, ClientRead)
    ensures Rank(Next(x, ClientRead)) < Rank(x)
  {
    hide Params, Wanted;
  }

  lemma {:induction false} ServerReadRank(x: Session)
    requires Enabled(x, ServerRead)
    ensures Rank(Next(x, ServerRead)) < Rank(x)
  {
    hide Params, Wanted, ParallelOf, ReverseOf;
  }

  lemma {:induction false} OtherRank(x: Session, step: Step)
    requires Enabled(x, step) && !step.Stranger? && !step.ClientRead? && !step.ServerRead?
    ensures Rank(Next(x, step)) < Rank(x)
  {
    hide Wanted;
  }

  /** Every step of the session lowers the rank, so with `NoDeadlock` every run ends once strangers stop coming. */
  lemma {:induction false} StepsAreBounded(x: Session, step: Step)
    requires Inv(x) && Enabled(x, step) && !step.Stranger?
    ensures 0 <= Rank(Next(x, step)) < Rank(x)
  {
    StepKeeps(x, step);
    RankNotNegative(Next(x, step));
    hide *;
    match step
    case ClientRead => ClientReadRank(x);
    case ServerRead => ServerReadRank(x);
    case _ => OtherRank(x, step);
  }

  /** With a negative number of streams no run is ever completed. */
  lemma {:induction false} NegativeNeverCompletes(x: Session)
    requires Inv(x) && x.cfg.numStreams < 0
    ensures !Completed(x) && |x.sentS| <= 2
  {
    hide Params, Own;
  }

  /** With a negative number the client opens nothing and the server never has enough: a run that gets stuck. */
  lemma {:induction false} NegativeStreamsStick(congestion: bool, cookie: text, clientResults: Json, serverResults: Json)
    ensures var x := Start(Config(-1, false, true), congestion, cookie, clientResults, serverResults);
            var steps := [Connect, ServerRead, ClientRead, ServerRead, ClientRead];
            var y := Run(x, steps);
            y.Some? && !Completed(y.value) && !CanMove(y.value)
  {
    var cfg := Config(-1, false, true);
    var x := Start(cfg, congestion, cookie, clientResults, serverResults);
    ParamsArrive(cfg);
    hide Params, ParallelOf, ReverseOf;
    var x1 := Next(x, Connect);
    var x2 := Next(x1, ServerRead);
    var x3 := Next(x2, ClientRead);
    var x4 := Next(x3, ServerRead);
    var x5 := Next(x4, ClientRead);
    RunFive(x, Connect, ServerRead, ClientRead, ServerRead, ClientRead);
    forall step: Step | !step.Stranger? ensures !Enabled(x5, step) {
    }
  }

  lemma {:induction false} RunFive(x: Session, a: Step, b: Step, c: Step, d: Step, e: Step)
    requires Enabled(x, a) && Enabled(Next(x, a), b) && Enabled(Next(Next(x, a), b), c)
    requires Enabled(Next(Next(Next(x, a), b), c), d) && Enabled(Next(Next(Next(Next(x, a), b), c), d), e)
    ensures Run(x, [a, b, c, d, e]) == Some(Next(Next(Next(Next(Next(x, a), b), c), d), e))
  {
    hide Next, Enabled;
    var steps := [a, b, c, d, e];
    assert steps[..4] == [a, b, c, d] && [a, b, c, d][..3] == [a, b, c] && [a, b, c][..2] == [a, b];
    assert [a, b][..1] == [a] && [a][..0] == [];
    assert Run(x, [a]) == Some(Next(x, a));
    assert Run(x, [a, b]) == Some(Next(Next(x, a), b));
    assert Run(x, [a, b, c]) == Some(Next(Next(Next(x, a), b), c));
    assert Run(x, [a, b, c, d]) == Some(Next(Next(Next(Next(x, a), b), c), d));
  }

  // ---------------------------------------------------------------- who sends

  /** The calls that decide the client's role: `-c` and `-R` on the command line. */
  datatype Setter = SetClient | SetReverse

  /** `iperf_set_test_role` with 'c', and `iperf_set_test_reverse`, starting from a new test. */
  function Applied(calls: seq<Setter>): (bool, bool)  // reverse, sender
  {
    if calls == [] then (false, false)
    else
      var (reverse, sender) := Applied(calls[..|calls| - 1]);
      match calls[|calls| - 1]
      case SetClient => (reverse, !reverse)
      case SetReverse => (true, !sender)
  }

  /** How often `-R` was given after the last `-c`, and whether it was given before. */
  function Flips(calls: seq<Setter>): (nat, bool) {
    if calls == [] then (0, false)
    else
      var (after, before) := Flips(calls[..|calls| - 1]);
      match calls[|calls| - 1]
      case SetClient => (0, before || after > 0)
      case SetReverse => (after + 1, before)
  }

  ghost predicate OneSender(x: Session) {
    x.cfg.sender != x.s.sender
  }

  /**
   With a role given, exactly one side sends if and only if `-R` after the last `-c` was not repeated to no effect:
   an even number of times when it was already given before, else never or an odd number of times.
   */
  lemma {:induction false} OneSenderIff(calls: seq<Setter>, x: Session)
    requires SetClient in calls && Inv(x) && x.gotS >= 2
    requires x.cfg.reverse == Applied(calls).0 && x.cfg.sender == Applied(calls).1
    ensures var (after, before) := Flips(calls);
            OneSender(x) <==> if before then after % 2 == 0 else after == 0 || after % 2 == 1
  {
    hide Inv;
    assert x.s.sender == x.cfg.reverse by { ServerSender(x); }
    SetterParity(calls);
  }

  lemma {:induction false} ServerSender(x: Session)
    requires Inv(x) && x.gotS >= 2
    ensures x.s.sender == x.cfg.reverse
  {
  }

  lemma {:induction false} ParityStep(n: nat)
    ensures (n + 1) % 2 == 1 - n % 2 && 0 <= n % 2 <= 1
  {
  }

  lemma {:induction false} SetterParity(calls: seq<Setter>)
    ensures var (reverse, sender) := Applied(calls);
            var (after, before) := Flips(calls);
            && (reverse <==> before || after > 0)
            && (SetClient in calls ==>
                  (sender != reverse <==> if before then after % 2 == 0 else after == 0 || after % 2 == 1))
  {
    if calls != [] {
      var n := |calls| - 1;
      var was := calls[..n];
      SetterParity(was);
      ParityStep(Flips(was).0);
      assert calls == was + [calls[n]];
      if calls[n].SetReverse? {
        assert SetClient in calls ==> SetClient in was;
      }
    }
  }

  /** `-c -R -R`: the client stays sender and tells the server to send as well. */
  lemma {:induction false} ReversedTwice()
    ensures Applied([SetClient, SetReverse, SetReverse]) == (true, true)
  {
    assert [SetClient, SetReverse, SetReverse][..2] == [SetClient, SetReverse];
    assert [SetClient, SetReverse][..1] == [SetClient] && [SetClient][..0] == [];
    assert Applied([SetClient]) == (false, true);
    assert Applied([SetClient, SetReverse]) == (true, false);
  }
}
