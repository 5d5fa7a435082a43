/**
 The session on bytes.  The machines of `Session` see only the bytes that wait for
 them: they take a message off the front with the kind they ask for, and append
 the frames of what they send.
 */
module SessionWire {
  import opened CString
  import opened JsonTree
  import JsonRender
  import opened JsonForm
  import opened ControlWire
  import opened Session

  // ---------------------------------------------------------------- the messages of a session can be framed

  lemma {:induction false} EscapeAtMost(s: text)
    ensures |Escape(s)| <= 6 * |s|
  {
    if s != [] {
      EscapeAtMost(s[1..]);
    }
  }

  /** A member with a name of at most ten bytes and a plain value. */
  lemma {:induction false} MemberAtMost(k: Kids, depth: nat)
    requires k.Cons? && PrintableKids(k) && k.name.Some? && |k.name.value| <= 10 && (k.value.True? || k.value.Number?)
    ensures |PrintMember(k, depth, false)| <= 100
  {
    hide Escape, PrintInt;
    EscapeAtMost(k.name.value);
    if k.value.Number? {
      JsonRender.IntFits(k.value.d);
    }
  }

  lemma {:induction false} PlainMember(name: text, v: Json, rest: Kids)
    requires NulFree(name) && (v.True? || (v.Number? && ExactInteger(v.d))) && PrintableKids(rest) && NamedKids(rest, true)
    ensures PrintableKids(Cons(Some(name), v, rest)) && NamedKids(Cons(Some(name), v, rest), true)
  {
    assert Printable(v) && Named(v);
  }

  lemma {:induction false} MembersAtMost(k: Kids, depth: nat, n: nat)
    requires k.Cons? && PrintableKids(k) && k.name.Some? && |k.name.value| <= 10 && (k.value.True? || k.value.Number?)
    requires |PrintMembers(k.rest, depth, false)| <= n
    ensures |PrintMembers(k, depth, false)| <= n + 100
  {
    hide PrintMember, Tabs;
    MemberAtMost(k, depth);
    assert PrintMembers(k, depth, false) == PrintFromName(k, depth, false);
  }

  /** The parameters can be sent for every number of streams that an `int` holds. */
  lemma {:induction false} ParamsSendable(cfg: Config)
    requires -0x8000_0000 <= cfg.numStreams < 0x8000_0000
    ensures Sendable(Doc(Params(cfg)))
  {
    var tail := if cfg.reverse then Cons(Some(NAME_REVERSE), True, Nil) else Nil;
    var streams := Cons(Some(NAME_PARALLEL), Number(cfg.numStreams as real), tail);
    var all := Cons(Some(NAME_TCP), True, streams);
    assert Params(cfg) == Object(all);
    if cfg.reverse {
      PlainMember(NAME_REVERSE, True, Nil);
    }
    PlainMember(NAME_PARALLEL, Number(cfg.numStreams as real), tail);
    PlainMember(NAME_TCP, True, streams);
    ParamsLength(all, streams, tail);
  }

  lemma {:induction false} ParamsLength(all: Kids, streams: Kids, tail: Kids)
    requires all == Cons(Some(NAME_TCP), True, streams) && PrintableKids(all) && PrintableKids(streams) && PrintableKids(tail)
    requires streams.Cons? && streams.name == Some(NAME_PARALLEL) && streams.value.Number? && streams.rest == tail
    requires tail == Nil || tail == Cons(Some(NAME_REVERSE), True, Nil)
    ensures |PrintValue(Object(all), 0, false)| <= 1000
  {
    hide PrintMember, PrintFromName, Tabs;
    if tail.Cons? {
      MembersAtMost(tail, 1, 0);
    }
    MembersAtMost(streams, 1, 100);
    MembersAtMost(all, 1, 200);
    hide PrintMembers;
  }

  lemma {:induction false} PlainName(name: text)
    requires forall i :: 0 <= i < |name| ==> name[i] >= 32 && name[i] != 34 && name[i] != 92
    ensures Escape(name) == name
  {
    if name != [] {
      PlainName(name[1..]);
    }
  }

  function Quoted(s: string): text
    requires forall i :: 0 <= i < |s| ==> s[i] as int < 128
  {
    Ascii("\"") + Ascii(s) + Ascii("\"")
  }

  ghost predicate Letters(s: text) {
    forall i :: 0 <= i < |s| ==> 97 <= s[i] <= 122
  }

  lemma {:induction false} ParamNames()
    ensures NAME_TCP == Ascii("tcp") && NAME_PARALLEL == Ascii("parallel") && NAME_REVERSE == Ascii("reverse")
    ensures Letters(NAME_TCP) && Letters(NAME_PARALLEL) && Letters(NAME_REVERSE)
  {
  }

  lemma {:induction false} NamePrints(name: text)
    requires Letters(name)
    ensures PrintName(Some(name)) == Ascii("\"") + name + Ascii("\"")
  {
    PlainName(name);
    assert Ascii("\"") == [QUOTE];
  }

  /** A member of an object that is printed without format. */
  lemma {:induction false} MemberText(name: text, v: Json, rest: Kids, text: text)
    requires PrintableKids(Cons(Some(name), v, rest)) && Letters(name)
    requires PrintValue(v, 1, false) == text
    ensures MemberTexts(Cons(Some(name), v, rest), 1, false)
            == [Ascii("\"") + name + Ascii("\"") + Ascii(":") + text] + MemberTexts(rest, 1, false)
  {
    NamePrints(name);
    hide PrintName, PrintValue, Ascii;
    assert [] + PrintName(Some(name)) == PrintName(Some(name));
  }

  function TcpMember(): text {
    Quoted("tcp") + Ascii(":") + Ascii("true")
  }

  function ParallelMember(n: int): text {
    Quoted("parallel") + Ascii(":") + PrintInt(n)
  }

  function ReverseMember(): text {
    Quoted("reverse") + Ascii(":") + Ascii("true")
  }

  lemma {:induction false} ParamsMembers(cfg: Config)
    requires PrintableKids(Params(cfg).members)
    ensures Params(cfg).members.Cons?
    ensures MemberTexts(Params(cfg).members, 1, false) ==
            [TcpMember()] + ([ParallelMember(cfg.numStreams)] + if cfg.reverse then [ReverseMember()] else [])
  {
    var tail := if cfg.reverse then Cons(Some(NAME_REVERSE), True, Nil) else Nil;
    var streams := Cons(Some(NAME_PARALLEL), Number(cfg.numStreams as real), tail);
    assert Params(cfg).members == Cons(Some(NAME_TCP), True, streams) && PrintableKids(streams) && PrintableKids(tail);
    TcpText(streams);
    ParallelText(cfg.numStreams, tail);
    if cfg.reverse { ReverseText(); }
    NoTexts();
    hide MemberTexts, TcpMember, ParallelMember, ReverseMember, Params;
  }

  lemma {:induction false} TcpText(rest: Kids)
    requires PrintableKids(Cons(Some(NAME_TCP), True, rest))
    ensures MemberTexts(Cons(Some(NAME_TCP), True, rest), 1, false) == [TcpMember()] + MemberTexts(rest, 1, false)
  {
    hide Ascii, PrintValue, Letters, MemberTexts;
    WordForms(1, false);
    ParamNames();
    MemberText(NAME_TCP, True, rest, Ascii("true"));
  }

  lemma {:induction false} ParallelText(n: int, rest: Kids)
    requires PrintableKids(Cons(Some(NAME_PARALLEL), Number(n as real), rest))
    ensures MemberTexts(Cons(Some(NAME_PARALLEL), Number(n as real), rest), 1, false) == [ParallelMember(n)] + MemberTexts(rest, 1, false)
  {
    assert PrintValue(Number(n as real), 1, false) == PrintInt(n);
    hide Ascii, PrintValue, Letters, MemberTexts, PrintInt;
    ParamNames();
    MemberText(NAME_PARALLEL, Number(n as real), rest, PrintInt(n));
  }

  lemma {:induction false} ReverseText()
    ensures MemberTexts(Cons(Some(NAME_REVERSE), True, Nil), 1, false) == [ReverseMember()] + MemberTexts(Nil, 1, false)
  {
    assert PrintableKids(Nil) && NulFree(NAME_REVERSE);
    hide Ascii, PrintValue, Letters, MemberTexts;
    WordForms(1, false);
    ParamNames();
    MemberText(NAME_REVERSE, True, Nil, Ascii("true"));
  }

  lemma {:induction false} NoTexts()
    ensures MemberTexts(Nil, 1, false) == []
  {
  }

  /** The document that announces a test. */
  lemma {:induction false} ParamsText(cfg: Config)
    requires Printable(Params(cfg))
    ensures PrintValue(Params(cfg), 0, false) ==
            Ascii("{") + (TcpMember() + Ascii(",") + (ParallelMember(cfg.numStreams)
            + If(cfg.reverse, Ascii(",") + ReverseMember()))) + Ascii("}")
  {
    var k := Params(cfg).members;
    assert PrintableKids(k) && Params(cfg) == Object(k);
    hide *;
    ParamsMembers(cfg);
    PlainObject(k, 0);
    ThreeJoin(TcpMember(), ParallelMember(cfg.numStreams), if cfg.reverse then [ReverseMember()] else [], Ascii(","));
    ReverseLast(cfg.reverse);
  }

  lemma {:induction false} ReverseLast(reverse: bool)
    ensures var rest := if reverse then [ReverseMember()] else [];
            (if rest == [] then [] else Ascii(",") + rest[0]) == If(reverse, Ascii(",") + ReverseMember())
  {
    hide Ascii, ReverseMember;
  }

  lemma {:induction false} ThreeJoin(a: text, b: text, c: seq<text>, sep: text)
    requires |c| <= 1
    ensures Join([a] + ([b] + c), sep) == a + sep + (b + if c == [] then [] else sep + c[0])
  {
    var parts := [a] + ([b] + c);
    assert parts[1..] == [b] + c && parts[1..][1..] == c;
    JoinFirst(parts, sep);
    JoinFirst(parts[1..], sep);
    hide Join;
    if c != [] {
      JoinFirst(c, sep);
      assert c[1..] == [];
    }
  }

  /** A number of streams that an `int` holds, a cookie of the right size, and results that can be sent. */
  ghost predicate CanTravel(x: Session) {
    && -0x8000_0000 <= x.cfg.numStreams < 0x8000_0000 && |x.cookie| == COOKIE_SIZE
    && Sendable(Doc(x.clientResults)) && Sendable(Doc(x.serverResults))
  }

  ghost predicate AllSendable(ms: seq<Msg>) {
    forall m :: m in ms ==> Sendable(m)
  }

  lemma {:induction false} SessionSendable(x: Session)
    requires Inv(x) && CanTravel(x)
    ensures AllSendable(x.sentC) && AllSendable(x.sentS)
  {
    ParamsSendable(x.cfg);
    var cs, ss := ClientScript(x), ServerScript(x);
    hide Params, Own, ClientAt, ServerAt, Printable, Named, PrintValue, StreamsAt;
    assert forall m :: m in x.sentC ==> m in cs;
    assert forall m :: m in x.sentS ==> m in ss;
  }

  // ---------------------------------------------------------------- the machine on bytes

  /** A session whose messages in flight are bytes: `toServer` and `toClient` have been written and not yet read. */
  datatype Wire = Wire(x: Session, toServer: text, toClient: text)

  /** The frames of what was sent between two states. */
  ghost function Written(before: seq<Msg>, after: seq<Msg>): text {
    if |before| <= |after| && AllSendable(after[|before|..]) then FrameAll(after[|before|..]) else []
  }

  /** `x` has become `y`, and the bytes left to read are `toServer` and `toClient` plus what was written. */
  ghost function Moved(x: Session, y: Session, toServer: text, toClient: text): Wire {
    Wire(y, toServer + Written(x.sentC, y.sentC), toClient + Written(x.sentS, y.sentS))
  }

  /** A step that sees no message but the one it takes from the bytes; none where the step is not possible. */
  ghost function WireNext(w: Wire, step: Step): Option<Wire> {
    var x := w.x;
    match step
    case ClientRead =>
      if !x.c.phase.Looping? && !x.c.phase.AwaitResults? then None
      else if w.toClient == [] then
        if x.s.phase.Aborted? then Some(Moved(x, ClientAborts(x), w.toServer, w.toClient)) else None
      else
        var taken := Take(Asked(x.c.phase), w.toClient);
        if taken.None? then None
        else Some(Moved(x, ClientTakes(x, taken.value.0), w.toServer, taken.value.1))
    case ServerRead =>
      if !ServerListens(x.s.phase) then None
      else
        var taken := Take(Asked(x.s.phase), w.toServer);
        if taken.None? then None
        else Some(Moved(x, ServerTakes(x, taken.value.0), taken.value.1, w.toClient))
    case _ =>
      if Enabled(x, step) then Some(Moved(x, Next(x, step), w.toServer, w.toClient)) else None
  }

  ghost function WireRun(w: Wire, steps: seq<Step>): Option<Wire> {
    if steps == [] then Some(w)
    else
      var n := |steps| - 1;
      var v := WireRun(w, steps[..n]);
      if v.None? then None else WireNext(v.value, steps[n])
  }

  /** The session with its unread messages as bytes. */
  ghost function OnWire(x: Session): Wire
    requires Fits(x)
  {
    Wire(x, FrameAll(x.sentC[x.gotS..]), FrameAll(x.sentS[x.gotC..]))
  }

  /** Bytes in flight: taking the next message, and writing more. */
  lemma {:induction false} HeadTaken(ms: seq<Msg>, got: nat)
    requires AllSendable(ms) && got < |ms|
    ensures FrameAll(ms[got..]) != []
    ensures Take(KindOf(ms[got]), FrameAll(ms[got..])) == Some((ms[got], FrameAll(ms[got + 1..])))
  {
    hide Sendable, Framable, Frame, Take, KindOf;
    UnfoldFrames(ms[got..]);
    assert ms[got..][1..] == ms[got + 1..];
    TakeFrame(ms[got], FrameAll(ms[got + 1..]));
  }

  lemma {:induction false} MoreWritten(before: seq<Msg>, after: seq<Msg>, got: nat)
    requires AllSendable(after) && got <= |before| <= |after| && before == after[..|before|]
    ensures FrameAll(before[got..]) + Written(before, after) == FrameAll(after[got..])
  {
    hide Sendable, Framable;
    FramesJoin(before[got..], after[|before|..]);
    assert before[got..] + after[|before|..] == after[got..];
  }

  /** Messages are only added to a history. */
  ghost predicate Extends(before: seq<Msg>, after: seq<Msg>) {
    |before| <= |after| && before == after[..|before|]
  }

  lemma {:induction false} ExtendsSelf(ms: seq<Msg>)
    ensures Extends(ms, ms)
  {
  }

  lemma {:induction false} ClientGrows(x: Session, m: Msg)
    ensures var y := ClientTakes(x, m); Extends(x.sentC, y.sentC) && y.sentS == x.sentS && y.gotC == x.gotC + 1 && y.gotS == x.gotS
  {
    hide Params;
  }

  lemma {:induction false} ServerGrows(x: Session, m: Msg)
    ensures var y := ServerTakes(x, m); Extends(x.sentS, y.sentS) && y.sentC == x.sentC && y.gotS == x.gotS + 1 && y.gotC == x.gotC
  {
    hide ParallelOf, ReverseOf;
  }

  lemma {:induction false} OthersGrow(x: Session, step: Step)
    requires Enabled(x, step) && !step.ClientRead? && !step.ServerRead?
    ensures var y := Next(x, step); Extends(x.sentC, y.sentC) && Extends(x.sentS, y.sentS) && y.gotC == x.gotC && y.gotS == x.gotS
  {
  }

  ghost predicate Fits(x: Session) {
    AllSendable(x.sentC) && AllSendable(x.sentS) && x.gotS <= |x.sentC| && x.gotC <= |x.sentS|
  }

  /** After a step the bytes are those of the unread messages, if what was read is gone from them. */
  lemma {:induction false} MovedOnWire(x: Session, y: Session)
    requires Fits(y) && Extends(x.sentC, y.sentC) && Extends(x.sentS, y.sentS)
    requires y.gotS <= |x.sentC| && y.gotC <= |x.sentS| && AllSendable(x.sentC) && AllSendable(x.sentS)
    ensures Moved(x, y, FrameAll(x.sentC[y.gotS..]), FrameAll(x.sentS[y.gotC..])) == OnWire(y)
  {
    hide Sendable, FrameAll, Written;
    MoreWritten(x.sentC, y.sentC, y.gotS);
    MoreWritten(x.sentS, y.sentS, y.gotC);
  }

  lemma {:induction false} ClientWireStep(x: Session)
    requires Inv(x) && Fits(x)
    requires Enabled(x, ClientRead) ==> Fits(Next(x, ClientRead))
    ensures !Enabled(x, ClientRead) ==> WireNext(OnWire(x), ClientRead).None?
    ensures Enabled(x, ClientRead) ==> WireNext(OnWire(x), ClientRead) == Some(OnWire(Next(x, ClientRead)))
  {
    hide Inv, AllSendable, ClientTakes, Take, FrameAll, Written, KindOf, Asked, Moved, Extends;
    KindsAgree(x);
    NothingTaken(x);
    if x.gotC < |x.sentS| {
      HeadTaken(x.sentS, x.gotC);
      ClientGrows(x, x.sentS[x.gotC]);
    }
    if Enabled(x, ClientRead) {
      ExtendsSelf(x.sentS);
      ExtendsSelf(x.sentC);
      MovedOnWire(x, Next(x, ClientRead));
    }
  }

  lemma {:induction false} ServerWireStep(x: Session)
    requires Inv(x) && Fits(x)
    requires Enabled(x, ServerRead) ==> Fits(Next(x, ServerRead))
    ensures !Enabled(x, ServerRead) ==> WireNext(OnWire(x), ServerRead).None?
    ensures Enabled(x, ServerRead) ==> WireNext(OnWire(x), ServerRead) == Some(OnWire(Next(x, ServerRead)))
  {
    hide Inv, AllSendable, ServerTakes, Take, FrameAll, Written, KindOf, Asked, Moved, Extends;
    KindsAgree(x);
    NothingTaken(x);
    if x.gotS < |x.sentC| {
      HeadTaken(x.sentC, x.gotS);
      ServerGrows(x, x.sentC[x.gotS]);
    }
    if Enabled(x, ServerRead) {
      ExtendsSelf(x.sentC);
      MovedOnWire(x, Next(x, ServerRead));
    }
  }

  lemma {:induction false} OtherWireStep(x: Session, step: Step)
    requires Fits(x) && !step.ClientRead? && !step.ServerRead?
    requires Enabled(x, step) ==> Fits(Next(x, step))
    ensures !Enabled(x, step) ==> WireNext(OnWire(x), step).None?
    ensures Enabled(x, step) ==> WireNext(OnWire(x), step) == Some(OnWire(Next(x, step)))
  {
    hide AllSendable, Next, Enabled, FrameAll, Written, Moved;
    if Enabled(x, step) {
      OthersGrow(x, step);
      MovedOnWire(x, Next(x, step));
    }
  }

  /** On bytes a step is possible exactly when it is on messages, and does the same. */
  lemma {:induction false} WireStep(x: Session, step: Step)
    requires Inv(x) && CanTravel(x)
    ensures Fits(x) && (Enabled(x, step) ==> Fits(Next(x, step)))
    ensures !Enabled(x, step) ==> WireNext(OnWire(x), step).None?
    ensures Enabled(x, step) ==> WireNext(OnWire(x), step) == Some(OnWire(Next(x, step)))
  {
    hide Inv, CanTravel, Next, Enabled, WireNext, OnWire, AllSendable, SameTest;
    SessionSendable(x);
    Histories(x);
    if Enabled(x, step) {
      StepKeeps(x, step);
      var y := Next(x, step);
      TravelsOn(x, y);
      SessionSendable(y);
      Histories(y);
    }
    match step
    case ClientRead => ClientWireStep(x);
    case ServerRead => ServerWireStep(x);
    case _ => OtherWireStep(x, step);
  }

  lemma {:induction false} Histories(x: Session)
    requires Inv(x)
    ensures x.gotS <= |x.sentC| && x.gotC <= |x.sentS|
  {
  }

  lemma {:induction false} TravelsOn(x: Session, y: Session)
    requires CanTravel(x) && SameTest(x, y)
    ensures CanTravel(y)
  {
  }

  lemma {:induction false} NothingTaken(x: Session)
    requires Fits(x)
    ensures x.gotC == |x.sentS| ==> FrameAll(x.sentS[x.gotC..]) == []
    ensures x.gotS == |x.sentC| ==> forall k :: Take(k, FrameAll(x.sentC[x.gotS..])).None?
  {
  }

  /**
   For every run of the session the bytes that are written and not yet read are the frames of the messages sent and
   not yet read, and the machines on bytes make exactly the moves of the machines on messages.
   */
  lemma {:induction false} WireRunsAlike(x: Session, steps: seq<Step>)
    requires Starts(x) && CanTravel(x)
    ensures WireRun(Wire(x, [], []), steps).Some? <==> Run(x, steps).Some?
    ensures Run(x, steps).Some? ==>
              var y := Run(x, steps).value; Fits(y) && WireRun(Wire(x, [], []), steps).value == OnWire(y)
  {
    if steps == [] {
    } else {
      var n := |steps| - 1;
      WireRunsAlike(x, steps[..n]);
      if Run(x, steps[..n]).Some? {
        var y := Run(x, steps[..n]).value;
        Reachable(x, steps[..n]);
        TravelsOn(x, y);
        hide Inv, CanTravel, Next, Enabled, WireNext, OnWire, Fits, Starts, SameTest;
        WireStep(y, steps[n]);
      }
    }
  }
}
