/**
 The byte counters and the pacing of an iperf test (`iperf_api.c`,
 `iperf_tcp.c`): sends and receives, the statistics callback that closes an
 interval, the reset when the omitted start of a test is over, and the throttle
 that holds a stream to a rate.  Times are microseconds; rates are bits per second.
 */
module Accounting {
  datatype Interval = Interval(bytes: nat, omitted: bool)

  datatype Stream = Stream(
    bytesSent: nat, bytesSentOmit: nat, sentThisInterval: nat,
    bytesReceived: nat, receivedThisInterval: nat,
    intervals: seq<Interval>, start: nat, greenLight: bool)

  datatype Settings = Settings(sender: bool, rate: nat, burst: nat, blksize: nat, multisend: nat, bytes: nat, blocks: nat)

  /** The bytes of the intervals that count. */
  function Counted(ivs: seq<Interval>): nat {
    if ivs == [] then 0
    else var last := ivs[|ivs| - 1]; Counted(ivs[..|ivs| - 1]) + if last.omitted then 0 else last.bytes
  }

  /** What the results report for a stream. */
  function Transferred(s: Stream, sender: bool): int {
    if sender then s.bytesSent - s.bytesSentOmit else s.bytesReceived
  }

  function Partial(s: Stream, sender: bool): nat {
    if sender then s.sentThisInterval else s.receivedThisInterval
  }

  /** Nothing is lost between the total of a stream, its closed intervals and the current one. */
  ghost predicate Conserved(s: Stream, sender: bool, omitting: bool) {
    && s.bytesSentOmit <= s.bytesSent
    && (if omitting then Counted(s.intervals) == 0 && s.bytesSentOmit == 0
        else Transferred(s, sender) == Counted(s.intervals) + Partial(s, sender))
  }

  function Total(ss: seq<Stream>, sender: bool): int {
    if ss == [] then 0 else Total(ss[..|ss| - 1], sender) + Transferred(ss[|ss| - 1], sender)
  }

  lemma {:induction false} TotalUpdate(ss: seq<Stream>, i: nat, s: Stream, sender: bool)
    requires i < |ss|
    ensures Total(ss[i := s], sender) == Total(ss, sender) - Transferred(ss[i], sender) + Transferred(s, sender)
  {
    var n := |ss| - 1;
    if i == n {
      assert ss[i := s][..n] == ss[..n];
    } else {
      assert ss[i := s][..n] == ss[..n][i := s];
      TotalUpdate(ss[..n], i, s, sender);
    }
  }

  // ---------------------------------------------------------------- pacing

  /** Scaled to microseconds, the bits a stream may have sent by `now`. */
  ghost function Allowed(cfg: Settings, s: Stream, now: nat): int {
    cfg.rate * (now - s.start)
  }

  ghost function SentBits(s: Stream): nat {
    s.bytesSent * 8_000_000
  }

  ghost function BlockBits(cfg: Settings): nat {
    cfg.blksize * 8_000_000
  }

  function Blocks(cfg: Settings): nat {
    if cfg.burst == 0 then 1 else cfg.burst
  }

  /** The throttle's test: the average rate so far, truncated, is below the limit. */
  predicate BelowRate(cfg: Settings, s: Stream, now: nat) {
    now > s.start && s.bytesSent * 8_000_000 / (now - s.start) < cfg.rate
  }

  lemma {:induction false} BelowRateMeans(cfg: Settings, s: Stream, now: nat)
    requires now > s.start
    ensures BelowRate(cfg, s, now) <==> SentBits(s) < Allowed(cfg, s, now)
  {
    DivLess(SentBits(s), now - s.start, cfg.rate);
  }

  lemma {:induction false} DivLess(a: nat, d: nat, r: nat)
    requires d > 0
    ensures a / d < r <==> a < r * d
  {
    if a / d < r {
      assert a < (a / d + 1) * d;
      assert (a / d + 1) * d <= r * d;
    } else {
      assert r * d <= (a / d) * d;
    }
  }

  /** At most `k` blocks ahead of the rate. */
  ghost predicate Ahead(cfg: Settings, s: Stream, now: nat, k: nat) {
    SentBits(s) <= Allowed(cfg, s, now) + k * BlockBits(cfg)
  }

  /** Within the bound, and at most `k` blocks ahead while it may send. */
  ghost predicate Paced(cfg: Settings, s: Stream, now: nat, k: nat) {
    && s.start <= now
    && (cfg.rate > 0 ==> Ahead(cfg, s, now, Blocks(cfg)) && (s.greenLight ==> Ahead(cfg, s, now, k)))
  }

  lemma {:induction false} TimePasses(cfg: Settings, s: Stream, now: nat, later: nat, k: nat, k': nat)
    requires Paced(cfg, s, now, k) && now <= later && k <= k'
    ensures Paced(cfg, s, later, k')
  {
    assert cfg.rate * (now - s.start) <= cfg.rate * (later - s.start);
    assert k * BlockBits(cfg) <= k' * BlockBits(cfg);
  }

  function Sent(s: Stream, r: nat): Stream {
    s.(bytesSent := s.bytesSent + r, sentThisInterval := s.sentThisInterval + r)
  }

  lemma {:induction false} SentPaced(cfg: Settings, s: Stream, now: nat, k: nat, r: nat)
    requires Paced(cfg, s, now, k) && k < Blocks(cfg) && s.greenLight && r <= cfg.blksize
    ensures Paced(cfg, Sent(s, r), now, k + 1)
  {
    assert (k + 1) * BlockBits(cfg) == k * BlockBits(cfg) + BlockBits(cfg);
    assert (k + 1) * BlockBits(cfg) <= Blocks(cfg) * BlockBits(cfg);
    assert r * 8_000_000 <= BlockBits(cfg);
  }

  /** `iperf_check_throttle`. */
  function Throttled(cfg: Settings, done: bool, s: Stream, now: nat): Stream {
    if done then s else s.(greenLight := BelowRate(cfg, s, now))
  }

  lemma {:induction false} ThrottledPaced(cfg: Settings, s: Stream, at: nat, now: nat, k: nat)
    requires Paced(cfg, s, now, k) && at <= now
    ensures Paced(cfg, Throttled(cfg, false, s, at), now, 0)
  {
    if at > s.start {
      BelowRateMeans(cfg, s, at);
      assert cfg.rate * (at - s.start) <= cfg.rate * (now - s.start);
    }
  }

  /** The outcomes of the calls: for a round and a stream the bytes moved, or a negative error. */
  type Outcomes = (nat, nat) -> int

  ghost predicate Smooth(io: Outcomes) {
    forall n, i :: io(n, i) >= 0
  }

  /** A call moves at most a block. */
  function Took(cfg: Settings, x: int): int {
    if x > cfg.blksize then cfg.blksize else x
  }

  lemma {:induction false} TookAtMost(cfg: Settings, x: int)
    ensures Took(cfg, x) <= cfg.blksize && (x >= 0 ==> Took(cfg, x) >= 0)
  {
  }

  /** The number of rounds of `iperf_send`. */
  function Multisend(cfg: Settings): nat {
    if cfg.burst != 0 then cfg.burst else if cfg.rate == 0 then cfg.multisend else 1
  }

  /** A stream after its turn in a round: it sends if it may, and is throttled at once when paced singly. */
  function Served(cfg: Settings, done: bool, s: Stream, ready: bool, r: int, now: nat): Stream {
    if s.greenLight && ready && r >= 0 then
      if cfg.rate != 0 && cfg.burst == 0 then Throttled(cfg, done, Sent(s, r), now) else Sent(s, r)
    else s
  }

  /** The throttle check that ends a burst. */
  function Ended(cfg: Settings, done: bool, s: Stream, end: nat): Stream {
    if cfg.burst != 0 then Throttled(cfg, done, s, end) else s
  }

  /** A stream after `n` rounds. */
  function Rounded(cfg: Settings, done: bool, s: Stream, ready: bool, io: Outcomes, i: nat, n: nat, now: nat): Stream {
    if n == 0 then s
    else Served(cfg, done, Rounded(cfg, done, s, ready, io, i, n - 1, now), ready, Took(cfg, io(n - 1, i)), now)
  }

  lemma {:induction false} RoundedIdle(cfg: Settings, done: bool, s: Stream, ready: bool, io: Outcomes, i: nat, n: nat, m: nat, now: nat)
    requires n <= m && !(Rounded(cfg, done, s, ready, io, i, n, now).greenLight && ready)
    ensures Rounded(cfg, done, s, ready, io, i, m, now) == Rounded(cfg, done, s, ready, io, i, n, now)
  {
    if n < m {
      RoundedIdle(cfg, done, s, ready, io, i, n, m - 1, now);
    }
  }

  /** The bytes of the first `n` calls on stream `i`: what each was given, at most a block. */
  function Moved(cfg: Settings, io: Outcomes, i: nat, n: nat): nat {
    if n == 0 then 0
    else
      var x := io(n - 1, i);
      Moved(cfg, io, i, n - 1) + if x < 0 then 0 else if x < cfg.blksize then x else cfg.blksize
  }

  /** `s` with that many more bytes sent, and the light as given. */
  function WithSent(s: Stream, bytes: nat, light: bool): Stream {
    s.(bytesSent := s.bytesSent + bytes, sentThisInterval := s.sentThisInterval + bytes, greenLight := light)
  }

  /** The light that the throttle sets at a time. */
  ghost predicate LightAt(cfg: Settings, s: Stream, now: nat) {
    now > s.start && s.bytesSent * 8_000_000 < cfg.rate * (now - s.start)
  }

  lemma {:induction false} LightMeans(cfg: Settings, s: Stream, now: nat)
    requires now > s.start
    ensures LightAt(cfg, s, now) <==> s.bytesSent * 8_000_000 < cfg.rate * (now - s.start)
  {
  }

  lemma {:induction false} ThrottledLight(cfg: Settings, s: Stream, now: nat)
    ensures Throttled(cfg, true, s, now) == s
    ensures Throttled(cfg, false, s, now) == s.(greenLight := LightAt(cfg, s, now))
  {
    if now > s.start {
      BelowRateMeans(cfg, s, now);
    }
  }

  /** After `n` rounds a stream that may send has sent what its calls were given, and any other is unchanged. */
  lemma {:induction false} RoundedIs(cfg: Settings, done: bool, s: Stream, ready: bool, io: Outcomes, i: nat, n: nat, now: nat)
    requires Smooth(io) && (cfg.rate == 0 || cfg.burst != 0 || n <= 1)
    ensures var r := Rounded(cfg, done, s, ready, io, i, n, now);
            if s.greenLight && ready then
              r == WithSent(s, Moved(cfg, io, i, n),
                            if cfg.rate != 0 && cfg.burst == 0 && n > 0 && !done then LightAt(cfg, r, now) else true)
            else r == s
  {
    if n > 0 {
      RoundedIs(cfg, done, s, ready, io, i, n - 1, now);
      var was := Rounded(cfg, done, s, ready, io, i, n - 1, now);
      assert io(n - 1, i) >= 0;
      var r := Took(cfg, io(n - 1, i));
      ThrottledLight(cfg, if r >= 0 then Sent(was, r) else was, now);
      hide LightAt, Throttled;
    }
  }

  /** The streams `was` after a round with time `now`. */
  ghost predicate AllServed(cfg: Settings, done: bool, was: seq<Stream>, ss: seq<Stream>, writable: set<nat>, io: Outcomes,
                            n: nat, now: nat)
  {
    |ss| == |was| &&
    forall i :: 0 <= i < |was| ==> ss[i] == Served(cfg, done, was[i], i in writable, Took(cfg, io(n, i)), now)
  }

  /** The streams `was` after `n` rounds. */
  ghost predicate AllRounded(cfg: Settings, done: bool, was: seq<Stream>, ss: seq<Stream>, writable: set<nat>, io: Outcomes,
                             n: nat, now: nat)
  {
    |ss| == |was| &&
    forall i :: 0 <= i < |was| ==> ss[i] == Rounded(cfg, done, was[i], i in writable, io, i, n, now)
  }

  ghost predicate AllIdle(ss: seq<Stream>, writable: set<nat>) {
    forall i :: 0 <= i < |ss| ==> !(ss[i].greenLight && i in writable)
  }

  lemma {:induction false} NextRound(cfg: Settings, done: bool, first: seq<Stream>, was: seq<Stream>, ss: seq<Stream>,
                                     writable: set<nat>, io: Outcomes, n: nat, now: nat)
    requires AllRounded(cfg, done, first, was, writable, io, n, now) && AllServed(cfg, done, was, ss, writable, io, n, now)
    ensures AllRounded(cfg, done, first, ss, writable, io, n + 1, now)
    ensures AllIdle(was, writable) ==> AllIdle(ss, writable)
  {
    hide Throttled, Took;
  }

  lemma {:induction false} IdleRounds(cfg: Settings, done: bool, first: seq<Stream>, ss: seq<Stream>, writable: set<nat>, io: Outcomes,
                                      n: nat, m: nat, now: nat)
    requires AllRounded(cfg, done, first, ss, writable, io, n, now) && AllIdle(ss, writable) && n <= m
    ensures AllRounded(cfg, done, first, ss, writable, io, m, now)
  {
    forall i | 0 <= i < |ss| ensures ss[i] == Rounded(cfg, done, first[i], i in writable, io, i, m, now) {
      RoundedIdle(cfg, done, first[i], i in writable, io, i, n, m, now);
    }
  }

  lemma {:induction false} NoRounds(cfg: Settings, done: bool, ss: seq<Stream>, writable: set<nat>, io: Outcomes, now: nat, now': nat)
    ensures AllRounded(cfg, done, ss, ss, writable, io, 0, now)
    ensures forall first :: AllRounded(cfg, done, first, ss, writable, io, 0, now) ==>
              AllRounded(cfg, done, first, ss, writable, io, 0, now')
  {
  }

  /** What `iperf_send` did with one stream, in so many rounds, when nothing failed and no limit cut a round short. */
  ghost predicate SentIn(cfg: Settings, done: bool, was: Stream, s: Stream, ready: bool, io: Outcomes, i: nat, rounds: nat, end: nat) {
    var sends := was.greenLight && ready;
    s == WithSent(was, if sends then Moved(cfg, io, i, rounds) else 0,
                  if !done && (cfg.burst != 0 || (cfg.rate != 0 && sends)) then LightAt(cfg, s, end) else was.greenLight)
  }

  lemma {:induction false} EndedIs(cfg: Settings, done: bool, s: Stream, ready: bool, io: Outcomes, i: nat, at: nat, end: nat)
    requires Smooth(io) && (cfg.burst == 0 ==> at == end)
    ensures SentIn(cfg, done, s, Ended(cfg, done, Rounded(cfg, done, s, ready, io, i, Multisend(cfg), at), end),
                   ready, io, i, Multisend(cfg), end)
  {
    RoundedIs(cfg, done, s, ready, io, i, Multisend(cfg), at);
    ThrottledLight(cfg, Rounded(cfg, done, s, ready, io, i, Multisend(cfg), at), end);
    hide Rounded, LightAt, Throttled, Moved;
  }

  datatype Step = Traffic(ready: set<nat>, io: Outcomes) | Stats | OmitTimer | SendTimer | TestTimer

  // ---------------------------------------------------------------- what each step does

  /** The fields of a test. */
  datatype Snapshot = Snapshot(streams: seq<Stream>, omitting: bool, done: bool, bytesSent: nat, blocksSent: nat, clock: nat)

  /** A receiver has read what its call was given, and another stream is unchanged. */
  ghost predicate ReceivedIn(cfg: Settings, was: Stream, s: Stream, ready: bool, io: Outcomes, i: nat) {
    var bytes := if ready then Moved(cfg, io, i, 1) else 0;
    s == was.(bytesReceived := was.bytesReceived + bytes, receivedThisInterval := was.receivedThisInterval + bytes)
  }

  /** The current interval has been recorded, and a new one has started. */
  ghost predicate Recorded(sender: bool, omitting: bool, was: Stream, s: Stream) {
    var bytes := if sender then was.sentThisInterval else was.receivedThisInterval;
    s == was.(intervals := was.intervals + [Interval(bytes, omitting)], sentThisInterval := 0, receivedThisInterval := 0)
  }

  /** What was sent has been set aside, and all else starts at zero. */
  ghost predicate SetAside(was: Stream, s: Stream) {
    s == was.(bytesSentOmit := was.bytesSent, bytesReceived := 0, sentThisInterval := 0, receivedThisInterval := 0)
  }

  ghost predicate AllSent(cfg: Settings, a: Snapshot, ready: set<nat>, io: Outcomes, b: Snapshot, end: nat) {
    var rounds := if cfg.burst != 0 then cfg.burst else if cfg.rate == 0 then cfg.multisend else 1;
    var limited := (cfg.bytes != 0 && b.bytesSent >= cfg.bytes) || (cfg.blocks != 0 && b.blocksSent >= cfg.blocks);
    |a.streams| == |b.streams| && (rounds <= 1 || !limited || |b.streams| <= 1 ==>
      forall i :: 0 <= i < |b.streams| ==> SentIn(cfg, a.done, a.streams[i], b.streams[i], i in ready, io, i, rounds, end))
  }

  ghost predicate AllReceived(cfg: Settings, a: Snapshot, ready: set<nat>, io: Outcomes, b: Snapshot) {
    |a.streams| == |b.streams| &&
    forall i :: 0 <= i < |b.streams| ==> ReceivedIn(cfg, a.streams[i], b.streams[i], i in ready, io, i)
  }

  /** The step turns `a` into `b`, and succeeds or not. */
  ghost predicate Moves(cfg: Settings, a: Snapshot, step: Step, b: Snapshot, ok: bool) {
    match step
    case Traffic(ready, io) =>
      && b == a.(streams := b.streams, bytesSent := b.bytesSent, blocksSent := b.blocksSent, clock := b.clock) && a.clock <= b.clock
      && (Smooth(io) ==> ok && if cfg.sender then exists end :: AllSent(cfg, a, ready, io, b, end) else AllReceived(cfg, a, ready, io, b))
    case Stats =>
      && ok && b == a.(streams := b.streams) && |b.streams| == |a.streams|
      && forall i :: 0 <= i < |b.streams| ==> Recorded(cfg.sender, a.omitting, a.streams[i], b.streams[i])
    case OmitTimer =>
      && ok && (!a.omitting ==> b == a)
      && (a.omitting ==>
            && b == a.(streams := b.streams, omitting := false, bytesSent := 0, blocksSent := 0) && |b.streams| == |a.streams|
            && forall i :: 0 <= i < |b.streams| ==> SetAside(a.streams[i], b.streams[i]))
    case SendTimer =>
      && ok && (cfg.rate == 0 ==> b == a) && b == a.(streams := b.streams, clock := b.clock) && a.clock <= b.clock
      && |b.streams| == |a.streams|
      && (cfg.rate != 0 ==> forall i :: 0 <= i < |b.streams| ==>
            b.streams[i] == a.streams[i].(greenLight := LightAt(cfg, b.streams[i], b.clock)))
    case TestTimer => ok && b == a.(done := true)
  }

  class Test {
    const cfg: Settings
    var streams: seq<Stream>
    var omitting: bool
    var done: bool
    var bytesSent: nat
    var blocksSent: nat
    var clock: nat

    /** The invariant of every step: conservation per stream, and the test's total is the sum over its streams. */
    ghost predicate Valid()
      reads this
    {
      && (forall i :: 0 <= i < |streams| ==> Conserved(streams[i], cfg.sender, omitting))
      && bytesSent == Total(streams, cfg.sender)
    }

    ghost function Fields(): Snapshot
      reads this
    {
      Snapshot(streams, omitting, done, bytesSent, blocksSent, clock)
    }

    ghost predicate AllPaced(k: nat)
      reads this`streams, this`clock
    {
      forall i :: 0 <= i < |streams| ==> Paced(cfg, streams[i], clock, k)
    }

    /** `gettimeofday`, on a clock that does not go back. */
    method Now(ghost k: nat) returns (now: nat)
      requires AllPaced(k)
      modifies this`clock
      ensures now == clock >= old(clock) && AllPaced(k)
    {
      var d: nat :| 0 <= d;
      ghost var was := clock;
      clock := clock + d;
      now := clock;
      forall i | 0 <= i < |streams| ensures Paced(cfg, streams[i], clock, k) {
        TimePasses(cfg, streams[i], was, clock, k, k);
      }
    }

    /** One send on the stream `i`: bookkeeping of `iperf_tcp_send` and `iperf_send`. */
    method SendOne(i: nat, r: nat, ghost k: nat)
      requires Valid() && cfg.sender && i < |streams| && Paced(cfg, streams[i], clock, k) && k < Blocks(cfg)
      requires streams[i].greenLight && r <= cfg.blksize
      modifies this`streams, this`bytesSent, this`blocksSent
      ensures Valid() && streams == old(streams)[i := Sent(old(streams)[i], r)] && Paced(cfg, streams[i], clock, k + 1)
      ensures streams[i] == WithSent(old(streams)[i], r, true)
      ensures bytesSent == old(bytesSent) + r && blocksSent == old(blocksSent) + 1
    {
      SentPaced(cfg, streams[i], clock, k, r);
      TotalUpdate(streams, i, Sent(streams[i], r), cfg.sender);
      streams := streams[i := Sent(streams[i], r)];
      bytesSent := bytesSent + r;
      blocksSent := blocksSent + 1;
    }

    method CheckThrottle(i: nat, now: nat, ghost k: nat)
      requires Valid() && i < |streams| && Paced(cfg, streams[i], clock, k) && now <= clock
      modifies this`streams
      ensures Valid() && streams == old(streams)[i := Throttled(cfg, done, old(streams)[i], now)]
      ensures Paced(cfg, streams[i], clock, k) && (!done ==> Paced(cfg, streams[i], clock, 0))
      ensures streams[i] == old(streams)[i].(greenLight := if done then old(streams)[i].greenLight else LightAt(cfg, streams[i], now))
      ensures !done && now > streams[i].start ==>
                (streams[i].greenLight <==> streams[i].bytesSent * 8_000_000 < cfg.rate * (now - streams[i].start))
    {
      ThrottledLight(cfg, streams[i], now);
      TotalUpdate(streams, i, Throttled(cfg, done, streams[i], now), cfg.sender);
      if !done {
        ThrottledPaced(cfg, streams[i], now, clock, k);
        TimePasses(cfg, Throttled(cfg, done, streams[i], now), clock, clock, 0, k);
      }
      streams := streams[i := Throttled(cfg, done, streams[i], now)];
    }

    /** Both limits of a test in bytes and in blocks. */
    predicate LimitReached()
      reads this
    {
      (cfg.bytes != 0 && bytesSent >= cfg.bytes) || (cfg.blocks != 0 && blocksSent >= cfg.blocks)
    }

    ghost predicate AllRed()
      reads this`streams
    {
      forall i :: 0 <= i < |streams| ==> !streams[i].greenLight
    }

    /** No stream may send, and none has sent more than in `was`. */
    ghost predicate Stalled(was: seq<Stream>)
      reads this`streams
    {
      AllRed() && |streams| == |was| && forall i :: 0 <= i < |was| ==> streams[i].bytesSent == was[i].bytesSent
    }

    /**
     The round `n` over the streams inside `iperf_send`; `left` rounds remain, `k` have been made.  A limit that is
     reached ends the round, but only after a send and not in the last round.
     */
    method Round(writable: set<nat>, io: Outcomes, n: nat, left: nat, now: nat, ghost k: nat) returns (ok: bool, active: bool)
      requires Valid() && cfg.sender && AllPaced(k) && k < Blocks(cfg) && now <= clock
      modifies this`streams, this`bytesSent, this`blocksSent
      ensures Valid() && |streams| == |old(streams)| && AllPaced(k + 1)
      ensures bytesSent >= old(bytesSent) && blocksSent >= old(blocksSent)
      ensures ok && cfg.rate != 0 && cfg.burst == 0 && !done ==> AllPaced(0)
      ensures Smooth(io) ==> ok && (left <= 1 || !LimitReached() || |streams| <= 1 ==>
                                     AllServed(cfg, done, old(streams), streams, writable, io, n, now))
      ensures Smooth(io) && !active ==> AllIdle(old(streams), writable)
      ensures old(AllRed()) ==> ok && streams == old(streams)
      ensures left > 1 && old(LimitReached()) ==> blocksSent <= old(blocksSent) + 1
      ensures left > 1 && !old(LimitReached()) ==>
                && (cfg.bytes != 0 ==> bytesSent < cfg.bytes + cfg.blksize)
                && (cfg.blocks != 0 ==> blocksSent <= cfg.blocks)
    {
      hide Conserved, Paced, Sent, Throttled, Took, LightAt;
      ok, active := true, false;
      var paced := cfg.rate != 0 && cfg.burst == 0;
      var i: nat := 0;
      while i < |streams|
        invariant i <= |streams| == |old(streams)| && Valid()
        invariant bytesSent >= old(bytesSent) && blocksSent >= old(blocksSent)
        invariant left > 1 ==> !LimitReached() || (blocksSent == old(blocksSent) && bytesSent == old(bytesSent))
        invariant forall j :: 0 <= j < i ==> Paced(cfg, streams[j], clock, if paced && !done then 0 else k + 1)
        invariant forall j :: i <= j < |streams| ==> Paced(cfg, streams[j], clock, k) && streams[j] == old(streams)[j]
        invariant forall j :: 0 <= j < i ==>
                    streams[j] == Served(cfg, done, old(streams)[j], j in writable, Took(cfg, io(n, j)), now)
        invariant !active ==> forall j :: 0 <= j < i ==> !(old(streams)[j].greenLight && j in writable)
      {
        if streams[i].greenLight && i in writable {
          var r := Took(cfg, io(n, i));
          TookAtMost(cfg, io(n, i));
          if r < 0 {
            ok := r == NET_SOFTERROR;
            break;
          }
          active := true;
          SendOne(i, r, k);
          if paced {
            CheckThrottle(i, now, k + 1);
          }
          if left > 1 && LimitReached() {
            i := i + 1;
            break;
          }
        } else {
          TimePasses(cfg, streams[i], clock, clock, k, k + 1);
        }
        i := i + 1;
      }
      forall j | 0 <= j < |streams| ensures Paced(cfg, streams[j], clock, k + 1) {
        TimePasses(cfg, streams[j], clock, clock, if j < i then if paced && !done then 0 else k + 1 else k, k + 1);
      }
    }

    lemma {:induction false} Relax(k: nat, k': nat)
      requires AllPaced(k) && (k <= k' || cfg.rate == 0)
      ensures AllPaced(k')
    {
      forall i | 0 <= i < |streams| && k <= k' ensures Paced(cfg, streams[i], clock, k') {
        TimePasses(cfg, streams[i], clock, clock, k, k');
      }
    }

    /** The rounds of `iperf_send`, at the time `at` when a single paced round is made. */
    method Rounds(writable: set<nat>, io: Outcomes) returns (ok: bool, ghost k: nat, ghost at: nat)
      requires Valid() && cfg.sender && AllPaced(0)
      modifies this`streams, this`bytesSent, this`blocksSent, this`clock
      ensures Valid() && |streams| == |old(streams)| && clock >= old(clock) && k <= Blocks(cfg) && AllPaced(k)
      ensures ok && !done && cfg.burst == 0 ==> AllPaced(0)
      ensures cfg.rate != 0 && cfg.burst == 0 ==> old(clock) <= at <= clock
      ensures Smooth(io) ==> ok && (Multisend(cfg) <= 1 || !LimitReached() || |streams| <= 1 ==>
                                      AllRounded(cfg, done, old(streams), streams, writable, io, Multisend(cfg), at))
      ensures old(AllRed()) ==> ok && streams == old(streams)
    {
      hide Conserved, AllPaced, AllServed, AllRounded, AllIdle, Smooth, AllRed;
      NoRounds(cfg, done, streams, writable, io, 0, 0);
      var left: nat, n: nat := Multisend(cfg), 0;
      var now: nat, active := 0, true;
      ghost var few := Multisend(cfg) <= 1 || |streams| <= 1;
      k, ok := 0, true;
      while left > 0 && active
        invariant Valid() && |streams| == |old(streams)| && clock >= old(clock) && now <= clock && ok && AllPaced(k)
        invariant n > 0 || active
        invariant left + n == Multisend(cfg) && if cfg.rate == 0 then k == 0 else left + k == Blocks(cfg)
        invariant cfg.rate != 0 && cfg.burst == 0 && !done ==> AllPaced(0)
        invariant cfg.rate != 0 && cfg.burst == 0 && n > 0 ==> old(clock) <= now
        invariant Smooth(io) && (few || !LimitReached()) ==> AllRounded(cfg, done, old(streams), streams, writable, io, n, now)
        invariant Smooth(io) && (few || !LimitReached()) && !active ==> AllIdle(streams, writable)
        invariant old(AllRed()) ==> streams == old(streams)
      {
        if cfg.rate != 0 && cfg.burst == 0 {
          assert n == 0;
          ghost var before := now;
          now := Now(k);
          NoRounds(cfg, done, streams, writable, io, before, now);
        }
        ghost var was := streams;
        assert old(AllRed()) ==> AllRed();
        ok, active := Round(writable, io, n, left, now, k);
        if Smooth(io) && (few || !LimitReached()) {
          NextRound(cfg, done, old(streams), was, streams, writable, io, n, now);
        }
        left, k, n := left - 1, k + 1, n + 1;
        if cfg.rate == 0 {
          Relax(k, 0);
          k := 0;
        }
        at := now;
        if !ok {
          return;
        }
      }
      at := now;
      if Smooth(io) && (few || !LimitReached()) && !active {
        IdleRounds(cfg, done, old(streams), streams, writable, io, n, Multisend(cfg), now);
      }
    }

    /** The throttle check of every stream that ends a burst. */
    method ThrottleAll(now: nat, ghost k: nat)
      requires Valid() && AllPaced(k) && now <= clock
      modifies this`streams
      ensures Valid() && |streams| == |old(streams)| && AllPaced(if done then k else 0)
      ensures forall i :: 0 <= i < |streams| ==> streams[i] == Throttled(cfg, done, old(streams)[i], now)
      ensures forall i :: 0 <= i < |streams| ==>
                streams[i] == old(streams)[i].(greenLight := if done then old(streams)[i].greenLight else LightAt(cfg, streams[i], now))
      ensures !done ==> forall i :: 0 <= i < |streams| && now > streams[i].start ==>
                (streams[i].greenLight <==> streams[i].bytesSent * 8_000_000 < cfg.rate * (now - streams[i].start))
    {
      hide Conserved, Paced, Throttled, LightAt;
      var i: nat := 0;
      while i < |streams|
        invariant i <= |streams| == |old(streams)| && Valid()
        invariant forall j :: 0 <= j < i ==>
                    Paced(cfg, streams[j], clock, if done then k else 0) && streams[j] == Throttled(cfg, done, old(streams)[j], now)
                    && streams[j] == old(streams)[j].(
                         greenLight := if done then old(streams)[j].greenLight else LightAt(cfg, streams[j], now))
        invariant forall j :: i <= j < |streams| ==> Paced(cfg, streams[j], clock, k) && streams[j] == old(streams)[j]
      {
        CheckThrottle(i, now, k);
        i := i + 1;
      }
      forall j | 0 <= j < |streams| && !done && now > streams[j].start
        ensures streams[j].greenLight <==> streams[j].bytesSent * 8_000_000 < cfg.rate * (now - streams[j].start)
      {
        LightMeans(cfg, streams[j], now);
      }
    }

    /**
     `iperf_send`.  Without an error, and until the test is done, no stream that may send is ahead of the rate.  Every
     ready stream with a green light sends a chunk in each round, unless a limit cuts a round short; a burst, or a
     single paced round, ends with the throttle check at `end`.
     */
    method Send(writable: set<nat>, io: Outcomes) returns (ok: bool, ghost end: nat)
      requires Valid() && cfg.sender && AllPaced(0)
      modifies this`streams, this`bytesSent, this`blocksSent, this`clock
      ensures Valid() && |streams| == |old(streams)| && clock >= old(clock)
      ensures AllPaced(Blocks(cfg)) && (ok && !done ==> AllPaced(0))
      ensures cfg.rate != 0 || cfg.burst != 0 ==> old(clock) <= end <= clock || !ok
      ensures Smooth(io) ==> ok && AllSent(cfg, old(Fields()), writable, io, Fields(), end)
      ensures cfg.rate == 0 && cfg.burst != 0 && ok && !done ==> AllRed()
      ensures cfg.rate == 0 && old(AllRed()) ==> ok && Stalled(old(streams))
    {
      hide AllPaced, Conserved, Smooth, Rounded, LightAt, Throttled, SentIn;
      ghost var k, at;
      end := 0;
      ok, k, at := Rounds(writable, io);
      end := at;
      ghost var was := streams;
      if ok && cfg.burst != 0 {
        var now := Now(k);
        end := now;
        ThrottleAll(now, k);
        k := if done then k else 0;
        if cfg.rate == 0 {
          forall i | 0 <= i < |streams| && !done ensures !streams[i].greenLight {
            NoRateRed(cfg, streams[i], now);
          }
        }
      }
      Relax(k, Blocks(cfg));
      if Smooth(io) && (Multisend(cfg) <= 1 || !LimitReached() || |streams| <= 1) {
        forall i | 0 <= i < |streams|
          ensures SentIn(cfg, done, old(streams)[i], streams[i], i in writable, io, i, Multisend(cfg), end)
        {
          EndedIs(cfg, done, old(streams)[i], i in writable, io, i, at, end);
        }
      }
    }

    /** `iperf_recv`, with the bookkeeping of `iperf_tcp_recv`. */
    method Recv(readable: set<nat>, io: Outcomes) returns (ok: bool)
      requires Valid() && !cfg.sender
      modifies this`streams, this`bytesSent, this`blocksSent
      ensures Valid() && |streams| == |old(streams)| && (old(AllPaced(0)) ==> AllPaced(0))
      ensures Smooth(io) ==> ok && forall i :: 0 <= i < |streams| ==>
                ReceivedIn(cfg, old(streams)[i], streams[i], i in readable, io, i)
    {
      hide Conserved, Paced, Received, Transferred, Took;
      ok := true;
      var i: nat := 0;
      while i < |streams|
        invariant i <= |streams| == |old(streams)| && Valid() && (old(AllPaced(0)) ==> AllPaced(0))
        invariant Smooth(io) ==> forall j :: 0 <= j < |streams| ==>
                    streams[j] == Drained(old(streams)[j], j < i && j in readable, Took(cfg, io(0, j)))
      {
        if i in readable {
          var r := Took(cfg, io(0, i));
          TookAtMost(cfg, io(0, i));
          if r < 0 {
            return false;
          }
          ReceivedKeeps(cfg, streams[i], r, omitting, clock);
          TotalUpdate(streams, i, Received(streams[i], r), cfg.sender);
          streams := streams[i := Received(streams[i], r)];
          bytesSent, blocksSent := bytesSent + r, blocksSent + 1;
        }
        i := i + 1;
      }
      if Smooth(io) {
        forall j | 0 <= j < |streams|
          ensures ReceivedIn(cfg, old(streams)[j], streams[j], j in readable, io, j)
        {
          DrainedIs(cfg, old(streams)[j], j in readable, io, j);
        }
      }
    }

    /** `iperf_stats_callback`: closes the current interval of every stream. */
    method StatsCallback()
      requires Valid()
      modifies this`streams
      ensures Valid() && |streams| == |old(streams)|
      ensures forall i :: 0 <= i < |streams| ==>
                Transferred(streams[i], cfg.sender) == Transferred(old(streams)[i], cfg.sender)
      ensures !omitting ==> forall i :: 0 <= i < |streams| ==>
                Transferred(streams[i], cfg.sender) == Counted(streams[i].intervals)
      ensures forall i :: 0 <= i < |streams| ==> Recorded(cfg.sender, omitting, old(streams)[i], streams[i])
      ensures old(AllPaced(0)) ==> AllPaced(0)
    {
      hide Conserved, Transferred, Closed, Partial, Total, Paced, Recorded;
      var i: nat := 0;
      while i < |streams|
        invariant i <= |streams| == |old(streams)| && Valid()
        invariant forall j :: 0 <= j < |streams| ==>
                    Transferred(streams[j], cfg.sender) == Transferred(old(streams)[j], cfg.sender)
        invariant forall j :: 0 <= j < i ==> Partial(streams[j], cfg.sender) == 0
        invariant forall j :: i <= j < |streams| ==> streams[j] == old(streams)[j]
        invariant forall j :: 0 <= j < i ==> Recorded(cfg.sender, omitting, old(streams)[j], streams[j])
        invariant old(AllPaced(0)) ==> AllPaced(0)
      {
        var closed := Closed(streams[i], cfg.sender, omitting);
        ClosedKeeps(streams[i], cfg.sender, omitting);
        ClosedPaced(cfg, streams[i], omitting, clock);
        TotalUpdate(streams, i, closed, cfg.sender);
        streams := streams[i := closed];
        i := i + 1;
      }
      forall j | 0 <= j < |streams| && !omitting ensures Transferred(streams[j], cfg.sender) == Counted(streams[j].intervals) {
        NothingPartial(streams[j], cfg.sender);
      }
    }

    /** `iperf_reset_stats` from the omit timer: the omitted start of the test is over. */
    method EndOmit()
      requires Valid() && omitting
      modifies this`streams, this`omitting, this`bytesSent, this`blocksSent
      ensures Valid() && !omitting && bytesSent == blocksSent == 0 && |streams| == |old(streams)|
      ensures forall i :: 0 <= i < |streams| ==> Transferred(streams[i], cfg.sender) == 0
      ensures forall i :: 0 <= i < |streams| ==> SetAside(old(streams)[i], streams[i])
      ensures old(AllPaced(0)) ==> AllPaced(0)
    {
      hide Conserved, Transferred, Paced;
      omitting := false;
      bytesSent, blocksSent := 0, 0;
      var i: nat := 0;
      while i < |streams|
        invariant i <= |streams| == |old(streams)| && !omitting && bytesSent == blocksSent == 0
        invariant forall j :: 0 <= j < i ==> Conserved(streams[j], cfg.sender, false) && Transferred(streams[j], cfg.sender) == 0
        invariant forall j :: 0 <= j < |streams| ==> streams[j] == if j < i then Forgotten(old(streams)[j]) else old(streams)[j]
        invariant old(AllPaced(0)) ==> AllPaced(0)
      {
        ForgottenKeeps(cfg, streams[i], clock);
        streams := streams[i := Forgotten(streams[i])];
        i := i + 1;
      }
      NoTotal(streams, cfg.sender);
    }

    /**
     Any run of a test: traffic, timers and the end of the omitted part; traffic ends when the test is done.  Without a
     rate there is no timer to give a stream its green light back: once a burst has taken them all, nothing is sent again.
     */
    method Run(steps: seq<Step>) returns (ok: bool, ghost trace: seq<Snapshot>)
      requires Valid() && AllPaced(0) && !done
      modifies this`streams, this`bytesSent, this`blocksSent, this`clock, this`omitting, this`done
      ensures Valid()
      ensures cfg.rate > 0 ==> forall i :: 0 <= i < |streams| ==>
                streams[i].bytesSent * 8_000_000 <=
                cfg.rate * (clock - streams[i].start) + (if cfg.burst == 0 then 1 else cfg.burst) * (cfg.blksize * 8_000_000)
      ensures cfg.rate == 0 && cfg.sender && old(AllRed()) ==> Stalled(old(streams))
      ensures 0 < |trace| <= |steps| + 1 && trace[0] == old(Fields()) && trace[|trace| - 1] == Fields()
      ensures forall n :: 0 <= n < |trace| - 1 ==> Moves(cfg, trace[n], steps[n], trace[n + 1], n < |trace| - 2 || ok)
      ensures |trace| == |steps| + 1 || done || !ok
    {
      hide Conserved, AllPaced, Moves;
      Relax(0, Blocks(cfg));
      var n: nat := 0;
      ok, trace := true, [Fields()];
      while n < |steps| && ok && !done
        invariant |trace| == n + 1 <= |steps| + 1 && trace[0] == old(Fields()) && trace[n] == Fields()
        invariant forall m :: 0 <= m < n ==> Moves(cfg, trace[m], steps[m], trace[m + 1], m < n - 1 || ok)
        invariant Valid() && AllPaced(Blocks(cfg)) && (ok && !done ==> AllPaced(0))
        invariant cfg.rate == 0 && cfg.sender && old(AllRed()) ==> Stalled(old(streams))
      {
        ok := Step(steps[n]);
        n, trace := n + 1, trace + [Fields()];
      }
      WithinBound();
    }

    lemma {:induction false} WithinBound()
      requires AllPaced(Blocks(cfg))
      ensures cfg.rate > 0 ==> forall i :: 0 <= i < |streams| ==>
                streams[i].bytesSent * 8_000_000 <=
                cfg.rate * (clock - streams[i].start) + (if cfg.burst == 0 then 1 else cfg.burst) * (cfg.blksize * 8_000_000)
    {
    }

    method Step(step: Step) returns (ok: bool)
      requires Valid() && AllPaced(0) && !done
      modifies this`streams, this`bytesSent, this`blocksSent, this`clock, this`omitting, this`done
      ensures Valid() && AllPaced(Blocks(cfg)) && (ok && !done ==> AllPaced(0))
      ensures cfg.rate == 0 && cfg.sender && old(AllRed()) ==> Stalled(old(streams))
      ensures Moves(cfg, old(Fields()), step, Fields(), ok)
    {
      hide Conserved, AllPaced, ReceivedIn, SentIn, Smooth;
      ok := true;
      match step {
        case Traffic(ready, io) =>
          if cfg.sender {
            ghost var end;
            ok, end := Send(ready, io);
            return;
          }
          ok := Recv(ready, io);
        case Stats =>
          StatsCallback();
        case OmitTimer =>
          if omitting {
            EndOmit();
          }
        case SendTimer =>
          if cfg.rate != 0 {
            var now := Now(0);
            ThrottleAll(now, 0);
          }
        case TestTimer =>
          done := true;
      }
      Relax(0, Blocks(cfg));
    }

    /** A test at the start of its run: `iperf_init_test` and `iperf_create_send_timers`. */
    constructor (cfg: Settings, n: nat, omit: bool, now: nat)
      ensures Valid() && AllPaced(0) && this.cfg == cfg && |streams| == n && omitting == omit && !done
      ensures clock == now && bytesSent == 0 && blocksSent == 0
      ensures forall i :: 0 <= i < n ==> streams[i] == Stream(0, 0, 0, 0, 0, [], now, true)
    {
      this.cfg := cfg;
      streams := seq(n, _ => Stream(0, 0, 0, 0, 0, [], now, true));
      omitting, done, bytesSent, blocksSent, clock := omit, false, 0, 0, now;
      new;
      NoTotal(streams, cfg.sender);
    }
  }

  /** A limit in bytes does not end the rounds of one `iperf_send`: a single stream sends them all. */
  method LimitOverrun(blksize: nat, multisend: nat, limit: nat, now: nat) returns (bytes: nat)
    requires 0 < limit <= blksize && multisend > 0
    ensures bytes == multisend * blksize
  {
    var test := new Test(Settings(true, 0, 0, blksize, multisend, limit, 0), 1, false, now);
    ghost var was := test.streams;
    var io: Outcomes := (_, _) => blksize;
    var ok;
    ghost var end;
    ok, end := test.Send({0}, io);
    FullBlocks(test.cfg, io, 0, multisend);
    assert SentIn(test.cfg, false, was[0], test.streams[0], true, io, 0, multisend, end);
    bytes := test.streams[0].bytesSent;
  }

  lemma {:induction false} FullBlocks(cfg: Settings, io: Outcomes, i: nat, n: nat)
    requires forall m :: io(m, i) == cfg.blksize
    ensures Moved(cfg, io, i, n) == n * cfg.blksize
  {
    if n > 0 {
      FullBlocks(cfg, io, i, n - 1);
    }
  }

  function Received(s: Stream, r: nat): Stream {
    s.(bytesReceived := s.bytesReceived + r, receivedThisInterval := s.receivedThisInterval + r)
  }

  /** A stream after its turn in `iperf_recv`. */
  function Drained(s: Stream, ready: bool, r: int): Stream {
    if ready && r >= 0 then Received(s, r) else s
  }

  lemma {:induction false} DrainedIs(cfg: Settings, s: Stream, ready: bool, io: Outcomes, i: nat)
    requires Smooth(io)
    ensures ReceivedIn(cfg, s, Drained(s, ready, Took(cfg, io(0, i))), ready, io, i)
  {
    assert Moved(cfg, io, i, 0) == 0 && io(0, i) >= 0;
  }

  /** With no rate to compare with, the throttle stops a stream. */
  lemma {:induction false} NoRateRed(cfg: Settings, s: Stream, now: nat)
    requires cfg.rate == 0
    ensures !LightAt(cfg, s, now)
  {
  }

  lemma {:induction false} ReceivedKeeps(cfg: Settings, s: Stream, r: nat, omitting: bool, now: nat)
    requires !cfg.sender && Conserved(s, false, omitting)
    ensures Conserved(Received(s, r), false, omitting) && Transferred(Received(s, r), false) == Transferred(s, false) + r
    ensures Paced(cfg, Received(s, r), now, 0) <==> Paced(cfg, s, now, 0)
  {
  }

  /** A stream whose current interval has been recorded. */
  function Closed(s: Stream, sender: bool, omitting: bool): Stream {
    s.(intervals := s.intervals + [Interval(Partial(s, sender), omitting)], sentThisInterval := 0, receivedThisInterval := 0)
  }

  lemma {:induction false} ClosedKeeps(s: Stream, sender: bool, omitting: bool)
    requires Conserved(s, sender, omitting)
    ensures var s' := Closed(s, sender, omitting);
            Conserved(s', sender, omitting) && Transferred(s', sender) == Transferred(s, sender) && Partial(s', sender) == 0
  {
    assert Closed(s, sender, omitting).intervals[..|s.intervals|] == s.intervals;
  }

  lemma {:induction false} ClosedPaced(cfg: Settings, s: Stream, omitting: bool, now: nat)
    ensures Paced(cfg, Closed(s, cfg.sender, omitting), now, 0) <==> Paced(cfg, s, now, 0)
    ensures Recorded(cfg.sender, omitting, s, Closed(s, cfg.sender, omitting))
  {
  }

  function Forgotten(s: Stream): Stream {
    s.(bytesSentOmit := s.bytesSent, bytesReceived := 0, sentThisInterval := 0, receivedThisInterval := 0)
  }

  lemma {:induction false} ForgottenKeeps(cfg: Settings, s: Stream, now: nat)
    requires Conserved(s, cfg.sender, true)
    ensures Conserved(Forgotten(s), cfg.sender, false) && Transferred(Forgotten(s), cfg.sender) == 0
    ensures Paced(cfg, Forgotten(s), now, 0) <==> Paced(cfg, s, now, 0)
  {
  }

  lemma {:induction false} NothingPartial(s: Stream, sender: bool)
    requires Conserved(s, sender, false) && Partial(s, sender) == 0
    ensures Transferred(s, sender) == Counted(s.intervals)
  {
  }

  lemma {:induction false} NoTotal(ss: seq<Stream>, sender: bool)
    requires forall i :: 0 <= i < |ss| ==> Transferred(ss[i], sender) == 0
    ensures Total(ss, sender) == 0
  {
    if ss != [] {
      NoTotal(ss[..|ss| - 1], sender);
    }
  }

  const NET_SOFTERROR := -1
}
