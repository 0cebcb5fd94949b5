/** Every interleaving of the CAN callbacks with one foreground task that reads and enables, and
    the end-to-end stream from a sender's writes to a receiver's reads. */
module CanRuns {
  import opened Bytes
  import opened CanSpec
  import opened CanReceive
  import opened CanTransmit
  import LatchedStream

  /** Where the foreground stands: past the overflow check with the latch clear or set, or between
      switching the receiver on and clearing its state. */
  datatype Pc = Idle | ReadClear(n: nat) | ReadLatched | Enabling

  datatype System = System(
    c: Can, pc: Pc,
    received: seq<Byte>,   // payload handed to an enabled receiver since its state was cleared
    delivered: seq<Byte>,  // returned by reads since then
    lost: nat,             // of the received bytes, those that found no room
    unreported: nat,       // lost since the last overflow report
    reports: nat)          // overflow reports since then

  datatype Event =
    | Deliver(frame: Frame) | BusChange(state: BusState)
    | BeginRead(count: nat) | PopRead | ReportRead
    | BeginEnable(on: bool) | ClearState

  /** A configured driver on a started device, before `enable`. */
  function Init(cap: nat): System {
    System(Can(true, true, false, cap, [], false, 0, ErrorActive, 0, 0, 0, 5), Idle, [], [], 0, 0, 0)
  }

  function Step(s: System, e: Event): System
    requires Valid(s.c)
  {
    match e
    case Deliver(f) =>
      var bs := if s.c.rxEnabled then Payload(f) else [];
      var lost := |bs| - Room(s.c.rxFifo, s.c.rxCap, bs);
      s.(c := OnFrame(s.c, f), received := s.received + bs, lost := s.lost + lost, unreported := s.unreported + lost)
    case BusChange(state) => s.(c := s.c.(state := state))
    case BeginRead(n) =>
      if !s.pc.Idle? then s
      else if Gate(s.c).Some? then s.(c := CountError(s.c))
      else s.(pc := if s.c.overflow then ReadLatched else ReadClear(n))
    case PopRead =>
      if s.pc.ReadClear?
      then s.(c := PopRx(s.c, s.pc.n), delivered := s.delivered + Front(s.c.rxFifo, s.pc.n), pc := Idle)
      else s
    case ReportRead =>
      if s.pc.ReadLatched?
      then s.(c := TakeReport(s.c), unreported := 0, reports := s.reports + 1, pc := Idle)
      else s
    case BeginEnable(on) =>
      if !s.pc.Idle? then s
      else if !s.c.ready || !s.c.started then s.(c := CountError(s.c))
      else s.(c := s.c.(rxEnabled := on), pc := if on then Enabling else Idle)
    case ClearState =>
      if s.pc.Enabling? then System(ClearRx(s.c), Idle, [], [], 0, 0, 0) else s
  }

  lemma StepValid(s: System, e: Event)
    requires Valid(s.c)
    ensures Valid(Step(s, e).c)
  {}

  ghost function Run(s: System, es: seq<Event>): (r: System)
    requires Valid(s.c)
    ensures Valid(r.c)
    decreases |es|
  {
    if es == [] then s else StepValid(s, es[0]); Run(Step(s, es[0]), es[1..])
  }

  // ---------------------------------------------------------------- the receive side

  function Stream(s: System): LatchedStream.Stream {
    LatchedStream.Stream(s.c.rxCap, s.c.rxFifo, s.c.overflow, s.pc.ReadClear?,
                         s.received, s.delivered, s.lost, s.unreported, 0, s.reports)
  }

  ghost predicate Inv(s: System) {
    && Valid(s.c)
    && LatchedStream.Inv(Stream(s))
    && (s.pc.ReadLatched? ==> s.c.overflow)
    && (s.pc.Enabling? ==> s.c.rxEnabled)
    && s.c.dropped == Min(s.lost, INT32_MAX)
  }

  lemma DeliverStream(s: System, f: Frame)
    requires Inv(s)
    ensures LatchedStream.Inv(Stream(Step(s, Deliver(f))))
  {
    var bs := if s.c.rxEnabled then Payload(f) else [];
    assert s.c.rxFifo + [] == s.c.rxFifo;
    LatchedStream.ArriveInv(Stream(s), bs);
    assert Stream(Step(s, Deliver(f))) == LatchedStream.Arrive(Stream(s), bs);
  }

  lemma DeliverCounts(s: System, f: Frame)
    requires Inv(s)
    ensures Step(s, Deliver(f)).c.dropped == Min(Step(s, Deliver(f)).lost, INT32_MAX)
    ensures s.c.overflow ==> Step(s, Deliver(f)).c.overflow
  {}

  lemma DeliverInv(s: System, f: Frame)
    requires Inv(s)
    ensures Inv(Step(s, Deliver(f)))
  {
    StepValid(s, Deliver(f));
    DeliverStream(s, f);
    DeliverCounts(s, f);
    assert LatchedStream.Inv(Stream(Step(s, Deliver(f))));
  }

  lemma ReadInv(s: System, e: Event)
    requires Inv(s) && (e.BeginRead? || e.PopRead? || e.ReportRead?)
    ensures Inv(Step(s, e))
  {
    LatchedStream.ReaderInv(Stream(s));
    if e.BeginRead? && s.pc.Idle? && Gate(s.c).None? {
      assert Stream(Step(s, e)) == LatchedStream.Check(Stream(s));
    } else if e.PopRead? && s.pc.ReadClear? {
      LatchedStream.PopInv(Stream(s), s.pc.n);
      assert Stream(Step(s, e)) == LatchedStream.Pop(Stream(s), s.pc.n);
    } else if e.ReportRead? && s.pc.ReadLatched? {
      assert Stream(Step(s, e)) == LatchedStream.Report(Stream(s));
    } else {
      assert Stream(Step(s, e)) == Stream(s);
    }
  }

  lemma StepInv(s: System, e: Event)
    requires Inv(s)
    ensures Inv(Step(s, e))
  {
    if e.Deliver? {
      DeliverInv(s, e.frame);
    } else if e.BeginRead? || e.PopRead? || e.ReportRead? {
      ReadInv(s, e);
    } else if e.ClearState? && s.pc.Enabling? {
      LatchedStream.FreshInv(s.c.rxCap);
      assert Stream(Step(s, e)) == LatchedStream.Fresh(s.c.rxCap);
    } else {
      assert Stream(Step(s, e)) == Stream(s);
    }
  }

  lemma {:induction false} RunInv(s: System, es: seq<Event>)
    requires Inv(s)
    ensures Inv(Run(s, es))
    decreases |es|
  {
    if es != [] {
      StepInv(s, es[0]);
      RunInv(Step(s, es[0]), es[1..]);
    }
  }

  /** No silent loss, under every interleaving: bytes are conserved, what is delivered keeps the
      received order, the latch is set exactly when bytes were lost since the last report, the
      drop counter saturates, and nothing is delivered past a gap before a first report. */
  lemma NoSilentLoss(cap: nat, es: seq<Event>)
    ensures var r := Run(Init(cap), es);
      && |r.received| == |r.delivered| + |r.c.rxFifo| + r.lost
      && Subseq(r.delivered + r.c.rxFifo, r.received)
      && (r.c.overflow <==> r.unreported > 0) && r.unreported <= r.lost
      && r.c.dropped == Min(r.lost, INT32_MAX)
      && (r.reports == 0 ==> r.delivered <= r.received)
      && (r.lost == 0 ==> r.delivered + r.c.rxFifo == r.received)
  {
    LatchedStream.FreshInv(cap);
    RunInv(Init(cap), es);
    var r := Run(Init(cap), es);
    if r.lost == 0 {
      SubseqLength(r.delivered + r.c.rxFifo, r.received);
    }
  }

  // ---------------------------------------------------------------- the foreground's whole calls

  /** A read with nothing in between: refused and counted, an overflow report that keeps the queue, or
      as much of the queue as asked for. */
  lemma ReadUninterrupted(s: System, n: nat)
    requires Valid(s.c) && s.pc.Idle?
    ensures var a := Step(s, BeginRead(n)); Valid(a.c) && Valid(Step(a, PopRead).c)
    ensures var t := Step(Step(Step(s, BeginRead(n)), PopRead), ReportRead);
      && t.pc.Idle? && t.received == s.received && t.lost == s.lost
      && t.delivered + t.c.rxFifo == s.delivered + s.c.rxFifo
      && |t.delivered| == |s.delivered| + (if Gate(s.c).None? && !s.c.overflow then Min(n, |s.c.rxFifo|) else 0)
      && t.c.overflow == (s.c.overflow && Gate(s.c).Some?)
      && t.reports == s.reports + (if s.c.overflow && Gate(s.c).None? then 1 else 0)
  {
    assert s.delivered + Front(s.c.rxFifo, n) + Rest(s.c.rxFifo, n) == s.delivered + s.c.rxFifo;
  }

  lemma EnableUninterrupted(s: System, on: bool)
    requires Valid(s.c) && s.pc.Idle? && s.c.ready && s.c.started
    ensures Valid(Step(s, BeginEnable(on)).c)
    ensures var t := Step(Step(s, BeginEnable(on)), ClearState);
      t == if on then System(ClearRx(s.c).(rxEnabled := true), Idle, [], [], 0, 0, 0)
           else s.(c := s.c.(rxEnabled := false))
  {}

  /** As long as nothing was lost, one read of at least the queue's length delivers everything that was
      received since the receiver was enabled. */
  lemma ReadCatchesUp(cap: nat, es: seq<Event>, n: nat)
    requires var r := Run(Init(cap), es);
      r.pc.Idle? && Gate(r.c).None? && r.lost == 0 && n >= |r.c.rxFifo|
    ensures var r := Run(Init(cap), es);
      && Valid(Step(r, BeginRead(n)).c)
      && Step(Step(r, BeginRead(n)), PopRead).delivered == r.received
  {
    NoSilentLoss(cap, es);
    var r := Run(Init(cap), es);
    StepValid(r, BeginRead(n));
    assert Front(r.c.rxFifo, n) == r.c.rxFifo;
  }

  // ---------------------------------------------------------------- end to end

  function PayloadList(fs: seq<Frame>): (ps: seq<seq<Byte>>)
    ensures |ps| == |fs| && forall i :: 0 <= i < |fs| ==> ps[i] == Payload(fs[i])
  {
    seq(|fs|, i requires 0 <= i < |fs| => Payload(fs[i]))
  }

  /** The bytes that the receive callback takes from a list of frames. */
  function Payloads(fs: seq<Frame>): seq<Byte> { Concat(PayloadList(fs)) }

  lemma PayloadsAppend(a: seq<Frame>, b: seq<Frame>)
    ensures Payloads(a + b) == Payloads(a) + Payloads(b)
  {
    ConcatAppend(PayloadList(a), PayloadList(b));
    assert PayloadList(a + b) == PayloadList(a) + PayloadList(b);
  }

  lemma PayloadsOfOne(f: Frame)
    ensures Payloads([f]) == Payload(f)
  {
    var ps := PayloadList([f]);
    assert ps[1..] == [] && Concat<Byte>([]) == [];
    assert Concat(ps) == ps[0] + Concat(ps[1..]);
  }

  lemma PayloadsOfFrames(chunks: seq<Chunk>)
    ensures Payloads(Frames(chunks)) == Concat(chunks)
  {
    forall i | 0 <= i < |chunks|
      ensures Payload(Frames(chunks)[i]) == chunks[i]
    {
      PayloadOfFrame(chunks[i]);
    }
    assert PayloadList(Frames(chunks)) == chunks;
  }

  /** One call of the sender's `write`. */
  datatype Call = Call(buf: seq<Byte>, env: nat -> Attempt)

  const RETRIES: int := 5

  function Result(w: Call): Sending { Write(w.env, RETRIES, w.buf) }

  /** The frames that the calls put on the bus, in order. */
  function OnBus(calls: seq<Call>): seq<Frame> {
    if calls == [] then [] else Result(calls[0]).frames + OnBus(calls[1..])
  }

  /** The concatenation of the buffers of the successful calls. */
  function Written(calls: seq<Call>): seq<Byte> {
    if calls == [] then []
    else (if Result(calls[0]).error.None? then calls[0].buf else []) + Written(calls[1..])
  }

  ghost predicate SenderContract(calls: seq<Call>) {
    forall i :: 0 <= i < |calls| ==> SendContract(calls[i].env)
  }

  /** A call that failed left no frame on the bus. */
  predicate FailuresLeftNothing(calls: seq<Call>) {
    forall i :: 0 <= i < |calls| && Result(calls[i]).error.Some? ==> Result(calls[i]).frames == []
  }

  /** What one call carries: its whole buffer, or after a failure a proper beginning of it, cut
      between two frames. */
  lemma CallCarries(w: Call)
    requires SendContract(w.env)
    ensures Payloads(Result(w).frames) <= w.buf
    ensures Result(w).error.None? ==> Payloads(Result(w).frames) == w.buf
    ensures Result(w).error.Some? ==> |Payloads(Result(w).frames)| < |w.buf|
    ensures Payloads(Result(w).frames) == [] <==> Result(w).frames == []
  {
    WriteOutcome(w.env, RETRIES, w.buf);
    ChunksJoin(w.buf);
    var chunks, n := Chunks(w.buf), |Result(w).frames|;
    assert Result(w).frames == Frames(chunks[..n]);
    PayloadsOfFrames(chunks[..n]);
    ConcatAppend<Byte>(chunks[..n], chunks[n..]);
    TakeDrop<Chunk>(chunks, n);
    NonEmpty(w.buf);
    if n < |chunks| {
      assert chunks[n] == chunks[n..][0];
    }
    if n > 0 {
      assert chunks[..n][0] == chunks[0];
    }
  }

  lemma {:induction false} NonEmpty(buf: seq<Byte>)
    ensures forall i :: 0 <= i < |Chunks(buf)| ==> |Chunks(buf)[i]| > 0
    decreases |buf|
  {
    if buf != [] {
      NonEmpty(buf[Min(|buf|, FRAME_BYTES)..]);
    }
  }

  /** What the bus carries equals the successful buffers exactly when no failed call had already
      queued a part of its buffer. */
  lemma {:induction false} BusCarries(calls: seq<Call>)
    requires SenderContract(calls)
    ensures |Payloads(OnBus(calls))| >= |Written(calls)|
    ensures |Payloads(OnBus(calls))| == |Written(calls)| <==> FailuresLeftNothing(calls)
    ensures FailuresLeftNothing(calls) ==> Payloads(OnBus(calls)) == Written(calls)
    decreases |calls|
  {
    if calls != [] {
      var w, rest := calls[0], calls[1..];
      CallCarries(w);
      BusCarries(rest);
      PayloadsAppend(Result(w).frames, OnBus(rest));
      assert FailuresLeftNothing(calls) <==>
        FailuresLeftNothing(rest) && (Result(w).error.Some? ==> Result(w).frames == []) by {
        assert forall i :: 0 <= i < |rest| ==> rest[i] == calls[i + 1];
        assert forall i :: 0 < i < |calls| ==> calls[i] == rest[i - 1];
      }
    }
  }

  /** The buffers of the calls. */
  function Buffers(calls: seq<Call>): (bufs: seq<seq<Byte>>)
    ensures |bufs| == |calls|
  {
    seq(|calls|, i requires 0 <= i < |calls| => calls[i].buf)
  }

  predicate FitFrames(bufs: seq<seq<Byte>>) { forall i :: 0 <= i < |bufs| ==> |bufs[i]| <= FRAME_BYTES }

  lemma ShortCallsFailClean(calls: seq<Call>)
    requires SenderContract(calls) && FitFrames(Buffers(calls))
    ensures FailuresLeftNothing(calls)
  {
    forall i | 0 <= i < |calls| && Result(calls[i]).error.Some?
      ensures Result(calls[i]).frames == []
    {
      assert |Buffers(calls)[i]| <= FRAME_BYTES;
      CleanFailureIff(RETRIES, calls[i].buf);
    }
  }

  /** The calls on the bus that goes off after the first frame of each. */
  function OffCalls(bufs: seq<seq<Byte>>): (calls: seq<Call>)
    ensures |calls| == |bufs|
  {
    seq(|bufs|, i requires 0 <= i < |bufs| => Call(bufs[i], OffAfterFirst))
  }

  lemma OffCallsLeaveFrames(bufs: seq<seq<Byte>>)
    requires !FitFrames(bufs)
    ensures SenderContract(OffCalls(bufs)) && Buffers(OffCalls(bufs)) == bufs
    ensures !FailuresLeftNothing(OffCalls(bufs))
  {
    var calls := OffCalls(bufs);
    var i :| 0 <= i < |bufs| && |bufs[i]| > FRAME_BYTES;
    OffAfterFirstLeavesFrame(RETRIES, calls[i].buf);
    assert SendContract(OffAfterFirst);
    assert Result(calls[i]).error.Some? && Result(calls[i]).frames != [];
  }

  /** What a list of writes puts on the bus is sure to be the concatenation of the successful ones
      exactly when every buffer fits a single frame. */
  lemma BusCarriesIff(bufs: seq<seq<Byte>>)
    ensures (forall calls :: SenderContract(calls) && Buffers(calls) == bufs ==>
                               Payloads(OnBus(calls)) == Written(calls))
       <==> FitFrames(bufs)
  {
    if FitFrames(bufs) {
      forall calls | SenderContract(calls) && Buffers(calls) == bufs
        ensures Payloads(OnBus(calls)) == Written(calls)
      {
        ShortCallsFailClean(calls);
        BusCarries(calls);
      }
    } else {
      OffCallsLeaveFrames(bufs);
      BusCarries(OffCalls(bufs));
    }
  }

  /** The frames handed to the receiver, in order. */
  function Delivered(es: seq<Event>): seq<Frame> {
    if es == [] then []
    else (if es[0].Deliver? then [es[0].frame] else []) + Delivered(es[1..])
  }

  lemma StepTakes(s: System, e: Event)
    requires Valid(s.c) && s.c.rxEnabled && !s.pc.Enabling? && !e.BeginEnable?
    ensures Valid(Step(s, e).c) && Step(s, e).c.rxEnabled && !Step(s, e).pc.Enabling?
    ensures Step(s, e).received == s.received + Payloads(Delivered([e]))
  {
    assert [e][1..] == [] && Delivered([]) == [];
    if e.Deliver? {
      PayloadsOfOne(e.frame);
      assert Delivered([e]) == [e.frame];
    }
  }

  /** An enabled receiver that nobody enables again takes in exactly the payloads delivered. */
  lemma {:induction false} ReceiverTakesAll(s: System, es: seq<Event>)
    requires Valid(s.c) && s.c.rxEnabled && !s.pc.Enabling?
    requires forall i :: 0 <= i < |es| ==> !es[i].BeginEnable?
    ensures Run(s, es).received == s.received + Payloads(Delivered(es))
    decreases |es|
  {
    if es != [] {
      StepTakes(s, es[0]);
      PayloadsCons(es);
      ReceiverTakesAll(Step(s, es[0]), es[1..]);
      Associate(s.received, Payloads(Delivered([es[0]])), Payloads(Delivered(es[1..])));
    }
  }

  lemma PayloadsCons(es: seq<Event>)
    requires es != []
    ensures Payloads(Delivered(es)) == Payloads(Delivered([es[0]])) + Payloads(Delivered(es[1..]))
  {
    assert [es[0]][1..] == [];
    assert Delivered(es) == Delivered([es[0]]) + Delivered(es[1..]);
    PayloadsAppend(Delivered([es[0]]), Delivered(es[1..]));
  }

  /** Over an in-order lossless bus and without overflow, the bytes the receiver has read together
      with those it still queues are what the sender's calls carried, however the data is cut into
      calls, frames and reads. */
  lemma ReceiverGetsBus(calls: seq<Call>, cap: nat, before: seq<Event>, es: seq<Event>)
    requires SenderContract(calls)
    requires Run(Init(cap), before).pc.Enabling?
    requires Delivered(es) == OnBus(calls)
    requires forall i :: 0 <= i < |es| ==> !es[i].BeginEnable?
    ensures var r := Run(Step(Run(Init(cap), before), ClearState), es);
      r.lost == 0 ==>
        && r.delivered + r.c.rxFifo == Payloads(OnBus(calls))
        && (r.delivered + r.c.rxFifo == Written(calls) <==> FailuresLeftNothing(calls))
  {
    LatchedStream.FreshInv(cap);
    RunInv(Init(cap), before);
    var s := Step(Run(Init(cap), before), ClearState);
    StepInv(Run(Init(cap), before), ClearState);
    RunInv(s, es);
    ReceiverTakesAll(s, es);
    BusCarries(calls);
    var r := Run(s, es);
    assert r.received == Payloads(OnBus(calls));
    if r.lost == 0 {
      SubseqLength(r.delivered + r.c.rxFifo, r.received);
    }
  }

  /** Transparency for writes of at most one frame each, whatever happened before the receiver was
      enabled and whichever of the writes fail: the receiver gets the concatenation of the
      successful ones. */
  lemma StreamTransparency(calls: seq<Call>, cap: nat, before: seq<Event>, es: seq<Event>)
    requires SenderContract(calls) && FitFrames(Buffers(calls))
    requires Run(Init(cap), before).pc.Enabling?
    requires Delivered(es) == OnBus(calls)
    requires forall i :: 0 <= i < |es| ==> !es[i].BeginEnable?
    ensures var r := Run(Step(Run(Init(cap), before), ClearState), es);
      r.lost == 0 ==> r.delivered + r.c.rxFifo == Written(calls)
  {
    ShortCallsFailClean(calls);
    ReceiverGetsBus(calls, cap, before, es);
  }

  // ----- the exact condition, end to end -----

  /** An enabled receiver with nothing received yet. */
  function Listening(cap: nat): System {
    Step(System(Init(cap).c.(rxEnabled := true), Enabling, [], [], 0, 0, 0), ClearState)
  }

  lemma ListeningIsReached(cap: nat)
    ensures Run(Init(cap), [BeginEnable(true)]).pc.Enabling?
    ensures Listening(cap) == Step(Run(Init(cap), [BeginEnable(true)]), ClearState)
  {
    var e := [BeginEnable(true)];
    assert e[1..] == [] && Run(Init(cap), e) == Run(Step(Init(cap), e[0]), e[1..]);
  }

  /** A receiver that reads after every frame. */
  function ReadEach(fs: seq<Frame>): seq<Event> {
    if fs == [] then [] else [Deliver(fs[0]), BeginRead(FRAME_BYTES), PopRead] + ReadEach(fs[1..])
  }

  lemma {:induction false} ReadEachDelivers(fs: seq<Frame>)
    ensures Delivered(ReadEach(fs)) == fs
    ensures forall i :: 0 <= i < |ReadEach(fs)| ==> !ReadEach(fs)[i].BeginEnable?
  {
    if fs != [] {
      var es := ReadEach(fs);
      var one, two := es[1..], es[2..];
      assert one[1..] == two && two[1..] == ReadEach(fs[1..]);
      assert Delivered(one) == [] + Delivered(two) && Delivered(two) == [] + Delivered(two[1..]);
      ReadEachDelivers(fs[1..]);
    }
  }

  predicate Ready(s: System) {
    s.pc.Idle? && s.c.ready && s.c.started && s.c.state.ErrorActive? && s.c.rxEnabled && s.c.rxCap >= FRAME_BYTES
    && s.c.rxFifo == [] && !s.c.overflow && s.lost == 0
  }

  lemma ReadOneKeeps(s: System, f: Frame)
    requires Valid(s.c) && Ready(s)
    ensures Valid(Step(s, Deliver(f)).c)
    ensures var t := Step(Step(Step(s, Deliver(f)), BeginRead(FRAME_BYTES)), PopRead); Valid(t.c) && Ready(t)
  {
    assert Room([], s.c.rxCap, Payload(f)) == |Payload(f)|;
  }

  lemma {:induction false} ReadEachLosesNothing(s: System, fs: seq<Frame>)
    requires Valid(s.c) && Ready(s)
    ensures Run(s, ReadEach(fs)).lost == 0
    decreases |fs|
  {
    if fs != [] {
      var es := ReadEach(fs);
      var one, two := es[1..], es[2..];
      assert one[1..] == two && two[1..] == ReadEach(fs[1..]);
      ReadOneKeeps(s, fs[0]);
      var a := Step(s, es[0]);
      var b := Step(a, es[1]);
      assert Run(s, es) == Run(a, one) == Run(b, two) == Run(Step(b, es[2]), two[1..]);
      ReadEachLosesNothing(Step(b, es[2]), fs[1..]);
    }
  }

  /** Whatever the bus does to these writes and however the receiver reads: without overflow it gets
      the concatenation of the successful ones. */
  ghost predicate Transparent(cap: nat, bufs: seq<seq<Byte>>) {
    forall calls, es ::
      Carried(cap, bufs, calls, es) ==>
        Run(Listening(cap), es).delivered + Run(Listening(cap), es).c.rxFifo == Written(calls)
  }

  /** The calls have the given buffers, the receiver gets what they put on the bus and loses nothing. */
  ghost predicate Carried(cap: nat, bufs: seq<seq<Byte>>, calls: seq<Call>, es: seq<Event>) {
    && SenderContract(calls) && Buffers(calls) == bufs
    && Delivered(es) == OnBus(calls) && (forall i :: 0 <= i < |es| ==> !es[i].BeginEnable?)
    && Run(Listening(cap), es).lost == 0
  }

  /** End to end, over an in-order lossless bus and with room for a frame: the stream is transparent
      exactly for writes of at most one frame each. */
  lemma TransparentIff(cap: nat, bufs: seq<seq<Byte>>)
    requires cap >= FRAME_BYTES
    ensures Transparent(cap, bufs) <==> FitFrames(bufs)
  {
    ListeningIsReached(cap);
    if FitFrames(bufs) {
      forall calls, es | Carried(cap, bufs, calls, es)
        ensures Run(Listening(cap), es).delivered + Run(Listening(cap), es).c.rxFifo == Written(calls)
      {
        StreamTransparency(calls, cap, [BeginEnable(true)], es);
      }
    } else {
      var calls := OffCalls(bufs);
      var es := ReadEach(OnBus(calls));
      OffCallsLeaveFrames(bufs);
      ReadEachDelivers(OnBus(calls));
      ReadEachLosesNothing(Listening(cap), OnBus(calls));
      ReceiverGetsBus(calls, cap, [BeginEnable(true)], es);
      assert Carried(cap, bufs, calls, es);
    }
  }
}
