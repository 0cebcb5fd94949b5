/** Every interleaving of the ISR with one foreground task that reads, writes and enables. */
module UartRuns {
  import opened Bytes
  import opened UartSpec
  import LatchedStream

  /** Where the foreground task stands inside `read`, `write` or `enable`. */
  datatype Pc =
    | Idle
    | ReadChecked(n: nat)
    | WriteChecked(buf: seq<Byte>)
    | WritePushed(n: nat)
    | EnableQuiet(on: bool)
    | EnableCleared(on: bool)

  /** The driver together with what happened since its state was last cleared. */
  datatype System = System(
    u: Uart, pc: Pc,
    drained: seq<Byte>,    // taken out of the UART by the ISR
    delivered: seq<Byte>,  // returned by successful reads
    accepted: seq<Byte>,   // accepted by successful writes
    log: seq<Fate>)        // fate of every byte the ISR took from the TX queue, in order

  datatype Event =
    | Isr(updated: bool, txReady: bool, room: int, rxReady: bool, answers: seq<RxAnswer>)
    | BeginRead(count: nat) | PopRead
    | BeginWrite(bytes: seq<Byte>) | PushWrite | ArmWrite
    | BeginEnable(enable: bool) | ClearState | FinishEnable

  /** A configured and attached driver before its first `enable`. */
  function Init(rxCap: nat, txCap: nat): System {
    System(Uart(Setup(true, true, true, rxCap, txCap), false, false, false, [], [], 0, 0, 0, 0), Idle, [], [], [], [])
  }

  /** One atomic step; an event that the foreground is not ready for changes nothing. */
  function Step(s: System, e: Event): System
    requires Valid(s.u)
  {
    match e
    case Isr(updated, txReady, room, rxReady, answers) =>
      var (v, fates, got) := Callback(s.u, updated, txReady, room, rxReady, answers);
      s.(u := v, log := s.log + fates, drained := s.drained + got)
    case BeginRead(n) =>
      if s.pc.Idle? && RxCheck(s.u).None? then s.(pc := ReadChecked(n)) else s
    case PopRead =>
      if s.pc.ReadChecked?
      then s.(u := RxPop(s.u, s.pc.n), delivered := s.delivered + Front(s.u.rxFifo, s.pc.n), pc := Idle)
      else s
    case BeginWrite(buf) =>
      if s.pc.Idle? && TxCheck(s.u).None? then s.(pc := WriteChecked(buf)) else s
    case PushWrite =>
      if s.pc.WriteChecked? then
        var n := Room(s.u.txFifo, s.u.setup.txCap, s.pc.buf);
        s.(u := TxPush(s.u, s.pc.buf), accepted := s.accepted + s.pc.buf[..n], pc := WritePushed(n))
      else s
    case ArmWrite =>
      if s.pc.WritePushed? then s.(u := TxArm(s.u, s.pc.n), pc := Idle) else s
    case BeginEnable(on) =>
      if s.pc.Idle? then s.(u := Quiesce(s.u), pc := EnableQuiet(on)) else s
    case ClearState =>
      if s.pc.EnableQuiet?
      then System(Clear(s.u), EnableCleared(s.pc.on), [], [], [], [])
      else s
    case FinishEnable =>
      if s.pc.EnableCleared? then s.(u := SetEnabled(s.u, s.pc.on), pc := Idle) else s
  }

  lemma StepValid(s: System, e: Event)
    requires Valid(s.u)
    ensures Valid(Step(s, e).u)
  {
    if e.Isr? {
      TxValid(s.u, e.room);
      RxValid(if e.txReady && s.u.txIrq then Tx(s.u, e.room).0 else s.u, e.answers);
    }
  }

  ghost function Run(s: System, es: seq<Event>): (r: System)
    requires Valid(s.u)
    ensures Valid(r.u)
    decreases |es|
  {
    if es == [] then s
    else
      StepValid(s, es[0]);
      Run(Step(s, es[0]), es[1..])
  }

  // ---------------------------------------------------------------- whole calls and interrupts

  /** An interrupt serves exactly the sides that are ready and enabled, and the histories tell what it
      moved. */
  lemma IsrHandles(s: System, e: Event) returns (fates: seq<Fate>, got: seq<Byte>)
    requires Valid(s.u) && e.Isr?
    ensures Handled(s.u, Step(s, e).u, fates, got, e.updated, e.txReady, e.room, e.rxReady, e.answers)
    ensures Step(s, e) == s.(u := Step(s, e).u, log := s.log + fates, drained := s.drained + got)
  {
    CallbackHandles(s.u, e.updated, e.txReady, e.room, e.rxReady, e.answers);
    var (v, f, g) := Callback(s.u, e.updated, e.txReady, e.room, e.rxReady, e.answers);
    fates, got := f, g;
  }

  /** Bytes that all find room are all received: a ready and enabled receiver takes them in order, posts
      them to the queue and latches nothing. */
  lemma FittingBytesReceived(s: System, parts: seq<seq<Byte>>, txReady: bool, room: int)
    requires Valid(s.u) && s.u.setup.attached && s.u.rxIrq && |s.u.rxFifo| + |Concat(parts)| <= s.u.setup.rxCap
    requires forall i :: 0 <= i < |parts| ==> parts[i] != []
    ensures var t := Step(s, Isr(true, txReady, room, true, Answers(parts)));
      && t.u.rxFifo == s.u.rxFifo + Concat(parts) && t.drained == s.drained + Concat(parts)
      && t.u.rxErrors == s.u.rxErrors && t.u.rxDropped == s.u.rxDropped
  {
    var e := Isr(true, txReady, room, true, Answers(parts));
    var fates, got := IsrHandles(s, e);
    var v := Step(s, e).u;
    var w :| HandledVia(s.u, w, v, fates, got, true, txReady, room, true, Answers(parts));
    assert w.setup == s.u.setup && w.rxFifo == s.u.rxFifo;
    assert w.rxErrors == s.u.rxErrors && w.rxDropped == s.u.rxDropped;
    var k: nat :| ReceivedUpTo(w, v, got, Answers(parts), k);
    AllFit(w, v, got, parts, k);
  }

  lemma AllFit(w: Uart, v: Uart, got: seq<Byte>, parts: seq<seq<Byte>>, k: nat)
    requires ReceivedUpTo(w, v, got, Answers(parts), k) && |w.rxFifo| + |Concat(parts)| <= w.setup.rxCap
    requires forall i :: 0 <= i < |parts| ==> parts[i] != []
    ensures got == Concat(parts) && v.rxFifo == w.rxFifo + got
    ensures v.rxErrors == w.rxErrors && v.rxDropped == w.rxDropped
  {
    DataOfParts(parts, k);
    if k < |parts| {
      ConcatSnoc(parts, k);
      ConcatTake(parts, k + 1);
    }
    assert parts[..|parts|] == parts;
  }

  function Answers(parts: seq<seq<Byte>>): (answers: seq<RxAnswer>)
    ensures |answers| == |parts| && forall i :: 0 <= i < |parts| ==> answers[i] == Got(parts[i])
  {
    seq(|parts|, i requires 0 <= i < |parts| => Got(parts[i]))
  }

  lemma {:induction false} DataOfParts(parts: seq<seq<Byte>>, k: nat)
    requires k <= |parts| && forall i :: 0 <= i < |parts| ==> parts[i] != []
    ensures AllData(Answers(parts), k) && Data(Answers(parts), k) == Concat(parts[..k])
    decreases k
  {
    if k > 0 {
      DataOfParts(parts, k - 1);
      ConcatSnoc(parts, k - 1);
    }
  }

  /** A read with nothing in between. */
  lemma ReadUninterrupted(s: System, n: nat)
    requires Valid(s.u) && s.pc.Idle?
    ensures Valid(Step(s, BeginRead(n)).u)
    ensures var t := Step(Step(s, BeginRead(n)), PopRead);
      && t == s.(u := s.u.(rxFifo := t.u.rxFifo), delivered := t.delivered)
      && t.delivered + t.u.rxFifo == s.delivered + s.u.rxFifo
      && |t.delivered| == |s.delivered| + (if RxCheck(s.u).None? then Min(n, |s.u.rxFifo|) else 0)
  {
    assert s.delivered + Front(s.u.rxFifo, n) + Rest(s.u.rxFifo, n) == s.delivered + s.u.rxFifo;
  }

  /** A write with nothing in between. */
  lemma WriteUninterrupted(s: System, buf: seq<Byte>)
    requires Valid(s.u) && s.pc.Idle? && TxCheck(s.u).None?
    ensures var a := Step(s, BeginWrite(buf)); Valid(a.u) && Valid(Step(a, PushWrite).u)
    ensures var t := Step(Step(Step(s, BeginWrite(buf)), PushWrite), ArmWrite);
      var n := Min(|buf|, s.u.setup.txCap - |s.u.txFifo|);
      t == s.(u := s.u.(txFifo := s.u.txFifo + buf[..n], txIrq := s.u.txIrq || n > 0),
              accepted := s.accepted + buf[..n])
  {}

  /** An enable with nothing in between. */
  lemma EnableUninterrupted(s: System, on: bool)
    requires Valid(s.u) && s.pc.Idle?
    ensures var a := Step(s, BeginEnable(on)); Valid(a.u) && Valid(Step(a, ClearState).u)
    ensures var t := Step(Step(Step(s, BeginEnable(on)), ClearState), FinishEnable);
      t == System(Uart(s.u.setup, on, false, on, [], [], 0, 0, 0, 0), Idle, [], [], [], [])
  {}

  // ---------------------------------------------------------------- receive side

  /** The stream `x` has exactly the queue, latch and history of the driver's receive side.  The
      sticky latch is never reported. */
  ghost predicate Mirrors(x: LatchedStream.Stream, s: System) {
    && x.cap == s.u.setup.rxCap && x.fifo == s.u.rxFifo
    && x.received == s.drained && x.delivered == s.delivered
    && x.latched == RxLatched(s.u) && x.checked == s.pc.ReadChecked? && x.reports == 0
  }

  /** The ISR's receive loop as a stream: arrivals, possibly ended by a fault. */
  function Drain(x: LatchedStream.Stream, answers: seq<RxAnswer>): LatchedStream.Stream
    requires |x.fifo| <= x.cap
    decreases |answers|
  {
    if answers == [] || answers[0] == Got([]) then x
    else if answers[0].ReadError? then LatchedStream.Fault(x)
    else
      var y := LatchedStream.Arrive(x, answers[0].bytes);
      if Room(x.fifo, x.cap, answers[0].bytes) < |answers[0].bytes| then y else Drain(y, answers[1..])
  }

  lemma {:induction false} DrainInv(x: LatchedStream.Stream, answers: seq<RxAnswer>)
    requires LatchedStream.Inv(x)
    ensures LatchedStream.Inv(Drain(x, answers))
    decreases |answers|
  {
    LatchedStream.ReaderInv(x);
    if answers != [] && answers[0].Got? {
      LatchedStream.ArriveInv(x, answers[0].bytes);
      DrainInv(LatchedStream.Arrive(x, answers[0].bytes), answers[1..]);
    }
  }

  lemma {:induction false} DrainMirrors(x: LatchedStream.Stream, s: System, answers: seq<RxAnswer>)
    requires Valid(s.u) && Mirrors(x, s)
    ensures var (v, got) := Rx(s.u, answers); Mirrors(Drain(x, answers), s.(u := v, drained := s.drained + got))
    decreases |answers|
  {
    assert s.drained + [] == s.drained;
    if answers != [] && answers[0].Got? && answers[0].bytes != [] {
      var bs := answers[0].bytes;
      var v := s.u.(rxFifo := Push(s.u.rxFifo, s.u.setup.rxCap, bs));
      if Room(s.u.rxFifo, s.u.setup.rxCap, bs) == |bs| {
        DrainMirrors(LatchedStream.Arrive(x, bs), s.(u := v, drained := s.drained + bs), answers[1..]);
        assert s.drained + bs + Rx(v, answers[1..]).1 == s.drained + (bs + Rx(v, answers[1..]).1);
      }
    }
  }

  lemma IsrMirrors(x: LatchedStream.Stream, s: System, e: Event) returns (y: LatchedStream.Stream)
    requires Valid(s.u) && Mirrors(x, s) && LatchedStream.Inv(x) && e.Isr?
    ensures Mirrors(y, Step(s, e)) && LatchedStream.Inv(y)
  {
    y := x;
    assert s.drained + [] == s.drained;
    if s.u.setup.attached && e.updated {
      var v := if e.txReady && s.u.txIrq then Tx(s.u, e.room).0 else s.u;
      TxValid(s.u, e.room);
      TxFrame(s.u, e.room);
      assert Mirrors(x, s.(u := v));
      if e.rxReady && v.rxIrq {
        DrainInv(x, e.answers);
        DrainMirrors(x, s.(u := v), e.answers);
        y := Drain(x, e.answers);
      }
    }
  }

  lemma StepMirrors(x: LatchedStream.Stream, s: System, e: Event) returns (y: LatchedStream.Stream)
    requires Valid(s.u) && Mirrors(x, s) && LatchedStream.Inv(x)
    ensures Mirrors(y, Step(s, e)) && LatchedStream.Inv(y)
  {
    y := x;
    if e.Isr? {
      y := IsrMirrors(x, s, e);
    } else if e.BeginRead? && s.pc.Idle? && RxCheck(s.u).None? {
      LatchedStream.ReaderInv(x);
      y := LatchedStream.Check(x);
    } else if e.PopRead? && s.pc.ReadChecked? {
      LatchedStream.PopInv(x, s.pc.n);
      y := LatchedStream.Pop(x, s.pc.n);
    } else if e.ClearState? && s.pc.EnableQuiet? {
      LatchedStream.FreshInv(s.u.setup.rxCap);
      y := LatchedStream.Fresh(s.u.setup.rxCap);
    }
  }

  lemma {:induction false} RunMirrors(x: LatchedStream.Stream, s: System, es: seq<Event>)
    returns (y: LatchedStream.Stream)
    requires Valid(s.u) && Mirrors(x, s) && LatchedStream.Inv(x)
    ensures Mirrors(y, Run(s, es)) && LatchedStream.Inv(y)
    decreases |es|
  {
    y := x;
    if es != [] {
      y := StepMirrors(x, s, es[0]);
      StepValid(s, es[0]);
      y := RunMirrors(y, Step(s, es[0]), es[1..]);
    }
  }

  /** Stream integrity on receive: whatever the interleaving, the bytes returned since `enable`
      are a prefix of the bytes the ISR took from the UART; and as long as nothing is latched
      no byte is missing: the rest of them is still queued. */
  lemma RxIntegrity(rxCap: nat, txCap: nat, es: seq<Event>)
    ensures var r := Run(Init(rxCap, txCap), es);
      && r.delivered <= r.drained
      && (!RxLatched(r.u) ==> r.delivered + r.u.rxFifo == r.drained)
      && (r.pc.ReadChecked? ==> r.delivered + r.u.rxFifo <= r.drained)
  {
    LatchedStream.FreshInv(rxCap);
    var x := RunMirrors(LatchedStream.Fresh(rxCap), Init(rxCap, txCap), es);
    if !x.latched {
      SubseqLength(x.delivered + x.fifo, x.received);
    }
  }

  /** With nothing latched, one read of at least the queue's length delivers everything that the ISR
      took from the UART since `enable`. */
  lemma ReadCatchesUp(rxCap: nat, txCap: nat, es: seq<Event>, n: nat)
    requires var r := Run(Init(rxCap, txCap), es); r.pc.Idle? && RxCheck(r.u).None? && n >= |r.u.rxFifo|
    ensures var r := Run(Init(rxCap, txCap), es);
      Valid(Step(r, BeginRead(n)).u) && Step(Step(r, BeginRead(n)), PopRead).delivered == r.drained
  {
    var r := Run(Init(rxCap, txCap), es);
    RxIntegrity(rxCap, txCap, es);
    ReadUninterrupted(r, n);
    assert Front(r.u.rxFifo, n) == r.u.rxFifo;
  }

  // ---------------------------------------------------------------- transmit side

  function Values(log: seq<Fate>): (r: seq<Byte>)
    ensures |r| == |log|
  {
    seq(|log|, i requires 0 <= i < |log| => log[i].value)
  }

  /** The bytes that reached the wire, in order. */
  function Wire(log: seq<Fate>): seq<Byte> {
    if log == [] then []
    else if log[|log| - 1].sent then Wire(log[..|log| - 1]) + [log[|log| - 1].value]
    else Wire(log[..|log| - 1])
  }

  predicate Lossy(log: seq<Fate>) { exists i :: 0 <= i < |log| && !log[i].sent }

  /** Nothing was sent after a loss. */
  predicate GapFree(log: seq<Fate>) {
    forall i, j :: 0 <= i < j < |log| && log[j].sent ==> log[i].sent
  }

  lemma {:induction false} WireIsSubsequence(log: seq<Fate>)
    ensures Subseq(Wire(log), Values(log))
    ensures !Lossy(log) ==> Wire(log) == Values(log)
    ensures GapFree(log) ==> Wire(log) <= Values(log)
  {
    if log != [] {
      var front, last := log[..|log| - 1], log[|log| - 1];
      WireIsSubsequence(front);
      assert Values(log) == Values(front) + [last.value];
      assert Lossy(front) ==> Lossy(log);
      if last.sent {
        SubseqKeep(Wire(front), Values(front), [last.value]);
        if GapFree(log) {
          assert forall i :: 0 <= i < |front| ==> log[i].sent;
        }
      } else {
        SubseqSkip(Wire(front), Values(front), [last.value]);
      }
    }
  }

  /** Conservation on transmit, and the armed bit: outside the middle of a write or an enable, a
      queue that still holds bytes and has no latched error has its interrupt armed. */
  ghost predicate TxInv(s: System) {
    && Valid(s.u)
    && s.accepted == Values(s.log) + s.u.txFifo
    && (Lossy(s.log) <==> TxLatched(s.u))
    && (s.pc.EnableQuiet? ==> !s.u.txIrq)
    && (s.pc.EnableCleared? ==> s.u.txFifo == [] && !TxLatched(s.u) && !s.u.txIrq)
    && ((s.u.txFifo != [] && !TxLatched(s.u) && !s.pc.EnableQuiet?) ==>
          s.u.txIrq || (s.pc.WritePushed? && s.pc.n > 0))
  }

  /** How many bytes of the chunk the hardware takes. */
  function Taken(u: Uart, room: int): nat { if room < 0 then 0 else Min(room, |Front(u.txFifo, TX_CHUNK)|) }

  lemma FatesAre(u: Uart, room: int)
    requires Valid(u)
    ensures var chunk := Front(u.txFifo, TX_CHUNK); var fates := Tx(u, room).1;
      |fates| == |chunk| && forall i :: 0 <= i < |chunk| ==> fates[i] == Fate(chunk[i], i < Taken(u, room))
  {}

  /** The fates of one serviced chunk: it leaves the queue whole, the sent bytes come first, and
      something is lost exactly when an error becomes latched and the interrupt is disabled. */
  lemma ChunkFates(u: Uart, room: int)
    requires Valid(u)
    ensures var (v, fates) := Tx(u, room);
      && Values(fates) + v.txFifo == u.txFifo
      && GapFree(fates)
      && (Lossy(fates) ==> TxLatched(v) && !v.txIrq)
      && (!Lossy(fates) ==> TxLatched(v) == TxLatched(u))
      && (v.txFifo != [] && !Lossy(fates) ==> v.txIrq == u.txIrq)
      && v == u.(txFifo := v.txFifo, txIrq := v.txIrq, txErrors := v.txErrors, txDropped := v.txDropped)
  {
    TxFrame(u, room);
    FatesAre(u, room);
    var chunk := Front(u.txFifo, TX_CHUNK);
    var (v, fates) := Tx(u, room);
    var n := Taken(u, room);
    assert Values(fates) == chunk;
    if n < |chunk| {
      assert !fates[n].sent;
    }
  }

  lemma LogAppend(a: seq<Fate>, b: seq<Fate>)
    ensures Values(a + b) == Values(a) + Values(b)
    ensures Lossy(a + b) <==> Lossy(a) || Lossy(b)
    ensures !Lossy(a) && GapFree(b) ==> GapFree(a + b)
  {
    if Lossy(a) {
      var i :| 0 <= i < |a| && !a[i].sent;
      assert !(a + b)[i].sent;
    }
    if Lossy(b) {
      var i :| 0 <= i < |b| && !b[i].sent;
      assert !(a + b)[|a| + i].sent;
    }
  }

  lemma TxServiceInv(s: System, room: int)
    requires TxInv(s) && s.u.txIrq
    ensures var (v, fates) := Tx(s.u, room); TxInv(s.(u := v, log := s.log + fates))
  {
    var (v, fates) := Tx(s.u, room);
    TxValid(s.u, room);
    ChunkFates(s.u, room);
    LogAppend(s.log, fates);
    assert Values(s.log) + Values(fates) + v.txFifo == Values(s.log) + (Values(fates) + v.txFifo);
  }

  lemma StepTxInv(s: System, e: Event)
    requires TxInv(s)
    ensures TxInv(Step(s, e))
  {
    StepValid(s, e);
    match e {
      case Isr(updated, txReady, room, rxReady, answers) =>
        assert s.log + [] == s.log;
        if s.u.setup.attached && updated {
          var fire := txReady && s.u.txIrq;
          if fire { TxServiceInv(s, room); }
          var v := if fire then Tx(s.u, room).0 else s.u;
          TxValid(s.u, room);
          RxValid(v, answers);
        }
      case PushWrite =>
        if s.pc.WriteChecked? {
          var n := Room(s.u.txFifo, s.u.setup.txCap, s.pc.buf);
          assert Values(s.log) + (s.u.txFifo + s.pc.buf[..n]) == Values(s.log) + s.u.txFifo + s.pc.buf[..n];
        }
      case _ =>
    }
  }

  lemma {:induction false} RunTxInv(s: System, es: seq<Event>)
    requires TxInv(s)
    ensures TxInv(Run(s, es))
    decreases |es|
  {
    if es != [] {
      StepTxInv(s, es[0]);
      RunTxInv(Step(s, es[0]), es[1..]);
    }
  }

  /** Order and conservation on transmit under every interleaving, and no stuck bytes. */
  lemma TxConservation(rxCap: nat, txCap: nat, es: seq<Event>)
    ensures var r := Run(Init(rxCap, txCap), es);
      && r.accepted == Values(r.log) + r.u.txFifo
      && Subseq(Wire(r.log), r.accepted)
      && ((r.u.txFifo != [] && !TxLatched(r.u) && (r.pc.Idle? || r.pc.ReadChecked? || r.pc.WriteChecked?)) ==>
            r.u.txIrq)
      && (!TxLatched(r.u) ==> Wire(r.log) + r.u.txFifo == r.accepted)
  {
    RunTxInv(Init(rxCap, txCap), es);
    var r := Run(Init(rxCap, txCap), es);
    WireIsSubsequence(r.log);
    SubseqSkip(Wire(r.log), Values(r.log), r.u.txFifo);
  }

  // ----- when the wire carries a prefix -----

  /** No ISR runs between the check and the arming of a write. */
  ghost predicate WritesAtomic(s: System, es: seq<Event>)
    requires Valid(s.u)
    decreases |es|
  {
    es == [] ||
    (StepValid(s, es[0]);
     && (es[0].Isr? ==> !s.pc.WriteChecked? && !s.pc.WritePushed?)
     && WritesAtomic(Step(s, es[0]), es[1..]))
  }

  ghost predicate AtomicInv(s: System) {
    && TxInv(s)
    && GapFree(s.log)
    && (TxLatched(s.u) ==> !s.u.txIrq && !s.pc.WriteChecked? && !s.pc.WritePushed?)
  }

  lemma {:induction false} RunAtomicInv(s: System, es: seq<Event>)
    requires AtomicInv(s) && WritesAtomic(s, es)
    ensures AtomicInv(Run(s, es))
    decreases |es|
  {
    if es != [] {
      var e := es[0];
      StepTxInv(s, e);
      if e.Isr? {
        assert s.log + [] == s.log;
        ChunkFates(s.u, e.room);
        LogAppend(s.log, Tx(s.u, e.room).1);
        TxValid(s.u, e.room);
        RxValid(if e.txReady && s.u.txIrq then Tx(s.u, e.room).0 else s.u, e.answers);
      }
      RunAtomicInv(Step(s, e), es[1..]);
    }
  }

  /** With writes atomic towards the ISR the wire carries a prefix of what was accepted, and a
      driver with a latched error has stopped transmitting. */
  lemma AtomicWritesGivePrefix(rxCap: nat, txCap: nat, es: seq<Event>)
    requires WritesAtomic(Init(rxCap, txCap), es)
    ensures var r := Run(Init(rxCap, txCap), es);
      && Wire(r.log) <= r.accepted
      && (TxLatched(r.u) ==> !r.u.txIrq)
  {
    RunAtomicInv(Init(rxCap, txCap), es);
    WireIsSubsequence(Run(Init(rxCap, txCap), es).log);
  }

  // ----- the exact condition -----

  /** The ISR serves a queue that holds bytes, with room, while an error is latched. */
  predicate Resumes(s: System, e: Event) {
    && e.Isr? && s.u.setup.attached && e.updated && e.txReady && e.room > 0
    && s.u.txIrq && s.u.txFifo != [] && TxLatched(s.u)
  }

  predicate Clears(s: System, e: Event) { e.ClearState? && s.pc.EnableQuiet? }

  /** Such a step happened since the state was last cleared; `before`: it had happened already. */
  ghost predicate Resumed(s: System, es: seq<Event>, before: bool)
    requires Valid(s.u)
    decreases |es|
  {
    if es == [] then before
    else
      StepValid(s, es[0]);
      Resumed(Step(s, es[0]), es[1..], !Clears(s, es[0]) && (before || Resumes(s, es[0])))
  }

  /** Behind a loss the log stays free of gaps exactly as long as nothing is sent. */
  lemma GapBehindLoss(a: seq<Fate>, b: seq<Fate>)
    requires Lossy(a)
    ensures GapFree(a + b) <==> GapFree(a) && forall i :: 0 <= i < |b| ==> !b[i].sent
  {
    var k :| 0 <= k < |a| && !a[k].sent;
    var c := a + b;
    if GapFree(c) {
      assert forall i :: 0 <= i < |a| ==> c[i] == a[i];
      assert forall i :: 0 <= i < |b| ==> c[|a| + i] == b[i];
    }
  }

  lemma ServedFates(u: Uart, room: int)
    requires Valid(u)
    ensures (exists i :: 0 <= i < |Tx(u, room).1| && Tx(u, room).1[i].sent) <==> u.txFifo != [] && room > 0
  {
    FatesAre(u, room);
    var chunk := Front(u.txFifo, TX_CHUNK);
    if u.txFifo != [] && room > 0 {
      assert Tx(u, room).1[0] == Fate(chunk[0], true);
    }
  }

  lemma ServiceGap(s: System, room: int)
    requires TxInv(s)
    ensures GapFree(s.log + Tx(s.u, room).1)
       <==> GapFree(s.log) && !(TxLatched(s.u) && s.u.txFifo != [] && room > 0)
  {
    ChunkFates(s.u, room);
    ServedFates(s.u, room);
    if Lossy(s.log) {
      GapBehindLoss(s.log, Tx(s.u, room).1);
    } else {
      LogAppend(s.log, Tx(s.u, room).1);
    }
  }

  lemma StepGap(s: System, e: Event)
    requires TxInv(s)
    ensures GapFree(Step(s, e).log) <==> Clears(s, e) || (GapFree(s.log) && !Resumes(s, e))
  {
    if e.Isr? {
      assert s.log + [] == s.log;
      ServiceGap(s, e.room);
    }
  }

  lemma {:induction false} RunGap(s: System, es: seq<Event>)
    requires TxInv(s)
    ensures GapFree(Run(s, es).log) <==> !Resumed(s, es, !GapFree(s.log))
    decreases |es|
  {
    if es != [] {
      StepGap(s, es[0]);
      StepTxInv(s, es[0]);
      RunGap(Step(s, es[0]), es[1..]);
    }
  }

  /** Under every interleaving nothing is sent past a loss exactly when, since the state was last
      cleared, no ISR with room served a non-empty queue while an error was latched; the wire then
      carries a prefix of the accepted bytes. */
  lemma GapFreeIff(rxCap: nat, txCap: nat, es: seq<Event>)
    ensures var r := Run(Init(rxCap, txCap), es); var resumed := Resumed(Init(rxCap, txCap), es, false);
      && (GapFree(r.log) <==> !resumed)
      && (!resumed ==> Wire(r.log) <= r.accepted)
  {
    RunGap(Init(rxCap, txCap), es);
    RunTxInv(Init(rxCap, txCap), es);
    WireIsSubsequence(Run(Init(rxCap, txCap), es).log);
  }

  /** An ISR inside a write can lose bytes after the check; the write then re-arms the
      transmitter.  The next ISR with room sends past the gap exactly when the write accepted a
      byte and the queue still holds one. */
  lemma RearmSendsPastGap(s: System, room: nat)
    requires TxInv(s) && TxLatched(s.u) && !s.u.txIrq && s.u.setup.attached && s.pc.WritePushed? && room > 0
    ensures var r := Step(Step(s, ArmWrite), Isr(true, true, room, false, []));
      GapFree(s.log) ==> (GapFree(r.log) <==> s.pc.n == 0 || s.u.txFifo == [])
  {
    var t := Step(s, ArmWrite);
    if s.pc.n > 0 && s.u.txFifo != [] {
      var (v, fates) := Tx(t.u, room);
      var i :| 0 <= i < |s.log| && !s.log[i].sent;
      assert !(s.log + fates)[i].sent && fates[0].sent && (s.log + fates)[|s.log|].sent;
    } else {
      assert s.log + [] == s.log;
    }
  }

  ghost predicate Reaches(x: System, y: System)
    requires Valid(x.u)
  {
    exists es :: Run(x, es) == y
  }

  lemma {:induction false} RunSnoc(s: System, es: seq<Event>, e: Event)
    requires Valid(s.u)
    ensures Run(s, es + [e]) == Step(Run(s, es), e)
    decreases |es|
  {
    StepValid(s, if es == [] then e else es[0]);
    if es == [] {
      assert [] + [e] == [e] && [e][1..] == [];
    } else {
      assert (es + [e])[0] == es[0] && (es + [e])[1..] == es[1..] + [e];
      RunSnoc(Step(s, es[0]), es[1..], e);
    }
  }

  lemma Then(x: System, y: System, e: Event) returns (z: System)
    requires Valid(x.u) && Reaches(x, y) && Valid(y.u)
    ensures Reaches(x, z) && z == Step(y, e) && Valid(z.u)
  {
    StepValid(y, e);
    z := Step(y, e);
    var es :| Run(x, es) == y;
    RunSnoc(x, es, e);
  }

  /** A run that leaves a gap: the byte 7 is accepted, the ISR loses it inside the next write, and
      the byte 8 of that write still reaches the wire. */
  lemma NonAtomicWriteLeavesGap(rxCap: nat, txCap: nat) returns (s: System)
    requires txCap > 1
    ensures Reaches(Init(rxCap, txCap), s) && s.accepted == [7, 8] && Wire(s.log) == [8]
  {
    var x := Init(rxCap, txCap);
    s := EnabledIdle(rxCap, txCap);
    s := WriteOneByte(x, s, 7);
    s := Then(x, s, BeginWrite([8]));
    s := LoseInsideWrite(x, s);
    s := FinishWrite(x, s, 8);
    s := SendAfterLoss(x, s);
  }

  lemma EnabledIdle(rxCap: nat, txCap: nat) returns (s: System)
    ensures var x := Init(rxCap, txCap);
      Reaches(x, s) && s == System(SetEnabled(x.u, true), Idle, [], [], [], [])
  {
    var x := Init(rxCap, txCap);
    assert Run(x, []) == x;
    s := Then(x, x, BeginEnable(true));
    s := Then(x, s, ClearState);
    s := Then(x, s, FinishEnable);
  }

  lemma WriteOneByte(x: System, s: System, b: Byte) returns (t: System)
    requires Valid(x.u) && Reaches(x, s) && Valid(s.u) && s.pc.Idle? && TxCheck(s.u).None?
    requires s.u.txFifo == [] && s.u.setup.txCap > 1
    ensures Reaches(x, t) && Valid(t.u)
    ensures t == s.(u := s.u.(txFifo := [b], txIrq := true), accepted := s.accepted + [b])
  {
    t := Then(x, s, BeginWrite([b]));
    t := FinishWrite(x, t, b);
  }

  lemma FinishWrite(x: System, s: System, b: Byte) returns (t: System)
    requires Valid(x.u) && Reaches(x, s) && Valid(s.u) && s.pc == WriteChecked([b])
    requires s.u.txFifo == [] && s.u.setup.txCap > 1
    ensures Reaches(x, t) && Valid(t.u)
    ensures t == s.(u := s.u.(txFifo := [b], txIrq := true), accepted := s.accepted + [b], pc := Idle)
  {
    assert [b][..1] == [b] && s.u.txFifo + [b] == [b];
    t := Then(x, s, PushWrite);
    t := Then(x, t, ArmWrite);
  }

  lemma LoseInsideWrite(x: System, s: System) returns (t: System)
    requires Valid(x.u) && Reaches(x, s) && Valid(s.u)
    requires s.u.setup.attached && s.u.txIrq && s.u.txFifo == [7] && s.log == []
    ensures Reaches(x, t) && Valid(t.u)
    ensures t == s.(u := s.u.(txFifo := [], txIrq := false, txDropped := SatAdd(s.u.txDropped, 1)),
                    log := [Fate(7, false)])
  {
    assert Front(s.u.txFifo, TX_CHUNK) == [7] && Rest(s.u.txFifo, TX_CHUNK) == [];
    assert Fates([7][..0], true) + Fates([7][0..], false) == [Fate(7, false)];
    assert s.drained + [] == s.drained && s.log + [Fate(7, false)] == [Fate(7, false)];
    t := Then(x, s, Isr(true, true, 0, false, []));
  }

  lemma SendAfterLoss(x: System, s: System) returns (t: System)
    requires Valid(x.u) && Reaches(x, s) && Valid(s.u)
    requires s.u.setup.attached && s.u.txIrq && s.u.txFifo == [8] && s.log == [Fate(7, false)]
    ensures Reaches(x, t) && t.accepted == s.accepted && Wire(t.log) == [8]
  {
    assert Front(s.u.txFifo, TX_CHUNK) == [8] && Rest(s.u.txFifo, TX_CHUNK) == [];
    assert Fates([8][..1], true) + Fates([8][1..], false) == [Fate(8, true)];
    t := Then(x, s, Isr(true, true, 1, false, []));
    assert t.log == [Fate(7, false), Fate(8, true)];
    assert t.log[..1] == [Fate(7, false)] && t.log[..1][..0] == [];
    assert Wire(t.log[..1]) == [];
  }
}
