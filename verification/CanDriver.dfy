/** The CAN driver object and its receive side, updated in place as in the source. */
module CanReceive {
  import opened Bytes
  import opened CanSpec

  datatype Can = Can(
    ready: bool, started: bool, rxEnabled: bool,
    rxCap: nat, rxFifo: seq<Byte>,
    overflow: bool, dropped: int,
    state: BusState, rxErrors: int, txErrors: int, lastTxError: int, retries: int)

  ghost predicate Valid(c: Can) {
    && |c.rxFifo| <= c.rxCap
    && 0 <= c.dropped <= INT32_MAX && 0 <= c.rxErrors <= INT32_MAX && 0 <= c.txErrors <= INT32_MAX
  }

  /** The receive callback; bytes are ignored while receiving is disabled. */
  function OnFrame(c: Can, f: Frame): Can
    requires Valid(c)
  {
    var bs := Payload(f);
    var lost := |bs| - Room(c.rxFifo, c.rxCap, bs);
    if !c.rxEnabled || bs == [] then c
    else if lost > 0 then
      c.(rxFifo := Push(c.rxFifo, c.rxCap, bs), overflow := true, dropped := SatAdd(c.dropped, lost))
    else c.(rxFifo := Push(c.rxFifo, c.rxCap, bs))
  }

  function CountError(c: Can): Can
    requires Valid(c)
  {
    c.(rxErrors := SatAdd(c.rxErrors, 1))
  }

  /** What stands before the overflow check of `read`. */
  function Gate(c: Can): Option<Error> {
    if !c.ready || !c.started then Some(NotStarted)
    else if !Usable(c.state) then Some(BadState)
    else None
  }

  function TakeReport(c: Can): Can
    requires Valid(c)
  {
    CountError(c.(overflow := false))
  }

  function PopRx(c: Can, n: nat): Can { c.(rxFifo := Rest(c.rxFifo, n)) }

  function ClearRx(c: Can): Can { c.(rxFifo := [], overflow := false, dropped := 0, rxErrors := 0) }
}

module CanDriver {
  import opened Bytes
  import opened CanSpec
  import opened CanReceive
  import opened CanTransmit

  class CanBus {
    var ready: bool
    var started: bool
    var rxEnabled: bool
    var rxCap: nat
    var rxFifo: seq<Byte>
    var overflow: bool
    var dropped: int
    var state: BusState
    var rxErrors: int
    var txErrors: int
    var lastTxError: int
    var retries: int

    ghost function Abs(): Can
      reads this
    {
      Can(ready, started, rxEnabled, rxCap, rxFifo, overflow, dropped, state, rxErrors, txErrors, lastTxError, retries)
    }

    constructor ()
      ensures Abs() == Can(false, false, false, 0, [], false, 0, ErrorActive, 0, 0, 0, 0)
    {
      ready, started, rxEnabled, rxCap, rxFifo := false, false, false, 0, [];
      overflow, dropped, state := false, 0, ErrorActive;
      rxErrors, txErrors, lastTxError, retries := 0, 0, 0, 0;
    }

    /** `memory`: the receive buffer could be allocated. */
    method Configure(capacity: int, memory: bool) returns (err: Option<Error>)
      modifies this
      ensures err == if capacity < 1 then Some(BadArg) else if memory then None else Some(NoMemory)
      ensures Abs() == if err.Some? then old(Abs()).(retries := 5)
                       else old(Abs()).(retries := 5, rxCap := capacity, rxFifo := [])
    {
      retries := 5;
      if capacity < 1 { return Some(BadArg); }
      if !memory { return Some(NoMemory); }
      rxCap, rxFifo := capacity, [];
      return None;
    }

    method Enable(on: bool) returns (err: Option<Error>)
      requires Valid(Abs())
      modifies this
      ensures Valid(Abs())
      ensures err == if ready && started then None else Some(NotStarted)
      ensures Abs() == if err.Some? then CountError(old(Abs()))
                       else if on then ClearRx(old(Abs()).(rxEnabled := true))
                       else old(Abs()).(rxEnabled := false)
      ensures err.None? ==> rxEnabled == on
      ensures err.None? && on ==> rxFifo == [] && !overflow && dropped == 0 && rxErrors == 0
      ensures !on ==> rxFifo == old(rxFifo) && overflow == old(overflow) && dropped == old(dropped)
    {
      if !ready || !started {
        rxErrors := SatAdd(rxErrors, 1);
        return Some(NotStarted);
      }
      rxEnabled := on;
      if on {
        rxFifo := [];
        overflow := false;
        dropped := 0;
        rxErrors := 0;
      }
      return None;
    }

    /** `post` says that the reader's semaphore is posted. */
    method RxCallback(frame: Frame) returns (post: bool)
      requires Valid(Abs())
      modifies this
      ensures Valid(Abs())
      ensures Abs() == OnFrame(old(Abs()), frame)
      ensures post <==> rxEnabled && frame.dlc > 0 && frame.data != []
      ensures var bs := if rxEnabled then frame.data[..Min(Min(frame.dlc, 8), |frame.data|)] else [];
              var fits := Min(|bs|, rxCap - |old(rxFifo)|);
        && rxFifo == old(rxFifo) + bs[..fits]
        && overflow == (old(overflow) || fits < |bs|)
        && dropped == Min(old(dropped) + (|bs| - fits), INT32_MAX)
    {
      PayloadLength(frame);
      var len := DlcToBytes(frame.dlc);
      if len > FRAME_BYTES {
        len := FRAME_BYTES;
      }
      var bytes := frame.data[..Min(len, |frame.data|)];
      post := rxEnabled && |bytes| > 0;
      if post {
        var written := Room(rxFifo, rxCap, bytes);
        rxFifo := Push(rxFifo, rxCap, bytes);
        if |bytes| - written > 0 {
          overflow := true;
          dropped := SatAdd(dropped, |bytes| - written);
        }
      }
    }

    method TxCallback(error: int)
      requires Valid(Abs())
      modifies this
      ensures lastTxError == error
      ensures txErrors == if error == 0 || old(txErrors) == INT32_MAX then old(txErrors) else old(txErrors) + 1
      ensures Abs() == old(Abs()).(lastTxError := error,
                                   txErrors := if error != 0 then SatAdd(old(txErrors), 1) else old(txErrors))
    {
      if error != 0 {
        txErrors := SatAdd(txErrors, 1);
      }
      lastTxError := error;
    }

    method Read(n: nat) returns (err: Option<Error>, bytes: seq<Byte>)
      requires Valid(Abs())
      modifies this
      ensures Valid(Abs())
      ensures err == if Gate(old(Abs())).Some? then Gate(old(Abs()))
                     else if old(overflow) then Some(Overflow) else None
      ensures err == Some(NotStarted) <==> !ready || !started
      ensures err == Some(BadState) <==>
                ready && started && (state.ErrorWarning? || state.BusOff? || state.Stopped?)
      ensures err == Some(Overflow) <==>
                ready && started && (state.ErrorActive? || state.ErrorPassive?) && old(overflow)
      ensures bytes + rxFifo == old(rxFifo) && |bytes| == if err.None? then Min(n, |old(rxFifo)|) else 0
      ensures overflow == (old(overflow) && err != Some(Overflow))
      ensures rxErrors == if err.None? || old(rxErrors) == INT32_MAX then old(rxErrors) else old(rxErrors) + 1
      ensures dropped == old(dropped)
      ensures Abs() == if err == Some(Overflow) then TakeReport(old(Abs()))
                       else if err.Some? then CountError(old(Abs()))
                       else PopRx(old(Abs()), n)
    {
      bytes := [];
      if !ready || !started {
        rxErrors := SatAdd(rxErrors, 1);
        return Some(NotStarted), [];
      }
      if !Usable(state) {
        rxErrors := SatAdd(rxErrors, 1);
        return Some(BadState), [];
      }
      if overflow {
        overflow := false;
        rxErrors := SatAdd(rxErrors, 1);
        return Some(Overflow), [];
      }
      err := None;
      bytes := Front(rxFifo, n);
      rxFifo := Rest(rxFifo, n);
    }

    /** The retry loop for one frame.  `env(k)` is what the k-th attempt of the whole write meets;
        interrupts overwrite the bus state and the last transmit error between attempts. */
    method RetryLoop(env: nat -> Attempt, first: nat) returns (outcome: Outcome, next: nat)
      requires Valid(Abs())
      modifies this`state, this`lastTxError, this`rxErrors
      ensures Valid(Abs())
      ensures (outcome, next) == SendChunk(env, first, retries, 0)
      ensures rxErrors == if outcome == Failed(BadState) then SatAdd(old(rxErrors), 1) else old(rxErrors)
      ensures next > first ==> lastTxError == env(next - 1).txError
    {
      next := first;
      var ret := 0;
      var attempt := 0;
      while attempt < retries
        invariant rxErrors == old(rxErrors) && next >= first
        invariant SendChunk(env, first, retries, 0) == SendChunk(env, next, retries - attempt, ret)
        invariant next > first ==> lastTxError == env(next - 1).txError
      {
        state := env(next).state;
        if !Usable(state) {
          rxErrors := SatAdd(rxErrors, 1);
          return Failed(BadState), next;
        }
        ret := env(next).ret;
        lastTxError := env(next).txError;
        next := next + 1;
        if ret == 0 {
          return Queued, next;
        }
        if lastTxError != 0 {
          return Failed(TxFailed), next;
        }
        if ret != EAGAIN && ret < 0 {
          return Failed(SendFailed), next;
        }
        attempt := attempt + 1;
      }
      if ret == EAGAIN {
        return Failed(Timeout), next;
      }
      return Skipped, next;
    }

    /** One frame.  With retries allowed its end is told by the attempts alone. */
    method SendFrame(env: nat -> Attempt, first: nat) returns (outcome: Outcome, next: nat)
      requires Valid(Abs())
      modifies this`state, this`lastTxError, this`rxErrors
      ensures Valid(Abs())
      ensures (outcome, next) == SendChunk(env, first, retries, 0)
      ensures SendContract(env) && retries > 0 ==> ChunkEnds(env, first, retries, outcome, next)
      ensures rxErrors == if outcome == Failed(BadState) then SatAdd(old(rxErrors), 1) else old(rxErrors)
      ensures next > first ==> lastTxError == env(next - 1).txError
    {
      outcome, next := RetryLoop(env, first);
      if SendContract(env) && retries > 0 { ChunkDecided(env, first, retries); }
    }

    /** One turn of the chunk loop. */
    method SendNext(buf: seq<Byte>, total: nat, env: nat -> Attempt, first: nat, queued: seq<Frame>, ghost all: Sending)
      returns (outcome: Outcome, next: nat, sent: nat, frames: seq<Frame>)
      requires Valid(Abs()) && total < |buf| && Progress(all, env, first, retries, buf, total, queued)
      modifies this`state, this`lastTxError, this`rxErrors
      ensures Valid(Abs())
      ensures rxErrors == if outcome == Failed(BadState) then SatAdd(old(rxErrors), 1) else old(rxErrors)
      ensures outcome.Failed? ==> frames == queued && all.error == Some(outcome.error) && all.frames == queued
      ensures !outcome.Failed? ==> total < sent <= |buf| && Progress(all, env, next, retries, buf, sent, frames)
    {
      var len := |buf| - total;
      if len > 8 {
        len := 8;
      }
      ProgressStep(all, env, first, retries, buf, total, queued);
      outcome, next := SendFrame(env, first);
      sent := total + len;
      frames := queued;
      if outcome.Queued? {
        frames := frames + [FrameOf(buf[total..total + len])];
      }
    }

    /** The chunk loop of a started device. */
    method SendBuffer(buf: seq<Byte>, env: nat -> Attempt)
      returns (err: Option<Error>, written: nat, queued: seq<Frame>)
      requires Valid(Abs())
      modifies this`state, this`lastTxError, this`rxErrors
      ensures Valid(Abs())
      ensures var s := CanSpec.Write(env, retries, buf);
        err == s.error && written == s.written && queued == s.frames
      ensures rxErrors == if err == Some(BadState) then SatAdd(old(rxErrors), 1) else old(rxErrors)
    {
      queued := [];
      var total: nat := 0;
      var next: nat := 0;
      ghost var all := SendAll(env, 0, retries, Chunks(buf));
      Begun(all, env, retries, buf);
      while total < |buf|
        invariant total <= |buf| && rxErrors == old(rxErrors)
        invariant Progress(all, env, next, retries, buf, total, queued)
      {
        var outcome;
        outcome, next, total, queued := SendNext(buf, total, env, next, queued, all);
        if outcome.Failed? {
          return Some(outcome.error), 0, queued;
        }
      }
      Finished(all, env, next, retries, buf, queued);
      return None, total, queued;
    }

    method Write(buf: seq<Byte>, env: nat -> Attempt)
      returns (err: Option<Error>, written: nat, queued: seq<Frame>)
      requires Valid(Abs())
      modifies this`state, this`lastTxError, this`rxErrors
      ensures Valid(Abs())
      ensures !ready || !started ==>
                err == Some(NotStarted) && written == 0 && queued == [] && Abs() == CountError(old(Abs()))
      ensures ready && started ==>
                && err == CanSpec.Write(env, retries, buf).error
                && written == CanSpec.Write(env, retries, buf).written
                && queued == CanSpec.Write(env, retries, buf).frames
                && rxErrors == if err == Some(BadState) then SatAdd(old(rxErrors), 1) else old(rxErrors)
    {
      if !ready || !started {
        rxErrors := SatAdd(rxErrors, 1);
        return Some(NotStarted), 0, [];
      }
      err, written, queued := SendBuffer(buf, env);
    }

    static lemma Begun(all: Sending, env: nat -> Attempt, retries: int, buf: seq<Byte>)
      requires all == SendAll(env, 0, retries, Chunks(buf))
      ensures Progress(all, env, 0, retries, buf, 0, [])
    {
      assert buf[0..] == buf && [] + all.frames == all.frames;
    }

    static lemma Finished(all: Sending, env: nat -> Attempt, next: nat, retries: int,
                          buf: seq<Byte>, queued: seq<Frame>)
      requires Progress(all, env, next, retries, buf, |buf|, queued)
      ensures all == Sending(None, queued, |buf|, next)
    {
      assert buf[|buf|..] == [] && queued + [] == queued;
    }

    /** `queued` and `total` are what the first chunks contributed to the whole sending `all`. */
    static ghost predicate Progress(all: Sending, env: nat -> Attempt, next: nat, retries: int,
                                    buf: seq<Byte>, total: nat, queued: seq<Frame>)
      requires total <= |buf|
    {
      var rest := SendAll(env, next, retries, Chunks(buf[total..]));
      all == Sending(rest.error, queued + rest.frames, total + rest.written, rest.attempts)
    }

    static lemma ProgressStep(all: Sending, env: nat -> Attempt, next: nat, retries: int,
                              buf: seq<Byte>, total: nat, queued: seq<Frame>)
      requires total < |buf| && Progress(all, env, next, retries, buf, total, queued)
      ensures var len := Min(|buf| - total, FRAME_BYTES);
              var (outcome, j) := SendChunk(env, next, retries, 0);
              if outcome.Failed? then all == Sending(Some(outcome.error), queued, total, j)
              else Progress(all, env, j, retries, buf, total + len,
                            if outcome.Queued? then queued + [FrameOf(buf[total..total + len])] else queued)
    {
      var len := Min(|buf| - total, FRAME_BYTES);
      var (outcome, j) := SendChunk(env, next, retries, 0);
      assert buf[total..][..len] == buf[total..total + len] && buf[total..][len..] == buf[total + len..];
      assert Chunks(buf[total..]) == [buf[total..total + len]] + Chunks(buf[total + len..]);
      var frame := FrameOf(buf[total..total + len]);
      var rest := SendAll(env, j, retries, Chunks(buf[total + len..]));
      assert queued + ([frame] + rest.frames) == queued + [frame] + rest.frames;
      assert queued + [] == queued && [] + rest.frames == rest.frames;
    }
  }
}
