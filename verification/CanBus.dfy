/** The CAN byte stream: `write` cuts a buffer into frames of up to eight bytes and retries each
    of them a bounded number of times; the receive callback feeds a bounded queue with a
    latched overflow. */
module CanSpec {
  import opened Bytes

  datatype BusState = ErrorActive | ErrorWarning | ErrorPassive | BusOff | Stopped

  datatype Error = BadArg | NoMemory | NotStarted | BadState | Overflow | TxFailed | SendFailed | Timeout

  const EAGAIN: int := -11
  const FRAME_BYTES: nat := 8

  type Chunk = c: seq<Byte> | |c| <= FRAME_BYTES

  /** `data` is the whole eight-byte data field; `dlc` says how much of it counts. */
  datatype Frame = Frame(dlc: nat, data: seq<Byte>)

  /** What one round of the retry loop meets: the bus state its check sees, the result of
      `can_send` and the last error left by the transmit callback. */
  datatype Attempt = Attempt(state: BusState, ret: int, txError: int)

  predicate Usable(state: BusState): (r: bool)
    ensures !r <==> state == ErrorWarning || state == BusOff || state == Stopped
  {
    state.ErrorActive? || state.ErrorPassive?
  }

  function DlcToBytes(dlc: nat): nat {
    if dlc <= 8 then dlc
    else if dlc == 9 then 12 else if dlc == 10 then 16 else if dlc == 11 then 20
    else if dlc == 12 then 24 else if dlc == 13 then 32 else if dlc == 14 then 48 else 64
  }

  function FrameOf(chunk: Chunk): Frame
  {
    Frame(|chunk|, chunk + seq(FRAME_BYTES - |chunk|, i => 0))
  }

  /** The bytes the receive callback takes from a frame. */
  function Payload(f: Frame): seq<Byte> {
    f.data[..Min(Min(DlcToBytes(f.dlc), FRAME_BYTES), |f.data|)]
  }

  /** Whatever the length code, at most eight bytes count, and exactly `dlc` of them up to eight. */
  lemma PayloadLength(f: Frame)
    ensures Payload(f) == f.data[..Min(Min(f.dlc, 8), |f.data|)]
  {}

  lemma PayloadOfFrame(chunk: Chunk)
    ensures Payload(FrameOf(chunk)) == chunk
  {}

  // ----- the transmit specification -----

  function Chunks(buf: seq<Byte>): seq<Chunk>
    decreases |buf|
  {
    if buf == [] then []
    else var n := Min(|buf|, FRAME_BYTES); [buf[..n]] + Chunks(buf[n..])
  }

  /** How the retry loop of one chunk ends: queued, failed, or given up without either. */
  datatype Outcome = Queued | Skipped | Failed(error: Error)

  /** `k` counts attempts, `left` the attempts still allowed, `last` is the latest result. */
  function SendChunk(env: nat -> Attempt, k: nat, left: int, last: int): (Outcome, nat)
    decreases left
  {
    if left <= 0 then (if last == EAGAIN then Failed(Timeout) else Skipped, k)
    else
      var a := env(k);
      if !Usable(a.state) then (Failed(BadState), k)
      else if a.ret == 0 then (Queued, k + 1)
      else if a.txError != 0 then (Failed(TxFailed), k + 1)
      else if a.ret < 0 && a.ret != EAGAIN then (Failed(SendFailed), k + 1)
      else SendChunk(env, k + 1, left - 1, a.ret)
  }

  datatype Sending = Sending(error: Option<Error>, frames: seq<Frame>, written: nat, attempts: nat)

  /** The chunk loop, starting at attempt `k`. */
  function SendAll(env: nat -> Attempt, k: nat, retries: int, chunks: seq<Chunk>): Sending
    decreases |chunks|
  {
    if chunks == [] then Sending(None, [], 0, k)
    else
      var (outcome, j) := SendChunk(env, k, retries, 0);
      if outcome.Failed? then Sending(Some(outcome.error), [], 0, j)
      else
        var rest := SendAll(env, j, retries, chunks[1..]);
        Sending(rest.error,
                (if outcome.Queued? then [FrameOf(chunks[0])] else []) + rest.frames,
                |chunks[0]| + rest.written,
                rest.attempts)
  }

  /** A whole `write` on a started device. */
  function Write(env: nat -> Attempt, retries: int, buf: seq<Byte>): Sending {
    var s := SendAll(env, 0, retries, Chunks(buf));
    if s.error.Some? then s.(written := 0) else s
  }
}

module CanTransmit {
  import opened Bytes
  import opened CanSpec

  lemma {:induction false} ChunksJoin(buf: seq<Byte>)
    ensures Concat(Chunks(buf)) == buf
    ensures forall i :: 0 <= i < |Chunks(buf)| - 1 ==> |Chunks(buf)[i]| == FRAME_BYTES
    decreases |buf|
  {
    if buf != [] {
      var n := Min(|buf|, FRAME_BYTES);
      ChunksJoin(buf[n..]);
      assert buf[..n] + buf[n..] == buf;
      assert Chunks(buf)[1..] == Chunks(buf[n..]);
      assert |buf| <= FRAME_BYTES ==> Chunks(buf[n..]) == [];
    }
  }

  /** Zephyr's contract of `can_send`: zero when the frame was queued, else negative. */
  ghost predicate SendContract(env: nat -> Attempt) { forall k :: env(k).ret <= 0 }

  /** The attempt `k` handed a frame to the bus. */
  predicate Accepted(a: Attempt) { Usable(a.state) && a.ret == 0 }

  function CountAccepted(env: nat -> Attempt, from: nat, to: nat): nat
    decreases to - from
  {
    if from >= to then 0 else (if Accepted(env(from)) then 1 else 0) + CountAccepted(env, from + 1, to)
  }

  lemma {:induction false} CountSplit(env: nat -> Attempt, a: nat, b: nat, c: nat)
    requires a <= b <= c
    ensures CountAccepted(env, a, c) == CountAccepted(env, a, b) + CountAccepted(env, b, c)
    decreases b - a
  {
    if a < b { CountSplit(env, a + 1, b, c); }
  }

  /** Every attempt found a usable bus that had no room. */
  ghost predicate AllBusy(env: nat -> Attempt, from: nat, to: nat) {
    forall i :: from <= i < to ==> Usable(env(i).state) && env(i).ret == EAGAIN && env(i).txError == 0
  }

  /** One chunk: the loop stays within its budget, ends at its first accepted attempt, and every
      way of failing is told by the attempt it ended on. */
  lemma {:induction false} ChunkOutcome(env: nat -> Attempt, k: nat, left: int, last: int)
    requires SendContract(env) && last <= 0 && (last == 0 ==> left > 0) && (last != 0 ==> last == EAGAIN)
    ensures var (outcome, j) := SendChunk(env, k, left, last);
      && k <= j && j - k <= (if left > 0 then left else 0)
      && !outcome.Skipped?
      && (outcome.Queued? <==> k < j && Accepted(env(j - 1)))
      && (outcome.Queued? ==> CountAccepted(env, k, j) == 1)
      && (!outcome.Queued? ==> CountAccepted(env, k, j) == 0)
      && (outcome == Failed(Timeout) ==> j - k == (if left > 0 then left else 0) && AllBusy(env, k, j))
      && (outcome == Failed(BadState) ==> !Usable(env(j).state))
      && (outcome == Failed(TxFailed) ==> k < j && env(j - 1).ret != 0 && env(j - 1).txError != 0)
      && (outcome == Failed(SendFailed) ==> k < j && env(j - 1).ret < 0 && env(j - 1).ret != EAGAIN)
    decreases left
  {
    if left > 0 {
      var a := env(k);
      if Usable(a.state) && a.ret == EAGAIN && a.txError == 0 {
        ChunkOutcome(env, k + 1, left - 1, a.ret);
        CountSplit(env, k, k + 1, SendChunk(env, k, left, last).1);
      } else if Usable(a.state) {
        assert CountAccepted(env, k + 1, k + 1) == 0;
      }
    }
  }

  // ----- what the retry loop does, told by the attempts alone -----

  /** The attempt ends the loop; otherwise it found a usable bus that had no room. */
  predicate Decides(a: Attempt) { !(Usable(a.state) && a.ret == EAGAIN && a.txError == 0) }

  /** What a deciding attempt makes of the chunk. */
  predicate DecidedAs(a: Attempt, outcome: Outcome) {
    && (outcome == Queued <==> Accepted(a))
    && (outcome == Failed(BadState) <==> a.state.ErrorWarning? || a.state.BusOff? || a.state.Stopped?)
    && (outcome == Failed(TxFailed) <==> Usable(a.state) && a.ret != 0 && a.txError != 0)
    && (outcome == Failed(SendFailed) <==> Usable(a.state) && a.ret != 0 && a.ret != EAGAIN && a.txError == 0)
  }

  /** Behind `m` busy attempts the loop makes one more as long as the budget lasts, and if that one
      decides, it decides alone. */
  lemma {:induction false} BusyThenDecided(env: nat -> Attempt, k: nat, m: nat, left: int, last: int)
    requires SendContract(env) && AllBusy(env, k, k + m) && m < left && Decides(env(k + m))
    ensures var (outcome, j) := SendChunk(env, k, left, last);
      && DecidedAs(env(k + m), outcome)
      && j == if Usable(env(k + m).state) then k + m + 1 else k + m
    decreases m
  {
    if m > 0 {
      assert !Decides(env(k));
      BusyThenDecided(env, k + 1, m - 1, left - 1, env(k).ret);
    }
  }

  /** With the whole budget busy the loop makes every attempt and times out. */
  lemma {:induction false} BusyThenTimeout(env: nat -> Attempt, k: nat, left: nat, last: int)
    requires SendContract(env) && AllBusy(env, k, k + left) && (left == 0 ==> last == EAGAIN)
    ensures SendChunk(env, k, left, last) == (Failed(Timeout), k + left)
    decreases left
  {
    if left > 0 {
      assert !Decides(env(k));
      BusyThenTimeout(env, k + 1, left - 1, env(k).ret);
    }
  }

  /** The number of busy attempts from `k` on, at most `left`. */
  function BusyRun(env: nat -> Attempt, k: nat, left: nat): (m: nat)
    ensures m <= left && AllBusy(env, k, k + m)
    ensures m < left ==> Decides(env(k + m))
    decreases left
  {
    if left == 0 || Decides(env(k)) then 0 else 1 + BusyRun(env, k + 1, left - 1)
  }

  /** How a chunk ends that began with attempt `k`: the loop goes on exactly as long as the bus is
      busy and the budget lasts; the attempt behind the busy ones decides, and a wholly busy budget
      is a timeout.  There is no other way. */
  ghost predicate ChunkEnds(env: nat -> Attempt, k: nat, retries: nat, outcome: Outcome, j: nat) {
    var m := BusyRun(env, k, retries);
    && (outcome == Failed(Timeout) <==> AllBusy(env, k, k + retries))
    && (m < retries ==> DecidedAs(env(k + m), outcome))
    && j == k + m + (if m < retries && Usable(env(k + m).state) then 1 else 0)
    && (outcome == Queued || outcome == Failed(BadState) || outcome == Failed(TxFailed)
        || outcome == Failed(SendFailed) || outcome == Failed(Timeout))
  }

  lemma NotAllBusy(env: nat -> Attempt, k: nat, m: nat, retries: nat)
    requires m < retries && Decides(env(k + m))
    ensures !AllBusy(env, k, k + retries)
  {}

  lemma ChunkDecided(env: nat -> Attempt, k: nat, retries: nat)
    requires SendContract(env) && retries > 0
    ensures var (outcome, j) := SendChunk(env, k, retries, 0); ChunkEnds(env, k, retries, outcome, j)
  {
    var m := BusyRun(env, k, retries);
    if m < retries {
      BusyThenDecided(env, k, m, retries, 0);
      NotAllBusy(env, k, m, retries);
    } else {
      BusyThenTimeout(env, k, retries, 0);
    }
  }

  function Frames(chunks: seq<Chunk>): (fs: seq<Frame>)
    ensures |fs| == |chunks|
  {
    seq(|chunks|, i requires 0 <= i < |chunks| => FrameOf(chunks[i]))
  }

  function TotalBytes(chunks: seq<Chunk>): nat { |Concat(chunks)| }

  /** With retries allowed no chunk is given up without an error. */
  lemma {:induction false} NeverSkipped(env: nat -> Attempt, k: nat, left: int, last: int)
    requires SendContract(env) && (if left <= 0 then last == EAGAIN else last <= 0)
    ensures !SendChunk(env, k, left, last).0.Skipped?
    decreases left
  {
    if left > 0 && Usable(env(k).state) && env(k).ret == EAGAIN && env(k).txError == 0 {
      NeverSkipped(env, k + 1, left - 1, env(k).ret);
    }
  }

  lemma FramesCons(chunks: seq<Chunk>)
    requires chunks != []
    ensures Frames(chunks) == [FrameOf(chunks[0])] + Frames(chunks[1..])
  {}

  /** The chunk loop queues the chunks in order, each once, and stops at the first failure. */
  lemma {:induction false} AllOutcome(env: nat -> Attempt, k: nat, retries: int, chunks: seq<Chunk>)
    requires SendContract(env) && retries > 0
    ensures var s := SendAll(env, k, retries, chunks);
      && s.frames <= Frames(chunks)
      && (s.error.None? <==> |s.frames| == |chunks|)
      && (s.error.None? ==> s.written == TotalBytes(chunks))
    decreases |chunks|
  {
    if chunks != [] {
      var (outcome, j) := SendChunk(env, k, retries, 0);
      NeverSkipped(env, k, retries, 0);
      FramesCons(chunks);
      if outcome.Queued? {
        AllOutcome(env, j, retries, chunks[1..]);
      }
    }
  }

  /** Each frame took one accepted attempt, and each chunk begun at most `retries` attempts. */
  lemma {:induction false} AllAttempts(env: nat -> Attempt, k: nat, retries: int, chunks: seq<Chunk>)
    requires SendContract(env) && retries > 0
    ensures var s := SendAll(env, k, retries, chunks);
      && k <= s.attempts && |s.frames| == CountAccepted(env, k, s.attempts)
      && s.attempts - k <= retries * (|s.frames| + (if s.error.None? then 0 else 1))
    decreases |chunks|
  {
    var s := SendAll(env, k, retries, chunks);
    if chunks != [] {
      var (outcome, j) := SendChunk(env, k, retries, 0);
      ChunkOutcome(env, k, retries, 0);
      if outcome.Queued? {
        AllAttempts(env, j, retries, chunks[1..]);
        CountSplit(env, k, j, s.attempts);
        var n := |SendAll(env, j, retries, chunks[1..]).frames| + (if s.error.None? then 0 else 1);
        assert retries * (n + 1) == retries * n + retries;
      }
    }
  }

  /** A chunk ended with this error and this many attempts made. */
  ghost predicate FailedAt(env: nat -> Attempt, k: nat, retries: nat, error: Error, attempts: nat) {
    SendChunk(env, k, retries, 0) == (Failed(error), attempts)
  }

  /** A failing sending fails with one of its chunks: the error is how that chunk ended, so by
      `ChunkDecided` it is told by the attempts alone. */
  lemma {:induction false} FailureCause(env: nat -> Attempt, k: nat, retries: nat, chunks: seq<Chunk>)
    requires SendContract(env) && retries > 0
    ensures var s := SendAll(env, k, retries, chunks);
      s.error.Some? ==> exists c :: k <= c && FailedAt(env, c, retries, s.error.value, s.attempts)
                                    && ChunkEnds(env, c, retries, Failed(s.error.value), s.attempts)
    decreases |chunks|
  {
    if chunks != [] {
      ChunkOutcome(env, k, retries, 0);
      ChunkDecided(env, k, retries);
      var (outcome, j) := SendChunk(env, k, retries, 0);
      if outcome.Queued? {
        FailureCause(env, j, retries, chunks[1..]);
      } else {
        assert FailedAt(env, k, retries, outcome.error, j);
      }
    }
  }

  /** `write` with its configured retry count: what was queued is the chunk-by-chunk beginning of
      the buffer; success means all of it, failure a proper part and no byte reported. */
  lemma WriteOutcome(env: nat -> Attempt, retries: int, buf: seq<Byte>)
    requires SendContract(env) && retries > 0
    ensures var s := Write(env, retries, buf); var chunks := Chunks(buf);
      && s.frames <= Frames(chunks)
      && (s.error.None? ==> s.frames == Frames(chunks) && s.written == |buf|)
      && (s.error.Some? ==> |s.frames| < |chunks| && s.written == 0)
  {
    var chunks := Chunks(buf);
    AllOutcome(env, 0, retries, chunks);
    ChunksJoin(buf);
  }

  /** No frame is queued twice by a retry: there are as many frames as accepted attempts; and the
      attempts stay within `retries` for each chunk begun. */
  lemma WriteAttempts(env: nat -> Attempt, retries: int, buf: seq<Byte>)
    requires SendContract(env) && retries > 0
    ensures var s := Write(env, retries, buf);
      && |s.frames| == CountAccepted(env, 0, s.attempts)
      && s.attempts <= retries * (|s.frames| + (if s.error.None? then 0 else 1))
  {
    AllAttempts(env, 0, retries, Chunks(buf));
  }

  lemma ChunkCount(buf: seq<Byte>)
    ensures |Chunks(buf)| <= 1 <==> |buf| <= FRAME_BYTES
  {
    if |buf| > FRAME_BYTES {
      assert Chunks(buf)[1..] == Chunks(buf[FRAME_BYTES..]) != [];
    } else if buf != [] {
      assert Chunks(buf[|buf|..]) == [];
    }
  }

  /** A bus that takes the first frame and goes off before the second. */
  function OffAfterFirst(k: nat): Attempt { Attempt(if k == 0 then ErrorActive else BusOff, 0, 0) }

  lemma OffAfterFirstLeavesFrame(retries: int, buf: seq<Byte>)
    requires retries > 0 && |buf| > FRAME_BYTES
    ensures SendContract(OffAfterFirst)
    ensures var s := Write(OffAfterFirst, retries, buf); s.error.Some? && s.frames != []
  {
    ChunkCount(buf);
    var chunks := Chunks(buf);
    assert SendChunk(OffAfterFirst, 0, retries, 0) == (Queued, 1);
    assert SendChunk(OffAfterFirst, 1, retries, 0) == (Failed(BadState), 1);
    assert SendAll(OffAfterFirst, 1, retries, chunks[1..]) == Sending(Some(BadState), [], 0, 1);
  }

  /** A failing write is sure to have left nothing on the bus exactly when its buffer fits a single
      frame. */
  lemma CleanFailureIff(retries: int, buf: seq<Byte>)
    requires retries > 0
    ensures (forall env :: SendContract(env) && Write(env, retries, buf).error.Some? ==>
                             Write(env, retries, buf).frames == [])
       <==> |buf| <= FRAME_BYTES
  {
    ChunkCount(buf);
    if |buf| <= FRAME_BYTES {
      forall env | SendContract(env) && Write(env, retries, buf).error.Some?
        ensures Write(env, retries, buf).frames == []
      {
        WriteOutcome(env, retries, buf);
      }
    } else {
      OffAfterFirstLeavesFrame(retries, buf);
    }
  }

  lemma {:induction false} NoRetriesQueuesNothing(env: nat -> Attempt, k: nat, retries: int, chunks: seq<Chunk>)
    requires retries <= 0
    ensures SendAll(env, k, retries, chunks) == Sending(None, [], TotalBytes(chunks), k)
    decreases |chunks|
  {
    if chunks != [] {
      NoRetriesQueuesNothing(env, k, retries, chunks[1..]);
    }
  }

  /** Before `configure` the retry count is zero: `write` then reports every byte as written and
      queues none. */
  lemma UnconfiguredWrite(env: nat -> Attempt, retries: int, buf: seq<Byte>)
    requires retries <= 0
    ensures Write(env, retries, buf) == Sending(None, [], |buf|, 0)
    ensures buf != [] ==> Write(env, retries, buf).frames != Frames(Chunks(buf))
  {
    ChunksJoin(buf);
    NoRetriesQueuesNothing(env, 0, retries, Chunks(buf));
    assert buf != [] ==> |Frames(Chunks(buf))| > 0;
  }

  /** So success means that the buffer was queued exactly when retries are allowed. */
  lemma SuccessMeansQueued(env: nat -> Attempt, retries: int, buf: seq<Byte>)
    requires SendContract(env) && buf != []
    requires Write(env, retries, buf).error.None?
    ensures Write(env, retries, buf).written == |buf|
    ensures Write(env, retries, buf).frames == Frames(Chunks(buf)) <==> retries > 0
  {
    if retries > 0 {
      WriteOutcome(env, retries, buf);
    } else {
      UnconfiguredWrite(env, retries, buf);
    }
  }
}
