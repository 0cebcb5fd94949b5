/** The interrupt-driven UART stream: an ISR and a foreground task share two bounded byte
    queues, sticky error counters and the TX interrupt enable bit. */
module UartSpec {
  import opened Bytes

  datatype Error = BadArg | NoMemory | NotReady | TxFailed | RxFailed

  /** One answer of `uart_fifo_read`: bytes (none when the hardware FIFO is empty) or an error. */
  datatype RxAnswer = Got(bytes: seq<Byte>) | ReadError

  /** What became of one byte that the ISR took from the TX queue. */
  datatype Fate = Fate(value: Byte, sent: bool)

  /** What `configure` and `attach` set up. */
  datatype Setup = Setup(attached: bool, rxBuffer: bool, txBuffer: bool, rxCap: nat, txCap: nat)

  datatype Uart = Uart(
    setup: Setup,
    enabled: bool, txIrq: bool, rxIrq: bool,
    txFifo: seq<Byte>, rxFifo: seq<Byte>,
    txErrors: int, txDropped: int, rxErrors: int, rxDropped: int)

  const TX_CHUNK: nat := 32

  ghost predicate Valid(u: Uart) {
    && |u.txFifo| <= u.setup.txCap && |u.rxFifo| <= u.setup.rxCap
    && 0 <= u.txErrors <= INT32_MAX && 0 <= u.txDropped <= INT32_MAX
    && 0 <= u.rxErrors <= INT32_MAX && 0 <= u.rxDropped <= INT32_MAX
  }

  predicate TxLatched(u: Uart) { u.txErrors > 0 || u.txDropped > 0 }
  predicate RxLatched(u: Uart) { u.rxErrors > 0 || u.rxDropped > 0 }

  function TxCheck(u: Uart): Option<Error> {
    if !u.enabled || !u.setup.attached || !u.setup.txBuffer then Some(NotReady)
    else if TxLatched(u) then Some(TxFailed)
    else None
  }

  function RxCheck(u: Uart): Option<Error> {
    if !u.enabled || !u.setup.attached || !u.setup.rxBuffer then Some(NotReady)
    else if RxLatched(u) then Some(RxFailed)
    else None
  }

  // ----- ISR -----

  function Fates(bs: seq<Byte>, sent: bool): seq<Fate> {
    seq(|bs|, i requires 0 <= i < |bs| => Fate(bs[i], sent))
  }

  /** `room` is the driver's answer to `uart_fifo_fill`: negative for an error, else how many
      bytes the hardware would take. */
  function Tx(u: Uart, room: int): (Uart, seq<Fate>)
    requires Valid(u)
  {
    var chunk := Front(u.txFifo, TX_CHUNK);
    var v := u.(txFifo := Rest(u.txFifo, TX_CHUNK));
    if chunk == [] then (v.(txIrq := false), [])
    else if room < 0 then
      (v.(txErrors := SatAdd(u.txErrors, 1), txIrq := false), Fates(chunk, false))
    else
      var n := Min(room, |chunk|);
      var fates := Fates(chunk[..n], true) + Fates(chunk[n..], false);
      if n < |chunk|
      then (v.(txDropped := SatAdd(u.txDropped, |chunk| - n), txIrq := false), fates)
      else (v, fates)
  }

  /** Drains the hardware FIFO until it is empty, fails, or a byte finds no room. */
  function Rx(u: Uart, answers: seq<RxAnswer>): (Uart, seq<Byte>)
    requires Valid(u)
    decreases |answers|
  {
    if answers == [] then (u, [])
    else match answers[0]
      case ReadError => (u.(rxErrors := SatAdd(u.rxErrors, 1)), [])
      case Got(bs) =>
        var lost := |bs| - Room(u.rxFifo, u.setup.rxCap, bs);
        var v := u.(rxFifo := Push(u.rxFifo, u.setup.rxCap, bs));
        if bs == [] then (u, [])
        else if lost > 0 then (v.(rxDropped := SatAdd(u.rxDropped, lost)), bs)
        else var (w, more) := Rx(v, answers[1..]); (w, bs + more)
  }

  /** One run of the interrupt handler; a side is serviced only while its interrupt is enabled. */
  function Callback(u: Uart, updated: bool, txReady: bool, room: int, rxReady: bool, answers: seq<RxAnswer>)
    : (Uart, seq<Fate>, seq<Byte>)
    requires Valid(u)
  {
    if !u.setup.attached || !updated then (u, [], [])
    else
      var (v, fates) := if txReady && u.txIrq then Tx(u, room) else (u, []);
      TxValid(u, room);
      var (w, got) := if rxReady && u.rxIrq then Rx(v, answers) else (v, []);
      (w, fates, got)
  }

  lemma TxValid(u: Uart, room: int)
    requires Valid(u)
    ensures Valid(Tx(u, room).0)
  {}

  // ----- what one service does, told by its inputs alone -----

  /** The first `k` answers all bring bytes. */
  predicate AllData(answers: seq<RxAnswer>, k: nat)
    requires k <= |answers|
  {
    forall i :: 0 <= i < k ==> answers[i].Got? && answers[i].bytes != []
  }

  /** The bytes of the first `k` answers. */
  function Data(answers: seq<RxAnswer>, k: nat): seq<Byte>
    requires k <= |answers| && AllData(answers, k)
  {
    if k == 0 then [] else Data(answers, k - 1) + answers[k - 1].bytes
  }

  /** From `u` to `v` the receiver took `got`: everything that the first `k` answers brought, which all
      found room, and then what answer `k` asks for.  Nothing of the transmit side changes. */
  ghost predicate ReceivedUpTo(u: Uart, v: Uart, got: seq<Byte>, answers: seq<RxAnswer>, k: nat) {
    && k <= |answers| && AllData(answers, k) && |u.rxFifo| + |Data(answers, k)| <= u.setup.rxCap
    && v == u.(rxFifo := v.rxFifo, rxErrors := v.rxErrors, rxDropped := v.rxDropped)
    && if k == |answers| || answers[k] == Got([]) then
         && got == Data(answers, k) && v.rxFifo == u.rxFifo + got
         && v.rxErrors == u.rxErrors && v.rxDropped == u.rxDropped
       else if answers[k].ReadError? then
         && got == Data(answers, k) && v.rxFifo == u.rxFifo + got
         && v.rxErrors == Min(u.rxErrors + 1, INT32_MAX) && v.rxDropped == u.rxDropped
       else
         var excess := |u.rxFifo| + |got| - u.setup.rxCap;
         && got == Data(answers, k) + answers[k].bytes && excess > 0
         && v.rxFifo == (u.rxFifo + got)[..u.setup.rxCap]
         && v.rxErrors == u.rxErrors && v.rxDropped == Min(u.rxDropped + excess, INT32_MAX)
  }

  ghost predicate Received(u: Uart, v: Uart, got: seq<Byte>, answers: seq<RxAnswer>) {
    exists k: nat :: ReceivedUpTo(u, v, got, answers, k)
  }

  /** From `u` to `v` the transmitter took up to 32 bytes off its queue: an empty queue disarms it; a
      refusal loses the whole chunk, a short fill its rest, and both latch and disarm. */
  ghost predicate Served(u: Uart, v: Uart, room: int, fates: seq<Fate>) {
    var n := if |u.txFifo| < 32 then |u.txFifo| else 32;
    && |fates| == n && v.txFifo == u.txFifo[n..]
    && (forall i :: 0 <= i < n ==> fates[i].value == u.txFifo[i] && (fates[i].sent <==> i < room))
    && v.txIrq == (u.txIrq && n > 0 && room >= n)
    && v.txErrors == (if n > 0 && room < 0 then Min(u.txErrors + 1, INT32_MAX) else u.txErrors)
    && v.txDropped == (if 0 <= room < n then Min(u.txDropped + n - room, INT32_MAX) else u.txDropped)
    && v == u.(txFifo := v.txFifo, txIrq := v.txIrq, txErrors := v.txErrors, txDropped := v.txDropped)
  }

  lemma TxFrame(u: Uart, room: int)
    requires Valid(u)
    ensures var v := Tx(u, room).0;
      v == u.(txFifo := v.txFifo, txIrq := v.txIrq, txErrors := v.txErrors, txDropped := v.txDropped)
  {}

  lemma TxServes(u: Uart, room: int)
    requires Valid(u)
    ensures Served(u, Tx(u, room).0, room, Tx(u, room).1)
  {
    TxFrame(u, room);
    TxFates(u, room);
  }

  lemma TxFates(u: Uart, room: int)
    requires Valid(u)
    ensures var fates := Tx(u, room).1; var n := if |u.txFifo| < 32 then |u.txFifo| else 32;
      |fates| == n && forall i :: 0 <= i < n ==> fates[i].value == u.txFifo[i] && (fates[i].sent <==> i < room)
  {}

  /** A first answer that found room, in front of what happens with the others. */
  lemma ReceivedCons(u: Uart, v: Uart, w: Uart, more: seq<Byte>, answers: seq<RxAnswer>, k: nat)
    requires answers != [] && answers[0].Got? && answers[0].bytes != []
    requires |u.rxFifo| + |answers[0].bytes| <= u.setup.rxCap && v == u.(rxFifo := u.rxFifo + answers[0].bytes)
    requires ReceivedUpTo(v, w, more, answers[1..], k)
    ensures ReceivedUpTo(u, w, answers[0].bytes + more, answers, k + 1)
  {
    DataCons(answers, k + 1);
    var head := answers[0].bytes;
    assert u.rxFifo + (head + more) == u.rxFifo + head + more;
    if k + 1 < |answers| && answers[k + 1].Got? {
      assert head + (Data(answers[1..], k) + answers[k + 1].bytes)
          == head + Data(answers[1..], k) + answers[k + 1].bytes;
    }
  }

  lemma {:induction false} DataCons(answers: seq<RxAnswer>, k: nat)
    requires 0 < k <= |answers| && answers[0].Got? && answers[0].bytes != [] && AllData(answers[1..], k - 1)
    ensures AllData(answers, k) && Data(answers, k) == answers[0].bytes + Data(answers[1..], k - 1)
    decreases k
  {
    assert forall i :: 0 <= i < |answers| - 1 ==> answers[1..][i] == answers[i + 1];
    if k > 1 {
      DataCons(answers, k - 1);
      var head := answers[0].bytes;
      assert head + (Data(answers[1..], k - 2) + answers[k - 1].bytes)
          == head + Data(answers[1..], k - 2) + answers[k - 1].bytes;
    } else {
      assert Data(answers, 1) == Data(answers, 0) + answers[0].bytes;
    }
  }

  lemma {:induction false} RxReceives(u: Uart, answers: seq<RxAnswer>)
    requires Valid(u)
    ensures Received(u, Rx(u, answers).0, Rx(u, answers).1, answers)
    decreases |answers|
  {
    var (w, got) := Rx(u, answers);
    if answers != [] && answers[0].Got? && answers[0].bytes != []
       && Room(u.rxFifo, u.setup.rxCap, answers[0].bytes) == |answers[0].bytes| {
      var v := u.(rxFifo := Push(u.rxFifo, u.setup.rxCap, answers[0].bytes));
      RxReceives(v, answers[1..]);
      var k: nat :| ReceivedUpTo(v, w, Rx(v, answers[1..]).1, answers[1..], k);
      ReceivedCons(u, v, w, Rx(v, answers[1..]).1, answers, k);
    } else {
      assert Data(answers, 0) == [];
      assert ReceivedUpTo(u, w, got, answers, 0);
    }
  }

  /** The handler: each side is served exactly when it is ready, enabled and the handler gets that
      far; otherwise that side is left alone. */
  ghost predicate Handled(u: Uart, v: Uart, fates: seq<Fate>, got: seq<Byte>,
                          updated: bool, txReady: bool, room: int, rxReady: bool, answers: seq<RxAnswer>) {
    exists w :: HandledVia(u, w, v, fates, got, updated, txReady, room, rxReady, answers)
  }

  ghost predicate HandledVia(u: Uart, w: Uart, v: Uart, fates: seq<Fate>, got: seq<Byte>,
                             updated: bool, txReady: bool, room: int, rxReady: bool, answers: seq<RxAnswer>) {
    && (if u.setup.attached && updated && txReady && u.txIrq then Served(u, w, room, fates)
        else w == u && fates == [])
    && (if u.setup.attached && updated && rxReady && u.rxIrq then Received(w, v, got, answers)
        else v == w && got == [])
  }

  lemma {:induction false} RxValid(u: Uart, answers: seq<RxAnswer>)
    requires Valid(u)
    ensures Valid(Rx(u, answers).0)
    ensures Rx(u, answers).0.(rxFifo := [], rxErrors := 0, rxDropped := 0)
         == u.(rxFifo := [], rxErrors := 0, rxDropped := 0)
    decreases |answers|
  {
    if answers != [] && answers[0].Got? && answers[0].bytes != []
       && Room(u.rxFifo, u.setup.rxCap, answers[0].bytes) == |answers[0].bytes| {
      RxValid(u.(rxFifo := Push(u.rxFifo, u.setup.rxCap, answers[0].bytes)), answers[1..]);
    }
  }

  lemma CallbackHandles(u: Uart, updated: bool, txReady: bool, room: int, rxReady: bool, answers: seq<RxAnswer>)
    requires Valid(u)
    ensures var (v, fates, got) := Callback(u, updated, txReady, room, rxReady, answers);
      Handled(u, v, fates, got, updated, txReady, room, rxReady, answers)
  {
    var (v, fates, got) := Callback(u, updated, txReady, room, rxReady, answers);
    var w := if u.setup.attached && updated && txReady && u.txIrq then Tx(u, room).0 else u;
    TxValid(u, room);
    TxFrame(u, room);
    TxServes(u, room);
    RxReceives(w, answers);
    assert HandledVia(u, w, v, fates, got, updated, txReady, room, rxReady, answers);
  }

  // ----- foreground, in the pieces between which the ISR may run -----

  function TxPush(u: Uart, buf: seq<Byte>): Uart
    requires Valid(u)
  {
    u.(txFifo := Push(u.txFifo, u.setup.txCap, buf))
  }

  function TxArm(u: Uart, n: nat): Uart { if n > 0 then u.(txIrq := true) else u }

  function RxPop(u: Uart, n: nat): Uart { u.(rxFifo := Rest(u.rxFifo, n)) }

  function Quiesce(u: Uart): Uart { u.(enabled := false, txIrq := false, rxIrq := false) }

  function Clear(u: Uart): Uart {
    u.(txFifo := [], rxFifo := [], txErrors := 0, txDropped := 0, rxErrors := 0, rxDropped := 0)
  }

  function SetEnabled(u: Uart, on: bool): Uart { if on then u.(rxIrq := true, enabled := true) else u }

  /** A newly allocated receive or transmit queue. */
  function WithRx(u: Uart, cap: nat): Uart { u.(setup := u.setup.(rxBuffer := true, rxCap := cap), rxFifo := []) }

  function WithTx(u: Uart, cap: nat): Uart { u.(setup := u.setup.(txBuffer := true, txCap := cap), txFifo := []) }

  /** The three pieces of `enable` together, the effect of the object's `Enable`. */
  lemma EnabledState(u: Uart, on: bool)
    ensures SetEnabled(Clear(Quiesce(u)), on)
         == Uart(u.setup, on, false, on, [], [], 0, 0, 0, 0)
  {}
}

/** The driver object, updated in place as in the source. */
module UartDriver {
  import opened Bytes
  import opened UartSpec

  class UartIrq {
    var attached: bool
    var rxBuffer: bool
    var txBuffer: bool
    var rxCap: nat
    var txCap: nat
    var enabled: bool
    var txIrq: bool
    var rxIrq: bool
    var txFifo: seq<Byte>
    var rxFifo: seq<Byte>
    var txErrors: int
    var txDropped: int
    var rxErrors: int
    var rxDropped: int

    ghost function Abs(): Uart
      reads this
    {
      Uart(Setup(attached, rxBuffer, txBuffer, rxCap, txCap), enabled, txIrq, rxIrq, txFifo, rxFifo,
           txErrors, txDropped, rxErrors, rxDropped)
    }

    constructor ()
      ensures Abs() == Uart(Setup(false, false, false, 0, 0), false, false, false, [], [], 0, 0, 0, 0)
    {
      attached, rxBuffer, txBuffer, rxCap, txCap := false, false, false, 0, 0;
      enabled, txIrq, rxIrq, txFifo, rxFifo := false, false, false, [], [];
      txErrors, txDropped, rxErrors, rxDropped := 0, 0, 0, 0;
    }

    /** `settingsOk` is the answer of the UART settings' own validation; `rxMemory` and `txMemory` say
        whether the two buffers could be allocated. */
    method Configure(settingsOk: bool, rxCapacity: int, txCapacity: int, rxMemory: bool, txMemory: bool)
      returns (err: Option<Error>)
      modifies this
      ensures err == if !settingsOk || rxCapacity < 1 || txCapacity < 1 then Some(BadArg)
                     else if rxMemory && txMemory then None else Some(NoMemory)
      ensures Abs() == if err == Some(BadArg) || !rxMemory then old(Abs())
                       else if !txMemory then WithRx(old(Abs()), rxCapacity)
                       else WithTx(WithRx(old(Abs()), rxCapacity), txCapacity)
    {
      if !settingsOk { return Some(BadArg); }
      if rxCapacity < 1 { return Some(BadArg); }
      if txCapacity < 1 { return Some(BadArg); }
      if !rxMemory { return Some(NoMemory); }
      rxBuffer, rxCap, rxFifo := true, rxCapacity, [];
      if !txMemory { return Some(NoMemory); }
      txBuffer, txCap, txFifo := true, txCapacity, [];
      return None;
    }

    method ClearState()
      modifies this`txFifo, this`rxFifo, this`txErrors, this`txDropped, this`rxErrors, this`rxDropped
      ensures Abs() == Clear(old(Abs()))
    {
      txFifo, rxFifo := [], [];
      txErrors, txDropped, rxErrors, rxDropped := 0, 0, 0, 0;
    }

    method Enable(on: bool) returns (err: Option<Error>)
      modifies this
      ensures err == if attached then None else Some(BadArg)
      ensures Abs() == if err.Some? then old(Abs())
                       else Uart(old(Abs()).setup, on, false, on, [], [], 0, 0, 0, 0)
    {
      if !attached { return Some(BadArg); }
      enabled, txIrq, rxIrq := false, false, false;
      ClearState();
      if on {
        rxIrq, enabled := true, true;
      }
      return None;
    }

    method Read(n: nat) returns (err: Option<Error>, bytes: seq<Byte>)
      modifies this
      ensures err == if attached then RxCheck(old(Abs())) else Some(BadArg)
      ensures err == Some(BadArg) <==> !attached
      ensures err == Some(NotReady) <==> attached && !(enabled && rxBuffer)
      ensures err == Some(RxFailed) <==> attached && enabled && rxBuffer && (rxErrors > 0 || rxDropped > 0)
      ensures bytes + rxFifo == old(rxFifo) && |bytes| == if err.None? then Min(n, |old(rxFifo)|) else 0
      ensures Abs() == if err.Some? then old(Abs()) else RxPop(old(Abs()), n)
    {
      if !attached { return Some(BadArg), []; }
      err := RxCheck(Uart(Setup(attached, rxBuffer, txBuffer, rxCap, txCap), enabled, txIrq, rxIrq, txFifo, rxFifo,
                          txErrors, txDropped, rxErrors, rxDropped));
      if err.Some? { return err, []; }
      bytes := Front(rxFifo, n);
      rxFifo := Rest(rxFifo, n);
    }

    method Write(buf: seq<Byte>) returns (err: Option<Error>, written: nat)
      requires Valid(Abs())
      modifies this
      ensures Valid(Abs())
      ensures err == if attached then TxCheck(old(Abs())) else Some(BadArg)
      ensures err == Some(BadArg) <==> !attached
      ensures err == Some(NotReady) <==> attached && !(enabled && txBuffer)
      ensures err == Some(TxFailed) <==> attached && enabled && txBuffer && (txErrors > 0 || txDropped > 0)
      ensures written == if err.None? then Min(|buf|, txCap - |old(txFifo)|) else 0
      ensures txFifo == old(txFifo) + buf[..written] && txIrq == (old(txIrq) || written > 0)
      ensures Abs() == if err.Some? then old(Abs()) else TxArm(TxPush(old(Abs()), buf), written)
    {
      if !attached { return Some(BadArg), 0; }
      err := TxCheck(Uart(Setup(attached, rxBuffer, txBuffer, rxCap, txCap), enabled, txIrq, rxIrq, txFifo, rxFifo,
                          txErrors, txDropped, rxErrors, rxDropped));
      if err.Some? { return err, 0; }
      written := Room(txFifo, txCap, buf);
      txFifo := Push(txFifo, txCap, buf);
      if written > 0 {
        txIrq := true;
      }
    }

    method ServiceTx(room: int) returns (ghost fates: seq<Fate>)
      requires Valid(Abs())
      modifies this
      ensures Valid(Abs())
      ensures (Abs(), fates) == Tx(old(Abs()), room)
      ensures Served(old(Abs()), Abs(), room, fates)
    {
      TxServes(Abs(), room);
      var chunk := Front(txFifo, TX_CHUNK);
      txFifo := Rest(txFifo, TX_CHUNK);
      fates := [];
      if |chunk| == 0 {
        txIrq := false;
        return;
      }
      var written := if room < 0 then room else Min(room, |chunk|);
      if written < 0 {
        fates := Fates(chunk, false);
        txErrors := SatAdd(txErrors, 1);
        txIrq := false;
      } else {
        fates := Fates(chunk[..written], true) + Fates(chunk[written..], false);
        if written < |chunk| {
          txDropped := SatAdd(txDropped, |chunk| - written);
          txIrq := false;
        }
      }
    }

    /** The receive side; `post` says that the reader's semaphore is posted. */
    method ServiceRx(answers: seq<RxAnswer>) returns (post: bool, ghost got: seq<Byte>)
      requires Valid(Abs())
      modifies this`rxFifo, this`rxErrors, this`rxDropped
      ensures (Abs(), got) == Rx(old(Abs()), answers)
      ensures Received(old(Abs()), Abs(), got, answers)
      ensures post <==> got != []
    {
      RxReceives(Abs(), answers);
      post, got := DrainRx(answers);
    }

    /** The receive loop. */
    method DrainRx(answers: seq<RxAnswer>) returns (post: bool, ghost got: seq<Byte>)
      requires Valid(Abs())
      modifies this`rxFifo, this`rxErrors, this`rxDropped
      ensures (Abs(), got) == Rx(old(Abs()), answers)
      ensures post <==> got != []
    {
      post, got := false, [];
      ghost var all := Rx(Abs(), answers);
      var i := 0;
      assert answers[0..] == answers && [] + all.1 == all.1;
      while i < |answers|
        invariant 0 <= i <= |answers|
        invariant Valid(Abs()) && Progress(all, Abs(), answers, i, got)
        invariant post <==> got != []
      {
        ProgressStep(all, Abs(), answers, i, got);
        if answers[i].ReadError? {
          rxErrors := SatAdd(rxErrors, 1);
          return;
        }
        var bytes := answers[i].bytes;
        if |bytes| == 0 {
          return;
        }
        post := true;
        var written := Room(rxFifo, rxCap, bytes);
        rxFifo := Push(rxFifo, rxCap, bytes);
        got := got + bytes;
        if written < |bytes| {
          rxDropped := SatAdd(rxDropped, |bytes| - written);
          return;
        }
        i := i + 1;
      }
      assert got + [] == got;
    }

    /** With `i` answers handled and `got` received, the rest of the loop completes `all`. */
    static ghost predicate Progress(all: (Uart, seq<Byte>), u: Uart, answers: seq<RxAnswer>, i: nat, got: seq<Byte>)
      requires Valid(u) && i <= |answers|
    {
      all == (Rx(u, answers[i..]).0, got + Rx(u, answers[i..]).1)
    }

    static lemma ProgressStep(all: (Uart, seq<Byte>), u: Uart, answers: seq<RxAnswer>, i: nat, got: seq<Byte>)
      requires Valid(u) && i < |answers| && Progress(all, u, answers, i, got)
      ensures answers[i].ReadError? ==> all == (u.(rxErrors := SatAdd(u.rxErrors, 1)), got)
      ensures answers[i] == Got([]) ==> all == (u, got)
      ensures answers[i].Got? && answers[i].bytes != [] ==>
                var bs := answers[i].bytes;
                var v := u.(rxFifo := Push(u.rxFifo, u.setup.rxCap, bs));
                var lost := |bs| - Room(u.rxFifo, u.setup.rxCap, bs);
                if lost > 0 then all == (v.(rxDropped := SatAdd(u.rxDropped, lost)), got + bs)
                else Progress(all, v, answers, i + 1, got + bs)
    {
      assert answers[i..][0] == answers[i] && answers[i..][1..] == answers[i + 1..] && got + [] == got;
      if answers[i].Got? {
        var bs := answers[i].bytes;
        var v := u.(rxFifo := Push(u.rxFifo, u.setup.rxCap, bs));
        var more := Rx(v, answers[i + 1..]).1;
        assert got + (bs + more) == got + bs + more;
      }
    }

    method Callback(updated: bool, txReady: bool, room: int, rxReady: bool, answers: seq<RxAnswer>)
      returns (post: bool, ghost fates: seq<Fate>, ghost got: seq<Byte>)
      requires Valid(Abs())
      modifies this
      ensures Valid(Abs())
      ensures (Abs(), fates, got) == UartSpec.Callback(old(Abs()), updated, txReady, room, rxReady, answers)
      ensures Handled(old(Abs()), Abs(), fates, got, updated, txReady, room, rxReady, answers)
      ensures post <==> got != []
    {
      CallbackHandles(Abs(), updated, txReady, room, rxReady, answers);
      post, fates, got := false, [], [];
      if !attached { return; }
      if !updated { return; }
      if txReady && txIrq {
        fates := ServiceTx(room);
      }
      if rxReady && rxIrq {
        RxValid(Abs(), answers);
        post, got := ServiceRx(answers);
      }
    }
  }
}
