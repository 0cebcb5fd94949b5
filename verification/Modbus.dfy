/** The Modbus slave: a byte stream from the master and a one-slot message channel to the master,
    both carried by single-register accesses.  Register numbers, command codes and size limits
    come from dtmc_base, which is not part of this model; they are a parameter. */
module ModbusSpec {
  import opened Bytes

  type Reg = x: int | 0 <= x < 0x1_0000

  datatype Error = BadArg | NoMemory | Overflow | Busy

  datatype Layout = Layout(
    m2sCmd: nat, m2sData: nat, s2mStatus: nat, s2mData: nat,
    maxBytes: nat, maxRegs: nat,
    giveCmd: Reg, putCmd: Reg, hasData: Reg, noData: Reg)

  /** The register blocks that one callback tells apart do not overlap, the codes differ, and a
      blob fits both the register block and a 16-bit length. */
  predicate Sound(l: Layout) {
    && (l.m2sCmd + 1 < l.m2sData || l.m2sData + l.maxRegs <= l.m2sCmd)
    && (l.s2mStatus + 1 < l.s2mData || l.s2mData + l.maxRegs <= l.s2mStatus)
    && l.giveCmd != l.putCmd && l.hasData != l.noData
    && 0 < l.maxBytes <= 2 * l.maxRegs && l.maxBytes < 0x1_0000
  }

  function BlobRegs(n: nat): nat { (n + 1) / 2 }

  // ----- packing, high byte first; an odd last byte leaves the low half zero -----

  function PackReg(bs: seq<Byte>, i: nat): Reg
    requires i < BlobRegs(|bs|)
  {
    var high: int := bs[2 * i];
    256 * high + (if 2 * i + 1 < |bs| then bs[2 * i + 1] else 0)
  }

  function Pack(bs: seq<Byte>): (rs: seq<Reg>)
    ensures |rs| == BlobRegs(|bs|)
  {
    seq(BlobRegs(|bs|), i requires 0 <= i < BlobRegs(|bs|) => PackReg(bs, i))
  }

  /** The first byte of a register is its high half. */
  lemma PackedHalves(bs: seq<Byte>, i: nat)
    requires i < BlobRegs(|bs|)
    ensures Pack(bs)[i] / 256 == bs[2 * i]
    ensures Pack(bs)[i] % 256 == if 2 * i + 1 < |bs| then bs[2 * i + 1] else 0
  {}

  function UnpackByte(rs: seq<Reg>, j: nat): Byte
    requires j / 2 < |rs|
  {
    if j % 2 == 0 then rs[j / 2] / 256 else rs[j / 2] % 256
  }

  function Unpack(rs: seq<Reg>, n: nat): (bs: seq<Byte>)
    requires BlobRegs(n) <= |rs|
    ensures |bs| == n
  {
    seq(n, j requires 0 <= j < n => UnpackByte(rs, j))
  }

  lemma UnpackPack(bs: seq<Byte>, rs: seq<Reg>)
    requires Pack(bs) <= rs
    ensures Unpack(rs, |bs|) == bs
  {
    forall j | 0 <= j < |bs|
      ensures UnpackByte(rs, j) == bs[j]
    {
      assert rs[j / 2] == Pack(bs)[j / 2] == PackReg(bs, j / 2);
    }
  }

  // ----- master to slave: the state kept between register writes -----

  datatype M2s = M2s(cmd: Reg, len: Reg, regs: seq<Reg>, expected: nat, written: nat)

  predicate IsData(l: Layout, addr: nat) { l.m2sData <= addr < l.m2sData + l.maxRegs }

  /** One register write: the new state and the blob that it completes, if any. */
  function M2sStep(l: Layout, m: M2s, addr: nat, reg: Reg): (M2s, Option<seq<Byte>>)
    requires Sound(l) && |m.regs| == l.maxRegs
  {
    if addr == l.m2sCmd then (M2s(reg, 0, seq(l.maxRegs, i => 0), 0, 0), None)
    else if addr == l.m2sCmd + 1 then
      (m.(len := reg, expected := Min(BlobRegs(Min(reg, l.maxBytes)), l.maxRegs)), None)
    else if IsData(l, addr) then
      var n := m.(regs := m.regs[addr - l.m2sData := reg], written := m.written + 1);
      (n, if n.cmd == l.putCmd && 0 < n.expected <= n.written
          then Some(Unpack(n.regs, Min(n.len, l.maxBytes))) else None)
    else (m, None)
  }

  // ----- the whole slave -----

  datatype Slave = Slave(
    l: Layout, enabled: bool,
    rxCap: nat, rxFifo: seq<Byte>, overflow: bool,
    staged: seq<Byte>, pending: bool,
    m: M2s,
    status: Reg, s2mLen: Reg, s2mRegs: seq<Reg>)

  ghost predicate Valid(s: Slave) {
    && Sound(s.l)
    && |s.rxFifo| <= s.rxCap
    && |s.staged| <= s.l.maxBytes && (s.pending ==> s.staged != [])
    && |s.m.regs| == s.l.maxRegs && |s.s2mRegs| == s.l.maxRegs
  }

  function PutBlob(s: Slave, blob: seq<Byte>): Slave
    requires Valid(s)
  {
    s.(rxFifo := Push(s.rxFifo, s.rxCap, blob),
       overflow := s.overflow || Room(s.rxFifo, s.rxCap, blob) < |blob|)
  }

  /** A poll moves the staged message into the registers that the master reads; registers past
      the end of the message keep what they held. */
  function Poll(s: Slave): Slave
    requires Valid(s)
  {
    if s.pending && s.staged != [] then
      s.(status := s.l.hasData, s2mLen := |s.staged|,
         s2mRegs := Pack(s.staged) + s.s2mRegs[BlobRegs(|s.staged|)..],
         staged := [], pending := false)
    else s.(status := s.l.noData, s2mLen := 0, s2mRegs := seq(s.l.maxRegs, i => 0))
  }

  predicate IsPoll(s: Slave, addr: nat) {
    s.enabled && addr == s.l.m2sCmd + 1 && s.m.cmd == s.l.giveCmd
  }

  function RegWrite(s: Slave, addr: nat, reg: Reg): Slave
    requires Valid(s)
  {
    if !s.enabled then s
    else
      var (m, blob) := M2sStep(s.l, s.m, addr, reg);
      var t := s.(m := m);
      if IsPoll(s, addr) then Poll(t)
      else if blob.Some? then PutBlob(t, blob.value)
      else t
  }

  // ----- what one register write does, address by address -----

  /** While processing is off, and at every address but the three kinds below, nothing happens. */
  lemma IgnoredWrite(s: Slave, addr: nat, reg: Reg)
    requires Valid(s)
    requires !s.enabled || (addr != s.l.m2sCmd && addr != s.l.m2sCmd + 1
                            && (addr < s.l.m2sData || addr >= s.l.m2sData + s.l.maxRegs))
    ensures RegWrite(s, addr, reg) == s
  {}

  /** A command starts a new transaction: length, data and counts are cleared. */
  lemma CommandWrite(s: Slave, reg: Reg)
    requires Valid(s) && s.enabled
    ensures RegWrite(s, s.l.m2sCmd, reg) == s.(m := M2s(reg, 0, seq(s.l.maxRegs, i => 0), 0, 0))
  {}

  /** The length says how many data registers follow, and is the poll exactly behind a poll command:
      the master is then shown the staged message, or that there is none. */
  lemma LengthWrite(s: Slave, reg: Reg)
    requires Valid(s) && s.enabled
    ensures var y := RegWrite(s, s.l.m2sCmd + 1, reg);
      && y.m == s.m.(len := reg, expected := (Min(reg, s.l.maxBytes) + 1) / 2)
      && (s.m.cmd != s.l.giveCmd ==> y == s.(m := y.m))
      && (s.m.cmd == s.l.giveCmd && s.pending ==>
            && y == s.(m := y.m, status := s.l.hasData, s2mLen := |s.staged|, s2mRegs := y.s2mRegs,
                       staged := [], pending := false)
            && Unpack(y.s2mRegs, |s.staged|) == s.staged)
      && (s.m.cmd == s.l.giveCmd && !s.pending ==>
            y == s.(m := y.m, status := s.l.noData, s2mLen := 0, s2mRegs := seq(s.l.maxRegs, i => 0)))
  {
    if s.m.cmd == s.l.giveCmd && s.pending {
      UnpackPack(s.staged, RegWrite(s, s.l.m2sCmd + 1, reg).s2mRegs);
    }
  }

  /** A data register is stored and counted; the blob is consumed exactly behind a put command, from
      the last expected register on, and what does not fit is an overflow. */
  lemma DataWrite(s: Slave, i: nat, reg: Reg)
    requires Valid(s) && s.enabled && i < s.l.maxRegs
    ensures var y := RegWrite(s, s.l.m2sData + i, reg); var n := s.m.written + 1;
      && y.m == s.m.(regs := s.m.regs[i := reg], written := n)
      && if s.m.cmd == s.l.putCmd && 0 < s.m.expected <= n
         then
           var blob := Unpack(y.m.regs, Min(s.m.len, s.l.maxBytes));
           var fits := Min(|blob|, s.rxCap - |s.rxFifo|);
           y == s.(m := y.m, rxFifo := s.rxFifo + blob[..fits], overflow := s.overflow || fits < |blob|)
         else y == s.(m := y.m)
  {}

  /** `None` means that the callback leaves the caller's register untouched. */
  function RegRead(s: Slave, addr: nat): Option<Reg>
    requires Valid(s)
  {
    if !s.enabled then None
    else if addr == s.l.s2mStatus then Some(s.status)
    else if addr == s.l.s2mStatus + 1 then Some(s.s2mLen)
    else if s.l.s2mData <= addr < s.l.s2mData + s.l.maxRegs then Some(s.s2mRegs[addr - s.l.s2mData])
    else Some(0)
  }

  function Enable(s: Slave, on: bool): Slave {
    if on then
      s.(enabled := true, rxFifo := [], overflow := false, staged := [], pending := false,
         status := s.l.noData, s2mLen := 0, s2mRegs := seq(s.l.maxRegs, i => 0))
    else s.(enabled := false)
  }

  function AppWrite(s: Slave, buf: seq<Byte>): (Slave, Option<Error>, nat) {
    if s.pending then (s, Some(Busy), 0)
    else
      var message := buf[..Min(|buf|, s.l.maxBytes)];
      (s.(staged := message, pending := message != []), None, |message|)
  }

  function AppRead(s: Slave, n: nat): (Slave, Option<Error>, seq<Byte>) {
    if s.overflow then (s.(overflow := false), Some(Overflow), [])
    else (s.(rxFifo := Rest(s.rxFifo, n)), None, Front(s.rxFifo, n))
  }
}

/** The slave object, updated in place as in the source. */
module ModbusDriver {
  import opened Bytes
  import opened ModbusSpec

  method PackBytes(bs: array<Byte>, n: nat, regs: array<Reg>)
    requires n <= bs.Length && BlobRegs(n) <= regs.Length
    modifies regs
    ensures regs[..] == Pack(bs[..n]) + old(regs[BlobRegs(n)..])
  {
    var i := 0;
    while i < BlobRegs(n)
      invariant 0 <= i <= BlobRegs(n)
      invariant forall k :: 0 <= k < i ==> regs[k] == PackReg(bs[..n], k)
      invariant regs[i..] == old(regs[i..])
    {
      var high: int := bs[2 * i];
      var low: int := if 2 * i + 1 < n then bs[2 * i + 1] else 0;
      regs[i] := 256 * high + low;
      i := i + 1;
    }
    assert regs[..i] == Pack(bs[..n]) && regs[..] == regs[..i] + regs[i..];
  }

  method UnpackRegs(regs: array<Reg>, n: nat) returns (bs: array<Byte>)
    requires BlobRegs(n) <= regs.Length
    ensures fresh(bs) && bs[..] == Unpack(regs[..], n)
  {
    bs := new Byte[n](_ => 0);
    var j := 0;
    while j < n
      invariant 0 <= j <= n
      invariant forall k :: 0 <= k < j ==> bs[k] == UnpackByte(regs[..], k)
    {
      bs[j] := if j % 2 == 0 then regs[j / 2] / 256 else regs[j / 2] % 256;
      j := j + 1;
    }
  }

  method FillZero(regs: array<Reg>)
    modifies regs
    ensures regs[..] == seq(regs.Length, i => 0)
  {
    var i := 0;
    while i < regs.Length
      invariant 0 <= i <= regs.Length
      invariant forall k :: 0 <= k < i ==> regs[k] == 0
    {
      regs[i] := 0;
      i := i + 1;
    }
  }

  class ModbusSlave {
    const l: Layout
    var enabled: bool
    var rxCap: nat
    var rxFifo: seq<Byte>
    var overflow: bool
    const stagedBuf: array<Byte>
    var stagedLen: nat
    var pending: bool
    var cmd: Reg
    var len: Reg
    const m2sRegs: array<Reg>
    var expected: nat
    var written: nat
    var status: Reg
    var s2mLen: Reg
    const s2mRegs: array<Reg>

    ghost predicate Valid()
      reads this, stagedBuf, m2sRegs, s2mRegs
    {
      && stagedBuf.Length == l.maxBytes && m2sRegs.Length == s2mRegs.Length == l.maxRegs
      && m2sRegs != s2mRegs
      && stagedLen <= stagedBuf.Length
      && ModbusSpec.Valid(Abs())
    }

    ghost function Abs(): Slave
      requires stagedLen <= stagedBuf.Length
      reads this, stagedBuf, m2sRegs, s2mRegs
    {
      Slave(l, enabled, rxCap, rxFifo, overflow, stagedBuf[..stagedLen], pending,
            M2s(cmd, len, m2sRegs[..], expected, written), status, s2mLen, s2mRegs[..])
    }

    /** An initialised slave that is not configured yet: it has no room to receive. */
    constructor (layout: Layout)
      requires Sound(layout)
      ensures Valid() && fresh(stagedBuf) && fresh(m2sRegs) && fresh(s2mRegs)
      ensures Abs() == Slave(layout, false, 0, [], false, [], false,
                             M2s(0, 0, seq(layout.maxRegs, i => 0), 0, 0), 0, 0, seq(layout.maxRegs, i => 0))
    {
      l, enabled, rxCap, rxFifo, overflow := layout, false, 0, [], false;
      stagedBuf := new Byte[layout.maxBytes](_ => 0);
      stagedLen, pending := 0, false;
      cmd, len, expected, written, status, s2mLen := 0, 0, 0, 0, 0, 0;
      m2sRegs := new Reg[layout.maxRegs](_ => 0);
      s2mRegs := new Reg[layout.maxRegs](_ => 0);
      new;
      assert m2sRegs[..] == seq(layout.maxRegs, i => 0) && s2mRegs[..] == seq(layout.maxRegs, i => 0);
    }

    /** `settingsOk` is the answer of the UART settings' own validation; the two memory answers are those
        of the receive queue's and of the staging buffer's allocation. */
    method Configure(settingsOk: bool, capacity: int, rxMemory: bool, stagedMemory: bool) returns (err: Option<Error>)
      requires Valid()
      modifies this
      ensures Valid()
      ensures err == if !settingsOk || capacity < 1 then Some(BadArg)
                     else if rxMemory && stagedMemory then None else Some(NoMemory)
      ensures Abs() == if err == Some(BadArg) || !rxMemory then old(Abs())
                       else if !stagedMemory then old(Abs()).(rxCap := capacity, rxFifo := [])
                       else old(Abs()).(rxCap := capacity, rxFifo := [], overflow := false,
                                        staged := [], pending := false)
    {
      if !settingsOk { return Some(BadArg); }
      if capacity < 1 { return Some(BadArg); }
      if !rxMemory { return Some(NoMemory); }
      rxCap, rxFifo := capacity, [];
      if !stagedMemory { return Some(NoMemory); }
      overflow := false;
      stagedLen := 0;
      pending := false;
      return None;
    }

    /** Answers the master that there is no message. */
    method AnswerNothing()
      requires Valid()
      modifies this`status, this`s2mLen, s2mRegs
      ensures Valid()
      ensures Abs() == old(Abs()).(status := l.noData, s2mLen := 0, s2mRegs := seq(l.maxRegs, i => 0))
    {
      status := l.noData;
      s2mLen := 0;
      FillZero(s2mRegs);
    }

    method SetEnabled(on: bool)
      requires Valid()
      modifies this, s2mRegs
      ensures Valid() && Abs() == Enable(old(Abs()), on)
      ensures enabled == on
      ensures on ==>
                && rxFifo == [] && !overflow && !pending && stagedLen == 0
                && status == l.noData && s2mLen == 0 && forall i :: 0 <= i < s2mRegs.Length ==> s2mRegs[i] == 0
      ensures !on ==> Abs() == old(Abs()).(enabled := false)
      ensures (cmd, len, expected, written, rxCap) == old((cmd, len, expected, written, rxCap))
    {
      enabled := on;
      if on {
        rxFifo, overflow := [], false;
        pending, stagedLen := false, 0;
        AnswerNothing();
      }
    }

    /** Takes the first `length` bytes of `buf`. */
    method Write(buf: seq<Byte>, length: int) returns (err: Option<Error>, accepted: nat)
      requires Valid() && length <= |buf|
      modifies this, stagedBuf
      ensures Valid()
      ensures if length < 0 then err == Some(BadArg) && accepted == 0 && Abs() == old(Abs())
              else (Abs(), err, accepted) == AppWrite(old(Abs()), buf[..length])
      ensures length >= 0 ==>
                && err == (if old(pending) then Some(Busy) else None)
                && accepted == (if old(pending) then 0 else Min(length, l.maxBytes))
                && pending == (old(pending) || accepted > 0)
                && stagedBuf[..stagedLen] == (if old(pending) then old(stagedBuf[..stagedLen]) else buf[..accepted])
      ensures Abs() == old(Abs()).(staged := Abs().staged, pending := pending)
    {
      if length < 0 { return Some(BadArg), 0; }
      if pending { return Some(Busy), 0; }
      var sendLen := if length > l.maxBytes then l.maxBytes else length;
      var i := 0;
      while i < sendLen
        invariant 0 <= i <= sendLen
        invariant stagedBuf[..i] == buf[..i]
        invariant unchanged(this) && m2sRegs[..] == old(m2sRegs[..]) && s2mRegs[..] == old(s2mRegs[..])
      {
        stagedBuf[i] := buf[i];
        i := i + 1;
      }
      assert buf[..length][..sendLen] == buf[..sendLen];
      stagedLen := sendLen;
      pending := sendLen > 0;
      return None, sendLen;
    }

    method Read(n: int) returns (err: Option<Error>, bytes: seq<Byte>)
      requires Valid()
      modifies this
      ensures Valid()
      ensures if n < 0 then err == Some(BadArg) && bytes == [] && Abs() == old(Abs())
              else (Abs(), err, bytes) == AppRead(old(Abs()), n)
      ensures n >= 0 ==> err == if old(overflow) then Some(Overflow) else None
      ensures bytes + rxFifo == old(rxFifo) && |bytes| == if err.None? then Min(n, |old(rxFifo)|) else 0
      ensures overflow == (old(overflow) && n < 0)
      ensures Abs() == old(Abs()).(rxFifo := rxFifo, overflow := overflow)
    {
      if n < 0 { return Some(BadArg), []; }
      if overflow {
        overflow := false;
        return Some(Overflow), [];
      }
      err, bytes := None, Front(rxFifo, n);
      rxFifo := Rest(rxFifo, n);
    }

    method HoldingRegRd(addr: nat) returns (reg: Option<Reg>)
      requires Valid()
      ensures reg == RegRead(Abs(), addr)
      ensures reg.None? <==> !enabled
      ensures enabled && addr == l.s2mStatus ==> reg == Some(status)
      ensures enabled && addr == l.s2mStatus + 1 ==> reg == Some(s2mLen)
      ensures forall i :: enabled && 0 <= i < l.maxRegs && addr == l.s2mData + i ==> reg == Some(s2mRegs[i])
      ensures (enabled && addr != l.s2mStatus && addr != l.s2mStatus + 1
               && (addr < l.s2mData || addr >= l.s2mData + l.maxRegs)) ==> reg == Some(0)
    {
      if !enabled { return None; }
      if addr == l.s2mStatus { return Some(status); }
      if addr == l.s2mStatus + 1 { return Some(s2mLen); }
      if addr >= l.s2mData && addr < l.s2mData + l.maxRegs {
        return Some(s2mRegs[addr - l.s2mData]);
      }
      return Some(0);
    }

    /** Hands the staged message to the master. */
    method GiveMessage()
      requires Valid() && pending
      modifies this`status, this`s2mLen, this`pending, this`stagedLen, s2mRegs
      ensures Valid() && Abs() == Poll(old(Abs()))
      ensures !pending && stagedLen == 0 && status == l.hasData && s2mLen == old(stagedLen)
      ensures Unpack(s2mRegs[..], s2mLen) == old(stagedBuf[..stagedLen])
    {
      ghost var message := stagedBuf[..stagedLen];
      status := l.hasData;
      s2mLen := stagedLen;
      PackBytes(stagedBuf, stagedLen, s2mRegs);
      UnpackPack(message, s2mRegs[..]);
      pending := false;
      stagedLen := 0;
    }

    method PutTxStagedIntoS2m()
      requires Valid()
      modifies this, s2mRegs
      ensures Valid() && Abs() == Poll(old(Abs()))
      ensures !pending
      ensures if old(pending) then
                status == l.hasData && Unpack(s2mRegs[..], s2mLen) == old(stagedBuf[..stagedLen])
              else status == l.noData && s2mLen == 0
    {
      if pending && stagedLen > 0 {
        GiveMessage();
      } else {
        AnswerNothing();
      }
    }

    /** `post` says that the reader's semaphore is posted. */
    method PutM2sIntoRxFifo() returns (post: bool)
      requires Valid()
      modifies this
      ensures Valid()
      ensures Abs() == PutBlob(old(Abs()), Unpack(m2sRegs[..], Min(len, l.maxBytes)))
      ensures var blob := Unpack(m2sRegs[..], Min(len, l.maxBytes));
              var fits := Min(|blob|, rxCap - |old(rxFifo)|);
        && rxFifo == old(rxFifo) + blob[..fits]
        && overflow == (old(overflow) || fits < |blob|) && (post <==> fits > 0)
    {
      var byteLen: int := len;
      if byteLen > l.maxBytes {
        byteLen := l.maxBytes;
      }
      var tmp := UnpackRegs(m2sRegs, byteLen);
      var pushed := Room(rxFifo, rxCap, tmp[..]);
      rxFifo := Push(rxFifo, rxCap, tmp[..]);
      if pushed < byteLen {
        overflow := true;
      }
      post := pushed > 0;
    }

    /** A command register starts a new transaction. */
    method WriteCommand(reg: Reg)
      requires Valid() && enabled
      modifies this`cmd, this`len, this`expected, this`written, m2sRegs
      ensures Valid() && Abs() == RegWrite(old(Abs()), l.m2sCmd, reg)
    {
      cmd, len, expected, written := reg, 0, 0, 0;
      FillZero(m2sRegs);
    }

    /** The length register; behind a poll command it is the poll. */
    method WriteLength(reg: Reg)
      requires Valid() && enabled
      modifies this, s2mRegs
      ensures Valid() && Abs() == RegWrite(old(Abs()), l.m2sCmd + 1, reg)
    {
      len := reg;
      var n: int := len;
      if n > l.maxBytes {
        n := l.maxBytes;
      }
      expected := Min(BlobRegs(n), l.maxRegs);
      if cmd == l.giveCmd {
        PutTxStagedIntoS2m();
      }
    }

    /** A data register; the last one expected, and every further one, consumes the blob. */
    method WriteData(addr: nat, reg: Reg)
      requires Valid() && enabled && IsData(l, addr)
      modifies this, m2sRegs
      ensures Valid() && Abs() == RegWrite(old(Abs()), addr, reg)
    {
      m2sRegs[addr - l.m2sData] := reg;
      assert m2sRegs[..] == old(m2sRegs[..])[addr - l.m2sData := reg];
      written := written + 1;
      if cmd == l.putCmd {
        if expected > 0 && written >= expected {
          var _ := PutM2sIntoRxFifo();
        }
      }
    }

    method HoldingRegWr(addr: nat, reg: Reg)
      requires Valid()
      modifies this, m2sRegs, s2mRegs
      ensures Valid() && Abs() == RegWrite(old(Abs()), addr, reg)
    {
      if !enabled { return; }
      if addr == l.m2sCmd {
        WriteCommand(reg);
      } else if addr == l.m2sCmd + 1 {
        WriteLength(reg);
      } else if addr >= l.m2sData && addr < l.m2sData + l.maxRegs {
        WriteData(addr, reg);
      }
    }
  }
}
