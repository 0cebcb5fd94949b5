/** Every interleaving of the master's register accesses with the application's calls. */
module ModbusRuns {
  import opened Bytes
  import opened ModbusSpec
  import LatchedStream

  /** The slave with what happened since it was last enabled. */
  datatype System = System(
    s: Slave,
    offered: seq<Byte>,        // blobs consumed from the master, one after the other
    delivered: seq<Byte>,      // returned by successful reads
    lost: nat, unreported: nat, reports: nat,
    accepted: seq<seq<Byte>>,  // non-empty messages that `write` accepted
    handed: seq<seq<Byte>>)    // messages that a poll moved into the master's registers

  datatype Event =
    | WriteReg(addr: nat, reg: Reg) | ReadReg(address: nat)
    | Read(n: nat) | Write(buf: seq<Byte>) | SetEnabled(on: bool)

  function Start(s: Slave): System { System(s, [], [], 0, 0, 0, [], []) }

  /** The blob that a register write makes the slave consume. */
  function Consumed(s: Slave, addr: nat, reg: Reg): seq<Byte>
    requires Valid(s)
  {
    var (m, blob) := M2sStep(s.l, s.m, addr, reg);
    if s.enabled && blob.Some? then blob.value else []
  }

  function Step(x: System, e: Event): System
    requires Valid(x.s)
  {
    match e
    case WriteReg(addr, reg) =>
      var blob := Consumed(x.s, addr, reg);
      var lost := |blob| - Room(x.s.rxFifo, x.s.rxCap, blob);
      x.(s := RegWrite(x.s, addr, reg),
         offered := x.offered + blob, lost := x.lost + lost, unreported := x.unreported + lost,
         handed := if IsPoll(x.s, addr) && x.s.pending then x.handed + [x.s.staged] else x.handed)
    case ReadReg(_) => x
    case Read(n) =>
      var (t, err, bytes) := AppRead(x.s, n);
      if err.Some? then x.(s := t, unreported := 0, reports := x.reports + 1)
      else x.(s := t, delivered := x.delivered + bytes)
    case Write(buf) =>
      var (t, err, n) := AppWrite(x.s, buf);
      x.(s := t, accepted := if n > 0 then x.accepted + [buf[..n]] else x.accepted)
    case SetEnabled(on) =>
      if on then Start(Enable(x.s, on)) else x.(s := Enable(x.s, on))
  }

  lemma RegWriteValid(s: Slave, addr: nat, reg: Reg)
    requires Valid(s)
    ensures Valid(RegWrite(s, addr, reg)) && RegWrite(s, addr, reg).l == s.l
    ensures RegWrite(s, addr, reg).enabled == s.enabled && RegWrite(s, addr, reg).rxCap == s.rxCap
  {}

  lemma StepValid(x: System, e: Event)
    requires Valid(x.s)
    ensures Valid(Step(x, e).s) && Step(x, e).s.l == x.s.l
  {
    if e.WriteReg? { RegWriteValid(x.s, e.addr, e.reg); }
  }

  ghost function Run(x: System, es: seq<Event>): (r: System)
    requires Valid(x.s)
    ensures Valid(r.s) && r.s.l == x.s.l
    decreases |es|
  {
    if es == [] then x else StepValid(x, es[0]); Run(Step(x, es[0]), es[1..])
  }

  // ---------------------------------------------------------------- slave to master

  /** The message that sits in the staging slot. */
  function InFlight(s: Slave): seq<seq<Byte>> { if s.pending then [s.staged] else [] }

  lemma StepExactlyOnce(x: System, e: Event)
    requires Valid(x.s) && x.accepted == x.handed + InFlight(x.s)
    ensures Step(x, e).accepted == Step(x, e).handed + InFlight(Step(x, e).s)
  {
    if e.Write? && !x.s.pending && e.buf != [] {
      assert x.handed + [] == x.handed;
    } else if e.WriteReg? && IsPoll(x.s, e.addr) && x.s.pending {
      assert x.handed + [x.s.staged] + [] == x.handed + [x.s.staged];
    }
  }

  /** Exactly once and in order: the accepted messages are the ones handed to polls followed by
      the one still staged, whatever the interleaving since the slave was enabled. */
  lemma {:induction false} MessagesExactlyOnce(x: System, es: seq<Event>)
    requires Valid(x.s) && x.accepted == x.handed + InFlight(x.s)
    ensures Run(x, es).accepted == Run(x, es).handed + InFlight(Run(x, es).s)
    decreases |es|
  {
    if es != [] {
      StepExactlyOnce(x, es[0]);
      StepValid(x, es[0]);
      MessagesExactlyOnce(Step(x, es[0]), es[1..]);
    }
  }

  /** Enabling establishes the hypothesis of the theorems about runs. */
  lemma EnableStartsFresh(x: System)
    requires Valid(x.s)
    ensures var y := Step(x, SetEnabled(true));
      Valid(y.s) && y.s.enabled && y.accepted == y.handed + InFlight(y.s) && StreamInv(y)
  {
    LatchedStream.FreshInv(x.s.rxCap);
  }

  /** No poll and no enable call happens along the run. */
  ghost predicate Quiet(x: System, es: seq<Event>)
    requires Valid(x.s)
    decreases |es|
  {
    es == [] ||
    (StepValid(x, es[0]);
     && !es[0].SetEnabled?
     && !(es[0].WriteReg? && IsPoll(x.s, es[0].addr))
     && Quiet(Step(x, es[0]), es[1..]))
  }

  lemma {:induction false} QuietKeepsRegisters(x: System, es: seq<Event>, k: nat)
    requires Valid(x.s) && Quiet(x, es) && k <= |es|
    ensures var r := Run(x, es[..k]).s;
      r.enabled == x.s.enabled && r.status == x.s.status && r.s2mLen == x.s.s2mLen && r.s2mRegs == x.s.s2mRegs
    decreases k
  {
    if k > 0 {
      StepValid(x, es[0]);
      QuietKeepsRegisters(Step(x, es[0]), es[1..], k - 1);
      assert es[..k][0] == es[0] && es[..k][1..] == es[1..][..k - 1];
    }
  }

  /** When the master reads: one point of the run for each register of the answer. */
  predicate Times(l: Layout, es: seq<Event>, when: seq<nat>) {
    |when| == 2 + l.maxRegs && forall i :: 0 <= i < |when| ==> when[i] <= |es|
  }

  /** A register read after the first `k` events. */
  ghost function ReadAfter(x: System, es: seq<Event>, k: nat, addr: nat): Option<Reg>
    requires Valid(x.s) && k <= |es|
  {
    RegRead(Run(x, es[..k]).s, addr)
  }

  ghost function DataReads(x: System, es: seq<Event>, when: seq<nat>): seq<Reg>
    requires Valid(x.s) && Times(x.s.l, es, when)
  {
    seq(x.s.l.maxRegs, i requires 0 <= i < x.s.l.maxRegs => DataRead(x, es, when, i))
  }

  ghost function DataRead(x: System, es: seq<Event>, when: seq<nat>, i: nat): Reg
    requires Valid(x.s) && Times(x.s.l, es, when) && i < x.s.l.maxRegs
  {
    ReadAfter(x, es, when[2 + i], x.s.l.s2mData + i).GetOr(0)
  }

  /** What the master assembles from single-register reads spread over a run: the status is read
      after `when[0]` events, the length after `when[1]`, data register i after `when[2 + i]`. */
  ghost function Assemble(x: System, es: seq<Event>, when: seq<nat>): Option<seq<Byte>>
    requires Valid(x.s) && Times(x.s.l, es, when)
  {
    var n := ReadAfter(x, es, when[1], x.s.l.s2mStatus + 1);
    if ReadAfter(x, es, when[0], x.s.l.s2mStatus) == Some(x.s.l.hasData)
       && n.Some? && BlobRegs(n.value) <= x.s.l.maxRegs
    then Some(Unpack(DataReads(x, es, when), n.value))
    else None
  }

  /** The message that the registers hold at one instant. */
  function Shown(s: Slave): Option<seq<Byte>>
    requires Valid(s)
  {
    if s.status == s.l.hasData && BlobRegs(s.s2mLen) <= s.l.maxRegs then Some(Unpack(s.s2mRegs, s.s2mLen)) else None
  }

  /** Reads spread over a run without polls see one consistent snapshot. */
  lemma ReadsAreConsistent(y: System, es: seq<Event>, when: seq<nat>)
    requires Valid(y.s) && y.s.enabled && Quiet(y, es)
    requires Times(y.s.l, es, when)
    ensures Assemble(y, es, when) == Shown(y.s)
  {
    ReadIsConsistent(y, es, when[0], y.s.l.s2mStatus);
    ReadIsConsistent(y, es, when[1], y.s.l.s2mStatus + 1);
    DataIsConsistent(y, es, when);
  }

  lemma DataIsConsistent(y: System, es: seq<Event>, when: seq<nat>)
    requires Valid(y.s) && y.s.enabled && Quiet(y, es)
    requires Times(y.s.l, es, when)
    ensures DataReads(y, es, when) == y.s.s2mRegs
  {
    forall i | 0 <= i < y.s.l.maxRegs
      ensures DataReads(y, es, when)[i] == y.s.s2mRegs[i]
    {
      DataReadIsConsistent(y, es, when, i);
    }
  }

  lemma DataReadIsConsistent(y: System, es: seq<Event>, when: seq<nat>, i: nat)
    requires Valid(y.s) && y.s.enabled && Quiet(y, es) && Times(y.s.l, es, when) && i < y.s.l.maxRegs
    ensures DataRead(y, es, when, i) == y.s.s2mRegs[i]
  {
    ReadIsConsistent(y, es, when[2 + i], y.s.l.s2mData + i);
    DataRegister(y.s, i);
  }

  lemma DataRegister(s: Slave, i: nat)
    requires Valid(s) && s.enabled && i < s.l.maxRegs
    ensures RegRead(s, s.l.s2mData + i) == Some(s.s2mRegs[i])
  {}

  lemma ReadIsConsistent(y: System, es: seq<Event>, k: nat, addr: nat)
    requires Valid(y.s) && Quiet(y, es) && k <= |es|
    ensures ReadAfter(y, es, k, addr) == RegRead(y.s, addr)
  {
    QuietKeepsRegisters(y, es, k);
  }

  lemma PollShows(s: Slave)
    requires Valid(s)
    ensures Shown(Poll(s)) == if s.pending then Some(s.staged) else None
  {
    if s.pending {
      UnpackPack(s.staged, Poll(s).s2mRegs);
    }
  }

  /** Snapshot: after a poll, the master's register reads give exactly the message that was staged
      at the poll, or the answer that there is none, even when application calls and blob
      transfers run between the single reads. */
  lemma SnapshotAnswer(x: System, addr: nat, reg: Reg, y: System, es: seq<Event>, when: seq<nat>)
    requires Valid(x.s) && IsPoll(x.s, addr) && y == Step(x, WriteReg(addr, reg))
    requires Valid(y.s) && Quiet(y, es)
    requires Times(y.s.l, es, when)
    ensures Assemble(y, es, when) == if x.s.pending then Some(x.s.staged) else None
  {
    ReadsAreConsistent(y, es, when);
    var t := x.s.(m := M2sStep(x.s.l, x.s.m, addr, reg).0);
    PollShows(t);
    assert y.s == Poll(t);
  }

  // ---------------------------------------------------------------- master to slave: the queue

  function Stream(x: System): LatchedStream.Stream {
    LatchedStream.Stream(x.s.rxCap, x.s.rxFifo, x.s.overflow, false, x.offered, x.delivered,
                         x.lost, x.unreported, 0, x.reports)
  }

  ghost predicate StreamInv(x: System) { Valid(x.s) && LatchedStream.Inv(Stream(x)) }

  lemma WriteRegStream(x: System, addr: nat, reg: Reg)
    requires StreamInv(x)
    ensures StreamInv(Step(x, WriteReg(addr, reg)))
  {
    var blob := Consumed(x.s, addr, reg);
    assert x.s.rxFifo + [] == x.s.rxFifo;
    LatchedStream.ArriveInv(Stream(x), blob);
    assert Stream(Step(x, WriteReg(addr, reg))) == LatchedStream.Arrive(Stream(x), blob);
  }

  lemma ReadStream(x: System, n: nat)
    requires StreamInv(x)
    ensures StreamInv(Step(x, Read(n)))
  {
    LatchedStream.ReaderInv(Stream(x));
    if x.s.overflow {
      assert Stream(Step(x, Read(n))) == LatchedStream.Report(Stream(x));
    } else {
      LatchedStream.PopInv(LatchedStream.Check(Stream(x)), n);
      assert Stream(Step(x, Read(n))) == LatchedStream.Pop(LatchedStream.Check(Stream(x)), n);
    }
  }

  lemma StepStream(x: System, e: Event)
    requires StreamInv(x)
    ensures StreamInv(Step(x, e))
  {
    StepValid(x, e);
    match e {
      case WriteReg(addr, reg) => WriteRegStream(x, addr, reg);
      case Read(n) => ReadStream(x, n);
      case SetEnabled(on) => LatchedStream.FreshInv(x.s.rxCap);
      case _ =>
    }
  }

  lemma {:induction false} RunStream(x: System, es: seq<Event>)
    requires StreamInv(x)
    ensures StreamInv(Run(x, es))
    decreases |es|
  {
    if es != [] {
      StepStream(x, es[0]);
      RunStream(Step(x, es[0]), es[1..]);
    }
  }

  /** As long as nothing was lost, one read of at least the queue's length delivers everything that was
      consumed from the master since the slave was enabled. */
  lemma ReadCatchesUp(x: System, n: nat)
    requires StreamInv(x) && x.lost == 0 && n >= |x.s.rxFifo|
    ensures Step(x, Read(n)).delivered == x.offered && Step(x, Read(n)).s.rxFifo == []
  {
    SubseqLength(x.delivered + x.s.rxFifo, x.offered);
    assert Front(x.s.rxFifo, n) == x.s.rxFifo;
  }

  /** A message is accepted, cut to the blob limit, exactly when nothing is staged and it is not empty;
      then it is the one staged. */
  lemma OfferIsAccepted(x: System, buf: seq<Byte>)
    requires Valid(x.s)
    ensures var y := Step(x, Write(buf)); var message := buf[..Min(|buf|, x.s.l.maxBytes)];
      if !x.s.pending && buf != []
      then y.accepted == x.accepted + [message] && y.s.pending && y.s.staged == message && y.handed == x.handed
      else y.accepted == x.accepted && y.s.pending == x.s.pending && (x.s.pending ==> y.s.staged == x.s.staged)
  {}

  // ---------------------------------------------------------------- master to slave: the protocol

  datatype Access = Access(addr: nat, reg: Reg)

  /** The blobs that a list of register writes completes. */
  function Blobs(l: Layout, m: M2s, ws: seq<Access>): (r: (M2s, seq<seq<Byte>>))
    requires Sound(l) && |m.regs| == l.maxRegs
    ensures |r.0.regs| == l.maxRegs
    decreases |ws|
  {
    if ws == [] then (m, [])
    else
      var (n, blob) := M2sStep(l, m, ws[0].addr, ws[0].reg);
      var (k, more) := Blobs(l, n, ws[1..]);
      (k, (if blob.Some? then [blob.value] else []) + more)
  }

  lemma {:induction false} BlobsAppend(l: Layout, m: M2s, a: seq<Access>, b: seq<Access>)
    requires Sound(l) && |m.regs| == l.maxRegs
    ensures var (n, first) := Blobs(l, m, a); var (k, second) := Blobs(l, n, b);
      Blobs(l, m, a + b) == (k, first + second)
    decreases |a|
  {
    if a == [] {
      assert a + b == b && [] + Blobs(l, m, b).1 == Blobs(l, m, b).1;
    } else {
      var (n, blob) := M2sStep(l, m, a[0].addr, a[0].reg);
      assert (a + b)[0] == a[0] && (a + b)[1..] == a[1..] + b;
      BlobsAppend(l, n, a[1..], b);
      var one := if blob.Some? then [blob.value] else [];
      var (k, first) := Blobs(l, n, a[1..]);
      assert one + (first + Blobs(l, k, b).1) == one + first + Blobs(l, k, b).1;
    }
  }

  /** Writing the registers of a block one by one in ascending order, as Write Multiple Registers
      does (MODBUS Application Protocol Specification V1.1b3, section 6.12). */
  function Ascending(base: nat, rs: seq<Reg>): seq<Access> {
    seq(|rs|, i requires 0 <= i < |rs| => Access(base + i, rs[i]))
  }

  /** One blob from a conforming master: command, length, then exactly its data registers. */
  function Transaction(l: Layout, blob: seq<Byte>): seq<Access>
    requires |blob| < 0x1_0000
  {
    [Access(l.m2sCmd, l.putCmd), Access(l.m2sCmd + 1, |blob|)] + Ascending(l.m2sData, Pack(blob))
  }

  /** What a conforming master does next: send a blob, or ask for a message with any length field. */
  datatype Deal = PutBlob(blob: seq<Byte>) | PollSlave(len: Reg)

  predicate Fits(l: Layout, d: Deal) { d.PutBlob? ==> 0 < |d.blob| <= l.maxBytes }

  function DealAccesses(l: Layout, d: Deal): seq<Access>
    requires Sound(l) && Fits(l, d)
  {
    match d
    case PutBlob(blob) => Transaction(l, blob)
    case PollSlave(len) => [Access(l.m2sCmd, l.giveCmd), Access(l.m2sCmd + 1, len)]
  }

  function Conversation(l: Layout, deals: seq<Deal>): seq<Access>
    requires Sound(l) && forall d :: d in deals ==> Fits(l, d)
  {
    if deals == [] then [] else DealAccesses(l, deals[0]) + Conversation(l, deals[1..])
  }

  /** The blobs sent, in order. */
  function Puts(deals: seq<Deal>): seq<seq<Byte>> {
    if deals == [] then [] else (if deals[0].PutBlob? then [deals[0].blob] else []) + Puts(deals[1..])
  }

  /** The registers after the first `i` of the data registers have arrived. */
  ghost predicate Midway(l: Layout, m: M2s, blob: seq<Byte>, i: nat) {
    && |m.regs| == l.maxRegs && i <= l.maxRegs && |blob| < 0x1_0000
    && m.cmd == l.putCmd && m.len == |blob| && m.expected == BlobRegs(|blob|)
    && m.written == i <= m.expected && m.regs[..i] == Pack(blob)[..i]
  }

  lemma {:induction false} DataCompletesBlob(l: Layout, m: M2s, blob: seq<Byte>, i: nat)
    requires Sound(l) && 0 < |blob| <= l.maxBytes && Midway(l, m, blob, i) && i < BlobRegs(|blob|)
    ensures Blobs(l, m, Ascending(l.m2sData, Pack(blob))[i..]).1 == [blob]
    decreases BlobRegs(|blob|) - i
  {
    var ws := Ascending(l.m2sData, Pack(blob));
    var (n, done) := M2sStep(l, m, ws[i].addr, ws[i].reg);
    assert ws[i..][0] == ws[i] && ws[i..][1..] == ws[i + 1..];
    assert n.regs[..i + 1] == Pack(blob)[..i + 1];
    if i + 1 == BlobRegs(|blob|) {
      assert Pack(blob)[..i + 1] == Pack(blob) && n.regs[..i + 1] <= n.regs;
      UnpackPack(blob, n.regs);
      assert ws[i + 1..] == [];
    } else {
      DataCompletesBlob(l, n, blob, i + 1);
    }
  }

  /** The state after any command and length, from any earlier state; no blob is completed. */
  lemma HeaderBlobs(l: Layout, m: M2s, cmd: Reg, len: Reg)
    requires Sound(l) && |m.regs| == l.maxRegs
    ensures Blobs(l, m, [Access(l.m2sCmd, cmd), Access(l.m2sCmd + 1, len)])
         == (M2s(cmd, len, seq(l.maxRegs, i => 0), BlobRegs(Min(len, l.maxBytes)), 0), [])
  {
    var head := [Access(l.m2sCmd, cmd), Access(l.m2sCmd + 1, len)];
    var tail := [Access(l.m2sCmd + 1, len)];
    var a := M2s(cmd, 0, seq(l.maxRegs, i => 0), 0, 0);
    assert M2sStep(l, m, l.m2sCmd, cmd) == (a, None);
    var (b, none) := M2sStep(l, a, l.m2sCmd + 1, len);
    assert none.None? && head[1..] == tail && tail[1..] == [] && tail != [];
    assert Blobs(l, b, tail[1..]) == (b, []);
    assert Blobs(l, a, tail).0 == b && Blobs(l, a, tail).1 == [];
  }

  /** Round trip of one transaction, from any earlier state: it completes its blob, once. */
  lemma TransactionCompletesBlob(l: Layout, m: M2s, blob: seq<Byte>)
    requires Sound(l) && |m.regs| == l.maxRegs && 0 < |blob| <= l.maxBytes
    ensures Blobs(l, m, Transaction(l, blob)).1 == [blob]
  {
    var head := [Access(l.m2sCmd, l.putCmd), Access(l.m2sCmd + 1, |blob|)];
    var ws := Ascending(l.m2sData, Pack(blob));
    HeaderBlobs(l, m, l.putCmd, |blob|);
    var b := Blobs(l, m, head).0;
    DataCompletesBlob(l, b, blob, 0);
    assert ws[0..] == ws;
    BlobsAppend(l, m, head, ws);
  }

  /** A poll completes no blob, whatever its length field says. */
  lemma DealCompletes(l: Layout, m: M2s, d: Deal)
    requires Sound(l) && |m.regs| == l.maxRegs && Fits(l, d)
    ensures Blobs(l, m, DealAccesses(l, d)).1 == if d.PutBlob? then [d.blob] else []
  {
    match d
    case PutBlob(blob) => TransactionCompletesBlob(l, m, blob);
    case PollSlave(len) => HeaderBlobs(l, m, l.giveCmd, len);
  }

  /** A master that sends and polls in any order completes exactly the blobs it sends. */
  lemma {:induction false} ConversationCompletesPuts(l: Layout, m: M2s, deals: seq<Deal>)
    requires Sound(l) && |m.regs| == l.maxRegs
    requires forall d :: d in deals ==> Fits(l, d)
    ensures Blobs(l, m, Conversation(l, deals)).1 == Puts(deals)
    decreases |deals|
  {
    if deals != [] {
      assert deals[0] in deals;
      DealCompletes(l, m, deals[0]);
      ConversationCompletesPuts(l, Blobs(l, m, DealAccesses(l, deals[0])).0, deals[1..]);
      BlobsAppend(l, m, DealAccesses(l, deals[0]), Conversation(l, deals[1..]));
    }
  }

  /** Extra data registers consume the blob again: after command and length, `|ws|` data writes
      consume it once for every write from the last expected one on; a blob of length zero is
      never consumed. */
  lemma {:induction false} ConsumptionCount(l: Layout, m: M2s, ws: seq<Access>)
    requires Sound(l) && |m.regs| == l.maxRegs && m.cmd == l.putCmd
    requires forall i :: 0 <= i < |ws| ==> IsData(l, ws[i].addr)
    ensures |Blobs(l, m, ws).1|
         == if m.expected == 0 || m.written + |ws| < m.expected then 0
            else Min(|ws|, m.written + |ws| - m.expected + 1)
    decreases |ws|
  {
    if ws != [] {
      var (n, blob) := M2sStep(l, m, ws[0].addr, ws[0].reg);
      ConsumptionCount(l, n, ws[1..]);
    }
  }

  /** So a blob is consumed exactly once just when it has exactly its data registers. */
  lemma OnceIffExact(l: Layout, m: M2s, len: Reg, ws: seq<Access>)
    requires Sound(l) && |m.regs| == l.maxRegs
    requires forall i :: 0 <= i < |ws| ==> IsData(l, ws[i].addr)
    ensures |Blobs(l, m, [Access(l.m2sCmd, l.putCmd), Access(l.m2sCmd + 1, len)] + ws).1| == 1
       <==> len > 0 && |ws| == BlobRegs(Min(len, l.maxBytes))
  {
    var head := [Access(l.m2sCmd, l.putCmd), Access(l.m2sCmd + 1, len)];
    HeaderBlobs(l, m, l.putCmd, len);
    var b := Blobs(l, m, head).0;
    ConsumptionCount(l, b, ws);
    BlobsAppend(l, m, head, ws);
  }

  // ---------------------------------------------------------------- both together

  /** The register writes among the events. */
  function Accesses(es: seq<Event>): seq<Access> {
    if es == [] then []
    else (if es[0].WriteReg? then [Access(es[0].addr, es[0].reg)] else []) + Accesses(es[1..])
  }

  lemma StepOffers(x: System, e: Event)
    requires Valid(x.s) && x.s.enabled && !e.SetEnabled?
    ensures Valid(Step(x, e).s) && Step(x, e).s.enabled && Step(x, e).s.l == x.s.l
    ensures var (m, blobs) := Blobs(x.s.l, x.s.m, Accesses([e]));
      Step(x, e).s.m == m && Step(x, e).offered == x.offered + Concat(blobs)
  {
    StepValid(x, e);
    assert [e][1..] == [];
    if e.WriteReg? {
      var one := [Access(e.addr, e.reg)];
      assert Accesses([e]) == one && one[1..] == [];
      var blob := Consumed(x.s, e.addr, e.reg);
      var blobs: seq<seq<Byte>> := [blob];
      assert blobs[1..] == [] && Concat(blobs) == blob + Concat(blobs[1..]) == blob;
    }
  }

  /** What the application can read depends on the master's register writes only, not on how the
      application's calls and the master's register reads interleave with them. */
  lemma {:induction false} RunOffers(x: System, es: seq<Event>)
    requires Valid(x.s) && x.s.enabled
    requires forall i :: 0 <= i < |es| ==> !es[i].SetEnabled?
    ensures Run(x, es).offered == x.offered + Concat(Blobs(x.s.l, x.s.m, Accesses(es)).1)
    decreases |es|
  {
    if es == [] {
      assert x.offered + [] == x.offered;
    } else {
      StepOffers(x, es[0]);
      RunOffers(Step(x, es[0]), es[1..]);
      BlobsCons(x.s.l, x.s.m, es, x.offered);
    }
  }

  lemma BlobsCons(l: Layout, m: M2s, es: seq<Event>, before: seq<Byte>)
    requires Sound(l) && |m.regs| == l.maxRegs && es != []
    ensures var (n, first) := Blobs(l, m, Accesses([es[0]])); var second := Blobs(l, n, Accesses(es[1..])).1;
      before + Concat(Blobs(l, m, Accesses(es)).1) == before + Concat(first) + Concat(second)
  {
    AccessesCons(es);
    ConcatBlobs(l, m, Accesses([es[0]]), Accesses(es[1..]), before);
  }

  lemma ConcatBlobs(l: Layout, m: M2s, a: seq<Access>, b: seq<Access>, before: seq<Byte>)
    requires Sound(l) && |m.regs| == l.maxRegs
    ensures var (n, first) := Blobs(l, m, a);
      before + Concat(Blobs(l, m, a + b).1) == before + Concat(first) + Concat(Blobs(l, n, b).1)
  {
    BlobsAppend(l, m, a, b);
    var (n, first) := Blobs(l, m, a);
    ConcatAppend(first, Blobs(l, n, b).1);
    Associate(before, Concat(first), Concat(Blobs(l, n, b).1));
  }

  lemma AccessesCons(es: seq<Event>)
    requires es != []
    ensures Accesses(es) == Accesses([es[0]]) + Accesses(es[1..])
  {
    assert [es[0]][1..] == [];
  }

  /** Master-to-slave round trip: when the master's register writes are transactions of non-empty
      blobs and polls in any order, then under any interleaving with the application, and with no
      overflow, what the application has read and what is still queued is exactly the concatenation
      of the blobs. */
  lemma BlobRoundTrip(x: System, es: seq<Event>, deals: seq<Deal>)
    requires StreamInv(x) && x.s.enabled && x.offered == [] && x.delivered == []
    requires forall i :: 0 <= i < |es| ==> !es[i].SetEnabled?
    requires forall d :: d in deals ==> Fits(x.s.l, d)
    requires Accesses(es) == Conversation(x.s.l, deals)
    ensures var r := Run(x, es); var sent := Concat(Puts(deals));
      && |sent| == |r.delivered| + |r.s.rxFifo| + r.lost
      && Subseq(r.delivered + r.s.rxFifo, sent)
      && (r.lost == 0 ==> r.delivered + r.s.rxFifo == sent)
      && (r.s.overflow <==> r.unreported > 0)
  {
    RunOffers(x, es);
    RunStream(x, es);
    ConversationCompletesPuts(x.s.l, x.s.m, deals);
    var r := Run(x, es);
    assert r.offered == [] + Concat(Puts(deals)) == Concat(Puts(deals));
    if r.lost == 0 {
      SubseqLength(r.delivered + r.s.rxFifo, r.offered);
    }
  }

  /** And the application gets it all: without a loss, one more read of at least the queue's length has
      delivered exactly the blobs sent. */
  lemma BlobsDelivered(x: System, es: seq<Event>, deals: seq<Deal>, n: nat)
    requires StreamInv(x) && x.s.enabled && x.offered == [] && x.delivered == []
    requires forall i :: 0 <= i < |es| ==> !es[i].SetEnabled?
    requires forall d :: d in deals ==> Fits(x.s.l, d)
    requires Accesses(es) == Conversation(x.s.l, deals)
    requires Run(x, es).lost == 0 && n >= |Run(x, es).s.rxFifo|
    ensures Step(Run(x, es), Read(n)).delivered == Concat(Puts(deals))
  {
    RunStream(x, es);
    BlobRoundTrip(x, es, deals);
    ReadCatchesUp(Run(x, es), n);
    SubseqLength(Run(x, es).delivered + Run(x, es).s.rxFifo, Run(x, es).offered);
  }
}
