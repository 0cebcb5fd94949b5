/** A bounded byte stream between a producer that drops what does not fit and a reader that
    looks at the overflow latch first and pops in a second, separate step.  The receive paths of
    the UART, of CAN and of the Modbus slave are instances. */
module LatchedStream {
  import opened Bytes

  datatype Stream = Stream(
    cap: nat,
    fifo: seq<Byte>,
    latched: bool,          // what the reader's check looks at
    checked: bool,          // the reader has passed the check and not popped yet
    received: seq<Byte>,    // everything the producer took from the hardware
    delivered: seq<Byte>,   // everything the reader returned
    dropped: nat,           // bytes that found no room
    unreported: nat,        // of these, dropped since the latch was last cleared
    faults: nat,            // latches set for another reason since then
    reports: nat)           // times the latch was cleared

  function Fresh(cap: nat): Stream {
    Stream(cap, [], false, false, [], [], 0, 0, 0, 0)
  }

  function Arrive(s: Stream, bs: seq<Byte>): Stream
    requires |s.fifo| <= s.cap
  {
    var lost := |bs| - Room(s.fifo, s.cap, bs);
    s.(fifo := Push(s.fifo, s.cap, bs), received := s.received + bs, latched := s.latched || lost > 0,
       dropped := s.dropped + lost, unreported := s.unreported + lost)
  }

  function Fault(s: Stream): Stream { s.(latched := true, faults := s.faults + 1) }

  function Check(s: Stream): Stream { s.(checked := !s.latched) }

  function Pop(s: Stream, n: nat): Stream {
    if s.checked
    then s.(fifo := Rest(s.fifo, n), delivered := s.delivered + Front(s.fifo, n), checked := false)
    else s
  }

  function Report(s: Stream): Stream {
    s.(latched := false, unreported := 0, faults := 0, reports := s.reports + 1, checked := false)
  }

  /** What every interleaving of producer and reader keeps. */
  ghost predicate Inv(s: Stream) {
    && |s.fifo| <= s.cap
    && |s.received| == |s.delivered| + |s.fifo| + s.dropped
    && Subseq(s.delivered + s.fifo, s.received)
    && (s.latched <==> s.unreported > 0 || s.faults > 0)
    && s.unreported <= s.dropped
    && (s.reports == 0 ==>
          && s.unreported == s.dropped
          && s.delivered <= s.received
          // A reader that passed the check still holds a contiguous stream: bytes can only be
          // lost once the queue is full, and nothing enters a full queue before the pop.
          && (s.dropped == 0 || s.checked ==> s.delivered + s.fifo <= s.received)
          && (s.dropped > 0 && s.checked ==> |s.fifo| == s.cap))
  }

  lemma FreshInv(cap: nat)
    ensures Inv(Fresh(cap))
  {}

  lemma ArriveInv(s: Stream, bs: seq<Byte>)
    requires Inv(s)
    ensures Inv(Arrive(s, bs))
  {
    var k := Room(s.fifo, s.cap, bs);
    SubseqKeep(s.delivered + s.fifo, s.received, bs[..k]);
    SubseqSkip(s.delivered + s.fifo + bs[..k], s.received + bs[..k], bs[k..]);
    assert s.received + bs[..k] + bs[k..] == s.received + bs;
    assert s.delivered + s.fifo + bs[..k] == s.delivered + (s.fifo + bs[..k]);
    if s.reports == 0 && s.delivered + s.fifo <= s.received {
      if s.dropped == 0 {
        SubseqLength(s.delivered + s.fifo, s.received);
      }
    }
  }

  lemma PopInv(s: Stream, n: nat)
    requires Inv(s)
    ensures Inv(Pop(s, n))
  {
    assert s.delivered + Front(s.fifo, n) + Rest(s.fifo, n) == s.delivered + s.fifo;
  }

  /** The latch, the reader's check and the report keep the invariant as well. */
  lemma ReaderInv(s: Stream)
    requires Inv(s)
    ensures Inv(Fault(s)) && Inv(Check(s)) && Inv(Report(s))
  {
    if s.reports == 0 && s.dropped == 0 {
      SubseqLength(s.delivered + s.fifo, s.received);
    }
  }
}
