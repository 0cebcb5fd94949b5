/** The ADC scanner: an alarm interrupt feeds a semaphore capped at one, a reader thread scans on
    every token, and a controller activates and deactivates it. */
module AdcRuns {

  datatype Reader = Off | Testing | Waiting | Woken | Scanning | InCallback | Exited(failed: bool)

  /** Where the controller stands inside `deactivate`. */
  datatype Control = Idle | AlarmCancelled | PauseRaised | SemGiven

  datatype System = System(
    sem: nat, shouldPause: bool, armed: bool, active: bool,
    reader: Reader, control: Control,
    next: nat,              // sequence number of the next scan
    delivered: seq<nat>,    // sequence numbers handed to the callback, over the object's life
    alarms: nat,            // alarms fired in this activation
    scans: nat)             // scans handed to the callback in this activation

  datatype Event =
    | Activate | AlarmFires
    | TestPause | Take | TestAfterTake
    | Scan(readOk: bool) | CallbackReturns(ok: bool)
    | Cancel | RaisePause | GiveSem | FinishDeactivate

  const START: System := System(0, false, false, false, Off, Idle, 0, [], 0, 0)

  predicate Gone(r: Reader) { r.Off? || r.Exited? }

  /** One atomic step.  An activation follows only once the previous reader is gone. */
  function Step(x: System, e: Event): System {
    match e
    case Activate =>
      if !x.active && x.control.Idle? && Gone(x.reader)
      then x.(sem := 0, shouldPause := false, armed := true, active := true, reader := Testing, alarms := 0, scans := 0)
      else x
    case AlarmFires => if x.armed then x.(sem := 1, alarms := x.alarms + 1) else x
    case TestPause =>
      if x.reader.Testing? then x.(reader := if x.shouldPause then Exited(false) else Waiting) else x
    case Take => if x.reader.Waiting? && x.sem > 0 then x.(sem := x.sem - 1, reader := Woken) else x
    case TestAfterTake =>
      if x.reader.Woken? then x.(reader := if x.shouldPause then Exited(false) else Scanning) else x
    case Scan(readOk) =>
      if !x.reader.Scanning? then x
      else if !readOk then x.(reader := Exited(true))
      else x.(reader := InCallback, delivered := x.delivered + [x.next], next := x.next + 1, scans := x.scans + 1)
    case CallbackReturns(ok) =>
      if x.reader.InCallback? then x.(reader := if ok then Testing else Exited(true)) else x
    case Cancel => if x.active && x.control.Idle? then x.(armed := false, control := AlarmCancelled) else x
    case RaisePause => if x.control.AlarmCancelled? then x.(shouldPause := true, control := PauseRaised) else x
    case GiveSem => if x.control.PauseRaised? then x.(sem := 1, control := SemGiven) else x
    case FinishDeactivate => if x.control.SemGiven? then x.(active := false, control := Idle) else x
  }

  function Run(x: System, es: seq<Event>): System
    decreases |es|
  {
    if es == [] then x else Run(Step(x, es[0]), es[1..])
  }

  lemma {:induction false} RunAppend(x: System, a: seq<Event>, b: seq<Event>)
    ensures Run(x, a + b) == Run(Run(x, a), b)
    decreases |a|
  {
    if a == [] {
      assert a + b == b;
    } else {
      assert (a + b)[0] == a[0] && (a + b)[1..] == a[1..] + b;
      RunAppend(Step(x, a[0]), a[1..], b);
    }
  }

  /** A run with one more event. */
  lemma RunSnoc(x: System, es: seq<Event>, e: Event)
    ensures Run(x, es + [e]) == Step(Run(x, es), e)
  {
    RunAppend(x, es, [e]);
    assert [e][1..] == [] && Run(Run(x, es), [e]) == Run(Step(Run(x, es), e), []);
  }

  /** The deactivation has got as far as giving the semaphore in this activation. */
  predicate StopSignalled(x: System) { x.shouldPause && !x.control.PauseRaised? }

  ghost predicate Inv(x: System) {
    && x.sem <= 1
    && |x.delivered| == x.next && (forall i :: 0 <= i < x.next ==> x.delivered[i] == i)
    // A scan is under way or done only on a token of its own, given by an alarm.
    && x.scans + (if x.reader.Scanning? then 1 else 0) <= x.alarms
    && (!StopSignalled(x) ==>
          x.scans + x.sem + (if x.reader.Woken? || x.reader.Scanning? then 1 else 0) <= x.alarms)
    && (x.shouldPause ==> !x.armed)
    && (x.control.PauseRaised? || x.control.SemGiven? ==> x.shouldPause)
    && (x.control.AlarmCancelled? ==> !x.shouldPause && !x.armed)
    && (x.active && x.control.Idle? ==> !x.shouldPause)
    && (!x.control.Idle? ==> x.active)
    // After the stop signal the reader never waits on an empty semaphore.
    && (StopSignalled(x) && x.reader.Waiting? ==> x.sem == 1)
  }

  lemma StepInv(x: System, e: Event)
    requires Inv(x)
    ensures Inv(Step(x, e))
  {}

  lemma {:induction false} RunInv(x: System, es: seq<Event>)
    requires Inv(x)
    ensures Inv(Run(x, es))
    decreases |es|
  {
    if es != [] {
      StepInv(x, es[0]);
      RunInv(Step(x, es[0]), es[1..]);
    }
  }

  /** Tick accounting: in an activation there are never more scans than alarms, and the sequence
      numbers delivered over the object's life are 0, 1, 2, ... without a hole: a scan whose read
      failed consumes none. */
  lemma TickAccounting(es: seq<Event>)
    ensures var x := Run(START, es);
      && x.scans <= x.alarms
      && x.next == |x.delivered|
      && forall i :: 0 <= i < |x.delivered| ==> x.delivered[i] == i
  {
    RunInv(START, es);
  }

  predicate NoActivation(es: seq<Event>) { forall i :: 0 <= i < |es| ==> !es[i].Activate? }

  lemma {:induction false} ScansAfterPause(x: System, es: seq<Event>)
    requires Inv(x) && x.shouldPause && NoActivation(es)
    ensures Run(x, es).scans <= x.scans + (if x.reader.Scanning? then 1 else 0)
    decreases |es|
  {
    if es != [] {
      StepInv(x, es[0]);
      assert !es[0].Activate?;
      ScansAfterPause(Step(x, es[0]), es[1..]);
    }
  }

  /** Once the pause is raised at most one more scan reaches the callback, and only when the reader
      had already passed its second look at the pause flag. */
  lemma AtMostOneMoreScan(before: seq<Event>, es: seq<Event>)
    requires Run(START, before).shouldPause && NoActivation(es)
    ensures var x := Run(START, before);
      Run(x, es).scans <= x.scans + (if x.reader.Scanning? then 1 else 0)
  {
    RunInv(START, before);
    ScansAfterPause(Run(START, before), es);
  }

  /** The reader's own next step; `ok` decides a read or the callback's result. */
  function Own(x: System, ok: bool): Event
    requires !Gone(x.reader)
  {
    match x.reader
    case Testing => TestPause
    case Waiting => Take
    case Woken => TestAfterTake
    case Scanning => Scan(ok)
    case InCallback => CallbackReturns(ok)
  }

  function Rank(r: Reader): nat {
    match r
    case Scanning => 5
    case InCallback => 4
    case Waiting => 3
    case Woken => 2
    case Testing => 1
    case Off => 0
    case Exited(_) => 0
  }

  /** After the stop signal the reader is never blocked: its own next step is always possible and
      brings it strictly nearer to its exit; no other step takes it further away. */
  lemma OwnStepProgresses(x: System, ok: bool, e: Event)
    requires Inv(x) && StopSignalled(x) && !e.Activate?
    ensures !Gone(x.reader) ==> Rank(Step(x, Own(x, ok)).reader) < Rank(x.reader)
    ensures Rank(Step(x, e).reader) <= Rank(x.reader) && StopSignalled(Step(x, e))
  {}

  lemma {:induction false} OwnStepsSuffice(x: System, es: seq<Event>)
    requires Inv(x) && StopSignalled(x) && NoActivation(es) && OwnSteps(x, es) >= Rank(x.reader)
    ensures Gone(Run(x, es).reader)
    decreases |es|
  {
    if es != [] {
      StepInv(x, es[0]);
      assert !es[0].Activate?;
      OwnStepProgresses(x, true, es[0]);
      OwnStepProgresses(x, false, es[0]);
      OwnStepsSuffice(Step(x, es[0]), es[1..]);
    }
  }

  /** So once `deactivate` has given the semaphore, five steps of the reader bring it to its exit,
      whatever runs in between. */
  lemma ExitWithinFive(before: seq<Event>, es: seq<Event>)
    requires StopSignalled(Run(START, before)) && NoActivation(es) && OwnSteps(Run(START, before), es) >= 5
    ensures Gone(Run(Run(START, before), es).reader)
  {
    RunInv(START, before);
    OwnStepsSuffice(Run(START, before), es);
  }

  /** A whole `deactivate` of an active scanner disarms it, raises the pause and leaves one token, and
      leaves the reader where it stands. */
  lemma DeactivateUninterrupted(x: System)
    requires x.active && x.control.Idle?
    ensures Run(x, [Cancel, RaisePause] + [GiveSem, FinishDeactivate])
         == x.(armed := false, shouldPause := true, sem := 1, active := false)
  {
    RunSnoc(x, [], Cancel);
    RunSnoc(x, [Cancel], RaisePause);
    RunSnoc(x, [Cancel] + [RaisePause], GiveSem);
    RunSnoc(x, [Cancel] + [RaisePause] + [GiveSem], FinishDeactivate);
    assert [Cancel, RaisePause] + [GiveSem, FinishDeactivate]
        == [Cancel] + [RaisePause] + [GiveSem] + [FinishDeactivate];
    assert [] + [Cancel] == [Cancel];
  }

  /** An alarm on an armed scanner lets a waiting reader scan: alarm, token, second test, scan. */
  lemma AlarmLeadsToScan(x: System)
    requires x.armed && !x.shouldPause && x.reader.Waiting?
    ensures Run(x, [AlarmFires, Take] + [TestAfterTake, Scan(true)])
         == x.(sem := 0, alarms := x.alarms + 1, reader := InCallback, delivered := x.delivered + [x.next],
               next := x.next + 1, scans := x.scans + 1)
  {
    RunSnoc(x, [], AlarmFires);
    RunSnoc(x, [AlarmFires], Take);
    RunSnoc(x, [AlarmFires] + [Take], TestAfterTake);
    RunSnoc(x, [AlarmFires] + [Take] + [TestAfterTake], Scan(true));
    assert [AlarmFires, Take] + [TestAfterTake, Scan(true)] == [AlarmFires] + [Take] + [TestAfterTake] + [Scan(true)];
    assert [] + [AlarmFires] == [AlarmFires];
  }

  /** An activation of a scanner at rest starts afresh but for the numbers: its first alarm brings the
      scan with the next number. */
  lemma FirstScan(x: System)
    requires !x.active && x.control.Idle? && Gone(x.reader)
    ensures Run(x, [Activate, TestPause] + ([AlarmFires, Take] + [TestAfterTake, Scan(true)]))
         == System(0, false, true, true, InCallback, Idle, x.next + 1, x.delivered + [x.next], 1, 1)
  {
    RunAppend(x, [Activate, TestPause], [AlarmFires, Take] + [TestAfterTake, Scan(true)]);
    RunSnoc(x, [], Activate);
    RunSnoc(x, [Activate], TestPause);
    assert [] + [Activate] == [Activate] && [Activate, TestPause] == [Activate] + [TestPause];
    AlarmLeadsToScan(Run(x, [Activate, TestPause]));
  }

  /** How many of the events are the reader's own next step when they happen. */
  function OwnSteps(x: System, es: seq<Event>): nat
    decreases |es|
  {
    if es == [] then 0
    else
      (if !Gone(x.reader) && (es[0] == Own(x, true) || es[0] == Own(x, false)) then 1 else 0)
      + OwnSteps(Step(x, es[0]), es[1..])
  }
}

/** The scanner object: interrupt side, stop signal, one scan and the reader's loop, updated in place
    as in the source. */
module AdcDriver {
  import opened AdcClock
  import opened AdcRuns
  import opened AlarmSchedule
  import opened Bytes
  import opened MachineInts

  datatype Error = CounterFailed | ReadFailed(channel: nat) | CallbackFailed

  /** What happens beside the reader: an alarm, or a whole stop signal of `deactivate`. */
  datatype Outside = Alarm | Stop

  /** One turn of the reader: what happens while it waits, the counter reading and the samples it takes
      (`None` for a read error), what happens during the callback, and the callback's answer. */
  datatype Round = Round(waiting: seq<Outside>, now: nat, samples: seq<Option<int>>,
                         inside: seq<Outside>, callbackOk: bool)

  /** What the callback is handed. */
  datatype ScanData = ScanData(number: nat, timestamp: nat, channels: seq<int>)

  datatype Result = Stopped | Failed(error: Error) | StillWaiting | StillRunning

  function Events(what: seq<Outside>): seq<Event> {
    if what == [] then []
    else Events(what[..|what| - 1]) + (if what[|what| - 1].Alarm? then [AlarmFires] else [Cancel, RaisePause, GiveSem])
  }

  predicate Readable(samples: seq<Option<int>>) { forall i :: 0 <= i < |samples| ==> samples[i].Some? }

  function Values(samples: seq<Option<int>>): seq<int>
    requires Readable(samples)
  {
    seq(|samples|, i requires 0 <= i < |samples| => samples[i].value)
  }

  function RoundEvents(r: Round): seq<Event> {
    [TestPause] + Events(r.waiting) + [Take] + [TestAfterTake] + [Scan(Readable(r.samples))]
    + Events(r.inside) + [CallbackReturns(r.callbackOk)]
  }

  function Parts(rounds: seq<Round>): (ps: seq<seq<Event>>)
    ensures |ps| == |rounds|
  {
    seq(|rounds|, i requires 0 <= i < |rounds| => RoundEvents(rounds[i]))
  }

  /** All the events of the rounds, in order. */
  function Script(rounds: seq<Round>): seq<Event> { Concat(Parts(rounds)) }

  function Nows(rounds: seq<Round>): (readings: seq<nat>)
    ensures |readings| == |rounds|
  {
    seq(|rounds|, i requires 0 <= i < |rounds| => rounds[i].now)
  }

  // ----- how the turns go, told by the rounds alone -----

  /** A token is there for a wait: from a stop signal, from an alarm while armed, or left over. */
  predicate Supplied(waiting: seq<Outside>, armed: bool, left: bool) {
    Stop in waiting || (Alarm in waiting && armed) || left
  }

  /** An alarm during the callback before round `k` leaves a token for it. */
  predicate LeftFor(rounds: seq<Round>, k: nat, first: bool)
    requires k <= |rounds|
  {
    if k == 0 then first else Alarm in rounds[k - 1].inside
  }

  /** Round `k` hands over a scan and the loop goes on: it gets a token, nobody stops it, every channel
      can be read and the callback does not fail. */
  predicate Ordinary(rounds: seq<Round>, k: nat, first: bool)
    requires k < |rounds|
  {
    && Supplied(rounds[k].waiting, true, LeftFor(rounds, k, first))
    && Stop !in rounds[k].waiting && Stop !in rounds[k].inside
    && Readable(rounds[k].samples) && rounds[k].callbackOk
  }

  /** The first round from `k` on that is not ordinary. */
  function FirstOdd(rounds: seq<Round>, k: nat, first: bool): (j: nat)
    requires k <= |rounds|
    ensures k <= j <= |rounds| && forall i :: k <= i < j ==> Ordinary(rounds, i, first)
    ensures j < |rounds| ==> !Ordinary(rounds, j, first)
    decreases |rounds| - k
  {
    if k == |rounds| || !Ordinary(rounds, k, first) then k else FirstOdd(rounds, k + 1, first)
  }

  /** The error names the first channel that could not be read. */
  predicate NamesUnread(e: Error, samples: seq<Option<int>>) {
    && e.ReadFailed? && e.channel < |samples|
    && samples[e.channel].None? && Readable(samples[..e.channel])
  }

  /** How the loop of an armed scanner ends: `k` ordinary rounds hand over a scan each, and the next
      one decides. */
  predicate EndsAs(rounds: seq<Round>, k: nat, first: bool, r: Result, scans: nat)
    requires k <= |rounds|
  {
    if k == |rounds| then r == StillRunning && scans == k
    else if Stop in rounds[k].waiting then r == Stopped && scans == k
    else if !Supplied(rounds[k].waiting, true, LeftFor(rounds, k, first)) then r == StillWaiting && scans == k
    else if !Readable(rounds[k].samples) then r.Failed? && NamesUnread(r.error, rounds[k].samples) && scans == k
    else scans == k + 1 && r == if rounds[k].callbackOk then Stopped else Failed(CallbackFailed)
  }

  class Scanner {
    const alarm: Alarm
    const clock: Timestamper
    const channels: array<int>
    var tickSem: nat
    var shouldPause: bool
    var armed: bool
    var sequenceNumber: nat

    constructor (channelCount: nat)
      ensures fresh(alarm) && fresh(clock) && fresh(channels) && channels.Length == channelCount
      ensures tickSem == 0 && !shouldPause && !armed && sequenceNumber == 0
    {
      alarm := new Alarm();
      clock := new Timestamper();
      channels := new int[channelCount](_ => 0);
      tickSem, shouldPause, armed, sequenceNumber := 0, false, false, 0;
    }

    /** The object's part of a state of the step machine, during an activation begun at counter value
        `start`, with no stop signal in progress: the next alarm is the one due after those fired. */
    ghost predicate Matches(start: nat, x: System)
      reads this, alarm
    {
      && x.sem == tickSem <= 1 && x.shouldPause == shouldPause && x.armed == armed && x.next == sequenceNumber
      && x.active && (if shouldPause then x.control.SemGiven? else x.control.Idle?)
      && alarm.next == Target(start, alarm.period, x.alarms + 1)
    }

    /** The period set-up of an activation; sequence numbers go on from the last one.  `started` and
        `accepted` are the answers of starting the counter and of setting the alarm. */
    method SetUp(freq: nat, intervalMs: nat, now: nat, started: bool, accepted: bool, ghost x: System)
      returns (err: Option<Error>)
      requires now < TWO32
      modifies this, alarm, clock
      ensures err == if freq > 0 && Period(freq, intervalMs, 1000) > 0 && started && accepted then None
                     else Some(CounterFailed)
      ensures if freq > 0 && Period(freq, intervalMs, 1000) > 0
              then tickSem == 0 && !shouldPause && clock.Abs() == Clock(0, 0)
              else tickSem == old(tickSem) && shouldPause == old(shouldPause) && clock.Abs() == old(clock.Abs())
      ensures armed == err.None? && sequenceNumber == old(sequenceNumber)
      ensures err.None? ==> alarm.period == Period(freq, intervalMs, 1000) && alarm.next == Target(now, alarm.period, 1)
      ensures err.None? && !x.active && x.control.Idle? && Gone(x.reader) && x.next == sequenceNumber ==>
                Matches(now, Step(x, Activate))
    {
      armed := false;
      var ok := alarm.SetPeriod(freq, intervalMs, 1000);
      if !ok { return Some(CounterFailed); }
      tickSem := 0;
      shouldPause := false;
      clock.Reset();
      armed := alarm.ArmFirst(now, started, accepted);
      return if armed then None else Some(CounterFailed);
    }

    method AlarmHandler(ghost start: nat, ghost n: nat)
      requires alarm.next == Target(start, alarm.period, n)
      modifies this`tickSem, alarm`next
      ensures alarm.next == Target(start, alarm.period, n + 1) && tickSem == 1
    {
      alarm.OnAlarm(start, n);
      tickSem := 1;
    }

    method SignalStop()
      modifies this`armed, this`shouldPause, this`tickSem
      ensures !armed && shouldPause && tickSem == 1
    {
      armed := false;
      shouldPause := true;
      tickSem := 1;
    }

    /** One scan.  The first read error ends it before a sequence number is taken and before the
        callback is called. */
    method ReadChannels(samples: seq<Option<int>>) returns (err: Option<Error>, scan: Option<(nat, seq<int>)>)
      requires |samples| == channels.Length
      modifies this`sequenceNumber, channels
      ensures !Readable(samples) ==>
                && err.Some? && NamesUnread(err.value, samples)
                && scan.None? && sequenceNumber == old(sequenceNumber)
      ensures Readable(samples) ==>
                && err.None? && scan == Some((old(sequenceNumber), Values(samples)))
                && channels[..] == Values(samples) && sequenceNumber == old(sequenceNumber) + 1
    {
      var i := 0;
      while i < channels.Length
        invariant 0 <= i <= channels.Length
        invariant sequenceNumber == old(sequenceNumber)
        invariant forall j :: 0 <= j < i ==> samples[j].Some? && channels[j] == samples[j].value
      {
        if samples[i].None? {
          return Some(ReadFailed(i)), None;
        }
        channels[i] := samples[i].value;
        i := i + 1;
      }
      assert channels[..] == Values(samples);
      scan := Some((sequenceNumber, channels[..]));
      sequenceNumber := sequenceNumber + 1;
      err := None;
    }

    /** The flags and the semaphore behind the listed things, on a scanner that was not paused. */
    static ghost predicate Left(what: seq<Outside>, was: bool, token: bool, paused: bool, armed: bool, sem: nat) {
      && paused == (Stop in what) && armed == (was && Stop !in what)
      && sem == if Supplied(what, was, token) then 1 else 0
    }

    static lemma NextLeft(what: seq<Outside>, i: nat, was: bool, token: bool, paused: bool, armed: bool, sem: nat)
      requires i < |what| && Left(what[..i], was, token, paused, armed, sem)
      ensures var stop := what[i].Stop?;
        Left(what[..i + 1], was, token, paused || stop, armed && !stop,
             if !paused && (stop || armed) then 1 else sem)
    {
      assert what[..i + 1] == what[..i] + [what[i]];
      assert Stop in what[..i + 1] <==> Stop in what[..i] || what[i].Stop?;
      assert Alarm in what[..i + 1] <==> Alarm in what[..i] || what[i].Alarm?;
    }

    /** Lets one thing happen beside the reader. */
    method Occur(what: Outside, ghost start: nat, ghost x: System, ghost es: seq<Event>)
      returns (ghost more: seq<Event>)
      requires Matches(start, Run(x, es))
      modifies this`tickSem, this`armed, this`shouldPause, alarm`next
      ensures more == es + (if what.Alarm? then [AlarmFires] else [Cancel, RaisePause, GiveSem])
      ensures Matches(start, Run(x, more)) && SameReader(Run(x, more), Run(x, es))
      ensures shouldPause == (old(shouldPause) || what.Stop?)
      ensures old(shouldPause) && !old(armed) ==> !armed && tickSem == old(tickSem)
      ensures !old(shouldPause) ==>
                && armed == (old(armed) && what.Alarm?)
                && tickSem == if what.Stop? || old(armed) then 1 else old(tickSem)
    {
      if what.Alarm? {
        if armed { AlarmHandler(start, Run(x, es).alarms + 1); }
        more := Note(x, es, AlarmFires);
      } else {
        if !shouldPause { SignalStop(); }
        more := NoteStop(x, es);
      }
    }

    /** Lets the listed things happen beside the reader. */
    method Happen(what: seq<Outside>, ghost start: nat, ghost x: System) returns (ghost es: seq<Event>)
      requires Matches(start, x)
      modifies this`tickSem, this`armed, this`shouldPause, alarm`next
      ensures es == Events(what)
      ensures Matches(start, Run(x, es)) && SameReader(Run(x, es), x)
      ensures !old(shouldPause) ==> Left(what, old(armed), old(tickSem) > 0, shouldPause, armed, tickSem)
    {
      es := [];
      var i := 0;
      ghost var begun, was, token := !shouldPause, armed, tickSem > 0;
      assert what[..0] == [];
      while i < |what|
        invariant 0 <= i <= |what| && es == Events(what[..i])
        invariant Matches(start, Run(x, es)) && SameReader(Run(x, es), x)
        invariant begun ==> Left(what[..i], was, token, shouldPause, armed, tickSem)
      {
        assert what[..i + 1][..i] == what[..i];
        if begun { NextLeft(what, i, was, token, shouldPause, armed, tickSem); }
        es := Occur(what[i], start, x, es);
        i := i + 1;
      }
      assert what[..i] == what;
    }

    /** Records a whole stop signal; a second one changes nothing. */
    static lemma NoteStop(x: System, es: seq<Event>) returns (more: seq<Event>)
      requires var y := Run(x, es); y.active && (y.control.Idle? || y.control.SemGiven?)
      ensures more == es + [Cancel, RaisePause, GiveSem]
      ensures var y := Run(x, es);
        Run(x, more) == if y.control.SemGiven? then y
                        else y.(armed := false, shouldPause := true, sem := 1, control := SemGiven)
    {
      more := Note(x, es, Cancel);
      more := Note(x, more, RaisePause);
      more := Note(x, more, GiveSem);
      assert more == es + [Cancel, RaisePause, GiveSem];
    }

    /** One scan with its callback.  The time is taken first, also for a scan whose read then fails. */
    method OnTick(round: Round, top: nat, freq: nat, ghost start: nat, ghost x: System)
      returns (err: Option<Error>, scan: Option<ScanData>, ghost es: seq<Event>)
      requires Matches(start, x) && x.reader.Scanning? && |round.samples| == channels.Length && freq > 0
      modifies this, alarm`next, channels, clock
      ensures Matches(start, Run(x, es)) && clock.Abs() == Advance(old(clock.Abs()), top, round.now)
      ensures !Readable(round.samples) ==>
                && err.Some? && NamesUnread(err.value, round.samples)
                && scan.None? && es == [Scan(false)] && Run(x, es) == x.(reader := Exited(true))
      ensures Readable(round.samples) ==>
                && err == (if round.callbackOk then None else Some(CallbackFailed))
                && scan == Some(ScanData(x.next, Nanos(Ticks(clock.Abs()), freq), Values(round.samples)))
                && es == [Scan(true)] + Events(round.inside) + [CallbackReturns(round.callbackOk)]
                && Run(x, es).reader == (if round.callbackOk then Testing else Exited(true))
                && Run(x, es).scans == x.scans + 1 && Run(x, es).delivered == x.delivered + [x.next]
      ensures sequenceNumber == old(sequenceNumber) + (if scan.Some? then 1 else 0)
      ensures !old(shouldPause) && Readable(round.samples) ==>
                Left(round.inside, old(armed), old(tickSem) > 0, shouldPause, armed, tickSem)
    {
      ghost var y := Step(x, Scan(Readable(round.samples)));
      es := Note(x, [], Scan(Readable(round.samples)));
      var timestamp := clock.TicksToNs(round.now, top, freq);
      var read;
      err, read := ReadChannels(round.samples);
      scan := None;
      if err.Some? { return; }
      scan := Some(ScanData(read.value.0, timestamp, read.value.1));
      assert Matches(start, y);
      ghost var more := Happen(round.inside, start, y);
      RunAppend(x, es, more);
      y := Step(Run(y, more), CallbackReturns(round.callbackOk));
      es := Note(x, es + more, CallbackReturns(round.callbackOk));
      assert Run(x, es) == y;
      err := if round.callbackOk then None else Some(CallbackFailed);
    }

    /** The wait for a token. */
    method TakeToken(waiting: seq<Outside>, ghost start: nat, ghost x: System)
      returns (taken: bool, ghost es: seq<Event>)
      requires Matches(start, x) && x.reader.Testing? && !x.shouldPause
      modifies this`tickSem, this`armed, this`shouldPause, alarm`next
      ensures es == [TestPause] + Events(waiting) + (if taken then [Take] else [])
      ensures Matches(start, Run(x, es)) && SameScans(Run(x, es), x)
      ensures if taken then Run(x, es).reader.Woken? else Run(x, es).reader.Waiting?
      ensures taken == Supplied(waiting, old(armed), old(tickSem) > 0) && tickSem == 0
      ensures shouldPause == (Stop in waiting) && armed == (old(armed) && Stop !in waiting)
    {
      es := Note(x, [], TestPause);
      ghost var more := Happen(waiting, start, Run(x, es));
      RunAppend(x, es, more);
      es := es + more;
      taken := tickSem > 0;
      if taken {
        tickSem := tickSem - 1;
        es := Note(x, es, Take);
      }
    }

    static ghost predicate SameScans(y: System, x: System) {
      y.scans == x.scans && y.next == x.next && y.delivered == x.delivered
    }

    /** The scans handed to the callback are the ones that the machine counts and numbers. */
    static ghost predicate Handed(x: System, y: System, scans: seq<ScanData>) {
      && y.scans == x.scans + |scans| && |y.delivered| == |x.delivered| + |scans|
      && x.delivered <= y.delivered
      && forall i :: 0 <= i < |scans| ==> scans[i].number == y.delivered[|x.delivered| + i]
    }

    /** Scan `i` carries the number behind the one before it, the time of its own reading on a clock
        that stood at `c`, and the samples of its round. */
    static ghost predicate Stamped(c: Clock, top: nat, freq: nat, number: nat, rounds: seq<Round>, scans: seq<ScanData>)
      requires freq > 0 && |scans| <= |rounds|
    {
      forall i :: 0 <= i < |scans| ==>
        && Readable(rounds[i].samples)
        && scans[i] == ScanData(number + i, Nanos(Ticks(Sampled(c, top, Nows(rounds)[..i + 1])), freq),
                                Values(rounds[i].samples))
    }

    /** How one turn goes on a scanner that is not paused. */
    static ghost predicate TurnEnds(round: Round, armed: bool, left: bool, r: Result, scans: nat) {
      if !Supplied(round.waiting, armed, left) then r == StillWaiting && scans == 0
      else if Stop in round.waiting then r == Stopped && scans == 0
      else if !Readable(round.samples) then r.Failed? && NamesUnread(r.error, round.samples) && scans == 0
      else scans == 1 && r == if round.callbackOk then StillRunning else Failed(CallbackFailed)
    }

    /** One turn of the loop. */
    method OneRound(round: Round, top: nat, freq: nat, ghost start: nat, ghost x: System)
      returns (r: Result, scans: seq<ScanData>, ghost es: seq<Event>, ghost y: System)
      requires Matches(start, x) && x.reader.Testing? && !x.shouldPause && |round.samples| == channels.Length
      requires freq > 0
      modifies this, alarm`next, channels, clock
      ensures y == Run(x, es) && Matches(start, y) && Handed(x, y, scans)
      ensures es <= RoundEvents(round)
      ensures r.Stopped? <==> y.reader == Exited(false)
      ensures r.Failed? <==> y.reader == Exited(true)
      ensures r.StillWaiting? ==> y.reader.Waiting? && tickSem == 0
      ensures r.StillRunning? ==> y.reader.Testing? && es == RoundEvents(round) && |scans| == 1
      ensures |scans| <= 1 && sequenceNumber == old(sequenceNumber) + |scans|
      ensures |scans| == 1 ==>
                && clock.Abs() == Advance(old(clock.Abs()), top, round.now) && Readable(round.samples)
                && scans[0] == ScanData(old(sequenceNumber), Nanos(Ticks(clock.Abs()), freq), Values(round.samples))
      ensures TurnEnds(round, old(armed), old(tickSem) > 0, r, |scans|)
      ensures r.StillRunning? ==> Left(round.inside, old(armed), false, shouldPause, armed, tickSem)
    {
      var taken;
      taken, es := TakeToken(round.waiting, start, x);
      y := Run(x, es);
      if !taken {
        assert es <= RoundEvents(round);
        return StillWaiting, [], es, y;
      }
      es := Note(x, es, TestAfterTake);
      y := Step(y, TestAfterTake);
      assert es == [TestPause] + Events(round.waiting) + [Take] + [TestAfterTake];
      if shouldPause {
        assert es <= RoundEvents(round);
        return Stopped, [], es, y;
      }
      var err, scan;
      ghost var more;
      err, scan, more := OnTick(round, top, freq, start, y);
      RunAppend(x, es, more);
      y := Run(y, more);
      RoundIs(round, more);
      es := es + more;
      return if err.Some? then Failed(err.value) else StillRunning, if scan.Some? then [scan.value] else [], es, y;
    }

    static lemma RoundIs(round: Round, tick: seq<Event>)
      ensures var es := [TestPause] + Events(round.waiting) + [Take] + [TestAfterTake] + tick;
        && (tick == [Scan(Readable(round.samples))] ==> es <= RoundEvents(round))
        && (tick == [Scan(Readable(round.samples))] + Events(round.inside) + [CallbackReturns(round.callbackOk)] ==>
              es == RoundEvents(round))
    {
      var head := [TestPause] + Events(round.waiting) + [Take] + [TestAfterTake];
      var scan, back := [Scan(Readable(round.samples))], [CallbackReturns(round.callbackOk)];
      var inside := Events(round.inside);
      assert head + (scan + inside + back) == head + scan + inside + back;
    }

    static ghost predicate SameReader(y: System, x: System) {
      y.reader == x.reader && y.scans == x.scans && y.next == x.next && y.delivered == x.delivered
    }

    /** What holds of the run and of the scans behind any number of turns. */
    static ghost predicate Sofar(x: System, es: seq<Event>, y: System, c: Clock, top: nat, freq: nat, number: nat,
                                 rounds: seq<Round>, scans: seq<ScanData>)
      requires freq > 0
    {
      && y == Run(x, es) && Handed(x, y, scans)
      && |scans| <= |rounds| && Stamped(c, top, freq, number, rounds, scans)
    }

    /** The next turn, put behind those before it. */
    method TakeTurn(rounds: seq<Round>, before: seq<ScanData>, top: nat, freq: nat, ghost start: nat,
                    ghost c: Clock, ghost number: nat, ghost first: bool, ghost begun: bool,
                    ghost x: System, ghost es: seq<Event>, ghost y: System)
      returns (r: Result, scans: seq<ScanData>, ghost more: seq<Event>, ghost z: System)
      requires |before| < |rounds| && |rounds[|before|].samples| == channels.Length && freq > 0
      requires Sofar(x, es, y, c, top, freq, number, rounds, before) && es == Script(rounds[..|before|])
      requires Matches(start, y) && y.reader.Testing? && !shouldPause && sequenceNumber == number + |before|
      requires clock.Abs() == Sampled(c, top, Nows(rounds)[..|before|])
      requires begun ==> Tracked(rounds, first, |before|, armed, false, tickSem)
      modifies this, alarm`next, channels, clock
      ensures Sofar(x, more, z, c, top, freq, number, rounds, scans) && Matches(start, z)
      ensures |scans| >= |before| && sequenceNumber == number + |scans|
      ensures r.StillRunning? ==>
                && |scans| == |before| + 1 && z.reader.Testing? && more == Script(rounds[..|scans|])
                && clock.Abs() == Sampled(c, top, Nows(rounds)[..|scans|])
                && (begun ==> Tracked(rounds, first, |scans|, armed, shouldPause, tickSem))
      ensures !r.StillRunning? ==>
                && more <= Script(rounds) + [TestPause]
                && (begun ==> EndsAs(rounds, FirstOdd(rounds, 0, first), first, r, |scans|))
      ensures r.Stopped? <==> z.reader == Exited(false)
      ensures r.Failed? <==> z.reader == Exited(true)
      ensures r.StillWaiting? ==> z.reader.Waiting? && tickSem == 0
    {
      ghost var was, left := armed, tickSem;
      r, scans, more, z := OneRound(rounds[|before|], top, freq, start, y);
      NextSofar(x, es, y, c, top, freq, number, rounds, before, scans, more, z);
      if begun { NextTracked(rounds, first, |before|, was, left, r, |scans|, armed, shouldPause, tickSem); }
      more, scans := es + more, before + scans;
    }

    static lemma NextSofar(x: System, es: seq<Event>, y: System, c: Clock, top: nat, freq: nat, number: nat,
                           rounds: seq<Round>, before: seq<ScanData>, scans: seq<ScanData>,
                           part: seq<Event>, z: System)
      requires freq > 0 && |before| < |rounds| && |scans| <= 1 && es == Script(rounds[..|before|])
      requires Sofar(x, es, y, c, top, freq, number, rounds, before)
      requires z == Run(y, part) && Handed(y, z, scans) && part <= RoundEvents(rounds[|before|])
      requires |scans| == 1 ==>
                 && Readable(rounds[|before|].samples)
                 && scans[0] == ScanData(number + |before|,
                      Nanos(Ticks(Advance(Sampled(c, top, Nows(rounds)[..|before|]), top, rounds[|before|].now)), freq),
                      Values(rounds[|before|].samples))
      ensures Sofar(x, es + part, z, c, top, freq, number, rounds, before + scans)
      ensures es + part <= Script(rounds) + [TestPause]
      ensures part == RoundEvents(rounds[|before|]) ==> es + part == Script(rounds[..|before| + 1])
      ensures Sampled(c, top, Nows(rounds)[..|before| + 1])
           == Advance(Sampled(c, top, Nows(rounds)[..|before|]), top, rounds[|before|].now)
    {
      NextStamp(c, top, freq, number, rounds, before, scans);
      Joined(rounds, |before|, x, es, part);
      HandedAppend(x, y, z, before, scans);
    }

    /** The turns of the reader, up to the test that ends it. */
    method Turns(rounds: seq<Round>, top: nat, freq: nat, ghost start: nat, ghost x: System)
      returns (r: Result, scans: seq<ScanData>, ghost es: seq<Event>, ghost y: System)
      requires Matches(start, x) && x.reader.Testing? && freq > 0
      requires forall i :: 0 <= i < |rounds| ==> |rounds[i].samples| == channels.Length
      modifies this, alarm`next, channels, clock
      ensures Sofar(x, es, y, old(clock.Abs()), top, freq, old(sequenceNumber), rounds, scans) && Matches(start, y)
      ensures r.StillRunning? ==>
                && y.reader.Testing? && es == Script(rounds[..|scans|]) && (|scans| == |rounds| || shouldPause)
                && (old(armed && !shouldPause) ==>
                      Tracked(rounds, old(tickSem) > 0, |scans|, armed, shouldPause, tickSem))
      ensures !r.StillRunning? ==>
                && es <= Script(rounds) + [TestPause]
                && (old(armed && !shouldPause) ==>
                      EndsAs(rounds, FirstOdd(rounds, 0, old(tickSem) > 0), old(tickSem) > 0, r, |scans|))
      ensures r.Stopped? <==> y.reader == Exited(false)
      ensures r.Failed? <==> y.reader == Exited(true)
      ensures r.StillWaiting? ==> y.reader.Waiting? && tickSem == 0
    {
      ghost var c, number, begun, first := clock.Abs(), sequenceNumber, armed && !shouldPause, tickSem > 0;
      es, scans, y, r := [], [], x, StillRunning;
      assert rounds[..0] == [];
      while |scans| < |rounds| && !shouldPause
        invariant Sofar(x, es, y, c, top, freq, number, rounds, scans) && es == Script(rounds[..|scans|])
        invariant Matches(start, y) && y.reader.Testing? && sequenceNumber == number + |scans| && r.StillRunning?
        invariant clock.Abs() == Sampled(c, top, Nows(rounds)[..|scans|])
        invariant begun ==> Tracked(rounds, first, |scans|, armed, shouldPause, tickSem)
        decreases |rounds| - |scans|
      {
        r, scans, es, y := TakeTurn(rounds, scans, top, freq, start, c, number, first, begun, x, es, y);
        if !r.StillRunning? { return; }
      }
    }

    /** The reader task.  Every execution is a run of the step machine over a beginning of the rounds'
        events; it ends where the machine exits, or waits without a token.  Of an armed scanner each
        ordinary round hands over one scan, and the first odd one ends the task. */
    method ReaderTask(rounds: seq<Round>, top: nat, freq: nat, ghost start: nat, ghost x: System)
      returns (r: Result, scans: seq<ScanData>, ghost es: seq<Event>, ghost y: System)
      requires Matches(start, x) && x.reader.Testing? && freq > 0
      requires forall i :: 0 <= i < |rounds| ==> |rounds[i].samples| == channels.Length
      modifies this, alarm`next, channels, clock
      ensures y == Run(x, es) && Matches(start, y) && Handed(x, y, scans) && |scans| <= |rounds|
      ensures Stamped(old(clock.Abs()), top, freq, old(sequenceNumber), rounds, scans)
      ensures es <= Script(rounds) + [TestPause]
      ensures r.Stopped? <==> y.reader == Exited(false)
      ensures r.Failed? <==> y.reader == Exited(true)
      ensures r.StillWaiting? ==> y.reader.Waiting? && tickSem == 0
      ensures r.StillRunning? ==> y.reader.Testing? && es == Script(rounds) && |scans| == |rounds|
      ensures old(armed && !shouldPause) ==>
                EndsAs(rounds, FirstOdd(rounds, 0, old(tickSem) > 0), old(tickSem) > 0, r, |scans|)
    {
      r, scans, es, y := Turns(rounds, top, freq, start, x);
      if r.StillRunning? {
        EndOfScript(rounds, |scans|);
        if shouldPause {
          es := Note(x, es, TestPause);
          y := Step(y, TestPause);
          r := Stopped;
        }
      }
    }

    /** Behind `k` rounds of a scanner that began armed: all were ordinary, or the first odd one handed
        over its scan, was stopped during the callback and is the last. */
    static ghost predicate Tracked(rounds: seq<Round>, first: bool, k: nat, armed: bool, paused: bool, sem: nat)
      requires k <= |rounds|
    {
      var odd := FirstOdd(rounds, 0, first);
      if k <= odd then armed && !paused && (sem > 0 <==> LeftFor(rounds, k, first))
      else
        && k == odd + 1 && paused && Stop !in rounds[odd].waiting
        && Supplied(rounds[odd].waiting, true, LeftFor(rounds, odd, first))
        && Readable(rounds[odd].samples) && rounds[odd].callbackOk
    }

    /** One more turn, given what `OneRound` says of it. */
    static lemma NextTracked(rounds: seq<Round>, first: bool, k: nat, was: bool, left: nat,
                             r: Result, n: nat, armed: bool, paused: bool, sem: nat)
      requires k < |rounds| && Tracked(rounds, first, k, was, false, left)
      requires TurnEnds(rounds[k], was, left > 0, r, n)
      requires r.StillRunning? ==> Left(rounds[k].inside, was, false, paused, armed, sem)
      ensures r.StillRunning? ==> Tracked(rounds, first, k + 1, armed, paused, sem)
      ensures !r.StillRunning? ==> EndsAs(rounds, FirstOdd(rounds, 0, first), first, r, k + n)
    {
      assert k < FirstOdd(rounds, 0, first) ==> Ordinary(rounds, k, first);
    }

    /** The next turn's sample moves the clock, and its scan is stamped with it. */
    static lemma NextStamp(c: Clock, top: nat, freq: nat, number: nat, rounds: seq<Round>,
                           scans: seq<ScanData>, more: seq<ScanData>)
      requires freq > 0 && |scans| < |rounds| && |more| <= 1 && Stamped(c, top, freq, number, rounds, scans)
      requires var next := Advance(Sampled(c, top, Nows(rounds)[..|scans|]), top, rounds[|scans|].now);
        |more| == 1 ==>
          && Readable(rounds[|scans|].samples)
          && more[0] == ScanData(number + |scans|, Nanos(Ticks(next), freq), Values(rounds[|scans|].samples))
      ensures Stamped(c, top, freq, number, rounds, scans + more)
      ensures Sampled(c, top, Nows(rounds)[..|scans| + 1])
           == Advance(Sampled(c, top, Nows(rounds)[..|scans|]), top, rounds[|scans|].now)
    {
      var k := |scans|;
      assert Nows(rounds)[..k + 1][..k] == Nows(rounds)[..k];
    }

    static lemma HandedAppend(x: System, y: System, z: System, a: seq<ScanData>, b: seq<ScanData>)
      requires Handed(x, y, a) && Handed(y, z, b)
      ensures Handed(x, z, a + b)
    {}

    static lemma Joined(rounds: seq<Round>, k: nat, x: System, es: seq<Event>, part: seq<Event>)
      requires k < |rounds| && es == Script(rounds[..k]) && part <= RoundEvents(rounds[k])
      ensures Run(x, es + part) == Run(Run(x, es), part)
      ensures es + part <= Script(rounds) + [TestPause]
      ensures part == RoundEvents(rounds[k]) ==> es + part == Script(rounds[..k + 1])
    {
      assert Parts(rounds[..k]) == Parts(rounds)[..k] && Parts(rounds[..k + 1]) == Parts(rounds)[..k + 1];
      ConcatPrefix(Parts(rounds), k, part);
      RunAppend(x, es, part);
    }

    static lemma EndOfScript(rounds: seq<Round>, k: nat)
      requires k <= |rounds|
      ensures Script(rounds[..k]) + [TestPause] <= Script(rounds) + [TestPause]
      ensures k == |rounds| ==> Script(rounds[..k]) == Script(rounds)
    {
      if k < |rounds| {
        assert Parts(rounds[..k]) == Parts(rounds)[..k];
        ConcatPrefix(Parts(rounds), k, [TestPause]);
      } else {
        assert rounds[..k] == rounds;
      }
    }

    /** Records one step of the reader. */
    static lemma Note(x: System, es: seq<Event>, e: Event) returns (more: seq<Event>)
      ensures more == es + [e] && Run(x, more) == Step(Run(x, es), e)
    {
      more := es + [e];
      RunSnoc(x, es, e);
    }
  }
}
