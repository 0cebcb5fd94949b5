/** The interval timers: an interrupt gives a semaphore capped at one, `start` takes it and calls
    back, `pause` may come from another thread.  The counter-driven and the kernel-timer variant
    share the loop and differ in what its end does to the timer. */
module IntervalRuns {

  datatype Kind = CounterDriven | KernelTimer

  datatype Loop = Idle | Testing | Waiting | Woken | InCallback

  /** Where another thread stands inside `pause`. */
  datatype Pauser = Away | FlagRaised | TimerStopped

  datatype System = System(
    kind: Kind, sem: nat, shouldPause: bool, armed: bool, loop: Loop, pauser: Pauser,
    leftover: nat,    // tokens found by the current `start`
    gives: nat,       // semaphore gives since then
    callbacks: nat)   // callbacks since then

  datatype Event =
    | Start | TimerFires
    | TestPause | Take | TestAfterTake | CallbackReturns(pause: bool, ok: bool)
    | RaiseFlag | StopTimer | GiveSem

  function Init(kind: Kind): System { System(kind, 0, false, false, Idle, Away, 0, 0, 0) }

  /** The end of the loop: the counter is always stopped, the kernel timer only after an error. */
  function End(x: System, ok: bool): System {
    x.(loop := Idle, armed := x.armed && x.kind.KernelTimer? && ok)
  }

  function Step(x: System, e: Event): System {
    match e
    case Start =>
      if x.loop.Idle?
      then x.(shouldPause := false, armed := true, loop := Testing, leftover := x.sem, gives := 0, callbacks := 0)
      else x
    case TimerFires => if x.armed then x.(sem := 1, gives := x.gives + 1) else x
    case TestPause => if !x.loop.Testing? then x else if x.shouldPause then End(x, true) else x.(loop := Waiting)
    case Take => if x.loop.Waiting? && x.sem > 0 then x.(sem := x.sem - 1, loop := Woken) else x
    case TestAfterTake =>
      if !x.loop.Woken? then x
      else if x.shouldPause then End(x, true)
      else x.(loop := InCallback, callbacks := x.callbacks + 1)
    case CallbackReturns(pause, ok) =>
      if !x.loop.InCallback? then x
      else if !ok then End(x, false)
      else x.(shouldPause := pause, loop := Testing)
    case RaiseFlag => if x.pauser.Away? then x.(shouldPause := true, pauser := FlagRaised) else x
    case StopTimer => if x.pauser.FlagRaised? then x.(armed := false, pauser := TimerStopped) else x
    case GiveSem => if x.pauser.TimerStopped? then x.(sem := 1, gives := x.gives + 1, pauser := Away) else x
  }

  function Run(x: System, es: seq<Event>): System
    decreases |es|
  {
    if es == [] then x else Run(Step(x, es[0]), es[1..])
  }

  lemma {:induction false} RunAppend(x: System, a: seq<Event>, b: seq<Event>)
    ensures Run(x, a + b) == Run(Run(x, a), b)
    decreases |a|
  {
    if a == [] {
      assert a + b == b;
    } else {
      assert (a + b)[0] == a[0] && (a + b)[1..] == a[1..] + b;
      RunAppend(Step(x, a[0]), a[1..], b);
    }
  }

  lemma RunOne(x: System, e: Event)
    ensures Run(x, [e]) == Step(x, e)
  {
    assert [e][1..] == [];
  }

  lemma RunThree(x: System, a: Event, b: Event, c: Event)
    ensures Run(x, [a, b, c]) == Step(Step(Step(x, a), b), c)
  {
    assert [a, b, c] == [a] + ([b] + [c]);
    RunAppend(x, [a], [b] + [c]);
    RunAppend(Step(x, a), [b], [c]);
    RunOne(x, a);
    RunOne(Step(x, a), b);
    RunOne(Step(Step(x, a), b), c);
  }

  ghost predicate Inv(x: System) {
    && x.sem <= 1 && x.leftover <= 1
    && x.callbacks + x.sem + (if x.loop.Woken? then 1 else 0) <= x.gives + x.leftover
  }

  lemma {:induction false} RunInv(x: System, es: seq<Event>)
    requires Inv(x)
    ensures Inv(Run(x, es))
    decreases |es|
  {
    if es != [] {
      RunInv(Step(x, es[0]), es[1..]);
    }
  }

  /** Every callback is paid for by its own semaphore give: in one `start` there are at most as many
      callbacks as gives, plus one token left over from before. */
  lemma CallbacksArePaidFor(kind: Kind, es: seq<Event>)
    ensures var x := Run(Init(kind), es); x.callbacks <= x.gives + x.leftover <= x.gives + 1
  {
    RunInv(Init(kind), es);
  }

  predicate NoStart(es: seq<Event>) { forall i :: 0 <= i < |es| ==> !es[i].Start? }

  predicate NoPause(es: seq<Event>) { forall i :: 0 <= i < |es| ==> !es[i].RaiseFlag? }

  /** A pause flag raised outside a callback stays and admits no further callback. */
  lemma {:induction false} PauseOutsideCallback(x: System, es: seq<Event>)
    requires x.shouldPause && !x.loop.InCallback? && NoStart(es)
    ensures Run(x, es).callbacks == x.callbacks && !Run(x, es).loop.InCallback? && Run(x, es).shouldPause
    decreases |es|
  {
    if es != [] {
      assert !es[0].Start?;
      PauseOutsideCallback(Step(x, es[0]), es[1..]);
    }
  }

  /** The flag is up outside a callback, and a loop that waits has its token. */
  predicate Unblocked(x: System) { x.shouldPause && !x.loop.InCallback? && (x.loop.Waiting? ==> x.sem == 1) }

  /** The token of a pause raised outside a callback makes it so, and every further step keeps it so,
      those of further pauses included. */
  lemma PauseUnblocks(x: System, e: Event)
    requires Inv(x) && x.shouldPause && !x.loop.InCallback?
    ensures x.pauser.TimerStopped? ==> Unblocked(Step(x, GiveSem))
    ensures Unblocked(x) && !e.Start? ==> Unblocked(Step(x, e)) && Rank(Step(x, e).loop) <= Rank(x.loop)
    ensures Unblocked(x) && OwnStep(x, e) ==> Rank(Step(x, e).loop) < Rank(x.loop)
  {}

  /** The loop's own next step. */
  predicate OwnStep(x: System, e: Event) {
    (x.loop.Testing? && e.TestPause?) || (x.loop.Waiting? && e.Take?) || (x.loop.Woken? && e.TestAfterTake?)
  }

  function Rank(loop: Loop): nat { if loop.Waiting? then 2 else if loop.Idle? then 0 else 1 }

  /** How many of the events are the loop's own next step when they happen. */
  function OwnSteps(x: System, es: seq<Event>): nat
    decreases |es|
  {
    if es == [] then 0 else (if OwnStep(x, es[0]) then 1 else 0) + OwnSteps(Step(x, es[0]), es[1..])
  }

  lemma {:induction false} OwnStepsEnd(x: System, es: seq<Event>)
    requires Inv(x) && Unblocked(x) && NoStart(es)
    ensures Rank(Run(x, es).loop) == 0 || OwnSteps(x, es) + Rank(Run(x, es).loop) <= Rank(x.loop)
    decreases |es|
  {
    if es != [] {
      assert !es[0].Start?;
      PauseUnblocks(x, es[0]);
      assert Inv(Step(x, es[0]));
      OwnStepsEnd(Step(x, es[0]), es[1..]);
    }
  }

  /** So two steps of the loop end it, whatever runs in between, further pauses included. */
  lemma PauseEndsLoop(x: System, es: seq<Event>)
    requires Inv(x) && Unblocked(x) && NoStart(es) && OwnSteps(x, es) >= 2
    ensures Run(x, es).loop.Idle? && Run(x, es).callbacks == x.callbacks
  {
    OwnStepsEnd(x, es);
    PauseOutsideCallback(x, es);
  }

  /** A completed pause whose flag is still up. */
  predicate Paused(x: System) { x.shouldPause && x.pauser.Away? && (x.loop.Waiting? ==> x.sem == 1) }

  /** The loop's own steps after a callback that asks for no pause. */
  function LostPauseRun(): seq<Event> {
    [CallbackReturns(false, true), TestPause, Take, TestAfterTake]
  }

  /** A complete pause that lands inside a callback is overwritten by the callback's own answer:
      the token of the pause itself then pays for one more callback. */
  lemma PauseInsideCallbackIsLost(x: System)
    requires Paused(x) && x.loop.InCallback? && x.sem == 1
    ensures Run(x, LostPauseRun()) == x.(sem := 0, shouldPause := false, callbacks := x.callbacks + 1)
  {
    var es := LostPauseRun();
    var a := Step(x, es[0]);
    var b := Step(a, es[1]);
    var c := Step(b, es[2]);
    assert es[1..] == [TestPause, Take, TestAfterTake];
    assert es[1..][1..] == [Take, TestAfterTake] && es[1..][1..][1..] == [TestAfterTake];
    assert es[1..][1..][1..][1..] == [];
    assert Run(c, [TestAfterTake]) == Run(Step(c, TestAfterTake), []);
  }

  /** Afterwards the loop waits for ever: the timer is stopped and nobody gives the semaphore. */
  lemma {:induction false} LostPauseBlocks(x: System, es: seq<Event>)
    requires x.loop.Waiting? && x.sem == 0 && !x.armed && x.pauser.Away?
    requires NoStart(es) && NoPause(es)
    ensures Run(x, es) == x
    decreases |es|
  {
    if es != [] {
      assert !es[0].Start? && !es[0].RaiseFlag?;
      LostPauseBlocks(x, es[1..]);
    }
  }

  lemma RunSnoc(x: System, es: seq<Event>, e: Event)
    ensures Run(x, es + [e]) == Step(Run(x, es), e)
  {
    RunAppend(x, es, [e]);
    RunOne(Run(x, es), e);
  }

  /** The rest of a pause that raised its flag inside a callback, with the callback's return right
      behind the flag, and the loop's next turn. */
  function OverwrittenRun(): seq<Event> {
    [CallbackReturns(false, true), StopTimer, GiveSem] + [TestPause, Take, TestAfterTake]
  }

  lemma OverwrittenPauseCallsBack(x: System)
    requires x.loop.InCallback? && x.pauser.FlagRaised?
    ensures Run(x, OverwrittenRun()).callbacks == x.callbacks + 1 && NoStart(OverwrittenRun())
  {
    RunAppend(x, [CallbackReturns(false, true), StopTimer, GiveSem], [TestPause, Take, TestAfterTake]);
    RunThree(x, CallbackReturns(false, true), StopTimer, GiveSem);
    var y := Step(Step(Step(x, CallbackReturns(false, true)), StopTimer), GiveSem);
    RunThree(y, TestPause, Take, TestAfterTake);
  }

  /** Once `pause` raises its flag a further callback is possible exactly when the flag is raised
      inside a callback. */
  lemma PauseHonouredIff(x: System)
    requires Inv(x) && x.pauser.Away?
    ensures (exists es :: NoStart(es) && Run(Step(x, RaiseFlag), es).callbacks > x.callbacks) <==> x.loop.InCallback?
  {
    var y := Step(x, RaiseFlag);
    if x.loop.InCallback? {
      OverwrittenPauseCallsBack(y);
    } else {
      forall es | NoStart(es)
        ensures Run(y, es).callbacks == x.callbacks
      {
        PauseOutsideCallback(y, es);
      }
    }
  }

  // ----- the pause that the callback itself asks for -----

  /** Nothing can wake the loop any more. */
  predicate Starved(x: System) {
    (x.loop.Testing? || x.loop.Waiting?) && x.sem == 0 && !x.armed && x.pauser.Away? && !x.shouldPause
  }

  lemma {:induction false} StarvedStays(x: System, es: seq<Event>)
    requires Starved(x) && NoStart(es) && NoPause(es)
    ensures Starved(Run(x, es)) && Run(x, es).callbacks == x.callbacks
    decreases |es|
  {
    if es != [] {
      assert !es[0].Start? && !es[0].RaiseFlag?;
      StarvedStays(Step(x, es[0]), es[1..]);
    }
  }

  /** The next turn, with a token that is there or that the timer still gives. */
  function NextTurn(): seq<Event> { [TimerFires] + [TestPause, Take, TestAfterTake] }

  lemma NextTurnCallsBack(x: System)
    requires x.loop.Testing? && !x.shouldPause && (x.sem > 0 || x.armed)
    ensures Run(x, NextTurn()).callbacks == x.callbacks + 1 && NoStart(NextTurn()) && NoPause(NextTurn())
  {
    RunAppend(x, [TimerFires], [TestPause, Take, TestAfterTake]);
    RunOne(x, TimerFires);
    RunThree(Step(x, TimerFires), TestPause, Take, TestAfterTake);
  }

  /** A callback's own answer decides: without a pause from outside, the loop calls back again exactly
      when the callback asked for no pause and a token is there or can still come. */
  lemma AnswerDecides(x: System, pause: bool)
    requires Inv(x) && x.loop.InCallback? && x.pauser.Away?
    ensures (exists es :: NoStart(es) && NoPause(es)
                          && Run(Step(x, CallbackReturns(pause, true)), es).callbacks > x.callbacks)
       <==> !pause && (x.sem > 0 || x.armed)
  {
    var y := Step(x, CallbackReturns(pause, true));
    if pause {
      forall es | NoStart(es) && NoPause(es)
        ensures Run(y, es).callbacks == x.callbacks
      {
        PauseOutsideCallback(y, es);
      }
    } else if x.sem > 0 || x.armed {
      NextTurnCallsBack(y);
    } else {
      forall es | NoStart(es) && NoPause(es)
        ensures Run(y, es).callbacks == x.callbacks
      {
        StarvedStays(y, es);
      }
    }
  }

  /** Behind an answer that asks for a pause, or that failed, the loop is over: at once after a failure,
      with its next own step otherwise; only the kernel timer of a loop that did not fail runs on. */
  lemma AnswerEnds(x: System, pause: bool, ok: bool)
    requires x.loop.InCallback?
    ensures !ok ==> Step(x, CallbackReturns(pause, ok)) == x.(loop := Idle, armed := false)
    ensures ok && pause ==>
              (Step(Step(x, CallbackReturns(pause, ok)), TestPause)
               == x.(loop := Idle, shouldPause := true, armed := x.armed && x.kind.KernelTimer?))
  {}

  /** The first turn of a loop, up to its callback. */
  function FirstTurn(): seq<Event> { [Start, TimerFires, TestPause] + [Take, TestAfterTake] }

  lemma PausedInside(kind: Kind)
    ensures Run(Init(kind), FirstTurn() + [RaiseFlag, StopTimer, GiveSem])
         == System(kind, 1, true, false, InCallback, Away, 0, 2, 1)
  {
    var x := FirstCallback(kind);
    RunAppend(Init(kind), FirstTurn(), [RaiseFlag, StopTimer, GiveSem]);
    RunThree(x, RaiseFlag, StopTimer, GiveSem);
  }

  lemma LostInside(x: System)
    requires Paused(x) && x.loop.InCallback? && x.sem == 1
    ensures Run(x, LostPauseRun() + [CallbackReturns(false, true)] + [TestPause])
         == x.(sem := 0, shouldPause := false, callbacks := x.callbacks + 1, loop := Waiting)
  {
    PauseInsideCallbackIsLost(x);
    RunSnoc(x, LostPauseRun(), CallbackReturns(false, true));
    RunSnoc(x, LostPauseRun() + [CallbackReturns(false, true)], TestPause);
  }

  /** A run from the beginning to a loop that waits for ever: a whole pause inside the first callback
      is overwritten, its token pays for a second one, and nothing is left to wake the loop. */
  lemma LostPauseIsReachable(kind: Kind) returns (x: System)
    ensures x == Run(Init(kind), (FirstTurn() + [RaiseFlag, StopTimer, GiveSem])
                                 + (LostPauseRun() + [CallbackReturns(false, true)] + [TestPause]))
    ensures x.callbacks == 2 && x.loop.Waiting?
    ensures forall more :: NoStart(more) && NoPause(more) ==> Run(x, more) == x
  {
    PausedInside(kind);
    var paused := FirstTurn() + [RaiseFlag, StopTimer, GiveSem];
    var y := Run(Init(kind), paused);
    var lost := LostPauseRun() + [CallbackReturns(false, true)] + [TestPause];
    LostInside(y);
    RunAppend(Init(kind), paused, lost);
    x := Run(y, lost);
    forall more | NoStart(more) && NoPause(more)
      ensures Run(x, more) == x
    {
      LostPauseBlocks(x, more);
    }
  }

  lemma FirstCallback(kind: Kind) returns (x: System)
    ensures x == Run(Init(kind), FirstTurn()) == System(kind, 0, false, true, InCallback, Away, 0, 1, 1)
  {
    var o := Init(kind);
    RunAppend(o, [Start, TimerFires, TestPause], [Take, TestAfterTake]);
    RunThree(o, Start, TimerFires, TestPause);
    var y := Run(o, [Start, TimerFires, TestPause]);
    RunAppend(y, [Take], [TestAfterTake]);
    RunOne(y, Take);
    RunOne(Step(y, Take), TestAfterTake);
    assert [Take, TestAfterTake] == [Take] + [TestAfterTake];
    x := Run(o, FirstTurn());
  }
}

/** The timer objects, updated in place as in the source. */
module IntervalDriver {
  import opened Bytes
  import opened IntervalRuns
  import opened AlarmSchedule
  import opened MachineInts

  /** What happens beside the dispatch loop: a timer interrupt, or a whole `pause` call. */
  datatype Outside = Tick | PauseCall

  /** One round of the loop: what happens while it waits, what happens during the callback, and the
      callback's answer. */
  datatype Round = Round(waiting: seq<Outside>, inside: seq<Outside>, pause: bool, ok: bool)

  datatype Result = Ended | CallbackFailed | StillWaiting | StillRunning

  function Events(what: seq<Outside>): seq<Event> {
    if what == [] then []
    else Events(what[..|what| - 1])
         + (if what[|what| - 1].Tick? then [TimerFires] else [RaiseFlag, StopTimer, GiveSem])
  }

  function RoundEvents(r: Round): seq<Event> {
    [TestPause] + Events(r.waiting) + [Take] + [TestAfterTake] + Events(r.inside) + [CallbackReturns(r.pause, r.ok)]
  }

  function Parts(rounds: seq<Round>): (ps: seq<seq<Event>>)
    ensures |ps| == |rounds|
  {
    seq(|rounds|, i requires 0 <= i < |rounds| => RoundEvents(rounds[i]))
  }

  /** All the events of the rounds, in order. */
  function Script(rounds: seq<Round>): seq<Event> { Concat(Parts(rounds)) }

  // ----- how the rounds go, told by the rounds alone -----

  /** A token is there for a wait: from a pause call, from a tick of a running timer, or left over. */
  predicate Supplied(waiting: seq<Outside>, running: bool, left: bool) {
    PauseCall in waiting || (Tick in waiting && running) || left
  }

  /** The timer still runs for round `k`: nobody paused during a callback before it. */
  predicate RunsFor(rounds: seq<Round>, k: nat)
    requires k <= |rounds|
  {
    k == 0 || (RunsFor(rounds, k - 1) && PauseCall !in rounds[k - 1].inside)
  }

  /** What happened during the callback before round `k` left a token for it. */
  predicate LeftFor(rounds: seq<Round>, k: nat, first: bool)
    requires k <= |rounds|
  {
    if k == 0 then first else Supplied(rounds[k - 1].inside, RunsFor(rounds, k - 1), false)
  }

  predicate SuppliedFor(rounds: seq<Round>, k: nat, first: bool)
    requires k < |rounds|
  {
    Supplied(rounds[k].waiting, RunsFor(rounds, k), LeftFor(rounds, k, first))
  }

  /** Round `k` calls back and the loop goes on: it gets a token, nobody pauses while it waits, and the
      callback neither fails nor asks for a pause.  A pause call during the callback does not matter. */
  predicate Ordinary(rounds: seq<Round>, k: nat, first: bool)
    requires k < |rounds|
  {
    SuppliedFor(rounds, k, first) && PauseCall !in rounds[k].waiting && rounds[k].ok && !rounds[k].pause
  }

  /** The first round from `k` on that is not ordinary. */
  function FirstOdd(rounds: seq<Round>, k: nat, first: bool): (j: nat)
    requires k <= |rounds|
    ensures k <= j <= |rounds| && forall i :: k <= i < j ==> Ordinary(rounds, i, first)
    ensures j < |rounds| ==> !Ordinary(rounds, j, first)
    decreases |rounds| - k
  {
    if k == |rounds| || !Ordinary(rounds, k, first) then k else FirstOdd(rounds, k + 1, first)
  }

  /** How a loop ends that began with its timer running: `k` ordinary rounds call back, and the next
      one decides. */
  predicate EndsAs(rounds: seq<Round>, k: nat, first: bool, r: Result, calls: nat)
    requires k <= |rounds|
  {
    if k == |rounds| then r == StillRunning && calls == k
    else if PauseCall in rounds[k].waiting then r == Ended && calls == k
    else if !SuppliedFor(rounds, k, first) then r == StillWaiting && calls == k
    else calls == k + 1 && r == if rounds[k].ok then Ended else CallbackFailed
  }

  class Interval {
    const kind: Kind
    const alarm: Alarm
    var tickSem: nat
    var shouldPause: bool
    var running: bool

    constructor (k: Kind)
      ensures fresh(alarm) && kind == k && Matches(Init(k))
    {
      kind := k;
      alarm := new Alarm();
      tickSem, shouldPause, running := 0, false, false;
    }

    /** The object's part of a state of the step machine, with no `pause` call in progress. */
    ghost predicate Matches(x: System)
      reads this
    {
      && x.kind == kind && x.sem == tickSem <= 1 && x.shouldPause == shouldPause && x.armed == running
      && x.pauser.Away?
    }

    /** The counter variant's `start` up to its loop; a token left from before is not cleared. */
    method BeginCounter(freq: nat, intervalMicros: nat, now: nat, started: bool, accepted: bool) returns (ok: bool)
      requires now < TWO32
      modifies this, alarm
      ensures ok <==> freq > 0 && Period(freq, intervalMicros, 1_000_000) > 0 && started && accepted
      ensures shouldPause == (old(shouldPause) && !(freq > 0 && Period(freq, intervalMicros, 1_000_000) > 0))
      ensures ok ==>
                && alarm.period == Period(freq, intervalMicros, 1_000_000)
                && alarm.next == Target(now, alarm.period, 1)
      ensures running == ok && tickSem == old(tickSem)
    {
      running := false;
      ok := alarm.SetPeriod(freq, intervalMicros, 1_000_000);
      if ok {
        shouldPause := false;
        ok := alarm.ArmFirst(now, started, accepted);
        running := ok;
      }
    }

    method AlarmHandler(ghost start: nat, ghost n: nat)
      requires alarm.next == Target(start, alarm.period, n)
      modifies this`tickSem, alarm`next
      ensures alarm.next == Target(start, alarm.period, n + 1) && tickSem == 1
    {
      alarm.OnAlarm(start, n);
      tickSem := 1;
    }

    method Pause()
      modifies this
      ensures shouldPause && !running && tickSem == 1
    {
      shouldPause := true;
      running := false;
      tickSem := 1;
    }

    static lemma NextIn(what: seq<Outside>, i: nat)
      requires i < |what|
      ensures PauseCall in what[..i + 1] <==> PauseCall in what[..i] || what[i] == PauseCall
      ensures Tick in what[..i + 1] <==> Tick in what[..i] || what[i] == Tick
    {
      assert what[..i + 1] == what[..i] + [what[i]];
    }

    /** Lets the listed things happen beside the loop. */
    method Happen(what: seq<Outside>, ghost x: System) returns (ghost es: seq<Event>)
      requires Matches(x)
      modifies this
      ensures es == Events(what)
      ensures Matches(Run(x, es)) && Run(x, es).loop == x.loop && Run(x, es).callbacks == x.callbacks
      ensures shouldPause == (old(shouldPause) || PauseCall in what)
      ensures running == (old(running) && PauseCall !in what)
      ensures tickSem == if Supplied(what, old(running), old(tickSem) > 0) then 1 else 0
    {
      es := [];
      var i := 0;
      assert what[..0] == [];
      while i < |what|
        invariant 0 <= i <= |what| && es == Events(what[..i])
        invariant Matches(Run(x, es)) && Run(x, es).loop == x.loop && Run(x, es).callbacks == x.callbacks
        invariant shouldPause == (old(shouldPause) || PauseCall in what[..i])
        invariant running == (old(running) && PauseCall !in what[..i])
        invariant tickSem == if Supplied(what[..i], old(running), old(tickSem) > 0) then 1 else 0
      {
        ghost var y := Run(x, es);
        assert what[..i + 1][..i] == what[..i];
        NextIn(what, i);
        if what[i].Tick? {
          if running {
            tickSem := 1;
          }
          RunAppend(x, es, [TimerFires]);
          RunOne(y, TimerFires);
          es := es + [TimerFires];
        } else {
          Pause();
          RunAppend(x, es, [RaiseFlag, StopTimer, GiveSem]);
          RunThree(y, RaiseFlag, StopTimer, GiveSem);
          es := es + [RaiseFlag, StopTimer, GiveSem];
        }
        i := i + 1;
      }
      assert what[..i] == what;
    }

    /** The wait for a token: it returns once one was taken. */
    method TakeToken(waiting: seq<Outside>, ghost x: System) returns (taken: bool, ghost es: seq<Event>)
      requires Matches(x) && x.loop.Testing? && !x.shouldPause
      modifies this
      ensures es == [TestPause] + Events(waiting) + (if taken then [Take] else [])
      ensures Matches(Run(x, es)) && Run(x, es).callbacks == x.callbacks
      ensures if taken then Run(x, es).loop.Woken? else Run(x, es).loop.Waiting?
      ensures taken == Supplied(waiting, old(running), old(tickSem) > 0) && tickSem == 0
      ensures shouldPause == (PauseCall in waiting) && running == (old(running) && PauseCall !in waiting)
    {
      es := Note(x, [], TestPause);
      ghost var more := Happen(waiting, Run(x, es));
      RunAppend(x, es, more);
      es := es + more;
      taken := tickSem > 0;
      if taken {
        tickSem := tickSem - 1;
        es := Note(x, es, Take);
      }
    }

    /** The callback and what follows it. */
    method CallBack(round: Round, ghost x: System) returns (ghost es: seq<Event>)
      requires Matches(x) && x.loop.Woken? && !x.shouldPause
      modifies this
      ensures es == [TestAfterTake] + Events(round.inside) + [CallbackReturns(round.pause, round.ok)]
      ensures Matches(Run(x, es)) && Run(x, es).callbacks == x.callbacks + 1
      ensures if round.ok then Run(x, es).loop.Testing? else Run(x, es).loop.Idle?
      ensures round.ok ==> shouldPause == round.pause
      ensures running == (old(running) && PauseCall !in round.inside && round.ok)
      ensures tickSem == if Supplied(round.inside, old(running), old(tickSem) > 0) then 1 else 0
    {
      es := Note(x, [], TestAfterTake);
      ghost var more := Happen(round.inside, Run(x, es));
      RunAppend(x, es, more);
      es := es + more;
      es := Note(x, es, CallbackReturns(round.pause, round.ok));
      if round.ok {
        shouldPause := round.pause;
      } else {
        running := false;
      }
    }

    /** One turn of the loop; `calls` counts its callbacks. */
    method OneRound(round: Round, ghost x: System)
      returns (r: Result, calls: nat, ghost es: seq<Event>, ghost y: System)
      requires Matches(x) && x.loop.Testing? && !x.shouldPause
      modifies this
      ensures y == Run(x, es) && Matches(y) && y.callbacks == x.callbacks + calls
      ensures es <= RoundEvents(round)
      ensures r.Ended? || r.CallbackFailed? <==> y.loop.Idle?
      ensures r.StillWaiting? ==>
                calls == 0 && y.loop.Waiting? && tickSem == 0 && es == [TestPause] + Events(round.waiting)
      ensures r.StillRunning? ==> calls == 1 && y.loop.Testing? && es == RoundEvents(round)
      ensures r == if !Supplied(round.waiting, old(running), old(tickSem) > 0) then StillWaiting
                   else if PauseCall in round.waiting then Ended
                   else if round.ok then StillRunning else CallbackFailed
      ensures calls == if r.StillRunning? || r.CallbackFailed? then 1 else 0
      ensures r.StillRunning? ==>
                && shouldPause == round.pause && running == (old(running) && PauseCall !in round.inside)
                && tickSem == (if Supplied(round.inside, old(running), false) then 1 else 0)
      ensures r.CallbackFailed? || r.Ended? ==> !running
    {
      var taken;
      taken, es := TakeToken(round.waiting, x);
      y := Run(x, es);
      if !taken {
        assert es <= RoundEvents(round);
        return StillWaiting, 0, es, y;
      }
      if shouldPause {
        es := Note(x, es, TestAfterTake);
        running := running && kind.KernelTimer?;
        return Ended, 0, es, Step(y, TestAfterTake);
      }
      ghost var more := CallBack(round, y);
      RunAppend(x, es, more);
      es := es + more;
      assert es == RoundEvents(round);
      return if round.ok then StillRunning else CallbackFailed, 1, es, Run(y, more);
    }

    /** The next turn, put behind those before it. */
    method TakeTurn(rounds: seq<Round>, before: nat, ghost first: bool, ghost begun: bool,
                    ghost x: System, ghost es: seq<Event>)
      returns (r: Result, calls: nat, ghost more: seq<Event>, ghost z: System)
      requires before < |rounds| && es == Script(rounds[..before])
      requires var y := Run(x, es); Matches(y) && y.loop.Testing? && y.callbacks == x.callbacks + before
      requires !shouldPause && (begun ==> Tracked(rounds, first, before, running, false, tickSem))
      modifies this
      ensures z == Run(x, more) && Matches(z) && z.callbacks == x.callbacks + calls
      ensures r.StillRunning? ==>
                && calls == before + 1 && z.loop.Testing? && more == Script(rounds[..calls])
                && (begun ==> Tracked(rounds, first, calls, running, shouldPause, tickSem))
      ensures !r.StillRunning? ==>
                && more <= Script(rounds) + [TestPause] && (z.loop.Idle? <==> !r.StillWaiting?)
                && (r.CallbackFailed? || r.Ended? ==> !running)
                && (begun ==> EndsAs(rounds, FirstOdd(rounds, 0, first), first, r, calls))
      ensures r.StillWaiting? ==>
                && z.loop.Waiting? && tickSem == 0 && calls == before
                && more == Script(rounds[..calls]) + [TestPause] + Events(rounds[calls].waiting)
    {
      ghost var was, left := running, tickSem;
      r, calls, more, z := OneRound(rounds[before], Run(x, es));
      Joined(rounds, before, x, es, more);
      if begun { NextTracked(rounds, first, before, was, left, r, calls, running, shouldPause, tickSem); }
      more, calls := es + more, before + calls;
    }

    /** The turns of the loop, up to the test that ends it. */
    method Turns(rounds: seq<Round>, ghost x: System)
      returns (r: Result, calls: nat, ghost es: seq<Event>, ghost y: System)
      requires Matches(x) && x.loop.Testing?
      modifies this
      ensures y == Run(x, es) && Matches(y) && y.callbacks == x.callbacks + calls
      ensures r.StillRunning? ==>
                && y.loop.Testing? && calls <= |rounds| && es == Script(rounds[..calls])
                && (calls == |rounds| || shouldPause)
                && (old(running && !shouldPause) ==>
                      Tracked(rounds, old(tickSem) > 0, calls, running, shouldPause, tickSem))
      ensures !r.StillRunning? ==>
                && es <= Script(rounds) + [TestPause] && (y.loop.Idle? <==> !r.StillWaiting?)
                && (r.CallbackFailed? || r.Ended? ==> !running)
                && (old(running && !shouldPause) ==>
                      EndsAs(rounds, FirstOdd(rounds, 0, old(tickSem) > 0), old(tickSem) > 0, r, calls))
      ensures r.StillWaiting? ==>
                && y.loop.Waiting? && tickSem == 0 && calls < |rounds|
                && es == Script(rounds[..calls]) + [TestPause] + Events(rounds[calls].waiting)
    {
      ghost var begun, first := running && !shouldPause, tickSem > 0;
      es, calls, y, r := [], 0, x, StillRunning;
      assert rounds[..0] == [];
      while calls < |rounds| && !shouldPause
        invariant 0 <= calls <= |rounds| && es == Script(rounds[..calls])
        invariant y == Run(x, es) && Matches(y) && y.loop.Testing? && y.callbacks == x.callbacks + calls
        invariant r.StillRunning? && (begun ==> Tracked(rounds, first, calls, running, shouldPause, tickSem))
        decreases |rounds| - calls
      {
        r, calls, es, y := TakeTurn(rounds, calls, first, begun, x, es);
        if !r.StillRunning? { return; }
      }
    }

    /** The dispatch loop of `start`.  Every execution is a run of the step machine over a beginning
        of the rounds' events; it stops early only where the machine ends or blocks.  Begun with its
        timer running, it calls back once for each ordinary round, and the first odd one ends it. */
    method Dispatch(rounds: seq<Round>, ghost x: System)
      returns (r: Result, calls: nat, ghost es: seq<Event>, ghost y: System)
      requires Matches(x) && x.loop.Testing?
      modifies this
      ensures y == Run(x, es) && Matches(y) && y.callbacks == x.callbacks + calls
      ensures es <= Script(rounds) + [TestPause]
      ensures r.Ended? || r.CallbackFailed? <==> y.loop.Idle?
      ensures r.StillWaiting? ==>
                && y.loop.Waiting? && tickSem == 0 && calls < |rounds|
                && es == Script(rounds[..calls]) + [TestPause] + Events(rounds[calls].waiting)
      ensures r.StillRunning? ==> y.loop.Testing? && es == Script(rounds)
      ensures old(running && !shouldPause) ==>
                EndsAs(rounds, FirstOdd(rounds, 0, old(tickSem) > 0), old(tickSem) > 0, r, calls)
      ensures r.CallbackFailed? || (r.Ended? && kind.CounterDriven?) ==> !running
    {
      r, calls, es, y := Turns(rounds, x);
      if r.StillRunning? {
        EndOfScript(rounds, calls);
        if shouldPause {
          es := Note(x, es, TestPause);
          y := Step(y, TestPause);
          running := running && kind.KernelTimer?;
          r := Ended;
        }
      }
    }

    /** Behind `calls` rounds, of a loop that began with its timer running and no pause: all were
        ordinary, or the first odd one called back, asked for a pause and is the last. */
    static ghost predicate Tracked(rounds: seq<Round>, first: bool, calls: nat, running: bool, paused: bool, sem: nat)
      requires calls <= |rounds|
    {
      var odd := FirstOdd(rounds, 0, first);
      if calls <= odd then running == RunsFor(rounds, calls) && !paused && (sem > 0 <==> LeftFor(rounds, calls, first))
      else
        && calls == odd + 1 && paused && PauseCall !in rounds[odd].waiting
        && SuppliedFor(rounds, odd, first) && rounds[odd].ok
    }

    /** One more turn, given what `OneRound` says of it. */
    static lemma NextTracked(rounds: seq<Round>, first: bool, calls: nat, ran: bool, left: nat,
                             r: Result, n: nat, running: bool, paused: bool, sem: nat)
      requires calls < |rounds| && Tracked(rounds, first, calls, ran, false, left)
      requires var round := rounds[calls];
        && r == (if !Supplied(round.waiting, ran, left > 0) then StillWaiting
                 else if PauseCall in round.waiting then Ended
                 else if round.ok then StillRunning else CallbackFailed)
        && n == (if r.StillRunning? || r.CallbackFailed? then 1 else 0)
        && (r.StillRunning? ==>
              && paused == round.pause && running == (ran && PauseCall !in round.inside)
              && sem == (if Supplied(round.inside, ran, false) then 1 else 0))
      ensures r.StillRunning? ==> Tracked(rounds, first, calls + 1, running, paused, sem)
      ensures !r.StillRunning? ==> EndsAs(rounds, FirstOdd(rounds, 0, first), first, r, calls + n)
    {
      assert calls < FirstOdd(rounds, 0, first) ==> Ordinary(rounds, calls, first);
    }

    /** The events of a turn, put behind those of the rounds before it. */
    static lemma Joined(rounds: seq<Round>, k: nat, x: System, es: seq<Event>, part: seq<Event>)
      requires k < |rounds| && es == Script(rounds[..k]) && part <= RoundEvents(rounds[k])
      ensures Run(x, es + part) == Run(Run(x, es), part)
      ensures es + part <= Script(rounds) + [TestPause]
      ensures part == RoundEvents(rounds[k]) ==> es + part == Script(rounds[..k + 1])
      ensures part == [TestPause] + Events(rounds[k].waiting) ==>
                es + part == es + [TestPause] + Events(rounds[k].waiting)
    {
      assert Parts(rounds[..k]) == Parts(rounds)[..k] && Parts(rounds[..k + 1]) == Parts(rounds)[..k + 1];
      ConcatPrefix(Parts(rounds), k, part);
      RunAppend(x, es, part);
      assert es + ([TestPause] + Events(rounds[k].waiting)) == es + [TestPause] + Events(rounds[k].waiting);
    }

    static lemma EndOfScript(rounds: seq<Round>, k: nat)
      requires k <= |rounds|
      ensures Script(rounds[..k]) + [TestPause] <= Script(rounds) + [TestPause]
      ensures k == |rounds| ==> Script(rounds[..k]) == Script(rounds)
    {
      if k < |rounds| {
        assert Parts(rounds[..k]) == Parts(rounds)[..k];
        ConcatPrefix(Parts(rounds), k, [TestPause]);
      } else {
        assert rounds[..k] == rounds;
      }
    }

    /** Records one step of the loop. */
    static lemma Note(x: System, es: seq<Event>, e: Event) returns (more: seq<Event>)
      ensures more == es + [e] && Run(x, more) == Step(Run(x, es), e)
    {
      more := es + [e];
      RunAppend(x, es, [e]);
      RunOne(Run(x, es), e);
    }
  }
}
