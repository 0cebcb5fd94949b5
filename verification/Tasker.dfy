/** The tasker lifecycle: one controller starts and joins a thread over event bits and atomic
    flags.  Every atomic load, store, event operation and kernel call is one step. */
module TaskerSpec {
  datatype Status = Initialized | Running | Stopped

  /** What controller and threads share. */
  datatype Shared = Shared(
    ready: bool, exitedBit: bool,                           // event bits
    stop: bool, exited: bool, created: bool, joined: bool,  // atomic flags
    status: Status)

  const INIT: Shared := Shared(false, false, false, false, false, false, Initialized)

  /** The guard of `start`. */
  predicate Refuses(s: Shared) { s.created && !s.exited }

  /** What `start` does to the shared state before it creates the thread. */
  function Prepare(s: Shared): Shared {
    Shared(false, false, false, false, false, false, s.status)
  }

  /** `ready`: a failing status callback keeps the event from being posted. */
  function Ready(s: Shared, callbackOk: bool): Shared {
    s.(status := Running, ready := s.ready || callbackOk)
  }

  /** The end of a thread, after its entry point returned. */
  function Tail(s: Shared, failed: bool): Shared {
    s.(status := Stopped, ready := s.ready || failed, exited := true, exitedBit := true)
  }

  function FinishJoin(s: Shared): Shared { s.(joined := true, created := false) }
}

/** The object as updated by each function of the source when nothing runs in between. */
module TaskerDriver {
  import opened TaskerSpec
  import TaskerRuns

  datatype StartResult = AlreadyStarted | NoMemory | Launched
  datatype JoinPlan = NothingToDo | ThreadJoin | WaitForExit

  class Tasker {
    var ready: bool
    var exitedBit: bool
    var stop: bool
    var exited: bool
    var created: bool
    var joined: bool
    var status: Status

    ghost function Abs(): Shared
      reads this
    {
      Shared(ready, exitedBit, stop, exited, created, joined, status)
    }

    constructor ()
      ensures Abs() == INIT
    {
      ready, exitedBit, stop, exited, created, joined, status := false, false, false, false, false, false, Initialized;
    }

    /** `start` up to its wait for the ready event; the thread is created when it is launched. */
    method Launch(memoryOk: bool) returns (r: StartResult)
      modifies this
      ensures r == if Refuses(old(Abs())) then AlreadyStarted else if memoryOk then Launched else NoMemory
      ensures r.AlreadyStarted? <==> old(created && !exited)
      ensures !r.AlreadyStarted? ==>
                && !ready && !exitedBit && !stop && !exited && !joined && status == old(status)
                && (created <==> memoryOk)
      ensures Abs() == if r.AlreadyStarted? then old(Abs()) else Prepare(old(Abs())).(created := r.Launched?)
    {
      if created && !exited { return AlreadyStarted; }
      ready, exitedBit := false, false;
      stop := false;
      exited := false;
      joined := false;
      created := false;
      if !memoryOk { return NoMemory; }
      created := true;
      return Launched;
    }

    method SetInfo(s: Status, callbackOk: bool) returns (ok: bool)
      modifies this`status
      ensures status == s && ok == callbackOk
    {
      status := s;
      ok := callbackOk;
    }

    method Ready(callbackOk: bool) returns (ok: bool)
      modifies this
      ensures ok == callbackOk && Abs() == TaskerSpec.Ready(old(Abs()), callbackOk)
      ensures ready == (old(ready) || callbackOk) && status == Running
      ensures Abs() == old(Abs()).(ready := ready, status := status)
    {
      ok := SetInfo(Running, callbackOk);
      if !ok { return; }
      ready := true;
    }

    method Stop()
      modifies this
      ensures Abs() == old(Abs()).(stop := true)
    {
      stop := true;
    }

    method Poll() returns (shouldStop: bool)
      ensures shouldStop == stop
    {
      shouldStop := stop;
    }

    method ThreadTail(failed: bool, callbackOk: bool)
      modifies this
      ensures Abs() == Tail(old(Abs()), failed)
      ensures status == Stopped && exited && exitedBit && ready == (old(ready) || failed)
      ensures (stop, created, joined) == old((stop, created, joined))
    {
      var _ := SetInfo(Stopped, callbackOk);
      if failed {
        if !ready {
          ready := true;
        }
      }
      exited := true;
      exitedBit := true;
    }

    /** `join` up to its first wait.  The plan says where the loads of an uninterrupted `join` take
        the step machine. */
    method BeginJoin(ghost x: TaskerRuns.System) returns (plan: JoinPlan)
      requires x.sh == Abs() && x.pc.JoinLoadCreated?
      ensures plan.NothingToDo? <==> !created || joined
      ensures plan.ThreadJoin? <==> created && !joined && exited
      ensures TaskerRuns.ThreeSteps(x) ==
              match plan
              case NothingToDo => x.(pc := TaskerRuns.Idle, last := TaskerRuns.JoinNothing)
              case ThreadJoin => x.(pc := TaskerRuns.JoinThread)
              case WaitForExit => x.(pc := TaskerRuns.JoinWait)
    {
      if !created || joined { return NothingToDo; }
      if exited { return ThreadJoin; }
      return WaitForExit;
    }

    /** After `k_thread_join` returned. */
    method EndJoin()
      modifies this
      ensures Abs() == FinishJoin(old(Abs()))
      ensures joined && !created && Abs() == old(Abs()).(joined := true, created := false)
    {
      joined := true;
      created := false;
    }
  }
}

/** All interleavings. */
module TaskerRuns {
  import opened TaskerSpec

  datatype ThreadPc = Entry | PostingReady | CheckReady | FailPost | StoreExited | PostExited | Terminated

  /** A thread of the tasker: `announced` once its `ready()` posted the event, `failed` once its
      entry point returned an error. */
  datatype Thread = Thread(pc: ThreadPc, announced: bool, failed: bool)

  /** Where the controller stands inside `start` or `join`. */
  datatype Pc =
    | Idle
    | StartLoadCreated | StartLoadExited | StartClearEvents | StartClearStop | StartClearExited
    | StartClearJoined | StartClearCreated | StartAllocate | StartCreateThread | StartSetCreated | StartWait
    | JoinLoadCreated | JoinLoadJoined | JoinLoadExited | JoinWait | JoinThread | JoinSetJoined | JoinClearCreated

  /** How the last call ended. */
  datatype Outcome = Pending | StartOk | StartRefused | StartNoMemory | JoinNothing | JoinTimeout | JoinDone

  datatype System = System(sh: Shared, pc: Pc, last: Outcome, threads: seq<Thread>)

  datatype Action = CallReady(callbackOk: bool) | Return(failed: bool) | Go

  /** `Advance(ok)` moves the controller; `ok` decides an allocation or lets a timed wait go on. */
  datatype Event = CallStart | CallJoin | CallStop | Advance(ok: bool) | Run(i: nat, action: Action)

  const START: System := System(INIT, Idle, Pending, [])

  /** The thread of the latest run. */
  function Current(x: System): Thread
    requires x.threads != []
  {
    x.threads[|x.threads| - 1]
  }

  function Control(x: System, ok: bool): System {
    var s := x.sh;
    match x.pc
    case Idle => x
    case StartLoadCreated => x.(pc := if s.created then StartLoadExited else StartClearEvents)
    case StartLoadExited => if s.exited then x.(pc := StartClearEvents) else x.(pc := Idle, last := StartRefused)
    case StartClearEvents => x.(sh := s.(ready := false, exitedBit := false), pc := StartClearStop)
    case StartClearStop => x.(sh := s.(stop := false), pc := StartClearExited)
    case StartClearExited => x.(sh := s.(exited := false), pc := StartClearJoined)
    case StartClearJoined => x.(sh := s.(joined := false), pc := StartClearCreated)
    case StartClearCreated => x.(sh := s.(created := false), pc := StartAllocate)
    case StartAllocate => if ok then x.(pc := StartCreateThread) else x.(pc := Idle, last := StartNoMemory)
    case StartCreateThread => x.(threads := x.threads + [Thread(Entry, false, false)], pc := StartSetCreated)
    case StartSetCreated => x.(sh := s.(created := true), pc := StartWait)
    case StartWait => if s.ready then x.(pc := Idle, last := StartOk) else x
    case JoinLoadCreated => if s.created then x.(pc := JoinLoadJoined) else x.(pc := Idle, last := JoinNothing)
    case JoinLoadJoined => if s.joined then x.(pc := Idle, last := JoinNothing) else x.(pc := JoinLoadExited)
    case JoinLoadExited => x.(pc := if s.exited then JoinThread else JoinWait)
    case JoinWait =>
      if s.exitedBit then x.(pc := JoinThread) else if ok then x else x.(pc := Idle, last := JoinTimeout)
    case JoinThread => if x.threads != [] && Current(x).pc.Terminated? then x.(pc := JoinSetJoined) else x
    case JoinSetJoined => x.(sh := s.(joined := true), pc := JoinClearCreated)
    case JoinClearCreated => x.(sh := s.(created := false), pc := Idle, last := JoinDone)
  }

  function RunThread(s: Shared, t: Thread, a: Action): (Shared, Thread) {
    match t.pc
    case Entry =>
      (match a
       case CallReady(ok) => (s.(status := Running), if ok then t.(pc := PostingReady) else t)
       case Return(failed) =>
         (s.(status := Stopped), t.(pc := if failed then CheckReady else StoreExited, failed := failed))
       case Go => (s, t))
    case PostingReady => (s.(ready := true), t.(pc := Entry, announced := true))
    case CheckReady => (s, t.(pc := if s.ready then StoreExited else FailPost))
    case FailPost => (s.(ready := true), t.(pc := StoreExited))
    case StoreExited => (s.(exited := true), t.(pc := PostExited))
    case PostExited => (s.(exitedBit := true), t.(pc := Terminated))
    case Terminated => (s, t)
  }

  function Step(x: System, e: Event): System {
    match e
    case CallStart => if x.pc.Idle? then x.(pc := StartLoadCreated, last := Pending) else x
    case CallJoin => if x.pc.Idle? then x.(pc := JoinLoadCreated, last := Pending) else x
    case CallStop => x.(sh := x.sh.(stop := true))
    case Advance(ok) => Control(x, ok)
    case Run(i, a) =>
      if i < |x.threads| then
        var (s, t) := RunThread(x.sh, x.threads[i], a);
        x.(sh := s, threads := x.threads[i := t])
      else x
  }

  /** Three steps of the controller with nothing in between. */
  function ThreeSteps(x: System): System {
    Step(Step(Step(x, Advance(true)), Advance(true)), Advance(true))
  }

  function RunAll(x: System, es: seq<Event>): System
    decreases |es|
  {
    if es == [] then x else RunAll(Step(x, es[0]), es[1..])
  }

  // ----- the invariant -----

  predicate InEntry(t: Thread) { t.pc.Entry? || t.pc.PostingReady? }

  /** The thread has not stored its exited flag yet. */
  predicate Live(t: Thread) { !t.pc.PostExited? && !t.pc.Terminated? }

  predicate Launching(pc: Pc) {
    pc.StartClearStop? || pc.StartClearExited? || pc.StartClearJoined? || pc.StartClearCreated?
    || pc.StartAllocate? || pc.StartCreateThread?
  }

  /** The event that `start` waits for is due: the thread announced itself, or it failed and has
      passed the point where it posts on its own behalf. */
  predicate Due(t: Thread) {
    t.announced || (t.failed && (t.pc.StoreExited? || t.pc.PostExited? || t.pc.Terminated?))
  }

  /** Only the last thread can be live, and the error path is taken by failed threads only. */
  ghost predicate ThreadsInv(ts: seq<Thread>) {
    && (forall i :: 0 <= i < |ts| - 1 ==> !Live(ts[i]))
    && (forall i :: 0 <= i < |ts| ==> (ts[i].failed ==> !InEntry(ts[i])))
    && (forall i :: 0 <= i < |ts| ==> (ts[i].pc.CheckReady? || ts[i].pc.FailPost? ==> ts[i].failed))
  }

  /** What flags, event bits and the controller say about the current thread `t`, if there is one. */
  ghost predicate FlagsInv(s: Shared, pc: Pc, last: Outcome, some: bool, t: Thread) {
    // A live thread is not marked exited, and keeps `start` out.
    && ((some && Live(t)) ==>
          && !s.exited && (s.created || pc.StartSetCreated?)
          && !pc.StartClearEvents? && !Launching(pc) && !pc.JoinSetJoined? && !pc.JoinClearCreated?)
    && ((s.exited || s.created || s.joined || s.ready) ==> some)
    && ((pc.StartLoadExited? || pc.JoinLoadJoined? || pc.JoinLoadExited? || pc.JoinWait? || pc.JoinThread?) ==>
          s.created)
    // The ready bit belongs to the current run.
    && (s.ready ==> t.announced || t.failed)
    && (Launching(pc) ==> !s.ready && (pc.StartClearStop? || pc.StartClearExited? || !s.exited))
    && ((pc.StartSetCreated? || pc.StartWait?) ==> some && (s.ready <==> Due(t)))
    && (last == StartOk ==> some && (t.announced || t.failed))
    // A join that took effect saw the current thread terminate.
    && ((pc.JoinSetJoined? || pc.JoinClearCreated? || s.joined || last == JoinDone) ==> some && t.pc.Terminated?)
    && ((pc.StartClearCreated? || pc.StartAllocate? || pc.StartCreateThread? || pc.StartSetCreated?
         || pc.StartWait?) ==> !s.joined)
    && (!pc.Idle? ==> last == Pending)
  }

  /** The thread of the latest run, or a placeholder before the first. */
  function Latest(x: System): Thread { if x.threads == [] then Thread(Terminated, false, false) else Current(x) }

  ghost predicate Inv(x: System) {
    ThreadsInv(x.threads) && FlagsInv(x.sh, x.pc, x.last, x.threads != [], Latest(x))
  }

  predicate InStart(pc: Pc) {
    pc.StartLoadCreated? || pc.StartLoadExited? || pc.StartClearEvents? || Launching(pc)
  }

  predicate InJoin(pc: Pc) {
    pc.JoinLoadCreated? || pc.JoinLoadJoined? || pc.JoinLoadExited? || pc.JoinWait? || pc.JoinThread?
    || pc.JoinSetJoined? || pc.JoinClearCreated?
  }

  lemma LaunchInv(x: System, ok: bool)
    requires Inv(x) && x.pc.StartCreateThread?
    ensures Inv(Control(x, ok))
  {
    var y := Control(x, ok);
    assert Latest(y) == Thread(Entry, false, false);
    assert forall i :: 0 <= i < |x.threads| ==> y.threads[i] == x.threads[i];
  }

  lemma StartControlInv(x: System, ok: bool)
    requires Inv(x) && InStart(x.pc) && !x.pc.StartCreateThread?
    ensures Inv(Control(x, ok))
  {
    var y := Control(x, ok);
    assert y.threads == x.threads;
    assert FlagsInv(y.sh, y.pc, y.last, x.threads != [], Latest(x));
  }

  lemma JoinControlInv(x: System, ok: bool)
    requires Inv(x) && InJoin(x.pc)
    ensures Inv(Control(x, ok))
  {
    var y := Control(x, ok);
    assert y.threads == x.threads;
    assert FlagsInv(y.sh, y.pc, y.last, x.threads != [], Latest(x));
  }

  lemma WaitControlInv(x: System, ok: bool)
    requires Inv(x) && (x.pc.Idle? || x.pc.StartSetCreated? || x.pc.StartWait?)
    ensures Inv(Control(x, ok))
  {
    var y := Control(x, ok);
    assert y.threads == x.threads;
    assert FlagsInv(y.sh, y.pc, y.last, x.threads != [], Latest(x));
  }

  lemma ControlInv(x: System, ok: bool)
    requires Inv(x)
    ensures Inv(Control(x, ok))
  {
    if x.pc.StartCreateThread? {
      LaunchInv(x, ok);
    } else if InStart(x.pc) {
      StartControlInv(x, ok);
    } else if InJoin(x.pc) {
      JoinControlInv(x, ok);
    } else {
      WaitControlInv(x, ok);
    }
  }

  lemma EntryFlags(s: Shared, pc: Pc, last: Outcome, t: Thread, a: Action)
    requires FlagsInv(s, pc, last, true, t) && InEntry(t) && !t.failed
    ensures var (s', t') := RunThread(s, t, a); FlagsInv(s', pc, last, true, t')
  {}

  lemma TailFlags(s: Shared, pc: Pc, last: Outcome, t: Thread, a: Action)
    requires FlagsInv(s, pc, last, true, t) && !InEntry(t) && (t.pc.CheckReady? || t.pc.FailPost? ==> t.failed)
    ensures var (s', t') := RunThread(s, t, a); FlagsInv(s', pc, last, true, t')
  {}

  lemma OneThread(s: Shared, t: Thread, a: Action)
    requires ThreadsInv([t])
    ensures ThreadsInv([RunThread(s, t, a).1])
  {
    assert [t][0] == t;
  }

  lemma ThreadFlags(s: Shared, pc: Pc, last: Outcome, t: Thread, a: Action)
    requires FlagsInv(s, pc, last, true, t) && ThreadsInv([t])
    ensures var (s', t') := RunThread(s, t, a); FlagsInv(s', pc, last, true, t')
  {
    assert [t][0] == t;
    if InEntry(t) {
      EntryFlags(s, pc, last, t, a);
    } else {
      TailFlags(s, pc, last, t, a);
    }
  }

  /** A thread that is not live changes nothing but the exited event bit. */
  lemma OldThread(s: Shared, t: Thread, a: Action)
    requires !Live(t)
    ensures var (s', t') := RunThread(s, t, a);
      s' == s.(exitedBit := s'.exitedBit) && !Live(t') && t'.failed == t.failed
  {}

  lemma ThreadInv(x: System, i: nat, a: Action)
    requires Inv(x) && i < |x.threads|
    ensures Inv(Step(x, Run(i, a)))
  {
    var y := Step(x, Run(i, a));
    var (s, t) := RunThread(x.sh, x.threads[i], a);
    assert [x.threads[i]][0] == x.threads[i];
    if i == |x.threads| - 1 {
      assert ThreadsInv([x.threads[i]]);
      ThreadFlags(x.sh, x.pc, x.last, x.threads[i], a);
      OneThread(x.sh, x.threads[i], a);
      assert [t][0] == t && Latest(y) == t;
    } else {
      OldThread(x.sh, x.threads[i], a);
      assert Latest(y) == Latest(x);
    }
    assert forall j :: 0 <= j < |x.threads| ==> y.threads[j] == if j == i then t else x.threads[j];
  }

  lemma StepInv(x: System, e: Event)
    requires Inv(x)
    ensures Inv(Step(x, e))
  {
    match e {
      case Advance(ok) => ControlInv(x, ok);
      case Run(i, a) => if i < |x.threads| { ThreadInv(x, i, a); }
      case _ =>
    }
  }

  lemma {:induction false} ReachableInv(x: System, es: seq<Event>)
    requires Inv(x)
    ensures Inv(RunAll(x, es))
    decreases |es|
  {
    if es != [] {
      StepInv(x, es[0]);
      ReachableInv(Step(x, es[0]), es[1..]);
    }
  }

  // ----- the theorems -----

  /** At most one thread of a tasker executes its entry point, under every interleaving. */
  lemma AtMostOneEntry(es: seq<Event>)
    ensures var x := RunAll(START, es);
      forall i, j :: 0 <= i < j < |x.threads| ==> !(InEntry(x.threads[i]) && InEntry(x.threads[j]))
  {
    ReachableInv(START, es);
  }

  /** A `start` that succeeded saw its thread call `ready()` or fail; a call of `join` that took
      effect saw the thread of the current run terminate. */
  lemma OutcomesAreTrue(es: seq<Event>)
    ensures var x := RunAll(START, es);
      && (x.last == StartOk ==> x.threads != [] && (Current(x).announced || Current(x).failed))
      && (x.last == JoinDone ==> x.threads != [] && Current(x).pc.Terminated?)
      && (x.sh.joined ==> x.threads != [] && Current(x).pc.Terminated?)
  {
    ReachableInv(START, es);
  }

  /** A waiting `start` can return exactly when the event is due. */
  lemma StartWakesIffDue(es: seq<Event>, ok: bool)
    ensures var x := RunAll(START, es);
      x.pc.StartWait? ==> x.threads != [] && (Step(x, Advance(ok)).last == StartOk <==> Due(Current(x)))
  {
    ReachableInv(START, es);
  }

  /** `start` waits for an event that nobody will post. */
  predicate Hanging(x: System) {
    x.pc.StartWait? && x.threads != []
    && !InEntry(Current(x)) && !Current(x).announced && !Current(x).failed
  }

  lemma HangStep(x: System, e: Event)
    requires Inv(x) && Hanging(x)
    ensures Hanging(Step(x, e))
  {}

  /** An entry point that returned success without a successful `ready()` leaves `start` waiting
      for ever, whatever happens next. */
  lemma {:induction false} StartHangs(x: System, es: seq<Event>)
    requires Inv(x) && Hanging(x)
    ensures RunAll(x, es).pc.StartWait?
    decreases |es|
  {
    if es != [] {
      HangStep(x, es[0]);
      StepInv(x, es[0]);
      StartHangs(Step(x, es[0]), es[1..]);
    }
  }

  /** With the thread past its entry point, a join does not wait on user code: once the exited
      flag is set only the last kernel-side step of the thread is left. */
  lemma ExitedMeansOutOfEntry(es: seq<Event>)
    ensures var x := RunAll(START, es);
      x.sh.exited ==> forall i :: 0 <= i < |x.threads| ==> !Live(x.threads[i])
  {
    ReachableInv(START, es);
    var x := RunAll(START, es);
    if x.sh.exited {
      assert x.threads[|x.threads| - 1] == Current(x);
    }
  }

  // ----- why a join needs the kernel's join as well -----

  lemma {:induction false} RunAppend(x: System, a: seq<Event>, b: seq<Event>)
    ensures RunAll(x, a + b) == RunAll(RunAll(x, a), b)
    decreases |a|
  {
    if a == [] {
      assert a + b == b;
    } else {
      assert (a + b)[0] == a[0] && (a + b)[1..] == a[1..] + b;
      RunAppend(Step(x, a[0]), a[1..], b);
    }
  }

  ghost predicate Reaches(x: System, y: System) { exists es :: RunAll(x, es) == y }

  lemma ReachesSelf(x: System)
    ensures Reaches(x, x)
  {
    assert RunAll(x, []) == x;
  }

  lemma Then(x: System, y: System, e: Event) returns (z: System)
    requires Reaches(x, y)
    ensures z == Step(y, e) && Reaches(x, z)
  {
    z := Step(y, e);
    var es :| RunAll(x, es) == y;
    RunAppend(x, es, [e]);
    assert [e][1..] == [] && RunAll(y, [e]) == RunAll(Step(y, e), []);
    assert RunAll(x, es + [e]) == z;
  }

  /** An uninterrupted `start` behind the clearing of its events. */
  lemma LaunchUninterrupted(o: System, x: System) returns (y: System)
    requires Reaches(o, x) && x.pc.StartClearStop? && !x.sh.ready
    ensures Reaches(o, y)
    ensures y == System(Prepare(x.sh).(created := true, exitedBit := x.sh.exitedBit), StartWait, x.last,
                        x.threads + [Thread(Entry, false, false)])
  {
    y := PrepareUninterrupted(o, x);
    y := Then(o, y, Advance(true));
    y := Then(o, y, Advance(true));
    y := Then(o, y, Advance(true));
  }

  /** A whole uninterrupted `start`, from its call to its wait: refused, or the effect of the object's
      `Launch` with a new thread. */
  lemma StartUninterrupted(o: System, x: System) returns (y: System)
    requires Reaches(o, x) && x.pc.Idle?
    ensures Reaches(o, y)
    ensures Refuses(x.sh) ==> y == x.(last := StartRefused)
    ensures !Refuses(x.sh) ==>
              y == System(Prepare(x.sh).(created := true), StartWait, Pending,
                          x.threads + [Thread(Entry, false, false)])
  {
    y := Then(o, x, CallStart);
    y := Then(o, y, Advance(true));
    if x.sh.created { y := Then(o, y, Advance(true)); }
    if !Refuses(x.sh) {
      y := Then(o, y, Advance(true));
      y := LaunchUninterrupted(o, y);
    }
  }

  lemma PrepareUninterrupted(o: System, x: System) returns (y: System)
    requires Reaches(o, x) && x.pc.StartClearStop? && !x.sh.ready
    ensures Reaches(o, y)
    ensures y == x.(sh := Prepare(x.sh).(exitedBit := x.sh.exitedBit), pc := StartAllocate)
  {
    y := Then(o, x, Advance(true));
    y := Then(o, y, Advance(true));
    y := Then(o, y, Advance(true));
    y := Then(o, y, Advance(true));
  }

  /** A thread announces itself; the waiting `start` returns. */
  lemma AnnounceUninterrupted(o: System, x: System, i: nat) returns (y: System)
    requires Reaches(o, x) && x.pc.StartWait? && i < |x.threads| && x.threads[i] == Thread(Entry, false, false)
    ensures Reaches(o, y)
    ensures y == System(x.sh.(ready := true, status := Running), Idle, StartOk,
                        x.threads[i := Thread(Entry, true, false)])
  {
    y := Then(o, x, Run(i, CallReady(true)));
    y := Then(o, y, Run(i, Go));
    y := Then(o, y, Advance(true));
  }

  /** A thread calls `ready()` with nothing in between: the effect of the object's `Ready`. */
  lemma ReadyUninterrupted(o: System, x: System, i: nat, callbackOk: bool) returns (y: System)
    requires Reaches(o, x) && i < |x.threads| && x.threads[i].pc.Entry?
    ensures Reaches(o, y)
    ensures y.sh == TaskerSpec.Ready(x.sh, callbackOk) == x.sh.(ready := x.sh.ready || callbackOk, status := Running)
    ensures var t := x.threads[i];
      y == x.(sh := y.sh, threads := x.threads[i := t.(announced := t.announced || callbackOk)])
  {
    y := Then(o, x, Run(i, CallReady(callbackOk)));
    if callbackOk { y := Then(o, y, Run(i, Go)); }
  }

  /** So behind it a waiting `start` returns with its next step exactly when the status callback
      succeeded or the event was set before. */
  lemma ReadyLetsStartReturn(o: System, x: System, i: nat, callbackOk: bool) returns (y: System)
    requires Reaches(o, x) && i < |x.threads| && x.threads[i].pc.Entry? && x.pc.StartWait?
    ensures Reaches(o, y) && y.pc.StartWait?
    ensures Step(y, Advance(true)).pc.Idle? <==> callbackOk || x.sh.ready
    ensures callbackOk || x.sh.ready ==> Step(y, Advance(true)).last == StartOk
  {
    y := ReadyUninterrupted(o, x, i, callbackOk);
  }

  /** A join whose time is up does not go on waiting: it goes on to the kernel's join if the exited
      event is there, and otherwise reports the timeout and leaves the tasker as it was. */
  lemma TimedJoinReturns(x: System)
    requires x.pc.JoinWait?
    ensures Step(x, Advance(false)) ==
            if x.sh.exitedBit then x.(pc := JoinThread) else x.(pc := Idle, last := JoinTimeout)
  {}

  /** The stop request stays until the controller starts the tasker again. */
  lemma StopHolds(x: System, es: seq<Event>)
    requires x.pc.Idle? || InJoin(x.pc)
    requires forall i :: 0 <= i < |es| ==> !es[i].CallStart?
    ensures RunAll(Step(x, CallStop), es).sh.stop
  {
    StopStays(Step(x, CallStop), es);
  }

  lemma StopStep(x: System, e: Event)
    requires (x.pc.Idle? || InJoin(x.pc)) && x.sh.stop && !e.CallStart?
    ensures var y := Step(x, e); (y.pc.Idle? || InJoin(y.pc)) && y.sh.stop
  {}

  lemma {:induction false} StopStays(x: System, es: seq<Event>)
    requires (x.pc.Idle? || InJoin(x.pc)) && x.sh.stop
    requires forall i :: 0 <= i < |es| ==> !es[i].CallStart?
    ensures RunAll(x, es).sh.stop
    decreases |es|
  {
    if es != [] {
      assert !es[0].CallStart?;
      StopStep(x, es[0]);
      StopStays(Step(x, es[0]), es[1..]);
    }
  }

  /** A thread that left its entry point runs to its end: the effect of the object's `ThreadTail`. */
  lemma TailUninterrupted(o: System, x: System, i: nat, failed: bool) returns (y: System)
    requires Reaches(o, x) && i < |x.threads| && x.threads[i].pc.Entry?
    ensures Reaches(o, y)
    ensures y == x.(sh := Tail(x.sh, failed),
                    threads := x.threads[i := x.threads[i].(pc := Terminated, failed := failed)])
  {
    y := Then(o, x, Run(i, Return(failed)));
    if failed {
      y := Then(o, y, Run(i, Go));
      if !x.sh.ready { y := Then(o, y, Run(i, Go)); }
    }
    assert y.threads[i].pc.StoreExited?;
    y := Then(o, y, Run(i, Go));
    y := Then(o, y, Run(i, Go));
  }

  /** A join behind the end of its thread: the effect of the object's `BeginJoin` and `EndJoin`. */
  lemma JoinUninterrupted(o: System, x: System) returns (y: System)
    requires Reaches(o, x) && x.pc.JoinLoadCreated? && x.threads != [] && Current(x).pc.Terminated?
    requires x.sh.created && !x.sh.joined && x.sh.exited
    ensures Reaches(o, y)
    ensures y == x.(sh := FinishJoin(x.sh), pc := Idle, last := JoinDone)
  {
    y := BeginJoinUninterrupted(o, x);
    y := Then(o, y, Advance(true));
    y := Then(o, y, Advance(true));
    y := Then(o, y, Advance(true));
  }

  lemma BeginJoinUninterrupted(o: System, x: System) returns (y: System)
    requires Reaches(o, x) && x.pc.JoinLoadCreated? && x.sh.created && !x.sh.joined && x.sh.exited
    ensures Reaches(o, y) && y == x.(pc := JoinThread)
  {
    y := Then(o, x, Advance(true));
    y := Then(o, y, Advance(true));
    y := Then(o, y, Advance(true));
  }

  // ----- when a waiting start returns -----

  lemma ReadyReturns(o: System, x: System) returns (y: System)
    requires Reaches(o, x) && Inv(x) && x.pc.StartWait? && x.threads != [] && Due(Current(x))
    ensures Reaches(o, y) && y.pc.Idle?
  {
    y := Then(o, x, Advance(true));
  }

  lemma ThreadStep(o: System, x: System, a: Action) returns (y: System)
    requires Reaches(o, x) && Inv(x) && x.pc.StartWait? && x.threads != []
    ensures Reaches(o, y) && Inv(y) && y.pc.StartWait? && y.threads != []
    ensures Current(y) == RunThread(x.sh, Current(x), a).1
  {
    var e := Run(|x.threads| - 1, a);
    StepInv(x, e);
    y := Then(o, x, e);
    assert Inv(y);
  }

  /** A thread still in its entry point can announce itself. */
  lemma EntryReturns(o: System, x: System) returns (y: System)
    requires Reaches(o, x) && Inv(x) && x.pc.StartWait? && x.threads != [] && InEntry(Current(x))
    ensures Reaches(o, y) && y.pc.Idle?
  {
    y := x;
    if Current(y).pc.Entry? { y := ThreadStep(o, y, CallReady(true)); }
    y := ThreadStep(o, y, Go);
    y := ReadyReturns(o, y);
  }

  /** A failed thread posts on its own behalf. */
  lemma FailedReturns(o: System, x: System) returns (y: System)
    requires Reaches(o, x) && Inv(x) && x.pc.StartWait? && x.threads != [] && Current(x).failed
    ensures Reaches(o, y) && y.pc.Idle?
  {
    y := x;
    if Current(y).pc.CheckReady? { y := ThreadStep(o, y, Go); }
    if Current(y).pc.FailPost? { y := ThreadStep(o, y, Go); }
    y := ReadyReturns(o, y);
  }

  lemma CanReturn(x: System) returns (es: seq<Event>)
    requires Inv(x) && x.pc.StartWait? && x.threads != []
    requires InEntry(Current(x)) || Current(x).announced || Current(x).failed
    ensures !RunAll(x, es).pc.StartWait?
  {
    ReachesSelf(x);
    var y;
    if InEntry(Current(x)) {
      y := EntryReturns(x, x);
    } else if Current(x).failed {
      y := FailedReturns(x, x);
    } else {
      y := ReadyReturns(x, x);
    }
    es :| RunAll(x, es) == y;
  }

  /** A waiting `start` can still return exactly when its thread is in the entry point, announced
      itself or failed; otherwise it waits through every continuation. */
  lemma StartReturnsIff(x: System)
    requires Inv(x) && x.pc.StartWait?
    ensures x.threads != []
    ensures (exists es :: !RunAll(x, es).pc.StartWait?)
       <==> InEntry(Current(x)) || Current(x).announced || Current(x).failed
  {
    if InEntry(Current(x)) || Current(x).announced || Current(x).failed {
      var es := CanReturn(x);
    } else {
      forall es
        ensures RunAll(x, es).pc.StartWait?
      {
        StartHangs(x, es);
      }
    }
  }

  /** A run to a `start` that waits for ever: the first thread returns success without announcing
      itself. */
  lemma HangIsReachable() returns (x: System)
    ensures Reaches(START, x) && x.pc.StartWait?
    ensures forall es :: RunAll(x, es).pc.StartWait?
  {
    ReachesSelf(START);
    x := Then(START, START, CallStart);
    x := Then(START, x, Advance(true));
    x := Then(START, x, Advance(true));
    x := LaunchUninterrupted(START, x);
    x := Then(START, x, Run(0, Return(false)));
    var before :| RunAll(START, before) == x;
    ReachableInv(START, before);
    forall es
      ensures RunAll(x, es).pc.StartWait?
    {
      StartHangs(x, es);
    }
  }

  /** A stale exited bit is reachable: a restart between the exited flag and the exited event of
      the previous run lets the event wait of a later `join` end while the current thread still
      runs its entry point.  Only `k_thread_join` then keeps the join from returning. */
  lemma StaleExitedBit() returns (x: System)
    ensures Reaches(START, x)
    ensures x.pc.JoinThread? && x.sh.exitedBit && x.threads != [] && InEntry(Current(x))
  {
    ReachesSelf(START);
    x := Then(START, START, CallStart);
    x := Then(START, x, Advance(true));
    x := Then(START, x, Advance(true));
    x := LaunchUninterrupted(START, x);
    x := AnnounceUninterrupted(START, x, 0);
    x := FirstRunLeavesBit(x);
    x := LaunchUninterrupted(START, x);
    x := AnnounceUninterrupted(START, x, 1);
    x := Then(START, x, CallJoin);
    x := Then(START, x, Advance(true));
    x := Then(START, x, Advance(true));
    x := Then(START, x, Advance(true));
    x := Then(START, x, Advance(true));
  }

  /** The old thread's event is posted after the next `start` cleared the bits. */
  lemma FirstRunLeavesBit(x: System) returns (y: System)
    requires Reaches(START, x) && x.pc.Idle? && x.threads == [Thread(Entry, true, false)]
    requires x.sh.created && !x.sh.exited && !x.sh.joined
    ensures Reaches(START, y) && y.pc.StartClearStop? && y.threads == [Thread(Terminated, true, false)]
    ensures !y.sh.ready && y.sh.exitedBit
  {
    y := Then(START, x, Run(0, Return(false)));
    y := Then(START, y, Run(0, Go));
    assert y.threads == [Thread(PostExited, true, false)];
    y := Then(START, y, CallStart);
    y := Then(START, y, Advance(true));
    y := Then(START, y, Advance(true));
    y := Then(START, y, Advance(true));
    y := Then(START, y, Run(0, Go));
  }
}
