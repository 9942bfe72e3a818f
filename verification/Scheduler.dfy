/** `Scheduler`: workers that take tasks from one queue, as a system of steps.

    Everything done under the queue's lock is one step, and so is every access to an atomic counter and every
    switch to or from a fiber with the state it writes.  The steps of different workers interleave at will. */
module Schedulers {
  import opened Options

  type Fiber = nat
  type Callback = nat

  datatype FiberState = Init | Running | Hold | Ready | Term | Except

  /** A task may be meant for one worker only. */
  datatype Task = FiberTask(fiber: Fiber, pin: Option<nat>) | CallTask(cb: Callback, pin: Option<nat>)

  /** Where a worker is in the loop of `run`. */
  datatype Mode =
    | Scanning
    | Took(task: Task)
    | Entered(task: Task)
    | Inside(task: Task, fiber: Fiber)
    | Returned(task: Task, fiber: Fiber)
    | Left(task: Task, fiber: Fiber)
    | Waiting
    | Polling
    | Exited

  /** `waitDone`: the wait fiber has terminated.  `spare`: a fiber kept to run callbacks. */
  datatype Worker = Worker(mode: Mode, waitDone: bool, spare: Option<Fiber>)

  /** `submitted` and `started` record what has been put into the queue and what has been switched to. */
  datatype System = System(
    workers: seq<Worker>, queue: seq<Task>, stopping: bool, active: nat, fibers: map<Fiber, FiberState>,
    submitted: seq<Task>, started: seq<Task>)

  function StateOf(s: System, f: Fiber): FiberState { if f in s.fibers then s.fibers[f] else Init }

  /** What a worker passes over: tasks pinned to another one, and fibers that have not yet switched away. */
  predicate Eligible(s: System, w: nat, t: Task) {
    (t.pin == None || t.pin == Some(w)) && !(t.FiberTask? && StateOf(s, t.fiber).Running?)
  }

  /** The first task a worker may take, or the length of the queue. */
  function Find(s: System, w: nat, i: nat): (k: nat)
    requires i <= |s.queue|
    ensures i <= k <= |s.queue|
    decreases |s.queue| - i
  {
    if i == |s.queue| || Eligible(s, w, s.queue[i]) then i else Find(s, w, i + 1)
  }

  function SetMode(s: System, w: nat, m: Mode): System
    requires w < |s.workers|
  {
    s.(workers := s.workers[w := s.workers[w].(mode := m)])
  }

  function Push(s: System, t: Task): System { s.(queue := s.queue + [t], submitted := s.submitted + [t]) }

  datatype Move =
    | Scan(w: nat)
    | Enter(w: nat)
    | Resume(w: nat, spawned: Fiber)
    | Yield(w: nat, to: FiberState)
    | Leave(w: nat)
    | Settle(w: nat)
    | Wait(w: nat, quiet: bool)
    | Back(w: nat)
    | Submit(w: nat, task: Task)
    | SubmitOutside(task: Task)
    | Stop

  predicate CanStop(s: System) { s.stopping && s.active == 0 && s.queue == [] }

  /** The fiber that runs a task: its own, the spare one, or a new one. */
  function FiberFor(s: System, w: nat, t: Task, spawned: Fiber): Fiber
    requires w < |s.workers|
  {
    if t.FiberTask? then t.fiber else if s.workers[w].spare.Some? then s.workers[w].spare.value else spawned
  }

  /** When a move can be made.  After `stop` tasks come from the workers only. */
  predicate Enabled(s: System, m: Move) {
    match m
    case Scan(w) => w < |s.workers| && s.workers[w].mode.Scanning?
    case Enter(w) => w < |s.workers| && s.workers[w].mode.Took?
    case Resume(w, spawned) =>
      && w < |s.workers| && s.workers[w].mode.Entered?
      && (s.workers[w].mode.task.CallTask? && s.workers[w].spare.None? ==> spawned !in s.fibers)
      && !StateOf(s, FiberFor(s, w, s.workers[w].mode.task, spawned)).Running?
    case Yield(w, to) => w < |s.workers| && s.workers[w].mode.Inside? && !to.Running? && !to.Init?
    case Leave(w) => w < |s.workers| && s.workers[w].mode.Returned? && s.active > 0
    case Settle(w) => w < |s.workers| && s.workers[w].mode.Left?
    case Wait(w, _) => w < |s.workers| && s.workers[w].mode.Waiting?
    case Back(w) => w < |s.workers| && s.workers[w].mode.Polling?
    case Submit(w, _) => w < |s.workers| && (s.workers[w].mode.Inside? || s.workers[w].mode.Polling?)
    case SubmitOutside(_) => !s.stopping
    case Stop => true
  }

  /** Under the lock: take the first task that may be taken; with none, wait, or leave if the wait is over. */
  function DoScan(s: System, w: nat): System
    requires w < |s.workers|
  {
    var k := Find(s, w, 0);
    if k < |s.queue| then SetMode(s.(queue := s.queue[..k] + s.queue[k + 1..]), w, Took(s.queue[k]))
    else SetMode(s, w, if s.workers[w].waitDone then Exited else Waiting)
  }

  /** A task's fiber is switched to.  A callback gets a fiber, which starts afresh. */
  function DoResume(s: System, w: nat, spawned: Fiber): System
    requires w < |s.workers| && s.workers[w].mode.Entered?
  {
    var t := s.workers[w].mode.task;
    var f := FiberFor(s, w, t, spawned);
    SetMode(s, w, Inside(t, f)).(fibers := s.fibers[f := Running], started := s.started + [t])
  }

  /** Back in the loop: a fiber that is ready is put into the queue again.  One that ran a callback is not
      pinned any more, because the task has been reset by then. */
  function DoSettle(s: System, w: nat): System
    requires w < |s.workers| && s.workers[w].mode.Left?
  {
    var t, f := s.workers[w].mode.task, s.workers[w].mode.fiber;
    var ready := StateOf(s, f).Ready?;
    var u := if ready then Push(s, FiberTask(f, if t.FiberTask? then t.pin else None)) else s;
    var spare :=
      if t.FiberTask? then s.workers[w].spare
      else if StateOf(s, f).Term? || StateOf(s, f).Except? then Some(f)
      else None;
    u.(workers := u.workers[w := u.workers[w].(mode := Scanning, spare := spare)])
  }

  /** The wait fiber: it ends if the scheduler may stop; otherwise it looks for events, which may submit tasks,
      and comes back.  `quiet` says that no timer and no event is outstanding, which an `IOManager` asks too. */
  function DoWait(s: System, w: nat, quiet: bool): System
    requires w < |s.workers|
  {
    if CanStop(s) && quiet then s.(workers := s.workers[w := s.workers[w].(mode := Scanning, waitDone := true)])
    else SetMode(s, w, Polling)
  }

  function Step(s: System, m: Move): System
    requires Enabled(s, m)
  {
    match m
    case Scan(w) => DoScan(s, w)
    case Enter(w) => SetMode(s, w, Entered(s.workers[w].mode.task)).(active := s.active + 1)
    case Resume(w, spawned) => DoResume(s, w, spawned)
    case Yield(w, to) =>
      SetMode(s, w, Returned(s.workers[w].mode.task, s.workers[w].mode.fiber)).(
        fibers := s.fibers[s.workers[w].mode.fiber := to])
    case Leave(w) =>
      SetMode(s, w, Left(s.workers[w].mode.task, s.workers[w].mode.fiber)).(active := s.active - 1)
    case Settle(w) => DoSettle(s, w)
    case Wait(w, quiet) => DoWait(s, w, quiet)
    case Back(w) => SetMode(s, w, Scanning)
    case Submit(_, t) => Push(s, t)
    case SubmitOutside(t) => Push(s, t)
    case Stop => s.(stopping := true)
  }

  // ---------------------------------------------------------------- the invariant

  predicate Live(s: System, w: nat) { w < |s.workers| && !s.workers[w].mode.Exited? }

  predicate Runs(s: System, w: nat, f: Fiber) {
    w < |s.workers| && s.workers[w].mode.Inside? && s.workers[w].mode.fiber == f
  }

  ghost predicate SomeLive(s: System) { exists w :: Live(s, w) }

  /** A fiber in the running state is being run by a worker, which is therefore live. */
  ghost predicate RunnersKnown(s: System) {
    forall f :: f in s.fibers && s.fibers[f].Running? ==> exists w :: Runs(s, w, f)
  }

  ghost predicate Inv(s: System) {
    && |s.workers| > 0
    && RunnersKnown(s)
    && (forall w :: 0 <= w < |s.workers| && s.workers[w].waitDone ==> s.stopping)
    && (forall w :: 0 <= w < |s.workers| && s.workers[w].mode.Exited? ==> s.workers[w].waitDone)
    && (forall i :: 0 <= i < |s.queue| && s.queue[i].pin.None? ==> SomeLive(s))
  }

  function Start(n: nat): System {
    System(seq(n, _ => FRESH), [], false, 0, map[], [], [])
  }

  lemma StartInv(n: nat)
    requires n > 0
    ensures Inv(Start(n))
  {
  }

  lemma {:induction false} FindIs(s: System, w: nat, i: nat)
    requires i <= |s.queue|
    ensures forall j :: i <= j < Find(s, w, i) ==> !Eligible(s, w, s.queue[j])
    ensures Find(s, w, i) < |s.queue| ==> Eligible(s, w, s.queue[Find(s, w, i)])
    decreases |s.queue| - i
  {
    hide Eligible;
    if i < |s.queue| && !Eligible(s, w, s.queue[i]) {
      FindIs(s, w, i + 1);
    }
  }

  lemma ScanInv(s: System, w: nat)
    requires Inv(s) && Enabled(s, Scan(w))
    ensures Inv(Step(s, Scan(w)))
  {
    var t, k := Step(s, Scan(w)), Find(s, w, 0);
    FindIs(s, w, 0);
    hide Find;
    forall f | f in t.fibers && t.fibers[f].Running? ensures exists v :: Runs(t, v, f) {
      var v :| Runs(s, v, f);
      assert Runs(t, v, f);
    }
    if k < |s.queue| || !s.workers[w].waitDone {
      assert Live(t, w);
    } else {
      forall i | 0 <= i < |t.queue| && t.queue[i].pin.None? ensures SomeLive(t) {
        assert !Eligible(s, w, s.queue[i]);
        var f := s.queue[i].fiber;
        var v :| Runs(s, v, f);
        assert Live(t, v);
      }
    }
  }

  /** The moves of one worker other than scanning: it stays live. */
  lemma OwnInv(s: System, m: Move, w: nat)
    requires Inv(s) && Enabled(s, m)
    requires m == Enter(w) || m == Leave(w) || m == Settle(w) || (m.Wait? && m.w == w) || m == Back(w)
    ensures Inv(Step(s, m))
  {
    var t := Step(s, m);
    forall f | f in t.fibers && t.fibers[f].Running? ensures exists v :: Runs(t, v, f) {
      var v :| Runs(s, v, f);
      assert Runs(t, v, f);
    }
    assert Live(t, w);
  }

  lemma SwitchInv(s: System, m: Move, w: nat)
    requires Inv(s) && Enabled(s, m) && ((m.Resume? && m.w == w) || (m.Yield? && m.w == w))
    ensures Inv(Step(s, m))
  {
    var t := Step(s, m);
    forall f | f in t.fibers && t.fibers[f].Running? ensures exists v :: Runs(t, v, f) {
      if Runs(t, w, f) {
      } else {
        var v :| Runs(s, v, f);
        assert Runs(t, v, f);
      }
    }
    assert Live(t, w);
  }

  lemma SubmitInv(s: System, m: Move)
    requires Inv(s) && Enabled(s, m) && (m.Submit? || m.SubmitOutside? || m.Stop?)
    ensures Inv(Step(s, m))
  {
    var t := Step(s, m);
    forall f | f in t.fibers && t.fibers[f].Running? ensures exists v :: Runs(t, v, f) {
      var v :| Runs(s, v, f);
      assert Runs(t, v, f);
    }
    var w := if m.Submit? then m.w else 0;
    if !m.Stop? {
      assert Live(t, w);
    } else if exists v :: Live(s, v) {
      var v :| Live(s, v);
      assert Live(t, v);
    }
  }

  lemma StepInv(s: System, m: Move)
    requires Inv(s) && Enabled(s, m)
    ensures Inv(Step(s, m))
  {
    hide Inv, Step, Enabled;
    match m {
      case Scan(w) => ScanInv(s, w);
      case Enter(w) => OwnInv(s, m, w);
      case Resume(w, _) => SwitchInv(s, m, w);
      case Yield(w, _) => SwitchInv(s, m, w);
      case Leave(w) => OwnInv(s, m, w);
      case Settle(w) => OwnInv(s, m, w);
      case Wait(w, _) => OwnInv(s, m, w);
      case Back(w) => OwnInv(s, m, w);
      case Submit(_, _) => SubmitInv(s, m);
      case SubmitOutside(_) => SubmitInv(s, m);
      case Stop => SubmitInv(s, m);
    }
  }

  // ---------------------------------------------------------------- counting

  /** Is the worker between the two changes of the active count? */
  predicate Active(m: Mode) { m.Entered? || m.Inside? || m.Returned? }

  /** Does a worker in this mode hold this task, taken but not yet started? */
  predicate Holds(m: Mode, x: Task) { (m.Took? || m.Entered?) && m.task == x }

  function One(b: bool): nat { if b then 1 else 0 }

  function ActiveCount(ws: seq<Worker>): nat
    decreases |ws|
  {
    if ws == [] then 0 else One(Active(ws[0].mode)) + ActiveCount(ws[1..])
  }

  function Held(ws: seq<Worker>, x: Task): nat
    decreases |ws|
  {
    if ws == [] then 0 else One(Holds(ws[0].mode, x)) + Held(ws[1..], x)
  }

  function Times(ts: seq<Task>, x: Task): nat { multiset(ts)[x] }

  /** The active count is right, and each submission of task x is in the queue, in a worker's hands, or
      started. */
  predicate Counted(s: System, x: Task) {
    && s.active == ActiveCount(s.workers)
    && Times(s.submitted, x) == Times(s.queue, x) + Held(s.workers, x) + Times(s.started, x)
  }

  lemma {:induction false} CountsUpdate(ws: seq<Worker>, w: nat, v: Worker, x: Task)
    requires w < |ws|
    ensures ActiveCount(ws[w := v]) == ActiveCount(ws) - One(Active(ws[w].mode)) + One(Active(v.mode))
    ensures Held(ws[w := v], x) == Held(ws, x) - One(Holds(ws[w].mode, x)) + One(Holds(v.mode, x))
    decreases |ws|
  {
    hide Holds, Active;
    if w > 0 {
      assert ws[w := v][1..] == ws[1..][w - 1 := v];
      CountsUpdate(ws[1..], w - 1, v, x);
    } else {
      assert ws[w := v][1..] == ws[1..];
    }
  }

  lemma {:induction false} StartCounted(n: nat, x: Task)
    ensures Counted(Start(n), x)
  {
    if n > 0 {
      assert Start(n).workers[1..] == Start(n - 1).workers;
      StartCounted(n - 1, x);
    }
  }

  /** A move that changes one worker, from one mode to another, and keeps the balance of the records. */
  lemma CountedBy(s: System, t: System, w: nat, v: Worker, x: Task)
    requires Counted(s, x) && w < |s.workers| && t.workers == s.workers[w := v]
    requires t.active == s.active - One(Active(s.workers[w].mode)) + One(Active(v.mode))
    requires Times(t.submitted, x) + Times(s.queue, x) + One(Holds(s.workers[w].mode, x)) + Times(s.started, x)
             == Times(s.submitted, x) + Times(t.queue, x) + One(Holds(v.mode, x)) + Times(t.started, x)
    ensures Counted(t, x)
  {
    CountsUpdate(s.workers, w, v, x);
  }

  lemma TimesOne(ts: seq<Task>, t: Task, x: Task)
    ensures Times(ts + [t], x) == Times(ts, x) + One(t == x)
  {
  }

  lemma Picked(queue: seq<Task>, k: nat, x: Task)
    requires k < |queue|
    ensures Times(queue, x) == Times(queue[..k] + queue[k + 1..], x) + One(queue[k] == x)
  {
    assert queue == queue[..k] + [queue[k]] + queue[k + 1..];
  }

  lemma ScanIs(s: System, w: nat)
    requires Enabled(s, Scan(w))
    ensures var k, t := Find(s, w, 0), Step(s, Scan(w));
            && t.workers == s.workers[w := t.workers[w]] && t.active == s.active
            && t.submitted == s.submitted && t.started == s.started
            && !Active(s.workers[w].mode) && !Active(t.workers[w].mode) && s.workers[w].mode.Scanning?
            && (k < |s.queue| ==>
                  t.queue == s.queue[..k] + s.queue[k + 1..] && t.workers[w].mode == Took(s.queue[k]))
            && (k == |s.queue| ==> t.queue == s.queue && (t.workers[w].mode.Waiting? || t.workers[w].mode.Exited?))
  {
    hide Find;
  }

  lemma ScanCounted(s: System, w: nat, x: Task)
    requires Counted(s, x) && Enabled(s, Scan(w))
    ensures Counted(Step(s, Scan(w)), x)
  {
    ScanIs(s, w);
    hide Find, Step, Times, Counted, Active;
    var t, k := Step(s, Scan(w)), Find(s, w, 0);
    if k < |s.queue| {
      Picked(s.queue, k, x);
    }
    CountedBy(s, t, w, t.workers[w], x);
  }

  lemma ResumeCounted(s: System, w: nat, spawned: Fiber, x: Task)
    requires Counted(s, x) && Enabled(s, Resume(w, spawned))
    ensures Counted(Step(s, Resume(w, spawned)), x)
  {
    var t := Step(s, Resume(w, spawned));
    TimesOne(s.started, s.workers[w].mode.task, x);
    hide FiberFor, StateOf, Times, Counted;
    CountedBy(s, t, w, t.workers[w], x);
  }

  lemma OwnCounted(s: System, m: Move, w: nat, x: Task)
    requires Counted(s, x) && Enabled(s, m)
    requires m == Enter(w) || m == Leave(w) || (m.Wait? && m.w == w) || m == Back(w) || (m.Yield? && m.w == w)
    ensures Counted(Step(s, m), x)
  {
    var t := Step(s, m);
    hide Counted, Times;
    CountedBy(s, t, w, t.workers[w], x);
  }

  lemma PushCounted(s: System, t: Task, x: Task)
    requires Counted(s, x)
    ensures Counted(Push(s, t), x)
  {
    TimesOne(s.queue, t, x);
    TimesOne(s.submitted, t, x);
  }

  lemma SettleCounted(s: System, w: nat, x: Task)
    requires Counted(s, x) && w < |s.workers| && s.workers[w].mode.Left?
    ensures Counted(DoSettle(s, w), x)
  {
    var t, f := s.workers[w].mode.task, s.workers[w].mode.fiber;
    var again := FiberTask(f, if t.FiberTask? then t.pin else None);
    PushCounted(s, again, x);
    var u := if StateOf(s, f).Ready? then Push(s, again) else s;
    hide StateOf, Counted, Times;
    CountedBy(u, DoSettle(s, w), w, DoSettle(s, w).workers[w], x);
  }

  lemma StepCounted(s: System, m: Move, x: Task)
    requires Counted(s, x) && Enabled(s, m)
    ensures Counted(Step(s, m), x)
  {
    match m {
      case Scan(w) => ScanCounted(s, w, x);
      case Resume(w, spawned) => ResumeCounted(s, w, spawned, x);
      case Settle(w) => SettleCounted(s, w, x);
      case Submit(_, task) => PushCounted(s, task, x);
      case SubmitOutside(task) => PushCounted(s, task, x);
      case Stop =>
      case Enter(w) => OwnCounted(s, m, w, x);
      case Yield(w, _) => OwnCounted(s, m, w, x);
      case Leave(w) => OwnCounted(s, m, w, x);
      case Wait(w, _) => OwnCounted(s, m, w, x);
      case Back(w) => OwnCounted(s, m, w, x);
    }
  }

  // ---------------------------------------------------------------- whole runs

  predicate AllEnabled(s: System, moves: seq<Move>)
    decreases |moves|
  {
    moves == [] || (Enabled(s, moves[0]) && AllEnabled(Step(s, moves[0]), moves[1..]))
  }

  function Final(s: System, moves: seq<Move>): System
    requires AllEnabled(s, moves)
    decreases |moves|
  {
    if moves == [] then s else Final(Step(s, moves[0]), moves[1..])
  }

  lemma {:induction false} RunKeeps(s: System, moves: seq<Move>, x: Task)
    requires Inv(s) && Counted(s, x) && AllEnabled(s, moves)
    ensures Inv(Final(s, moves)) && Counted(Final(s, moves), x)
    decreases |moves|
  {
    hide Inv, Counted, Step, Enabled;
    if moves != [] {
      StepInv(s, moves[0]);
      StepCounted(s, moves[0], x);
      RunKeeps(Step(s, moves[0]), moves[1..], x);
    }
  }

  predicate AllExited(s: System) { forall w :: 0 <= w < |s.workers| ==> s.workers[w].mode.Exited? }

  lemma {:induction false} ExitedHoldNothing(ws: seq<Worker>, x: Task)
    requires forall w :: 0 <= w < |ws| ==> ws[w].mode.Exited?
    ensures Held(ws, x) == 0 && ActiveCount(ws) == 0
    decreases |ws|
  {
    if ws != [] {
      ExitedHoldNothing(ws[1..], x);
    }
  }

  /** Shutdown loses no runnable task.  Over every interleaving of any number of workers: when all of them have
      left, what is still in the queue is pinned, and every task without a pin has been started as many times
      as it was submitted. */
  lemma ShutdownLosesNothing(n: nat, moves: seq<Move>, t: Task)
    requires n > 0 && AllEnabled(Start(n), moves) && AllExited(Final(Start(n), moves))
    ensures var s := Final(Start(n), moves);
            && s.stopping && s.active == 0
            && (t in s.queue ==> t.pin.Some?)
            && (t.pin.None? ==> Times(s.started, t) == Times(s.submitted, t))
  {
    hide Final, AllEnabled;
    StartInv(n);
    StartCounted(n, t);
    RunKeeps(Start(n), moves, t);
    var s := Final(Start(n), moves);
    ExitedHoldNothing(s.workers, t);
    assert !SomeLive(s);
    forall i | 0 <= i < |s.queue| ensures s.queue[i].pin.Some? {
    }
    assert t.pin.None? ==> t !in s.queue;
  }

  // ---------------------------------------------------------------- what shutdown does lose

  lemma {:induction false} RunsOn(s: System, a: seq<Move>, b: seq<Move>)
    requires AllEnabled(s, a) && AllEnabled(Final(s, a), b)
    ensures AllEnabled(s, a + b) && Final(s, a + b) == Final(Final(s, a), b)
    decreases |a|
  {
    hide Step, Enabled;
    if a == [] {
      assert a + b == b;
    } else {
      assert (a + b)[0] == a[0] && (a + b)[1..] == a[1..] + b;
      RunsOn(Step(s, a[0]), a[1..], b);
    }
  }

  lemma OneMove(s: System, m: Move)
    requires Enabled(s, m)
    ensures AllEnabled(s, [m]) && Final(s, [m]) == Step(s, m)
  {
    hide Step, Enabled;
    assert [m][1..] == [];
    assert AllEnabled(Step(s, m), []) && Final(Step(s, m), []) == Step(s, m);
  }

  ghost predicate Reaches(s: System, t: System) { exists moves :: AllEnabled(s, moves) && Final(s, moves) == t }

  lemma ReachesSelf(s: System)
    ensures Reaches(s, s)
  {
    assert AllEnabled(s, []) && Final(s, []) == s;
  }

  lemma ReachesNext(s: System, t: System, m: Move)
    requires Reaches(s, t) && Enabled(t, m)
    ensures Reaches(s, Step(t, m))
  {
    hide Step, Enabled, AllEnabled, Final;
    var moves :| AllEnabled(s, moves) && Final(s, moves) == t;
    OneMove(t, m);
    RunsOn(s, moves, [m]);
  }

  lemma ReachesOn(s: System, t: System, u: System)
    requires Reaches(s, t) && Reaches(t, u)
    ensures Reaches(s, u)
  {
    hide AllEnabled, Final;
    var a :| AllEnabled(s, a) && Final(s, a) == t;
    var b :| AllEnabled(t, b) && Final(t, b) == u;
    RunsOn(s, a, b);
  }

  function With(s: System, w: nat, v: Worker): System
    requires w < |s.workers|
  {
    s.(workers := s.workers[w := v])
  }

  lemma WithTwice(s: System, w: nat, u: Worker, v: Worker)
    requires w < |s.workers|
    ensures With(With(s, w, u), w, v) == With(s, w, v)
  {
    assert s.workers[w := u][w := v] == s.workers[w := v];
  }

  /** With nothing to do and nothing outstanding the wait fiber of a worker ends. */
  lemma WaitEnds(s: System, w: nat)
    requires w < |s.workers| && s.workers[w].mode.Scanning? && !s.workers[w].waitDone && CanStop(s)
    ensures Reaches(s, With(s, w, s.workers[w].(waitDone := true)))
  {
    var x := s.workers[w];
    var t := With(s, w, x.(mode := Waiting));
    assert Step(s, Scan(w)) == t;
    WithTwice(s, w, x.(mode := Waiting), x.(waitDone := true));
    assert Step(t, Wait(w, true)) == With(s, w, x.(waitDone := true));
    hide Step, Reaches;
    ReachesSelf(s);
    ReachesNext(s, s, Scan(w));
    ReachesNext(s, t, Wait(w, true));
  }

  /** A worker whose wait fiber has ended leaves when there is nothing for it in the queue. */
  lemma Leaves(s: System, w: nat)
    requires w < |s.workers| && s.workers[w].mode.Scanning? && s.workers[w].waitDone
    requires forall i :: 0 <= i < |s.queue| ==> !Eligible(s, w, s.queue[i])
    ensures Reaches(s, With(s, w, s.workers[w].(mode := Exited)))
  {
    hide Reaches, Eligible;
    FindIs(s, w, 0);
    ReachesSelf(s);
    ReachesNext(s, s, Scan(w));
  }

  lemma WaitsAndLeaves(s: System, w: nat)
    requires w < |s.workers| && s.workers[w].mode.Scanning? && !s.workers[w].waitDone && CanStop(s)
    ensures Reaches(s, With(s, w, s.workers[w].(mode := Exited, waitDone := true)))
  {
    hide Reaches;
    var x := s.workers[w];
    var t := With(s, w, x.(waitDone := true));
    WaitEnds(s, w);
    Leaves(t, w);
    WithTwice(s, w, x.(waitDone := true), x.(mode := Exited, waitDone := true));
    ReachesOn(s, t, With(s, w, x.(mode := Exited, waitDone := true)));
  }

  /** A worker that has taken a callback runs it on a new fiber; the callback submits u and ends. */
  function Ran(s: System, w: nat, t: Task, f: Fiber, u: Task): System
    requires w < |s.workers|
  {
    With(s, w, Worker(Scanning, s.workers[w].waitDone, Some(f))).(
      queue := s.queue + [u], fibers := s.fibers[f := Term], submitted := s.submitted + [u], started := s.started + [t])
  }

  /** Half way: the callback is running. */
  function Halfway(s: System, w: nat, t: Task, f: Fiber): System
    requires w < |s.workers|
  {
    With(s, w, s.workers[w].(mode := Inside(t, f))).(
      active := s.active + 1, fibers := s.fibers[f := Running], started := s.started + [t])
  }

  lemma StartsRunning(s: System, w: nat, t: Task, f: Fiber)
    requires w < |s.workers| && s.workers[w].mode == Took(t) && t.CallTask? && s.workers[w].spare.None?
    requires f !in s.fibers
    ensures Reaches(s, Halfway(s, w, t, f))
  {
    var x := s.workers[w];
    var s1 := With(s, w, x.(mode := Entered(t))).(active := s.active + 1);
    assert Step(s, Enter(w)) == s1;
    WithTwice(s, w, x.(mode := Entered(t)), x.(mode := Inside(t, f)));
    assert Step(s1, Resume(w, f)) == Halfway(s, w, t, f);
    hide Step, Reaches;
    ReachesSelf(s);
    ReachesNext(s, s, Enter(w));
    ReachesNext(s, s1, Resume(w, f));
  }

  lemma StopsRunning(r: System, w: nat, t: Task, f: Fiber, u: Task)
    requires w < |r.workers| && r.workers[w].mode == Inside(t, f) && t.CallTask? && r.active > 0
    ensures Reaches(r, With(r, w, Worker(Scanning, r.workers[w].waitDone, Some(f))).(
                         queue := r.queue + [u], fibers := r.fibers[f := Term], submitted := r.submitted + [u],
                         active := r.active - 1))
  {
    var x := r.workers[w];
    var r1 := Push(r, u);
    var r2 := With(r1, w, x.(mode := Returned(t, f))).(fibers := r.fibers[f := Term]);
    var r3 := With(r1, w, x.(mode := Left(t, f))).(fibers := r.fibers[f := Term], active := r.active - 1);
    var r4 := With(r1, w, Worker(Scanning, x.waitDone, Some(f))).(fibers := r.fibers[f := Term],
          active := r.active - 1);
    assert Step(r, Submit(w, u)) == r1 && Step(r1, Yield(w, Term)) == r2;
    WithTwice(r1, w, x.(mode := Returned(t, f)), x.(mode := Left(t, f)));
    assert Step(r2, Leave(w)) == r3;
    WithTwice(r1, w, x.(mode := Left(t, f)), Worker(Scanning, x.waitDone, Some(f)));
    assert Step(r3, Settle(w)) == r4;
    hide Step, Reaches;
    ReachesSelf(r);
    ReachesNext(r, r, Submit(w, u));
    ReachesNext(r, r1, Yield(w, Term));
    ReachesNext(r, r2, Leave(w));
    ReachesNext(r, r3, Settle(w));
  }

  lemma RunsTask(s: System, w: nat, t: Task, f: Fiber, u: Task)
    requires w < |s.workers| && s.workers[w].mode == Took(t) && t.CallTask? && s.workers[w].spare.None?
    requires f !in s.fibers
    ensures Reaches(s, Ran(s, w, t, f, u))
  {
    var r := Halfway(s, w, t, f);
    StartsRunning(s, w, t, f);
    StopsRunning(r, w, t, f, u);
    WithTwice(s, w, s.workers[w].(mode := Inside(t, f)), Worker(Scanning, s.workers[w].waitDone, Some(f)));
    assert s.fibers[f := Running][f := Term] == s.fibers[f := Term];
    hide Reaches;
    ReachesOn(s, r, Ran(s, w, t, f, u));
  }

  lemma Takes(s: System, w: nat, t: Task)
    requires w < |s.workers| && s.workers[w].mode.Scanning? && s.queue == [t] && t.CallTask? && t.pin.None?
    ensures Reaches(s, With(s, w, s.workers[w].(mode := Took(t))).(queue := []))
  {
    assert Find(s, w, 0) == 0;
    assert s.queue[..0] + s.queue[1..] == [];
    hide Reaches, Find;
    ReachesSelf(s);
    ReachesNext(s, s, Scan(w));
  }

  const FRESH := Worker(Scanning, false, None)

  /** All workers but a and j have left from worker m on; nothing else has changed. */
  predicate OthersLeft(s: System, t: System, a: nat, j: nat, m: nat) {
    && |t.workers| == |s.workers| && t == s.(workers := t.workers)
    && (a < |s.workers| ==> t.workers[a] == s.workers[a]) && (j < |s.workers| ==> t.workers[j] == s.workers[j])
    && forall i :: 0 <= i < |s.workers| && i != a && i != j ==>
         if i < m then t.workers[i].mode.Exited? else t.workers[i] == s.workers[i]
  }

  lemma {:induction false} OthersLeave(s: System, a: nat, j: nat, m: nat) returns (t: System)
    requires CanStop(s) && m <= |s.workers|
    requires forall i :: 0 <= i < |s.workers| && i != a && i != j ==> s.workers[i] == FRESH
    ensures Reaches(s, t) && OthersLeft(s, t, a, j, m)
    decreases m
  {
    hide Reaches;
    if m == 0 {
      ReachesSelf(s);
      return s;
    }
    var u := OthersLeave(s, a, j, m - 1);
    if m - 1 == a || m - 1 == j {
      return u;
    }
    WaitsAndLeaves(u, m - 1);
    t := With(u, m - 1, FRESH.(mode := Exited, waitDone := true));
    ReachesOn(s, u, t);
  }

  const FIRST := CallTask(0, None)
  const SECOND := CallTask(1, None)

  /** Worker a holds the first task; the others but j have left, and j is about to. */
  lemma AlmostAllLeave(n: nat, a: nat, j: nat) returns (t: System)
    requires a != j && a < n && j < n
    ensures Reaches(Start(n), t) && |t.workers| == n && t.stopping && t.active == 0 && t.queue == []
            && t.fibers == map[]
    ensures t.workers[a] == Worker(Took(FIRST), false, None) && t.workers[j] == Worker(Scanning, true, None)
    ensures forall i :: 0 <= i < n && i != a && i != j ==> t.workers[i].mode.Exited?
  {
    var s := Start(n);
    var s1 := Push(s, FIRST);
    var s2 := With(s1, a, FRESH.(mode := Took(FIRST))).(queue := []);
    var s3 := s2.(stopping := true);
    assert Step(s, SubmitOutside(FIRST)) == s1 && Step(s2, Stop) == s3;
    hide Reaches, Step;
    ReachesSelf(s);
    ReachesNext(s, s, SubmitOutside(FIRST));
    Takes(s1, a, FIRST);
    ReachesOn(s, s1, s2);
    ReachesNext(s, s2, Stop);
    var s4 := OthersLeave(s3, a, j, n);
    ReachesOn(s, s3, s4);
    WaitEnds(s4, j);
    t := With(s4, j, FRESH.(waitDone := true));
    ReachesOn(s, s4, t);
  }

  /** Worker a has left too, and j holds the second task. */
  lemma OneIsLeft(n: nat, a: nat, j: nat) returns (t: System)
    requires a != j && a < n && j < n
    ensures Reaches(Start(n), t) && |t.workers| == n && t.queue == [] && 1 !in t.fibers
    ensures t.workers[j] == Worker(Took(SECOND), true, None)
    ensures forall i :: 0 <= i < n && i != j ==> t.workers[i].mode.Exited?
  {
    hide Reaches;
    var s := Start(n);
    var t0 := AlmostAllLeave(n, a, j);
    RunsTask(t0, a, FIRST, 0, SECOND);
    var t1 := Ran(t0, a, FIRST, 0, SECOND);
    ReachesOn(s, t0, t1);
    Takes(t1, j, SECOND);
    var t2 := With(t1, j, Worker(Took(SECOND), true, None)).(queue := []);
    ReachesOn(s, t1, t2);
    WaitsAndLeaves(t2, a);
    t := With(t2, a, Worker(Exited, true, Some(0)));
    ReachesOn(s, t2, t);
  }

  lemma AllLeave(n: nat, x: Task) returns (t: System)
    requires n >= 2 && x.pin.Some?
    ensures Reaches(Start(n), t) && AllExited(t) && t.queue == [x]
  {
    hide Reaches, Start, Find, Step, Enabled;
    var j := if x.pin.value == 1 then 0 else 1;
    var s := Start(n);
    var t0 := OneIsLeft(n, 1 - j, j);
    var t1 := Ran(t0, j, SECOND, 1, x);
    assert t1.queue == [x] && !Eligible(t1, j, x);
    RunsTask(t0, j, SECOND, 1, x);
    ReachesOn(s, t0, t1);
    Leaves(t1, j);
    t := With(t1, j, Worker(Exited, true, Some(1)));
    ReachesOn(s, t1, t);
  }

  /** Pinned tasks can be lost, whatever they are and wherever they are pinned, as soon as there are two workers:
      all leave while the task is in the queue. */
  lemma PinnedCanBeLost(n: nat, x: Task)
    requires n >= 2 && x.pin.Some?
    ensures exists moves :: AllEnabled(Start(n), moves) && AllExited(Final(Start(n), moves))
                            && Final(Start(n), moves).queue == [x]
  {
    var t := AllLeave(n, x);
    hide AllEnabled, Final, AllExited, Start;
    var moves :| AllEnabled(Start(n), moves) && Final(Start(n), moves) == t;
  }

  /** A single worker that may leave has nothing in its queue. */
  predicate Alone(s: System) {
    && |s.workers| == 1
    && (s.workers[0].mode.Exited? ==> s.workers[0].waitDone)
    && (s.workers[0].waitDone ==>
         s.stopping && s.queue == [] && (s.workers[0].mode.Scanning? || s.workers[0].mode.Exited?))
  }

  lemma {:induction false} StaysAlone(s: System, moves: seq<Move>)
    requires Alone(s) && AllEnabled(s, moves)
    ensures Alone(Final(s, moves))
    decreases |moves|
  {
    if moves != [] {
      AloneStep(s, moves[0]);
      hide Alone, Step, Enabled;
      StaysAlone(Step(s, moves[0]), moves[1..]);
    }
  }

  lemma AloneStep(s: System, m: Move)
    requires Alone(s) && Enabled(s, m)
    ensures Alone(Step(s, m))
  {
  }

  ghost predicate CanBeLost(n: nat, x: Task) {
    exists moves :: AllEnabled(Start(n), moves) && AllExited(Final(Start(n), moves))
        && x in Final(Start(n), moves).queue
  }

  /** Exactly which tasks shutdown can lose: those that are pinned, when there are at least two workers. */
  lemma LostExactly(n: nat, x: Task)
    requires n > 0
    ensures CanBeLost(n, x) <==> x.pin.Some? && n >= 2
  {
    hide AllEnabled, Final, AllExited;
    if n >= 2 && x.pin.Some? {
      PinnedCanBeLost(n, x);
    }
    if CanBeLost(n, x) {
      var moves :|
        AllEnabled(Start(n), moves) && AllExited(Final(Start(n), moves)) && x in Final(Start(n), moves).queue;
      ShutdownLosesNothing(n, moves, x);
      if n == 1 {
        AloneEmpty(moves);
      }
    }
  }

  lemma AloneEmpty(moves: seq<Move>)
    requires AllEnabled(Start(1), moves) && AllExited(Final(Start(1), moves))
    ensures Final(Start(1), moves).queue == []
  {
    hide AllEnabled, Final;
    StaysAlone(Start(1), moves);
  }

  // ---------------------------------------------------------------- submitting a batch

  /** The tasks of a batch that are tasks: an empty one is not put into the queue. */
  function Real(batch: seq<Option<Task>>): seq<Task>
    decreases |batch|
  {
    if batch == [] then [] else (if batch[0].Some? then [batch[0].value] else []) + Real(batch[1..])
  }

  /** What submitting a batch does to the queue.  Once something is to be notified of, the rest of the batch is
      passed over without being submitted. */
  function Batch(queue: seq<Task>, batch: seq<Option<Task>>, need: bool): seq<Task>
    decreases |batch|
  {
    if batch == [] then queue
    else if need then Batch(queue, batch[1..], need)
    else Batch(queue + Real([batch[0]]), batch[1..], queue == [])
  }

  lemma RealOne(t: Option<Task>)
    ensures Real([t]) == if t.Some? then [t.value] else []
  {
    assert [t][1..] == [] && Real([t][1..]) == [];
  }

  lemma {:induction false} BatchNone(queue: seq<Task>, batch: seq<Option<Task>>)
    ensures Batch(queue, batch, true) == queue
    decreases |batch|
  {
    if batch != [] {
      BatchNone(queue, batch[1..]);
    }
  }

  lemma {:induction false} BatchAll(queue: seq<Task>, batch: seq<Option<Task>>)
    requires queue != []
    ensures Batch(queue, batch, false) == queue + Real(batch)
    decreases |batch|
  {
    if batch != [] {
      RealOne(batch[0]);
      BatchAll(queue + Real([batch[0]]), batch[1..]);
      assert queue + Real([batch[0]]) + Real(batch[1..]) == queue + Real(batch);
    }
  }

  /** The whole batch is submitted if and only if the queue was not empty or nothing comes after its first task;
      otherwise only the first is, or nothing at all if that is empty. */
  lemma BatchExactly(queue: seq<Task>, batch: seq<Option<Task>>)
    ensures Batch(queue, batch, false) == queue + Real(batch) <==> queue != [] || batch == [] || Real(batch[1..]) == []
    ensures queue == [] && batch != [] ==> Batch(queue, batch, false) == Real([batch[0]])
  {
    if queue != [] {
      BatchAll(queue, batch);
    } else if batch != [] {
      RealOne(batch[0]);
      assert queue + Real([batch[0]]) == Real([batch[0]]);
      BatchNone(Real([batch[0]]), batch[1..]);
      assert Real(batch) == Real([batch[0]]) + Real(batch[1..]);
      assert queue + Real(batch) == Real(batch);
    }
  }

  // ---------------------------------------------------------------- the loop of a worker

  /** One turn of the loop of `run`, when no other worker comes between. */
  function TurnMoves(s: System, w: nat, spawned: Fiber, to: FiberState, quiet: bool): seq<Move>
    requires w < |s.workers|
  {
    if Find(s, w, 0) < |s.queue| then [Scan(w), Enter(w), Resume(w, spawned), Yield(w, to), Leave(w), Settle(w)]
    else if s.workers[w].waitDone then [Scan(w)]
    else if CanStop(s) && quiet then [Scan(w), Wait(w, quiet)]
    else [Scan(w), Wait(w, quiet), Back(w)]
  }

  /** A turn can be made: the fiber that will be switched to is not running, and comes back as something. */
  predicate CanTurn(s: System, w: nat, spawned: Fiber, to: FiberState) {
    && w < |s.workers| && s.workers[w].mode.Scanning?
    && spawned !in s.fibers && !to.Running? && !to.Init?
    && (s.workers[w].spare.Some? ==> !StateOf(s, s.workers[w].spare.value).Running?)
  }

  /** What a turn that finds a task comes to. */
  function Served(s: System, w: nat, k: nat, spawned: Fiber, to: FiberState): System
    requires w < |s.workers| && k < |s.queue|
  {
    var t := s.queue[k];
    var f := FiberFor(s, w, t, spawned);
    var rest := s.queue[..k] + s.queue[k + 1..];
    var again := if to.Ready? then [FiberTask(f, if t.FiberTask? then t.pin else None)] else [];
    var spare := if t.FiberTask? then s.workers[w].spare else if to.Term? || to.Except? then Some(f) else None;
    s.(workers := s.workers[w := Worker(Scanning, s.workers[w].waitDone, spare)], queue := rest + again,
       fibers := s.fibers[f := to], submitted := s.submitted + again, started := s.started + [t])
  }

  lemma ModeTwice(s: System, w: nat, a: Mode, b: Mode)
    requires w < |s.workers|
    ensures SetMode(SetMode(s, w, a), w, b) == SetMode(s, w, b)
  {
    assert s.workers[w := s.workers[w].(mode := a)][w := s.workers[w].(mode := b)]
        == s.workers[w := s.workers[w].(mode := b)];
  }

  lemma MoreMoves(s: System, m: Move, rest: seq<Move>)
    requires Enabled(s, m) && AllEnabled(Step(s, m), rest)
    ensures AllEnabled(s, [m] + rest) && Final(s, [m] + rest) == Final(Step(s, m), rest)
  {
    assert ([m] + rest)[1..] == rest;
  }

  /** Up to the switch, and the switch. */
  lemma TurnTakes(s: System, w: nat, spawned: Fiber, to: FiberState) returns (u: System)
    requires CanTurn(s, w, spawned, to) && Find(s, w, 0) < |s.queue|
    ensures var k := Find(s, w, 0);
            var t := s.queue[k];
            var f := FiberFor(s, w, t, spawned);
            && u == SetMode(s, w, Inside(t, f)).(queue := s.queue[..k] + s.queue[k + 1..], active := s.active + 1,
                                                 fibers := s.fibers[f := Running], started := s.started + [t])
            && Enabled(s, Scan(w)) && Enabled(Step(s, Scan(w)), Enter(w))
            && Enabled(Step(Step(s, Scan(w)), Enter(w)), Resume(w, spawned))
            && Step(Step(Step(s, Scan(w)), Enter(w)), Resume(w, spawned)) == u
  {
    hide Find;
    FindIs(s, w, 0);
    var k := Find(s, w, 0);
    var t := s.queue[k];
    var f := FiberFor(s, w, t, spawned);
    var s1 := Step(s, Scan(w));
    var s2 := Step(s1, Enter(w));
    ModeTwice(s, w, Took(t), Entered(t));
    ModeTwice(s, w, Entered(t), Inside(t, f));
    assert s2 == SetMode(s, w, Entered(t)).(queue := s.queue[..k] + s.queue[k + 1..], active := s.active + 1);
    u := Step(s2, Resume(w, spawned));
  }

  lemma TurnGives(u: System, w: nat, t: Task, f: Fiber, to: FiberState)
    requires w < |u.workers| && u.workers[w].mode == Inside(t, f) && u.active > 0 && !to.Running? && !to.Init?
    ensures var again := if to.Ready? then [FiberTask(f, if t.FiberTask? then t.pin else None)] else [];
            var spare := if t.FiberTask? then u.workers[w].spare else if to.Term? || to.Except? then Some(f) else None;
            && AllEnabled(u, [Yield(w, to), Leave(w), Settle(w)])
            && Final(u, [Yield(w, to), Leave(w), Settle(w)])
            == u.(workers := u.workers[w := Worker(Scanning, u.workers[w].waitDone, spare)], queue := u.queue + again,
                  fibers := u.fibers[f := to], submitted := u.submitted + again, active := u.active - 1)
  {
    var u1 := Step(u, Yield(w, to));
    var u2 := Step(u1, Leave(w));
    var u3 := Step(u2, Settle(w));
    ModeTwice(u, w, Returned(t, f), Left(t, f));
    assert u2 == SetMode(u, w, Left(t, f)).(fibers := u.fibers[f := to], active := u.active - 1);
    assert u2.queue + [] == u2.queue && u2.submitted + [] == u2.submitted;
    assert u3.workers == u.workers[w := u3.workers[w]];
    MoreMoves(u2, Settle(w), []);
    MoreMoves(u1, Leave(w), [Settle(w)]);
    MoreMoves(u, Yield(w, to), [Leave(w), Settle(w)]);
    assert [Settle(w)] + [] == [Settle(w)];
    assert [Leave(w)] + [Settle(w)] == [Leave(w), Settle(w)];
    assert [Yield(w, to)] + [Leave(w), Settle(w)] == [Yield(w, to), Leave(w), Settle(w)];
  }

  /** A whole turn that finds a task. */
  lemma TurnServes(s: System, w: nat, spawned: Fiber, to: FiberState, quiet: bool)
    requires CanTurn(s, w, spawned, to) && Find(s, w, 0) < |s.queue|
    ensures AllEnabled(s, TurnMoves(s, w, spawned, to, quiet))
    ensures Final(s, TurnMoves(s, w, spawned, to, quiet)) == Served(s, w, Find(s, w, 0), spawned, to)
  {
    hide Step, Enabled, AllEnabled, Final, Find;
    var k := Find(s, w, 0);
    var t := s.queue[k];
    var f := FiberFor(s, w, t, spawned);
    var u := TurnTakes(s, w, spawned, to);
    TurnGives(u, w, t, f, to);
    var tail := [Yield(w, to), Leave(w), Settle(w)];
    var s1 := Step(s, Scan(w));
    var s2 := Step(s1, Enter(w));
    MoreMoves(s2, Resume(w, spawned), tail);
    MoreMoves(s1, Enter(w), [Resume(w, spawned)] + tail);
    MoreMoves(s, Scan(w), [Enter(w)] + ([Resume(w, spawned)] + tail));
    assert TurnMoves(s, w, spawned, to, quiet) == [Scan(w)] + ([Enter(w)] + ([Resume(w, spawned)] + tail));
    assert s.fibers[f := Running][f := to] == s.fibers[f := to];
    assert Final(u, tail).workers == Served(s, w, k, spawned, to).workers;
  }

  lemma TurnIdles(s: System, w: nat, spawned: Fiber, to: FiberState, quiet: bool)
    requires CanTurn(s, w, spawned, to) && Find(s, w, 0) == |s.queue|
    ensures AllEnabled(s, TurnMoves(s, w, spawned, to, quiet))
    ensures Final(s, TurnMoves(s, w, spawned, to, quiet)) ==
            if s.workers[w].waitDone then SetMode(s, w, Exited)
            else s.(workers := s.workers[w := s.workers[w].(waitDone := CanStop(s) && quiet)])
  {
    hide Find;
    var x := s.workers[w];
    var s1 := Step(s, Scan(w));
    if x.waitDone {
      OneMove(s, Scan(w));
    } else {
      var s2 := Step(s1, Wait(w, quiet));
      assert [Scan(w)] + [Wait(w, quiet)] == [Scan(w), Wait(w, quiet)];
      if CanStop(s) && quiet {
        assert s2.workers == s.workers[w := x.(waitDone := true)];
        OneMove(s1, Wait(w, quiet));
        MoreMoves(s, Scan(w), [Wait(w, quiet)]);
      } else {
        assert s2.workers == s.workers[w := x.(mode := Polling)];
        assert Step(s2, Back(w)).workers == s.workers;
        OneMove(s2, Back(w));
        MoreMoves(s1, Wait(w, quiet), [Back(w)]);
        MoreMoves(s, Scan(w), [Wait(w, quiet)] + [Back(w)]);
        assert [Scan(w)] + ([Wait(w, quiet)] + [Back(w)]) == [Scan(w), Wait(w, quiet), Back(w)];
        assert s.workers[w := x.(waitDone := false)] == s.workers;
      }
    }
  }

  /** The scheduler; what `run` keeps in locals is kept with its worker. */
  class Scheduler {
    var workers: seq<Worker>
    var tasks: seq<Task>
    var stopping: bool
    var active: nat
    var fibers: map<Fiber, FiberState>
    ghost var submitted: seq<Task>
    ghost var started: seq<Task>

    constructor (n: nat)
      ensures View() == Start(n)
    {
      workers := seq(n, _ => FRESH);
      tasks, stopping, active, fibers, submitted, started := [], false, 0, map[], [], [];
    }

    ghost function View(): System
      reads this
    {
      System(workers, tasks, stopping, active, fibers, submitted, started)
    }

    /** An empty task is not put into the queue, but the answer does not depend on that. */
    method SubmitNoLock(t: Option<Task>) returns (needNotify: bool)
      modifies this`tasks, this`submitted
      ensures View() == if t.Some? then Push(old(View()), t.value) else old(View())
      ensures needNotify == (old(tasks) == [])
    {
      needNotify := tasks == [];
      if t.Some? {
        tasks, submitted := tasks + [t.value], submitted + [t.value];
      }
    }

    /** `submit` of a range; the result tells whether to notify. */
    method SubmitRange(batch: seq<Option<Task>>) returns (needNotify: bool)
      modifies this`tasks, this`submitted
      ensures tasks == Batch(old(tasks), batch, false)
      ensures needNotify <==> old(tasks) == [] && batch != []
    {
      needNotify := false;
      var i := 0;
      while i < |batch|
        invariant i <= |batch| && Batch(tasks, batch[i..], needNotify) == Batch(old(tasks), batch, false)
        invariant needNotify <==> old(tasks) == [] && i > 0
        invariant !needNotify && i > 0 ==> tasks != []
        invariant i == 0 ==> tasks == old(tasks)
      {
        assert batch[i..][0] == batch[i] && batch[i..][1..] == batch[i + 1..];
        RealOne(batch[i]);
        ghost var was := tasks;
        if !needNotify {
          needNotify := SubmitNoLock(batch[i]);
        }
        assert was + [] == was;
        i := i + 1;
      }
    }

    /** The scan under the lock: the first task that this worker may take goes out of the queue.  Others are
        notified exactly when something stays in it. */
    method Take(w: nat) returns (task: Option<Task>, notify: bool)
      requires w < |workers|
      modifies this`tasks
      ensures var k := Find(old(View()), w, 0);
              if k < |old(tasks)| then task == Some(old(tasks)[k]) && tasks == old(tasks)[..k] + old(tasks)[k + 1..]
              else task == None && tasks == old(tasks)
      ensures notify <==> tasks != []
    {
      ghost var s := View();
      task, notify := None, false;
      var i := 0;
      while i < |tasks|
        invariant i <= |tasks| && View() == s && task == None
        invariant Find(s, w, 0) == Find(s, w, i) && (notify <==> i > 0)
      {
        var t := tasks[i];
        if t.pin.Some? && t.pin != Some(w) {
          i, notify := i + 1, true;
        } else if t.FiberTask? && t.fiber in fibers && fibers[t.fiber].Running? {
          i, notify := i + 1, true;
        } else {
          task, tasks := Some(t), tasks[..i] + tasks[i + 1..];
          break;
        }
      }
      if tasks != [] {
        notify := true;
      }
    }

    /** The fiber `f` of the task t is switched to and comes back. */
    method SwitchTo(t: Task, f: Fiber, to: FiberState)
      modifies this`started, this`active, this`fibers
      ensures View() == old(View()).(started := old(started) + [t], fibers := old(fibers)[f := to])
    {
      started, active := started + [t], active + 1;
      fibers := fibers[f := Running];
      fibers := fibers[f := to];
      active := active - 1;
    }

    /** What follows when the scan has found the task at place k. */
    method Serve(w: nat, t: Task, spawned: Fiber, to: FiberState, ghost s: System, ghost k: nat)
      requires CanTurn(s, w, spawned, to) && k < |s.queue| && t == s.queue[k]
      requires View() == s.(queue := s.queue[..k] + s.queue[k + 1..])
      modifies this
      ensures View() == Served(s, w, k, spawned, to)
    {
      var f := if t.FiberTask? then t.fiber else if workers[w].spare.Some? then workers[w].spare.value else spawned;
      SwitchTo(t, f, to);
      ghost var again := [];
      ghost var spare := workers[w].spare;
      if to.Ready? {
        var need := SubmitNoLock(Some(FiberTask(f, if t.FiberTask? then t.pin else None)));
        again := [FiberTask(f, if t.FiberTask? then t.pin else None)];
      }
      if t.CallTask? {
        workers := workers[w := workers[w].(spare := if to.Term? || to.Except? then Some(f) else None)];
      } else {
        assert s.workers[w := Worker(Scanning, s.workers[w].waitDone, s.workers[w].spare)] == s.workers;
      }
      assert s.submitted + again == submitted && s.queue[..k] + s.queue[k + 1..] + again == tasks;
    }

    /** A turn of `run`.  `spawned` is the fiber that is made if one is needed, and `to` is the state in which
        the fiber that is switched to comes back; `quiet` is as for the wait fiber.  False when the worker leaves. */
    method RunTurn(w: nat, spawned: Fiber, to: FiberState, quiet: bool) returns (goOn: bool)
      requires CanTurn(View(), w, spawned, to)
      modifies this
      ensures AllEnabled(old(View()), TurnMoves(old(View()), w, spawned, to, quiet))
      ensures View() == Final(old(View()), TurnMoves(old(View()), w, spawned, to, quiet))
      ensures !goOn <==> Find(old(View()), w, 0) == |old(tasks)| && old(workers)[w].waitDone
    {
      hide Find, AllEnabled, Final, TurnMoves, Served;
      ghost var s := View();
      var task, notify := Take(w);
      if task.Some? {
        TurnServes(s, w, spawned, to, quiet);
        Serve(w, task.value, spawned, to, s, Find(s, w, 0));
        return true;
      }
      TurnIdles(s, w, spawned, to, quiet);
      if workers[w].waitDone {
        workers := workers[w := workers[w].(mode := Exited)];
        return false;
      }
      workers := workers[w := workers[w].(waitDone := stopping && active == 0 && tasks == [] && quiet)];
      goOn := true;
    }
  }
}
