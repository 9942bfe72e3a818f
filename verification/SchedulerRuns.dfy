/** Runs of the scheduler: when a worker's wait fiber may end, and what becomes of a fiber that yields. */
module SchedulerRuns {
  import opened Options
  import opened Schedulers

  // ---------------------------------------------------------------- the end of waiting

  /** A worker that waits, or looks for events, still has its wait fiber. */
  predicate WaitersWait(s: System) {
    forall w :: 0 <= w < |s.workers| && (s.workers[w].mode.Waiting? || s.workers[w].mode.Polling?) ==>
                  !s.workers[w].waitDone
  }

  lemma StepWaiters(s: System, m: Move)
    requires WaitersWait(s) && Enabled(s, m)
    ensures WaitersWait(Step(s, m))
  {
    hide Find, Eligible, StateOf;
  }

  lemma {:induction false} RunWaiters(s: System, moves: seq<Move>)
    requires WaitersWait(s) && AllEnabled(s, moves)
    ensures WaitersWait(Final(s, moves))
    decreases |moves|
  {
    hide WaitersWait, Step, Enabled;
    if moves != [] {
      StepWaiters(s, moves[0]);
      RunWaiters(Step(s, moves[0]), moves[1..]);
    }
  }

  /** Some worker is between the two changes of the active count: a task is being run. */
  predicate Busy(s: System) { exists v :: 0 <= v < |s.workers| && Active(s.workers[v].mode) }

  lemma {:induction false} CountIsBusy(ws: seq<Worker>)
    ensures ActiveCount(ws) == 0 <==> forall v :: 0 <= v < |ws| ==> !Active(ws[v].mode)
    decreases |ws|
  {
    hide Active;
    if ws != [] {
      CountIsBusy(ws[1..]);
      assert forall v :: 0 < v < |ws| ==> ws[v] == ws[1..][v - 1];
    }
  }

  /** The active count of every reachable state is nought exactly when no worker is running a task. */
  lemma ActiveIsBusy(n: nat, moves: seq<Move>)
    requires n > 0 && AllEnabled(Start(n), moves)
    ensures Final(Start(n), moves).active == 0 <==> !Busy(Final(Start(n), moves))
  {
    hide Final, AllEnabled, Inv, Active, Start;
    var x := CallTask(0, None);
    StartInv(n);
    StartCounted(n, x);
    RunKeeps(Start(n), moves, x);
    CountIsBusy(Final(Start(n), moves).workers);
  }

  /** Over every run: a wait fiber ends if and only if the scheduler has been stopped, nothing is queued, nothing is
      outstanding, and no worker is running a task; otherwise the worker comes back from waiting. */
  lemma WaitEndsExactly(n: nat, moves: seq<Move>, w: nat, quiet: bool)
    requires n > 0 && AllEnabled(Start(n), moves) && Enabled(Final(Start(n), moves), Wait(w, quiet))
    ensures var s := Final(Start(n), moves);
            var t := Step(s, Wait(w, quiet));
            && !s.workers[w].waitDone
            && (t.workers[w].waitDone <==> s.stopping && s.queue == [] && quiet && !Busy(s))
            && (!t.workers[w].waitDone ==> t == SetMode(s, w, Polling))
  {
    hide Final, AllEnabled, Active, Busy;
    ActiveIsBusy(n, moves);
    assert WaitersWait(Start(n));
    RunWaiters(Start(n), moves);
  }

  /** While a task is being run no worker's wait ends. */
  lemma BusyKeepsWaiting(n: nat, moves: seq<Move>, m: Move, w: nat)
    requires n > 0 && AllEnabled(Start(n), moves) && Enabled(Final(Start(n), moves), m)
    requires Busy(Final(Start(n), moves)) && w < |Final(Start(n), moves).workers|
    ensures var s := Final(Start(n), moves);
            |Step(s, m).workers| == |s.workers| && Step(s, m).workers[w].waitDone == s.workers[w].waitDone
  {
    hide Final, AllEnabled, Active, Busy, Find, Eligible, StateOf;
    ActiveIsBusy(n, moves);
  }

  // ---------------------------------------------------------------- fibers that yield

  /** Worker v has the fiber: it has taken its task, or has just come back from it. */
  predicate Has(s: System, v: nat, f: Fiber) {
    && v < |s.workers|
    && match s.workers[v].mode
       case Took(t) => t.FiberTask? && t.fiber == f
       case Entered(t) => t.FiberTask? && t.fiber == f
       case Returned(_, g) => g == f
       case Left(_, g) => g == f
       case _ => false
  }

  predicate Queued(s: System, i: nat, f: Fiber) { i < |s.queue| && s.queue[i].FiberTask? && s.queue[i].fiber == f }

  ghost predicate Somewhere(s: System, f: Fiber) {
    (exists i: nat :: Queued(s, i, f)) || (exists v: nat :: Has(s, v, f))
  }

  /** No fiber that is ready to go on has been forgotten. */
  ghost predicate NoneForgotten(s: System) {
    forall f :: f in s.fibers && s.fibers[f].Ready? ==> Somewhere(s, f)
  }

  lemma ScanForgets(s: System, w: nat, f: Fiber)
    requires Enabled(s, Scan(w)) && Somewhere(s, f)
    ensures Somewhere(Step(s, Scan(w)), f)
  {
    var t, k := Step(s, Scan(w)), Find(s, w, 0);
    hide Find;
    if i: nat :| Queued(s, i, f) {
      if k == |s.queue| || i < k {
        assert Queued(t, i, f);
      } else if i == k {
        assert Has(t, w, f);
      } else {
        assert t.queue[i - 1] == s.queue[i];
        assert Queued(t, i - 1, f);
      }
    } else {
      var v: nat :| Has(s, v, f);
      assert Has(t, v, f);
    }
  }

  lemma PushForgets(s: System, x: Task, f: Fiber)
    requires Somewhere(s, f)
    ensures Somewhere(Push(s, x), f)
  {
    if i: nat :| Queued(s, i, f) {
      assert Queued(Push(s, x), i, f);
    } else {
      var v: nat :| Has(s, v, f);
      assert Has(Push(s, x), v, f);
    }
  }

  lemma SettleForgets(s: System, w: nat, f: Fiber)
    requires Enabled(s, Settle(w)) && Somewhere(s, f) && f in s.fibers && s.fibers[f].Ready?
    ensures Somewhere(Step(s, Settle(w)), f)
  {
    var t := Step(s, Settle(w));
    if i: nat :| Queued(s, i, f) {
      assert Queued(t, i, f);
    } else {
      var v: nat :| Has(s, v, f);
      if v == w {
        assert Queued(t, |s.queue|, f);
      } else {
        assert Has(t, v, f);
      }
    }
  }

  lemma OwnForgets(s: System, m: Move, w: nat, f: Fiber)
    requires Enabled(s, m) && f in Step(s, m).fibers && Step(s, m).fibers[f].Ready?
    requires f in s.fibers && s.fibers[f].Ready? ==> Somewhere(s, f)
    requires m == Enter(w) || m == Leave(w) || m == Back(w) || (m.Wait? && m.w == w) || (m.Resume? && m.w == w)
             || (m.Yield? && m.w == w)
    ensures Somewhere(Step(s, m), f)
  {
    var t := Step(s, m);
    if m.Yield? && s.workers[w].mode.fiber == f {
      assert Has(t, w, f);
    } else if i: nat :| Queued(s, i, f) {
      assert Queued(t, i, f);
    } else {
      var v: nat :| Has(s, v, f);
      assert Has(t, v, f);
    }
  }

  lemma StepForgets(s: System, m: Move)
    requires NoneForgotten(s) && Enabled(s, m)
    ensures NoneForgotten(Step(s, m))
  {
    var t := Step(s, m);
    forall f | f in t.fibers && t.fibers[f].Ready? ensures Somewhere(t, f) {
      hide Somewhere;
      match m {
        case Scan(w) => ScanForgets(s, w, f);
        case Settle(w) => SettleForgets(s, w, f);
        case Submit(_, x) => PushForgets(s, x, f);
        case SubmitOutside(x) => PushForgets(s, x, f);
        case Stop => StopForgets(s, f);
        case Enter(w) => OwnForgets(s, m, w, f);
        case Resume(w, _) => OwnForgets(s, m, w, f);
        case Yield(w, _) => OwnForgets(s, m, w, f);
        case Leave(w) => OwnForgets(s, m, w, f);
        case Wait(w, _) => OwnForgets(s, m, w, f);
        case Back(w) => OwnForgets(s, m, w, f);
      }
    }
  }

  lemma StopForgets(s: System, f: Fiber)
    requires Somewhere(s, f)
    ensures Somewhere(s.(stopping := true), f)
  {
    if i: nat :| Queued(s, i, f) {
      assert Queued(s.(stopping := true), i, f);
    } else {
      var v: nat :| Has(s, v, f);
      assert Has(s.(stopping := true), v, f);
    }
  }

  lemma {:induction false} RunForgets(s: System, moves: seq<Move>)
    requires NoneForgotten(s) && AllEnabled(s, moves)
    ensures NoneForgotten(Final(s, moves))
    decreases |moves|
  {
    hide NoneForgotten, Step, Enabled;
    if moves != [] {
      StepForgets(s, moves[0]);
      RunForgets(Step(s, moves[0]), moves[1..]);
    }
  }

  /** Over every run: a fiber that is ready to go on is in the queue or in the hands of a worker; and when all have
      left it is in the queue, pinned. */
  lemma ReadyIsKept(n: nat, moves: seq<Move>, f: Fiber)
    requires n > 0 && AllEnabled(Start(n), moves)
    requires var s := Final(Start(n), moves); f in s.fibers && s.fibers[f].Ready?
    ensures var s := Final(Start(n), moves);
            && Somewhere(s, f)
            && (AllExited(s) ==> exists i: nat :: Queued(s, i, f) && s.queue[i].pin.Some?)
  {
    hide Final, AllEnabled, AllExited, Start;
    assert NoneForgotten(Start(n)) by { NoneAtStart(n); }
    RunForgets(Start(n), moves);
    var s := Final(Start(n), moves);
    if AllExited(s) {
      AllExitedHave(s, f);
      var i: nat :| Queued(s, i, f);
      ShutdownLosesNothing(n, moves, s.queue[i]);
    }
  }

  lemma NoneAtStart(n: nat)
    ensures NoneForgotten(Start(n))
  {
  }

  lemma AllExitedHave(s: System, f: Fiber)
    requires AllExited(s)
    ensures forall v: nat :: !Has(s, v, f)
  {
  }

  // ---------------------------------------------------------------- tasks for one worker

  /** A worker has none but its own tasks in its hands, and runs a fiber's task in that fiber. */
  predicate Rightful(m: Mode, w: nat) {
    match m
    case Took(t) => t.pin == None || t.pin == Some(w)
    case Entered(t) => t.pin == None || t.pin == Some(w)
    case Inside(t, f) => (t.pin == None || t.pin == Some(w)) && (t.FiberTask? ==> f == t.fiber)
    case Returned(t, f) => (t.pin == None || t.pin == Some(w)) && (t.FiberTask? ==> f == t.fiber)
    case Left(t, f) => (t.pin == None || t.pin == Some(w)) && (t.FiberTask? ==> f == t.fiber)
    case _ => true
  }

  predicate AllRightful(s: System) { forall w :: 0 <= w < |s.workers| ==> Rightful(s.workers[w].mode, w) }

  lemma StepRightful(s: System, m: Move)
    requires AllRightful(s) && Enabled(s, m)
    ensures AllRightful(Step(s, m))
  {
    if m.Scan? {
      FindIs(s, m.w, 0);
    }
    hide Find, StateOf;
  }

  lemma {:induction false} RunRightful(s: System, moves: seq<Move>)
    requires AllRightful(s) && AllEnabled(s, moves)
    ensures AllRightful(Final(s, moves))
    decreases |moves|
  {
    hide AllRightful, Step, Enabled;
    if moves != [] {
      StepRightful(s, moves[0]);
      RunRightful(Step(s, moves[0]), moves[1..]);
    }
  }

  /** Over every run: a task that is meant for one worker is switched to by that worker alone. */
  lemma PinnedByItsOwn(n: nat, moves: seq<Move>, w: nat, spawned: Fiber)
    requires n > 0 && AllEnabled(Start(n), moves) && Enabled(Final(Start(n), moves), Resume(w, spawned))
    ensures var s := Final(Start(n), moves);
            var t := s.workers[w].mode.task;
            && (t.pin == None || t.pin == Some(w))
            && Step(s, Resume(w, spawned)).started == s.started + [t]
            && Step(s, Resume(w, spawned)).workers[w].mode.fiber ==
               if t.FiberTask? then t.fiber else if s.workers[w].spare.Some? then s.workers[w].spare.value else spawned
  {
    hide Final, AllEnabled;
    assert AllRightful(Start(n));
    RunRightful(Start(n), moves);
  }

  /** Over every run: when a fiber comes back ready its task is put into the queue again as it was; the fiber of a
      callback comes back unpinned, even if the callback was meant for one worker.  A fiber is kept to run further
      callbacks exactly when it has ended one. */
  lemma YieldedComesBack(n: nat, moves: seq<Move>, w: nat)
    requires n > 0 && AllEnabled(Start(n), moves) && Enabled(Final(Start(n), moves), Settle(w))
    ensures var s := Final(Start(n), moves);
            var t, f, after := s.workers[w].mode.task, s.workers[w].mode.fiber, Step(s, Settle(w));
            && after.queue == s.queue + (if !StateOf(s, f).Ready? then []
                                         else if t.FiberTask? then [t] else [FiberTask(f, None)])
            && (t.FiberTask? ==> after.workers[w].spare == s.workers[w].spare)
            && (t.CallTask? ==> (after.workers[w].spare == Some(f) <==> StateOf(s, f).Term? || StateOf(s, f).Except?)
                                && (after.workers[w].spare == Some(f) || after.workers[w].spare == None))
  {
    hide Final, AllEnabled;
    assert AllRightful(Start(n));
    RunRightful(Start(n), moves);
    hide StateOf;
  }
}
