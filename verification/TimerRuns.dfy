/** Whole runs of a `TimerManager`: what is handed out over time, and when a sleeper is told. */
module TimerRuns {
  import opened Options
  import opened Timers

  /** `made`, `now` and `clocks` are readings of the clock.  The reading a new timer is made with, and the one that
      says which timers have expired, come before the lock; the others are made under it. */
  datatype Op =
    | AddTimer(id: Address, ms: nat, cb: Option<Callback>, recurring: bool, made: nat)
    | CancelTimer(id: Address)
    | RefreshTimer(id: Address, now: nat)
    | ResetTimer(id: Address, ms: nat, fromNow: bool, now: nat)
    | ListExpired(now: nat, clocks: seq<nat>)

  predicate Enabled(s: State, op: Op) {
    match op
    case AddTimer(id, _, _, _, _) => id !in s.table
    case CancelTimer(id) => id in s.table
    case RefreshTimer(id, _) => id in s.table
    case ResetTimer(id, _, _, _) => id in s.table
    case ListExpired(now, clocks) => Known(s) && |clocks| == Due(s.order, now)
  }

  function Step(s: State, op: Op): State
    requires Enabled(s, op)
  {
    match op
    case AddTimer(id, ms, cb, recurring, made) => Add(s, id, Timer(recurring, ms, Plus(made, ms), cb))
    case CancelTimer(id) => Cancel(s, id).0
    case RefreshTimer(id, now) => Refresh(s, id, now).0
    case ResetTimer(id, ms, fromNow, now) => Reset(s, id, ms, fromNow, now).0
    case ListExpired(now, clocks) => Expire(s, now, clocks).0
  }

  /** The timers whose callbacks are handed out. */
  function Fired(s: State, op: Op): seq<Address>
    requires Enabled(s, op)
  {
    match op
    case ListExpired(now, _) => FiredIds(s, s.order[..Due(s.order, now)])
    case _ => []
  }

  function FiredIds(s: State, due: seq<Key>): seq<Address>
    requires forall k :: k in due ==> k.id in s.table
    decreases |due|
  {
    if due == [] then []
    else (if s.table[due[0].id].cb.Some? then [due[0].id] else []) + FiredIds(s, due[1..])
  }

  lemma StepInv(s: State, op: Op)
    requires Inv(s) && Enabled(s, op)
    ensures Inv(Step(s, op))
  {
    hide Inv, Add, Cancel, Refresh, Reset, Expire;
    match op {
      case AddTimer(id, ms, cb, recurring, made) => AddInv(s, id, Timer(recurring, ms, Plus(made, ms), cb));
      case CancelTimer(id) => CancelInv(s, id);
      case RefreshTimer(id, now) => RefreshInv(s, id, now);
      case ResetTimer(id, ms, fromNow, now) => ResetInv(s, id, ms, fromNow, now);
      case ListExpired(now, clocks) => ExpireInv(s, now, clocks);
    }
  }

  // ---------------------------------------------------------------- runs

  predicate AllEnabled(s: State, ops: seq<Op>)
    decreases |ops|
  {
    ops == [] || (Enabled(s, ops[0]) && AllEnabled(Step(s, ops[0]), ops[1..]))
  }

  function Final(s: State, ops: seq<Op>): State
    requires AllEnabled(s, ops)
    decreases |ops|
  {
    if ops == [] then s else Final(Step(s, ops[0]), ops[1..])
  }

  function AllFired(s: State, ops: seq<Op>): seq<Address>
    requires AllEnabled(s, ops)
    decreases |ops|
  {
    if ops == [] then [] else Fired(s, ops[0]) + AllFired(Step(s, ops[0]), ops[1..])
  }

  function Count(ids: seq<Address>, id: Address): nat {
    if ids == [] then 0 else (if ids[0] == id then 1 else 0) + Count(ids[1..], id)
  }

  lemma {:induction false} CountAppend(a: seq<Address>, b: seq<Address>, id: Address)
    ensures Count(a + b, id) == Count(a, id) + Count(b, id)
    decreases |a|
  {
    if a == [] {
      assert a + b == b;
    } else {
      assert (a + b)[1..] == a[1..] + b;
      CountAppend(a[1..], b, id);
    }
  }

  /** The set stays sorted by the deadlines the timers have, over every run. */
  lemma {:induction false} RunInv(s: State, ops: seq<Op>)
    requires Inv(s) && AllEnabled(s, ops)
    ensures Inv(Final(s, ops))
    decreases |ops|
  {
    hide Inv, Step, Enabled;
    if ops != [] {
      StepInv(s, ops[0]);
      RunInv(Step(s, ops[0]), ops[1..]);
    }
  }

  // ---------------------------------------------------------------- cancelled, or run once

  /** A timer without a callback: cancelled, or a one-shot that has been handed out. */
  predicate Silent(s: State, id: Address) { id in s.table && s.table[id].cb.None? }

  lemma {:induction false} FiredCount(s: State, due: seq<Key>, id: Address)
    requires Distinct(due) && forall k :: k in due ==> k.id in s.table
    ensures Count(FiredIds(s, due), id) == if IsDue(due, id) && s.table[id].cb.Some? then 1 else 0
    decreases |due|
  {
    if due != [] {
      assert due[0] in due;
      var rest := due[1..];
      FiredCount(s, rest, id);
      var one := if s.table[due[0].id].cb.Some? then [due[0].id] else [];
      CountAppend(one, FiredIds(s, rest), id);
      assert due == [due[0]] + rest;
      assert IsDue(due, id) <==> due[0].id == id || IsDue(rest, id);
      if due[0].id == id {
        assert forall k :: k in rest ==> k.id != id;
      }
      CountOne(one, id);
    }
  }

  lemma CountOne(one: seq<Address>, id: Address)
    requires |one| <= 1
    ensures Count(one, id) == if one == [id] then 1 else 0
  {
    if |one| == 1 {
      assert one[1..] == [];
    }
  }

  /** What one operation hands out of one timer, and what that does to the timer. */
  predicate FiresWell(s: State, op: Op, id: Address)
    requires Enabled(s, op) && id in s.table
  {
    var n := Count(Fired(s, op), id);
    && id in Step(s, op).table && Step(s, op).table[id].recurring == s.table[id].recurring
    && n <= 1
    && (Silent(s, id) ==> Silent(Step(s, op), id) && n == 0)
    && (n == 1 && !s.table[id].recurring ==> Silent(Step(s, op), id))
  }

  lemma ExpireFires(s: State, op: Op, id: Address)
    requires Inv(s) && Enabled(s, op) && id in s.table && op.ListExpired?
    ensures FiresWell(s, op, id)
  {
    var due := s.order[..Due(s.order, op.now)];
    ExpireExactly(s, op.now, op.clocks);
    DistinctPrefix(s, Due(s.order, op.now));
    FiredCount(s, due, id);
    ExpireOne(s, op, id);
    hide Expire, Due, Inv, Count, FiredIds;
  }

  /** What expiry does to one timer. */
  lemma ExpireOne(s: State, op: Op, id: Address)
    requires Inv(s) && Enabled(s, op) && id in s.table && op.ListExpired?
    ensures var r, due := Step(s, op), s.order[..Due(s.order, op.now)];
            && id in r.table && r.table[id].recurring == s.table[id].recurring
            && r.table[id].cb == if IsDue(due, id) && !s.table[id].recurring then None else s.table[id].cb
  {
    var due := s.order[..Due(s.order, op.now)];
    ExpireExactly(s, op.now, op.clocks);
    hide Served, Kept, Expire, Due, Inv;
    if IsDue(due, id) {
      var k :| k in due && k.id == id;
      var i :| 0 <= i < |due| && due[i] == k;
      ServedFacts(s.table[id], Step(s, op), id, op.clocks[i]);
    } else {
      KeptTable(s, Step(s, op), id);
    }
  }

  lemma StepFires(s: State, op: Op, id: Address)
    requires Inv(s) && Enabled(s, op) && id in s.table
    ensures FiresWell(s, op, id)
  {
    if op.ListExpired? {
      ExpireFires(s, op, id);
    } else {
      assert Fired(s, op) == [];
      hide Insert, Remove, Plus, Minus, Inv;
    }
  }

  lemma ServedFacts(t: Timer, r: State, id: Address, clock: nat)
    requires id in r.table && Served(t, r, id, clock)
    ensures r.table[id].recurring == t.recurring
    ensures r.table[id].cb == if t.recurring then t.cb else None
  {
  }

  /** Once silent, always silent: nothing is handed out of a timer after its cancel has returned true. */
  lemma {:induction false} SilentForever(s: State, ops: seq<Op>, id: Address)
    requires Inv(s) && AllEnabled(s, ops) && Silent(s, id)
    ensures Count(AllFired(s, ops), id) == 0 && Silent(Final(s, ops), id)
    decreases |ops|
  {
    hide Inv, Step, Enabled, Silent, Fired;
    if ops != [] {
      StepInv(s, ops[0]);
      assert id in s.table by { SilentIn(s, id); }
      StepFires(s, ops[0], id);
      SilentForever(Step(s, ops[0]), ops[1..], id);
      CountAppend(Fired(s, ops[0]), AllFired(Step(s, ops[0]), ops[1..]), id);
    }
  }

  lemma SilentIn(s: State, id: Address)
    requires Silent(s, id)
    ensures id in s.table
  {
  }

  lemma CancelSilences(s: State, id: Address, ops: seq<Op>)
    requires Inv(s) && id in s.table && Cancel(s, id).1 && AllEnabled(Cancel(s, id).0, ops)
    ensures Count(AllFired(Cancel(s, id).0, ops), id) == 0
  {
    CancelInv(s, id);
    SilentForever(Cancel(s, id).0, ops, id);
  }

  /** A one-shot timer is handed out at most once. */
  lemma {:induction false} OneShotOnce(s: State, ops: seq<Op>, id: Address)
    requires Inv(s) && AllEnabled(s, ops) && id in s.table && !s.table[id].recurring
    ensures Count(AllFired(s, ops), id) <= 1
    decreases |ops|
  {
    hide Inv, Step, Enabled, Silent, Fired;
    if ops != [] {
      var u := Step(s, ops[0]);
      StepInv(s, ops[0]);
      StepFires(s, ops[0], id);
      CountAppend(Fired(s, ops[0]), AllFired(u, ops[1..]), id);
      if Silent(u, id) {
        SilentForever(u, ops[1..], id);
      } else {
        OneShotOnce(u, ops[1..], id);
      }
    }
  }

  // ---------------------------------------------------------------- deadlines

  /** No timer counts from a moment that is still to come. */
  predicate Timely(s: State, clock: nat) {
    && clock < WORD
    && forall id :: id in s.table ==>
         s.table[id].next < WORD && s.table[id].ms < WORD && Minus(s.table[id].next, s.table[id].ms) <= clock
  }

  /** The readings under the lock lie between what the clock was and what it is; those before it may be older. */
  predicate Timed(op: Op, before: nat, after: nat) {
    && before <= after < WORD
    && match op
       case AddTimer(_, ms, _, _, made) => made <= after && ms < WORD
       case CancelTimer(_) => true
       case RefreshTimer(_, now) => before <= now <= after
       case ResetTimer(_, ms, _, now) => before <= now <= after && ms < WORD
       case ListExpired(now, clocks) =>
         now <= after && forall i :: 0 <= i < |clocks| ==> now <= clocks[i] <= after
  }

  lemma PlusMinus(start: nat, ms: nat)
    requires start < WORD && ms < WORD
    ensures Minus(Plus(start, ms), ms) == start
    ensures Plus(start, ms) == if start + ms < WORD then start + ms else start + ms - WORD
  {
  }

  lemma MinusPlus(next: nat, ms: nat)
    requires next < WORD && ms < WORD
    ensures Plus(Minus(next, ms), ms) == next && Minus(next, ms) < WORD
  {
  }

  /** Refreshing lowers a timer's deadline exactly when the addition wraps now and did not before. */
  lemma RefreshLowers(t: Timer, now: nat)
    requires t.next < WORD && t.ms < WORD && Minus(t.next, t.ms) <= now < WORD
    ensures Plus(now, t.ms) < t.next <==> Minus(t.next, t.ms) + t.ms < WORD <= now + t.ms
  {
    MinusPlus(t.next, t.ms);
    PlusMinus(now, t.ms);
    PlusMinus(Minus(t.next, t.ms), t.ms);
  }

  lemma StepTimely(s: State, op: Op, before: nat, after: nat)
    requires Inv(s) && Enabled(s, op) && Timely(s, before) && Timed(op, before, after)
    ensures Timely(Step(s, op), after)
  {
    match op {
      case AddTimer(id, ms, cb, recurring, made) =>
        PlusMinus(made, ms);
        hide Insert, Plus, Minus, Inv;
      case CancelTimer(id) =>
        hide Remove, Minus, Inv;
      case RefreshTimer(id, now) =>
        PlusMinus(now, s.table[id].ms);
        hide Insert, Remove, Plus, Minus, Inv;
      case ResetTimer(id, ms, fromNow, now) =>
        var start := if fromNow then now else Minus(s.table[id].next, s.table[id].ms);
        PlusMinus(start, ms);
        hide Insert, Remove, Plus, Minus, Inv;
      case ListExpired(now, clocks) =>
        ExpireTimely(s, op, before, after);
    }
  }

  lemma ExpireTimely(s: State, op: Op, before: nat, after: nat)
    requires op.ListExpired? && Inv(s) && Enabled(s, op) && Timely(s, before) && Timed(op, before, after)
    ensures Timely(Step(s, op), after)
  {
    var due := s.order[..Due(s.order, op.now)];
    ExpireExactly(s, op.now, op.clocks);
    var r := Step(s, op);
    hide Expire, Due, Inv, Plus, Minus;
    forall id | id in r.table
      ensures r.table[id].next < WORD && r.table[id].ms < WORD && Minus(r.table[id].next, r.table[id].ms) <= after
    {
      if IsDue(due, id) {
        var k :| k in due && k.id == id;
        var i :| 0 <= i < |due| && due[i] == k;
        assert Served(s.table[due[i].id], r, due[i].id, op.clocks[i]);
        PlusMinus(op.clocks[i], s.table[id].ms);
      } else {
        KeptTable(s, r, id);
      }
    }
  }

  /** No deadline in the set is below a bound. */
  predicate AtLeast(s: State, bound: nat) { s.order != [] ==> bound <= s.order[0].next }

  /** Every deadline in r is at least the earliest in s. */
  predicate NotLowered(s: State, r: State) {
    r.order != [] ==> s.order != [] && s.order[0].next <= r.order[0].next
  }

  /** A deadline set at this reading of the clock wraps around the end of the clock, to below a bound. */
  predicate WrapsUnder(clock: nat, ms: nat, bound: nat) { clock + ms >= WORD && clock + ms - WORD < bound }

  /** The timer at place i of those that are due is armed again at a deadline that wraps to below a bound. */
  predicate RearmsUnder(s: State, due: seq<Key>, clocks: seq<nat>, i: nat, bound: nat)
    requires i < |due| == |clocks| && due[i].id in s.table
  {
    s.table[due[i].id].recurring && WrapsUnder(clocks[i], s.table[due[i].id].ms, bound)
  }

  /** The operation is one that calls no hook, and it sets a deadline that wraps to below a bound: a refresh that
      succeeds, or an expiry that arms a recurring timer again. */
  predicate DropsUnder(s: State, op: Op, bound: nat)
    requires Enabled(s, op)
  {
    match op
    case RefreshTimer(id, now) => s.table[id].cb.Some? && WrapsUnder(now, s.table[id].ms, bound)
    case ListExpired(now, clocks) =>
      var due := s.order[..Due(s.order, now)];
      assert forall i :: 0 <= i < |due| ==> due[i] in s.order;
      exists i :: 0 <= i < |due| && RearmsUnder(s, due, clocks, i, bound)
    case _ => false
  }

  lemma FirstIsLeast(s: State, k: Key)
    requires Inv(s) && k in s.order
    ensures s.order[0].next <= k.next
  {
    var i :| 0 <= i < |s.order| && s.order[i] == k;
    if i > 0 {
      assert Less(s.order[0], s.order[i]);
    }
  }

  /** A set is at or above a bound when each of its deadlines is. */
  lemma AtLeastBy(s: State, bound: nat)
    requires Inv(s)
    ensures AtLeast(s, bound) <==> forall k :: k in s.order ==> bound <= k.next
  {
    forall k | k in s.order ensures s.order[0].next <= k.next {
      FirstIsLeast(s, k);
    }
    if s.order != [] {
      assert s.order[0] in s.order;
    }
  }

  lemma InsertFrontTold(s: State, u: State, id: Address, bound: nat)
    requires Inv(s) && AtLeast(s, bound)
    requires id in u.table && Sorted(u.order) && u.hooks == s.hooks && forall k :: k in u.order ==> k in s.order
    ensures InsertFront(u, id).hooks > s.hooks
            || (InsertFront(u, id).hooks == s.hooks && AtLeast(InsertFront(u, id), bound))
  {
    var k := KeyOf(u, id);
    InsertSorted(u.order, k);
    hide Insert;
    var r := InsertFront(u, id);
    if r.order != [] && r.order[0] != k {
      assert r.order[0] in r.order;
      FirstIsLeast(s, r.order[0]);
    }
  }

  lemma ServedKeys(s: State, op: Op, after: nat, i: nat)
    requires op.ListExpired? && Inv(s) && Enabled(s, op) && op.now <= after < WORD
    requires i < Due(s.order, op.now) && op.clocks[i] < WORD && s.order[i].id in s.table
    requires s.table[s.order[i].id].ms < WORD
    ensures var due, r := s.order[..Due(s.order, op.now)], Step(s, op);
            var id := due[i].id;
            var n := op.clocks[i] + s.table[id].ms;
            && r.hooks == s.hooks && Inv(r) && id in r.table
            && if s.table[id].recurring then
                 KeyOf(r, id) in r.order && r.table[id].next == (if n < WORD then n else n - WORD)
               else KeyOf(r, id) !in r.order
  {
    ExpireExactly(s, op.now, op.clocks);
    ExpireInv(s, op.now, op.clocks);
    hide Expire, Due, Inv, Plus;
    ServedNext(s, Step(s, op), s.order[..Due(s.order, op.now)], op.clocks, i);
  }

  /** Where every key of an expired set comes from. */
  lemma ExpiredKey(s: State, op: Op, k: Key) returns (i: nat)
    requires op.ListExpired? && Inv(s) && Enabled(s, op) && k in Step(s, op).order
    ensures var r := Step(s, op);
            k in s.order ||
            (i < Due(s.order, op.now) && s.order[i].id == k.id && k.id in s.table && k.id in r.table
                  && k == KeyOf(r, k.id))
  {
    ExpireExactly(s, op.now, op.clocks);
    ExpireInv(s, op.now, op.clocks);
    hide Expire, Due, Plus, Step;
    var due, r := s.order[..Due(s.order, op.now)], Step(s, op);
    assert k.id in r.table && KeyOf(r, k.id) == k;
    i := 0;
    if IsDue(due, k.id) {
      i := DueAt(due, k.id);
    } else {
      assert Kept(s, r, k.id);
    }
  }

  lemma DueAt(due: seq<Key>, id: Address) returns (i: nat)
    requires IsDue(due, id)
    ensures i < |due| && due[i].id == id
  {
    var d :| d in due && d.id == id;
    i :| 0 <= i < |due| && due[i] == d;
  }

  /** Expiry never calls the hook; a set at or above a bound stays so exactly when no timer that recurs is armed
      again past the end of the clock, to below the bound. */
  lemma ExpireDrops(s: State, op: Op, before: nat, after: nat, bound: nat)
    requires op.ListExpired? && Inv(s) && Enabled(s, op) && Timely(s, before) && Timed(op, before, after)
    requires AtLeast(s, bound)
    ensures Step(s, op).hooks == s.hooks
    ensures AtLeast(Step(s, op), bound) <==> !DropsUnder(s, op, bound)
  {
    ExpireExactly(s, op.now, op.clocks);
    ExpireInv(s, op.now, op.clocks);
    DueIs(s.order, op.now);
    AtLeastBy(s, bound);
    AtLeastBy(Step(s, op), bound);
    hide Expire, Due, Plus, Minus, Step, AtLeast, Inv;
    var due, r := s.order[..Due(s.order, op.now)], Step(s, op);
    if i :| 0 <= i < |due| && RearmsUnder(s, due, op.clocks, i, bound) {
      ServedKeys(s, op, after, i);
      assert KeyOf(r, due[i].id).next < bound;
    } else {
      forall k | k in r.order ensures bound <= k.next {
        var i := ExpiredKey(s, op, k);
        if k !in s.order {
          ServedKeys(s, op, after, i);
          assert !RearmsUnder(s, due, op.clocks, i, bound);
          assert s.order[i] in s.order && s.order[i].next <= op.now <= op.clocks[i];
        }
      }
    }
  }

  /** The deadline of a timer that has been served. */
  lemma ServedNext(s: State, r: State, due: seq<Key>, clocks: seq<nat>, i: nat)
    requires i < |due| == |clocks| && due[i].id in s.table && due[i].id in r.table
    requires Served(s.table[due[i].id], r, due[i].id, clocks[i])
    requires clocks[i] < WORD && s.table[due[i].id].ms < WORD
    ensures var t, n := s.table[due[i].id], clocks[i] + s.table[due[i].id].ms;
            if t.recurring then
              KeyOf(r, due[i].id) in r.order && r.table[due[i].id].next == (if n < WORD then n else n - WORD)
            else KeyOf(r, due[i].id) !in r.order
  {
    PlusMinus(clocks[i], s.table[due[i].id].ms);
  }

  /** A set at or above a bound stays so, or the hook is called, if and only if the operation does not silently set
      a deadline that wraps to below the bound. */
  lemma Bounded(s: State, op: Op, before: nat, after: nat, bound: nat)
    requires Inv(s) && Enabled(s, op) && Timely(s, before) && Timed(op, before, after) && AtLeast(s, bound)
    ensures Step(s, op).hooks >= s.hooks
    ensures Step(s, op).hooks > s.hooks || AtLeast(Step(s, op), bound) <==> !DropsUnder(s, op, bound)
  {
    match op {
      case AddTimer(id, ms, cb, recurring, made) =>
        AddTold(s, id, Timer(recurring, ms, Plus(made, ms), cb), bound);
      case CancelTimer(id) => CancelTold(s, id, bound);
      case RefreshTimer(id, now) => RefreshDrops(s, id, now, before, bound);
      case ResetTimer(id, ms, fromNow, now) => ResetTold(s, id, ms, fromNow, now, bound);
      case ListExpired(now, clocks) => ExpireDrops(s, op, before, after, bound);
    }
  }

  /** The operation silently sets a deadline that wraps to below the earliest there was. */
  predicate Drops(s: State, op: Op)
    requires Enabled(s, op)
  {
    s.order != [] && DropsUnder(s, op, s.order[0].next)
  }

  /** An operation that lowers the earliest deadline calls the hook, except exactly when it is a refresh or a
      re-arming that wraps around the end of the clock to below the earliest deadline there was. */
  lemma Told(s: State, op: Op, before: nat, after: nat)
    requires Inv(s) && Enabled(s, op) && Timely(s, before) && Timed(op, before, after)
    ensures Step(s, op).hooks > s.hooks || NotLowered(s, Step(s, op)) <==> !Drops(s, op)
  {
    hide Inv, DropsUnder;
    if s.order != [] {
      hide Step;
      Bounded(s, op, before, after, s.order[0].next);
    } else {
      ToldEmpty(s, op);
    }
  }

  /** An empty set is only filled with the hook. */
  lemma ToldEmpty(s: State, op: Op)
    requires Inv(s) && Enabled(s, op) && s.order == []
    ensures Step(s, op).hooks > s.hooks || Step(s, op).order == []
  {
  }

  /** A refresh that succeeds lowers the earliest deadline of all exactly when it wraps to below it. */
  lemma RefreshDropsEarliest(s: State, id: Address, now: nat, before: nat)
    requires Inv(s) && id in s.table && Timely(s, before) && before <= now < WORD && Refresh(s, id, now).1
    ensures s.order != [] && Refresh(s, id, now).0.hooks == s.hooks
    ensures NotLowered(s, Refresh(s, id, now).0) <==> !WrapsUnder(now, s.table[id].ms, s.order[0].next)
  {
    assert KeyOf(s, id) in s.order;
    RefreshDrops(s, id, now, before, s.order[0].next);
    hide Insert, Remove, Plus, Minus;
  }

  /** Likewise an expiry, when a timer that recurs does. */
  lemma ExpireLowers(s: State, op: Op, before: nat, after: nat)
    requires op.ListExpired? && Inv(s) && Enabled(s, op) && Timely(s, before) && Timed(op, before, after)
    ensures Step(s, op).hooks == s.hooks
    ensures NotLowered(s, Step(s, op)) <==> !Drops(s, op)
  {
    hide Inv, DropsUnder;
    ExpireDrops(s, op, before, after, if s.order != [] then s.order[0].next else 0);
    Told(s, op, before, after);
  }

  lemma AddTold(s: State, id: Address, t: Timer, bound: nat)
    requires Inv(s) && id !in s.table && AtLeast(s, bound)
    ensures var r := Add(s, id, t); r.hooks > s.hooks || (r.hooks == s.hooks && AtLeast(r, bound))
  {
    InsertFrontTold(s, s.(table := s.table[id := t]), id, bound);
    hide Insert;
  }

  lemma CancelTold(s: State, id: Address, bound: nat)
    requires Inv(s) && id in s.table && AtLeast(s, bound)
    ensures Cancel(s, id).0.hooks == s.hooks && AtLeast(Cancel(s, id).0, bound)
  {
    CancelInv(s, id);
    RemoveSorted(s.order, KeyOf(s, id));
    AtLeastBy(s, bound);
    AtLeastBy(Cancel(s, id).0, bound);
    hide Remove, AtLeast, Inv;
  }

  lemma RefreshDrops(s: State, id: Address, now: nat, before: nat, bound: nat)
    requires Inv(s) && id in s.table && Timely(s, before) && before <= now < WORD && AtLeast(s, bound)
    ensures var r := Refresh(s, id, now).0;
            && r.hooks == s.hooks
            && (AtLeast(r, bound) <==> !(s.table[id].cb.Some? && WrapsUnder(now, s.table[id].ms, bound)))
  {
    var t, r := s.table[id], Refresh(s, id, now).0;
    if t.cb.Some? {
      var rest := Remove(s.order, KeyOf(s, id));
      RefreshInv(s, id, now);
      RefreshLowers(t, now);
      PlusMinus(now, t.ms);
      RemoveSorted(s.order, KeyOf(s, id));
      InsertSorted(rest, Key(Plus(now, t.ms), id));
      AtLeastBy(s, bound);
      AtLeastBy(r, bound);
      hide Insert, Remove, Plus, Minus, AtLeast, Inv;
    }
  }

  lemma ResetTold(s: State, id: Address, ms: nat, fromNow: bool, now: nat, bound: nat)
    requires Inv(s) && id in s.table && AtLeast(s, bound)
    ensures var r := Reset(s, id, ms, fromNow, now).0; r.hooks > s.hooks || (r.hooks == s.hooks && AtLeast(r, bound))
  {
    var t := s.table[id];
    var start := if fromNow then now else Minus(t.next, t.ms);
    var u := s.(table := s.table[id := t.(next := Plus(start, ms), ms := ms)], order := Remove(s.order, KeyOf(s, id)));
    RemoveSorted(s.order, KeyOf(s, id));
    InsertFrontTold(s, u, id, bound);
    hide Insert, Remove, Plus, Minus;
  }

  /** With the clock near its end a refresh lowers the earliest deadline and tells nobody. */
  lemma WrapWitness()
    ensures var t := Timer(false, 10, WORD - 2, Some(1));
            var s := State(map[7 := t], [Key(WORD - 2, 7)], 0);
            && Inv(s) && Timely(s, WORD - 5) && Timed(RefreshTimer(7, WORD - 5), WORD - 5, WORD - 5)
            && Refresh(s, 7, WORD - 5).1
            && !NotLowered(s, Refresh(s, 7, WORD - 5).0) && Refresh(s, 7, WORD - 5).0.hooks == s.hooks
  {
    var t := Timer(false, 10, WORD - 2, Some(1));
    var s := State(map[7 := t], [Key(WORD - 2, 7)], 0);
    assert Key(WORD - 2, 7) in s.order;
    assert Remove(s.order, Key(WORD - 2, 7)) == [];
    assert Refresh(s, 7, WORD - 5).0.order == [Key(5, 7)];
  }

  // ---------------------------------------------------------------- the sleeper

  predicate AllTimed(ops: seq<Op>, clocks: seq<nat>)
  {
    && |clocks| == |ops| + 1
    && forall i :: 0 <= i < |ops| ==> Timed(ops[i], clocks[i], clocks[i + 1])
  }

  lemma TimedRest(ops: seq<Op>, clocks: seq<nat>)
    requires AllTimed(ops, clocks) && ops != []
    ensures AllTimed(ops[1..], clocks[1..])
  {
    hide Timed;
    forall i | 0 <= i < |ops[1..]| ensures Timed(ops[1..][i], clocks[1..][i], clocks[1..][i + 1]) {
      assert Timed(ops[i + 1], clocks[i + 1], clocks[i + 2]);
    }
  }

  /** A sleeper that goes to sleep at `slept` and will wake at `wake` is safe when it has been told since, or
      there is nothing to wait for, or it wakes in time. */
  predicate Safe(s: State, slept: nat, wake: nat, hooks: nat) {
    s.hooks > hooks || wake <= slept || AtLeast(s, wake)
  }

  /** The sleeper is safe after every operation of the run. */
  predicate AlwaysSafe(s: State, ops: seq<Op>, slept: nat, wake: nat, hooks: nat)
    requires AllEnabled(s, ops)
    decreases |ops|
  {
    && Safe(s, slept, wake, hooks)
    && (ops == [] || AlwaysSafe(Step(s, ops[0]), ops[1..], slept, wake, hooks))
  }

  /** As long as the sleeper has not been told, no operation silently sets a deadline that wraps to below the
      moment it wakes. */
  predicate NoDrop(s: State, ops: seq<Op>, slept: nat, wake: nat, hooks: nat)
    requires AllEnabled(s, ops)
    decreases |ops|
  {
    ops == []
    || ((s.hooks > hooks || wake <= slept || !DropsUnder(s, ops[0], wake))
        && NoDrop(Step(s, ops[0]), ops[1..], slept, wake, hooks))
  }

  /** One operation keeps a sleeper safe unless it is such a drop. */
  lemma SafeStep(s: State, op: Op, before: nat, after: nat, slept: nat, wake: nat, hooks: nat)
    requires Inv(s) && Enabled(s, op) && Timely(s, before) && Timed(op, before, after)
    requires s.hooks >= hooks && Safe(s, slept, wake, hooks)
    ensures Step(s, op).hooks >= hooks
    ensures Safe(Step(s, op), slept, wake, hooks) <==> s.hooks > hooks || wake <= slept || !DropsUnder(s, op, wake)
  {
    hide Inv, Step, Enabled, Timely, Timed, DropsUnder, AtLeast;
    if s.hooks > hooks || wake <= slept {
      AtLeastNought(s);
      Bounded(s, op, before, after, 0);
    } else {
      Bounded(s, op, before, after, wake);
    }
  }

  lemma AtLeastNought(s: State)
    ensures AtLeast(s, 0)
  {
  }

  lemma {:induction false} SafeExactly(s: State, ops: seq<Op>, clocks: seq<nat>, slept: nat, wake: nat, hooks: nat)
    requires Inv(s) && AllEnabled(s, ops) && AllTimed(ops, clocks) && Timely(s, clocks[0])
    requires s.hooks >= hooks && Safe(s, slept, wake, hooks)
    ensures AlwaysSafe(s, ops, slept, wake, hooks) <==> NoDrop(s, ops, slept, wake, hooks)
    decreases |ops|
  {
    hide Inv, Step, Enabled, Timely, Timed, Safe, DropsUnder;
    if ops != [] {
      var u := Step(s, ops[0]);
      StepInv(s, ops[0]);
      StepTimely(s, ops[0], clocks[0], clocks[1]);
      SafeStep(s, ops[0], clocks[0], clocks[1], slept, wake, hooks);
      var rest, more := ops[1..], clocks[1..];
      TimedRest(ops, clocks);
      if Safe(u, slept, wake, hooks) {
        SafeExactly(u, rest, more, slept, wake, hooks);
      } else {
        NotSafeNow(u, rest, slept, wake, hooks);
      }
    }
  }

  lemma NotSafeNow(s: State, ops: seq<Op>, slept: nat, wake: nat, hooks: nat)
    requires AllEnabled(s, ops) && !Safe(s, slept, wake, hooks)
    ensures !AlwaysSafe(s, ops, slept, wake, hooks)
  {
  }

  /** A sleeper that asks `getNextTimerInterval` and goes to sleep for that long is, throughout any run of other
      operations, due to wake no later than the earliest deadline or told since, if and only if no refresh and no
      re-arming silently wraps around the end of the clock to below the moment it wakes. */
  lemma NoMissedDeadline(s: State, ops: seq<Op>, clocks: seq<nat>)
    requires Inv(s) && AllEnabled(s, ops) && AllTimed(ops, clocks) && Timely(s, clocks[0])
    ensures var slept := clocks[0];
            var wake := slept + Interval(s, slept);
            AlwaysSafe(s, ops, slept, wake, s.hooks) <==> NoDrop(s, ops, slept, wake, s.hooks)
  {
    hide Inv, Step, Enabled, Timely, Timed;
    SafeExactly(s, ops, clocks, clocks[0], clocks[0] + Interval(s, clocks[0]), s.hooks);
  }

  /** The operation arms no timer beyond the end of the clock. */
  predicate NoWrap(s: State, op: Op)
    requires Enabled(s, op)
  {
    match op
    case RefreshTimer(id, now) => now + s.table[id].ms < WORD
    case ListExpired(now, clocks) =>
      var due := s.order[..Due(s.order, now)];
      forall i :: 0 <= i < |due| ==> clocks[i] + s.table[due[i].id].ms < WORD
    case _ => true
  }

  predicate NeverWraps(s: State, ops: seq<Op>)
    requires AllEnabled(s, ops)
    decreases |ops|
  {
    ops == [] || (NoWrap(s, ops[0]) && NeverWraps(Step(s, ops[0]), ops[1..]))
  }

  lemma NoWrapNoDrop(s: State, op: Op, bound: nat)
    requires Enabled(s, op) && NoWrap(s, op)
    ensures !DropsUnder(s, op, bound)
  {
  }

  lemma {:induction false} NeverWrapsNoDrop(s: State, ops: seq<Op>, slept: nat, wake: nat, hooks: nat)
    requires AllEnabled(s, ops) && NeverWraps(s, ops)
    ensures NoDrop(s, ops, slept, wake, hooks)
    decreases |ops|
  {
    hide Enabled, Step, NoWrap, DropsUnder;
    if ops != [] {
      NoWrapNoDrop(s, ops[0], wake);
      NeverWrapsNoDrop(Step(s, ops[0]), ops[1..], slept, wake, hooks);
    }
  }

  /** While nothing wraps around the end of the clock the sleeper is never late. */
  lemma NeverLate(s: State, ops: seq<Op>, clocks: seq<nat>)
    requires Inv(s) && AllEnabled(s, ops) && AllTimed(ops, clocks) && Timely(s, clocks[0]) && NeverWraps(s, ops)
    ensures AlwaysSafe(s, ops, clocks[0], clocks[0] + Interval(s, clocks[0]), s.hooks)
  {
    hide *;
    assert |clocks| > 0 by { AllTimedSome(ops, clocks); }
    NoMissedDeadline(s, ops, clocks);
    NeverWrapsNoDrop(s, ops, clocks[0], clocks[0] + Interval(s, clocks[0]), s.hooks);
  }

  lemma AllTimedSome(ops: seq<Op>, clocks: seq<nat>)
    requires AllTimed(ops, clocks)
    ensures |clocks| > 0
  {
  }

  /** Every run from the start keeps the order of the set and the account of the clock that the lemmas ask for. */
  lemma FromEmpty(ops: seq<Op>, clocks: seq<nat>)
    requires AllEnabled(EMPTY, ops) && AllTimed(ops, clocks) && clocks[0] < WORD
    ensures Inv(Final(EMPTY, ops)) && Timely(Final(EMPTY, ops), clocks[|ops|])
  {
    EmptyInv();
    RunInv(EMPTY, ops);
    RunTimely(EMPTY, ops, clocks);
  }

  lemma {:induction false} RunTimely(s: State, ops: seq<Op>, clocks: seq<nat>)
    requires Inv(s) && AllEnabled(s, ops) && AllTimed(ops, clocks) && Timely(s, clocks[0])
    ensures Timely(Final(s, ops), clocks[|ops|])
    decreases |ops|
  {
    hide Inv, Step, Enabled, Timely, Timed;
    if ops != [] {
      StepInv(s, ops[0]);
      StepTimely(s, ops[0], clocks[0], clocks[1]);
      TimedRest(ops, clocks);
      RunTimely(Step(s, ops[0]), ops[1..], clocks[1..]);
    }
  }
}
