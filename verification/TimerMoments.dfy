/** The moments that timers count from: what each operation makes of a timer's deadline, and when it is handed out.

    A moment is kept here beside the timers, from the readings of the clock alone: the one a timer is made with, the
    one of a refresh, of a reset that asks for it, and of an expiry that arms the timer again. */
module TimerMoments {
  import opened Options
  import opened Timers
  import opened TimerRuns

  datatype Moment = Moment(from: nat, ms: nat)

  /** The timer runs out so long after its moment, on a clock that may wrap. */
  predicate CountsFrom(s: State, id: Address, m: Moment) {
    id in s.table && s.table[id].ms == m.ms && s.table[id].next == Plus(m.from, m.ms)
  }

  lemma Shifted(from: nat, ms: nat, other: nat)
    ensures Plus(Minus(Plus(from, ms), ms), other) == Plus(from, other)
  {
    var next := Plus(from, ms);
    var back := Minus(next, ms);
    var a, b := (from + ms) / WORD, (next - ms) / WORD;
    assert from + ms == a * WORD + next && next - ms == b * WORD + back;
    assert back + other == from + other - (a + b) * WORD;
    SameModulo(back + other, from + other, a + b);
  }

  lemma SameModulo(x: nat, y: nat, k: int)
    requires x == y - k * WORD
    ensures x % WORD == y % WORD
  {
    assert y == (y / WORD) * WORD + y % WORD;
    assert x == (y / WORD - k) * WORD + y % WORD;
  }

  // ---------------------------------------------------------------- what a reset does

  /** A reset that succeeds makes the timer count from the reading of the clock if it is asked to, and from the same
      moment as before otherwise, with the new time; the timer waits at that deadline, with its callback; every
      other timer is as it was.  It succeeds exactly for a timer with a callback, and otherwise changes nothing. */
  lemma ResetCounts(s: State, id: Address, ms: nat, fromNow: bool, now: nat, m: Moment)
    requires Inv(s) && CountsFrom(s, id, m)
    ensures var (r, ok) := Reset(s, id, ms, fromNow, now);
            && (ok <==> s.table[id].cb.Some?) && (!ok ==> r == s)
            && r.table.Keys == s.table.Keys
            && (ok ==> CountsFrom(r, id, Moment(if fromNow then now else m.from, ms)) && KeyOf(r, id) in r.order
                       && r.table[id].cb == s.table[id].cb && r.table[id].recurring == s.table[id].recurring)
            && (forall x :: x in s.table && x != id ==> Kept(s, r, x))
  {
    var t := s.table[id];
    var start := if fromNow then now else Minus(t.next, t.ms);
    Shifted(m.from, m.ms, ms);
    ResetInv(s, id, ms, fromNow, now);
    RemoveSorted(s.order, KeyOf(s, id));
    InsertSorted(Remove(s.order, KeyOf(s, id)), Key(Plus(start, ms), id));
    hide Insert, Remove, Plus, Minus, Sorted;
  }

  /** A refresh makes it count from the reading of the clock, for the same time. */
  lemma RefreshCounts(s: State, id: Address, now: nat, m: Moment)
    requires Inv(s) && CountsFrom(s, id, m)
    ensures var (r, ok) := Refresh(s, id, now);
            && (ok <==> s.table[id].cb.Some?) && (!ok ==> r == s)
            && r.table.Keys == s.table.Keys
            && (ok ==> CountsFrom(r, id, Moment(now, m.ms)) && KeyOf(r, id) in r.order
                       && r.table[id].cb == s.table[id].cb && r.table[id].recurring == s.table[id].recurring)
            && (forall x :: x in s.table && x != id ==> Kept(s, r, x))
  {
    RefreshInv(s, id, now);
    RemoveSorted(s.order, KeyOf(s, id));
    InsertSorted(Remove(s.order, KeyOf(s, id)), Key(Plus(now, s.table[id].ms), id));
    hide Insert, Remove, Plus, Minus, Sorted;
  }

  /** A new timer counts from the reading it was made with, and waits; the others are as they were. */
  lemma AddCounts(s: State, id: Address, ms: nat, cb: Option<Callback>, recurring: bool, made: nat)
    requires Inv(s) && id !in s.table
    ensures var r := Step(s, AddTimer(id, ms, cb, recurring, made));
            && CountsFrom(r, id, Moment(made, ms)) && KeyOf(r, id) in r.order && r.table[id].cb == cb
            && r.table[id].recurring == recurring && r.table.Keys == s.table.Keys + {id}
            && (forall x :: x in s.table ==> Kept(s, r, x))
  {
    InsertSorted(s.order, Key(Plus(made, ms), id));
    hide Insert, Plus, Minus, Sorted;
  }

  /** A timer that is cancelled does not wait any more; the others are as they were. */
  lemma CancelKeeps(s: State, id: Address)
    requires Inv(s) && id in s.table
    ensures var (r, ok) := Cancel(s, id);
            && r.table.Keys == s.table.Keys
            && (ok ==> r.table[id] == s.table[id].(cb := None) && KeyOf(r, id) !in r.order) && (!ok ==> r == s)
            && (forall x :: x in s.table && x != id ==> Kept(s, r, x))
  {
    CancelInv(s, id);
    RemoveSorted(s.order, KeyOf(s, id));
    hide Remove, Sorted;
  }

  // ---------------------------------------------------------------- every operation

  /** The place of a timer among those that are due. */
  function Place(due: seq<Key>, id: Address): (i: nat)
    ensures i <= |due| && (i < |due| ==> due[i].id == id) && (i == |due| ==> forall k :: k in due ==> k.id != id)
    decreases |due|
  {
    if due == [] then 0 else if due[0].id == id then 0 else 1 + Place(due[1..], id)
  }

  /** The moment a timer counts from after an operation. */
  function After(s: State, op: Op, id: Address, m: Moment): Moment
    requires Enabled(s, op) && id in s.table
  {
    match op
    case RefreshTimer(x, now) => if x == id && s.table[id].cb.Some? then Moment(now, m.ms) else m
    case ResetTimer(x, ms, fromNow, now) =>
      if x == id && s.table[id].cb.Some? then Moment(if fromNow then now else m.from, ms) else m
    case ListExpired(now, clocks) =>
      var i := Place(s.order[..Due(s.order, now)], id);
      if i < |clocks| && s.table[id].recurring then Moment(clocks[i], m.ms) else m
    case _ => m
  }

  lemma KeptCounts(s: State, r: State, id: Address, m: Moment)
    requires CountsFrom(s, id, m) && id in r.table && Kept(s, r, id)
    ensures CountsFrom(r, id, m)
  {
  }

  lemma ServedAt(s: State, now: nat, clocks: seq<nat>, i: nat)
    requires Inv(s) && Known(s) && |clocks| == Due(s.order, now) && i < Due(s.order, now)
    ensures var id, r := s.order[i].id, Expire(s, now, clocks).0;
            && id in s.table && id in r.table
            && r.table[id] == if s.table[id].recurring then s.table[id].(next := Plus(clocks[i], s.table[id].ms))
                              else s.table[id].(cb := None)
  {
    hide Inv, Expire, Due, HandsOut, Kept, IsDue, Plus;
    ExpireExactly(s, now, clocks);
    var due, r := s.order[..Due(s.order, now)], Expire(s, now, clocks).0;
    assert due[i] == s.order[i] && due[i] in due;
    assert Served(s.table[due[i].id], r, due[i].id, clocks[i]);
  }

  lemma NotServed(s: State, now: nat, clocks: seq<nat>, id: Address)
    requires Inv(s) && Known(s) && |clocks| == Due(s.order, now) && id in s.table
    requires !IsDue(s.order[..Due(s.order, now)], id)
    ensures id in Expire(s, now, clocks).0.table && Kept(s, Expire(s, now, clocks).0, id)
  {
    hide Inv, Expire, Due, Served, HandsOut, Kept, IsDue;
    ExpireExactly(s, now, clocks);
  }

  lemma ExpireCounts(s: State, now: nat, clocks: seq<nat>, id: Address, m: Moment)
    requires Inv(s) && Known(s) && |clocks| == Due(s.order, now) && CountsFrom(s, id, m)
    ensures CountsFrom(Expire(s, now, clocks).0, id, After(s, ListExpired(now, clocks), id, m))
  {
    hide Inv, Expire, Due, Plus, Kept;
    var due, r := s.order[..Due(s.order, now)], Expire(s, now, clocks).0;
    var i := Place(due, id);
    if i < |due| {
      ServedAt(s, now, clocks, i);
    } else {
      assert !IsDue(due, id);
      NotServed(s, now, clocks, id);
      KeptCounts(s, r, id, m);
    }
  }

  lemma StepCounts(s: State, op: Op, id: Address, m: Moment)
    requires Inv(s) && Enabled(s, op) && CountsFrom(s, id, m)
    ensures CountsFrom(Step(s, op), id, After(s, op, id, m))
  {
    hide Inv, Add, Cancel, Refresh, Reset, Expire, Kept, CountsFrom;
    assert id in s.table by { CountsIn(s, id, m); }
    match op {
      case AddTimer(x, ms, cb, recurring, made) =>
        AddCounts(s, x, ms, cb, recurring, made);
        KeptCounts(s, Step(s, op), id, m);
      case CancelTimer(x) =>
        CancelKeeps(s, x);
        if x == id {
          CancelledCounts(s, id, m);
        } else {
          KeptCounts(s, Step(s, op), id, m);
        }
      case RefreshTimer(x, now) => RefreshAny(s, x, now, id, m);
      case ResetTimer(x, ms, fromNow, now) => ResetAny(s, x, ms, fromNow, now, id, m);
      case ListExpired(now, clocks) => ExpireCounts(s, now, clocks, id, m);
    }
  }

  lemma CountsIn(s: State, id: Address, m: Moment)
    requires CountsFrom(s, id, m)
    ensures id in s.table
  {
  }

  lemma CancelledCounts(s: State, id: Address, m: Moment)
    requires CountsFrom(s, id, m)
    ensures CountsFrom(Cancel(s, id).0, id, m)
  {
  }

  lemma OthersKept(s: State, r: State, id: Address, m: Moment, x: Address)
    requires CountsFrom(s, id, m) && x != id && r.table.Keys == s.table.Keys
    requires forall y :: y in s.table && y != x ==> Kept(s, r, y)
    ensures CountsFrom(r, id, m)
  {
  }

  lemma RefreshAny(s: State, x: Address, now: nat, id: Address, m: Moment)
    requires Inv(s) && x in s.table && CountsFrom(s, id, m)
    ensures CountsFrom(Refresh(s, x, now).0, id, After(s, RefreshTimer(x, now), id, m))
  {
    if x == id {
      RefreshCounts(s, id, now, m);
    } else {
      RefreshOthers(s, x, now);
      OthersKept(s, Refresh(s, x, now).0, id, m, x);
    }
  }

  lemma RefreshOthers(s: State, x: Address, now: nat)
    requires Inv(s) && x in s.table
    ensures Refresh(s, x, now).0.table.Keys == s.table.Keys
    ensures forall y :: y in s.table && y != x ==> Kept(s, Refresh(s, x, now).0, y)
  {
    RemoveSorted(s.order, KeyOf(s, x));
    InsertSorted(Remove(s.order, KeyOf(s, x)), Key(Plus(now, s.table[x].ms), x));
    hide Insert, Remove, Plus, Sorted;
  }

  lemma ResetAny(s: State, x: Address, ms: nat, fromNow: bool, now: nat, id: Address, m: Moment)
    requires Inv(s) && x in s.table && CountsFrom(s, id, m)
    ensures CountsFrom(Reset(s, x, ms, fromNow, now).0, id, After(s, ResetTimer(x, ms, fromNow, now), id, m))
  {
    if x == id {
      ResetCounts(s, id, ms, fromNow, now, m);
    } else {
      ResetOthers(s, x, ms, fromNow, now);
      OthersKept(s, Reset(s, x, ms, fromNow, now).0, id, m, x);
    }
  }

  lemma ResetOthers(s: State, x: Address, ms: nat, fromNow: bool, now: nat)
    requires Inv(s) && x in s.table
    ensures Reset(s, x, ms, fromNow, now).0.table.Keys == s.table.Keys
    ensures forall y :: y in s.table && y != x ==> Kept(s, Reset(s, x, ms, fromNow, now).0, y)
  {
    var t := s.table[x];
    var start := if fromNow then now else Minus(t.next, t.ms);
    RemoveSorted(s.order, KeyOf(s, x));
    InsertSorted(Remove(s.order, KeyOf(s, x)), Key(Plus(start, ms), x));
    hide Insert, Remove, Plus, Minus, Sorted;
  }

  // ---------------------------------------------------------------- when a timer is handed out

  lemma {:induction false} FiredIdsAre(s: State, due: seq<Key>, id: Address)
    requires forall k :: k in due ==> k.id in s.table
    ensures id in FiredIds(s, due) <==> id in s.table && s.table[id].cb.Some? && IsDue(due, id)
    decreases |due|
  {
    if due != [] {
      var rest := due[1..];
      assert due[0] in due && forall k :: k in rest ==> k in due;
      FiredIdsAre(s, rest, id);
      if IsDue(due, id) && due[0].id != id {
        var k :| k in due && k.id == id;
        assert k in rest;
      }
    }
  }

  /** A timer is handed out exactly by an expiry whose clock has reached its moment plus its time, while it waits
      and has a callback. */
  lemma FiredExactly(s: State, op: Op, id: Address, m: Moment)
    requires Inv(s) && Enabled(s, op) && CountsFrom(s, id, m)
    ensures id in Fired(s, op) <==>
              op.ListExpired? && Plus(m.from, m.ms) <= op.now && KeyOf(s, id) in s.order && s.table[id].cb.Some?
  {
    if op.ListExpired? {
      ExpireExactly(s, op.now, op.clocks);
      hide Inv, Expire, Due, HandsOut;
      FiredIdsAre(s, s.order[..Due(s.order, op.now)], id);
    }
  }

  /** Throughout the run the timer is handed out only when the clock has reached its moment plus its time, as far as
      that does not wrap. */
  predicate NeverEarly(s: State, ops: seq<Op>, id: Address, m: Moment)
    requires AllEnabled(s, ops) && id in s.table
    decreases |ops|
  {
    ops == []
    || ((id in Fired(s, ops[0]) && m.from + m.ms < WORD ==> ops[0].ListExpired? && m.from + m.ms <= ops[0].now)
        && id in Step(s, ops[0]).table
        && NeverEarly(Step(s, ops[0]), ops[1..], id, After(s, ops[0], id, m)))
  }

  /** No timer is early, in any run, whatever refreshes, resets and expiries do to it. */
  lemma {:induction false} RunsNeverEarly(s: State, ops: seq<Op>, id: Address, m: Moment)
    requires Inv(s) && AllEnabled(s, ops) && CountsFrom(s, id, m)
    ensures NeverEarly(s, ops, id, m)
    decreases |ops|
  {
    hide Inv, Step, Enabled, Fired, CountsFrom, After;
    CountsIn(s, id, m);
    if ops != [] {
      FiredExactly(s, ops[0], id, m);
      StepInv(s, ops[0]);
      StepCounts(s, ops[0], id, m);
      CountsIn(Step(s, ops[0]), id, After(s, ops[0], id, m));
      RunsNeverEarly(Step(s, ops[0]), ops[1..], id, After(s, ops[0], id, m));
    }
  }

  /** In particular a timer that has just been added counts from the reading it was made with. */
  lemma NewNeverEarly(s: State, id: Address, ms: nat, cb: Option<Callback>, recurring: bool, made: nat, ops: seq<Op>)
    requires Inv(s) && id !in s.table
    requires AllEnabled(Step(s, AddTimer(id, ms, cb, recurring, made)), ops)
    ensures id in Step(s, AddTimer(id, ms, cb, recurring, made)).table
    ensures NeverEarly(Step(s, AddTimer(id, ms, cb, recurring, made)), ops, id, Moment(made, ms))
  {
    var op := AddTimer(id, ms, cb, recurring, made);
    AddCounts(s, id, ms, cb, recurring, made);
    StepInv(s, op);
    RunsNeverEarly(Step(s, op), ops, id, Moment(made, ms));
  }
}
