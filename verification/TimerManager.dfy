/** `TimerManager` as an object.  The ordered set is kept as a sequence in its order; its operations find their
    place by comparison. */
module TimerManagers {
  import opened Options
  import opened Timers

  /** A key put in at place i. */
  function PutAt(order: seq<Key>, k: Key, i: nat): seq<Key>
    requires i <= |order|
  {
    order[..i] + [k] + order[i..]
  }

  lemma PutLater(order: seq<Key>, k: Key, i: nat)
    requires 0 < i <= |order|
    ensures PutAt(order, k, i) == [order[0]] + PutAt(order[1..], k, i - 1)
  {
    var first, tail := order[0], order[1..];
    assert order[..i] == [first] + tail[..i - 1] && order[i..] == tail[i - 1..];
  }

  lemma PutFirst(order: seq<Key>, k: Key)
    ensures PutAt(order, k, 0) == [k] + order
  {
  }

  lemma {:induction false} InsertAt(order: seq<Key>, k: Key, i: nat)
    requires Sorted(order) && i <= |order|
    requires forall j :: 0 <= j < i ==> Less(order[j], k)
    requires forall j :: i <= j < |order| ==> !Less(order[j], k)
    ensures Insert(order, k) == if i < |order| && order[i] == k then order else order[..i] + [k] + order[i..]
    decreases |order|
  {
    assert PutAt(order, k, i) == order[..i] + [k] + order[i..];
    if i == 0 {
      InsertHere(order, k);
      PutFirst(order, k);
      hide *;
    } else {
      SortedTail(order);
      hide *;
      var tail := order[1..];
      assert forall j :: 0 <= j < |tail| ==> tail[j] == order[j + 1];
      InsertAt(tail, k, i - 1);
      PutIs(tail, k, i - 1);
      InsertLater(order, k);
      PutLater(order, k, i);
      assert [order[0]] + tail == order;
    }
  }

  lemma PutIs(order: seq<Key>, k: Key, i: nat)
    requires i <= |order|
    ensures PutAt(order, k, i) == order[..i] + [k] + order[i..]
  {
  }

  lemma InsertHere(order: seq<Key>, k: Key)
    requires order != [] ==> !Less(order[0], k)
    ensures Insert(order, k) == if order != [] && order[0] == k then order else [k] + order
  {
  }

  lemma InsertLater(order: seq<Key>, k: Key)
    requires order != [] && Less(order[0], k)
    ensures Insert(order, k) == [order[0]] + Insert(order[1..], k)
  {
  }

  lemma {:induction false} RemoveAt(order: seq<Key>, k: Key, i: nat)
    requires Sorted(order) && i <= |order|
    requires forall j :: 0 <= j < i ==> Less(order[j], k)
    requires forall j :: i <= j < |order| ==> !Less(order[j], k)
    ensures k in order <==> i < |order| && order[i] == k
    ensures Remove(order, k) == if i < |order| && order[i] == k then order[..i] + order[i + 1..] else order
    decreases |order|
  {
    if order != [] {
      SortedTail(order);
      var tail := order[1..];
      assert order == [order[0]] + tail;
      if i == 0 {
        assert order[0] != k ==> Less(k, order[0]);
        if order[0] == k {
          assert order[..0] + order[1..] == tail;
        } else {
          NotIn(tail, k);
        }
      } else {
        RemoveAt(tail, k, i - 1);
        if i < |order| && order[i] == k {
          assert order[..i] + order[i + 1..] == [order[0]] + (tail[..i - 1] + tail[i..]);
        }
      }
    }
  }

  lemma {:induction false} NotIn(order: seq<Key>, k: Key)
    requires forall e :: e in order ==> Less(k, e)
    ensures k !in order && Remove(order, k) == order
    decreases |order|
  {
    if order != [] {
      assert order[0] in order;
      NotIn(order[1..], k);
    }
  }

  lemma {:induction false} DueAt(order: seq<Key>, now: nat, n: nat)
    requires n <= |order|
    requires forall i :: 0 <= i < n ==> order[i].next <= now
    requires forall i :: n <= i < |order| ==> order[i].next > now
    ensures Due(order, now) == n
    decreases |order|
  {
    if order != [] && n > 0 {
      DueAt(order[1..], now, n - 1);
    }
  }

  class TimerManager {
    var table: map<Address, Timer>
    var timers: seq<Key>
    var hooks: nat

    ghost function View(): State
      reads this
    {
      State(table, timers, hooks)
    }

    constructor ()
      ensures View() == EMPTY
    {
      table, timers, hooks := map[], [], 0;
    }

    method LowerBound(k: Key) returns (i: nat)
      requires Sorted(timers)
      ensures i <= |timers|
      ensures forall j :: 0 <= j < i ==> Less(timers[j], k)
      ensures forall j :: i <= j < |timers| ==> !Less(timers[j], k)
    {
      i := 0;
      while i < |timers| && Less(timers[i], k)
        invariant i <= |timers| && forall j :: 0 <= j < i ==> Less(timers[j], k)
      {
        i := i + 1;
      }
    }

    method SetInsert(k: Key) returns (atFront: bool)
      requires Sorted(timers)
      modifies this`timers
      ensures timers == Insert(old(timers), k) && timers != []
      ensures atFront <==> timers[0] == k
    {
      var i := LowerBound(k);
      InsertAt(timers, k, i);
      if !(i < |timers| && timers[i] == k) {
        timers := timers[..i] + [k] + timers[i..];
      }
      return i == 0;
    }

    method SetErase(k: Key) returns (found: bool)
      requires Sorted(timers)
      modifies this`timers
      ensures timers == Remove(old(timers), k) && (found <==> k in old(timers))
    {
      var i := LowerBound(k);
      RemoveAt(timers, k, i);
      found := i < |timers| && timers[i] == k;
      if found {
        timers := timers[..i] + timers[i + 1..];
      }
    }

    /** The inner `addTimer`, which ends by calling the hook if the timer has become the first. */
    method InsertTimer(id: Address)
      requires id in table && Sorted(timers)
      modifies this`timers, this`hooks
      ensures View() == InsertFront(old(View()), id)
    {
      var atFront := SetInsert(Key(table[id].next, id));
      if atFront {
        hooks := hooks + 1;
      }
    }

    /** A new timer, whose deadline is counted from a clock reading made before the lock was taken. */
    method AddTimer(id: Address, ms: nat, cb: Option<Callback>, recurring: bool, made: nat)
      requires Inv(View()) && id !in table
      modifies this
      ensures Inv(View()) && View() == Add(old(View()), id, Timer(recurring, ms, Plus(made, ms), cb))
    {
      AddInv(View(), id, Timer(recurring, ms, Plus(made, ms), cb));
      table := table[id := Timer(recurring, ms, Plus(made, ms), cb)];
      InsertTimer(id);
    }

    method Cancel(id: Address) returns (ok: bool)
      requires Inv(View()) && id in table
      modifies this
      ensures Inv(View()) && (View(), ok) == Timers.Cancel(old(View()), id)
    {
      CancelInv(View(), id);
      if table[id].cb.None? {
        return false;
      }
      table := table[id := table[id].(cb := None)];
      ok := SetErase(Key(table[id].next, id));
    }

    method Refresh(id: Address, now: nat) returns (ok: bool)
      requires Inv(View()) && id in table
      modifies this
      ensures Inv(View()) && (View(), ok) == Timers.Refresh(old(View()), id, now)
    {
      RefreshInv(View(), id, now);
      if table[id].cb.None? {
        return false;
      }
      RemoveSorted(timers, Key(table[id].next, id));
      var found := SetErase(Key(table[id].next, id));
      if !found {
        return false;
      }
      table := table[id := table[id].(next := Plus(now, table[id].ms))];
      var _ := SetInsert(Key(table[id].next, id));
      return true;
    }

    method Reset(id: Address, ms: nat, fromNow: bool, now: nat) returns (ok: bool)
      requires Inv(View()) && id in table
      modifies this
      ensures Inv(View()) && (View(), ok) == Timers.Reset(old(View()), id, ms, fromNow, now)
    {
      ResetInv(View(), id, ms, fromNow, now);
      if table[id].cb.None? {
        return false;
      }
      RemoveSorted(timers, Key(table[id].next, id));
      var found := SetErase(Key(table[id].next, id));
      if !found {
        return false;
      }
      var start := 0;
      if fromNow {
        start := now;
      } else {
        start := Minus(table[id].next, table[id].ms);
      }
      table := table[id := table[id].(next := Plus(start, ms), ms := ms)];
      InsertTimer(id);
      return true;
    }

    /** The timers that are due go out of the set; each in turn gives its callback and is armed again or done
        for.  `probe` is the address of the temporary timer that the search compares with, and `clocks` are the
        readings of the clock for the timers that recur. */
    method ListExpired(now: nat, probe: Address, clocks: seq<nat>) returns (cbs: seq<Callback>)
      requires Inv(View()) && |clocks| >= |timers|
      modifies this
      ensures var was := old(View());
              var n := Due(was.order, now);
              Known(was) && Inv(View()) && (View(), cbs) == Expire(was, now, clocks[..n])
    {
      ghost var was := View();
      var n := CountDue(now, probe);
      var expire := timers[..n];
      timers := timers[n..];
      TakenOut(was, n);
      ExpireInv(was, now, clocks[..n]);
      ghost var u := View();
      SameFor(was, u, expire);
      cbs := ServeAll(expire, clocks[..n]);
    }

    method CountDue(now: nat, probe: Address) returns (n: nat)
      requires Sorted(timers)
      ensures n == Due(timers, now)
    {
      n := LowerBound(Key(now, probe));
      while n < |timers| && timers[n].next == now
        invariant n <= |timers|
        invariant forall j :: 0 <= j < n ==> timers[j].next <= now
        invariant forall j :: n <= j < |timers| ==> timers[j].next >= now
      {
        n := n + 1;
      }
      forall j | n <= j < |timers| ensures timers[j].next > now {
        assert n < |timers| && timers[n].next > now;
        if j > n {
          assert Less(timers[n], timers[j]);
        }
      }
      DueAt(timers, now, n);
    }

    method ServeOne(id: Address, clock: nat, cbs0: seq<Callback>) returns (cbs: seq<Callback>)
      requires id in table && Sorted(timers)
      modifies this
      ensures View() == Rearm(old(View()), id, clock)
      ensures cbs == cbs0 + (if old(table)[id].cb.Some? then [old(table)[id].cb.value] else [])
    {
      cbs := cbs0;
      if table[id].cb.Some? {
        cbs := cbs + [table[id].cb.value];
      }
      if table[id].recurring {
        table := table[id := table[id].(next := Plus(clock, table[id].ms))];
        var _ := SetInsert(Key(table[id].next, id));
      } else {
        table := table[id := table[id].(cb := None)];
      }
    }

    method ServeAll(expire: seq<Key>, clocks: seq<nat>) returns (cbs: seq<Callback>)
      requires Outside(View(), expire) && |clocks| == |expire|
      modifies this
      ensures View() == RearmAll(old(View()), expire, clocks) && cbs == Callbacks(old(View()), expire)
    {
      hide Rearm, Sorted;
      ghost var was := View();
      cbs := [];
      var i := 0;
      while i < |expire|
        invariant i <= |expire| && Outside(View(), expire[i..])
        invariant RearmAll(View(), expire[i..], clocks[i..]) == RearmAll(was, expire, clocks)
        invariant cbs + Callbacks(View(), expire[i..]) == Callbacks(was, expire)
      {
        ghost var s, due := View(), expire[i..];
        assert due[0] == expire[i] && due[1..] == expire[i + 1..] && expire[i] in due;
        assert clocks[i..][0] == clocks[i] && clocks[i..][1..] == clocks[i + 1..];
        RearmOutside(s, due, clocks[i]);
        SameCallbacks(s, due, clocks[i]);
        ghost var before := cbs;
        cbs := ServeOne(expire[i].id, clocks[i], cbs);
        CallbacksFirst(s, due, before, cbs);
        i := i + 1;
      }
    }

    /** The time to the least deadline of all timers that wait. */
    method GetNextTimerInterval(now: nat) returns (ms: nat)
      requires Inv(View())
      ensures Soonest(View(), now, ms) && ms == Interval(View(), now)
    {
      IntervalIsSoonest(View(), now);
      if |timers| == 0 {
        return 0xFFFF_FFFF_FFFF_FFFF;
      }
      if now >= timers[0].next {
        return 0;
      } else {
        return timers[0].next - now;
      }
    }
  }

  /** Serving one timer does not change the callbacks of the others. */
  lemma SameCallbacks(s: State, due: seq<Key>, clock: nat)
    requires Outside(s, due) && due != [] && due[0].id in s.table
    requires forall k :: k in due ==> k.id in s.table
    ensures forall k :: k in due[1..] ==> k.id in Rearm(s, due[0].id, clock).table
    ensures Callbacks(Rearm(s, due[0].id, clock), due[1..]) == Callbacks(s, due[1..])
  {
    SameFor(s, Rearm(s, due[0].id, clock), due[1..]);
  }

  lemma CallbacksFirst(s: State, due: seq<Key>, before: seq<Callback>, cbs: seq<Callback>)
    requires due != [] && forall k :: k in due ==> k.id in s.table
    requires due[0].id in s.table
    requires cbs == before + (if s.table[due[0].id].cb.Some? then [s.table[due[0].id].cb.value] else [])
    ensures cbs + Callbacks(s, due[1..]) == before + Callbacks(s, due)
  {
  }

  lemma {:induction false} SameFor(s: State, r: State, due: seq<Key>)
    requires forall k :: k in due ==> k.id in s.table && k.id in r.table && r.table[k.id].cb == s.table[k.id].cb
    ensures Callbacks(r, due) == Callbacks(s, due)
    decreases |due|
  {
    if due != [] {
      assert due[0] in due;
      SameFor(s, r, due[1..]);
    }
  }
}
