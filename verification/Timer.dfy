/** `TimerManager`: a set of timers ordered by a deadline that changes.

    The set keeps each timer at the place of the deadline it had when it was inserted; the timers themselves,
    by address, are in a table.  That the two agree is an invariant, not a matter of course: it holds because
    a deadline is only changed while its timer is outside the set. */
module Timers {
  import opened Options

  type Address = nat
  type Callback = nat

  const WORD: nat := 0x1_0000_0000_0000_0000

  datatype Timer = Timer(recurring: bool, ms: nat, next: nat, cb: Option<Callback>)

  datatype Key = Key(next: nat, id: Address)

  /** `Timer::Comparator`. */
  predicate Less(a: Key, b: Key) { a.next < b.next || (a.next == b.next && a.id < b.id) }

  // ---------------------------------------------------------------- the ordered set

  predicate Sorted(order: seq<Key>) { forall i, j :: 0 <= i < j < |order| ==> Less(order[i], order[j]) }

  function Insert(order: seq<Key>, k: Key): seq<Key>
    decreases |order|
  {
    if order == [] || Less(k, order[0]) then [k] + order
    else if k == order[0] then order
    else [order[0]] + Insert(order[1..], k)
  }

  function Remove(order: seq<Key>, k: Key): seq<Key>
    decreases |order|
  {
    if order == [] then [] else if order[0] == k then order[1..] else [order[0]] + Remove(order[1..], k)
  }

  lemma SortedTail(order: seq<Key>)
    requires Sorted(order) && order != []
    ensures Sorted(order[1..]) && forall k :: k in order[1..] ==> Less(order[0], k)
  {
    var tail := order[1..];
    forall i, j | 0 <= i < j < |tail| ensures Less(tail[i], tail[j]) {
      assert tail[i] == order[i + 1] && tail[j] == order[j + 1];
    }
    forall k | k in tail ensures Less(order[0], k) {
      var i :| 0 <= i < |tail| && tail[i] == k;
      assert order[i + 1] == k;
    }
  }

  lemma SortedCons(k: Key, order: seq<Key>)
    requires Sorted(order) && forall e :: e in order ==> Less(k, e)
    ensures Sorted([k] + order)
  {
    var all := [k] + order;
    forall i, j | 0 <= i < j < |all| ensures Less(all[i], all[j]) {
      assert all[j] == order[j - 1] && order[j - 1] in order;
      if i > 0 {
        assert all[i] == order[i - 1];
      }
    }
  }

  lemma {:induction false} InsertSorted(order: seq<Key>, k: Key)
    requires Sorted(order)
    ensures Sorted(Insert(order, k)) && forall e :: e in Insert(order, k) <==> e in order || e == k
    decreases |order|
  {
    if order == [] {
      assert [k] + order == [k];
    } else {
      SortedTail(order);
      assert order == [order[0]] + order[1..];
      if Less(k, order[0]) {
        SortedCons(k, order);
      } else if k != order[0] {
        InsertSorted(order[1..], k);
        SortedCons(order[0], Insert(order[1..], k));
      }
    }
  }

  lemma {:induction false} RemoveSorted(order: seq<Key>, k: Key)
    requires Sorted(order)
    ensures Sorted(Remove(order, k)) && forall e :: e in Remove(order, k) <==> e in order && e != k
    decreases |order|
  {
    if order != [] {
      SortedTail(order);
      assert order == [order[0]] + order[1..];
      if order[0] != k {
        RemoveSorted(order[1..], k);
        SortedCons(order[0], Remove(order[1..], k));
      }
    }
  }

  /** The order of the set: by deadline, and by address where two are the same. */
  lemma SortedMeans(order: seq<Key>, i: nat, j: nat)
    requires Sorted(order) && i < j < |order|
    ensures order[i].next <= order[j].next && (order[i].next == order[j].next ==> order[i].id < order[j].id)
  {
  }

  // ---------------------------------------------------------------- the operations

  /** `hooks` counts the calls of the hook for an insertion at the front. */
  datatype State = State(table: map<Address, Timer>, order: seq<Key>, hooks: nat)

  const EMPTY := State(map[], [], 0)

  function Plus(a: nat, b: nat): (s: nat)
    ensures s < WORD
  {
    (a + b) % WORD
  }

  function Minus(a: nat, b: nat): (s: nat)
    ensures s < WORD
  {
    (a - b) % WORD
  }

  function KeyOf(s: State, id: Address): Key
    requires id in s.table
  {
    Key(s.table[id].next, id)
  }

  /** Insertion, with the hook if it turns out to be at the front. */
  function InsertFront(s: State, id: Address): State
    requires id in s.table
  {
    var order := Insert(s.order, KeyOf(s, id));
    s.(order := order, hooks := s.hooks + if order != [] && order[0] == KeyOf(s, id) then 1 else 0)
  }

  function Add(s: State, id: Address, t: Timer): State
    requires id !in s.table
  {
    InsertFront(s.(table := s.table[id := t]), id)
  }

  function Cancel(s: State, id: Address): (r: (State, bool))
    requires id in s.table
  {
    if s.table[id].cb.None? then (s, false)
    else
      var u := s.(table := s.table[id := s.table[id].(cb := None)]);
      if KeyOf(s, id) in s.order then (u.(order := Remove(s.order, KeyOf(s, id))), true) else (u, false)
  }

  function Refresh(s: State, id: Address, now: nat): (r: (State, bool))
    requires id in s.table
  {
    var t := s.table[id];
    if t.cb.None? || KeyOf(s, id) !in s.order then (s, false)
    else
      var next := Plus(now, t.ms);
      (s.(table := s.table[id := t.(next := next)],
          order := Insert(Remove(s.order, KeyOf(s, id)), Key(next, id))), true)
  }

  function Reset(s: State, id: Address, ms: nat, fromNow: bool, now: nat): (r: (State, bool))
    requires id in s.table
  {
    var t := s.table[id];
    if t.cb.None? || KeyOf(s, id) !in s.order then (s, false)
    else
      var start := if fromNow then now else Minus(t.next, t.ms);
      var u := s.(table := s.table[id := t.(next := Plus(start, ms), ms := ms)],
                  order := Remove(s.order, KeyOf(s, id)));
      (InsertFront(u, id), true)
  }

  /** How many keys at the front are due. */
  function Due(order: seq<Key>, now: nat): (n: nat)
    ensures n <= |order|
    decreases |order|
  {
    if order == [] || order[0].next > now then 0 else 1 + Due(order[1..], now)
  }

  /** What becomes of one timer that was due, at a reading of the clock. */
  function Rearm(s: State, id: Address, clock: nat): State
    requires id in s.table
  {
    var t := s.table[id];
    if t.recurring then
      var next := Plus(clock, t.ms);
      s.(table := s.table[id := t.(next := next)], order := Insert(s.order, Key(next, id)))
    else s.(table := s.table[id := t.(cb := None)])
  }

  function RearmAll(s: State, due: seq<Key>, clocks: seq<nat>): State
    requires |clocks| == |due| && forall k :: k in due ==> k.id in s.table
    decreases |due|
  {
    if due == [] then s else RearmAll(Rearm(s, due[0].id, clocks[0]), due[1..], clocks[1..])
  }

  function Callbacks(s: State, due: seq<Key>): seq<Callback>
    requires forall k :: k in due ==> k.id in s.table
    decreases |due|
  {
    if due == [] then []
    else
      var cb := s.table[due[0].id].cb;
      (if cb.Some? then [cb.value] else []) + Callbacks(s, due[1..])
  }

  /** Do the keys in the set belong to timers? */
  predicate Known(s: State) { forall k :: k in s.order ==> k.id in s.table }

  /** `listExpiredCb`; `clocks` are the readings for the timers that recur. */
  function Expire(s: State, now: nat, clocks: seq<nat>): (r: (State, seq<Callback>))
    requires Known(s) && |clocks| == Due(s.order, now)
  {
    var n := Due(s.order, now);
    (RearmAll(s.(order := s.order[n..]), s.order[..n], clocks), Callbacks(s, s.order[..n]))
  }

  /** `getNextTimerInterval`; all ones stand for no timer. */
  function Interval(s: State, now: nat): nat {
    if s.order == [] then WORD - 1 else if now >= s.order[0].next then 0 else s.order[0].next - now
  }

  // ---------------------------------------------------------------- the invariant

  /** The set is strictly sorted by the deadlines the timers have, and a timer that can still be cancelled is
      in it. */
  ghost predicate Inv(s: State) {
    && Sorted(s.order)
    && (forall k :: k in s.order ==> k.id in s.table && s.table[k.id].next == k.next)
    && (forall id :: id in s.table && s.table[id].cb.Some? ==> KeyOf(s, id) in s.order)
  }

  lemma EmptyInv()
    ensures Inv(EMPTY)
  {
  }

  /** A timer that is in the set. */
  predicate Waits(s: State, id: Address) { id in s.table && KeyOf(s, id) in s.order }

  function Later(a: nat, b: nat): nat { if a < b then b else a }

  /** Sleeping for ms from now on ends when the earliest deadline comes, or at once if it has passed. */
  ghost predicate Soonest(s: State, now: nat, ms: nat) {
    && (forall id :: Waits(s, id) ==> now + ms <= Later(now, s.table[id].next))
    && ((exists id :: Waits(s, id)) ==> exists id :: Waits(s, id) && now + ms == Later(now, s.table[id].next))
    && ((forall id :: !Waits(s, id)) ==> ms == WORD - 1)
  }

  /** The interval is the time to the least deadline of all timers that wait. */
  lemma IntervalIsSoonest(s: State, now: nat)
    requires Inv(s)
    ensures Soonest(s, now, Interval(s, now))
  {
    if s.order != [] {
      var first := s.order[0];
      assert first in s.order && KeyOf(s, first.id) == first && Waits(s, first.id);
      forall id | Waits(s, id) ensures first.next <= s.table[id].next {
        var i :| 0 <= i < |s.order| && s.order[i] == KeyOf(s, id);
        assert i > 0 ==> Less(s.order[0], s.order[i]);
      }
    }
  }

  lemma AddInv(s: State, id: Address, t: Timer)
    requires Inv(s) && id !in s.table
    ensures Inv(Add(s, id, t))
  {
    InsertSorted(s.order, Key(t.next, id));
  }

  lemma CancelInv(s: State, id: Address)
    requires Inv(s) && id in s.table
    ensures Inv(Cancel(s, id).0)
    ensures Cancel(s, id).1 <==> s.table[id].cb.Some?
    ensures Cancel(s, id).1 ==> KeyOf(s, id) !in Cancel(s, id).0.order
  {
    RemoveSorted(s.order, KeyOf(s, id));
  }

  /** A timer taken out of the set, changed, and put back at its new deadline. */
  lemma Rekeyed(s: State, id: Address, t: Timer, hooks: nat)
    requires Inv(s) && id in s.table
    ensures Inv(State(s.table[id := t], Insert(Remove(s.order, KeyOf(s, id)), Key(t.next, id)), hooks))
  {
    RemoveSorted(s.order, KeyOf(s, id));
    var rest := Remove(s.order, KeyOf(s, id));
    InsertSorted(rest, Key(t.next, id));
    hide Insert, Remove;
  }

  lemma RefreshInv(s: State, id: Address, now: nat)
    requires Inv(s) && id in s.table
    ensures Inv(Refresh(s, id, now).0)
    ensures Refresh(s, id, now).1 <==> s.table[id].cb.Some?
  {
    var t := s.table[id];
    Rekeyed(s, id, t.(next := Plus(now, t.ms)), s.hooks);
  }

  lemma ResetInv(s: State, id: Address, ms: nat, fromNow: bool, now: nat)
    requires Inv(s) && id in s.table
    ensures Inv(Reset(s, id, ms, fromNow, now).0)
    ensures Reset(s, id, ms, fromNow, now).1 <==> s.table[id].cb.Some?
  {
    hide Insert, Remove, Plus, Minus;
    var t := s.table[id];
    var start := if fromNow then now else Minus(t.next, t.ms);
    Rekeyed(s, id, t.(next := Plus(start, ms), ms := ms), Reset(s, id, ms, fromNow, now).0.hooks);
  }

  // ---------------------------------------------------------------- what expires

  predicate Distinct(due: seq<Key>) { forall i, j :: 0 <= i < j < |due| ==> due[i].id != due[j].id }

  /** The invariant while the timers in `due` are outside the set. */
  ghost predicate Outside(s: State, due: seq<Key>) {
    && Sorted(s.order) && Distinct(due)
    && (forall k :: k in s.order ==> k.id in s.table && s.table[k.id].next == k.next)
    && (forall k :: k in due ==> k.id in s.table && KeyOf(s, k.id) !in s.order)
    && (forall id :: id in s.table && s.table[id].cb.Some? ==>
          KeyOf(s, id) in s.order || exists k :: k in due && k.id == id)
  }

  lemma {:induction false} DueIs(order: seq<Key>, now: nat)
    requires Sorted(order)
    ensures var n := Due(order, now);
            && (forall i :: 0 <= i < n ==> order[i].next <= now)
            && (forall i :: n <= i < |order| ==> order[i].next > now)
    decreases |order|
  {
    if order != [] {
      SortedTail(order);
      var tail := order[1..];
      if order[0].next <= now {
        DueIs(tail, now);
        forall i | 0 <= i < Due(order, now) ensures order[i].next <= now {
          assert i > 0 ==> order[i] == tail[i - 1];
        }
        forall i | Due(order, now) <= i < |order| ensures order[i].next > now {
          assert order[i] == tail[i - 1];
        }
      } else {
        forall i | 0 <= i < |order| ensures order[i].next > now {
          assert i > 0 ==> order[i] == tail[i - 1] && tail[i - 1] in tail;
        }
      }
    }
  }

  lemma SortedApart(order: seq<Key>, n: nat)
    requires Sorted(order) && n <= |order|
    ensures Sorted(order[n..]) && forall k :: k in order[..n] ==> k !in order[n..]
  {
    var rest := order[n..];
    forall i, j | 0 <= i < j < |rest| ensures Less(rest[i], rest[j]) {
      assert rest[i] == order[n + i] && rest[j] == order[n + j];
    }
    forall i, j | 0 <= i < n && 0 <= j < |rest| ensures order[..n][i] != rest[j] {
      assert rest[j] == order[n + j];
      assert Less(order[i], order[n + j]);
    }
  }

  lemma DistinctPrefix(s: State, n: nat)
    requires Inv(s) && n <= |s.order|
    ensures Distinct(s.order[..n])
  {
    var due := s.order[..n];
    forall i, j | 0 <= i < j < |due| ensures due[i].id != due[j].id {
      assert due[i] == s.order[i] && due[j] == s.order[j] && s.order[i] in s.order && s.order[j] in s.order;
      assert Less(s.order[i], s.order[j]);
    }
  }

  lemma InParts(order: seq<Key>, n: nat)
    requires n <= |order|
    ensures forall k :: k in order <==> k in order[..n] || k in order[n..]
  {
    assert order == order[..n] + order[n..];
  }

  lemma TakenOut(s: State, n: nat)
    requires Inv(s) && n <= |s.order|
    ensures Outside(s.(order := s.order[n..]), s.order[..n])
  {
    var rest, due := s.order[n..], s.order[..n];
    SortedApart(s.order, n);
    DistinctPrefix(s, n);
    InParts(s.order, n);
    hide Sorted, Distinct;
    forall k | k in due ensures k.id in s.table && KeyOf(s, k.id) == k && k !in rest {
      assert k in s.order;
    }
    forall id | id in s.table && s.table[id].cb.Some? && KeyOf(s, id) !in rest
        ensures exists k :: k in due && k.id == id {
      assert KeyOf(s, id) in due;
    }
  }

  lemma RearmOutside(s: State, due: seq<Key>, clock: nat)
    requires Outside(s, due) && due != []
    ensures Outside(Rearm(s, due[0].id, clock), due[1..])
  {
    var id, t := due[0].id, s.table[due[0].id];
    var u, rest := Rearm(s, id, clock), due[1..];
    assert due[0] in due;
    assert Distinct(rest) && forall k :: k in rest ==> k in due && k.id != id;
    if t.recurring {
      InsertSorted(s.order, Key(Plus(clock, t.ms), id));
    }
    hide Insert;
    forall x | x in u.table && u.table[x].cb.Some? && KeyOf(u, x) !in u.order
        ensures exists k :: k in rest && k.id == x {
      assert x != id;
      assert KeyOf(u, x) == KeyOf(s, x);
      var k :| k in due && k.id == x;
      assert k in rest;
    }
  }

  lemma {:induction false} RearmAllInv(s: State, due: seq<Key>, clocks: seq<nat>)
    requires Outside(s, due) && |clocks| == |due|
    ensures Inv(RearmAll(s, due, clocks))
    decreases |due|
  {
    hide Rearm;
    if due != [] {
      assert due[0] in due;
      RearmOutside(s, due, clocks[0]);
      RearmAllInv(Rearm(s, due[0].id, clocks[0]), due[1..], clocks[1..]);
    }
  }

  lemma ExpireInv(s: State, now: nat, clocks: seq<nat>)
    requires Inv(s) && |clocks| == Due(s.order, now)
    ensures Known(s) && Inv(Expire(s, now, clocks).0)
  {
    TakenOut(s, Due(s.order, now));
    RearmAllInv(s.(order := s.order[Due(s.order, now)..]), s.order[..Due(s.order, now)], clocks);
  }

  predicate IsDue(due: seq<Key>, id: Address) { exists k :: k in due && k.id == id }

  /** A timer that was due: at its new deadline and in the set, or done for and out of it. */
  predicate Served(t: Timer, r: State, id: Address, clock: nat)
    requires id in r.table
  {
    if t.recurring then r.table[id] == t.(next := Plus(clock, t.ms)) && KeyOf(r, id) in r.order
    else r.table[id] == t.(cb := None) && KeyOf(r, id) !in r.order
  }

  /** A timer that was not. */
  predicate Kept(s: State, r: State, id: Address)
    requires id in s.table && id in r.table
  {
    r.table[id] == s.table[id] && (KeyOf(r, id) in r.order <==> KeyOf(s, id) in s.order)
  }

  /** What re-arming leaves: each timer that was due is served, the others are as they were. */
  ghost predicate Rearmed(s: State, r: State, due: seq<Key>, clocks: seq<nat>)
    requires |clocks| == |due| && forall k :: k in due ==> k.id in s.table
  {
    && r.table.Keys == s.table.Keys && r.hooks == s.hooks
    && (forall i :: 0 <= i < |due| ==> Served(s.table[due[i].id], r, due[i].id, clocks[i]))
    && (forall id :: id in s.table && !IsDue(due, id) ==> Kept(s, r, id))
  }

  lemma RearmSelf(s: State, id: Address, clock: nat)
    requires id in s.table && Sorted(s.order) && KeyOf(s, id) !in s.order
    ensures Served(s.table[id], Rearm(s, id, clock), id, clock)
    ensures forall x :: x in s.table && x != id ==> Kept(s, Rearm(s, id, clock), x)
    ensures Rearm(s, id, clock).table.Keys == s.table.Keys && Rearm(s, id, clock).hooks == s.hooks
  {
    InsertSorted(s.order, Key(Plus(clock, s.table[id].ms), id));
    hide Insert, Plus, Sorted;
  }

  lemma KeptTwice(s: State, u: State, r: State, id: Address)
    requires id in s.table && id in u.table && id in r.table && Kept(s, u, id) && Kept(u, r, id)
    ensures Kept(s, r, id)
  {
  }

  lemma ServedKept(t: Timer, u: State, r: State, id: Address, clock: nat)
    requires id in u.table && id in r.table && Served(t, u, id, clock) && Kept(u, r, id)
    ensures Served(t, r, id, clock)
  {
  }

  lemma {:induction false} RearmEffect(s: State, due: seq<Key>, clocks: seq<nat>)
    requires Outside(s, due) && |clocks| == |due|
    ensures Rearmed(s, RearmAll(s, due, clocks), due, clocks)
    decreases |due|
  {
    hide Rearm, Plus, Kept, Served;
    if due == [] {
      forall id | id in s.table ensures Kept(s, s, id) {
        KeptSelf(s, id);
      }
    } else {
      assert due[0] in due;
      var id, rest, more := due[0].id, due[1..], clocks[1..];
      RearmOutside(s, due, clocks[0]);
      RearmSelf(s, id, clocks[0]);
      var u := Rearm(s, id, clocks[0]);
      RearmEffect(u, rest, more);
      RearmBoth(s, due, clocks, u, RearmAll(u, rest, more));
    }
  }

  lemma KeptSelf(s: State, id: Address)
    requires id in s.table
    ensures Kept(s, s, id)
  {
  }

  lemma RearmBoth(s: State, due: seq<Key>, clocks: seq<nat>, u: State, r: State)
    requires Distinct(due) && |clocks| == |due| > 0 && (forall k :: k in due ==> k.id in s.table)
    requires u.table.Keys == s.table.Keys && u.hooks == s.hooks && Served(s.table[due[0].id], u, due[0].id, clocks[0])
    requires forall x :: x in s.table && x != due[0].id ==> Kept(s, u, x)
    requires Rearmed(u, r, due[1..], clocks[1..])
    ensures Rearmed(s, r, due, clocks)
  {
    hide Kept, Served;
    var rest := due[1..];
    assert forall k :: k in rest ==> k in due && k.id != due[0].id;
    forall i | 0 <= i < |due| ensures Served(s.table[due[i].id], r, due[i].id, clocks[i]) {
      if i == 0 {
        ServedKept(s.table[due[0].id], u, r, due[0].id, clocks[0]);
      } else {
        assert due[i] == rest[i - 1] && clocks[i] == clocks[1..][i - 1] && rest[i - 1] in rest;
        assert u.table[due[i].id] == s.table[due[i].id] by { KeptTable(s, u, due[i].id); }
      }
    }
    forall id | id in s.table && !IsDue(due, id) ensures Kept(s, r, id) {
      assert due[0] in due;
      assert !IsDue(rest, id);
      KeptTwice(s, u, r, id);
    }
  }

  lemma KeptTable(s: State, r: State, id: Address)
    requires id in s.table && id in r.table && Kept(s, r, id)
    ensures r.table[id] == s.table[id]
  {
  }

  /** How many timers in a list of keys have a callback. */
  function Calling(s: State, due: seq<Key>): nat
    requires forall k :: k in due ==> k.id in s.table
    decreases |due|
  {
    if due == [] then 0 else (if s.table[due[0].id].cb.Some? then 1 else 0) + Calling(s, due[1..])
  }

  /** One callback is handed out for each timer that has one, in the order of the timers: that of a timer stands
      after those of the timers before it. */
  ghost predicate HandsOut(s: State, due: seq<Key>, cbs: seq<Callback>)
    requires forall k :: k in due ==> k.id in s.table
  {
    && |cbs| == Calling(s, due)
    && forall i :: 0 <= i < |due| && s.table[due[i].id].cb.Some? ==>
         Calling(s, due[..i]) < |cbs| && cbs[Calling(s, due[..i])] == s.table[due[i].id].cb.value
  }

  lemma {:induction false} CallbacksAre(s: State, due: seq<Key>)
    requires forall k :: k in due ==> k.id in s.table
    ensures HandsOut(s, due, Callbacks(s, due))
    decreases |due|
  {
    if due != [] {
      assert due[0] in due;
      var rest, cbs := due[1..], Callbacks(s, due);
      assert forall k :: k in rest ==> k in due;
      CallbacksAre(s, rest);
      forall i | 0 <= i < |due| && s.table[due[i].id].cb.Some?
        ensures Calling(s, due[..i]) < |cbs| && cbs[Calling(s, due[..i])] == s.table[due[i].id].cb.value
      {
        if i > 0 {
          assert due[..i][0] == due[0] && due[..i][1..] == rest[..i - 1] && rest[i - 1] == due[i];
        }
      }
    }
  }

  /** Exactly the timers whose deadline has come are taken, in the order of their deadlines, and their callbacks are
      handed out in that order; of those timers exactly the recurring ones are armed again, and the others will not
      run any more; all else is as it was. */
  lemma ExpireExactly(s: State, now: nat, clocks: seq<nat>)
    requires Inv(s) && |clocks| == Due(s.order, now)
    ensures var due := s.order[..Due(s.order, now)];
            && (forall id :: id in s.table ==> (IsDue(due, id) <==> KeyOf(s, id) in s.order && s.table[id].next <= now))
            && (forall i, j :: 0 <= i < j < |due| ==> due[i].next <= due[j].next)
            && (forall k :: k in due ==> k.id in s.table)
            && Known(s) && HandsOut(s, due, Expire(s, now, clocks).1)
            && var r := Expire(s, now, clocks).0;
               && r.table.Keys == s.table.Keys && r.hooks == s.hooks
               && (forall i :: 0 <= i < |due| ==> Served(s.table[due[i].id], r, due[i].id, clocks[i]))
               && (forall id :: id in s.table && !IsDue(due, id) ==> Kept(s, r, id))
  {
    hide Served, RearmAll, Rearm, Insert, Callbacks, HandsOut;
    var n := Due(s.order, now);
    var due, rest := s.order[..n], s.order[n..];
    var u := s.(order := rest);
    DueIs(s.order, now);
    TakenOut(s, n);
    RearmEffect(u, due, clocks);
    InParts(s.order, n);
    CallbacksAre(s, due);
    forall id | id in s.table ensures IsDue(due, id) <==> KeyOf(s, id) in s.order && s.table[id].next <= now {
      DueKey(s, n, id, now);
    }
    forall id | id in s.table && !IsDue(due, id) ensures Kept(s, RearmAll(u, due, clocks), id) {
      assert KeyOf(s, id) in due ==> IsDue(due, id);
      assert KeyOf(s, id) in s.order ==> KeyOf(s, id) in rest;
    }
  }

  lemma DueKey(s: State, n: nat, id: Address, now: nat)
    requires Inv(s) && id in s.table && n <= |s.order|
    requires forall i :: 0 <= i < n ==> s.order[i].next <= now
    requires forall i :: n <= i < |s.order| ==> s.order[i].next > now
    ensures IsDue(s.order[..n], id) <==> KeyOf(s, id) in s.order && s.table[id].next <= now
  {
    var due := s.order[..n];
    if IsDue(due, id) {
      var k :| k in due && k.id == id;
      var i :| 0 <= i < n && due[i] == k;
      assert s.order[i] == k && k in s.order;
    }
    if KeyOf(s, id) in s.order && s.table[id].next <= now {
      var i :| 0 <= i < |s.order| && s.order[i] == KeyOf(s, id);
      assert i < n && due[i] == KeyOf(s, id);
    }
  }
}
