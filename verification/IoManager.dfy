/** `IOManager`: waiters registered for events of file descriptors.

    Each critical section is one step.  What the kernel answers and reports is an input; what it keeps, the
    interest registered for a descriptor, is part of the state, since `epoll_ctl` refuses to add what is there
    and to change or delete what is not. */
module IoManagers {
  import opened Options

  type Waiter = nat

  datatype Event = Read | Write
  datatype Interest = Unwatched | Watched(read: bool, write: bool)

  /** `FdContext`, with the kernel's interest in the descriptor. */
  datatype Fd = Fd(read: bool, write: bool, reader: Option<Waiter>, writer: Option<Waiter>, interest: Interest)

  const BLANK := Fd(false, false, None, None, Unwatched)

  function Bit(f: Fd, e: Event): bool { if e.Read? then f.read else f.write }

  function Slot(f: Fd, e: Event): Option<Waiter> { if e.Read? then f.reader else f.writer }

  function SetBit(f: Fd, e: Event, b: bool): Fd { if e.Read? then f.(read := b) else f.(write := b) }

  function SetSlot(f: Fd, e: Event, w: Option<Waiter>): Fd { if e.Read? then f.(reader := w) else f.(writer := w) }

  predicate Any(f: Fd) { f.read || f.write }

  datatype CtlOp = CtlAdd | CtlMod | CtlDel

  /** Does the kernel accept the operation?  `ok` is its good will. */
  predicate Accepts(f: Fd, op: CtlOp, ok: bool) { ok && (op.CtlAdd? <==> f.interest.Unwatched?) }

  /** What one step does to a descriptor and to the world; `Abort` is a failed assertion. */
  datatype Effect =
    | Effect(fd: Fd, ok: bool, pending: int, added: seq<Waiter>, submitted: seq<Waiter>, deleted: seq<Waiter>)
    | Abort

  function Nothing(f: Fd): Effect { Effect(f, false, 0, [], [], []) }

  function Occupant(f: Fd, e: Event): seq<Waiter> {
    var w := Slot(f, e);
    if w.Some? then [w.value] else []
  }

  /** `addEvent`, on the context of its descriptor. */
  function Add(f: Fd, e: Event, w: Waiter, ok: bool): Effect {
    if Bit(f, e) then Abort
    else if !Accepts(f, if Any(f) then CtlMod else CtlAdd, ok) then Nothing(f)
    else if Slot(f, e).Some? then Abort
    else
      var g := SetBit(f, e, true);
      Effect(SetSlot(g, e, Some(w)).(interest := Watched(g.read, g.write)), true, 1, [w], [], [])
  }

  /** The interest that remains when event e goes. */
  function Without(f: Fd, e: Event): Interest {
    var g := SetBit(f, e, false);
    if Any(g) then Watched(g.read, g.write) else Unwatched
  }

  function Modify(f: Fd, e: Event): CtlOp { if Any(SetBit(f, e, false)) then CtlMod else CtlDel }

  /** `delEvent`. */
  function Del(f: Fd, e: Event, ok: bool): Effect {
    if !Bit(f, e) || !Accepts(f, Modify(f, e), ok) then Nothing(f)
    else
      Effect(SetSlot(SetBit(f, e, false), e, None).(interest := Without(f, e)), true, -1, [], [], Occupant(f, e))
  }

  /** `triggerContext`: the slot is emptied and its waiter submitted. */
  function Trigger(f: Fd, e: Event): Effect {
    if !Bit(f, e) then Abort else Effect(SetSlot(SetBit(f, e, false), e, None), true, -1, [], Occupant(f, e), [])
  }

  /** `cancelEvent`. */
  function Cancel(f: Fd, e: Event, ok: bool): Effect {
    if !Bit(f, e) || !Accepts(f, Modify(f, e), ok) then Nothing(f)
    else
      match Trigger(f, e)
      case Abort => Abort
      case Effect(g, _, n, a, s, d) => Effect(g.(interest := Without(f, e)), true, n, a, s, d)
  }

  function Clear(f: Fd, e: Event): Fd { if Bit(f, e) then SetSlot(f, e, None) else f }

  function Cleared(f: Fd, e: Event): seq<Waiter> { if Bit(f, e) then Occupant(f, e) else [] }

  function One(b: bool): nat { if b then 1 else 0 }

  /** `delAll`: the slots are emptied, the event bits stay. */
  function DelAll(f: Fd, ok: bool): Effect {
    if !Any(f) || !Accepts(f, CtlDel, ok) then Nothing(f)
    else
      Effect(Clear(Clear(f, Read), Write).(interest := Unwatched), true, 0 - One(f.read) - One(f.write), [], [],
             Cleared(f, Read) + Cleared(Clear(f, Read), Write))
  }

  /** `cancelAll`: only one of the two events is triggered. */
  function CancelAll(f: Fd, ok: bool): Effect {
    if !Any(f) || !Accepts(f, CtlDel, ok) then Nothing(f)
    else
      match Trigger(f, if f.read then Read else Write)
      case Abort => Abort
      case Effect(g, _, n, a, s, d) => Effect(g.(interest := Unwatched), true, n, a, s, d)
  }

  /** What is taken to have happened: an error or hang-up stands for all that is waited for. */
  function Real(f: Fd, e: Event, readable: bool, writable: bool, broken: bool): bool {
    if e.Read? then readable || (broken && f.read) else writable || (broken && f.write)
  }

  /** One report of `epoll_wait`, as the loop of `wait` delivers it. */
  function Deliver(f: Fd, readable: bool, writable: bool, broken: bool, ok: bool): Effect {
    var r, w := Real(f, Read, readable, writable, broken), Real(f, Write, readable, writable, broken);
    var left := f.(read := f.read && !r, write := f.write && !w);
    if !(f.read && r) && !(f.write && w) then Nothing(f)
    else if !Accepts(f, if Any(left) then CtlMod else CtlDel, ok) then Nothing(f)
    else
      var g := f.(interest := if Any(left) then Watched(left.read, left.write) else Unwatched);
      if (r && !g.read) || (w && !g.write) then Abort
      else if r && w then Both(Trigger(g, Read), Write)
      else if r then Trigger(g, Read)
      else Trigger(g, Write)
  }

  function Both(first: Effect, e: Event): Effect {
    match first
    case Abort => Abort
    case Effect(g, ok, n, a, s, d) =>
      match Trigger(g, e)
      case Abort => Abort
      case Effect(h, ok2, n2, a2, s2, d2) => Effect(h, ok2, n + n2, a + a2, s + s2, d + d2)
  }

  // ---------------------------------------------------------------- registration agreement

  /** The event bits, the occupied slots and the kernel's interest are the same. */
  predicate Consistent(f: Fd) {
    && (f.read <==> f.reader.Some?)
    && (f.write <==> f.writer.Some?)
    && f.interest == if Any(f) then Watched(f.read, f.write) else Unwatched
  }

  function Bits(f: Fd): nat { One(f.read) + One(f.write) }

  function Waiting(f: Fd): multiset<Waiter> { multiset(Occupant(f, Read)) + multiset(Occupant(f, Write)) }

  /** The step keeps the agreement of one descriptor, and accounts for every waiter. */
  predicate Balanced(f: Fd, x: Effect) {
    x.Effect? ==>
      && Consistent(x.fd) && x.pending == Bits(x.fd) - Bits(f)
      && Waiting(f) + multiset(x.added) == Waiting(x.fd) + multiset(x.submitted) + multiset(x.deleted)
  }

  lemma BlankConsistent()
    ensures Consistent(BLANK)
  {
  }

  /** Adding aborts exactly when the event is registered already, and otherwise keeps the agreement. */
  lemma AddBalanced(f: Fd, e: Event, w: Waiter, ok: bool)
    requires Consistent(f)
    ensures Balanced(f, Add(f, e, w, ok))
    ensures Add(f, e, w, ok).Abort? <==> Bit(f, e)
    ensures !Bit(f, e) && ok ==> Add(f, e, w, ok).ok && Slot(Add(f, e, w, ok).fd, e) == Some(w)
  {
    hide Waiting, Balanced;
    NothingBalanced(f);
    AbortBalanced(f);
    if !Bit(f, e) {
      AddedBalanced(f, e, w);
    }
  }

  lemma AddedBalanced(f: Fd, e: Event, w: Waiter)
    requires Consistent(f) && !Bit(f, e)
    ensures var g := SetBit(f, e, true);
            var h := SetSlot(g, e, Some(w)).(interest := Watched(g.read, g.write));
            Balanced(f, Effect(h, true, 1, [w], [], []))
  {
    var g := SetBit(f, e, true);
    var k := SetSlot(g, e, Some(w));
    Filled(f, e, w);
    Rewatched(k, Watched(g.read, g.write));
    hide Waiting;
    var none: multiset<Waiter> := multiset([]);
    assert Waiting(k) + none + none == Waiting(k);
  }

  lemma Filled(f: Fd, e: Event, w: Waiter)
    requires Slot(f, e).None?
    ensures Waiting(SetSlot(SetBit(f, e, true), e, Some(w))) == Waiting(f) + multiset([w])
  {
  }

  lemma DelBalanced(f: Fd, e: Event, ok: bool)
    requires Consistent(f)
    ensures Del(f, e, ok).Effect? && Balanced(f, Del(f, e, ok))
    ensures Del(f, e, ok).ok <==> Bit(f, e) && ok
  {
    if Bit(f, e) && ok {
      EmptiedBalanced(f, e);
    }
    hide Balanced;
    if !(Bit(f, e) && ok) {
      NothingBalanced(f);
    }
  }

  /** A slot emptied, with its bit and its part of the interest. */
  function Emptied(f: Fd, e: Event): Fd { SetSlot(SetBit(f, e, false), e, None).(interest := Without(f, e)) }

  lemma EmptiedBalanced(f: Fd, e: Event)
    requires Consistent(f) && Bit(f, e)
    ensures Consistent(Emptied(f, e)) && Bits(Emptied(f, e)) == Bits(f) - 1
    ensures Balanced(f, Effect(Emptied(f, e), true, -1, [], [], Occupant(f, e)))
  {
    EmptiedWaiting(f, e);
    hide Waiting;
    var g := Emptied(f, e);
    var none: multiset<Waiter> := multiset([]);
    assert Waiting(f) + none == Waiting(f) && Waiting(g) + none == Waiting(g);
  }

  lemma EmptiedWaiting(f: Fd, e: Event)
    ensures Waiting(f) == Waiting(Emptied(f, e)) + multiset(Occupant(f, e))
  {
    var none: multiset<Waiter> := multiset([]);
    assert multiset(Occupant(Emptied(f, e), e)) == none;
  }

  lemma CancelBalanced(f: Fd, e: Event, ok: bool)
    requires Consistent(f)
    ensures Cancel(f, e, ok).Effect? && Balanced(f, Cancel(f, e, ok))
    ensures Cancel(f, e, ok).ok <==> Bit(f, e) && ok
    ensures Cancel(f, e, ok).ok ==> Cancel(f, e, ok).submitted == Occupant(f, e)
  {
  }

  /** Deleting all events empties the slots but keeps the bits: the agreement is lost whenever it succeeds. */
  lemma DelAllBreaks(f: Fd, ok: bool)
    requires Consistent(f)
    ensures DelAll(f, ok).Effect? && (DelAll(f, ok).ok <==> Any(f) && ok)
    ensures Consistent(DelAll(f, ok).fd) <==> !DelAll(f, ok).ok
    ensures Waiting(f) == Waiting(DelAll(f, ok).fd) + multiset(DelAll(f, ok).deleted)
  {
  }

  /** Cancelling all events keeps the agreement if and only if at most one event was registered. */
  lemma CancelAllBreaks(f: Fd, ok: bool)
    requires Consistent(f)
    ensures CancelAll(f, ok).Effect? && (CancelAll(f, ok).ok <==> Any(f) && ok)
    ensures Balanced(f, CancelAll(f, ok)) <==> !(ok && f.read && f.write)
    ensures Consistent(CancelAll(f, ok).fd) <==> !(ok && f.read && f.write)
  {
  }

  /** The event bits and the occupied slots are the same. */
  predicate SlotsAgree(f: Fd) { (f.read <==> f.reader.Some?) && (f.write <==> f.writer.Some?) }

  lemma TriggerBalanced(f: Fd, e: Event)
    requires SlotsAgree(f) && Bit(f, e)
    ensures var x := Trigger(f, e);
            && x.Effect? && SlotsAgree(x.fd) && x.pending == -1 && Bits(x.fd) == Bits(f) - 1
            && x.added == [] && x.deleted == [] && x.submitted == Occupant(f, e)
            && x.fd == SetSlot(SetBit(f, e, false), e, None)
            && Waiting(f) == Waiting(x.fd) + multiset(x.submitted)
  {
  }

  lemma BothBalanced(f: Fd)
    requires SlotsAgree(f) && f.read && f.write
    ensures var x := Both(Trigger(f, Read), Write);
            && x.Effect? && x.ok && x.pending == -2 && x.added == [] && x.deleted == []
            && x.submitted == Occupant(f, Read) + Occupant(f, Write)
            && x.fd == f.(read := false, write := false, reader := None, writer := None)
            && Waiting(f) == Waiting(x.fd) + multiset(x.submitted)
  {
    TriggerBalanced(f, Read);
    TriggerBalanced(Trigger(f, Read).fd, Write);
  }

  lemma Rewatched(f: Fd, i: Interest)
    ensures Waiting(f.(interest := i)) == Waiting(f) && Bits(f.(interest := i)) == Bits(f)
  {
  }

  lemma DeliverBothBalanced(f: Fd, x: Effect)
    requires Consistent(f) && f.read && f.write && x == Both(Trigger(f.(interest := Unwatched), Read), Write)
    ensures Balanced(f, x) && x.Effect? && x.ok && x.submitted == Occupant(f, Read) + Occupant(f, Write)
  {
    BothBalanced(f.(interest := Unwatched));
    Rewatched(f, Unwatched);
    hide Waiting;
  }

  lemma DeliverOneBalanced(f: Fd, e: Event, x: Effect)
    requires Consistent(f) && Bit(f, e) && x == Trigger(f.(interest := Without(f, e)), e)
    ensures Balanced(f, x) && x.Effect? && x.ok && x.submitted == Occupant(f, e)
  {
    TriggerBalanced(f.(interest := Without(f, e)), e);
    Rewatched(f, Without(f, e));
    hide Waiting;
  }

  /** Delivery aborts exactly when something registered is reported together with something that is not, and
      otherwise keeps the agreement and submits exactly the waiters of what is reported. */
  lemma DeliverBalanced(f: Fd, readable: bool, writable: bool, broken: bool, ok: bool)
    requires Consistent(f)
    ensures var x := Deliver(f, readable, writable, broken, ok);
            var r, w := Real(f, Read, readable, writable, broken), Real(f, Write, readable, writable, broken);
            && Balanced(f, x)
            && (x.Abort? <==> ok && ((f.read && r && w && !f.write) || (f.write && w && r && !f.read)))
            && (x.Effect? && x.ok ==>
                  x.submitted == (if r then Occupant(f, Read) else []) + (if w then Occupant(f, Write) else []))
  {
    hide Waiting, Balanced, Real, Trigger, Occupant;
    var x := Deliver(f, readable, writable, broken, ok);
    var r, w := Real(f, Read, readable, writable, broken), Real(f, Write, readable, writable, broken);
    NothingBalanced(f);
    assert Balanced(f, Abort) by { AbortBalanced(f); }
    if ok && ((f.read && r) || (f.write && w)) && (r ==> f.read) && (w ==> f.write) {
      if r && w {
        DeliverBothBalanced(f, x);
      } else if r {
        DeliverOneBalanced(f, Read, x);
        assert Occupant(f, Read) + [] == Occupant(f, Read);
      } else {
        DeliverOneBalanced(f, Write, x);
        assert [] + Occupant(f, Write) == Occupant(f, Write);
      }
    }
  }

  // ---------------------------------------------------------------- descriptors that are lost

  /** Some event bit is set but the kernel does not watch the descriptor. */
  predicate Lost(f: Fd) { Any(f) && f.interest.Unwatched? }

  lemma DelAllLoses(f: Fd, ok: bool)
    requires Consistent(f) && DelAll(f, ok).ok
    ensures Lost(DelAll(f, ok).fd)
  {
  }

  /** Cancelling both events loses the descriptor, with the writer still waiting in it. */
  lemma CancelAllLoses(f: Fd, ok: bool)
    requires Consistent(f) && CancelAll(f, ok).ok && f.read && f.write
    ensures Lost(CancelAll(f, ok).fd) && CancelAll(f, ok).fd.writer == f.writer
    ensures CancelAll(f, ok).submitted == Occupant(f, Read)
  {
  }

  datatype FdOp =
    | AddOp(e: Event, w: Waiter, ok: bool) | DelOp(e: Event, ok: bool) | CancelOp(e: Event, ok: bool)
    | DelAllOp(ok: bool) | CancelAllOp(ok: bool)
    | DeliverOp(readable: bool, writable: bool, broken: bool, ok: bool)

  function Apply(f: Fd, op: FdOp): Effect {
    match op
    case AddOp(e, w, ok) => Add(f, e, w, ok)
    case DelOp(e, ok) => Del(f, e, ok)
    case CancelOp(e, ok) => Cancel(f, e, ok)
    case DelAllOp(ok) => DelAll(f, ok)
    case CancelAllOp(ok) => CancelAll(f, ok)
    case DeliverOp(readable, writable, broken, ok) => Deliver(f, readable, writable, broken, ok)
  }

  /** A lost descriptor stays exactly as it is: nothing can be added to it, no waiter in it is ever submitted
      or deleted, and adding an event whose bit is set aborts the process. */
  lemma LostForever(f: Fd, op: FdOp)
    requires Lost(f)
    ensures Apply(f, op) == if op.AddOp? && Bit(f, op.e) then Abort else Nothing(f)
  {
  }

  // ---------------------------------------------------------------- all descriptors

  datatype State = State(
    fds: seq<Fd>, pending: int, added: seq<Waiter>, submitted: seq<Waiter>, deleted: seq<Waiter>)

  datatype Outcome = Done(s: State, ok: bool) | Aborted

  function Blanks(n: nat): seq<Fd> { seq(n, _ => BLANK) }

  /** `contextResize(fd * 1.5)` when the descriptor is beyond the table. */
  function Resized(fds: seq<Fd>, fd: nat): seq<Fd> {
    if fd < |fds| then fds else fds + Blanks(if fd * 3 / 2 > |fds| then fd * 3 / 2 - |fds| else 0)
  }

  /** The table begins with 32 entries, so one and a half times a descriptor beyond it has room for that. */
  lemma ResizedHasRoom(fds: seq<Fd>, fd: nat)
    requires |fds| >= 2
    ensures fd < |Resized(fds, fd)| && |fds| <= |Resized(fds, fd)|
  {
  }

  /** One operation.  Only adding makes the table longer; the others refuse a descriptor beyond it. */
  function Step(s: State, fd: nat, op: FdOp): Outcome {
    var fds := if op.AddOp? then Resized(s.fds, fd) else s.fds;
    if fd >= |fds| then Done(s, false)
    else
      match Apply(fds[fd], op)
      case Abort => Aborted
      case Effect(f, ok, n, a, u, d) =>
        Done(State(fds[fd := f], s.pending + n, s.added + a, s.submitted + u, s.deleted + d), ok)
  }

  /** A descriptor is consistent, or lost with no slot occupied whose bit is clear. */
  predicate Sound(f: Fd) {
    || Consistent(f)
    || (Lost(f) && (f.reader.Some? ==> f.read) && (f.writer.Some? ==> f.write))
  }

  function Slots(f: Fd): nat { One(f.reader.Some?) + One(f.writer.Some?) }

  /** The step keeps a descriptor sound and accounts for every waiter. */
  predicate Accounts(f: Fd, x: Effect) {
    x.Effect? ==>
      && Sound(x.fd) && x.pending == Slots(x.fd) - Slots(f)
      && Waiting(f) + multiset(x.added) == Waiting(x.fd) + multiset(x.submitted) + multiset(x.deleted)
  }

  lemma BalancedAccounts(f: Fd, x: Effect)
    requires Consistent(f) && Balanced(f, x)
    ensures Accounts(f, x)
  {
    hide Waiting;
  }

  lemma NothingAccounts(f: Fd)
    requires Sound(f)
    ensures Accounts(f, Nothing(f)) && Accounts(f, Abort)
  {
    hide Waiting;
  }

  lemma DelAllAccounts(f: Fd, ok: bool)
    requires Consistent(f)
    ensures Accounts(f, DelAll(f, ok))
  {
    DelAllBreaks(f, ok);
  }

  lemma CancelAllAccounts(f: Fd, ok: bool)
    requires Consistent(f)
    ensures Accounts(f, CancelAll(f, ok))
  {
    if ok && Any(f) {
      var e := if f.read then Read else Write;
      TriggerBalanced(f, e);
      Rewatched(Trigger(f, e).fd, Unwatched);
    }
    hide Waiting;
  }

  /** No operation whatever loses count of a waiter. */
  lemma ApplyAccounts(f: Fd, op: FdOp)
    requires Sound(f)
    ensures Accounts(f, Apply(f, op))
  {
    hide Balanced, Consistent, Accounts;
    if Lost(f) {
      LostForever(f, op);
      NothingAccounts(f);
    } else {
      match op {
        case AddOp(e, w, ok) =>
          AddBalanced(f, e, w, ok);
          BalancedAccounts(f, Apply(f, op));
        case DelOp(e, ok) =>
          DelBalanced(f, e, ok);
          BalancedAccounts(f, Apply(f, op));
        case CancelOp(e, ok) =>
          CancelBalanced(f, e, ok);
          BalancedAccounts(f, Apply(f, op));
        case DelAllOp(ok) => DelAllAccounts(f, ok);
        case CancelAllOp(ok) => CancelAllAccounts(f, ok);
        case DeliverOp(readable, writable, broken, ok) =>
          DeliverBalanced(f, readable, writable, broken, ok);
          BalancedAccounts(f, Apply(f, op));
      }
    }
  }

  lemma NothingBalanced(f: Fd)
    requires Consistent(f)
    ensures Balanced(f, Nothing(f))
  {
  }

  lemma AbortBalanced(f: Fd)
    ensures Balanced(f, Abort)
  {
  }

  // ---------------------------------------------------------------- sums over the table

  function AllSlots(fds: seq<Fd>): nat
    decreases |fds|
  {
    if fds == [] then 0 else Slots(fds[0]) + AllSlots(fds[1..])
  }

  function AllWaiting(fds: seq<Fd>): multiset<Waiter>
    decreases |fds|
  {
    if fds == [] then multiset{} else Waiting(fds[0]) + AllWaiting(fds[1..])
  }

  /** The pending count is the number of occupied slots, and every waiter that was ever added has been
      submitted, has been deleted, or is waiting. */
  predicate Accounted(s: State) {
    && |s.fds| >= 2
    && (forall i :: 0 <= i < |s.fds| ==> Sound(s.fds[i]))
    && s.pending == AllSlots(s.fds)
    && multiset(s.added) == multiset(s.submitted) + multiset(s.deleted) + AllWaiting(s.fds)
  }

  /** And no descriptor is lost. */
  predicate Agreement(s: State) {
    Accounted(s) && forall i :: 0 <= i < |s.fds| ==> Consistent(s.fds[i])
  }

  const INITIAL := State(Blanks(32), 0, [], [], [])

  lemma {:induction false} BlanksEmpty(n: nat)
    ensures AllSlots(Blanks(n)) == 0 && AllWaiting(Blanks(n)) == multiset{}
  {
    if n > 0 {
      assert Blanks(n)[1..] == Blanks(n - 1);
      BlanksEmpty(n - 1);
    }
  }

  lemma NoWaiters(s: State)
    requires s.added == [] && s.submitted == [] && s.deleted == [] && AllWaiting(s.fds) == multiset{}
    ensures multiset(s.added) == multiset(s.submitted) + multiset(s.deleted) + AllWaiting(s.fds)
  {
    hide AllWaiting;
  }

  lemma BlankAgreement(n: nat)
    requires n >= 2
    ensures Agreement(State(Blanks(n), 0, [], [], []))
  {
    BlanksEmpty(n);
    BlanksConsistent(n);
    hide Blanks, Sound, Consistent, AllSlots, AllWaiting;
    NoWaiters(State(Blanks(n), 0, [], [], []));
  }

  lemma InitialAgreement()
    ensures Agreement(INITIAL)
  {
    hide Agreement, Blanks;
    BlankAgreement(32);
  }

  lemma BlanksConsistent(n: nat)
    ensures |Blanks(n)| == n
    ensures forall i :: 0 <= i < n ==> Consistent(Blanks(n)[i]) && Sound(Blanks(n)[i])
  {
    BlankConsistent();
    BlankSound();
    hide Consistent, Sound;
  }

  lemma {:induction false} SumsAppend(a: seq<Fd>, b: seq<Fd>)
    ensures AllSlots(a + b) == AllSlots(a) + AllSlots(b)
    ensures AllWaiting(a + b) == AllWaiting(a) + AllWaiting(b)
    decreases |a|
  {
    hide Slots, Waiting;
    if a == [] {
      assert a + b == b;
    } else {
      assert (a + b)[1..] == a[1..] + b;
      SumsAppend(a[1..], b);
    }
  }

  lemma {:induction false} SumsUpdate(fds: seq<Fd>, i: nat, f: Fd)
    requires i < |fds|
    ensures AllSlots(fds[i := f]) == AllSlots(fds) - Slots(fds[i]) + Slots(f)
    ensures AllWaiting(fds[i := f]) + Waiting(fds[i]) == AllWaiting(fds) + Waiting(f)
    decreases |fds|
  {
    hide Slots, Waiting;
    if i > 0 {
      assert fds[i := f][1..] == fds[1..][i - 1 := f];
      SumsUpdate(fds[1..], i - 1, f);
      var w, a, b := Waiting(fds[0]), AllWaiting(fds[1..][i - 1 := f]), Waiting(fds[i]);
      assert (w + a) + b == w + (a + b);
    } else {
      assert fds[i := f][1..] == fds[1..];
    }
  }

  lemma ResizedSums(fds: seq<Fd>, fd: nat)
    ensures AllSlots(Resized(fds, fd)) == AllSlots(fds) && AllWaiting(Resized(fds, fd)) == AllWaiting(fds)
    ensures fds <= Resized(fds, fd)
    ensures forall i :: |fds| <= i < |Resized(fds, fd)| ==> Resized(fds, fd)[i] == BLANK
  {
    if fd >= |fds| {
      var n := if fd * 3 / 2 > |fds| then fd * 3 / 2 - |fds| else 0;
      SumsAppend(fds, Blanks(n));
      BlanksEmpty(n);
    }
  }

  // ---------------------------------------------------------------- what every step keeps

  lemma AccountsFacts(f: Fd, x: Effect)
    requires Accounts(f, x) && x.Effect?
    ensures Sound(x.fd) && x.pending == Slots(x.fd) - Slots(f)
    ensures Waiting(f) + multiset(x.added) == Waiting(x.fd) + multiset(x.submitted) + multiset(x.deleted)
  {
  }

  /** Every operation keeps the account. */
  lemma StepAccounted(s: State, fd: nat, op: FdOp)
    requires Accounted(s) && Step(s, fd, op).Done?
    ensures Accounted(Step(s, fd, op).s)
  {
    hide Accounts, Sound, Apply, Slots, Waiting;
    var fds := if op.AddOp? then Resized(s.fds, fd) else s.fds;
    ResizedSums(s.fds, fd);
    ResizedHasRoom(s.fds, fd);
    assert Sound(BLANK) by { BlankSound(); }
    if fd < |fds| {
      ApplyAccounts(fds[fd], op);
      var x := Apply(fds[fd], op);
      AccountsFacts(fds[fd], x);
      SumsUpdate(fds, fd, x.fd);
      Account(s, Step(s, fd, op).s, fds[fd], x, AllWaiting(fds));
    }
  }

  predicate Conserved(s: State) {
    multiset(s.added) == multiset(s.submitted) + multiset(s.deleted) + AllWaiting(s.fds)
  }

  lemma Account(s: State, t: State, f: Fd, x: Effect, before: multiset<Waiter>)
    requires x.Effect? && Conserved(s) && before == AllWaiting(s.fds)
    requires t.added == s.added + x.added && t.submitted == s.submitted + x.submitted
    requires t.deleted == s.deleted + x.deleted
    requires Waiting(f) + multiset(x.added) == Waiting(x.fd) + multiset(x.submitted) + multiset(x.deleted)
    requires AllWaiting(t.fds) + Waiting(f) == before + Waiting(x.fd)
    ensures Conserved(t)
  {
    hide Waiting, AllWaiting;
    assert multiset(t.added) == multiset(s.added) + multiset(x.added);
    assert multiset(t.submitted) == multiset(s.submitted) + multiset(x.submitted);
    assert multiset(t.deleted) == multiset(s.deleted) + multiset(x.deleted);
    forall w ensures multiset(t.added)[w] == (multiset(t.submitted) + multiset(t.deleted) + AllWaiting(t.fds))[w] {
      assert (Waiting(f) + multiset(x.added))[w] == (Waiting(x.fd) + multiset(x.submitted) + multiset(x.deleted))[w];
      assert (AllWaiting(t.fds) + Waiting(f))[w] == (before + Waiting(x.fd))[w];
    }
  }

  /** Does the operation leave the descriptor registered as its bits say?  All do but a successful `delAll` and
      a successful `cancelAll` of two events. */
  predicate Harmless(f: Fd, op: FdOp) {
    match op
    case DelAllOp(ok) => !(Any(f) && ok)
    case CancelAllOp(ok) => !(ok && f.read && f.write)
    case _ => true
  }

  lemma ApplyConsistent(f: Fd, op: FdOp)
    requires Consistent(f) && Apply(f, op).Effect?
    ensures Consistent(Apply(f, op).fd) <==> Harmless(f, op)
    ensures !Harmless(f, op) ==> Lost(Apply(f, op).fd)
  {
    hide Waiting;
    match op {
      case AddOp(e, w, ok) => AddBalanced(f, e, w, ok);
      case DelOp(e, ok) => DelBalanced(f, e, ok);
      case CancelOp(e, ok) => CancelBalanced(f, e, ok);
      case DelAllOp(ok) => DelAllBreaks(f, ok);
      case CancelAllOp(ok) => CancelAllBreaks(f, ok);
      case DeliverOp(readable, writable, broken, ok) =>
        DeliverBalanced(f, readable, writable, broken, ok);
        hide Deliver;
    }
  }

  /** The descriptor an operation works on. */
  function Target(s: State, fd: nat, op: FdOp): Fd {
    var fds := if op.AddOp? then Resized(s.fds, fd) else s.fds;
    if fd < |fds| then fds[fd] else BLANK
  }

  /** Event bits, occupied slots and the kernel's interest stay the same for every descriptor if and only if the
      operation is harmless. */
  lemma StepAgreement(s: State, fd: nat, op: FdOp)
    requires Agreement(s) && Step(s, fd, op).Done?
    ensures Agreement(Step(s, fd, op).s) <==> Harmless(Target(s, fd, op), op)
  {
    hide Consistent, Apply, Accounted, Harmless;
    StepAccounted(s, fd, op);
    var fds := if op.AddOp? then Resized(s.fds, fd) else s.fds;
    ResizedSums(s.fds, fd);
    assert Consistent(BLANK) by { BlankConsistent(); }
    if fd < |fds| {
      ApplyConsistent(fds[fd], op);
      assert Step(s, fd, op).s.fds[fd] == Apply(fds[fd], op).fd;
    } else {
      assert Harmless(BLANK, op) by { BlankHarmless(op); }
    }
  }

  lemma BlankSound()
    ensures Sound(BLANK)
  {
  }

  lemma BlankHarmless(op: FdOp)
    ensures Harmless(BLANK, op)
  {
  }

  // ---------------------------------------------------------------- whole runs

  datatype Act = Act(fd: nat, op: FdOp)

  /** A run, until an assertion fails. */
  function Run(s: State, acts: seq<Act>): Outcome
    decreases |acts|
  {
    if acts == [] then Done(s, true)
    else
      match Step(s, acts[0].fd, acts[0].op)
      case Aborted => Aborted
      case Done(t, _) => Run(t, acts[1..])
  }

  lemma {:induction false} RunAccounted(s: State, acts: seq<Act>)
    requires Accounted(s) && Run(s, acts).Done?
    ensures Accounted(Run(s, acts).s)
    decreases |acts|
  {
    hide Accounted, Step;
    if acts != [] {
      StepAccounted(s, acts[0].fd, acts[0].op);
      RunAccounted(Step(s, acts[0].fd, acts[0].op).s, acts[1..]);
    }
  }

  predicate AllHarmless(s: State, acts: seq<Act>)
    decreases |acts|
  {
    acts == []
    || (Harmless(Target(s, acts[0].fd, acts[0].op), acts[0].op)
        && (Step(s, acts[0].fd, acts[0].op).Done? ==> AllHarmless(Step(s, acts[0].fd, acts[0].op).s, acts[1..])))
  }

  lemma {:induction false} RunAgreement(s: State, acts: seq<Act>)
    requires Agreement(s) && AllHarmless(s, acts) && Run(s, acts).Done?
    ensures Agreement(Run(s, acts).s)
    decreases |acts|
  {
    hide Agreement, Step, Harmless, Target;
    if acts != [] {
      StepAgreement(s, acts[0].fd, acts[0].op);
      RunAgreement(Step(s, acts[0].fd, acts[0].op).s, acts[1..]);
    }
  }

  /** A waiter that is added once is submitted at most once, and not both submitted and deleted, in every run. */
  lemma SubmittedOnce(acts: seq<Act>, w: Waiter)
    requires Run(INITIAL, acts).Done? && multiset(Run(INITIAL, acts).s.added)[w] <= 1
    ensures var t := Run(INITIAL, acts).s; multiset(t.submitted)[w] + multiset(t.deleted)[w] <= 1
  {
    hide Run, AllWaiting;
    InitialAgreement();
    RunAccounted(INITIAL, acts);
  }

  /** A descriptor that is lost stays lost, with the waiter that may be in it, through every run. */
  lemma {:induction false} LostInRuns(s: State, acts: seq<Act>, fd: nat)
    requires fd < |s.fds| && Lost(s.fds[fd]) && Run(s, acts).Done?
    ensures fd < |Run(s, acts).s.fds| && Run(s, acts).s.fds[fd] == s.fds[fd]
    decreases |acts|
  {
    hide Lost, Apply;
    if acts != [] {
      var a := acts[0];
      ResizedSums(s.fds, a.fd);
      if a.fd == fd {
        LostForever(s.fds[fd], a.op);
      }
      LostInRuns(Step(s, a.fd, a.op).s, acts[1..], fd);
    }
  }

  lemma {:induction false} SlotCounts(fds: seq<Fd>, i: nat)
    requires i < |fds|
    ensures AllSlots(fds) >= Slots(fds[i])
    decreases |fds|
  {
    hide Slots;
    if i > 0 {
      SlotCounts(fds[1..], i - 1);
    }
  }

  lemma CancelAllLeaves(s: State, fd: nat)
    requires Agreement(s) && fd < |s.fds| && s.fds[fd].read && s.fds[fd].write
    requires Step(s, fd, CancelAllOp(true)).Done?
    ensures var u := Step(s, fd, CancelAllOp(true)).s;
            && Accounted(s) && Accounted(u) && fd < |u.fds| && Lost(u.fds[fd])
            && u.fds[fd].writer == s.fds[fd].writer && s.fds[fd].writer.Some?
  {
    hide AllSlots, AllWaiting, Sound;
    StepAccounted(s, fd, CancelAllOp(true));
    CancelAllLoses(s.fds[fd], true);
  }

  /** After a `cancelAll` of two events the writer is never submitted, and the pending count never comes down
      to nought, so that the manager can never stop. */
  lemma CancelAllStuck(s: State, fd: nat, acts: seq<Act>)
    requires Agreement(s) && fd < |s.fds| && s.fds[fd].read && s.fds[fd].write
    requires Step(s, fd, CancelAllOp(true)).Done?
    requires Run(Step(s, fd, CancelAllOp(true)).s, acts).Done?
    ensures var t := Run(Step(s, fd, CancelAllOp(true)).s, acts).s;
            fd < |t.fds| && t.fds[fd].writer == s.fds[fd].writer && t.fds[fd].writer.Some? && t.pending > 0
  {
    hide *;
    var u := Step(s, fd, CancelAllOp(true)).s;
    CancelAllLeaves(s, fd);
    RunAccounted(u, acts);
    LostInRuns(u, acts, fd);
    var t := Run(u, acts).s;
    SlotCounts(t.fds, fd);
    PendingIs(t, fd);
  }

  lemma PendingIs(t: State, fd: nat)
    requires Accounted(t) && fd < |t.fds| && t.fds[fd].writer.Some? && AllSlots(t.fds) >= Slots(t.fds[fd])
    ensures t.pending > 0
  {
    hide AllSlots, AllWaiting, Sound;
  }

  /** After a successful `delAll` nothing can be added to the descriptor any more: the same event aborts, and
      the other is refused. */
  lemma DelAllStuck(s: State, fd: nat, acts: seq<Act>, e: Event, w: Waiter, ok: bool)
    requires Agreement(s) && fd < |s.fds| && Any(s.fds[fd])
    requires Step(s, fd, DelAllOp(true)).Done?
    requires Run(Step(s, fd, DelAllOp(true)).s, acts).Done?
    ensures var t := Run(Step(s, fd, DelAllOp(true)).s, acts).s;
            var x := Step(t, fd, AddOp(e, w, ok));
            if Bit(s.fds[fd], e) then x.Aborted? else x == Done(t, false)
  {
    var u := Step(s, fd, DelAllOp(true)).s;
    DelAllLoses(s.fds[fd], true);
    LostInRuns(u, acts, fd);
    var t := Run(u, acts).s;
    LostForever(t.fds[fd], AddOp(e, w, ok));
    assert u.fds[fd].read == s.fds[fd].read && u.fds[fd].write == s.fds[fd].write;
    hide Run, Add;
  }

  // ---------------------------------------------------------------- the manager as an object

  datatype Return = Returned(ok: bool) | AssertionFailed

  class IoManager {
    var fds: seq<Fd>
    var pending: int
    ghost var added: seq<Waiter>
    var submitted: seq<Waiter>
    ghost var deleted: seq<Waiter>

    ghost function View(): State
      reads this
    {
      State(fds, pending, added, submitted, deleted)
    }

    /** What a method returns and leaves is what the step says; after a failed assertion nothing matters. */
    ghost predicate Does(x: Outcome, r: Return)
      reads this
    {
      match x
      case Aborted => r.AssertionFailed?
      case Done(s, ok) => r == Returned(ok) && View() == s
    }

    constructor ()
      ensures View() == INITIAL
    {
      fds, pending, added, submitted, deleted := Blanks(32), 0, [], [], [];
    }

    method EpollCtl(fd: nat, op: CtlOp, read: bool, write: bool, ok: bool) returns (done: bool)
      requires fd < |fds|
      modifies this`fds
      ensures done == Accepts(old(fds)[fd], op, ok)
      ensures fds == if done then
                       old(fds)[fd := old(fds)[fd].(interest := if op.CtlDel? then Unwatched else Watched(read, write))]
                     else old(fds)
    {
      done := ok && (op.CtlAdd? <==> fds[fd].interest.Unwatched?);
      if done {
        fds := fds[fd := fds[fd].(interest := if op.CtlDel? then Unwatched else Watched(read, write))];
      }
    }

    method TriggerContext(fd: nat, e: Event) returns (ok: bool)
      requires fd < |fds|
      modifies this`fds, this`submitted
      ensures ok == Bit(old(fds)[fd], e)
      ensures ok ==> fds == old(fds)[fd := Trigger(old(fds)[fd], e).fd]
                     && submitted == old(submitted) + Trigger(old(fds)[fd], e).submitted
    {
      if !Bit(fds[fd], e) {
        return false;
      }
      var w := Slot(fds[fd], e);
      fds := fds[fd := SetSlot(SetBit(fds[fd], e, false), e, None)];
      submitted := submitted + (if w.Some? then [w.value] else []);
      return true;
    }

    method AddEvent(fd: nat, e: Event, w: Waiter, ok: bool) returns (r: Return)
      requires Accounted(View())
      modifies this
      ensures Does(Step(old(View()), fd, AddOp(e, w, ok)), r)
    {
      ResizedHasRoom(fds, fd);
      NoChange();
      hide Accounted, Resized;
      ResizedSame(fds, fd);
      if |fds| <= fd {
        fds := Resized(fds, fd);
      }
      r := AddTo(fd, e, w, ok);
    }

    lemma ResizedSame(fds: seq<Fd>, fd: nat)
      ensures fd < |fds| ==> Resized(fds, fd) == fds
    {
    }

    /** The rest of `addEvent`, when the table has room for the descriptor. */
    method AddTo(fd: nat, e: Event, w: Waiter, ok: bool) returns (r: Return)
      requires fd < |fds|
      modifies this
      ensures match Add(old(fds)[fd], e, w, ok)
              case Abort => r == AssertionFailed
              case Effect(f, done, n, a, u, d) =>
                && r == Returned(done)
                && View() == State(old(fds)[fd := f], old(pending) + n, old(added) + a, old(submitted) + u,
                     old(deleted) + d)
    {
      NoChange();
      if Bit(fds[fd], e) {
        return AssertionFailed;
      }
      var g := SetBit(fds[fd], e, true);
      var done := EpollCtl(fd, if Any(fds[fd]) then CtlMod else CtlAdd, g.read, g.write, ok);
      if !done {
        return Returned(false);
      }
      pending := pending + 1;
      fds := fds[fd := SetBit(fds[fd], e, true)];
      if Slot(fds[fd], e).Some? {
        return AssertionFailed;
      }
      fds := fds[fd := SetSlot(fds[fd], e, Some(w))];
      added := added + [w];
      return Returned(true);
    }

    method DelEvent(fd: nat, e: Event, ok: bool) returns (r: Return)
      modifies this
      ensures Does(Step(old(View()), fd, DelOp(e, ok)), r)
    {
      NoChange();
      if fd >= |fds| || !Bit(fds[fd], e) {
        return Returned(false);
      }
      var left := SetBit(fds[fd], e, false);
      ghost var w := Occupant(fds[fd], e);
      var done := EpollCtl(fd, if Any(left) then CtlMod else CtlDel, left.read, left.write, ok);
      if !done {
        return Returned(false);
      }
      pending := pending - 1;
      fds := fds[fd := SetBit(fds[fd], e, false)];
      fds := fds[fd := SetSlot(fds[fd], e, None)];
      deleted := deleted + w;
      return Returned(true);
    }

    lemma NoChange()
      ensures forall fd :: 0 <= fd < |fds| ==> fds[fd := fds[fd]] == fds
      ensures added + [] == added && submitted + [] == submitted && deleted + [] == deleted
    {
    }

    method DelAllEvents(fd: nat, ok: bool) returns (r: Return)
      modifies this
      ensures Does(Step(old(View()), fd, DelAllOp(ok)), r)
    {
      NoChange();
      if fd >= |fds| || !Any(fds[fd]) {
        return Returned(false);
      }
      var done := EpollCtl(fd, CtlDel, false, false, ok);
      if !done {
        return Returned(false);
      }
      ghost var f := fds[fd];
      if fds[fd].read {
        pending := pending - 1;
        deleted := deleted + Occupant(fds[fd], Read);
        fds := fds[fd := SetSlot(fds[fd], Read, None)];
      }
      if fds[fd].write {
        pending := pending - 1;
        deleted := deleted + Occupant(fds[fd], Write);
        fds := fds[fd := SetSlot(fds[fd], Write, None)];
      }
      assert deleted == old(deleted) + (Cleared(f, Read) + Cleared(Clear(f, Read), Write));
      return Returned(true);
    }

    method CancelEvent(fd: nat, e: Event, ok: bool) returns (r: Return)
      modifies this
      ensures Does(Step(old(View()), fd, CancelOp(e, ok)), r)
    {
      NoChange();
      if fd >= |fds| || !Bit(fds[fd], e) {
        return Returned(false);
      }
      var left := SetBit(fds[fd], e, false);
      var done := EpollCtl(fd, if Any(left) then CtlMod else CtlDel, left.read, left.write, ok);
      if !done {
        return Returned(false);
      }
      var triggered := TriggerContext(fd, e);
      pending := pending - 1;
      return Returned(true);
    }

    method CancelAllEvents(fd: nat, ok: bool) returns (r: Return)
      modifies this
      ensures Does(Step(old(View()), fd, CancelAllOp(ok)), r)
    {
      NoChange();
      if fd >= |fds| || !Any(fds[fd]) {
        return Returned(false);
      }
      var done := EpollCtl(fd, CtlDel, false, false, ok);
      if !done {
        return Returned(false);
      }
      if fds[fd].read {
        var triggered := TriggerContext(fd, Read);
        pending := pending - 1;
      } else if fds[fd].write {
        var triggered := TriggerContext(fd, Write);
        pending := pending - 1;
      }
      return Returned(true);
    }

    /** One turn of the loop over what `epoll_wait` has reported. */
    method DeliverEvent(fd: nat, readable: bool, writable: bool, broken: bool, ok: bool) returns (r: Return)
      requires fd < |fds|
      modifies this
      ensures Does(Step(old(View()), fd, DeliverOp(readable, writable, broken, ok)), r)
    {
      NoChange();
      var f := fds[fd];
      var read, write := readable, writable;
      if broken {
        read, write := read || f.read, write || f.write;
      }
      if !(f.read && read) && !(f.write && write) {
        return Returned(false);
      }
      var leftRead, leftWrite := f.read && !read, f.write && !write;
      var done := EpollCtl(fd, if leftRead || leftWrite then CtlMod else CtlDel, leftRead, leftWrite, ok);
      if !done {
        return Returned(false);
      }
      r := TriggerBoth(fd, read, write);
    }

    method TriggerBoth(fd: nat, read: bool, write: bool) returns (r: Return)
      requires fd < |fds| && (read || write)
      modifies this`fds, this`submitted, this`pending
      ensures r.AssertionFailed? <==> (read && !old(fds)[fd].read) || (write && !old(fds)[fd].write)
      ensures !r.AssertionFailed? ==>
                var x := if read && write then Both(Trigger(old(fds)[fd], Read), Write)
                         else Trigger(old(fds)[fd], if read then Read else Write);
                && r == Returned(true) && x.Effect? && fds == old(fds)[fd := x.fd]
                && pending == old(pending) + x.pending && submitted == old(submitted) + x.submitted
                && x.added == [] && x.deleted == [] && x.ok
    {
      if read {
        var triggered := TriggerContext(fd, Read);
        if !triggered {
          return AssertionFailed;
        }
        pending := pending - 1;
      }
      if write {
        var triggered := TriggerContext(fd, Write);
        if !triggered {
          return AssertionFailed;
        }
        pending := pending - 1;
      }
      return Returned(true);
    }
  }
}
