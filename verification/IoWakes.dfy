/** Which waiters the operations wake, and which they drop. */
module IoWakes {
  import opened Options
  import opened IoManagers

  /** The waiter of an event, if the event is registered. */
  function Registered(f: Fd, e: Event): seq<Waiter> {
    if e.Read? then (if f.read && f.reader.Some? then [f.reader.value] else [])
    else if f.write && f.writer.Some? then [f.writer.value] else []
  }

  /** Adding registers its waiter and wakes nobody; deleting wakes nobody and drops exactly the waiters of what was
      registered; cancelling and delivering drop nobody. */
  lemma OpWakes(f: Fd, op: FdOp)
    requires Apply(f, op).Effect?
    ensures var x := Apply(f, op);
            && (op.AddOp? ==> x.submitted == [] && x.deleted == [] && x.added == (if x.ok then [op.w] else []))
            && (!op.AddOp? ==> x.added == [])
            && (op.DelOp? || op.DelAllOp? ==> x.submitted == [])
            && (op.CancelOp? || op.CancelAllOp? || op.DeliverOp? ==> x.deleted == [])
            && (op.DelOp? && x.ok ==> x.deleted == Registered(f, op.e))
            && (op.DelAllOp? && x.ok ==> x.deleted == Registered(f, Read) + Registered(f, Write))
            && (op.CancelOp? && x.ok ==> x.submitted == Registered(f, op.e))
            && (op.CancelAllOp? && x.ok ==> x.submitted == Registered(f, if f.read then Read else Write))
            && (!x.ok ==> x.submitted == [] && x.deleted == [] && x.fd == f)
  {
  }

  /** What a report of `epoll_wait` wakes, in the terms of the report: the reader when the descriptor is readable or
      broken, and the writer when it is writable or broken, as far as they are registered.  It aborts exactly when
      one of the two is woken while the other is reported by name and not registered. */
  lemma DeliverWakes(f: Fd, readable: bool, writable: bool, broken: bool, ok: bool)
    requires Consistent(f)
    ensures var x := Deliver(f, readable, writable, broken, ok);
            var toRead, toWrite := f.read && (readable || broken), f.write && (writable || broken);
            && (x.Abort? <==> ok && ((toRead && writable && !f.write) || (toWrite && readable && !f.read)))
            && (x.Effect? ==>
                  && (x.ok <==> ok && (toRead || toWrite))
                  && x.deleted == []
                  && x.submitted == (if x.ok && toRead then Registered(f, Read) else [])
                                    + (if x.ok && toWrite then Registered(f, Write) else [])
                  && x.fd.read == (f.read && !(x.ok && toRead)) && x.fd.write == (f.write && !(x.ok && toWrite))
                  && x.fd.reader == (if x.fd.read then f.reader else None)
                  && x.fd.writer == (if x.fd.write then f.writer else None))
  {
  }

  /** Adding leaves the event registered with its waiter, and the other one as it was; deleting and cancelling one
      event leave just that one unregistered. */
  lemma OneEvent(f: Fd, op: FdOp)
    requires Consistent(f) && Apply(f, op).Effect? && Apply(f, op).ok && (op.AddOp? || op.DelOp? || op.CancelOp?)
    ensures var x, other := Apply(f, op).fd, if op.e.Read? then Write else Read;
            && Consistent(x) && Bit(x, other) == Bit(f, other) && Slot(x, other) == Slot(f, other)
            && (if op.AddOp? then !Bit(f, op.e) && Bit(x, op.e) && Slot(x, op.e) == Some(op.w)
                else Bit(f, op.e) && !Bit(x, op.e) && Slot(x, op.e) == None)
  {
  }

  // ---------------------------------------------------------------- runs

  /** What one step adds to the records. */
  lemma StepWakes(s: State, a: Act)
    requires Step(s, a.fd, a.op).Done?
    ensures var t := Step(s, a.fd, a.op).s;
            && s.submitted <= t.submitted && s.deleted <= t.deleted && s.added <= t.added
            && (a.op.AddOp? || a.op.DelOp? || a.op.DelAllOp? ==> t.submitted == s.submitted)
            && (!a.op.DelOp? && !a.op.DelAllOp? ==> t.deleted == s.deleted)
            && (!a.op.AddOp? ==> t.added == s.added)
  {
    hide Apply;
    var fds := if a.op.AddOp? then Resized(s.fds, a.fd) else s.fds;
    if a.fd < |fds| {
      OpWakes(fds[a.fd], a.op);
    }
  }

  predicate OnlyAddsAndDeletes(acts: seq<Act>) {
    forall i :: 0 <= i < |acts| ==> acts[i].op.AddOp? || acts[i].op.DelOp? || acts[i].op.DelAllOp?
  }

  predicate NoDeletes(acts: seq<Act>) {
    forall i :: 0 <= i < |acts| ==> !acts[i].op.DelOp? && !acts[i].op.DelAllOp?
  }

  /** What was submitted or deleted stays recorded; without cancelling and delivery nobody is woken, and without
      deleting nobody is dropped. */
  lemma {:induction false} RunWakes(s: State, acts: seq<Act>)
    requires Run(s, acts).Done?
    ensures var t := Run(s, acts).s;
            && s.submitted <= t.submitted && s.deleted <= t.deleted && s.added <= t.added
            && (OnlyAddsAndDeletes(acts) ==> t.submitted == s.submitted)
            && (NoDeletes(acts) ==> t.deleted == s.deleted)
    decreases |acts|
  {
    hide Step;
    if acts != [] {
      StepWakes(s, acts[0]);
      RunWakes(Step(s, acts[0].fd, acts[0].op).s, acts[1..]);
    }
  }

  lemma {:induction false} RunsOn(s: State, a: seq<Act>, b: seq<Act>)
    requires Run(s, a).Done?
    ensures Run(s, a + b).Aborted? <==> Run(Run(s, a).s, b).Aborted?
    ensures Run(s, a + b).Done? ==> Run(s, a + b).s == Run(Run(s, a).s, b).s
    decreases |a|
  {
    hide Step;
    if a == [] {
      assert a + b == b;
    } else {
      assert (a + b)[0] == a[0] && (a + b)[1..] == a[1..] + b;
      RunsOn(Step(s, a[0].fd, a[0].op).s, a[1..], b);
    }
  }

  /** A waiter that is added once and whose registration is ended by a delete is never woken, whatever came before
      and whatever follows. */
  lemma DeletedNeverWoken(before: seq<Act>, a: Act, more: seq<Act>, w: Waiter)
    requires a.op.DelOp? || a.op.DelAllOp?
    requires Run(INITIAL, before).Done? && Step(Run(INITIAL, before).s, a.fd, a.op).Done?
    requires a.fd < |Run(INITIAL, before).s.fds| && Step(Run(INITIAL, before).s, a.fd, a.op).ok
    requires var f := Run(INITIAL, before).s.fds[a.fd];
             w in (if a.op.DelOp? then Registered(f, a.op.e) else Registered(f, Read) + Registered(f, Write))
    requires Run(INITIAL, before + [a] + more).Done?
    requires multiset(Run(INITIAL, before + [a] + more).s.added)[w] <= 1
    ensures w in Run(INITIAL, before + [a] + more).s.deleted && w !in Run(INITIAL, before + [a] + more).s.submitted
  {
    var s := Run(INITIAL, before).s;
    var u := Step(s, a.fd, a.op).s;
    OpWakes(s.fds[a.fd], a.op);
    assert w in u.deleted;
    hide Step, Registered, Apply, INITIAL;
    assert before + [a] + more == before + ([a] + more);
    RunsOn(INITIAL, before, [a] + more);
    assert ([a] + more)[1..] == more;
    RunWakes(u, more);
    var t := Run(INITIAL, before + [a] + more).s;
    assert t == Run(u, more).s;
    assert w in t.deleted by { InPrefix(u.deleted, t.deleted, w); }
    SubmittedOnce(before + [a] + more, w);
  }

  lemma InPrefix(a: seq<Waiter>, b: seq<Waiter>, w: Waiter)
    requires a <= b && w in a
    ensures w in b
  {
    var i :| 0 <= i < |a| && a[i] == w;
    assert b[i] == w;
  }

  /** One whose registration is ended by cancelling its event has been woken. */
  lemma CancelledIsWoken(s: State, fd: nat, e: Event, ok: bool, more: seq<Act>, w: Waiter)
    requires fd < |s.fds| && w in Registered(s.fds[fd], e)
    requires Step(s, fd, CancelOp(e, ok)).Done? && Step(s, fd, CancelOp(e, ok)).ok
    requires Run(Step(s, fd, CancelOp(e, ok)).s, more).Done?
    ensures w in Run(Step(s, fd, CancelOp(e, ok)).s, more).s.submitted
  {
    OpWakes(s.fds[fd], CancelOp(e, ok));
    var u := Step(s, fd, CancelOp(e, ok)).s;
    assert w in u.submitted;
    RunWakes(u, more);
    InPrefix(u.submitted, Run(u, more).s.submitted, w);
  }
}
