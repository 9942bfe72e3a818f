/** Whole runs of the byte machine: a run over a concatenation is the two runs one after the other, every
    run keeps the invariant, and the log of callbacks is a rendering of the acts. */
module HttpRun {
  import opened HttpSyntax
  import opened HttpMachine
  import opened HttpInvariant

  // ---------------------------------------------------------------- one byte, then many

  function Prepend(acts: seq<Act>, out: Out): Out {
    match out
    case Next(q, more) => Next(q, acts + more)
    case Again(q, more) => Again(q, acts + more)
    case Halt(q, more) => Halt(q, acts + more)
    case Fail(e) => Fail(e)
    case Broken => Broken
  }

  /** The switch, repeated on the same byte for as long as it asks for that.  An edge that does not lower
      the rank would loop for ever; `LoopSound` shows that there is none. */
  function Loop(p: Parser, ch: Byte): (out: Out)
    ensures !out.Again?
    decreases Rank(p.state)
  {
    match Micro(p, ch)
    case Again(q, acts) => if Rank(q.state) < Rank(p.state) then Prepend(acts, Loop(q, ch)) else Broken
    case Next(q, acts) => Next(q, acts)
    case Halt(q, acts) => Halt(q, acts)
    case Fail(e) => Fail(e)
    case Broken => Broken
  }

  /** Counting a byte of the header section against the limit. */
  function Count(p: Parser): Parser {
    if ParsingHeader(p.state) then p.(nread := p.nread + 1) else p
  }

  /** One byte, with at most `limit` bytes allowed in a header section. */
  function Step(limit: nat, p: Parser, ch: Byte): (out: Out)
    ensures !out.Again?
  {
    if Count(p).nread > limit && ParsingHeader(p.state) then Fail(HeaderOverflow) else Loop(Count(p), ch)
  }

  /** A byte that the switch deals with at once. */
  lemma StepOnce(limit: nat, p: Parser, ch: Byte)
    requires Count(p).nread <= limit || !ParsingHeader(p.state)
    requires !Micro(Count(p), ch).Again?
    ensures Step(limit, p, ch) == Micro(Count(p), ch)
  {
    hide Micro, Count, ParsingHeader, Rank;
  }

  lemma Overflows(limit: nat, p: Parser, ch: Byte)
    requires p.nread + 1 > limit && ParsingHeader(p.state)
    ensures Step(limit, p, ch) == Fail(HeaderOverflow)
  {
    hide Loop;
  }

  /** A byte that the switch looks at again. */
  lemma LoopAgain(p: Parser, ch: Byte, q: Parser, acts: seq<Act>)
    requires Micro(p, ch) == Again(q, acts) && Rank(q.state) < Rank(p.state)
    ensures Loop(p, ch) == Prepend(acts, Loop(q, ch))
  {
    hide Micro, Rank, Prepend;
  }

  lemma LoopOnce(p: Parser, ch: Byte)
    requires !Micro(p, ch).Again?
    ensures Loop(p, ch) == Micro(p, ch)
  {
    hide Micro, Rank;
  }

  /** In a header the switch is the switch over the places in a header. */
  lemma HeaderMicro(p: Parser, at: HeaderPos, ch: Byte)
    requires p.state == Header(at)
    ensures Micro(p, ch) == StepHeader(p, at, ch)
  {
    hide StepHeader;
  }

  datatype Outcome =
    | Done(p: Parser, acts: seq<Act>)
    | Stopped(p: Parser, acts: seq<Act>, used: nat)
    | Failed(errno: Errno)
    | Crashed

  function Run(limit: nat, p: Parser, data: Bytes): Outcome
    decreases |data|
  {
    if data == [] then Done(p, [])
    else
      match Step(limit, p, data[0])
      case Next(q, acts) => Continue(acts, 1, Run(limit, q, data[1..]))
      case Halt(q, acts) => Stopped(q, acts, 1)
      case Fail(e) => Failed(e)
      case _ => Crashed
  }

  function Continue(acts: seq<Act>, used: nat, rest: Outcome): Outcome {
    match rest
    case Done(p, more) => Done(p, acts + more)
    case Stopped(p, more, n) => Stopped(p, acts + more, used + n)
    case Failed(e) => Failed(e)
    case Crashed => Crashed
  }

  /** A run that is cut in two at any point is the first part and then, if it got through, the second. */
  lemma {:induction false} RunAppend(limit: nat, p: Parser, a: Bytes, b: Bytes)
    ensures Run(limit, p, a + b) ==
            match Run(limit, p, a)
            case Done(q, acts) => Continue(acts, |a|, Run(limit, q, b))
            case other => other
    decreases |a|
  {
    hide Step;
    if a == [] {
      assert a + b == b;
      ContinueNone(Run(limit, p, b));
    } else {
      assert (a + b)[0] == a[0] && (a + b)[1..] == a[1..] + b;
      var out := Step(limit, p, a[0]);
      if out.Next? {
        RunAppend(limit, out.p, a[1..], b);
        var first := Run(limit, out.p, a[1..]);
        if first.Done? {
          ContinueTwice(out.acts, 1, first.acts, |a| - 1, Run(limit, first.p, b));
        }
      }
    }
  }

  lemma ContinueNone(rest: Outcome)
    ensures Continue([], 0, rest) == rest
  {
    if rest.Done? || rest.Stopped? {
      assert [] + rest.acts == rest.acts;
    }
  }

  lemma ContinueTwice(a: seq<Act>, m: nat, b: seq<Act>, n: nat, rest: Outcome)
    ensures Continue(a, m, Continue(b, n, rest)) == Continue(a + b, m + n, rest)
  {
    if rest.Done? || rest.Stopped? {
      assert a + (b + rest.acts) == (a + b) + rest.acts;
    }
  }

  lemma RunOne(limit: nat, p: Parser, ch: Byte)
    ensures Run(limit, p, [ch]) ==
            match Step(limit, p, ch)
            case Next(q, acts) => Done(q, acts)
            case Halt(q, acts) => Stopped(q, acts, 1)
            case Fail(e) => Failed(e)
            case _ => Crashed
  {
    hide Step;
    assert [ch][1..] == [];
    var out := Step(limit, p, ch);
    if out.Next? {
      assert Run(limit, out.p, []) == Done(out.p, []);
      assert out.acts + [] == out.acts;
    }
  }

  // ---------------------------------------------------------------- soundness of runs

  /** The states a parser can be in between two bytes. */
  predicate Resting(p: Parser) { Inv(p) && p.state != Header(HeadersDone) }

  predicate LoopOk(p: Parser, m: Mark, out: Out) {
    match out
    case Next(q, acts) => Resting(q) && q.nread <= p.nread && LegalAll(m, acts) && Allowed(q.state, AfterAll(m, acts))
    case Halt(q, acts) =>
      BetweenMessages(q.state) && Inv(q) && q.nread <= p.nread && LegalAll(m, acts)
          && Allowed(q.state, AfterAll(m, acts))
    case Fail(_) => true
    case _ => false
  }

  /** No byte makes the switch loop, and none violates an assertion. */
  lemma {:induction false} LoopSound(p: Parser, ch: Byte, m: Mark)
    requires Counted(p) && Allowed(p.state, m)
    ensures LoopOk(p, m, Loop(p, ch))
    decreases Rank(p.state)
  {
    hide Inv, Micro, Allowed, Reports, LegalAll, AfterAll, Rank;
    MicroSound(p, ch, m);
    var out := Micro(p, ch);
    if out.Next? || out.Halt? || out.Again? {
      ReportsLegal(m, out.acts, out.p.state);
      if out.Again? {
        var m1 := AfterAll(m, out.acts);
        LoopSound(out.p, ch, m1);
        var rest := Loop(out.p, ch);
        if rest.Next? || rest.Halt? {
          LegalAppend(m, out.acts, rest.acts);
        }
      }
    }
  }

  lemma StepSound(limit: nat, p: Parser, ch: Byte, m: Mark)
    requires Inv(p) && Allowed(p.state, m)
    ensures LoopOk(Count(p), m, Step(limit, p, ch))
    ensures Step(limit, p, ch).Next? ==> Step(limit, p, ch).p.nread <= if p.nread < limit then limit else p.nread
  {
    hide Loop, LegalAll, AfterAll, Allowed;
    CountKeeps(p);
    LoopSound(Count(p), ch, m);
    FailOk(Count(p), m, HeaderOverflow);
  }

  lemma FailOk(p: Parser, m: Mark, e: Errno)
    ensures LoopOk(p, m, Fail(e))
  {
  }

  lemma CountKeeps(p: Parser)
    requires Inv(p)
    ensures Counted(Count(p)) && Count(p).state == p.state
  {
  }

  /** Every run from a good state ends in a good state or an error, and reports legally all along. */
  lemma {:induction false} RunSound(limit: nat, p: Parser, data: Bytes, m: Mark)
    requires Resting(p) && Allowed(p.state, m)
    ensures !Run(limit, p, data).Crashed?
    ensures var r := Run(limit, p, data);
            r.Done? || r.Stopped? ==> Resting(r.p) && LegalAll(m, r.acts) && Allowed(r.p.state, AfterAll(m, r.acts))
    ensures Run(limit, p, data).Stopped? ==>
              0 < Run(limit, p, data).used <= |data| && BetweenMessages(Run(limit, p, data).p.state)
    ensures Run(limit, p, data).Done? ==> Run(limit, p, data).p.nread <= if p.nread < limit then limit else p.nread
    decreases |data|
  {
    hide Step, Inv, Allowed;
    if data == [] {
    } else {
      StepSound(limit, p, data[0], m);
      var out := Step(limit, p, data[0]);
      if out.Next? {
        var m1 := AfterAll(m, out.acts);
        RunSound(limit, out.p, data[1..], m1);
        var rest := Run(limit, out.p, data[1..]);
        if rest.Done? || rest.Stopped? {
          LegalAppend(m, out.acts, rest.acts);
        }
      }
    }
  }

  // ---------------------------------------------------------------- the callbacks

  datatype Event = Data(span: Span, bytes: Bytes) | Notify(note: Note)

  function Last(log: seq<Event>): Event
    requires log != []
  {
    log[|log| - 1]
  }

  predicate EndsWith(log: seq<Event>, s: Span) { log != [] && Last(log).Data? && Last(log).span == s }

  function Extend(log: seq<Event>, bytes: Bytes): seq<Event>
    requires log != [] && Last(log).Data?
  {
    log[..|log| - 1] + [Data(Last(log).span, Last(log).bytes + bytes)]
  }

  /** One event per span: opening pushes it, taking a byte extends it. */
  function Render1(log: seq<Event>, act: Act): seq<Event> {
    match act
    case Open(s) => log + [Data(s, [])]
    case Take(s, b) => if EndsWith(log, s) then Extend(log, [b]) else log + [Data(s, [b])]
    case Close(_) => log
    case Tell(n) => log + [Notify(n)]
  }

  function Render(log: seq<Event>, acts: seq<Act>): seq<Event>
    decreases |acts|
  {
    if acts == [] then log else Render(Render1(log, acts[0]), acts[1..])
  }

  lemma {:induction false} RenderAppend(log: seq<Event>, a: seq<Act>, b: seq<Act>)
    ensures Render(log, a + b) == Render(Render(log, a), b)
    decreases |a|
  {
    if a == [] {
      assert a + b == b;
    } else {
      assert (a + b)[1..] == a[1..] + b;
      RenderAppend(Render1(log, a[0]), a[1..], b);
    }
  }

  /** The log fits the mark: the span that is open is the last thing in it. */
  predicate Fits(log: seq<Event>, m: Mark) {
    match m
    case On(s) => EndsWith(log, s)
    case Off(afterBody) => !afterBody ==> !EndsWith(log, Body)
  }

  lemma {:induction false} RenderFits(log: seq<Event>, m: Mark, acts: seq<Act>)
    requires Fits(log, m) && LegalAll(m, acts)
    ensures Fits(Render(log, acts), AfterAll(m, acts))
    decreases |acts|
  {
    if acts != [] {
      RenderFits(Render1(log, acts[0]), After(m, acts[0]), acts[1..]);
    }
  }

  // ---------------------------------------------------------------- one call

  /** At the start of a call a mark is set at the first byte if the state is inside a span. */
  function EntryLog(s: State): seq<Event> {
    if EntryMark(s).On? then [Data(EntryMark(s).span, [])] else []
  }

  lemma EntryFits(s: State)
    ensures Fits(EntryLog(s), EntryMark(s))
    ensures Allowed(s, EntryMark(s)) || s == Header(HeadersDone)
  {
  }

  /** The events one call reports. */
  function Reported(p: Parser, acts: seq<Act>): seq<Event> { Render(EntryLog(p.state), acts) }

  /** A log in which adjacent data events of one kind are joined. */
  function Join1(log: seq<Event>, e: Event): seq<Event> {
    if e.Data? && EndsWith(log, e.span) then Extend(log, e.bytes) else log + [e]
  }

  function Join(log: seq<Event>, es: seq<Event>): seq<Event>
    decreases |es|
  {
    if es == [] then log else Join(Join1(log, es[0]), es[1..])
  }

  function Joined(es: seq<Event>): seq<Event> { Join([], es) }

  lemma {:induction false} JoinAppend(log: seq<Event>, a: seq<Event>, b: seq<Event>)
    ensures Join(log, a + b) == Join(Join(log, a), b)
    decreases |a|
  {
    if a == [] {
      assert a + b == b;
    } else {
      assert (a + b)[1..] == a[1..] + b;
      JoinAppend(Join1(log, a[0]), a[1..], b);
    }
  }

  lemma JoinLast(log: seq<Event>, es: seq<Event>, e: Event)
    ensures Join(log, es + [e]) == Join1(Join(log, es), e)
  {
    JoinAppend(log, es, [e]);
    assert [e][1..] == [];
    assert Join(Join(log, es), [e]) == Join(Join1(Join(log, es), e), []);
  }

  /** What an act does to a joined log. */
  function Act1(log: seq<Event>, act: Act): seq<Event> {
    match act
    case Open(s) => Join1(log, Data(s, []))
    case Take(s, b) => Join1(log, Data(s, [b]))
    case Close(_) => log
    case Tell(n) => log + [Notify(n)]
  }

  lemma ExtendTwice(log: seq<Event>, s: Span, a: Bytes, b: Bytes)
    ensures Join1(Join1(log, Data(s, a)), Data(s, b)) == Join1(log, Data(s, a + b))
  {
    if EndsWith(log, s) {
      var x := Last(log).bytes;
      assert (x + a) + b == x + (a + b);
    }
  }

  /** Joining commutes with rendering one act, whatever was logged before. */
  lemma JoinRender1(before: seq<Event>, log: seq<Event>, act: Act)
    ensures Joined(before + Render1(log, act)) == Act1(Joined(before + log), act)
  {
    match act
    case Open(s) =>
      assert before + (log + [Data(s, [])]) == (before + log) + [Data(s, [])];
      JoinLast([], before + log, Data(s, []));
    case Close(_) =>
    case Tell(n) =>
      assert before + (log + [Notify(n)]) == (before + log) + [Notify(n)];
      JoinLast([], before + log, Notify(n));
    case Take(s, b) =>
      if EndsWith(log, s) {
        var init, x := log[..|log| - 1], Last(log).bytes;
        assert before + log == (before + init) + [Data(s, x)];
        assert before + Extend(log, [b]) == (before + init) + [Data(s, x + [b])];
        JoinLast([], before + init, Data(s, x));
        JoinLast([], before + init, Data(s, x + [b]));
        ExtendTwice(Joined(before + init), s, x, [b]);
      } else {
        assert before + (log + [Data(s, [b])]) == (before + log) + [Data(s, [b])];
        JoinLast([], before + log, Data(s, [b]));
      }
  }

  lemma {:induction false} JoinRender(before: seq<Event>, log: seq<Event>, whole: seq<Event>, acts: seq<Act>)
    requires Joined(before + log) == Joined(whole)
    ensures Joined(before + Render(log, acts)) == Joined(Render(whole, acts))
    decreases |acts|
  {
    if acts != [] {
      JoinRender1(before, log, acts[0]);
      JoinRender1([], whole, acts[0]);
      assert [] + Render1(whole, acts[0]) == Render1(whole, acts[0]) && [] + whole == whole;
      JoinRender(before, Render1(log, acts[0]), Render1(whole, acts[0]), acts[1..]);
    }
  }

  lemma JoinedOpen(log: seq<Event>, s: Span)
    requires EndsWith(log, s)
    ensures Joined(log + [Data(s, [])]) == Joined(log)
  {
    var init, x := log[..|log| - 1], Last(log).bytes;
    assert log == init + [Data(s, x)];
    JoinLast([], log, Data(s, []));
    JoinLast([], init, Data(s, x));
    ExtendTwice(Joined(init), s, x, []);
    assert x + [] == x;
  }

  /** Split invariance.  If a parser gets through a + b, it gets through a and then b, ends with the same
      fields, the byte counter included, and the two calls together report the same events once adjacent
      data events of one kind are joined. */
  lemma SplitInvariance(limit: nat, p: Parser, a: Bytes, b: Bytes)
    requires Resting(p)
    requires Run(limit, p, a + b).Done?
    ensures Run(limit, p, a).Done?
    ensures var first := Run(limit, p, a);
            var second := Run(limit, first.p, b);
            var whole := Run(limit, p, a + b);
            && second.Done?
            && second.p == whole.p
            && Joined(Reported(p, first.acts) + Reported(first.p, second.acts)) == Joined(Reported(p, whole.acts))
  {
    hide Step, Inv, Allowed;
    RunAppend(limit, p, a, b);
    var first := Run(limit, p, a);
    var second := Run(limit, first.p, b);
    var log := Reported(p, first.acts);
    EntryFits(p.state);
    RunSound(limit, p, a, EntryMark(p.state));
    RenderFits(EntryLog(p.state), EntryMark(p.state), first.acts);
    RenderAppend(EntryLog(p.state), first.acts, second.acts);
    EntryContinues(log, first.p.state, AfterAll(EntryMark(p.state), first.acts));
    JoinRender(log, EntryLog(first.p.state), log, second.acts);
  }

  lemma EntryContinues(log: seq<Event>, s: State, m: Mark)
    requires Fits(log, m) && Allowed(s, m)
    ensures Joined(log + EntryLog(s)) == Joined(log)
  {
    if EntryMark(s).On? {
      JoinedOpen(log, EntryMark(s).span);
    } else {
      assert log + [] == log;
    }
  }
}
