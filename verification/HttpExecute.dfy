/** `http_parser_execute` as it is written: a loop over a buffer with five marks, inner loops that jump over
    runs of name, value and body bytes, and a switch that may be entered again for the same byte.  It is
    proved to do what the byte machine does. */
module HttpExecute {
  import opened HttpSyntax
  import opened HttpMachine
  import opened HttpInvariant
  import opened HttpRun
  import opened HttpMessages
  import opened HttpSpans
  import opened HttpFailures

  const WORD: nat := 0x1_0000_0000

  datatype ErrnoField = NoError | Error(errno: Errno)

  /** How a turn of the loop ends: go on with the next byte, return to the caller, or report an error. */
  datatype Turn = GoOn | Leave | Break

  // ---------------------------------------------------------------- facts about runs and logs

  lemma RunExtends(limit: nat, p0: Parser, data: Bytes, i: nat, j: nat, p: Parser, acts: seq<Act>)
    requires i <= j <= |data| && Run(limit, p0, data[..i]) == Done(p, acts)
    ensures Run(limit, p0, data[..j]) == Continue(acts, i, Run(limit, p, data[i..j]))
  {
    assert data[..j] == data[..i] + data[i..j];
    RunAppend(limit, p0, data[..i], data[i..j]);
  }

  lemma FailsEarly(limit: nat, p0: Parser, data: Bytes, j: nat)
    requires j <= |data| && Run(limit, p0, data[..j]).Failed?
    ensures Run(limit, p0, data) == Run(limit, p0, data[..j])
  {
    assert data == data[..j] + data[j..];
    RunAppend(limit, p0, data[..j], data[j..]);
  }

  lemma StopsEarly(limit: nat, p0: Parser, data: Bytes, j: nat)
    requires j <= |data| && Run(limit, p0, data[..j]).Stopped?
    ensures Run(limit, p0, data) == Run(limit, p0, data[..j])
  {
    assert data == data[..j] + data[j..];
    RunAppend(limit, p0, data[..j], data[j..]);
  }

  /** After a stretch that the machine gets through, one byte more. */
  lemma RunThenStep(limit: nat, p: Parser, bytes: Bytes, ch: Byte, q: Parser, acts: seq<Act>)
    requires Run(limit, p, bytes) == Done(q, acts)
    ensures Run(limit, p, bytes + [ch]) ==
            match Step(limit, q, ch)
            case Next(r, more) => Done(r, acts + more)
            case Halt(r, more) => Stopped(r, acts + more, |bytes| + 1)
            case Fail(e) => Failed(e)
            case _ => Crashed
  {
    hide Step;
    RunAppend(limit, p, bytes, [ch]);
    RunOne(limit, q, ch);
  }

  /** The error the parser is left with when the machine fails with e.  The loop over a header value counts its
      bytes when it is through with them, so beyond the limit it may refuse a byte before it notices the limit. */
  predicate Blames(e: Errno, errno: ErrnoField) {
    errno == Error(e) || (e == HeaderOverflow && errno.Error? && RefusesValue(errno.errno))
  }

  predicate RefusesValue(e: Errno) { e == InvalidHeaderToken || e == InvalidContentLength }

  /** The log after the end of a stream: the message that was open has been completed. */
  predicate Ended(s: State, was: seq<Event>, log: seq<Event>) {
    log == was + if Unfinished(s) == 1 then [Notify(MessageComplete)] else []
  }

  class HttpParser {
    var st: Parser
    var errno: ErrnoField
    var log: seq<Event>

    // The local variables of the C function: the read pointer and the marks that are set.
    var pos: nat
    var marks: map<Span, nat>

    // What the call has reported, counting the bytes of an open span as they are passed.
    ghost var before: seq<Event>
    ghost var shown: seq<Event>
    ghost var mark: Mark

    constructor (kind: Kind)
      ensures st == Init(kind) && errno == NoError && log == [] && Resting(st)
    {
      st, errno, log, pos, marks := Init(kind), NoError, [], 0, map[];
      before, shown, mark := [], [], Off(false);
      InitInv(kind);
    }

    /** The log, with the span under the mark cut off at `end`, is what the machine has rendered. */
    ghost predicate Consistent(data: Bytes, end: nat)
      reads this`log, this`marks, this`before, this`shown, this`mark
    {
      && end <= |data|
      && Fits(shown, mark)
      && match mark
         case On(s) =>
           marks.Keys == {s} && marks[s] <= end && log + [Data(s, data[marks[s]..end])] == before + shown
         case Off(_) => marks == map[] && log == before + shown
    }

    /** With no mark set it does not matter where a span would end. */
    lemma ConsistentWhenOff(data: Bytes, end: nat, other: nat)
      requires Consistent(data, end) && other <= |data| && (other == end || mark.Off?)
      ensures Consistent(data, other)
    {
    }

    /** At most one mark is set: the internal check before the leftover callbacks. */
    lemma AtMostOneMark(data: Bytes, end: nat)
      requires Consistent(data, end)
      ensures |marks| <= 1
    {
      assert |marks.Keys| == |marks|;
    }

    method SetMark(s: Span)
      modifies this`marks
      ensures marks == if s in old(marks) then old(marks) else old(marks)[s := pos]
    {
      if s !in marks {
        marks := marks[s := pos];
      }
    }

    method FlushMark(data: Bytes, s: Span, end: nat)
      requires s in marks ==> marks[s] <= end <= |data|
      modifies this`marks, this`log
      ensures marks == old(marks) - {s}
      ensures log == if s in old(marks) then old(log) + [Data(s, data[old(marks)[s]..end])] else old(log)
    {
      if s in marks {
        log := log + [Data(s, data[marks[s]..end])];
        marks := marks - {s};
      } else {
        assert marks - {s} == marks;
      }
    }

    /** Carries out one act with the marks; `end` is where an open span ends for now. */
    method Report(data: Bytes, act: Act, end: nat) returns (next: nat)
      requires pos < |data| && Consistent(data, end) && Legal(mark, act)
      requires act.Take? ==> end == pos && act.byte == data[pos]
      requires act.Open? ==> end == pos
      modifies this`log, this`marks, this`shown, this`mark
      ensures next == if act.Take? then pos + 1 else end
      ensures mark == After(old(mark), act) && shown == Render1(old(shown), act)
      ensures Consistent(data, next)
    {
      next := end;
      ghost var log0 := log;
      match act {
        case Open(s) =>
          SetMark(s);
          SpanOpens(log0, before, shown, s, []);
          assert data[marks[s]..end] == [];
        case Take(s, b) =>
          SetMark(s);
          next := pos + 1;
          assert data[marks[s]..next] == data[marks[s]..pos] + [b];
          if old(mark) == On(s) {
            ShownGrows(log0, before, shown, s, data[marks[s]..pos], [b]);
          } else {
            SpanOpens(log0, before, shown, s, [b]);
            assert data[marks[s]..next] == [b];
          }
        case Close(s) =>
          FlushMark(data, s, end);
          assert old(mark).On? ==> marks == map[];
        case Tell(n) =>
          log := log + [Notify(n)];
          assert log == before + (shown + [Notify(n)]);
      }
      mark, shown := After(mark, act), Render1(shown, act);
    }

    /** The acts of one pass, in order. */
    method Perform(data: Bytes, acts: seq<Act>, ghost consumed: bool)
      requires pos < |data| && Consistent(data, pos) && LegalAll(mark, acts)
      requires Timed(mark, acts, data[pos], consumed)
      modifies this`log, this`marks, this`shown, this`mark
      ensures mark == AfterAll(old(mark), acts) && shown == Render(old(shown), acts)
      ensures Consistent(data, if consumed then pos + 1 else pos)
    {
      hide Legal, After, Render1, LegalAll, AfterAll, Render, Consistent, Timed;
      TwoActs(mark, shown, acts);
      TimedActs(mark, acts, data[pos], consumed);
      var end := pos;
      if |acts| > 0 {
        end := Report(data, acts[0], end);
        if |acts| > 1 {
          end := Report(data, acts[1], end);
        }
      }
      ConsistentWhenOff(data, end, if consumed then pos + 1 else pos);
    }

    /** The switch, entered again while the state asks for it. */
    method Switch(data: Bytes, ch: Byte) returns (turn: Turn)
      requires pos < |data| && Consistent(data, pos) && Counted(st) && Allowed(st.state, mark) && ch == data[pos]
      modifies this`st, this`errno, this`log, this`marks, this`shown, this`mark
      ensures match Loop(old(st), ch)
              case Next(q, acts) =>
                && turn.GoOn? && st == q && errno == old(errno) && Consistent(data, pos + 1)
                && mark == AfterAll(old(mark), acts) && shown == Render(old(shown), acts)
              case Halt(q, acts) =>
                && turn.Leave? && st == q && errno == old(errno) && Consistent(data, pos + 1)
                && mark == AfterAll(old(mark), acts) && shown == Render(old(shown), acts)
              case Fail(e) =>
                && turn.Break? && errno == Error(e) && Consistent(data, pos)
                && mark == AfterAll(old(mark), SwitchTold(old(st), ch))
                && shown == Render(old(shown), SwitchTold(old(st), ch))
              case _ => false
    {
      hide Micro, LegalAll, AfterAll, Render, Counted, Allowed, Timed, Inv, Reports;
      ghost var p0, m0, shown0, done := st, mark, shown, [];
      NothingDone(m0, shown0, Loop(st, ch));
      while true
        invariant Loop(p0, ch) == Prepend(done, Loop(st, ch)) && SwitchTold(p0, ch) == done + SwitchTold(st, ch)
        invariant mark == AfterAll(m0, done) && shown == Render(shown0, done)
        invariant Consistent(data, pos) && Counted(st) && Allowed(st.state, mark) && errno == old(errno)
        decreases Rank(st.state)
      {
        var out := Micro(st, ch);
        MicroSound(st, ch, mark);
        ghost var rest := Loop(st, ch);
        if out.Fail? {
          errno := Error(out.errno);
          assert done + [] == done;
          return Break;
        }
        ReportsLegal(mark, out.acts, out.p.state);
        LegalAppend(m0, done, out.acts);
        RenderAppend(shown0, done, out.acts);
        Perform(data, out.acts, !out.Again?);
        ghost var st0 := st;
        st := out.p;
        if out.Next? {
          return GoOn;
        }
        if out.Halt? {
          return Leave;
        }
        assert rest == Prepend(out.acts, Loop(st, ch));
        PrependTwice(done, out.acts, Loop(st, ch));
        AgainCounted(st0, ch, mark, out);
        done := done + out.acts;
      }
    }

    /** COUNT_HEADER_SIZE, on a 32-bit counter. */
    method CountHeader(limit: nat, n: nat) returns (ok: bool)
      requires st.nread + n < WORD
      modifies this`st, this`errno
      ensures st == old(st).(nread := old(st).nread + n)
      ensures ok <==> st.nread <= limit
      ensures ok ==> errno == old(errno)
      ensures !ok ==> errno == Error(HeaderOverflow)
    {
      st := st.(nread := (st.nread + n) % WORD);
      ok := st.nread <= limit;
      if !ok {
        errno := Error(HeaderOverflow);
      }
    }

    // ---------------------------------------------------------------- one turn of the loop

    /** The call has reported what the machine, started in `p0`, has rendered with `acts`. */
    ghost predicate Reporting(data: Bytes, n: nat, p0: Parser, acts: seq<Act>)
      reads this`log, this`marks, this`before, this`shown, this`mark
    {
      && Consistent(data, n)
      && LegalAll(EntryMark(p0.state), acts)
      && mark == AfterAll(EntryMark(p0.state), acts)
      && shown == Reported(p0, acts)
    }

    /** The machine, started in `p0`, is in state `p` after `n` bytes. */
    ghost predicate Reached(limit: nat, data: Bytes, n: nat, p0: Parser, acts: seq<Act>, p: Parser)
      reads this`log, this`marks, this`before, this`shown, this`mark
    {
      && Reporting(data, n, p0, acts)
      && Run(limit, p0, data[..n]) == Done(p, acts)
      && Resting(p) && Allowed(p.state, mark)
    }

    /** What a turn of the loop owes: the bytes up to and including `pos` are done, or the call is over. */
    ghost predicate TurnOk(limit: nat, data: Bytes, p0: Parser, acts: seq<Act>, turn: Turn)
      reads this
    {
      match turn
      case GoOn => pos < |data| && errno.NoError? && Reached(limit, data, pos + 1, p0, acts, st)
      case Leave =>
        && pos < |data| && errno.NoError? && Resting(st)
        && Run(limit, p0, data) == Stopped(st, acts, pos + 1) && Reporting(data, pos + 1, p0, acts)
      case Break =>
        && pos <= |data| && log == before + Flushed(p0, Told(limit, p0, data))
        && var out := Run(limit, p0, data); out.Failed? && Blames(out.errno, errno)
    }

    /** What has been reported so far: all but the span under the mark. */
    lemma LogIs(data: Bytes, n: nat, p0: Parser, acts: seq<Act>)
      requires Consistent(data, n) && mark == AfterAll(EntryMark(p0.state), acts) && shown == Reported(p0, acts)
      ensures log == before + Flushed(p0, acts)
    {
      hide AfterAll, EntryMark, Reported;
      if mark.On? {
        var open := [Data(mark.span, data[marks[mark.span]..n])];
        assert (log + open)[..|log + open| - 1] == log;
        assert (before + shown)[..|before + shown| - 1] == before + shown[..|shown| - 1];
      }
    }

    /** A call that fails at a byte that the switch gives up. */
    static lemma ToldAt(limit: nat, p0: Parser, data: Bytes, n: nat, p: Parser, acts: seq<Act>)
      requires n < |data| && Run(limit, p0, data[..n]) == Done(p, acts) && Step(limit, p, data[n]).Fail?
      ensures Told(limit, p0, data) ==
              acts + if Count(p).nread > limit && ParsingHeader(p.state) then [] else SwitchTold(Count(p), data[n])
    {
      hide *;
      assert data == data[..n] + data[n..];
      assert data[n..] == [data[n]] + data[n + 1..];
      ToldAppend(limit, p0, data[..n], data[n..]);
      ToldOne(limit, p, data[n], data[n + 1..]);
    }

    /** The switch on a byte that has been counted, `p` being the state before it was. */
    method SwitchTurn(limit: nat, data: Bytes, ghost p0: Parser, ghost acts: seq<Act>, ghost p: Parser)
      returns (turn: Turn, ghost more: seq<Act>)
      requires pos < |data| && errno.NoError? && Reached(limit, data, pos, p0, acts, p)
      requires st == Count(p) && (ParsingHeader(p.state) ==> st.nread <= limit)
      modifies this`st, this`errno, this`log, this`marks, this`shown, this`mark
      ensures TurnOk(limit, data, p0, acts + more, turn)
    {
      hide Told, Flushed, SwitchTold, Run, Loop, LegalAll, AfterAll, Render, Inv, Allowed, Counted, Consistent;
      var ch := data[pos];
      CountKeeps(p);
      ghost var m0, shown0 := mark, shown;
      ghost var out := Step(limit, p, ch);
      StepSound(limit, p, ch, mark);
      RunExtends(limit, p0, data, pos, pos + 1, p, acts);
      assert data[pos..pos + 1] == [ch];
      RunOne(limit, p, ch);
      turn := Switch(data, ch);
      more := if out.Next? || out.Halt? then out.acts else [];
      if turn.Break? {
        FailsEarly(limit, p0, data, pos + 1);
        ToldAt(limit, p0, data, pos, p, acts);
        ghost var told := SwitchTold(Count(p), ch);
        LegalAppend(EntryMark(p0.state), acts, told);
        RenderAppend(EntryLog(p0.state), acts, told);
        LogIs(data, pos, p0, acts + told);
      } else {
        LegalAppend(EntryMark(p0.state), acts, more);
        RenderAppend(EntryLog(p0.state), acts, more);
        if turn.Leave? {
          StopsEarly(limit, p0, data, pos + 1);
        }
      }
    }

    /** The bytes of an open span are passed over. */
    ghost method PassSpan(data: Bytes, i: nat, j: nat, s: Span)
      requires i <= j <= |data| && Consistent(data, i) && mark == On(s)
      modifies this`shown
      ensures Consistent(data, j) && shown == Render(old(shown), Takes(s, data[i..j]))
    {
      var m := marks[s];
      assert data[m..j] == data[m..i] + data[i..j];
      ShownGrows(log, before, shown, s, data[m..i], data[i..j]);
      RenderTakes(shown, s, data[i..j]);
      shown := Extend(shown, data[i..j]);
    }

    /** What is left to do when a scanning loop has stopped at `pos`: count the bytes it passed and, unless
        the buffer is used up, enter the switch with the byte it stopped at.  The machine is in state `p2`
        there, unless the count passes the limit; it has failed if the loop has `lost` track of it. */
    method FinishSpan(limit: nat, data: Bytes, start: nat, ghost p0: Parser, ghost acts: seq<Act>, ghost p2: Parser,
                      ghost lost: bool)
      returns (turn: Turn, ghost more: seq<Act>)
      requires start <= pos <= |data| && start < |data| && errno.NoError? && limit + |data| < WORD && Resting(p0)
      requires ParsingHeader(p2.state) && 0 < st.nread <= limit
      requires lost ==> Run(limit, p0, data) == Failed(HeaderOverflow) && start + limit < pos
                        && log == before + Flushed(p0, Told(limit, p0, data))
      requires !lost ==> st == p2.(nread := st.nread) && p2.nread + 1 == st.nread + (pos - start)
      requires !lost ==> Reporting(data, pos, p0, acts)
      requires !lost && start < pos && p2.nread > limit ==>
                 Run(limit, p0, data[..pos]) == Failed(HeaderOverflow)
                 && Flushed(p0, Told(limit, p0, data)) == Flushed(p0, acts)
      requires !lost && !(start < pos && p2.nread > limit) ==> Run(limit, p0, data[..pos]) == Done(p2, acts)
      modifies this
      ensures TurnOk(limit, data, p0, acts + more, turn) && before == old(before)
      ensures turn.GoOn? ==> start <= pos
    {
      hide Told, Flushed, SwitchTold, Run, LegalAll, AfterAll, Render, Inv, Allowed, Consistent, Loop;
      if pos == |data| {
        pos := pos - 1;
        var ok := CountHeader(limit, pos - start);
        if !ok {
          if !lost {
            FailsEarly(limit, p0, data, |data|);
            LogIs(data, |data|, p0, acts);
          }
          return Break, [];
        }
        RunReaches(limit, p0, data[..|data|], p2, acts);
        assert acts + [] == acts;
        return GoOn, [];
      }
      var ok := CountHeader(limit, pos - start);
      if !ok {
        if !lost {
          if Run(limit, p0, data[..pos]).Failed? {
            FailsEarly(limit, p0, data, pos);
            LogIs(data, pos, p0, acts);
          } else {
            RunExtends(limit, p0, data, pos, pos + 1, p2, acts);
            assert data[pos..pos + 1] == [data[pos]];
            RunOne(limit, p2, data[pos]);
            FailsEarly(limit, p0, data, pos + 1);
            Overflows(limit, p2, data[pos]);
            ToldAt(limit, p0, data, pos, p2, acts);
            assert acts + [] == acts;
            LogIs(data, pos, p0, acts);
          }
        }
        return Break, [];
      }
      RunReaches(limit, p0, data[..pos], p2, acts);
      turn, more := SwitchTurn(limit, data, p0, acts, p2);
    }

    // ---------------------------------------------------------------- header names

    /** The inner loop over a name of no interest: it stops before a byte that is not a token byte, or at
        the end of its window. */
    method SkipField(limit: nat, data: Bytes)
      requires pos < |data| && IsToken(data[pos])
      modifies this`pos
      ensures old(pos) <= pos < |data| && Tokens(data[old(pos)..pos + 1])
    {
      var pe := if |data| - pos < limit then |data| else pos + limit;
      while pos + 1 < pe && IsToken(data[pos + 1])
        invariant old(pos) <= pos < |data| && Tokens(data[old(pos)..pos + 1])
      {
        assert data[old(pos)..pos + 2] == data[old(pos)..pos + 1] + [data[pos + 1]];
        pos := pos + 1;
      }
    }

    /** The loop over a header name. */
    method ScanField(limit: nat, data: Bytes)
      requires pos < |data| && FieldHs(st.hs)
      modifies this`pos, this`st
      ensures old(pos) <= pos <= |data| && Tokens(data[old(pos)..pos])
      ensures st == FieldFold(old(st), data[old(pos)..pos])
      ensures pos < |data| ==> !IsToken(data[pos])
    {
      hide FieldByte, IsToken, FieldFold;
      ghost var start, s0 := pos, st;
      FieldFoldNone(st);
      assert data[start..pos] == [];
      while pos < |data|
        invariant start <= pos <= |data| && Tokens(data[start..pos])
        invariant st == FieldFold(s0, data[start..pos]) && FieldHs(st.hs)
      {
        var ch := data[pos];
        if !IsToken(ch) {
          break;
        }
        ghost var i, q := pos, st;
        if st.hs.General? {
          SkipField(limit, data);
          FieldFoldGeneral(q, data[i..pos + 1]);
        } else {
          FieldByteHs(st, ch);
          st := FieldByte(st, ch);
          FieldFoldOne(q, ch);
          assert data[i..pos + 1] == [ch];
        }
        assert data[start..pos + 1] == data[start..i] + data[i..pos + 1];
        FieldFoldAppend(s0, data[start..i], data[i..pos + 1]);
        pos := pos + 1;
      }
    }

    method FieldTurn(limit: nat, data: Bytes, ghost p0: Parser, ghost acts: seq<Act>, ghost p: Parser)
      returns (turn: Turn, ghost more: seq<Act>)
      requires pos < |data| && errno.NoError? && Reached(limit, data, pos, p0, acts, p) && Resting(p0)
      requires st == Count(p) && st.nread <= limit && p.state == Header(InField) && limit + |data| < WORD
      modifies this
      ensures TurnOk(limit, data, p0, acts + more, turn) && before == old(before)
      ensures turn.GoOn? ==> old(pos) <= pos
    {
      hide Told, Flushed, SwitchTold, Run, LegalAll, AfterAll, Render, Inv, Allowed, Consistent, FieldFold, Step,
           Tokens;
      var start := pos;
      ghost var s0 := st;
      assert FieldHs(p.hs) && mark == On(Field) by { InFieldHs(p, mark); }
      ScanField(limit, data);
      ghost var bytes := data[start..pos];
      ghost var passed := Takes(Field, bytes);
      ghost var p2 := FieldFold(p, bytes).(nread := p.nread + |bytes|);
      FieldRun(limit, p, bytes);
      FieldFoldCount(p, bytes, s0.nread);
      RunExtends(limit, p0, data, start, pos, p, acts);
      PassSpan(data, start, pos, Field);
      RenderAppend(EntryLog(p0.state), acts, passed);
      LegalAppend(EntryMark(p0.state), acts, passed);
      AfterTakes(On(Field), Field, bytes);
      if bytes != [] && p2.nread > limit {
        FieldFlushed(limit, p0, data, start, pos, p, acts);
      }
      turn, more := FinishSpan(limit, data, start, p0, acts + passed, p2, false);
      assert acts + passed + more == acts + (passed + more);
      more := passed + more;
    }

    // ---------------------------------------------------------------- header values

    /** The inner loop over a value of no interest.  When it comes to the end of its window before the end
        of the line it goes past the byte after the window without a look. */
    method SkipValue(limit: nat, data: Bytes) returns (bad: bool, ghost blind: bool)
      requires pos < |data| && !IsLineEnd(data[pos]) && 0 < limit
      modifies this`pos, this`errno
      ensures bad <==> errno != old(errno)
      ensures bad ==> errno == Error(InvalidHeaderToken) && old(pos) <= pos < |data|
                      && !IsHeaderChar(data[pos]) && !IsLineEnd(data[pos])
                      && InLine(data[old(pos)..pos]) && Printable(data[old(pos)..pos])
      ensures !bad && !blind ==> old(pos) <= pos < |data|
                                 && InLine(data[old(pos)..pos + 1]) && Printable(data[old(pos)..pos + 1])
      ensures !bad && blind ==> pos == old(pos) + limit < |data|
                                && InLine(data[old(pos)..pos]) && Printable(data[old(pos)..pos])
      requires errno.NoError?
    {
      bad, blind := false, false;
      ghost var start := pos;
      var pe := if |data| - pos < limit then |data| else pos + limit;
      while pos < pe
        invariant start <= pos <= pe && InLine(data[start..pos]) && Printable(data[start..pos]) && errno.NoError?
      {
        var ch := data[pos];
        if IsLineEnd(ch) {
          pos := pos - 1;
          return;
        }
        if !IsHeaderChar(ch) {
          errno := Error(InvalidHeaderToken);
          bad := true;
          return;
        }
        assert data[start..pos + 1] == data[start..pos] + [ch];
        pos := pos + 1;
      }
      if pos == |data| {
        pos := pos - 1;
      } else {
        blind := true;
      }
    }

    /** What the loop over a header value knows at `pos`: the value matcher has seen every byte since `start`,
        or (`over`) the loop has jumped past more bytes than the limit allows. */
    ghost predicate Scanned(limit: nat, data: Bytes, start: nat, s0: Parser, over: bool, n: nat)
      reads this`st
    {
      && start <= n <= |data|
      && HeaderInv(st, InValue) && st.state == Header(InValue)
      && st == s0.(hs := st.hs, index := st.index, flags := st.flags, length := st.length)
      && (over ==> start + limit < n && Passable(data[start..start + limit], s0))
      && (!over ==> InLine(data[start..n]) && ValueFold(s0, data[start..n]) == Ok(st))
    }

    /** The value is refused at `pos`. */
    ghost predicate Refused(data: Bytes, start: nat, s0: Parser, over: bool)
      reads this`pos, this`errno
    {
      && errno.Error? && RefusesValue(errno.errno) && start <= pos < |data|
      && (!over ==> InLine(data[start..pos + 1]) && ValueFold(s0, data[start..pos + 1]) == Err(errno.errno))
    }

    /** One pass of the loop over a header value when the value is of no interest. */
    method PassGeneral(limit: nat, data: Bytes, ghost start: nat, ghost s0: Parser, ghost over: bool)
      returns (bad: bool, ghost over': bool)
      requires pos < |data| && errno.NoError? && 0 < limit && !IsLineEnd(data[pos]) && st.hs.General?
      requires Scanned(limit, data, start, s0, over, pos)
      modifies this`pos, this`errno
      ensures bad ==> Refused(data, start, s0, over') && over' == over
      ensures !bad ==> errno.NoError? && old(pos) <= pos < |data| && Scanned(limit, data, start, s0, over', pos + 1)
      ensures over ==> over'
    {
      hide HeaderInv, ValueFold, IsHeaderChar, IsLineEnd, InLine, Printable;
      ghost var i := pos;
      ghost var blind;
      over' := over;
      bad, blind := SkipValue(limit, data);
      if bad && !over {
        GeneralBad(s0, st, data, start, i, pos);
      } else if !bad && !over && blind {
        GeneralPassed(s0, st, data, start, i, pos);
        PassableUpTo(s0, st, data, start, start + limit, pos);
        over' := true;
      } else if !bad && !over {
        GeneralPassed(s0, st, data, start, i, pos + 1);
      }
    }

    /** One pass of the loop over a header value when the matcher looks at the byte. */
    method PassMatched(limit: nat, data: Bytes, ghost start: nat, ghost s0: Parser, ghost over: bool)
      returns (bad: bool)
      requires pos < |data| && errno.NoError? && !IsLineEnd(data[pos])
      requires Scanned(limit, data, start, s0, over, pos)
      modifies this`st, this`errno
      ensures bad ==> Refused(data, start, s0, over)
      ensures !bad ==> errno.NoError? && Scanned(limit, data, start, s0, over, pos + 1)
    {
      hide HeaderInv, ValueFold, ValueByte, IsLineEnd;
      var ch := data[pos];
      ghost var span := data[start..pos];
      bad := false;
      ValueByteInv(st, ch);
      ValueFoldAppend(s0, span, [ch]);
      ValueFoldOne(st, ch);
      assert data[start..pos + 1] == span + [ch];
      match ValueByte(st, ch) {
        case Ok(q) => st := q;
        case Err(e) =>
          RefusalOf(st, ch);
          errno := Error(e);
          bad := true;
        case Bug => assert false;
      }
    }

    /** The loop over a header value, up to the CR or LF that ends the line. */
    method ScanValue(limit: nat, data: Bytes) returns (bad: bool, ghost over: bool)
      requires pos < |data| && errno.NoError? && 0 < limit && HeaderInv(st, InValue) && st.state == Header(InValue)
      modifies this`pos, this`st, this`errno
      ensures bad ==> Refused(data, old(pos), old(st), over)
      ensures !bad ==> errno.NoError? && Scanned(limit, data, old(pos), old(st), over, pos)
                       && (pos < |data| ==> IsLineEnd(data[pos]))
      ensures old(pos) <= pos <= |data|
      ensures over ==> old(pos) + limit < |data| && Passable(data[old(pos)..old(pos) + limit], old(st))
    {
      hide HeaderInv, ValueFold;
      ghost var start, s0 := pos, st;
      bad, over := false, false;
      ValueFoldNone(st);
      assert data[start..pos] == [];
      while pos < |data|
        invariant errno.NoError? && Scanned(limit, data, start, s0, over, pos)
      {
        if IsLineEnd(data[pos]) {
          return;
        }
        if st.hs.General? {
          bad, over := PassGeneral(limit, data, start, s0, over);
        } else {
          bad := PassMatched(limit, data, start, s0, over);
        }
        if bad {
          return;
        }
        pos := pos + 1;
      }
    }

    /** A name that is given up leaves the report as it was before the name. */
    static lemma FieldFlushed(limit: nat, p0: Parser, data: Bytes, start: nat, n: nat, p: Parser, acts: seq<Act>)
      requires start <= n <= |data| && Run(limit, p0, data[..start]) == Done(p, acts)
      requires Inv(p) && p.state == Header(InField) && Tokens(data[start..n]) && Run(limit, p, data[start..n]).Failed?
      requires LegalAll(EntryMark(p0.state), acts) && AfterAll(EntryMark(p0.state), acts) == On(Field)
      ensures Flushed(p0, Told(limit, p0, data)) == Flushed(p0, acts)
              == Flushed(p0, acts + Takes(Field, data[start..n]))
    {
      hide *;
      var k := FieldTold(limit, p, data[start..n]);
      assert data[start..] == data[start..n] + data[n..] && data == data[..start] + data[start..];
      ToldAppend(limit, p, data[start..n], data[n..]);
      ToldAppend(limit, p0, data[..start], data[start..]);
      FlushedSpan(p0, acts, Field, data[start..n][..k]);
      FlushedSpan(p0, acts, Field, data[start..n]);
    }

    static lemma ValueFlushed(limit: nat, p0: Parser, data: Bytes, start: nat, n: nat, p: Parser, acts: seq<Act>)
      requires start <= n <= |data| && Run(limit, p0, data[..start]) == Done(p, acts)
      requires Inv(p) && p.state == Header(InValue) && InLine(data[start..n]) && Run(limit, p, data[start..n]).Failed?
      requires LegalAll(EntryMark(p0.state), acts) && AfterAll(EntryMark(p0.state), acts) == On(Value)
      ensures Flushed(p0, Told(limit, p0, data)) == Flushed(p0, acts)
              == Flushed(p0, acts + Takes(Value, data[start..n]))
    {
      hide *;
      var k := ValueTold(limit, p, data[start..n]);
      assert data[start..] == data[start..n] + data[n..] && data == data[..start] + data[start..];
      ToldAppend(limit, p, data[start..n], data[n..]);
      ToldAppend(limit, p0, data[..start], data[start..]);
      FlushedSpan(p0, acts, Value, data[start..n][..k]);
      FlushedSpan(p0, acts, Value, data[start..n]);
    }

    static lemma OverFails(limit: nat, p0: Parser, data: Bytes, start: nat, p: Parser, s0: Parser, acts: seq<Act>)
      requires start + limit < |data| && Run(limit, p0, data[..start]) == Done(p, acts)
      requires Inv(p) && p.state == Header(InValue) && s0 == p.(nread := p.nread + 1)
      requires Passable(data[start..start + limit], s0)
      requires LegalAll(EntryMark(p0.state), acts) && AfterAll(EntryMark(p0.state), acts) == On(Value)
      ensures Run(limit, p0, data) == Failed(HeaderOverflow)
      ensures Flushed(p0, Told(limit, p0, data)) == Flushed(p0, acts)
    {
      hide *;
      OverFlushed(limit, p0, data, start, p, s0, acts);
      ValueOver(limit, p, s0, data[start..start + limit], data[start + limit]);
      assert data[start..start + limit + 1] == data[start..start + limit] + [data[start + limit]];
      RunExtends(limit, p0, data, start, start + limit + 1, p, acts);
      FailedOn(acts, start, Run(limit, p, data[start..start + limit + 1]));
      FailsEarly(limit, p0, data, start + limit + 1);
    }

    static lemma OverFlushed(limit: nat, p0: Parser, data: Bytes, start: nat, p: Parser, s0: Parser, acts: seq<Act>)
      requires start + limit < |data| && Run(limit, p0, data[..start]) == Done(p, acts)
      requires Inv(p) && p.state == Header(InValue) && s0 == p.(nread := p.nread + 1)
      requires Passable(data[start..start + limit], s0)
      requires LegalAll(EntryMark(p0.state), acts) && AfterAll(EntryMark(p0.state), acts) == On(Value)
      ensures Flushed(p0, Told(limit, p0, data)) == Flushed(p0, acts)
    {
      hide *;
      var n, bytes := start + limit, data[start..start + limit];
      PassableParts(bytes, s0);
      ValueWhole(limit, p, s0, bytes);
      if Run(limit, p, bytes).Failed? {
        ValueFlushed(limit, p0, data, start, n, p, acts);
      } else {
        var q := Run(limit, p, bytes).p;
        RunExtends(limit, p0, data, start, n, p, acts);
        Continued(acts, start, q, Takes(Value, bytes), limit);
        InValueOverflows(limit, q, data[n]);
        ToldAt(limit, p0, data, n, q, acts + Takes(Value, bytes));
        assert acts + Takes(Value, bytes) + [] == acts + Takes(Value, bytes);
        FlushedSpan(p0, acts, Value, bytes);
      }
    }

    static lemma FailedOn(acts: seq<Act>, n: nat, rest: Outcome)
      requires rest.Failed?
      ensures Continue(acts, n, rest) == rest
    {
    }

    static lemma RefusedFails(limit: nat, p0: Parser, data: Bytes, start: nat, n: nat, p: Parser, s0: Parser,
                              acts: seq<Act>, e: Errno)
      requires start <= n < |data| && Run(limit, p0, data[..start]) == Done(p, acts)
      requires Inv(p) && p.state == Header(InValue) && s0 == p.(nread := p.nread + 1)
      requires InLine(data[start..n + 1]) && ValueFold(s0, data[start..n + 1]) == Err(e)
      requires LegalAll(EntryMark(p0.state), acts) && AfterAll(EntryMark(p0.state), acts) == On(Value)
      ensures Run(limit, p0, data) == Failed(e) || Run(limit, p0, data) == Failed(HeaderOverflow)
      ensures Flushed(p0, Told(limit, p0, data)) == Flushed(p0, acts)
    {
      hide *;
      ValueRefused(limit, p, s0, data[start..n + 1], e);
      RunExtends(limit, p0, data, start, n + 1, p, acts);
      FailedOn(acts, start, Run(limit, p, data[start..n + 1]));
      FailsEarly(limit, p0, data, n + 1);
      ValueFlushed(limit, p0, data, start, n + 1, p, acts);
    }

    /** A stretch of a value that has been passed, seen from the start of the call. */
    static lemma ValuePassedOn(limit: nat, p0: Parser, data: Bytes, start: nat, n: nat, p: Parser, s0: Parser,
                               acts: seq<Act>, q: Parser)
      requires start <= n <= |data| && Run(limit, p0, data[..start]) == Done(p, acts)
      requires Inv(p) && p.state == Header(InValue) && s0 == p.(nread := p.nread + 1)
      requires InLine(data[start..n]) && ValueFold(s0, data[start..n]) == Ok(q)
      requires LegalAll(EntryMark(p0.state), acts) && AfterAll(EntryMark(p0.state), acts) == On(Value)
      ensures q.nread == p.nread + 1 && q.state == Header(InValue)
      ensures var passed, p2 := Takes(Value, data[start..n]), q.(nread := p.nread + (n - start));
              && (if start < n && p2.nread > limit then Run(limit, p0, data[..n]) == Failed(HeaderOverflow)
                  else Run(limit, p0, data[..n]) == Done(p2, acts + passed))
              && LegalAll(EntryMark(p0.state), acts + passed)
              && AfterAll(EntryMark(p0.state), acts + passed) == On(Value)
              && Reported(p0, acts + passed) == Render(Reported(p0, acts), passed)
    {
      hide *;
      var bytes := data[start..n];
      var passed := Takes(Value, bytes);
      ValuePassed(limit, p, s0, bytes, q);
      RunExtends(limit, p0, data, start, n, p, acts);
      Continued(acts, start, q.(nread := p.nread + |bytes|), passed, 0);
      if bytes != [] && p.nread + |bytes| > limit {
        FailedOn(acts, start, Failed(HeaderOverflow));
      }
      ReportedOn(p0, acts, passed);
      LegalAppend(EntryMark(p0.state), acts, passed);
      AfterTakes(On(Value), Value, bytes);
    }

    /** What follows once the scanning loop has stopped at `pos`. */
    method ValueStopped(limit: nat, data: Bytes, start: nat, ghost p0: Parser, ghost acts: seq<Act>, ghost p: Parser,
                        ghost s0: Parser, ghost over: bool)
      returns (turn: Turn, ghost more: seq<Act>)
      requires start <= pos <= |data| && start < |data| && errno.NoError? && limit + |data| < WORD && Resting(p0)
      requires Reached(limit, data, start, p0, acts, p) && p.state == Header(InValue) && s0 == p.(nread := p.nread + 1)
      requires s0.nread <= limit && Scanned(limit, data, start, s0, over, pos) && Inv(p) && mark == On(Value)
      modifies this
      ensures TurnOk(limit, data, p0, acts + more, turn) && before == old(before)
      ensures turn.GoOn? ==> start <= pos
    {
      hide Told, Flushed, SwitchTold, Run, LegalAll, AfterAll, Render, Reported, Takes, Inv, HeaderInv, Allowed,
           Consistent, ValueFold, Step, InLine;
      ghost var passed := Takes(Value, data[start..pos]);
      ghost var p2 := st.(nread := p.nread + (pos - start));
      LogIs(data, start, p0, acts);
      if over {
        OverFails(limit, p0, data, start, p, s0, acts);
      } else {
        ValuePassedOn(limit, p0, data, start, pos, p, s0, acts, st);
        PassSpan(data, start, pos, Value);
        if start < pos && p2.nread > limit {
          ValueFails(limit, p, s0, data[start..pos], st);
          ValueFlushed(limit, p0, data, start, pos, p, acts);
        }
      }
      turn, more := FinishSpan(limit, data, start, p0, acts + passed, p2, over);
      assert acts + passed + more == acts + (passed + more);
      more := passed + more;
    }

    method ValueTurn(limit: nat, data: Bytes, ghost p0: Parser, ghost acts: seq<Act>, ghost p: Parser)
      returns (turn: Turn, ghost more: seq<Act>)
      requires pos < |data| && errno.NoError? && Reached(limit, data, pos, p0, acts, p) && Resting(p0)
      requires st == Count(p) && st.nread <= limit && p.state == Header(InValue) && limit + |data| < WORD
      modifies this
      ensures TurnOk(limit, data, p0, acts + more, turn) && before == old(before)
      ensures turn.GoOn? ==> old(pos) <= pos
    {
      hide Told, Flushed, SwitchTold, Run, LegalAll, AfterAll, Render, Reported, Inv, HeaderInv, Allowed, Consistent,
           ValueFold, Step, InLine;
      var start := pos;
      ghost var s0 := st;
      InValueFacts(p, s0, mark);
      var bad;
      ghost var over;
      bad, over := ScanValue(limit, data);
      if bad {
        LogIs(data, start, p0, acts);
        if over {
          OverFails(limit, p0, data, start, p, s0, acts);
        } else {
          RefusedFails(limit, p0, data, start, pos, p, s0, acts, errno.errno);
        }
        return Break, [];
      }
      turn, more := ValueStopped(limit, data, start, p0, acts, p, s0, over);
    }

    // ---------------------------------------------------------------- bodies

    /** MARK(body), and the next `n` bytes count as passed. */
    method MarkBody(data: Bytes, n: nat)
      requires 0 < n && pos + n <= |data| && Consistent(data, pos) && (mark == Off(false) || mark == On(Body))
      modifies this`marks, this`shown, this`mark
      ensures mark == On(Body) && shown == Render(old(shown), Takes(Body, data[pos..pos + n]))
      ensures Consistent(data, pos + n)
    {
      hide Render, Extend, Takes;
      ghost var bytes := data[pos..pos + n];
      SetMark(Body);
      if mark == On(Body) {
        PassSpan(data, pos, pos + n, Body);
      } else {
        SpanOpens(log, before, shown, Body, bytes);
        RenderTakesNew(shown, Body, bytes);
        shown := Render(shown, Takes(Body, bytes));
        mark := On(Body);
      }
    }

    /** Passing `n` bytes of a body that takes them all. */
    method PassBody(limit: nat, data: Bytes, n: nat, ghost p0: Parser, ghost acts: seq<Act>, ghost p: Parser,
                    q: Parser)
      returns (ghost more: seq<Act>)
      requires 0 < n && pos + n <= |data| && errno.NoError? && Resting(p0) && InBody(p.state)
      requires Reached(limit, data, pos, p0, acts, p)
      requires Run(limit, p, data[pos..pos + n]) == Done(q, Takes(Body, data[pos..pos + n]))
      modifies this`pos, this`marks, this`shown, this`mark, this`st
      ensures st == q && mark == On(Body) && pos == old(pos) + n - 1
      ensures Reached(limit, data, pos + 1, p0, acts + more, q)
    {
      hide Run, LegalAll, AfterAll, Render, Inv, Consistent;
      assert mark == Off(false) || mark == On(Body);
      ghost var bytes := data[pos..pos + n];
      more := Takes(Body, bytes);
      RunExtends(limit, p0, data, pos, pos + n, p, acts);
      RunReaches(limit, p0, data[..pos + n], q, acts + more);
      RenderAppend(EntryLog(p0.state), acts, more);
      LegalAppend(EntryMark(p0.state), acts, more);
      AfterTakes(mark, Body, bytes);
      MarkBody(data, n);
      st := q;
      pos := pos + n - 1;
    }

    method IdentityTurn(limit: nat, data: Bytes, ghost p0: Parser, ghost acts: seq<Act>)
      returns (turn: Turn, ghost more: seq<Act>)
      requires pos < |data| && errno.NoError? && Reached(limit, data, pos, p0, acts, st) && Resting(p0)
      requires st.state.BodyIdentity?
      modifies this
      ensures TurnOk(limit, data, p0, acts + more, turn) && before == old(before)
      ensures turn.GoOn? ==> old(pos) <= pos
    {
      hide Told, Flushed, SwitchTold, Run, LegalAll, AfterAll, Render, Consistent, Loop;
      assert HasLength(st);
      var toRead := if st.length < |data| - pos then st.length else |data| - pos;
      if toRead < st.length {
        IdentityRun(limit, st, data[pos..pos + toRead]);
        more := PassBody(limit, data, toRead, p0, acts, st, st.(length := st.length - toRead));
        return GoOn, more;
      }
      turn, more := IdentityEnd(limit, data, p0, acts);
    }

    /** A body of known length to its last byte, seen from the start of the call. */
    static lemma IdentityEnds(limit: nat, p0: Parser, data: Bytes, start: nat, n: nat, p: Parser, acts: seq<Act>,
                              q: Parser, m: Mark)
      returns (more: seq<Act>)
      requires start <= n < |data| && Run(limit, p0, data[..start]) == Done(p, acts)
      requires p.state.BodyIdentity? && Inv(p) && n + 1 - start == p.length && (m == Off(false) || m == On(Body))
      requires q == p.(length := 0, state := MessageDone)
      requires LegalAll(EntryMark(p0.state), acts) && m == AfterAll(EntryMark(p0.state), acts)
      ensures Counted(q) && Allowed(q.state, Off(true))
      ensures var out, all := Loop(q, data[n]), acts + more;
              && (out.Next? || out.Halt?) && LoopOk(q, Off(true), out)
              && Run(limit, p0, data[..n + 1]) == (if out.Next? then Done(out.p, all) else Stopped(out.p, all, n + 1))
              && (out.Halt? ==> Run(limit, p0, data) == Stopped(out.p, all, n + 1))
              && LegalAll(EntryMark(p0.state), all)
              && AfterAll(EntryMark(p0.state), all) == AfterAll(Off(true), out.acts)
              && Reported(p0, all) == Render(Render(Reported(p0, acts), Takes(Body, data[start..n + 1])), out.acts)
    {
      hide *;
      var bytes, ch := data[start..n], data[n];
      var out := Loop(q, ch);
      assert data[start..n + 1] == bytes + [ch];
      BodyEnds(limit, p, bytes, ch, q, m, Reported(p0, acts));
      RunExtends(limit, p0, data, start, n + 1, p, acts);
      more := Takes(Body, bytes) + ([Take(Body, ch), Close(Body)] + out.acts);
      Continued(acts, start, out.p, more, |bytes| + 1);
      LegalAppend(EntryMark(p0.state), acts, more);
      ReportedOn(p0, acts, more);
      if out.Halt? {
        StopsEarly(limit, p0, data, n + 1);
      }
    }

    static lemma Continued(acts: seq<Act>, n: nat, p: Parser, more: seq<Act>, k: nat)
      ensures Continue(acts, n, Done(p, more)) == Done(p, acts + more)
      ensures Continue(acts, n, Stopped(p, more, k)) == Stopped(p, acts + more, n + k)
    {
    }

    static lemma ReportedOn(p0: Parser, acts: seq<Act>, more: seq<Act>)
      ensures Reported(p0, acts + more) == Render(Reported(p0, acts), more)
    {
      RenderAppend(EntryLog(p0.state), acts, more);
      hide Render, EntryLog;
    }

    /** The rest of the body is in the buffer: report it and enter the switch in the final state. */
    method IdentityEnd(limit: nat, data: Bytes, ghost p0: Parser, ghost acts: seq<Act>)
      returns (turn: Turn, ghost more: seq<Act>)
      requires pos < |data| && errno.NoError? && Reached(limit, data, pos, p0, acts, st) && Resting(p0)
      requires st.state.BodyIdentity? && 0 < st.length <= |data| - pos && st.length < NO_LENGTH
      modifies this
      ensures TurnOk(limit, data, p0, acts + more, turn) && before == old(before)
      ensures turn.GoOn? ==> old(pos) <= pos
    {
      hide Told, Flushed, SwitchTold, Run, LegalAll, AfterAll, Render, Reported, Consistent, Loop, Inv, Takes;
      ghost var p, m0, start := st, mark, pos;
      var toRead := st.length;
      MarkBody(data, toRead);
      pos := pos + (toRead - 1);
      st := st.(length := 0, state := MessageDone);
      CallbackData(data, Body, pos + 1);
      more := IdentityEnds(limit, p0, data, start, pos, p, acts, st, m0);
      turn := Switch(data, data[pos]);
      if turn.GoOn? {
        RunReaches(limit, p0, data[..pos + 1], st, acts + more);
      }
    }

    /** CALLBACK_DATA for one span, up to `end`. */
    method CallbackData(data: Bytes, s: Span, end: nat)
      requires Consistent(data, end)
      modifies this`log, this`marks, this`mark
      ensures mark == if old(mark) == On(s) then Off(s.Body?) else old(mark)
      ensures Consistent(data, end) && (mark.Off? && end > 0 ==> Consistent(data, end - 1))
    {
      FlushMark(data, s, end);
      if mark == On(s) {
        assert marks == map[];
        mark := Off(s.Body?);
      } else if mark.On? {
        assert marks.Keys == old(marks).Keys;
        assert marks == old(marks);
      }
    }

    method ChunkTurn(limit: nat, data: Bytes, ghost p0: Parser, ghost acts: seq<Act>)
      returns (turn: Turn, ghost more: seq<Act>)
      requires pos < |data| && errno.NoError? && Reached(limit, data, pos, p0, acts, st) && Resting(p0)
      requires st.state == Chunk(InData)
      modifies this
      ensures TurnOk(limit, data, p0, acts + more, turn) && before == old(before)
      ensures turn.GoOn? ==> old(pos) <= pos
    {
      hide Told, Flushed, SwitchTold, Run, LegalAll, AfterAll, Render, Consistent;
      assert st.flags.chunked && HasLength(st);
      var toRead := if st.length < |data| - pos then st.length else |data| - pos;
      ChunkDataRun(limit, st, data[pos..pos + toRead]);
      var left := st.length - toRead;
      more := PassBody(limit, data, toRead, p0, acts, st,
                       st.(length := left, state := Chunk(if left == 0 then DataAlmostDone else InData)));
      return GoOn, more;
    }

    method EofTurn(limit: nat, data: Bytes, ghost p0: Parser, ghost acts: seq<Act>)
      returns (turn: Turn, ghost more: seq<Act>)
      requires pos < |data| && errno.NoError? && Reached(limit, data, pos, p0, acts, st) && Resting(p0)
      requires st.state.BodyIdentityEof?
      modifies this
      ensures TurnOk(limit, data, p0, acts + more, turn) && before == old(before)
      ensures turn.GoOn? ==> old(pos) <= pos
    {
      hide Told, Flushed, SwitchTold, Run, LegalAll, AfterAll, Render, Consistent;
      EofRun(limit, st, data[pos..|data|]);
      more := PassBody(limit, data, |data| - pos, p0, acts, st, st);
      return GoOn, more;
    }

    // ---------------------------------------------------------------- the whole call

    /** One turn of the loop over the buffer. */
    method NextTurn(limit: nat, data: Bytes, ghost p0: Parser, ghost acts: seq<Act>)
      returns (turn: Turn, ghost more: seq<Act>)
      requires pos < |data| && errno.NoError? && Reached(limit, data, pos, p0, acts, st) && Resting(p0)
      requires limit + |data| < WORD && st.nread + |data| < WORD
      modifies this
      ensures TurnOk(limit, data, p0, acts + more, turn) && before == old(before)
      ensures turn.GoOn? ==> old(pos) <= pos
    {
      hide Told, Flushed, SwitchTold, Run, LegalAll, AfterAll, Render, Consistent, Inv, Loop;
      ghost var p := st;
      if ParsingHeader(st.state) {
        var ok := CountHeader(limit, 1);
        if !ok {
          RunExtends(limit, p0, data, pos, pos + 1, p, acts);
          assert data[pos..pos + 1] == [data[pos]];
          RunOne(limit, p, data[pos]);
          FailsEarly(limit, p0, data, pos + 1);
          Overflows(limit, p, data[pos]);
          ToldAt(limit, p0, data, pos, p, acts);
          assert acts + [] == acts;
          LogIs(data, pos, p0, acts);
          return Break, [];
        }
      }
      if st.state == Header(InField) {
        turn, more := FieldTurn(limit, data, p0, acts, p);
      } else if st.state == Header(InValue) {
        turn, more := ValueTurn(limit, data, p0, acts, p);
      } else if st.state.BodyIdentity? {
        turn, more := IdentityTurn(limit, data, p0, acts);
      } else if st.state.BodyIdentityEof? {
        turn, more := EofTurn(limit, data, p0, acts);
      } else if st.state == Chunk(InData) {
        turn, more := ChunkTurn(limit, data, p0, acts);
      } else {
        turn, more := SwitchTurn(limit, data, p0, acts, p);
      }
    }

    /** The callbacks for a mark that is left over when the buffer ends; there is at most one. */
    method FlushLeftovers(data: Bytes)
      requires Consistent(data, |data|)
      modifies this`log, this`marks, this`mark
      ensures log == before + shown
    {
      hide *;
      AtMostOneMark(data, |data|);
      assert |marks| <= 1;
      OneOfFive(mark);
      CallbackData(data, Field, |data|);
      CallbackData(data, Value, |data|);
      CallbackData(data, Url, |data|);
      CallbackData(data, Body, |data|);
      CallbackData(data, Status, |data|);
      NothingToFlush(data, |data|);
    }

    /** At the start of a call a mark is set at the first byte if the state is inside a span. */
    method EnterMarks()
      modifies this`pos, this`marks
      ensures pos == 0
      ensures marks == match EntryMark(st.state) case On(s) => map[s := 0] case Off(_) => map[]
    {
      pos, marks := 0, map[];
      match st.state {
        case Header(InField) => SetMark(Field);
        case Header(InValue) => SetMark(Value);
        case InUrl(_) => SetMark(Url);
        case StatusLine(ResStatus) => SetMark(Status);
        case _ =>
      }
    }

    method EnterCall()
      requires Resting(st)
      modifies this`pos, this`marks, this`before, this`shown, this`mark
      ensures pos == 0 && before == log && shown == EntryLog(st.state) && mark == EntryMark(st.state)
      ensures forall data: Bytes :: Consistent(data, 0)
    {
      hide EntryMark;
      EnterMarks();
      before, shown, mark := log, EntryLog(st.state), EntryMark(st.state);
      EntryFits(st.state);
      forall data: Bytes
        ensures Consistent(data, 0)
      {
        assert mark.On? ==> data[0..0] == [];
      }
    }

    /** A call without data announces the end of the stream.  It succeeds exactly when the parser is in no message
        or in one whose body lasts to the end of the stream; that message, if any, is then completed. */
    method EndOfStream() returns (used: nat)
      requires errno.NoError?
      modifies this`log, this`errno
      ensures errno.NoError? <==> Unfinished(st.state) == 0 || st.state.BodyIdentityEof?
      ensures errno.NoError? ==> used == 0 && Ended(st.state, old(log), log)
      ensures errno.Error? ==> used == 1 && errno == Error(InvalidEofState) && log == old(log)
    {
      match st.state {
        case BodyIdentityEof =>
          log := log + [Notify(MessageComplete)];
          used := 0;
        case Dead => used := 0;
        case StartReqOrRes => used := 0;
        case StartRes => used := 0;
        case StartReq => used := 0;
        case _ =>
          errno := Error(InvalidEofState);
          used := 1;
      }
    }

    /** `http_parser_execute`: it gets through a buffer exactly when the byte machine does, and then ends with
        the machine's fields and has reported the machine's events; otherwise it reports an error. */
    method Execute(limit: nat, data: Bytes) returns (used: nat)
      requires errno.NoError? ==> Resting(st)
      requires limit + |data| < WORD && st.nread + |data| < WORD
      modifies this
      ensures old(errno).Error? ==> used == 0 && errno == old(errno) && st == old(st) && log == old(log)
      ensures old(errno).NoError? && data != [] ==>
                match Run(limit, old(st), data)
                case Done(p, acts) =>
                  && errno.NoError? && st == p && used == |data| && Resting(st)
                  && log == old(log) + Reported(old(st), acts)
                case Stopped(p, acts, n) =>
                  && errno.NoError? && st == p && used == n && 0 < n <= |data| && Resting(st)
                  && log == old(log) + Reported(old(st), acts)
                case Failed(e) =>
                  && Blames(e, errno) && used <= |data|
                  && log == old(log) + Flushed(old(st), Told(limit, old(st), data))
                case Crashed => false
      ensures old(errno).NoError? && data == [] ==>
                && st == old(st) && (errno.NoError? <==> Unfinished(st.state) == 0 || st.state.BodyIdentityEof?)
                && (errno.NoError? ==> used == 0 && Ended(st.state, old(log), log))
                && (errno.Error? ==> used == 1 && errno == Error(InvalidEofState) && log == old(log))
    {
      hide Blames, Ended, Reported, Told, Flushed, SwitchTold, Run, LegalAll, AfterAll, Render, Inv, Consistent;
      if errno.Error? {
        return 0;
      }
      if data == [] {
        used := EndOfStream();
        return;
      }
      ghost var p0, log0, acts := st, log, [];
      EnterCall();
      EntryReached(limit, p0, data);
      while pos < |data|
        invariant pos <= |data| && errno.NoError? && before == log0
        invariant Reached(limit, data, pos, p0, acts, st)
        invariant st.nread <= if p0.nread < limit then limit else p0.nread
        decreases |data| - pos
      {
        var turn;
        ghost var more;
        turn, more := NextTurn(limit, data, p0, acts);
        if turn.Break? {
          return pos;
        }
        acts := acts + more;
        pos := pos + 1;
        if turn.Leave? {
          LeavesNoMark(limit, p0, data, acts, st);
          NothingToFlush(data, pos);
          return pos;
        }
        RunReaches(limit, p0, data[..pos], st, acts);
      }
      assert data[..pos] == data;
      FlushLeftovers(data);
      used := |data|;
    }

    lemma NothingToFlush(data: Bytes, end: nat)
      requires Consistent(data, end) && mark.Off?
      ensures log == before + shown
    {
    }
  }

  // ---------------------------------------------------------------- small facts for the methods

  lemma ShownGrows(log: seq<Event>, before: seq<Event>, shown: seq<Event>, s: Span, x: Bytes, y: Bytes)
    requires EndsWith(shown, s) && log + [Data(s, x)] == before + shown
    ensures log + [Data(s, x + y)] == before + Extend(shown, y)
  {
    var n := |before + shown|;
    assert (before + shown)[n - 1] == Last(shown);
    assert (log + [Data(s, x)])[n - 1] == Data(s, x);
    assert log == (log + [Data(s, x)])[..n - 1] == (before + shown)[..n - 1] == before + shown[..|shown| - 1];
  }

  lemma SpanOpens(log: seq<Event>, before: seq<Event>, shown: seq<Event>, s: Span, x: Bytes)
    requires log == before + shown
    ensures log + [Data(s, x)] == before + (shown + [Data(s, x)])
  {
  }

  lemma TwoActs(m: Mark, shown: seq<Event>, acts: seq<Act>)
    requires LegalAll(m, acts)
    ensures |acts| == 0 ==> AfterAll(m, acts) == m && Render(shown, acts) == shown
    ensures |acts| > 0 ==> Legal(m, acts[0])
    ensures |acts| == 1 ==>
              AfterAll(m, acts) == After(m, acts[0]) && Render(shown, acts) == Render1(shown, acts[0])
    ensures |acts| == 2 ==>
              && Legal(After(m, acts[0]), acts[1])
              && AfterAll(m, acts) == After(After(m, acts[0]), acts[1])
              && Render(shown, acts) == Render1(Render1(shown, acts[0]), acts[1])
  {
    hide Legal, After, Render1;
    if |acts| == 1 {
      assert acts[1..] == [];
    } else if |acts| == 2 {
      var rest := acts[1..];
      var m1, shown1 := After(m, acts[0]), Render1(shown, acts[0]);
      assert rest[0] == acts[1] && rest[1..] == [];
      assert LegalAll(m1, rest) && AfterAll(m1, rest) == After(m1, acts[1]);
      assert Render(shown1, rest) == Render1(shown1, acts[1]);
    }
  }

  lemma TimedActs(m: Mark, acts: seq<Act>, ch: Byte, consumed: bool)
    requires LegalAll(m, acts) && Timed(m, acts, ch, consumed)
    ensures |acts| <= 2
    ensures forall i :: 0 <= i < |acts| && acts[i].Take? ==> acts[i].byte == ch
    ensures |acts| == 2 ==> !acts[1].Open? && (acts[1].Take? ==> !acts[0].Take?)
    ensures AfterAll(m, acts).Off? || (if consumed then acts != [] && acts[|acts| - 1].Take?
                                       else forall i :: 0 <= i < |acts| ==> !acts[i].Take?)
  {
    TwoActs(m, [], acts);
    hide LegalAll, AfterAll, Render, Render1;
  }

  /** What a run that got through leaves behind. */
  lemma RunReaches(limit: nat, p0: Parser, data: Bytes, p: Parser, acts: seq<Act>)
    requires Resting(p0) && Run(limit, p0, data) == Done(p, acts)
    ensures Resting(p) && LegalAll(EntryMark(p0.state), acts)
    ensures Allowed(p.state, AfterAll(EntryMark(p0.state), acts))
    ensures p.nread <= if p0.nread < limit then limit else p0.nread
  {
    hide Run, Inv, Allowed, LegalAll, AfterAll;
    EntryFits(p0.state);
    RunSound(limit, p0, data, EntryMark(p0.state));
  }

  lemma InFieldHs(p: Parser, m: Mark)
    requires Inv(p) && p.state == Header(InField) && Allowed(p.state, m)
    ensures FieldHs(p.hs) && m == On(Field)
  {
  }

  lemma FieldByteHs(p: Parser, ch: Byte)
    requires FieldHs(p.hs) && IsToken(ch)
    ensures FieldHs(FieldByte(p, ch).hs)
  {
    hide Match, IsToken, Lower;
    var c, i := Lower(ch), Bump(p.index);
    MatchShape(p.hs, "connection", i, c, Connection, General);
    MatchShape(p.hs, "proxy-connection", i, c, Connection, General);
    MatchShape(p.hs, "content-length", i, c, ContentLength, General);
    MatchShape(p.hs, "transfer-encoding", i, c, TransferEncoding, General);
    MatchShape(p.hs, "upgrade", i, c, Upgrade, General);
  }

  lemma MatchShape(hs: HeaderState, word: string, i: nat, c: Byte, found: HeaderState, other: HeaderState)
    ensures var r := Match(hs, word, i, c, found, other); r == hs || r == found || r == other
  {
  }

  predicate Printable(bytes: Bytes) { forall i :: 0 <= i < |bytes| ==> IsHeaderChar(bytes[i]) }

  lemma FieldFoldNone(p: Parser)
    ensures FieldFold(p, []) == p
  {
  }

  lemma FieldFoldOne(p: Parser, ch: Byte)
    requires IsToken(ch)
    ensures Tokens([ch]) && FieldFold(p, [ch]) == FieldByte(p, ch)
  {
    hide FieldByte;
    assert [ch][1..] == [];
  }

  lemma ValueFoldNone(p: Parser)
    ensures ValueFold(p, []) == Ok(p)
  {
  }

  lemma ValueFoldOne(p: Parser, ch: Byte)
    ensures ValueFold(p, [ch]) == ValueByte(p, ch)
  {
    hide ValueByte;
    assert [ch][1..] == [];
  }

  lemma InLinePrefix(bytes: Bytes, n: nat)
    requires InLine(bytes) && n <= |bytes|
    ensures InLine(bytes[..n])
  {
  }

  lemma OneOfFive(m: Mark)
    ensures m.Off? || m == On(Field) || m == On(Value) || m == On(Url) || m == On(Body) || m == On(Status)
  {
    if m.On? {
      match m.span {
        case Status => case Url => case Field => case Value => case Body =>
      }
    }
  }

  lemma InLineJoin(data: Bytes, i: nat, j: nat, k: nat)
    requires i <= j <= k <= |data| && InLine(data[i..j]) && InLine(data[j..k])
    ensures InLine(data[i..k])
  {
    hide IsLineEnd;
    assert data[i..k] == data[i..j] + data[j..k];
  }

  lemma PassableParts(bytes: Bytes, s0: Parser)
    requires Passable(bytes, s0)
    ensures InLine(bytes) && ValueFold(s0, bytes).Ok?
  {
    hide InLine, ValueFold;
  }

  /** A value that the matcher lets pass ends in the value or beyond the limit. */
  lemma ValueWhole(limit: nat, p: Parser, s0: Parser, bytes: Bytes)
    requires Inv(p) && p.state == Header(InValue) && s0 == p.(nread := p.nread + 1)
    requires InLine(bytes) && ValueFold(s0, bytes).Ok? && |bytes| == limit
    ensures var out := Run(limit, p, bytes);
            || out.Failed?
            || (out.Done? && out.acts == Takes(Value, bytes) && out.p.state == Header(InValue)
                && out.p.nread + 1 > limit)
  {
    hide ValueFold, Inv, InLine, Takes;
    ValuePassed(limit, p, s0, bytes, ValueFold(s0, bytes).p);
  }

  lemma ValueFails(limit: nat, p: Parser, s0: Parser, bytes: Bytes, q: Parser)
    requires Inv(p) && p.state == Header(InValue) && s0 == p.(nread := p.nread + 1)
    requires InLine(bytes) && ValueFold(s0, bytes) == Ok(q) && bytes != [] && p.nread + |bytes| > limit
    ensures Run(limit, p, bytes).Failed?
  {
    hide ValueFold, Inv, InLine, Takes, Run;
    ValuePassed(limit, p, s0, bytes, q);
  }

  lemma InValueOverflows(limit: nat, p: Parser, ch: Byte)
    requires p.state == Header(InValue) && p.nread + 1 > limit
    ensures Step(limit, p, ch).Fail? && Count(p).nread > limit && ParsingHeader(p.state)
  {
    hide Loop;
  }

  lemma RefusalOf(p: Parser, ch: Byte)
    ensures ValueByte(p, ch).Err? ==> RefusesValue(ValueByte(p, ch).errno)
  {
    hide CodingByte, ConnectionByte, CodingHs, ConnectionHs, IsHeaderChar;
  }

  /** The matcher gets through a stretch of a value. */
  predicate Passable(bytes: Bytes, s0: Parser) { InLine(bytes) && ValueFold(s0, bytes).Ok? }

  lemma PassableUpTo(s0: Parser, p: Parser, data: Bytes, i: nat, j: nat, k: nat)
    requires i <= j <= k <= |data| && InLine(data[i..k]) && ValueFold(s0, data[i..k]) == Ok(p)
    ensures Passable(data[i..j], s0)
  {
    hide InLine, ValueFold;
    InLinePrefix(data[i..k], j - i);
    assert data[i..k][..j - i] == data[i..j];
    assert data[i..k] == data[i..j] + data[j..k];
    ValueFoldAppend(s0, data[i..j], data[j..k]);
  }

  /** Any printable bytes pass when the value is of no interest. */
  lemma GeneralPassed(s0: Parser, p: Parser, data: Bytes, start: nat, i: nat, n: nat)
    requires start <= i <= n <= |data| && ValueFold(s0, data[start..i]) == Ok(p) && p.hs.General?
    requires InLine(data[start..i]) && InLine(data[i..n]) && Printable(data[i..n])
    ensures InLine(data[start..n]) && ValueFold(s0, data[start..n]) == Ok(p)
  {
    hide ValueFold, InLine, IsHeaderChar;
    InLineJoin(data, start, i, n);
    ValueFoldGeneral(p, data[i..n]);
    ValueFoldAppend(s0, data[start..i], data[i..n]);
    assert data[start..n] == data[start..i] + data[i..n];
  }

  lemma GeneralBad(s0: Parser, p: Parser, data: Bytes, start: nat, i: nat, n: nat)
    requires start <= i <= n < |data| && ValueFold(s0, data[start..i]) == Ok(p) && p.hs.General?
    requires InLine(data[start..i]) && InLine(data[i..n]) && Printable(data[i..n])
    requires !IsHeaderChar(data[n]) && !IsLineEnd(data[n])
    ensures InLine(data[start..n + 1]) && ValueFold(s0, data[start..n + 1]) == Err(InvalidHeaderToken)
  {
    hide ValueFold, Printable, IsHeaderChar, IsLineEnd;
    ValueBad(s0, p, data[start..i], data[i..n], data[n]);
    assert data[start..n + 1] == data[start..i] + data[i..n] + [data[n]];
    assert InLine(data[n..n + 1]) by { assert data[n..n + 1] == [data[n]]; }
    hide InLine;
    InLineJoin(data, start, i, n);
    InLineJoin(data, start, n, n + 1);
  }

  /** A byte that may not stand in a value spoils it, whatever has been matched. */
  lemma ValueBad(s0: Parser, p: Parser, span: Bytes, skipped: Bytes, ch: Byte)
    requires ValueFold(s0, span) == Ok(p) && p.hs.General? && Printable(skipped) && !IsHeaderChar(ch)
    ensures ValueFold(s0, span + skipped + [ch]) == Err(InvalidHeaderToken)
  {
    ValueFoldGeneral(p, skipped);
    ValueFoldAppend(s0, span, skipped);
    ValueFoldAppend(s0, span + skipped, [ch]);
    ValueFoldOne(p, ch);
  }

  lemma InValueFacts(p: Parser, s0: Parser, m: Mark)
    requires Inv(p) && p.state == Header(InValue) && Allowed(p.state, m) && s0 == Count(p)
    ensures HeaderInv(s0, InValue) && m == On(Value) && s0.nread == p.nread + 1 && s0 == p.(nread := p.nread + 1)
  {
  }

  /** A value that the matcher refuses makes the machine fail, whatever the count. */
  lemma ValueRefused(limit: nat, p: Parser, s0: Parser, bytes: Bytes, e: Errno)
    requires Inv(p) && p.state == Header(InValue) && s0 == p.(nread := p.nread + 1)
    requires InLine(bytes) && ValueFold(s0, bytes) == Err(e)
    ensures Run(limit, p, bytes) == Failed(e) || Run(limit, p, bytes) == Failed(HeaderOverflow)
  {
    hide ValueFold, Inv;
    ValueRun(limit, p, bytes);
    ValueFoldCount(p, bytes, p.nread + 1);
  }

  lemma ValuePassed(limit: nat, p: Parser, s0: Parser, bytes: Bytes, q: Parser)
    requires Inv(p) && p.state == Header(InValue) && s0 == p.(nread := p.nread + 1)
    requires InLine(bytes) && ValueFold(s0, bytes) == Ok(q)
    ensures q.nread == p.nread + 1 && q.state == Header(InValue)
    ensures Run(limit, p, bytes) ==
            if bytes != [] && p.nread + |bytes| > limit then Failed(HeaderOverflow)
            else Done(q.(nread := p.nread + |bytes|), Takes(Value, bytes))
  {
    hide ValueFold, Inv;
    ValueRun(limit, p, bytes);
    ValueFoldCount(p, bytes, p.nread + 1);
  }

  /** Jumping past more bytes than the limit allows is harmless: the machine has failed by then. */
  lemma ValueOver(limit: nat, p: Parser, s0: Parser, bytes: Bytes, ch: Byte)
    requires Inv(p) && p.state == Header(InValue) && s0 == p.(nread := p.nread + 1)
    requires Passable(bytes, s0) && |bytes| == limit
    ensures Run(limit, p, bytes + [ch]) == Failed(HeaderOverflow)
  {
    hide Loop, ValueFold, Inv;
    ValueRun(limit, p, bytes);
    ValueFoldCount(p, bytes, p.nread + 1);
    RunAppend(limit, p, bytes, [ch]);
    if Run(limit, p, bytes).Done? {
      RunOne(limit, Run(limit, p, bytes).p, ch);
    }
  }

  /** Acts that take a stretch of body, take its last byte and close it. */
  lemma BodyEndActs(m: Mark, shown: seq<Event>, bytes: Bytes, ch: Byte)
    requires m == Off(false) || m == On(Body)
    ensures var first, last := Takes(Body, bytes), [Take(Body, ch), Close(Body)];
            && LegalAll(m, first) && LegalAll(AfterAll(m, first), last)
            && AfterAll(AfterAll(m, first), last) == Off(true)
            && Render(Render(shown, first), last) == Render(shown, Takes(Body, bytes + [ch]))
  {
    var first, last := Takes(Body, bytes), [Take(Body, ch), Close(Body)];
    AfterTakes(m, Body, bytes);
    var m1 := AfterAll(m, first);
    assert last[1..] == [Close(Body)] && last[1..][1..] == [];
    assert LegalAll(After(m1, last[0]), last[1..]);
    TwoActs(m1, Render(shown, first), last);
    assert Takes(Body, bytes + [ch]) == first + [Take(Body, ch)];
    RenderAppend(shown, first, [Take(Body, ch)]);
    assert [Take(Body, ch)][1..] == [];
    assert Render(Render(shown, first), [Take(Body, ch)]) == Render1(Render(shown, first), Take(Body, ch));
  }

  /** The last byte of a body of known length. */
  lemma IdentityLast(limit: nat, p: Parser, ch: Byte, q: Parser)
    requires p.state.BodyIdentity? && p.length == 1 && q == p.(length := 0, state := MessageDone)
    ensures Step(limit, p, ch) == Prepend([Take(Body, ch), Close(Body)], Loop(q, ch))
  {
  }

  lemma MessageDoneNext(p: Parser, ch: Byte)
    requires p.state.MessageDone? && !p.kind.Both? && p.length <= NO_LENGTH
    ensures Inv(p) && Counted(p) && Allowed(p.state, Off(true))
    ensures var out := Loop(p, ch); (out.Next? || out.Halt?) && LoopOk(p, Off(true), out)
  {
    LoopSound(p, ch, Off(true));
  }

  /** A body of known length from here to its end, and the end of the message with it. */
  lemma BodyEnds(limit: nat, p: Parser, bytes: Bytes, ch: Byte, q: Parser, m: Mark, shown: seq<Event>)
    requires p.state.BodyIdentity? && Inv(p) && |bytes| + 1 == p.length && (m == Off(false) || m == On(Body))
    requires q == p.(length := 0, state := MessageDone)
    ensures Counted(q) && Allowed(q.state, Off(true))
    ensures var out := Loop(q, ch);
            && (out.Next? || out.Halt?) && LoopOk(q, Off(true), out)
            && var more := Takes(Body, bytes) + ([Take(Body, ch), Close(Body)] + out.acts);
               && Run(limit, p, bytes + [ch]) ==
                    (if out.Next? then Done(out.p, more) else Stopped(out.p, more, |bytes| + 1))
               && LegalAll(m, more) && AfterAll(m, more) == AfterAll(Off(true), out.acts)
               && Render(shown, more) == Render(Render(shown, Takes(Body, bytes + [ch])), out.acts)
  {
    hide Run, LegalAll, AfterAll, Render, Loop, Step;
    var first, last, out := Takes(Body, bytes), [Take(Body, ch), Close(Body)], Loop(q, ch);
    MessageDoneNext(q, ch);
    IdentityRun(limit, p, bytes);
    IdentityLast(limit, p.(length := 1), ch, q);
    RunThenStep(limit, p, bytes, ch, p.(length := 1), first);
    BodyEndActs(m, shown, bytes, ch);
    LegalAppend(m, first, last + out.acts);
    LegalAppend(AfterAll(m, first), last, out.acts);
    RenderAppend(shown, first, last + out.acts);
    RenderAppend(Render(shown, first), last, out.acts);
  }

  lemma EntryReached(limit: nat, p0: Parser, data: Bytes)
    requires Resting(p0)
    ensures Run(limit, p0, data[..0]) == Done(p0, []) && Allowed(p0.state, EntryMark(p0.state))
    ensures LegalAll(EntryMark(p0.state), []) && AfterAll(EntryMark(p0.state), []) == EntryMark(p0.state)
    ensures Reported(p0, []) == EntryLog(p0.state)
  {
    EntryFits(p0.state);
  }

  /** A machine that stops has closed its span. */
  lemma LeavesNoMark(limit: nat, p0: Parser, data: Bytes, acts: seq<Act>, p: Parser)
    requires Resting(p0) && Run(limit, p0, data).Stopped?
    requires Run(limit, p0, data).p == p && Run(limit, p0, data).acts == acts
    ensures AfterAll(EntryMark(p0.state), acts).Off? && Resting(p)
  {
    hide Run, Inv, AfterAll, LegalAll;
    EntryFits(p0.state);
    RunSound(limit, p0, data, EntryMark(p0.state));
  }

  lemma NothingDone(m: Mark, shown: seq<Event>, out: Out)
    ensures AfterAll(m, []) == m && Render(shown, []) == shown
    ensures Prepend([], out) == out
  {
    if out.Next? || out.Halt? || out.Again? {
      assert [] + out.acts == out.acts;
    }
  }

  lemma PrependTwice(a: seq<Act>, b: seq<Act>, out: Out)
    ensures Prepend(a, Prepend(b, out)) == Prepend(a + b, out)
  {
    if out.Next? || out.Halt? || out.Again? {
      assert a + (b + out.acts) == (a + b) + out.acts;
    }
  }

  lemma AgainCounted(p: Parser, ch: Byte, m: Mark, out: Out)
    requires out.Again? && Inv(out.p) && !out.p.state.Chunk?
    ensures Counted(out.p)
  {
  }
}
