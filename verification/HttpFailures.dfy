/** What a call that fails has reported: the callbacks of everything up to the byte that was refused, but for the
    span that was open there. */
module HttpFailures {
  import opened HttpSyntax
  import opened HttpMachine
  import opened HttpInvariant
  import opened HttpRun
  import opened HttpSpans

  /** What the switch has done when it gives a byte up. */
  function SwitchTold(p: Parser, ch: Byte): seq<Act>
    decreases Rank(p.state)
  {
    match Micro(p, ch)
    case Again(q, acts) => if Rank(q.state) < Rank(p.state) then acts + SwitchTold(q, ch) else []
    case _ => []
  }

  /** What the machine has done when it fails. */
  function Told(limit: nat, p: Parser, data: Bytes): seq<Act>
    decreases |data|
  {
    if data == [] then []
    else
      match Step(limit, p, data[0])
      case Next(q, acts) => acts + Told(limit, q, data[1..])
      case _ => if Count(p).nread > limit && ParsingHeader(p.state) then [] else SwitchTold(Count(p), data[0])
  }

  /** The events of that, without the span that is still open. */
  function Flushed(p: Parser, acts: seq<Act>): seq<Event> {
    var es := Reported(p, acts);
    if AfterAll(EntryMark(p.state), acts).On? && es != [] then es[..|es| - 1] else es
  }

  lemma {:induction false} ToldAppend(limit: nat, p: Parser, a: Bytes, b: Bytes)
    ensures Run(limit, p, a).Done? ==>
            Told(limit, p, a + b) == Run(limit, p, a).acts + Told(limit, Run(limit, p, a).p, b)
    ensures Run(limit, p, a).Failed? ==> Told(limit, p, a + b) == Told(limit, p, a)
    decreases |a|
  {
    hide Step, SwitchTold, Count, ParsingHeader;
    if a == [] {
      assert a + b == b;
    } else {
      assert (a + b)[0] == a[0] && (a + b)[1..] == a[1..] + b;
      var out := Step(limit, p, a[0]);
      if out.Next? {
        ToldAppend(limit, out.p, a[1..], b);
      }
    }
  }

  lemma ToldOne(limit: nat, p: Parser, ch: Byte, rest: Bytes)
    requires Step(limit, p, ch).Fail?
    ensures Told(limit, p, [ch] + rest) ==
            if Count(p).nread > limit && ParsingHeader(p.state) then [] else SwitchTold(Count(p), ch)
  {
    hide Step, SwitchTold, Count, ParsingHeader;
  }

  /** The bytes of a span that stays open are not reported. */
  lemma FlushedSpan(p: Parser, acts: seq<Act>, s: Span, bytes: Bytes)
    requires LegalAll(EntryMark(p.state), acts) && AfterAll(EntryMark(p.state), acts) == On(s)
    ensures Flushed(p, acts + Takes(s, bytes)) == Flushed(p, acts)
  {
    hide Render, LegalAll, AfterAll, EntryMark, EntryLog, Takes;
    EntryFits(p.state);
    RenderFits(EntryLog(p.state), EntryMark(p.state), acts);
    RenderAppend(EntryLog(p.state), acts, Takes(s, bytes));
    RenderTakes(Reported(p, acts), s, bytes);
    LegalAppend(EntryMark(p.state), acts, Takes(s, bytes));
    AfterTakes(On(s), s, bytes);
  }

  /** A name that is given up has done nothing but take bytes of it. */
  lemma {:induction false} FieldTold(limit: nat, p: Parser, bytes: Bytes) returns (k: nat)
    requires Inv(p) && p.state == Header(InField) && Tokens(bytes) && Run(limit, p, bytes).Failed?
    ensures k <= |bytes| && Told(limit, p, bytes) == Takes(Field, bytes[..k])
    decreases |bytes|
  {
    hide Step, FieldByte, HeaderInv, SwitchTold;
    FieldStep(limit, p, bytes[0]);
    if p.nread + 1 > limit {
      k := 0;
    } else {
      var q := FieldByte(p, bytes[0]);
      FieldByteInv(p, bytes[0]);
      HeaderInvCount(q, InField, p.nread + 1);
      var n := FieldTold(limit, q.(nread := p.nread + 1), bytes[1..]);
      k := n + 1;
      TakesFirst(Field, bytes, k);
    }
  }

  lemma TakesFirst(s: Span, bytes: Bytes, k: nat)
    requires 0 < k <= |bytes|
    ensures Takes(s, bytes[..k]) == [Take(s, bytes[0])] + Takes(s, bytes[1..][..k - 1])
  {
    TakesCons(s, bytes[..k]);
    assert bytes[..k][1..] == bytes[1..][..k - 1];
  }

  /** Likewise a value. */
  lemma {:induction false} ValueTold(limit: nat, p: Parser, bytes: Bytes) returns (k: nat)
    requires Inv(p) && p.state == Header(InValue) && InLine(bytes) && Run(limit, p, bytes).Failed?
    ensures k <= |bytes| && Told(limit, p, bytes) == Takes(Value, bytes[..k])
    decreases |bytes|
  {
    hide Step, ValueByte, HeaderInv, SwitchTold;
    ValueStep(limit, p, bytes[0]);
    ValueByteInv(p, bytes[0]);
    if p.nread + 1 > limit {
      k := 0;
    } else if ValueByte(p, bytes[0]).Err? {
      RefusedTold(Count(p), bytes[0]);
      k := 0;
    } else {
      var q := ValueByte(p, bytes[0]).p;
      HeaderInvCount(q, InValue, p.nread + 1);
      var n := ValueTold(limit, q.(nread := p.nread + 1), bytes[1..]);
      k := n + 1;
      TakesFirst(Value, bytes, k);
    }
  }

  lemma RefusedTold(p: Parser, ch: Byte)
    requires p.state == Header(InValue) && !IsLineEnd(ch)
    ensures SwitchTold(p, ch) == []
  {
    hide ValueByte, StepFieldStart, StepField, StepDiscardWs, StepDiscardLws, StepValueStart, StepValueLws,
         StepHeadersAlmostDone, StepHeadersDone;
    HeaderMicro(p, InValue, ch);
  }

  // ---------------------------------------------------------------- places where little is allowed

  /** The places of the grammar where one byte alone, one of two, or a digit may follow. */
  predicate Narrow(s: State) {
    match s
    case StartRes => true
    case ResOrRespH => true
    case StatusLine(at) => !at.ResFirstStatusCode? && !at.ResStatusCode? && !at.ResStatusStart? && !at.ResStatus?
    case RequestLine(at) => !at.ReqHttpStart?
    case Header(at) => at.DiscardWsAlmostDone? || at.AlmostDone? || at.HeadersAlmostDone?
    case Chunk(at) => at.SizeAlmostDone? || at.DataAlmostDone? || at.DataDone?
    case _ => false
  }

  predicate Allows(s: State, c: Byte)
    requires Narrow(s)
  {
    match s
    case StartRes => c == 'H' || IsLineEnd(c)
    case ResOrRespH => c == 'T' || c == 'E'
    case StatusLine(at) =>
      (match at
       case ResHTT => c == 'P'
       case ResHTTP => c == '/'
       case ResDot => c == '.'
       case ResMajor => IsNum(c)
       case ResMinor => IsNum(c)
       case ResEnd => c == ' '
       case ResLineAlmostDone => c == LF
       case _ => c == 'T')
    case RequestLine(at) =>
      (match at
       case ReqHTT => c == 'P'
       case ReqHTTP => c == '/'
       case ReqI => c == 'C'
       case ReqIC => c == 'E'
       case ReqDot => c == '.'
       case ReqMajor => IsNum(c)
       case ReqMinor => IsNum(c)
       case ReqEnd => IsLineEnd(c)
       case ReqLineAlmostDone => c == LF
       case _ => c == 'T')
    case Chunk(DataAlmostDone) => c == CR
    case _ => c == LF
  }

  /** There every other byte is refused. */
  lemma NothingElse(limit: nat, p: Parser, ch: Byte)
    requires Inv(p) && Narrow(p.state) && !Allows(p.state, ch)
    ensures Step(limit, p, ch).Fail?
  {
    hide Step, Micro, Loop, Digit, IsNum;
    if Count(p).nread <= limit || !ParsingHeader(p.state) {
      NothingElseMicro(Count(p), ch);
      StepOnce(limit, p, ch);
    } else {
      Overflows(limit, p, ch);
    }
  }

  lemma NothingElseMicro(p: Parser, ch: Byte)
    requires Narrow(p.state) && !Allows(p.state, ch)
    requires p.state.Chunk? ==> p.flags.chunked && (p.state == Chunk(DataAlmostDone) ==> p.length == 0)
    ensures Micro(p, ch).Fail?
  {
    hide StepFieldStart, StepField, StepDiscardWs, StepDiscardLws, StepValueStart, StepValue, StepValueLws,
         StepHeadersDone, Digit, IsNum;
  }
}
