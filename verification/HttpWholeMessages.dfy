/** Messages from their first byte: requests and responses with any headers and the body that these announce, and
    whole conversations of requests. */
module HttpWholeMessages {
  import opened HttpSyntax
  import opened HttpMachine
  import opened HttpInvariant
  import opened HttpRun
  import opened HttpSpans
  import opened HttpNames
  import opened HttpFraming
  import opened HttpLists
  import opened HttpLines
  import opened HttpHeads
  import opened HttpBodies
  import opened HttpRequestLine
  import L = HttpStatusLine

  /** The first line of a message. */
  datatype Start =
    | RequestStart(verb: Method, url: Bytes, major: nat, minor: nat)
    | ResponseStart(code: Bytes, reason: Bytes, major: nat, minor: nat)

  datatype Message = Message(start: Start, lines: seq<Pair>, body: Payload)

  predicate GoodStart(s: Start) {
    && s.major <= 9 && s.minor <= 9
    && match s
       case RequestStart(verb, url, _, _) => GoodUrl(verb, url)
       case ResponseStart(code, reason, _, _) =>
         code != [] && Digits(code) && Decimal(0, code) <= 999 && InLine(reason)
  }

  function StartText(s: Start): Bytes
    requires GoodStart(s)
  {
    match s
    case RequestStart(verb, url, major, minor) => RequestLineText(verb, url, major, minor)
    case ResponseStart(code, reason, major, minor) => L.StatusLineText(major, minor, code, reason)
  }

  /** What is reported as the one span of the first line. */
  function StartData(s: Start): Event {
    match s
    case RequestStart(_, url, _, _) => Data(Url, url)
    case ResponseStart(_, reason, _, _) => Data(Span.Status, reason)
  }

  function KindOf(s: Start): Kind { if s.RequestStart? then Kind.Request else Kind.Response }

  function MessageText(m: Message): Bytes
    requires GoodStart(m.start)
  {
    StartText(m.start) + RestText(m.lines, m.body)
  }

  function FactsOf(m: Message): HeadFacts
    requires GoodStart(m.start)
  {
    HeadFacts(m.start.RequestStart?, m.start.RequestStart? && m.start.verb == CONNECT,
              if m.start.RequestStart? then 0 else Decimal(0, m.start.code),
              AnyTe(m.lines), Said(Codings, m.lines), Said(Options, m.lines), Upgrades(m.lines), Lengths(m.lines))
  }

  /** A message with any headers but at most one length, all within the limit on a header section. */
  predicate GoodHead(limit: nat, m: Message) {
    && GoodStart(m.start) && GoodLines(m.lines) && |Lengths(m.lines)| <= 1
    && |StartText(m.start)| + |LinesText(m.lines)| + 4 <= limit
  }

  /** And with the body that its head announces. */
  predicate Sent(limit: nat, m: Message) { GoodHead(limit, m) && Carries(limit, FactsOf(m), m.body) }

  function MessageEvents(m: Message): seq<Event> {
    [Notify(MessageBegin), StartData(m.start)] + RestEvents(m.lines, m.body)
  }

  function MessageActs(m: Message): seq<Act> {
    [Tell(MessageBegin)] + SpanActs(StartData(m.start).span, StartData(m.start).bytes) + RestActs(m.lines, m.body)
  }

  /** Does the connection last, by the version and by the options that the headers name? */
  predicate Lasts(m: Message) { Persists(m.start.major, m.start.minor, Said(Options, m.lines)) }

  /** A parser between two messages, or before the first one. */
  predicate Idle(p: Parser, kind: Kind) {
    && Inv(p) && p.kind == kind && p.nread <= 2
    && (if kind.Request? then p.state == StartReq && p.status == 0
        else kind.Response? && p.state == StartRes && p.verb != CONNECT)
  }

  lemma InitIdle(kind: Kind)
    requires !kind.Both?
    ensures Idle(Init(kind), kind)
  {
  }

  // ---------------------------------------------------------------- one message

  /** The first line, from any parser that waits for a message. */
  lemma StartRun(limit: nat, p: Parser, m: Message) returns (q: Parser)
    requires Idle(p, KindOf(m.start)) && GoodHead(limit, m)
    ensures Run(limit, p, StartText(m.start)) ==
            Done(q, [Tell(MessageBegin)] + SpanActs(StartData(m.start).span, StartData(m.start).bytes))
    ensures Starts(q) && HeadOf(q, m.lines) == FactsOf(m) && q.nread <= |StartText(m.start)| + 2
    ensures q.kind == p.kind && q.major == m.start.major && q.minor == m.start.minor
    ensures q.status == if p.kind.Request? then 0 else q.status
    ensures p.kind.Response? ==> q.verb == p.verb
  {
    hide Run, RequestLineText, L.StatusLineText, GoodUrl, Digits, Decimal, InLine, GoodLines, SpanActs, LinesText;
    match m.start {
      case RequestStart(verb, url, major, minor) =>
        q := AfterRequestLine(p, verb, |StartText(m.start)|, major, minor);
        RequestLineRun(limit, p, verb, url, major, minor);
        RequestStarts(p, verb, |StartText(m.start)|, major, minor);
      case ResponseStart(code, reason, major, minor) =>
        q := L.AfterStatus(p, major, minor, Decimal(0, code), |StartText(m.start)|);
        L.StatusRun(limit, p, major, minor, code, reason);
        StatusStarts(p, major, minor, Decimal(0, code), |StartText(m.start)|);
    }
  }

  lemma RequestStarts(p: Parser, verb: Method, n: nat, major: nat, minor: nat)
    requires p.kind.Request?
    ensures Starts(AfterRequestLine(p, verb, n, major, minor))
  {
  }

  lemma StatusStarts(p: Parser, major: nat, minor: nat, status: nat, n: nat)
    requires p.kind.Response? && p.verb != CONNECT
    ensures Starts(L.AfterStatus(p, major, minor, status, n))
  {
  }

  /** A whole message, from any parser that waits for one.  It is taken to its last byte; where the protocol is
      switched the call ends there.  The next message is waited for if and only if the connection lasts. */
  lemma OneMessage(limit: nat, p: Parser, m: Message) returns (q: Parser)
    requires Idle(p, KindOf(m.start)) && Sent(limit, m)
    ensures Run(limit, p, MessageText(m)) ==
            if Switches(FactsOf(m)) then Stopped(q, MessageActs(m), |MessageText(m)|) else Done(q, MessageActs(m))
    ensures if Lasts(m) then Idle(q, p.kind) else q.state == Dead
  {
    hide Run, Inv, StartText, Carries, RestText, RestActs, GoodHead, Starts, HeadOf, Persists, SpanActs;
    hide Said, GoodLines, LinesText, Lengths, KindOf, StartData, Switches;
    HeadFits(limit, m);
    var p1 := StartRun(limit, p, m);
    q := MessageRun(limit, p1, m.lines, m.body);
    RunAppend(limit, p, StartText(m.start), RestText(m.lines, m.body));
    assert Inv(q) by { IdleInv(limit, p, MessageText(m)); }
  }

  lemma HeadFits(limit: nat, m: Message)
    requires GoodHead(limit, m)
    ensures GoodStart(m.start) && GoodLines(m.lines) && |Lengths(m.lines)| <= 1
    ensures |StartText(m.start)| + |LinesText(m.lines)| + 4 <= limit
  {
    hide GoodLines, Lengths, LinesText, StartText, GoodStart;
  }

  lemma IdleInv(limit: nat, p: Parser, text: Bytes)
    requires Inv(p) && BetweenMessages(p.state)
    ensures var out := Run(limit, p, text); out.Done? || out.Stopped? ==> Inv(out.p)
  {
    hide Run, Inv, LegalAll, AfterAll;
    RunSound(limit, p, text, Off(false));
  }

  /** Its callbacks: the body that is reported is the data carried, and the message ends once. */
  lemma MessageReported(log: seq<Event>, limit: nat, m: Message)
    requires Sent(limit, m)
    ensures Render(log, MessageActs(m)) == log + MessageEvents(m)
    ensures BodyOf(MessageEvents(m)) == PayloadData(m.body) && CountOf(MessageEvents(m), MessageComplete) == 1
  {
    CarriesData(limit, FactsOf(m), m.body);
    SpanIs(m.start);
    hide *;
    var s, text, rest := StartData(m.start).span, StartData(m.start).bytes, RestActs(m.lines, m.body);
    var begun := log + [Notify(MessageBegin)];
    var started := begun + [Data(s, text)];
    ActsAre(m);
    RenderTell(log, MessageBegin, SpanActs(s, text) + rest);
    RenderAppend(begun, SpanActs(s, text), rest);
    RenderSpan(begun, s, text);
    RenderRest(started, m.lines, m.body);
    EventsAre(log, m);
    StartEvents(Data(s, text), RestEvents(m.lines, m.body));
    RestCounts(m.lines, m.body);
  }

  lemma SpanIs(s: Start)
    ensures StartData(s).Data? && !StartData(s).span.Body?
    ensures Data(StartData(s).span, StartData(s).bytes) == StartData(s)
  {
  }

  lemma ActsAre(m: Message)
    ensures MessageActs(m) ==
            [Tell(MessageBegin)]
            + (SpanActs(StartData(m.start).span, StartData(m.start).bytes) + RestActs(m.lines, m.body))
  {
    hide SpanActs, RestActs, StartData;
  }

  lemma EventsAre(log: seq<Event>, m: Message)
    ensures log + [Notify(MessageBegin)] + [StartData(m.start)] + RestEvents(m.lines, m.body) == log + MessageEvents(m)
    ensures MessageEvents(m) == [Notify(MessageBegin), StartData(m.start)] + RestEvents(m.lines, m.body)
  {
    hide RestEvents, StartData;
  }

  lemma CarriesData(limit: nat, h: HeadFacts, b: Payload)
    requires Carries(limit, h, b)
    ensures DataChunks(b)
  {
    hide Delimits, SizeLine;
  }

  /** The events of a start line, which carry no body. */
  lemma StartEvents(e: Event, events: seq<Event>)
    requires e.Data? && !e.span.Body?
    ensures BodyOf([Notify(MessageBegin), e] + events) == BodyOf(events)
    ensures CountOf([Notify(MessageBegin), e] + events, MessageComplete) == CountOf(events, MessageComplete)
  {
    hide BodyOf, CountOf;
    var begin := Notify(MessageBegin);
    BodyAppend([begin, e], events, MessageComplete);
    assert [begin, e] == [begin] + [e];
    BodyAppend([begin], [e], MessageComplete);
    BodyOne(begin, MessageComplete);
    BodyOne(e, MessageComplete);
  }

  // ---------------------------------------------------------------- transfer codings

  /** A transfer coding in a request or a response.  Where some Transfer-Encoding line, whatever the case of its
      name, ends with the coding "chunked" as the matcher hears it, any chunks are taken, and their data is the
      body.  Where none does, a request is refused whatever follows, and the body of a response lasts to the end of
      the stream; except that a message that switches to another protocol ends with its head. */
  lemma TransferDecides(limit: nat, p: Parser, m: Message) returns (q: Parser)
    requires Idle(p, KindOf(m.start)) && GoodHead(limit, m) && Lengths(m.lines) == [] && AnyTe(m.lines)
    requires m.body.Chunked? && WellChunked(limit, m.body.chunks, m.body.zero, m.body.extension)
    requires !FactsOf(m).connect
    ensures var out := Run(limit, p, MessageText(m));
            var headSize := |StartText(m.start)| + |LinesText(m.lines)| + 2;
            if exists i :: 0 <= i < |m.lines| && LineSaysWord(Codings, m.lines[i], CHUNKED) then
              && (if Switches(FactsOf(m)) then out == Stopped(q, MessageActs(m), |MessageText(m)|)
                  else out == Done(q, MessageActs(m)))
              && BodyOf(Reported(p, MessageActs(m))) == AllData(m.body.chunks)
              && CountOf(Reported(p, MessageActs(m)), MessageComplete) == 1
            else if Switches(FactsOf(m)) then out.Stopped? && out.used == headSize
            else if m.start.RequestStart? then out == Failed(InvalidTransferEncoding)
            else out.Done? && out.p.state == BodyIdentityEof
  {
    hide Run, Inv, StartText, RestText, RestActs, GoodHead, GoodLines, LinesText, Lengths, AnyTe, Said, Render,
         SpanActs, KindOf, BodyOf, CountOf, WellChunked, LineSaysWord, CHUNKED, UPGRADE, Upgrades, StartData,
         PayloadText;
    SaidExactly(Codings, m.lines, CHUNKED);
    HeadFits(limit, m);
    var h := FactsOf(m);
    if CHUNKED in h.codings {
      assert Delimits(h).InChunks? && Sent(limit, m);
      q := OneMessage(limit, p, m);
      NothingLogged(p, m);
      MessageReported([], limit, m);
      assert [] + MessageEvents(m) == MessageEvents(m);
    } else {
      var p1 := StartRun(limit, p, m);
      RunAppend(limit, p, StartText(m.start), RestText(m.lines, m.body));
      if Switches(h) {
        assert Delimits(h).Switched?;
        HeadStops(limit, p1, m.lines, m.body);
      } else if h.request {
        assert Delimits(h) == Refused(InvalidTransferEncoding);
        HeadFails(limit, p1, m.lines, m.body);
      } else {
        assert Delimits(h).UntilEof?;
        RestTextIs(m);
        q := EofMessage(limit, p1, m.lines, PayloadText(m.body));
      }
      q := p;
    }
  }

  lemma RestTextIs(m: Message)
    ensures RestText(m.lines, m.body) == LinesText(m.lines) + ([CR, LF] + PayloadText(m.body))
  {
    hide LinesText, PayloadText;
  }

  lemma NothingLogged(p: Parser, m: Message)
    requires Idle(p, KindOf(m.start))
    ensures EntryLog(p.state) == []
  {
  }

  /** In particular from a fresh parser: a message with a Transfer-Encoding line that says "chunked", anywhere among
      its headers, and any chunks. */
  lemma ChunkedMessage(limit: nat, m: Message, i: nat)
    requires GoodHead(limit, m) && Lengths(m.lines) == [] && !FactsOf(m).connect
    requires i < |m.lines| && LineSaysWord(Codings, m.lines[i], CHUNKED)
    requires m.body.Chunked? && WellChunked(limit, m.body.chunks, m.body.zero, m.body.extension)
    ensures var kind := KindOf(m.start);
            var out := Run(limit, Init(kind), MessageText(m));
            && (out.Done? || out.Stopped?)
            && BodyOf(Reported(Init(kind), out.acts)) == AllData(m.body.chunks)
            && CountOf(Reported(Init(kind), out.acts), MessageComplete) == 1
  {
    NotChunked();
    assert AnyTe(m.lines) by { assert BeginsTe(Lowered(m.lines[i].0)); }
    InitIdle(KindOf(m.start));
    hide Run, Idle, GoodHead, GoodStart, MessageText, MessageActs, BodyOf, CountOf, Reported, AnyTe, FactsOf, Switches,
         WellChunked, LineSaysWord, Lengths, CHUNKED, AllData, KindOf;
    var q := TransferDecides(limit, Init(KindOf(m.start)), m);
  }

  // ---------------------------------------------------------------- conversations

  predicate AllLast(limit: nat, ms: seq<Message>, kind: Kind) {
    forall i :: 0 <= i < |ms| ==>
                  KindOf(ms[i].start) == kind && Sent(limit, ms[i]) && Lasts(ms[i]) && !Switches(FactsOf(ms[i]))
  }

  function AllText(limit: nat, ms: seq<Message>, kind: Kind): Bytes
    requires AllLast(limit, ms, kind)
    decreases |ms|
  {
    if ms == [] then [] else MessageText(ms[0]) + AllText(limit, ms[1..], kind)
  }

  function AllEvents(ms: seq<Message>): seq<Event>
    decreases |ms|
  {
    if ms == [] then [] else MessageEvents(ms[0]) + AllEvents(ms[1..])
  }

  function AllActs(ms: seq<Message>): seq<Act>
    decreases |ms|
  {
    if ms == [] then [] else MessageActs(ms[0]) + AllActs(ms[1..])
  }

  function AllBodies(ms: seq<Message>): Bytes
    decreases |ms|
  {
    if ms == [] then [] else PayloadData(ms[0].body) + AllBodies(ms[1..])
  }

  lemma AllTail(limit: nat, ms: seq<Message>, kind: Kind)
    requires AllLast(limit, ms, kind) && ms != []
    ensures AllLast(limit, ms[1..], kind) && Sent(limit, ms[0]) && Lasts(ms[0]) && !Switches(FactsOf(ms[0]))
    ensures KindOf(ms[0].start) == kind && GoodStart(ms[0].start)
  {
    hide KindOf, Lasts, GoodStart, GoodLines, Carries, Lengths, StartText, LinesText, Switches, FactsOf;
  }

  /** Messages on one connection that lasts: however many there are, and however the body of each is delimited,
      each is taken to its last byte and the next one begins there, and the parser is left waiting for more. */
  lemma {:induction false} Conversation(limit: nat, p: Parser, ms: seq<Message>, kind: Kind) returns (q: Parser)
    requires Idle(p, kind) && AllLast(limit, ms, kind)
    ensures Run(limit, p, AllText(limit, ms, kind)) == Done(q, AllActs(ms)) && Idle(q, kind)
    decreases |ms|
  {
    hide Run, Idle, AllLast, Sent, Lasts, Switches, FactsOf, MessageText, MessageActs, KindOf;
    if ms == [] {
      q := p;
      RunNone(limit, p);
    } else {
      AllTail(limit, ms, kind);
      var p1 := OneMessage(limit, p, ms[0]);
      IdleKind(p, kind);
      q := Conversation(limit, p1, ms[1..], kind);
      RunAppend(limit, p, MessageText(ms[0]), AllText(limit, ms[1..], kind));
    }
  }

  lemma IdleKind(p: Parser, kind: Kind)
    requires Idle(p, kind)
    ensures p.kind == kind && EntryLog(p.state) == []
  {
    hide Inv;
  }

  lemma {:induction false} ConversationReported(log: seq<Event>, limit: nat, ms: seq<Message>, kind: Kind)
    requires AllLast(limit, ms, kind)
    ensures Render(log, AllActs(ms)) == log + AllEvents(ms)
    ensures BodyOf(AllEvents(ms)) == AllBodies(ms) && CountOf(AllEvents(ms), MessageComplete) == |ms|
    decreases |ms|
  {
    hide AllLast, Sent, Lasts, Switches, FactsOf, MessageActs, MessageEvents, Render, BodyOf, CountOf, KindOf,
         PayloadData;
    if ms == [] {
      RenderNone(log);
      BodyNone();
    } else {
      AllTail(limit, ms, kind);
      RenderAppend(log, MessageActs(ms[0]), AllActs(ms[1..]));
      MessageReported(log, limit, ms[0]);
      ConversationReported(log + MessageEvents(ms[0]), limit, ms[1..], kind);
      BodyAppend(MessageEvents(ms[0]), AllEvents(ms[1..]), MessageComplete);
      assert log + MessageEvents(ms[0]) + AllEvents(ms[1..]) == log + (MessageEvents(ms[0]) + AllEvents(ms[1..]));
    }
  }

  /** The whole conversation from a fresh parser, in terms of callbacks. */
  lemma ConversationRun(limit: nat, kind: Kind, ms: seq<Message>)
    requires !kind.Both? && AllLast(limit, ms, kind)
    ensures var out := Run(limit, Init(kind), AllText(limit, ms, kind));
            && out.Done? && Reported(Init(kind), out.acts) == AllEvents(ms)
            && BodyOf(AllEvents(ms)) == AllBodies(ms) && CountOf(AllEvents(ms), MessageComplete) == |ms|
  {
    InitIdle(kind);
    hide Run, Idle, AllLast, AllText, AllEvents, AllActs, Render, BodyOf, CountOf, Init;
    IdleKind(Init(kind), kind);
    var q := Conversation(limit, Init(kind), ms, kind);
    ConversationReported([], limit, ms, kind);
    assert [] + AllEvents(ms) == AllEvents(ms);
  }

  /** Where the connection does not last nothing but line ends is taken any more. */
  lemma {:induction false} DeadRefuses(limit: nat, p: Parser, text: Bytes)
    requires p.state == Dead && p.nread + |text| <= limit
    ensures Run(limit, p, text) ==
            if forall i :: 0 <= i < |text| ==> IsLineEnd(text[i]) then Done(p.(nread := p.nread + |text|), [])
            else Failed(ClosedConnection)
    decreases |text|
  {
    hide Step, IsLineEnd;
    if text == [] {
      assert p.(nread := p.nread) == p;
    } else {
      DeadStep(limit, p, text[0]);
      if IsLineEnd(text[0]) {
        DeadRefuses(limit, p.(nread := p.nread + 1), text[1..]);
        assert forall i :: 0 < i < |text| ==> text[i] == text[1..][i - 1];
      }
    }
  }

  /** Before a message line ends are passed over. */
  lemma {:induction false} LineEndsPassed(limit: nat, p: Parser, text: Bytes)
    requires p.state == StartReq || p.state == StartRes || p.state == StartReqOrRes
    requires p.nread + |text| <= limit && forall i :: 0 <= i < |text| ==> IsLineEnd(text[i])
    ensures Run(limit, p, text) == Done(p.(nread := p.nread + |text|), [])
    decreases |text|
  {
    hide Step, IsLineEnd;
    if text == [] {
      assert p.(nread := p.nread) == p;
    } else {
      LineEndStep(limit, p, text[0]);
      LineEndsPassed(limit, p.(nread := p.nread + 1), text[1..]);
    }
  }

  lemma LineEndStep(limit: nat, p: Parser, ch: Byte)
    requires p.state == StartReq || p.state == StartRes || p.state == StartReqOrRes
    requires p.nread + 1 <= limit && IsLineEnd(ch)
    ensures Step(limit, p, ch) == Next(p.(nread := p.nread + 1), [])
  {
    hide FirstMethod;
  }

  lemma DeadStep(limit: nat, p: Parser, ch: Byte)
    requires p.state == Dead && p.nread + 1 <= limit
    ensures Step(limit, p, ch) == if IsLineEnd(ch) then Next(p.(nread := p.nread + 1), []) else Fail(ClosedConnection)
  {
  }

  // ---------------------------------------------------------------- a parser of either kind

  /** The kind of message that a text begins, by its first two bytes. */
  function KindBegun(text: Bytes): Kind
    requires |text| >= 2
  {
    if text[0] == 'H' && text[1] == 'T' then Kind.Response else Kind.Request
  }

  /** A parser for either kind reads a text as the parser for the kind that it begins would. */
  lemma EitherKind(limit: nat, text: Bytes)
    requires |text| >= 2 && !IsLineEnd(text[0]) && (text[0] == 'H' ==> text[1] == 'T' || text[1] == 'E')
    ensures Run(limit, Init(Kind.Both), text) == Run(limit, Init(KindBegun(text)), text)
  {
    hide Step;
    if text[0] == 'H' {
      EitherH(limit, text[1]);
      assert text == [text[0], text[1]] + text[2..];
      var kind := KindBegun(text);
      RunAppend(limit, Init(Kind.Both), [text[0], text[1]], text[2..]);
      RunAppend(limit, Init(kind), [text[0], text[1]], text[2..]);
    } else {
      EitherOther(limit, text[0]);
    }
  }

  lemma EitherOther(limit: nat, ch: Byte)
    requires !IsLineEnd(ch) && ch != 'H'
    ensures Step(limit, Init(Kind.Both), ch) == Step(limit, Init(Kind.Request), ch)
  {
    hide FirstMethod;
  }

  /** After the first byte. */
  lemma FirstOfEither(limit: nat)
    requires limit >= 1
    ensures Step(limit, Init(Kind.Both), 'H') ==
            Next(Fresh(Init(Kind.Both)).(nread := 1, state := ResOrRespH), [Tell(MessageBegin)])
    ensures Step(limit, Init(Kind.Response), 'H') ==
            Next(Fresh(Init(Kind.Response)).(nread := 1, state := StatusLine(ResH)), [Tell(MessageBegin)])
    ensures Step(limit, Init(Kind.Request), 'H') ==
            Next(Fresh(Init(Kind.Request)).(nread := 1, verb := HEAD, index := 1, state := ReqMethod),
                 [Tell(MessageBegin)])
  {
  }

  lemma SecondT(limit: nat)
    ensures Step(limit, Fresh(Init(Kind.Both)).(nread := 1, state := ResOrRespH), 'T') ==
            Step(limit, Fresh(Init(Kind.Response)).(nread := 1, state := StatusLine(ResH)), 'T')
  {
  }

  lemma SecondE(limit: nat)
    ensures Step(limit, Fresh(Init(Kind.Both)).(nread := 1, state := ResOrRespH), 'E') ==
            Step(limit, Fresh(Init(Kind.Request)).(nread := 1, verb := HEAD, index := 1, state := ReqMethod), 'E')
  {
    assert At(MethodName(HEAD), 1) == 'E';
    hide MethodName;
  }

  lemma EitherH(limit: nat, ch: Byte)
    requires ch == 'T' || ch == 'E'
    ensures Run(limit, Init(Kind.Both), ['H', ch]) ==
            Run(limit, Init(if ch == 'T' then Kind.Response else Kind.Request), ['H', ch])
  {
    assert ['H', ch] == ['H'] + [ch];
    var kind := if ch == 'T' then Kind.Response else Kind.Request;
    RunAppend(limit, Init(Kind.Both), ['H'], [ch]);
    RunAppend(limit, Init(kind), ['H'], [ch]);
    RunOne(limit, Init(Kind.Both), 'H');
    RunOne(limit, Init(kind), 'H');
    if limit >= 1 {
      FirstOfEither(limit);
      SecondT(limit);
      SecondE(limit);
      RunOne(limit, Step(limit, Init(Kind.Both), 'H').p, ch);
      RunOne(limit, Step(limit, Init(kind), 'H').p, ch);
    } else {
      Overflows(limit, Init(Kind.Both), 'H');
      Overflows(limit, Init(kind), 'H');
    }
    hide Step, Run;
  }
}
