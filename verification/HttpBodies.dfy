/** Whole messages from the end of the start line on: the header section, and the body that it announces. */
module HttpBodies {
  import opened HttpSyntax
  import opened HttpMachine
  import opened HttpInvariant
  import opened HttpRun
  import opened HttpSpans
  import opened HttpNames
  import opened HttpFraming
  import opened HttpLists
  import opened HttpLines
  import opened HttpHeads

  datatype Payload = Nothing | Sized(bytes: Bytes) | Chunked(chunks: seq<ChunkText>, zero: Bytes, extension: Bytes)

  function PayloadText(b: Payload): Bytes {
    match b
    case Nothing => []
    case Sized(bytes) => bytes
    case Chunked(chunks, zero, extension) => Wire(chunks) + (Line(zero, extension) + [CR, LF])
  }

  /** The data that is carried. */
  function PayloadData(b: Payload): Bytes {
    match b
    case Nothing => []
    case Sized(bytes) => bytes
    case Chunked(chunks, _, _) => AllData(chunks)
  }

  predicate WellChunked(limit: nat, chunks: seq<ChunkText>, zero: Bytes, extension: Bytes) {
    SizeLine(limit, zero, extension, 0) && forall c :: c in chunks ==> WellFormed(limit, c)
  }

  /** Is this the body that the head announces? */
  predicate Carries(limit: nat, h: HeadFacts, b: Payload) {
    match Delimits(h)
    case InChunks => b.Chunked? && WellChunked(limit, b.chunks, b.zero, b.extension)
    case OfLength(n) => b.Sized? && |b.bytes| == n
    case Switched => b.Nothing?
    case Bodiless => b.Nothing?
    case _ => false
  }

  function BodyActs(b: Payload): seq<Act> {
    match b
    case Nothing => [Tell(MessageComplete)]
    case Sized(bytes) => Takes(Body, bytes) + [Close(Body), Tell(MessageComplete)]
    case Chunked(chunks, _, _) => ChunkActs(chunks) + LAST_CHUNK
  }

  /** All that is reported from the first header on. */
  function RestActs(lines: seq<Pair>, b: Payload): seq<Act> {
    LinesActs(lines) + ([Tell(HeadersComplete)] + BodyActs(b))
  }

  function RestText(lines: seq<Pair>, b: Payload): Bytes { LinesText(lines) + ([CR, LF] + PayloadText(b)) }

  // ---------------------------------------------------------------- a body of known length

  lemma LastByteStep(limit: nat, p: Parser, ch: Byte)
    requires p.state == BodyIdentity && p.length == 1
    ensures var q := Complete(p.(length := 0, state := MessageDone));
            var acts := [Take(Body, ch), Close(Body)] + [Tell(MessageComplete)];
            Step(limit, p, ch) == if p.upgrade then Halt(q, acts) else Next(q, acts)
  {
    hide Complete;
    var q := p.(length := 0, state := MessageDone);
    assert Loop(p, ch) == Prepend([Take(Body, ch), Close(Body)], Loop(q, ch));
  }

  /** The body, and the end of the message with its last byte. */
  lemma SizedRun(limit: nat, p: Parser, body: Bytes)
    requires p.state == BodyIdentity && p.length == |body| > 0 && p.length < NO_LENGTH
    ensures var q := Complete(p.(length := 0, state := MessageDone));
            Run(limit, p, body) == if p.upgrade then Stopped(q, BodyActs(Sized(body)), |body|)
                                   else Done(q, BodyActs(Sized(body)))
  {
    hide Run, Step, Complete;
    var n := |body| - 1;
    var init, ch := body[..n], body[n];
    assert body == init + [ch];
    IdentityRun(limit, p, init);
    var q := p.(length := 1);
    LastByteStep(limit, q, ch);
    RunOne(limit, q, ch);
    RunAppend(limit, p, init, [ch]);
    assert Takes(Body, body) == Takes(Body, init) + [Take(Body, ch)];
    assert Takes(Body, init) + ([Take(Body, ch), Close(Body)] + [Tell(MessageComplete)])
           == Takes(Body, body) + [Close(Body), Tell(MessageComplete)];
  }

  // ---------------------------------------------------------------- after the body

  lemma AfterSized(p: Parser, options: set<Bytes>)
    requires Inv(p) && p.state == BodyIdentity
    requires (KEEP_ALIVE in options <==> p.flags.keepAlive) && (CLOSE in options <==> p.flags.close)
    ensures Complete(p.(length := 0, state := MessageDone)) == p.(length := 0, state := Ready(p, options))
  {
    hide KEEP_ALIVE, CLOSE;
    var q := p.(length := 0, state := MessageDone);
    ReadyIs(q, options);
    ReadySame(p, q, options);
  }

  lemma AfterChunks(p: Parser, options: set<Bytes>)
    requires AtChunk(p)
    requires (KEEP_ALIVE in options <==> p.flags.keepAlive) && (CLOSE in options <==> p.flags.close)
    ensures var q := p.(nread := 2, length := 0, flags := p.flags.(trailing := true), state := MessageDone);
            Complete(q) == q.(state := Ready(p, options))
  {
    hide KEEP_ALIVE, CLOSE;
    var q := p.(nread := 2, length := 0, flags := p.flags.(trailing := true), state := MessageDone);
    ReadyIs(q, options);
    ReadySame(p, q, options);
  }

  // ---------------------------------------------------------------- the message

  /** What a message leaves of the start line. */
  predicate SameStart(p: Parser, q: Parser) {
    q.kind == p.kind && q.major == p.major && q.minor == p.minor && q.status == p.status && q.verb == p.verb
  }

  lemma NotedFlags(p: Parser, lines: seq<Pair>)
    requires p.flags == LinesNoted(NO_FLAGS, lines)
    ensures KEEP_ALIVE in Said(Options, lines) <==> p.flags.keepAlive
    ensures CLOSE in Said(Options, lines) <==> p.flags.close
  {
    hide KEEP_ALIVE, CLOSE, CHUNKED, UPGRADE, Said, Upgrades, Lengths;
  }

  /** The parser that a head leaves before a body. */
  lemma HeadLeft(limit: nat, p: Parser, lines: seq<Pair>) returns (q: Parser)
    requires Starts(p) && GoodLines(lines) && |Lengths(lines)| <= 1 && p.nread + |LinesText(lines)| + 2 <= limit
    ensures var h, d := HeadOf(p, lines), Delimits(HeadOf(p, lines));
            && Run(limit, p, LinesText(lines) + [CR, LF]) ==
               (match d
                case Refused(e) => Failed(e)
                case Switched => Stopped(q, LinesActs(lines) + EndActs(d), |LinesText(lines)| + 2)
                case _ => Done(q, LinesActs(lines) + EndActs(d)))
            && q.state == HeadState(p, h, h.options) && q.upgrade == Switches(h) && SameStart(p, q)
            && q.nread == 0
            && (KEEP_ALIVE in h.options <==> q.flags.keepAlive) && (CLOSE in h.options <==> q.flags.close)
            && (!d.Refused? ==> Inv(q)) && (d.OfLength? ==> q.length == d.n < NO_LENGTH)
  {
    hide Run, Inv, Starts, GoodLines, LinesText, LinesActs, LinesNoted, Switches, AnyTe, Said, Upgrades, Lengths,
         KEEP_ALIVE, CLOSE, CHUNKED, UPGRADE, EndActs, SameStart;
    q := HeadRun(limit, p, lines);
    HeadSame(p, q);
    NotedFlags(q, lines);
    LengthsSmall(lines);
    LeftInv(limit, p, LinesText(lines) + [CR, LF]);
  }

  lemma HeadSame(p: Parser, q: Parser)
    requires q == p.(nread := q.nread, state := q.state, hs := q.hs, index := q.index, te := q.te, upgrade := q.upgrade,
                     flags := q.flags, length := q.length)
    ensures SameStart(p, q)
  {
  }

  lemma LeftInv(limit: nat, p: Parser, text: Bytes)
    requires Starts(p)
    ensures var out := Run(limit, p, text); out.Done? || out.Stopped? ==> Inv(out.p)
  {
    hide Run, Inv, Starts, Allowed, LegalAll, AfterAll;
    StartAllowed(p);
    RunSound(limit, p, text, Off(false));
  }

  lemma StartAllowed(p: Parser)
    requires Starts(p)
    ensures Resting(p) && Allowed(p.state, Off(false))
  {
    hide Inv;
  }

  lemma {:induction false} LengthsSmall(lines: seq<Pair>)
    ensures forall i :: 0 <= i < |Lengths(lines)| ==> Lengths(lines)[i] <= MAX_LENGTH
    decreases |lines|
  {
    hide Tokens, Lowered, Digits, Decimal, CONTENT_LENGTH;
    if lines != [] {
      LengthsSmall(lines[1..]);
    }
  }

  /** A message from its first header on, with the body that its head announces: everything is consumed, the
      data of the body is reported with one end of message, and the parser is ready for another message if and
      only if the version and the options of the connection say that it lasts.  Where the protocol is switched the
      call ends with the message. */
  lemma MessageRun(limit: nat, p: Parser, lines: seq<Pair>, b: Payload) returns (q: Parser)
    requires Starts(p) && GoodLines(lines) && |Lengths(lines)| <= 1 && p.nread + |LinesText(lines)| + 2 <= limit
    requires Carries(limit, HeadOf(p, lines), b)
    ensures var h, text := HeadOf(p, lines), RestText(lines, b);
            && Run(limit, p, text) == (if Switches(h) then Stopped(q, RestActs(lines, b), |text|)
                                       else Done(q, RestActs(lines, b)))
            && q.state == Ready(p, h.options) && SameStart(p, q) && q.nread <= 2
  {
    hide Run, Inv, LinesText, LinesActs, HeadOf, Starts, GoodLines, Lengths, KEEP_ALIVE, CLOSE, PayloadText, BodyActs,
         SameStart, Ready;
    var h := HeadOf(p, lines);
    var p1 := HeadLeft(limit, p, lines);
    var text, rest := LinesText(lines) + [CR, LF], PayloadText(b);
    assert RestText(lines, b) == text + rest;
    RunAppend(limit, p, text, rest);
    if Delimits(h).InChunks? || Delimits(h).OfLength? {
      q := BodyRun(limit, p1, h, b);
      ReadyLike(p, p1, h.options);
      SameStartTwice(p, p1, q);
      assert LinesActs(lines) + EndActs(Delimits(h)) + BodyActs(b) == RestActs(lines, b);
    } else {
      q := p1;
      NothingText();
      assert text + rest == text;
      DoneSwitches(h);
      ContinueNothing(limit, q, LinesActs(lines) + EndActs(Delimits(h)), |text|);
      assert LinesActs(lines) + EndActs(Delimits(h)) == RestActs(lines, b);
    }
  }

  /** And one whose head is refused. */
  lemma HeadFails(limit: nat, p: Parser, lines: seq<Pair>, b: Payload)
    requires Starts(p) && GoodLines(lines) && |Lengths(lines)| <= 1 && p.nread + |LinesText(lines)| + 2 <= limit
    requires Delimits(HeadOf(p, lines)).Refused?
    ensures Run(limit, p, RestText(lines, b)) == Failed(Delimits(HeadOf(p, lines)).errno)
  {
    hide Run, Inv, LinesText, LinesActs, HeadOf, Starts, GoodLines, Lengths, PayloadText;
    var p1 := HeadLeft(limit, p, lines);
    assert RestText(lines, b) == (LinesText(lines) + [CR, LF]) + PayloadText(b);
    RunAppend(limit, p, LinesText(lines) + [CR, LF], PayloadText(b));
  }

  /** And one whose head changes the protocol: the rest of the text is left. */
  lemma HeadStops(limit: nat, p: Parser, lines: seq<Pair>, b: Payload)
    requires Starts(p) && GoodLines(lines) && |Lengths(lines)| <= 1 && p.nread + |LinesText(lines)| + 2 <= limit
    requires Delimits(HeadOf(p, lines)).Switched?
    ensures var out := Run(limit, p, RestText(lines, b)); out.Stopped? && out.used == |LinesText(lines)| + 2
  {
    hide Run, Inv, LinesText, LinesActs, HeadOf, Starts, GoodLines, Lengths, PayloadText;
    var p1 := HeadLeft(limit, p, lines);
    assert RestText(lines, b) == (LinesText(lines) + [CR, LF]) + PayloadText(b);
    RunAppend(limit, p, LinesText(lines) + [CR, LF], PayloadText(b));
  }

  lemma NothingText()
    ensures PayloadText(Nothing) == [] && BodyActs(Nothing) == [Tell(MessageComplete)]
  {
  }

  lemma DoneSwitches(h: HeadFacts)
    requires EndsMessage(Delimits(h))
    ensures Switches(h) <==> Delimits(h).Switched?
  {
    hide CHUNKED, UPGRADE;
  }

  lemma ContinueNothing(limit: nat, p: Parser, acts: seq<Act>, n: nat)
    ensures Continue(acts, n, Run(limit, p, [])) == Done(p, acts)
  {
    assert acts + [] == acts;
  }

  lemma SameStartTwice(p: Parser, q: Parser, r: Parser)
    requires SameStart(p, q) && SameStart(q, r)
    ensures SameStart(p, r)
  {
  }

  lemma ReadyLike(p: Parser, q: Parser, options: set<Bytes>)
    requires SameStart(p, q)
    ensures Ready(p, options) == Ready(q, options)
  {
  }

  /** The body, in chunks or of known length. */
  lemma BodyRun(limit: nat, p: Parser, h: HeadFacts, b: Payload) returns (q: Parser)
    requires Inv(p) && p.state == HeadState(p, h, h.options) && p.upgrade == Switches(h) && p.nread == 0
    requires (Delimits(h).InChunks? || Delimits(h).OfLength?) && Carries(limit, h, b)
    requires (KEEP_ALIVE in h.options <==> p.flags.keepAlive) && (CLOSE in h.options <==> p.flags.close)
    requires Delimits(h).OfLength? ==> p.length == Delimits(h).n < NO_LENGTH
    ensures Run(limit, p, PayloadText(b)) == if Switches(h) then Stopped(q, BodyActs(b), |PayloadText(b)|)
                                             else Done(q, BodyActs(b))
    ensures q.state == Ready(p, h.options) && SameStart(p, q) && q.nread <= 2
  {
    hide Run, KEEP_ALIVE, CLOSE, Switches, Complete, Ready;
    if Delimits(h).InChunks? {
      ChunkedDecodes(limit, p, b.chunks, b.zero, b.extension);
      AfterChunks(p, h.options);
      q := Run(limit, p, PayloadText(b)).p;
    } else {
      PositiveLength(h);
      SizedRun(limit, p, b.bytes);
      AfterSized(p, h.options);
      q := Run(limit, p, b.bytes).p;
    }
  }

  lemma PositiveLength(h: HeadFacts)
    requires Delimits(h).OfLength?
    ensures Delimits(h).n > 0
  {
    hide CHUNKED, UPGRADE;
  }

  // ---------------------------------------------------------------- the callbacks

  function LinesEvents(lines: seq<Pair>): seq<Event>
    decreases |lines|
  {
    if lines == [] then [] else [Data(Field, lines[0].0), Data(Value, lines[0].1)] + LinesEvents(lines[1..])
  }

  lemma RenderOpen(log: seq<Event>, s: Span)
    ensures Render(log, [Open(s)]) == log + [Data(s, [])]
  {
    assert [Open(s)][1..] == [];
    RenderNone(log + [Data(s, [])]);
  }

  lemma RenderSpan(log: seq<Event>, s: Span, bytes: Bytes)
    ensures Render(log, SpanActs(s, bytes)) == log + [Data(s, bytes)]
  {
    hide Render, Takes;
    var started := log + [Data(s, [])];
    RenderOpen(log, s);
    RenderAppend(log, [Open(s)], Takes(s, bytes) + [Close(s)]);
    RenderAppend(started, Takes(s, bytes), [Close(s)]);
    RenderTakes(started, s, bytes);
    var done := log + [Data(s, bytes)];
    assert Extend(started, bytes) == done by {
      assert started[..|started| - 1] == log;
      var none: Bytes := [];
      assert none + bytes == bytes;
    }
    RenderClose(done, s, []);
    assert [Close(s)] + [] == [Close(s)];
    RenderNone(done);
    assert SpanActs(s, bytes) == [Open(s)] + (Takes(s, bytes) + [Close(s)]);
  }

  lemma RenderLine(log: seq<Event>, name: Bytes, value: Bytes)
    ensures Render(log, LineActs(name, value)) == log + [Data(Field, name), Data(Value, value)]
  {
    hide Render, SpanActs;
    RenderAppend(log, SpanActs(Field, name), SpanActs(Value, value));
    RenderSpan(log, Field, name);
    RenderSpan(log + [Data(Field, name)], Value, value);
    assert log + [Data(Field, name)] + [Data(Value, value)] == log + [Data(Field, name), Data(Value, value)];
  }

  lemma {:induction false} RenderLines(log: seq<Event>, lines: seq<Pair>)
    ensures Render(log, LinesActs(lines)) == log + LinesEvents(lines)
    decreases |lines|
  {
    hide Render, LineActs;
    if lines == [] {
      RenderNone(log);
    } else {
      var two := [Data(Field, lines[0].0), Data(Value, lines[0].1)];
      RenderAppend(log, LineActs(lines[0].0, lines[0].1), LinesActs(lines[1..]));
      RenderLine(log, lines[0].0, lines[0].1);
      RenderLines(log + two, lines[1..]);
      assert log + two + LinesEvents(lines[1..]) == log + (two + LinesEvents(lines[1..]));
    }
  }

  function BodyEvents(b: Payload): seq<Event> {
    match b
    case Nothing => [Notify(MessageComplete)]
    case Sized(bytes) => (if bytes == [] then [] else [Data(Body, bytes)]) + [Notify(MessageComplete)]
    case Chunked(chunks, _, _) =>
      ChunkEvents(chunks) + [Notify(ChunkHeader), Notify(ChunkComplete), Notify(MessageComplete)]
  }

  function RestEvents(lines: seq<Pair>, b: Payload): seq<Event> {
    LinesEvents(lines) + ([Notify(HeadersComplete)] + BodyEvents(b))
  }

  lemma RenderEnd(log: seq<Event>)
    ensures Render(log, [Tell(MessageComplete)]) == log + [Notify(MessageComplete)]
  {
    hide Render;
    assert [Tell(MessageComplete)] + [] == [Tell(MessageComplete)];
    RenderTell(log, MessageComplete, []);
    RenderNone(log + [Notify(MessageComplete)]);
  }

  lemma RenderSized(log: seq<Event>, bytes: Bytes)
    requires !EndsWith(log, Body)
    ensures Render(log, BodyActs(Sized(bytes))) == log + BodyEvents(Sized(bytes))
  {
    hide Render, Takes;
    var end := [Close(Body)] + [Tell(MessageComplete)];
    assert Takes(Body, bytes) + [Close(Body), Tell(MessageComplete)] == Takes(Body, bytes) + end;
    RenderAppend(log, Takes(Body, bytes), end);
    var log1 := if bytes == [] then log else log + [Data(Body, bytes)];
    if bytes == [] {
      TakesNothing();
      RenderNone(log);
    } else {
      RenderTakesNew(log, Body, bytes);
    }
    RenderClose(log1, Body, [Tell(MessageComplete)]);
    RenderEnd(log1);
  }

  lemma TakesNothing()
    ensures Takes(Body, []) == []
  {
  }

  predicate DataChunks(b: Payload) { b.Chunked? ==> forall c :: c in b.chunks ==> c.data != [] }

  lemma RenderBody(log: seq<Event>, b: Payload)
    requires !EndsWith(log, Body) && DataChunks(b)
    ensures Render(log, BodyActs(b)) == log + BodyEvents(b)
  {
    hide Render, Takes, ChunkActs, ChunkEvents;
    match b {
      case Nothing => RenderEnd(log);
      case Sized(bytes) => RenderSized(log, bytes);
      case Chunked(chunks, _, _) =>
        RenderAppend(log, ChunkActs(chunks), LAST_CHUNK);
        RenderChunks(log, chunks);
        RenderLast(log + ChunkEvents(chunks));
        var end := [Notify(ChunkHeader), Notify(ChunkComplete), Notify(MessageComplete)];
        assert log + ChunkEvents(chunks) + end == log + (ChunkEvents(chunks) + end);
    }
  }

  /** The callbacks of a message from its first header on. */
  lemma RenderRest(log: seq<Event>, lines: seq<Pair>, b: Payload)
    requires DataChunks(b)
    ensures Render(log, RestActs(lines, b)) == log + RestEvents(lines, b)
  {
    hide Render, LinesActs, LinesEvents, BodyActs, BodyEvents, DataChunks;
    RenderAppend(log, LinesActs(lines), [Tell(HeadersComplete)] + BodyActs(b));
    RenderLines(log, lines);
    var log1 := log + LinesEvents(lines);
    RenderTell(log1, HeadersComplete, BodyActs(b));
    var log2 := log1 + [Notify(HeadersComplete)];
    RenderBody(log2, b);
    assert log2 + BodyEvents(b) == log + RestEvents(lines, b);
  }

  lemma {:induction false} LinesCount(lines: seq<Pair>)
    ensures CountOf(LinesEvents(lines), MessageComplete) == 0 && BodyOf(LinesEvents(lines)) == []
    decreases |lines|
  {
    hide CountOf, BodyOf;
    BodyNone();
    if lines != [] {
      var a, b := Data(Field, lines[0].0), Data(Value, lines[0].1);
      assert [a, b] == [a] + [b];
      BodyAppend([a, b], LinesEvents(lines[1..]), MessageComplete);
      BodyAppend([a], [b], MessageComplete);
      BodyOne(a, MessageComplete);
      BodyOne(b, MessageComplete);
      LinesCount(lines[1..]);
    }
  }

  lemma BodyCount(b: Payload)
    ensures CountOf(BodyEvents(b), MessageComplete) == 1 && BodyOf(BodyEvents(b)) == PayloadData(b)
  {
    hide CountOf, BodyOf, ChunkEvents, AllData;
    var x, y, z := Notify(ChunkHeader), Notify(ChunkComplete), Notify(MessageComplete);
    BodyOne(z, MessageComplete);
    match b {
      case Nothing =>
      case Sized(bytes) =>
        if bytes == [] {
          assert BodyEvents(b) == [z];
        } else {
          BodyAppend([Data(Body, bytes)], [z], MessageComplete);
          BodyOne(Data(Body, bytes), MessageComplete);
        }
      case Chunked(chunks, _, _) =>
        BodyAppend(ChunkEvents(chunks), [x, y, z], MessageComplete);
        ChunkEventsBody(chunks);
        BodyThree(x, y, z, MessageComplete);
        BodyOne(x, MessageComplete);
        BodyOne(y, MessageComplete);
    }
  }

  /** The body that is reported is the data that was carried, and the message ends once. */
  lemma RestCounts(lines: seq<Pair>, b: Payload)
    ensures CountOf(RestEvents(lines, b), MessageComplete) == 1 && BodyOf(RestEvents(lines, b)) == PayloadData(b)
  {
    hide CountOf, BodyOf, LinesEvents, BodyEvents;
    LinesCount(lines);
    BodyCount(b);
    BodyAppend(LinesEvents(lines), [Notify(HeadersComplete)] + BodyEvents(b), MessageComplete);
    BodyAppend([Notify(HeadersComplete)], BodyEvents(b), MessageComplete);
    BodyOne(Notify(HeadersComplete), MessageComplete);
  }

  // ---------------------------------------------------------------- trailers

  /** Header lines after the last chunk are reported as such before the end of the message, and what they say of
      the connection is heard with the rest. */
  lemma TrailerRun(limit: nat, p: Parser, lines: seq<Pair>) returns (q: Parser)
    requires Inv(p) && p.state == Header(FieldStart) && p.flags.trailing && GoodLines(lines) && Lengths(lines) == []
    requires p.nread + |LinesText(lines)| + 2 <= limit
    ensures var acts := LinesActs(lines) + [Tell(ChunkComplete), Tell(MessageComplete)];
            Run(limit, p, LinesText(lines) + [CR, LF]) ==
            if p.upgrade then Stopped(q, acts, |LinesText(lines)| + 2) else Done(q, acts)
    ensures q.nread == p.nread + |LinesText(lines)| + 2
    ensures q.state.Dead? <==> if p.major > 0 && p.minor > 0 then p.flags.close || CLOSE in Said(Options, lines)
                              else !p.flags.keepAlive && KEEP_ALIVE !in Said(Options, lines)
  {
    hide Run, Step, Inv, LinesText, LinesActs, GoodLines, Lengths, LinesRead, LinesNoted, CLOSE, KEEP_ALIVE, Said,
         AnyTe, Upgrades, Complete;
    assert !IsBlank([CR, LF][0]);
    var p1 := LinesRun(limit, p, lines, [CR, LF]);
    TrailerFlags(p, lines, p1);
    TrailerSteps(limit, p1);
    var at := p1.(nread := p1.nread + 1, state := Header(HeadersAlmostDone));
    var done := p1.(nread := p1.nread + 2, state := MessageDone);
    q := Complete(done);
    TrailerComplete(done);
    RunOne(limit, p1, CR);
    RunOne(limit, at, LF);
    assert [CR, LF] == [CR] + [LF];
    RunAppend(limit, p1, [CR], [LF]);
    assert LinesActs(lines) + ([] + ([Tell(ChunkComplete)] + [Tell(MessageComplete)]))
           == LinesActs(lines) + [Tell(ChunkComplete), Tell(MessageComplete)];
  }

  lemma TrailerFlags(p: Parser, lines: seq<Pair>, q: Parser)
    requires p.state == Header(FieldStart) && p.flags.trailing && Inv(p) && Inv(q) && LinesRead(p, lines, q)
    ensures q.state == p.state && q.flags.trailing && q.flags.chunked && q.te && q.upgrade == p.upgrade
    ensures q.nread == p.nread + |LinesText(lines)| && q.major == p.major && q.minor == p.minor
    ensures q.flags.close <==> p.flags.close || CLOSE in Said(Options, lines)
    ensures q.flags.keepAlive <==> p.flags.keepAlive || KEEP_ALIVE in Said(Options, lines)
  {
    hide LinesText, CLOSE, KEEP_ALIVE, CHUNKED, UPGRADE, Said, AnyTe, Upgrades, Lengths;
  }

  lemma TrailerComplete(p: Parser)
    requires p.flags.chunked
    ensures Complete(p) == p.(state := Complete(p).state)
    ensures Complete(p).state.Dead? <==> if p.major > 0 && p.minor > 0 then p.flags.close else !p.flags.keepAlive
  {
  }

  // ---------------------------------------------------------------- a body that lasts to the end of the stream

  /** Without a length or chunks a response's body is everything that follows, and no end of message is
      reported before the end of the stream. */
  lemma EofMessage(limit: nat, p: Parser, lines: seq<Pair>, body: Bytes) returns (q: Parser)
    requires Starts(p) && GoodLines(lines) && |Lengths(lines)| <= 1 && p.nread + |LinesText(lines)| + 2 <= limit
    requires Delimits(HeadOf(p, lines)).UntilEof?
    ensures Run(limit, p, LinesText(lines) + ([CR, LF] + body)) ==
            Done(q, LinesActs(lines) + ([Tell(HeadersComplete)] + Takes(Body, body)))
    ensures q.state == BodyIdentityEof
  {
    hide Run, Inv, LinesText, LinesActs, HeadOf, Starts, GoodLines, Lengths, KEEP_ALIVE, CLOSE, SameStart, Takes,
         Delimits;
    q := HeadLeft(limit, p, lines);
    var text := LinesText(lines) + [CR, LF];
    assert LinesText(lines) + ([CR, LF] + body) == text + body;
    RunAppend(limit, p, text, body);
    EofRun(limit, q, body);
    assert LinesActs(lines) + EndActs(UntilEof) + Takes(Body, body)
           == LinesActs(lines) + ([Tell(HeadersComplete)] + Takes(Body, body));
  }
}
