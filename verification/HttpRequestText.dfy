/** Printing a request and parsing what was printed (`HttpRequest::dump` and the `on_request_*` callbacks).

    Parsing gives the request back, with the headers that printing adds, except when a header name begins
    with "transfer-encoding": then, and only then, the parser refuses what was printed. */
module HttpRequestText {
  import opened HttpSyntax
  import opened HttpMachine
  import opened HttpInvariant
  import opened HttpRun
  import opened HttpSpans
  import opened HttpNames
  import opened HttpFraming
  import opened HttpLists
  import opened HttpLines
  import opened HttpHeads
  import opened HttpBodies
  import opened HttpMethods
  import opened HttpRequestLine
  import U = HttpUrl
  import H = HttpHost
  import F = HttpUrlFields
  import W = HttpUrlWide

  /** Headers by lower-case name: the name as it was first given, and the value. */
  type Headers = map<Bytes, Pair>

  datatype Request = Request(
    verb: Method, version: nat, close: bool, websocket: bool,
    path: Bytes, query: Bytes, fragment: Bytes, headers: Headers, body: Bytes)

  function SetHeader(h: Headers, name: Bytes, value: Bytes): Headers {
    var k := Lowered(name);
    h[k := (if k in h then h[k].0 else name, value)]
  }

  // ---------------------------------------------------------------- printing

  function DecimalText(n: nat): (text: Bytes)
    ensures text != []
  {
    if n < 10 then [DigitChar(n)] else DecimalText(n / 10) + [DigitChar(n % 10)]
  }

  lemma {:induction false} DecimalTextValue(n: nat)
    ensures Digits(DecimalText(n)) && Decimal(0, DecimalText(n)) == n
  {
    if n < 10 {
      var none: Bytes := [];
      assert none + [DigitChar(n)] == [DigitChar(n)];
      DecimalSnoc(0, none, DigitChar(n));
    } else {
      DecimalTextValue(n / 10);
      DecimalSnoc(0, DecimalText(n / 10), DigitChar(n % 10));
    }
  }

  function MarkText(mark: Byte, text: Bytes): Bytes { if text == [] then [] else [mark] + text }

  function UrlText(r: Request): Bytes { r.path + MarkText('?', r.query) + MarkText('#', r.fragment) }

  /** The keys of the headers in the order in which the map is walked. */
  ghost predicate IsOrder(order: seq<Bytes>, h: Headers) {
    && (forall k :: k in order <==> k in h)
    && (forall i, j :: 0 <= i < j < |order| ==> order[i] != order[j])
  }

  function HeaderLines(r: Request, order: seq<Bytes>): seq<Pair>
    requires forall k :: k in order ==> k in r.headers
    decreases |order|
  {
    if order == [] then []
    else if !r.websocket && order[0] == CONNECTION then HeaderLines(r, order[1..])
    else [r.headers[order[0]]] + HeaderLines(r, order[1..])
  }

  function ConnectionLine(r: Request): seq<Pair> {
    if r.websocket then [] else [(CONNECTION, if r.close then CLOSE else KEEP_ALIVE)]
  }

  function Lines(r: Request, order: seq<Bytes>): seq<Pair>
    requires forall k :: k in order ==> k in r.headers
  {
    ConnectionLine(r) + HeaderLines(r, order)
  }

  function StartText(r: Request): Bytes {
    MethodName(r.verb) + [' '] + UrlText(r) + [' ', 'H', 'T', 'T', 'P', '/'] + DecimalText(r.version / 16) + ['.']
    + DecimalText(r.version % 16) + [CR, LF]
  }

  /** The length line, as a list of none or one. */
  function LengthLines(r: Request): seq<Pair> {
    if r.body == [] then [] else [(CONTENT_LENGTH, DecimalText(|r.body|))]
  }

  /** The text up to the body. */
  function Head(r: Request, order: seq<Bytes>): Bytes
    requires forall k :: k in order ==> k in r.headers
  {
    StartText(r) + (LinesText(Lines(r, order) + LengthLines(r)) + [CR, LF])
  }

  function Printed(r: Request, order: seq<Bytes>): Bytes
    requires forall k :: k in order ==> k in r.headers
  {
    Head(r, order) + r.body
  }

  // ---------------------------------------------------------------- requests that can be printed

  function UrlPieces(r: Request): U.Pieces {
    U.Pieces([], 0, [], r.path, r.query != [], r.query, if r.fragment == [] then 0 else 1, r.fragment)
  }

  predicate UrlPrintable(r: Request) {
    && r.path != [] && (r.path[0] == '/' || r.path[0] == '*') && U.PathChars(r.path)
    && U.QueryChars(r.query) && U.FragmentChars(r.fragment)
    && |UrlText(r)| < F.HALF
  }

  predicate HeadersPrintable(h: Headers) {
    && (forall k :: k in h ==> Lowered(h[k].0) == k && k != [] && Tokens(h[k].0) && ValueText(h[k].1))
    && CONNECTION !in h && CONTENT_LENGTH !in h && TRANSFER_ENCODING !in h && UPGRADE !in h
  }

  /** A method other than CONNECT and M-SEARCH, and a version of two digits. */
  predicate StartPrintable(r: Request) {
    r.verb != CONNECT && r.verb != MSEARCH && r.version / 16 <= 9 && r.version % 16 <= 9 && UrlPrintable(r)
  }

  /** Well-formed requests: a method other than CONNECT and M-SEARCH, a version of two digits, URL characters
      in path, query and fragment, header names that are tokens and do not concern framing, and values
      without line ends and leading blanks. */
  predicate Printable(r: Request) {
    StartPrintable(r) && HeadersPrintable(r.headers) && |r.body| <= MAX_LENGTH
  }

  /** The one kind of name that spoils it. */
  predicate SpoiltBy(h: Headers, k: Bytes) { k in h && BeginsTe(k) }

  ghost predicate Spoilt(h: Headers) { exists k :: SpoiltBy(h, k) }

  // ---------------------------------------------------------------- the request line

  lemma UrlProper(r: Request)
    requires UrlPrintable(r)
    ensures U.Proper(false, UrlPieces(r)) && U.Text(UrlPieces(r)) == UrlText(r) && UrlText(r) != []
  {
    var o := UrlPieces(r);
    assert U.ToAuthority(o) == [];
    assert U.ToPath(o) == r.path;
    if r.fragment != [] {
      assert U.Hashes(1) == ['#'];
      assert r.path + MarkText('?', r.query) == U.ToQuery(o);
    }
  }

  lemma UrlFinished(r: Request)
    requires UrlPrintable(r)
    ensures !UrlUnfinished(U.StateAfter(false, UrlPieces(r)))
  {
  }

  /** The parser after the request line. */
  function AfterStart(r: Request): Parser {
    Parser(Kind.Request, Header(FieldStart), General, |MethodName(r.verb)| + 1, false, NO_FLAGS, |StartText(r)|,
           NO_LENGTH, r.version / 16, r.version % 16, 0, r.verb, false)
  }

  function StartActs(r: Request): seq<Act> { [Tell(MessageBegin)] + SpanActs(Url, UrlText(r)) }

  lemma DecimalDigit(n: nat)
    requires n <= 9
    ensures DecimalText(n) == [DigitChar(n)]
  {
  }

  lemma StartTextIs(r: Request)
    requires r.version / 16 <= 9 && r.version % 16 <= 9 && r.verb != MSEARCH
    ensures StartText(r) == RequestLineText(r.verb, UrlText(r), r.version / 16, r.version % 16)
    ensures |StartText(r)| == |MethodName(r.verb)| + |UrlText(r)| + 12 && Spelling(r.verb) == MethodName(r.verb)
  {
    assert Spelling(r.verb) == MethodName(r.verb);
    hide Spelling, MethodName, UrlText, DecimalText, DigitChar;
    DecimalDigit(r.version / 16);
    DecimalDigit(r.version % 16);
  }

  lemma PrintableParts(r: Request)
    requires Printable(r)
    ensures StartPrintable(r) && HeadersPrintable(r.headers) && |r.body| <= MAX_LENGTH && r.verb != CONNECT
  {
    hide UrlPrintable, HeadersPrintable;
  }

  lemma UrlIsGood(r: Request)
    requires UrlPrintable(r) && r.verb != CONNECT
    ensures GoodUrl(r.verb, UrlText(r))
  {
    hide UrlText, U.StateAfter, U.Text, U.Proper, U.Walk, UrlPrintable, UrlUnfinished;
    UrlProper(r);
    UrlFinished(r);
    U.WalkComplete(false, UrlPieces(r));
  }

  lemma AfterStartInv(r: Request)
    ensures Inv(AfterStart(r))
  {
    hide MethodName, StartText;
  }

  lemma StartRun(limit: nat, r: Request)
    requires StartPrintable(r) && |StartText(r)| <= limit
    ensures Run(limit, HttpMachine.Init(Kind.Request), StartText(r)) == Done(AfterStart(r), StartActs(r))
    ensures Inv(AfterStart(r))
  {
    hide Run, Inv, MethodName, Spelling, UrlText, StartText, RequestLineText, SpanActs, UrlPrintable, GoodUrl;
    AfterStartInv(r);
    StartTextIs(r);
    UrlIsGood(r);
    RequestLineRun(limit, HttpMachine.Init(Kind.Request), r.verb, UrlText(r), r.version / 16, r.version % 16);
  }
  // ---------------------------------------------------------------- the header lines

  predicate AllPlain(lines: seq<Pair>) { forall i :: 0 <= i < |lines| ==> Plain(lines[i].0, lines[i].1) }

  /** Lines that do not concern framing. */
  lemma {:induction false} PlainLines(lines: seq<Pair>)
    requires AllPlain(lines)
    ensures GoodLines(lines) && Said(Codings, lines) == {} && !Upgrades(lines) && Lengths(lines) == []
    decreases |lines|
  {
    hide Tokens, ValueText, Lowered, Digits, Decimal, Says, CONTENT_LENGTH, TRANSFER_ENCODING, UPGRADE, CONNECTION,
         PROXY_CONNECTION;
    if lines != [] {
      PlainLines(lines[1..]);
      assert forall i :: 0 < i < |lines| ==> lines[i] == lines[1..][i - 1];
    }
  }

  /** A transfer coding that was announced is refused in a request that is not chunked. */
  function TeError(announced: bool): Errno { if announced then UnexpectedContentLength else InvalidTransferEncoding }

  // ---------------------------------------------------------------- the whole message

  lemma {:induction false} HeaderLinesAre(r: Request, order: seq<Bytes>)
    requires (forall k :: k in order ==> k in r.headers) && CONNECTION !in r.headers
    ensures var lines := HeaderLines(r, order);
            |lines| == |order| && forall i :: 0 <= i < |order| ==> lines[i] == r.headers[order[i]]
    decreases |order|
  {
    hide CONNECTION;
    if order != [] {
      HeaderLinesAre(r, order[1..]);
      var lines := HeaderLines(r, order);
      forall i | 0 <= i < |order| ensures lines[i] == r.headers[order[i]] {
        if i > 0 {
          assert order[i] == order[1..][i - 1];
        }
      }
    }
  }

  lemma ConnectionPlain(r: Request)
    ensures AllPlain(ConnectionLine(r)) && !AnyTe(ConnectionLine(r))
    ensures Lowered(CONNECTION) == CONNECTION && CONNECTION != []
  {
    assert CONNECTION == ['c', 'o', 'n', 'n', 'e', 'c', 't', 'i', 'o', 'n'];
    assert Lowered(CONNECTION) == CONNECTION;
    assert KEEP_ALIVE == ['k', 'e', 'e', 'p', '-', 'a', 'l', 'i', 'v', 'e'];
    assert CLOSE == ['c', 'l', 'o', 's', 'e'];
    assert ValueText(KEEP_ALIVE) && ValueText(CLOSE);
    assert Plain(CONNECTION, KEEP_ALIVE) && Plain(CONNECTION, CLOSE);
  }

  lemma HeaderPlain(h: Headers, k: Bytes)
    requires HeadersPrintable(h) && k in h
    ensures Plain(h[k].0, h[k].1) && Lowered(h[k].0) == k
  {
    hide Tokens, ValueText;
  }

  /** Each printed line is the connection line or one of the headers. */
  lemma LinesAre(r: Request, order: seq<Bytes>, i: nat)
    requires HeadersPrintable(r.headers) && IsOrder(order, r.headers) && i < |Lines(r, order)|
    ensures |Lines(r, order)| == |ConnectionLine(r)| + |order|
    ensures i < |ConnectionLine(r)| ==> Lines(r, order)[i] == ConnectionLine(r)[i]
    ensures i >= |ConnectionLine(r)| ==>
              var k := order[i - |ConnectionLine(r)|]; k in r.headers && Lines(r, order)[i] == r.headers[k]
  {
    hide ConnectionLine, HeaderLines, CONNECTION, CONTENT_LENGTH, TRANSFER_ENCODING, UPGRADE, Tokens, ValueText;
    HeaderLinesAre(r, order);
  }

  lemma LinesAllPlain(r: Request, order: seq<Bytes>)
    requires HeadersPrintable(r.headers) && IsOrder(order, r.headers)
    ensures AllPlain(Lines(r, order))
  {
    hide Plain, Lines, ConnectionLine, HeadersPrintable, IsOrder;
    OrderIn(order, r.headers);
    ConnectionPlain(r);
    var all, first := Lines(r, order), ConnectionLine(r);
    forall i | 0 <= i < |all| ensures Plain(all[i].0, all[i].1) {
      LinesAre(r, order, i);
      if i >= |first| {
        HeaderPlain(r.headers, order[i - |first|]);
      }
    }
  }

  lemma LinesTe(r: Request, order: seq<Bytes>)
    requires HeadersPrintable(r.headers) && IsOrder(order, r.headers)
    ensures AnyTe(Lines(r, order)) ==> Spoilt(r.headers)
  {
    hide Plain, BeginsTe, Lines, ConnectionLine, HeadersPrintable, IsOrder;
    OrderIn(order, r.headers);
    ConnectionPlain(r);
    var all, first := Lines(r, order), ConnectionLine(r);
    if AnyTe(all) {
      var i :| 0 <= i < |all| && BeginsTe(Lowered(all[i].0));
      LinesAre(r, order, i);
      assert i >= |first|;
      HeaderPlain(r.headers, order[i - |first|]);
      assert SpoiltBy(r.headers, order[i - |first|]);
    }
  }

  lemma SpoiltLine(r: Request, order: seq<Bytes>)
    requires HeadersPrintable(r.headers) && IsOrder(order, r.headers) && Spoilt(r.headers)
    ensures AnyTe(Lines(r, order))
  {
    hide Plain, BeginsTe, HeaderLines, ConnectionLine, CONNECTION, CONTENT_LENGTH, TRANSFER_ENCODING, UPGRADE, Tokens,
         ValueText;
    var k :| SpoiltBy(r.headers, k);
    var i :| 0 <= i < |order| && order[i] == k;
    HeaderLinesAre(r, order);
    HeaderPlain(r.headers, k);
    assert Lines(r, order)[|ConnectionLine(r)| + i] == r.headers[k];
  }

  lemma LinesPlain(r: Request, order: seq<Bytes>)
    requires HeadersPrintable(r.headers) && IsOrder(order, r.headers)
    ensures AllPlain(Lines(r, order))
    ensures AnyTe(Lines(r, order)) <==> Spoilt(r.headers)
  {
    hide HeadersPrintable, IsOrder, AllPlain, AnyTe, Lines, Spoilt;
    LinesAllPlain(r, order);
    LinesTe(r, order);
    if Spoilt(r.headers) {
      SpoiltLine(r, order);
    }
  }

  /** What the printed message carries. */
  function Carried(r: Request): Payload { if r.body == [] then Nothing else Sized(r.body) }

  function MessageActs(r: Request, lines: seq<Pair>): seq<Act> {
    StartActs(r) + RestActs(lines + LengthLines(r), Carried(r))
  }

  lemma LengthLineIs(r: Request)
    requires |r.body| <= MAX_LENGTH
    ensures var lines := LengthLines(r);
            && GoodLines(lines) && !AnyTe(lines) && Said(Codings, lines) == {} && Said(Options, lines) == {}
            && !Upgrades(lines) && Lengths(lines) == if r.body == [] then [] else [|r.body|]
  {
    var lines, digits := LengthLines(r), DecimalText(|r.body|);
    if r.body != [] {
      LengthName();
      DecimalTextValue(|r.body|);
      assert LengthHeader(CONTENT_LENGTH, digits);
      hide LengthHeader, DecimalText, CONTENT_LENGTH, BeginsTe, Lowered;
      LengthFirst(lines);
      assert lines[1..] == [];
      assert Said(Codings, []) == {} && Said(Options, []) == {} && !Upgrades([]) && Lengths([]) == [];
    }
  }

  /** The header section as a whole. */
  lemma AllLines(r: Request, order: seq<Bytes>)
    requires HeadersPrintable(r.headers) && IsOrder(order, r.headers) && |r.body| <= MAX_LENGTH
    ensures forall k :: k in order ==> k in r.headers
    ensures var lines := Lines(r, order) + LengthLines(r);
            && GoodLines(lines) && (AnyTe(lines) <==> Spoilt(r.headers))
            && Said(Codings, lines) == {} && Said(Options, lines) == Said(Options, Lines(r, order))
            && !Upgrades(lines) && Lengths(lines) == if r.body == [] then [] else [|r.body|]
  {
    OrderIn(order, r.headers);
    hide HeadersPrintable, IsOrder, AnyTe, Lines, Spoilt, AllPlain, LengthLines, Said, Upgrades, Lengths;
    var a, b := Lines(r, order), LengthLines(r);
    LinesPlain(r, order);
    PlainLines(a);
    LengthLineIs(r);
    LinesAppend(a, b);
    AnyTeAppend(a, b);
    hide TextHeader, LengthHeader;
  }

  lemma PrintedParts(r: Request, order: seq<Bytes>)
    requires forall k :: k in order ==> k in r.headers
    ensures Printed(r, order) == StartText(r) + RestText(Lines(r, order) + LengthLines(r), Carried(r))
    ensures |Head(r, order)| == |StartText(r)| + |LinesText(Lines(r, order) + LengthLines(r))| + 2
  {
    hide StartText, LinesText, Lines, LengthLines;
    if r.body == [] {
      assert Head(r, order) + r.body == Head(r, order);
      assert [CR, LF] + PayloadText(Nothing) == [CR, LF];
    }
  }

  /** How the printed message ends. */
  lemma PrintedEnd(limit: nat, r: Request, h: HeadFacts)
    requires h.request && !h.connect && h.codings == {} && !h.up
    requires h.lengths == if r.body == [] then [] else [|r.body|]
    ensures !Switches(h)
    ensures if h.te then Delimits(h) == Refused(TeError(r.body != [])) else Carries(limit, h, Carried(r))
  {
    hide CHUNKED, UPGRADE;
  }

  lemma StartStarts(r: Request)
    requires r.verb != CONNECT
    ensures Starts(AfterStart(r)) && !HeadOf(AfterStart(r), []).connect
  {
    AfterStartInv(r);
    hide Inv;
  }

  /** The parser over a printed request: it gets through to the end unless a header name spoils it, and is
      then ready for another one if the connection lasts. */
  lemma PrintedRun(limit: nat, r: Request, order: seq<Bytes>) returns (q: Parser)
    requires Printable(r) && IsOrder(order, r.headers) && |Head(r, order)| <= limit
    ensures var out := Run(limit, HttpMachine.Init(Kind.Request), Printed(r, order));
            out == if Spoilt(r.headers) then Failed(TeError(r.body != [])) else Done(q, MessageActs(r, Lines(r, order)))
    ensures q.major == r.version / 16 && q.minor == r.version % 16 && q.verb == r.verb
    ensures q.state == if Persists(r.version / 16, r.version % 16, Said(Options, Lines(r, order))) then StartReq
                       else Dead
  {
    hide Run, Inv, LengthLines, StartText, Lines, LinesText, LinesActs, StartActs, StartPrintable, HeadersPrintable,
         AnyTe, IsOrder, Spoilt, Printable, Printed, Head, HttpMachine.Init, RestText, RestActs, Starts, Said,
         Upgrades, Lengths, GoodLines, Persists, Carried;
    OrderIn(order, r.headers);
    PrintableParts(r);
    PrintedParts(r, order);
    var p := AfterStart(r);
    var lines := Lines(r, order) + LengthLines(r);
    var h := HeadOf(p, lines);
    StartRun(limit, r);
    AllLines(r, order);
    StartStarts(r);
    PrintedEnd(limit, r, h);
    RunAppend(limit, HttpMachine.Init(Kind.Request), StartText(r), RestText(lines, Carried(r)));
    if Spoilt(r.headers) {
      HeadFails(limit, p, lines, Carried(r));
      q := p.(state := Ready(p, h.options));
    } else {
      q := MessageRun(limit, p, lines, Carried(r));
    }
  }

  lemma OrderIn(order: seq<Bytes>, h: Headers)
    requires IsOrder(order, h)
    ensures forall k :: k in order ==> k in h
  {
  }

  // ---------------------------------------------------------------- what the callbacks make of it

  /** The fields of the parser that the callbacks read. */
  datatype Numbers = Numbers(major: nat, minor: nat, verb: Method)

  /** A request under construction: `HttpRequestParser`. */
  datatype Building = Building(request: Request, field: Bytes, finished: bool, failed: bool)

  const BLANK := Request.Request(GET, 0x11, true, false, ['/'], [], [], map[], [])
  const START := Building(BLANK, [], false, false)

  function Cut(url: Bytes, fields: map<F.UrlField, F.Slice>, f: F.UrlField, otherwise: Bytes): Bytes {
    if f in fields && fields[f].off + fields[f].len <= |url| then url[fields[f].off..fields[f].off + fields[f].len]
    else otherwise
  }

  function SetUrl(r: Request, url: Bytes, fields: map<F.UrlField, F.Slice>): Request {
    r.(path := Cut(url, fields, F.Path, r.path),
       query := Cut(url, fields, F.Query, r.query),
       fragment := Cut(url, fields, F.Fragment, r.fragment))
  }

  function Absorb(b: Building, e: Event, n: Numbers): Building {
    match e
    case Data(Url, url) =>
      (match W.Split(false, url)
       case Bad => b.(failed := true)
       case Good(fields, _) => b.(request := SetUrl(b.request, url, fields)))
    case Data(Field, name) => b.(field := name)
    case Data(Value, value) =>
      b.(request := b.request.(headers := SetHeader(b.request.headers, b.field, value)))
    case Data(Body, bytes) => b.(request := b.request.(body := b.request.body + bytes))
    case Data(Status, _) => b
    case Notify(HeadersComplete) => b.(request := b.request.(version := n.major * 16 + n.minor, verb := n.verb))
    case Notify(MessageComplete) => b.(finished := true)
    case Notify(_) => b
  }

  function AbsorbAll(b: Building, es: seq<Event>, n: Numbers): Building
    decreases |es|
  {
    if es == [] then b else AbsorbAll(Absorb(b, es[0], n), es[1..], n)
  }

  lemma {:induction false} AbsorbAppend(b: Building, x: seq<Event>, y: seq<Event>, n: Numbers)
    ensures AbsorbAll(b, x + y, n) == AbsorbAll(AbsorbAll(b, x, n), y, n)
    decreases |x|
  {
    hide Absorb;
    if x == [] {
      assert x + y == y;
    } else {
      assert (x + y)[1..] == x[1..] + y;
      AbsorbAppend(Absorb(b, x[0], n), x[1..], y, n);
    }
  }

  lemma AbsorbOne(b: Building, e: Event, n: Numbers)
    ensures AbsorbAll(b, [e], n) == Absorb(b, e, n)
  {
    hide Absorb;
    assert [e][1..] == [];
    assert AbsorbAll(Absorb(b, e, n), [], n) == Absorb(b, e, n);
  }

  // ---------------------------------------------------------------- the events of a message

  function MessageEvents(r: Request, lines: seq<Pair>): seq<Event> {
    [Notify(MessageBegin), Data(Url, UrlText(r))] + RestEvents(lines + LengthLines(r), Carried(r))
  }

  lemma RenderStart(r: Request)
    ensures Render([], StartActs(r)) == [Notify(MessageBegin), Data(Url, UrlText(r))]
  {
    hide Render, SpanActs;
    RenderTell([], MessageBegin, SpanActs(Url, UrlText(r)));
    var none: seq<Event> := [];
    assert none + [Notify(MessageBegin)] == [Notify(MessageBegin)];
    RenderSpan([Notify(MessageBegin)], Url, UrlText(r));
    assert [Notify(MessageBegin)] + [Data(Url, UrlText(r))] == [Notify(MessageBegin), Data(Url, UrlText(r))];
  }

  lemma MessageReported(r: Request, lines: seq<Pair>)
    ensures Reported(HttpMachine.Init(Kind.Request), MessageActs(r, lines)) == MessageEvents(r, lines)
  {
    hide Render, RestActs, RestEvents, StartActs, LengthLines, UrlText;
    RenderAppend([], StartActs(r), RestActs(lines + LengthLines(r), Carried(r)));
    RenderStart(r);
    RenderRest([Notify(MessageBegin), Data(Url, UrlText(r))], lines + LengthLines(r), Carried(r));
    assert EntryLog(HttpMachine.Init(Kind.Request).state) == [];
  }

  // ---------------------------------------------------------------- the request rebuilt

  lemma UrlRebuilt(b: Building, r: Request, n: Numbers)
    requires UrlPrintable(r) && b.request.query == [] && b.request.fragment == []
    ensures Absorb(b, Data(Url, UrlText(r)), n) ==
            b.(request := b.request.(path := r.path, query := r.query, fragment := r.fragment))
  {
    hide UrlText, F.Parse, F.Layout, U.Text, U.Proper, F.Holds, W.Split;
    var o, a, url := UrlPieces(r), H.NOBODY, UrlText(r);
    UrlProper(r);
    W.SplitIsParse(false, url);
    F.NobodyKeys();
    assert F.Acceptable(false, o, a);
    F.ParseInverts(false, o, a);
    F.LayoutKeys(o, false, a);
    var l := F.Layout(o, a);
    CutHolds(o, a, F.Path, b.request.path);
    CutHolds(o, a, F.Query, b.request.query);
    CutHolds(o, a, F.Fragment, b.request.fragment);
  }

  lemma CutHolds(o: U.Pieces, a: H.Authority, f: F.UrlField, otherwise: Bytes)
    requires F.Acceptable(false, o, a)
    ensures Cut(U.Text(o), F.Layout(o, a), f, otherwise) == if f in F.Layout(o, a) then F.Content(o, a, f)
            else otherwise
  {
    hide U.Text, F.Layout, F.Acceptable;
    if f in F.Layout(o, a) {
      F.FieldHolds(false, o, a, f);
    }
  }

  function SetAll(h: Headers, lines: seq<Pair>): Headers
    decreases |lines|
  {
    if lines == [] then h else SetAll(SetHeader(h, lines[0].0, lines[0].1), lines[1..])
  }

  function LastName(field: Bytes, lines: seq<Pair>): Bytes {
    if lines == [] then field else lines[|lines| - 1].0
  }

  lemma AbsorbLine(b: Building, name: Bytes, value: Bytes, n: Numbers)
    ensures AbsorbAll(b, [Data(Field, name), Data(Value, value)], n) ==
            b.(field := name, request := b.request.(headers := SetHeader(b.request.headers, name, value)))
  {
    hide SetHeader;
    assert [Data(Field, name), Data(Value, value)] == [Data(Field, name)] + [Data(Value, value)];
    AbsorbAppend(b, [Data(Field, name)], [Data(Value, value)], n);
    AbsorbOne(b, Data(Field, name), n);
    AbsorbOne(b.(field := name), Data(Value, value), n);
  }

  lemma {:induction false} AbsorbLines(b: Building, lines: seq<Pair>, n: Numbers)
    ensures AbsorbAll(b, LinesEvents(lines), n) ==
            b.(field := LastName(b.field, lines), request := b.request.(headers := SetAll(b.request.headers, lines)))
    decreases |lines|
  {
    hide SetHeader, Absorb, AbsorbAll;
    if lines == [] {
      assert AbsorbAll(b, [], n) == b by { AbsorbNone(b, n); }
    } else {
      var (name, value) := lines[0];
      AbsorbAppend(b, [Data(Field, name), Data(Value, value)], LinesEvents(lines[1..]), n);
      AbsorbLine(b, name, value, n);
      AbsorbLines(AbsorbAll(b, [Data(Field, name), Data(Value, value)], n), lines[1..], n);
    }
  }

  lemma AbsorbNone(b: Building, n: Numbers)
    ensures AbsorbAll(b, [], n) == b
  {
  }

  // ---------------------------------------------------------------- the headers rebuilt

  function Picked(h: Headers, order: seq<Bytes>): Headers {
    map k | k in order && k in h :: h[k]
  }

  /** Setting the printed headers one after the other, in any order, gives all of them. */
  lemma {:induction false} SetAllHeaders(h: Headers, r: Request, order: seq<Bytes>)
    requires HeadersPrintable(r.headers) && forall k :: k in order ==> k in r.headers && k !in h
    requires forall i, j :: 0 <= i < j < |order| ==> order[i] != order[j]
    ensures SetAll(h, HeaderLines(r, order)) == h + Picked(r.headers, order)
    decreases |order|
  {
    hide HeadersPrintable, Lowered;
    assert CONNECTION !in r.headers by { NoConnection(r.headers); }
    hide CONNECTION;
    if order == [] {
      assert Picked(r.headers, order) == map[];
    } else {
      var k, rest := order[0], order[1..];
      var h1 := h[k := r.headers[k]];
      HeaderPlain(r.headers, k);
      assert SetHeader(h, r.headers[k].0, r.headers[k].1) == h1;
      SetAllHeaders(h1, r, rest);
      PickOne(h, r.headers, order);
    }
  }

  lemma NoConnection(h: Headers)
    requires HeadersPrintable(h)
    ensures CONNECTION !in h
  {
  }

  lemma PickOne(h: Headers, g: Headers, order: seq<Bytes>)
    requires order != [] && order[0] in g
    ensures h[order[0] := g[order[0]]] + Picked(g, order[1..]) == h + Picked(g, order)
  {
    var a, b := h[order[0] := g[order[0]]] + Picked(g, order[1..]), h + Picked(g, order);
    forall k ensures (k in a <==> k in b) && (k in a ==> a[k] == b[k]) {
      assert k in order <==> k == order[0] || k in order[1..];
    }
  }

  lemma PickedAll(h: Headers, order: seq<Bytes>)
    requires IsOrder(order, h)
    ensures Picked(h, order) == h
  {
  }

  lemma {:induction false} SetAllAppend(h: Headers, a: seq<Pair>, b: seq<Pair>)
    ensures SetAll(h, a + b) == SetAll(SetAll(h, a), b)
    decreases |a|
  {
    hide SetHeader;
    if a == [] {
      assert a + b == b;
    } else {
      assert (a + b)[1..] == a[1..] + b;
      SetAllAppend(SetHeader(h, a[0].0, a[0].1), a[1..], b);
    }
  }

  /** What printing adds: the connection line, and the length when there is a body. */
  function ConnectionHeader(r: Request): Headers {
    if r.websocket then map[] else map[CONNECTION := (CONNECTION, if r.close then CLOSE else KEEP_ALIVE)]
  }

  function AddedLength(r: Request): Headers {
    if r.body == [] then map[] else map[CONTENT_LENGTH := (CONTENT_LENGTH, DecimalText(|r.body|))]
  }

  lemma SetOne(h: Headers, lines: seq<Pair>)
    requires |lines| == 1 && Lowered(lines[0].0) == lines[0].0 && lines[0].0 !in h
    ensures SetAll(h, lines) == h[lines[0].0 := lines[0]]
  {
    hide Lowered;
    assert lines[1..] == [];
    var h1 := SetHeader(h, lines[0].0, lines[0].1);
    assert SetAll(h1, lines[1..]) == h1;
  }

  lemma ConnectionSet(r: Request)
    ensures SetAll(map[], ConnectionLine(r)) == ConnectionHeader(r)
  {
    hide SetHeader, CONNECTION, KEEP_ALIVE, CLOSE, SetAll;
    var none: Headers := map[];
    ConnectionPlain(r);
    if r.websocket {
      assert SetAll(none, []) == none by { SetNone(none); }
    } else {
      SetOne(none, ConnectionLine(r));
    }
  }

  lemma SetNone(h: Headers)
    ensures SetAll(h, []) == h
  {
  }

  lemma LengthSet(h: Headers, r: Request)
    requires CONTENT_LENGTH !in h
    ensures SetAll(h, LengthLines(r)) == h + AddedLength(r)
  {
    hide SetHeader, CONTENT_LENGTH, DecimalText, SetAll;
    LengthName();
    if r.body == [] {
      SetNone(h);
    } else {
      SetOne(h, LengthLines(r));
    }
  }

  lemma HeadersRebuilt(r: Request, order: seq<Bytes>)
    requires HeadersPrintable(r.headers) && IsOrder(order, r.headers)
    ensures SetAll(SetAll(map[], Lines(r, order)), LengthLines(r)) ==
            r.headers + ConnectionHeader(r) + AddedLength(r)
  {
    hide SetAll, ConnectionLine, LengthLines, AddedLength, CONNECTION, CONTENT_LENGTH, TRANSFER_ENCODING, UPGRADE,
         Picked, KEEP_ALIVE, CLOSE;
    OrderIn(order, r.headers);
    TwoNames();
    ConnectionSet(r);
    var h0 := ConnectionHeader(r);
    SetAllAppend(map[], ConnectionLine(r), HeaderLines(r, order));
    SetAllHeaders(h0, r, order);
    PickedAll(r.headers, order);
    assert h0 + r.headers == r.headers + h0;
    LengthSet(r.headers + h0, r);
  }

  lemma TwoNames()
    ensures CONNECTION != CONTENT_LENGTH
  {
  }

  // ---------------------------------------------------------------- the round trip

  /** The request that comes back: the fields that are not printed have their initial values. */
  function Returned(r: Request): Request {
    Request.Request(r.verb, r.version, true, false, r.path, r.query, r.fragment,
                    r.headers + ConnectionHeader(r) + AddedLength(r), r.body)
  }

  lemma MessageRebuilt(r: Request, order: seq<Bytes>, n: Numbers)
    requires Printable(r) && IsOrder(order, r.headers)
    requires n == Numbers(r.version / 16, r.version % 16, r.verb)
    ensures var b := AbsorbAll(START, MessageEvents(r, Lines(r, order)), n);
            b.request == Returned(r) && b.finished && !b.failed
  {
    hide Absorb, AbsorbAll, Lines, LinesEvents, LengthLines, BodyEvents, UrlText, SetAll, HeadersPrintable,
         UrlPrintable, IsOrder, ConnectionHeader, AddedLength, LastName, Carried;
    OrderIn(order, r.headers);
    var lines := Lines(r, order) + LengthLines(r);
    var end := [Notify(HeadersComplete)] + BodyEvents(Carried(r));
    StartRebuilt(r, n);
    var b1 := START.(request := BLANK.(path := r.path, query := r.query, fragment := r.fragment));
    AbsorbAppend(START, [Notify(MessageBegin), Data(Url, UrlText(r))], LinesEvents(lines) + end, n);
    AbsorbAppend(b1, LinesEvents(lines), end, n);
    AbsorbLines(b1, lines, n);
    SetAllAppend(map[], Lines(r, order), LengthLines(r));
    HeadersRebuilt(r, order);
    EndRebuilt(AbsorbAll(b1, LinesEvents(lines), n), r, n);
  }

  lemma StartRebuilt(r: Request, n: Numbers)
    requires UrlPrintable(r)
    ensures AbsorbAll(START, [Notify(MessageBegin), Data(Url, UrlText(r))], n) ==
            START.(request := BLANK.(path := r.path, query := r.query, fragment := r.fragment))
  {
    hide UrlText, UrlPrintable, AbsorbAll;
    var a, b := Notify(MessageBegin), Data(Url, UrlText(r));
    assert [a, b] == [a] + [b];
    AbsorbAppend(START, [a], [b], n);
    AbsorbOne(START, a, n);
    AbsorbOne(START, b, n);
    UrlRebuilt(START, r, n);
  }

  lemma EndRebuilt(b: Building, r: Request, n: Numbers)
    requires n == Numbers(r.version / 16, r.version % 16, r.verb) && b.request.body == []
    ensures AbsorbAll(b, [Notify(HeadersComplete)] + BodyEvents(Carried(r)), n) ==
            b.(finished := true, request := b.request.(version := r.version, verb := r.verb, body := r.body))
  {
    hide AbsorbAll;
    AbsorbAppend(b, [Notify(HeadersComplete)], BodyEvents(Carried(r)), n);
    AbsorbOne(b, Notify(HeadersComplete), n);
    var b1 := b.(request := b.request.(version := r.version, verb := r.verb));
    var b2 := b1.(request := b1.request.(body := r.body));
    AbsorbOne(b2, Notify(MessageComplete), n);
    if r.body != [] {
      AbsorbAppend(b1, [Data(Body, r.body)], [Notify(MessageComplete)], n);
      var none: Bytes := [];
      assert none + r.body == r.body;
      AbsorbOne(b1, Data(Body, r.body), n);
    }
  }

  lemma OneEnd(r: Request, lines: seq<Pair>)
    ensures CountOf(MessageEvents(r, lines), MessageComplete) == 1
  {
    hide RestEvents, CountOf, LengthLines, UrlText;
    var m, a, b := MessageComplete, Notify(MessageBegin), Data(Url, UrlText(r));
    assert [a, b] == [a] + [b];
    BodyAppend([a], [b], m);
    BodyOne(a, m);
    BodyOne(b, m);
    BodyAppend([a, b], RestEvents(lines + LengthLines(r), Carried(r)), m);
    RestCounts(lines + LengthLines(r), Carried(r));
  }

  /** What parsing a text into a fresh request comes to: all of it is consumed, one message ends with it, no
      callback fails, and this is the request. */
  predicate ParsesTo(limit: nat, text: Bytes, r: Request) {
    var p0 := HttpMachine.Init(Kind.Request);
    var out := Run(limit, p0, text);
    && out.Done?
    && var es := Reported(p0, out.acts);
       var b := AbsorbAll(START, es, Numbers(out.p.major, out.p.minor, out.p.verb));
       b.request == r && b.finished && !b.failed && CountOf(es, MessageComplete) == 1
  }

  /** Print then parse.  Any well-formed request whose head is within the limit, printed with its headers in
      any order, parses back to itself with the headers that printing adds, unless, and only unless, a header
      name begins with "transfer-encoding": then the parser reports an error, another one with a body than without. */
  lemma PrintThenParse(limit: nat, r: Request, order: seq<Bytes>)
    requires Printable(r) && IsOrder(order, r.headers) && |Head(r, order)| <= limit
    ensures ParsesTo(limit, Printed(r, order), Returned(r)) <==> !Spoilt(r.headers)
    ensures Spoilt(r.headers) ==>
              Run(limit, HttpMachine.Init(Kind.Request), Printed(r, order)) == Failed(TeError(r.body != []))
  {
    hide Run, Printable, IsOrder, Printed, Head, Reported, AbsorbAll, MessageActs, MessageEvents, Lines, Returned,
         CountOf, Spoilt;
    OrderIn(order, r.headers);
    var q := PrintedRun(limit, r, order);
    if !Spoilt(r.headers) {
      MessageReported(r, Lines(r, order));
      MessageRebuilt(r, order, Numbers(r.version / 16, r.version % 16, r.verb));
      OneEnd(r, Lines(r, order));
    }
  }

  // ---------------------------------------------------------------- whether the connection lasts

  /** The options that the printed request names: its own, and those of a proxy-connection header. */
  function ConnectionWords(r: Request): set<Bytes> {
    (if r.websocket then {} else {if r.close then CLOSE else KEEP_ALIVE})
    + (if PROXY_CONNECTION in r.headers then Says(Options, r.headers[PROXY_CONNECTION].1) else {})
  }

  lemma ConnectionSaid(r: Request)
    ensures Said(Options, ConnectionLine(r)) == if r.websocket then {} else {if r.close then CLOSE else KEEP_ALIVE}
  {
    ConnectionPlain(r);
    WordsSome();
    OneWord(Options, CLOSE);
    OneWord(Options, KEEP_ALIVE);
    hide CONNECTION, CLOSE, KEEP_ALIVE, Says, Lowered;
    var lines := ConnectionLine(r);
    if !r.websocket {
      assert lines[1..] == [] && Said(Options, []) == {};
    }
  }

  lemma HeaderSays(h: Headers, k: Bytes)
    requires HeadersPrintable(h) && k in h
    ensures LineSays(Options, h[k].0, h[k].1) == if k == PROXY_CONNECTION then Says(Options, h[k].1) else {}
  {
    HeaderPlain(h, k);
    NoConnection(h);
    hide HeadersPrintable, Lowered, Says, CONNECTION, PROXY_CONNECTION;
  }

  lemma {:induction false} HeadersSaid(r: Request, order: seq<Bytes>)
    requires HeadersPrintable(r.headers) && forall k :: k in order ==> k in r.headers
    ensures Said(Options, HeaderLines(r, order)) ==
            if PROXY_CONNECTION in order then Says(Options, r.headers[PROXY_CONNECTION].1) else {}
    decreases |order|
  {
    hide HeadersPrintable, Says, LineSays, CONNECTION, PROXY_CONNECTION;
    NoConnection(r.headers);
    if order != [] {
      HeaderSays(r.headers, order[0]);
      HeadersSaid(r, order[1..]);
      assert PROXY_CONNECTION in order <==> PROXY_CONNECTION == order[0] || PROXY_CONNECTION in order[1..];
    }
  }

  lemma WordsSaid(r: Request, order: seq<Bytes>)
    requires HeadersPrintable(r.headers) && IsOrder(order, r.headers)
    ensures forall k :: k in order ==> k in r.headers
    ensures Said(Options, Lines(r, order)) == ConnectionWords(r)
  {
    OrderIn(order, r.headers);
    hide HeadersPrintable, Says, Said, ConnectionLine, HeaderLines, CLOSE, KEEP_ALIVE, PROXY_CONNECTION;
    ConnectionSaid(r);
    HeadersSaid(r, order);
    LinesAppend(ConnectionLine(r), HeaderLines(r, order));
  }

  /** After a printed request the parser is ready for another one exactly when the connection lasts by the words
      that the request names: its own, and those of a proxy-connection header. */
  lemma PrintedLasts(limit: nat, r: Request, order: seq<Bytes>)
    requires Printable(r) && IsOrder(order, r.headers) && |Head(r, order)| <= limit && !Spoilt(r.headers)
    ensures var out := Run(limit, HttpMachine.Init(Kind.Request), Printed(r, order));
            out.Done? && out.p.state == if Persists(r.version / 16, r.version % 16, ConnectionWords(r)) then StartReq
                                        else Dead
  {
    hide Run, Printable, IsOrder, Printed, Head, Lines, Spoilt, Persists, ConnectionWords, Said, MessageActs;
    assert HeadersPrintable(r.headers) by { PrintableParts(r); }
    WordsSaid(r, order);
    var q := PrintedRun(limit, r, order);
  }

  /** So without such a header it refuses anything further if and only if the request says close. */
  lemma CloseIsHeard(limit: nat, r: Request, order: seq<Bytes>)
    requires Printable(r) && IsOrder(order, r.headers) && |Head(r, order)| <= limit && !Spoilt(r.headers)
    requires PROXY_CONNECTION !in r.headers
    ensures var out := Run(limit, HttpMachine.Init(Kind.Request), Printed(r, order));
            out.Done? && (out.p.state.Dead? <==> if r.websocket then r.version / 16 == 0 || r.version % 16 == 0
                                                else r.close)
  {
    hide Run, Printable, IsOrder, Printed, Head, Spoilt, PROXY_CONNECTION, Says;
    PrintedLasts(limit, r, order);
    WordsSome();
    hide CLOSE, KEEP_ALIVE;
  }

  /** A request that is spoilt: a GET of "/" with the header "transfer-encodings: x". */
  lemma SpoiltWitness()
    ensures exists r, order :: Printable(r) && IsOrder(order, r.headers) && |Head(r, order)| <= 200 && Spoilt(r.headers)
  {
    hide Printable, Head, Lowered, CONNECTION, CONTENT_LENGTH, TRANSFER_ENCODING, UPGRADE;
    var name := TeName();
    var r := BLANK.(headers := map[name := (name, ['x'])]);
    var order := [name];
    assert name in order;
    assert SpoiltBy(r.headers, name);
    BlankPrintable(r, name);
    WitnessLength(r, name);
  }

  /** The name "transfer-encodings". */
  lemma TeName() returns (name: Bytes)
    ensures |name| == 18 && Lowered(name) == name && Tokens(name) && BeginsTe(name)
    ensures name != CONNECTION && name != CONTENT_LENGTH && name != TRANSFER_ENCODING && name != UPGRADE
  {
    name := "transfer-encodings";
    assert name == TRANSFER_ENCODING + ['s'];
    assert name == ['t', 'r', 'a', 'n', 's', 'f', 'e', 'r', '-', 'e', 'n', 'c', 'o', 'd', 'i', 'n', 'g', 's'];
    assert Lowered(name) == name;
    Words();
  }

  lemma BlankPrintable(r: Request, k: Bytes)
    requires OneHeader(r.headers, k) && r == BLANK.(headers := r.headers)
    ensures Printable(r)
  {
    hide Lowered, Tokens, CONNECTION, CONTENT_LENGTH, TRANSFER_ENCODING, UPGRADE, MethodName;
    assert UrlPrintable(r);
  }

  predicate OneHeader(h: Headers, k: Bytes) {
    && h == map[k := (k, ['x'])] && Lowered(k) == k && k != [] && Tokens(k)
    && k != CONNECTION && k != CONTENT_LENGTH && k != TRANSFER_ENCODING && k != UPGRADE
  }

  lemma WitnessLength(r: Request, name: Bytes)
    requires r == BLANK.(headers := map[name := (name, ['x'])]) && |name| == 18 && name != CONNECTION
    ensures |Head(r, [name])| <= 200
  {
    hide CONNECTION;
    StartTextIs(r);
    PrintedParts(r, [name]);
    assert Lines(r, [name]) + LengthLines(r) == Lines(r, [name]);
    assert HeaderLines(r, []) == [];
    assert HeaderLines(r, [name]) == [(name, ['x'])] by { assert [name][1..] == []; }
    var lines := Lines(r, [name]);
    assert lines == [(CONNECTION, CLOSE), (name, ['x'])];
    var tail: seq<Pair> := lines[1..];
    assert tail == [(name, ['x'])] && LinesText(tail[1..]) == [];
    assert |LinesText(tail)| == |LineText(name, ['x'])| == 23;
    Words();
    assert |CLOSE| == 5;
    assert |MethodName(GET)| == 3;
  }
}
