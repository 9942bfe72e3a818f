/** The request and its parser as objects: `dump` appends line after line, and the callbacks fill the request
    in, one event at a time. */
module HttpRequests {
  import opened HttpSyntax
  import opened HttpMachine
  import opened HttpRun
  import opened HttpNames
  import opened HttpLines
  import opened HttpFraming
  import opened HttpLists
  import opened HttpHeads
  import opened HttpRequestText
  import F = HttpUrlFields
  import P = HttpUrlParts
  import W = HttpUrlWide
  import X = HttpExecute

  predicate Keyed(h: Headers) { forall k :: k in h ==> Lowered(h[k].0) == k }

  lemma {:induction false} HeaderLinesSnoc(r: Request, order: seq<Bytes>, k: Bytes)
    requires (forall x :: x in order ==> x in r.headers) && k in r.headers
    ensures forall x :: x in order + [k] ==> x in r.headers
    ensures HeaderLines(r, order + [k]) ==
            HeaderLines(r, order) + (if !r.websocket && k == CONNECTION then [] else [r.headers[k]])
    decreases |order|
  {
    hide CONNECTION;
    if order == [] {
      assert ([] + [k])[1..] == [];
      assert HeaderLines(r, ([] + [k])[1..]) == [];
    } else {
      assert (order + [k])[1..] == order[1..] + [k];
      HeaderLinesSnoc(r, order[1..], k);
    }
  }

  lemma LinesTextOne(line: Pair)
    ensures LinesText([line]) == LineText(line.0, line.1)
  {
    hide LineText;
    assert [line][1..] == [];
    assert LinesText([line][1..]) == [];
  }

  class HttpRequest {
    var verb: Method
    var version: nat
    var close: bool
    var websocket: bool
    var path: Bytes
    var query: Bytes
    var fragment: Bytes
    var headers: Headers
    var body: Bytes

    ghost function Value(): Request
      reads this
    {
      Request.Request(verb, version, close, websocket, path, query, fragment, headers, body)
    }

    constructor ()
      ensures Value() == BLANK
    {
      verb, version, close, websocket := GET, 0x11, true, false;
      path, query, fragment, headers, body := ['/'], [], [], map[], [];
    }

    /** `m_headers[key] = val`: a new key keeps this spelling, an old one keeps its own. */
    method SetHeader(key: Bytes, val: Bytes)
      modifies this`headers
      ensures headers == HttpRequestText.SetHeader(old(headers), key, val)
    {
      var k := Lowered(key);
      if k in headers {
        headers := headers[k := (headers[k].0, val)];
      } else {
        headers := headers[k := (key, val)];
      }
    }

    method DumpStart() returns (os: Bytes)
      ensures os == StartText(Value()) + LinesText(ConnectionLine(Value()))
    {
      hide LineText, StartText, CONNECTION, KEEP_ALIVE, CLOSE, DecimalText, MethodName;
      os := MethodName(verb) + [' '] + path + (if query == [] then [] else ['?']) + query
            + (if fragment == [] then [] else ['#']) + fragment + [' ', 'H', 'T', 'T', 'P', '/']
            + DecimalText(version / 16) + ['.'] + DecimalText(version % 16) + [CR, LF];
      StartIs(Value());
      if !websocket {
        LinesTextOne((CONNECTION, if close then CLOSE else KEEP_ALIVE));
        os := os + LineText(CONNECTION, if close then CLOSE else KEEP_ALIVE);
      }
    }

    method DumpHeaders(order: seq<Bytes>, first: Bytes) returns (os: Bytes)
      requires Keyed(headers) && forall k :: k in order ==> k in headers
      ensures os == first + LinesText(HeaderLines(Value(), order))
    {
      hide LineText, CONNECTION, Keyed;
      ghost var r := Value();
      os := first;
      var i := 0;
      assert order[..0] == [];
      while i < |order|
        invariant i <= |order| && forall k :: k in order[..i] ==> k in r.headers
        invariant os == first + LinesText(HeaderLines(r, order[..i]))
      {
        var line := headers[order[i]];
        assert order[..i + 1] == order[..i] + [order[i]];
        HeaderLinesSnoc(r, order[..i], order[i]);
        KeyedAt(headers, order[i]);
        if websocket || Lowered(line.0) != CONNECTION {
          LinesTextAppend(HeaderLines(r, order[..i]), [line]);
          LinesTextOne(line);
          os := os + LineText(line.0, line.1);
        } else {
          assert HeaderLines(r, order[..i]) + [] == HeaderLines(r, order[..i]);
        }
        i := i + 1;
      }
      assert order[..i] == order;
    }

    lemma ValueHeaders()
      ensures Value().headers == headers
    {
    }

    /** Prints the request, with its headers in the order in which the map is walked. */
    method Dump(order: seq<Bytes>) returns (os: Bytes)
      requires Keyed(headers) && IsOrder(order, headers)
      ensures os == Printed(Value(), order)
    {
      hide LineText, StartText, CONTENT_LENGTH, DecimalText, IsOrder, Keyed, LinesText, ConnectionLine, HeaderLines;
      assert forall k :: k in order ==> k in headers by { OrderIn(order, headers); }
      ghost var r := Value();
      var first := DumpStart();
      var lines := DumpHeaders(order, first);
      LinesTextAppend(ConnectionLine(r), HeaderLines(r, order));
      ghost var all := LinesText(Lines(r, order));
      assert lines == StartText(r) + all;
      if body != [] {
        os := lines + LineText(CONTENT_LENGTH, DecimalText(|body|)) + [CR, LF] + body;
      } else {
        os := lines + [CR, LF];
      }
      LinesTextAppend(Lines(r, order), LengthLines(r));
      LengthTextIs(r);
      assert os == StartText(r) + (LinesText(Lines(r, order) + LengthLines(r)) + [CR, LF]) + body;
    }
  }

  lemma KeyedAt(h: Headers, k: Bytes)
    requires Keyed(h) && k in h
    ensures Lowered(h[k].0) == k
  {
  }

  lemma StartIs(r: Request)
    ensures StartText(r) ==
            MethodName(r.verb) + [' '] + r.path + (if r.query == [] then [] else ['?']) + r.query
            + (if r.fragment == [] then [] else ['#']) + r.fragment + [' ', 'H', 'T', 'T', 'P', '/']
            + DecimalText(r.version / 16) + ['.'] + DecimalText(r.version % 16) + [CR, LF]
  {
    hide MethodName, DecimalText;
    assert UrlText(r) == r.path + (if r.query == [] then [] else ['?']) + r.query
                         + (if r.fragment == [] then [] else ['#']) + r.fragment;
  }

  lemma LengthTextIs(r: Request)
    ensures LinesText(LengthLines(r)) == if r.body == [] then []
            else LineText(CONTENT_LENGTH, DecimalText(|r.body|))
  {
    hide LineText, CONTENT_LENGTH, DecimalText;
    if r.body != [] {
      LinesTextOne((CONTENT_LENGTH, DecimalText(|r.body|)));
    }
  }

  class RequestParser {
    const data: HttpRequest
    var field: Bytes
    var finished: bool
    var failed: bool

    ghost function Value(): Building
      reads this, data
    {
      Building(data.Value(), field, finished, failed)
    }

    lemma ValueParts()
      ensures Value().request == data.Value() && Value().finished == finished && Value().failed == failed
    {
    }

    constructor ()
      ensures Value() == START && fresh(data)
    {
      data := new HttpRequest();
      field, finished, failed := [], false, false;
    }

    method OnUrl(url: Bytes) returns (ret: int)
      modifies data
      ensures match W.Split(false, url)
              case Bad => ret != 0 && data.Value() == old(data.Value())
              case Good(fields, _) => ret == 0 && data.Value() == SetUrl(old(data.Value()), url, fields)
    {
      hide W.Split, F.Parse, Cut;
      var split := new P.UrlParts();
      var ok := split.ParseUrl(url, false);
      if !ok {
        return 1;
      }
      var newPath := Piece(url, split, F.Path, data.path);
      var newQuery := Piece(url, split, F.Query, data.query);
      var newFragment := Piece(url, split, F.Fragment, data.fragment);
      data.path, data.query, data.fragment := newPath, newQuery, newFragment;
      return 0;
    }

    /** The field of the URL if it was found. */
    static method Piece(url: Bytes, split: P.UrlParts, f: F.UrlField, otherwise: Bytes) returns (piece: Bytes)
      requires split.Inside(url)
      ensures forall fields :: split.Shows(fields) ==> piece == Cut(url, fields, f, otherwise)
    {
      if f in split.fieldSet {
        return url[split.data[f].off..split.data[f].off + split.data[f].len];
      } else {
        return otherwise;
      }
    }

    /** One callback: what it does to the request and the parser is what `Absorb` says. */
    method Deliver(e: Event, n: Numbers)
      modifies this, data
      ensures Value() == Absorb(old(Value()), e, n)
    {
      if e.Notify? {
        if e.note == HeadersComplete {
          data.version := n.major * 16 + n.minor;
          data.verb := n.verb;
        } else if e.note == MessageComplete {
          finished := true;
        }
      } else if e.span == Url {
        var ret := OnUrl(e.bytes);
        if ret != 0 {
          failed := true;
        }
      } else if e.span == Field {
        field := e.bytes;
      } else if e.span == Span.Value {
        data.SetHeader(field, e.bytes);
      } else if e.span == Body {
        data.body := data.body + e.bytes;
      }
    }

    /** The callbacks of one call, in order. */
    method DeliverAll(es: seq<Event>, n: Numbers)
      modifies this, data
      ensures Value() == AbsorbAll(old(Value()), es, n)
    {
      hide Absorb;
      ghost var b0 := Value();
      var i := 0;
      while i < |es|
        invariant i <= |es|
        invariant AbsorbAll(b0, es, n) == AbsorbAll(Value(), es[i..], n)
      {
        assert es[i..][0] == es[i] && es[i..][1..] == es[i + 1..];
        Deliver(es[i], n);
        i := i + 1;
      }
    }
  }

  lemma PrintableKeyed(r: Request)
    requires Printable(r)
    ensures Keyed(r.headers)
  {
  }

  /** The round trip, as the method needs it. */
  lemma RoundTrip(limit: nat, r: Request, order: seq<Bytes>)
    requires Printable(r) && IsOrder(order, r.headers) && |Head(r, order)| <= limit
    ensures var p0 := HttpMachine.Init(Kind.Request);
            var out := Run(limit, p0, Printed(r, order));
            && p0.nread == 0 && Keyed(r.headers) && Printed(r, order) != []
            && if Spoilt(r.headers) then out == Failed(TeError(r.body != []))
               else
                 out.Done? &&
                 var b := AbsorbAll(START, Reported(p0, out.acts), Numbers(out.p.major, out.p.minor, out.p.verb));
                 b.request == Returned(r) && b.finished && !b.failed
                 && CountOf(Reported(p0, out.acts), MessageComplete) == 1
  {
    PrintThenParse(limit, r, order);
    PrintableKeyed(r);
    hide Run, Printed, AbsorbAll, Reported, Returned, CountOf, Spoilt, Head;
    PrintedSome(r, order);
  }

  /** The round trip on objects: a request is printed, the text is parsed, and the callbacks that are made fill a
      fresh request in.  (The version and the method they read do not change between the request line and the end
      of the message, so it does not matter that they are delivered after the run.) */
  method PrintAndParse(limit: nat, r: HttpRequest, order: seq<Bytes>)
    returns (parser: X.HttpParser, back: RequestParser, used: nat)
    requires Printable(r.Value()) && IsOrder(order, r.headers) && |Head(r.Value(), order)| <= limit
    requires limit + |Printed(r.Value(), order)| < X.WORD
    ensures if Spoilt(r.headers) then parser.errno == X.Error(TeError(r.Value().body != []))
            else
              && parser.errno.NoError? && used == |Printed(r.Value(), order)|
              && back.data.Value() == Returned(r.Value()) && back.finished && !back.failed
              && CountOf(parser.log, MessageComplete) == 1
  {
    hide *;
    ghost var value := r.Value();
    r.ValueHeaders();
    RoundTrip(limit, value, order);
    var text := r.Dump(order);
    parser := new X.HttpParser(Kind.Request);
    used := parser.Execute(limit, text);
    Blamed(value.body != [], parser.errno);
    back := new RequestParser();
    if parser.errno.NoError? {
      ghost var none: seq<Event> := [];
      ghost var es := Reported(HttpMachine.Init(Kind.Request), Run(limit, HttpMachine.Init(Kind.Request), text).acts);
      assert none + es == es;
      back.DeliverAll(parser.log, Numbers(parser.st.major, parser.st.minor, parser.st.verb));
      back.ValueParts();
    }
  }

  lemma Blamed(announced: bool, errno: X.ErrnoField)
    ensures X.Blames(TeError(announced), errno) ==> errno == X.Error(TeError(announced))
  {
  }

  lemma PrintedSome(r: Request, order: seq<Bytes>)
    requires forall k :: k in order ==> k in r.headers
    ensures Printed(r, order) != []
  {
    StartIs(r);
    hide StartText, LinesText, LengthLines;
  }
}
