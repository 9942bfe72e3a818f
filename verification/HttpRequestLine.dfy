/** The request line at once: a URL the splitter accepts, and the version. */
module HttpRequestLine {
  import opened HttpSyntax
  import opened HttpMachine
  import opened HttpInvariant
  import opened HttpRun
  import opened HttpSpans
  import opened HttpFraming
  import opened HttpLines
  import opened HttpMethods
  import U = HttpUrl

  // ---------------------------------------------------------------- the URL

  /** The parser inside a URL after the first bytes of it. */
  function InUrlAfter(p: Parser, n: nat, s: UrlPos): Parser { p.(nread := p.nread + n, state := InUrl(s)) }

  lemma UrlAlive(s: UrlPos, ch: Byte)
    ensures UrlChar(s, ch) != UrlDead ==> ch != ' ' && !IsLineEnd(ch) && !IsBlank(ch)
  {
  }

  /** Where the URL starts: with CONNECT, at the server. */
  function UrlFrom(p: Parser): UrlPos { if p.verb == CONNECT then ReqServerStart else UrlBefore }

  lemma FirstUrlStep(limit: nat, p: Parser, ch: Byte)
    requires p.state == ReqSpacesBeforeUrl && UrlChar(UrlFrom(p), ch) != UrlDead
    requires p.nread + 1 <= limit
    ensures Step(limit, p, ch) == Next(InUrlAfter(p, 1, UrlChar(UrlFrom(p), ch)), [Open(Url), Take(Url, ch)])
  {
    UrlAlive(UrlFrom(p), ch);
    hide UrlChar;
  }

  lemma NextUrlStep(limit: nat, p: Parser, n: nat, s: UrlPos, ch: Byte)
    requires UrlChar(s, ch) != UrlDead && p.nread + n + 1 <= limit
    ensures Step(limit, InUrlAfter(p, n, s), ch) == Next(InUrlAfter(p, n + 1, UrlChar(s, ch)), [Take(Url, ch)])
  {
    UrlAlive(s, ch);
    hide UrlChar;
  }

  /** A text that the URL automaton gets through is taken as the URL. */
  lemma {:induction false} UrlRun(limit: nat, p: Parser, text: Bytes)
    requires p.state == ReqSpacesBeforeUrl && text != [] && U.Walk(p.verb == CONNECT, text).Some?
    requires p.nread + |text| <= limit
    ensures var c := p.verb == CONNECT;
            Run(limit, p, text) ==
            Done(InUrlAfter(p, |text|, U.StateAfter(c, U.Walk(c, text).value)), [Open(Url)] + Takes(Url, text))
    decreases |text|
  {
    hide Step, UrlChar, U.StateAfter, U.Grow, InUrlAfter, U.Proper;
    var n, c := |text| - 1, p.verb == CONNECT;
    var init, ch := text[..n], text[n];
    assert text == init + [ch];
    U.WalkSound(c, init);
    var o := U.Walk(c, init).value;
    U.GrowProper(c, o, ch);
    TakesSnoc(init, ch);
    if n == 0 {
      assert U.StateAfter(c, U.NOTHING) == UrlFrom(p) by { StartState(p); }
      FirstUrlStep(limit, p, ch);
      RunOne(limit, p, ch);
      assert text == [ch];
      assert [Open(Url), Take(Url, ch)] == [Open(Url)] + Takes(Url, text);
    } else {
      UrlRun(limit, p, init);
      var q := InUrlAfter(p, n, U.StateAfter(c, o));
      NextUrlStep(limit, p, n, U.StateAfter(c, o), ch);
      RunAppend(limit, p, init, [ch]);
      RunOne(limit, q, ch);
      assert [Open(Url)] + Takes(Url, init) + [Take(Url, ch)] == [Open(Url)] + (Takes(Url, init) + [Take(Url, ch)]);
    }
  }

  /** Of the texts that do not hold what ends a URL, just those that the automaton gets through are taken. */
  lemma {:induction false} UrlExactly(limit: nat, p: Parser, text: Bytes)
    requires p.state == ReqSpacesBeforeUrl && text != [] && p.nread + |text| <= limit
    requires forall i :: 0 <= i < |text| ==> text[i] != ' ' && !IsLineEnd(text[i])
    ensures if U.Walk(p.verb == CONNECT, text).Some? then Run(limit, p, text).Done?
            else Run(limit, p, text) == Failed(InvalidUrl)
    decreases |text|
  {
    hide Run, Step, UrlChar, U.StateAfter, U.Grow, InUrlAfter, U.Proper, IsLineEnd;
    var n, c := |text| - 1, p.verb == CONNECT;
    var init, ch := text[..n], text[n];
    assert text == init + [ch];
    if U.Walk(c, text).Some? {
      UrlRun(limit, p, text);
    } else {
      RunAppend(limit, p, init, [ch]);
      if n == 0 {
        StartState(p);
        assert init == [] && U.Walk(c, init).Some? && U.Walk(c, init).value == U.NOTHING;
        UrlRefused(limit, p, ch);
        RunOne(limit, p, ch);
        assert text == [ch];
      } else if U.Walk(c, init).Some? {
        UrlRun(limit, p, init);
        var s := U.StateAfter(c, U.Walk(c, init).value);
        UrlRefusedIn(limit, InUrlAfter(p, n, s), s, ch) by { InUrlIs(p, n, s); }
        RunOne(limit, InUrlAfter(p, n, s), ch);
      } else {
        UrlExactly(limit, p, init);
      }
    }
  }

  lemma InUrlIs(p: Parser, n: nat, s: UrlPos)
    ensures InUrlAfter(p, n, s).state == InUrl(s) && InUrlAfter(p, n, s).nread == p.nread + n
  {
  }

  lemma UrlRefused(limit: nat, p: Parser, ch: Byte)
    requires p.state == ReqSpacesBeforeUrl && p.nread + 1 <= limit && ch != ' ' && UrlChar(UrlFrom(p), ch) == UrlDead
    ensures Step(limit, p, ch) == Fail(InvalidUrl)
  {
    hide UrlChar;
  }

  lemma UrlRefusedIn(limit: nat, p: Parser, s: UrlPos, ch: Byte)
    requires p.state == InUrl(s) && p.nread + 1 <= limit && ch != ' ' && !IsLineEnd(ch) && UrlChar(s, ch) == UrlDead
    ensures Step(limit, p, ch) == Fail(InvalidUrl)
  {
    hide UrlChar;
  }

  /** Blanks before it are passed over. */
  lemma BlankBeforeUrl(limit: nat, p: Parser)
    requires p.state == ReqSpacesBeforeUrl && p.nread + 1 <= limit
    ensures Step(limit, p, ' ') == Next(p.(nread := p.nread + 1), [])
  {
    hide UrlChar;
  }

  /** A URL whose server has not begun may not end. */
  lemma UnfinishedUrl(limit: nat, p: Parser, s: UrlPos, ch: Byte)
    requires p.state == InUrl(s) && UrlUnfinished(s) && (ch == ' ' || IsLineEnd(ch)) && p.nread + 1 <= limit
    ensures Step(limit, p, ch) == Fail(InvalidUrl)
  {
  }

  lemma StartState(p: Parser)
    ensures U.StateAfter(p.verb == CONNECT, U.NOTHING) == UrlFrom(p)
  {
  }

  lemma TakesSnoc(bytes: Bytes, ch: Byte)
    ensures Takes(Url, bytes + [ch]) == Takes(Url, bytes) + [Take(Url, ch)]
  {
  }

  // ---------------------------------------------------------------- the version

  function DigitChar(n: nat): (c: Byte)
    requires n <= 9
    ensures IsNum(c) && Digit(c) == n
  {
    ('0' as int + n) as char
  }

  function VersionText(major: nat, minor: nat): Bytes
    requires major <= 9 && minor <= 9
  {
    [' ', 'H', 'T', 'T', 'P', '/', DigitChar(major), '.', DigitChar(minor), CR, LF]
  }

  lemma LineByte(limit: nat, p: Parser, at: RequestPos, ch: Byte)
    requires p.state == RequestLine(at) && p.nread + 1 <= limit
    ensures Step(limit, p, ch) == StepRequestLine(p.(nread := p.nread + 1), at, ch)
  {
    hide Step, StepStart, StepStatusLine, StepMethod, StepBeforeUrl, StepUrl, StepHeader, StepChunk, StepBodyIdentity,
         StepMessageDone;
    StepOnce(limit, p, ch);
  }

  /** From one place in the request line to the next. */
  lemma Onward(limit: nat, p: Parser, at: RequestPos, ch: Byte, q: Parser, rest: Bytes)
    requires p.state == RequestLine(at) && p.nread + 1 <= limit
    requires StepRequestLine(p.(nread := p.nread + 1), at, ch) == Next(q, [])
    ensures Run(limit, p, [ch] + rest) == Continue([], 1, Run(limit, q, rest))
  {
    hide StepRequestLine;
    LineByte(limit, p, at, ch);
    hide Step;
    assert ([ch] + rest)[1..] == rest;
  }

  lemma Again2(n: nat, rest: Outcome)
    ensures Continue([], 1, Continue([], n, rest)) == Continue([], n + 1, rest)
  {
    ContinueTwice([], 1, [], n, rest);
    var none: seq<Act> := [];
    assert none + none == none;
  }

  function Reached(p: Parser, n: nat, at: RequestPos): Parser { p.(nread := p.nread + n, state := RequestLine(at)) }

  predicate Spells(at: RequestPos, ch: Byte, to: RequestPos) {
    || (at.ReqHttpStart? && ch == 'H' && to.ReqH?)
    || (at.ReqH? && ch == 'T' && to.ReqHT?)
    || (at.ReqHT? && ch == 'T' && to.ReqHTT?)
    || (at.ReqHTT? && ch == 'P' && to.ReqHTTP?)
    || (at.ReqHTTP? && ch == '/' && to.ReqMajor?)
  }

  lemma ProtocolByte(limit: nat, p: Parser, n: nat, at: RequestPos, ch: Byte, to: RequestPos, rest: Bytes)
    requires Spells(at, ch, to) && p.nread + n + 1 <= limit
    ensures Run(limit, Reached(p, n, at), [ch] + rest) == Continue([], 1, Run(limit, Reached(p, n + 1, to), rest))
  {
    hide Run, Continue;
    Onward(limit, Reached(p, n, at), at, ch, Reached(p, n + 1, to), rest);
  }

  lemma ReachedEnds(p: Parser, at: RequestPos, n: nat, to: RequestPos)
    requires p.state == RequestLine(at)
    ensures Reached(p, 0, at) == p && Reached(p, n, to) == p.(nread := p.nread + n, state := RequestLine(to))
  {
  }

  lemma ProtocolText(rest: Bytes)
    ensures ['H', 'T', 'T', 'P', '/'] + rest == ['H'] + (['T'] + (['T'] + (['P'] + (['/'] + rest))))
  {
  }

  lemma ProtocolSpelt()
    ensures Spells(ReqHttpStart, 'H', ReqH) && Spells(ReqH, 'T', ReqHT) && Spells(ReqHT, 'T', ReqHTT)
    ensures Spells(ReqHTT, 'P', ReqHTTP) && Spells(ReqHTTP, '/', ReqMajor)
  {
  }

  lemma ProtocolRun(limit: nat, p: Parser, rest: Bytes)
    requires p.state == RequestLine(ReqHttpStart) && p.nread + 5 <= limit
    ensures Run(limit, p, ['H', 'T', 'T', 'P', '/'] + rest) ==
            Continue([], 5, Run(limit, p.(nread := p.nread + 5, state := RequestLine(ReqMajor)), rest))
  {
    hide *;
    ReachedEnds(p, ReqHttpStart, 5, ReqMajor);
    ProtocolText(rest);
    ProtocolSpelt();
    var r4 := ['/'] + rest;
    var r3 := ['P'] + r4;
    var r2 := ['T'] + r3;
    var r1 := ['T'] + r2;
    ProtocolByte(limit, p, 0, ReqHttpStart, 'H', ReqH, r1);
    ProtocolByte(limit, p, 1, ReqH, 'T', ReqHT, r2);
    ProtocolByte(limit, p, 2, ReqHT, 'T', ReqHTT, r3);
    ProtocolByte(limit, p, 3, ReqHTT, 'P', ReqHTTP, r4);
    ProtocolByte(limit, p, 4, ReqHTTP, '/', ReqMajor, rest);
    var last := Run(limit, Reached(p, 5, ReqMajor), rest);
    Again2(1, last);
    Again2(2, last);
    Again2(3, last);
    Again2(4, last);
  }

  lemma IceText(rest: Bytes)
    ensures ['I', 'C', 'E', '/'] + rest == ['I'] + (['C'] + (['E'] + (['/'] + rest)))
  {
  }

  /** Two steps on. */
  lemma OnwardTwice(limit: nat, p: Parser, at: RequestPos, x: Byte, q: Parser, next: RequestPos, y: Byte, r: Parser,
                    rest: Bytes)
    requires p.state == RequestLine(at) && q.state == RequestLine(next)
    requires p.nread + 1 <= limit && q.nread + 1 <= limit
    requires StepRequestLine(p.(nread := p.nread + 1), at, x) == Next(q, [])
    requires StepRequestLine(q.(nread := q.nread + 1), next, y) == Next(r, [])
    ensures Run(limit, p, [x] + ([y] + rest)) == Continue([], 2, Run(limit, r, rest))
  {
    hide *;
    Onward(limit, p, at, x, q, [y] + rest);
    Onward(limit, q, next, y, r, rest);
    Again2(1, Run(limit, r, rest));
  }

  lemma IceFirst(limit: nat, p: Parser, rest: Bytes)
    requires p.state == RequestLine(ReqHttpStart) && p.verb == SOURCE && p.nread + 2 <= limit
    ensures Run(limit, p, ['I'] + (['C'] + rest)) ==
            Continue([], 2, Run(limit, p.(nread := p.nread + 2, state := RequestLine(ReqIC)), rest))
  {
    hide Run, Step, Continue;
    var q := p.(nread := p.nread + 1, state := RequestLine(ReqI));
    OnwardTwice(limit, p, ReqHttpStart, 'I', q, ReqI, 'C', p.(nread := p.nread + 2, state := RequestLine(ReqIC)), rest);
  }

  lemma IceSecond(limit: nat, p: Parser, rest: Bytes)
    requires p.state == RequestLine(ReqIC) && p.nread + 2 <= limit
    ensures Run(limit, p, ['E'] + (['/'] + rest)) ==
            Continue([], 2, Run(limit, p.(nread := p.nread + 2, state := RequestLine(ReqMajor)), rest))
  {
    hide Run, Step, Continue;
    var q := p.(nread := p.nread + 1, state := RequestLine(ReqHTTP));
    OnwardTwice(limit, p, ReqIC, 'E', q, ReqHTTP, '/', p.(nread := p.nread + 2, state := RequestLine(ReqMajor)), rest);
  }

  /** The method SOURCE may name the protocol ICE. */
  lemma IceRun(limit: nat, p: Parser, rest: Bytes)
    requires p.state == RequestLine(ReqHttpStart) && p.verb == SOURCE && p.nread + 4 <= limit
    ensures Run(limit, p, ['I', 'C', 'E', '/'] + rest) ==
            Continue([], 4, Run(limit, p.(nread := p.nread + 4, state := RequestLine(ReqMajor)), rest))
  {
    hide *;
    IceText(rest);
    IceFirst(limit, p, ['E'] + (['/'] + rest));
    IceSecond(limit, p.(nread := p.nread + 2, state := RequestLine(ReqIC)), rest);
    ContinueTwice([], 2, [], 2, Run(limit, p.(nread := p.nread + 4, state := RequestLine(ReqMajor)), rest));
    var none: seq<Act> := [];
    assert none + none == none;
  }

  /** Before the protocol blanks are passed over; nothing but its first letter may follow, and the "I" only with that
      method. */
  lemma ProtocolStarts(limit: nat, p: Parser, ch: Byte)
    requires p.state == RequestLine(ReqHttpStart) && p.nread + 1 <= limit
    ensures ch == ' ' ==> Step(limit, p, ch) == Next(p.(nread := p.nread + 1), [])
    ensures Step(limit, p, ch).Fail? <==> !(ch == ' ' || ch == 'H' || (ch == 'I' && p.verb == SOURCE))
  {
    LineByte(limit, p, ReqHttpStart, ch);
    hide Step;
  }

  lemma MajorRun(limit: nat, p: Parser, major: nat, rest: Bytes)
    requires p.state == RequestLine(ReqMajor) && p.nread + 2 <= limit && major <= 9
    ensures Run(limit, p, [DigitChar(major)] + (['.'] + rest)) ==
            Continue([], 2, Run(limit, p.(nread := p.nread + 2, major := major, state := RequestLine(ReqMinor)), rest))
  {
    hide Run, Continue, DigitChar;
    var q1 := p.(nread := p.nread + 1, major := major, state := RequestLine(ReqDot));
    var q2 := p.(nread := p.nread + 2, major := major, state := RequestLine(ReqMinor));
    Onward(limit, p, ReqMajor, DigitChar(major), q1, ['.'] + rest);
    Onward(limit, q1, ReqDot, '.', q2, rest);
    Again2(1, Run(limit, q2, rest));
  }

  lemma DigitIs(n: nat)
    requires n <= 9
    ensures IsNum(DigitChar(n)) && Digit(DigitChar(n)) == n
  {
  }

  lemma MinorSteps(p: Parser, minor: nat)
    requires minor <= 9
    ensures StepRequestLine(p, ReqMinor, DigitChar(minor)) == Next(p.(minor := minor, state := RequestLine(ReqEnd)), [])
    ensures StepRequestLine(p, ReqEnd, CR) == Next(p.(state := RequestLine(ReqLineAlmostDone)), [])
    ensures StepRequestLine(p, ReqLineAlmostDone, LF) == Next(p.(state := Header(FieldStart)), [])
  {
    DigitIs(minor);
    hide DigitChar, IsNum, Digit;
  }

  lemma LineEndRun(limit: nat, p: Parser, rest: Bytes)
    requires p.state == RequestLine(ReqEnd) && p.nread + 2 <= limit
    ensures Run(limit, p, [CR] + ([LF] + rest)) ==
            Continue([], 2, Run(limit, p.(nread := p.nread + 2, state := Header(FieldStart)), rest))
  {
    hide *;
    var q1 := p.(nread := p.nread + 1, state := RequestLine(ReqLineAlmostDone));
    var q2 := p.(nread := p.nread + 2, state := Header(FieldStart));
    MinorSteps(p.(nread := p.nread + 1), 0);
    MinorSteps(q1.(nread := p.nread + 2), 0);
    Onward(limit, p, ReqEnd, CR, q1, [LF] + rest);
    Onward(limit, q1, ReqLineAlmostDone, LF, q2, rest);
    Again2(1, Run(limit, q2, rest));
  }

  lemma MinorRun(limit: nat, p: Parser, minor: nat, rest: Bytes)
    requires p.state == RequestLine(ReqMinor) && p.nread + 3 <= limit && minor <= 9
    ensures Run(limit, p, [DigitChar(minor)] + ([CR] + ([LF] + rest))) ==
            Continue([], 3, Run(limit, p.(nread := p.nread + 3, minor := minor, state := Header(FieldStart)), rest))
  {
    hide *;
    var q1 := p.(nread := p.nread + 1, minor := minor, state := RequestLine(ReqEnd));
    MinorSteps(p.(nread := p.nread + 1), minor);
    Onward(limit, p, ReqMinor, DigitChar(minor), q1, [CR] + ([LF] + rest));
    LineEndRun(limit, q1, rest);
    Again2(2, Run(limit, p.(nread := p.nread + 3, minor := minor, state := Header(FieldStart)), rest));
  }

  lemma NumbersRun(limit: nat, p: Parser, major: nat, minor: nat, rest: Bytes)
    requires p.state == RequestLine(ReqMajor) && p.nread + 5 <= limit && major <= 9 && minor <= 9
    ensures Run(limit, p, [DigitChar(major), '.', DigitChar(minor), CR, LF] + rest) ==
            Continue([], 5, Run(limit, p.(nread := p.nread + 5, major := major, minor := minor,
                                          state := Header(FieldStart)), rest))
  {
    hide Run, Continue, DigitChar;
    var tail := [DigitChar(minor)] + ([CR] + ([LF] + rest));
    assert [DigitChar(major), '.', DigitChar(minor), CR, LF] + rest == [DigitChar(major)] + (['.'] + tail);
    MajorRun(limit, p, major, tail);
    MinorRun(limit, p.(nread := p.nread + 2, major := major, state := RequestLine(ReqMinor)), minor, rest);
    var q := p.(nread := p.nread + 5, major := major, minor := minor, state := Header(FieldStart));
    ContinueTwice([], 2, [], 3, Run(limit, q, rest));
    var none: seq<Act> := [];
    assert none + none == none;
  }

  lemma UrlEnds(limit: nat, p: Parser, s: UrlPos)
    requires p.state == InUrl(s) && !UrlUnfinished(s) && p.nread + 1 <= limit
    ensures Step(limit, p, ' ') == Next(p.(nread := p.nread + 1, state := RequestLine(ReqHttpStart)), [Close(Url)])
  {
    hide UrlChar;
  }

  lemma VersionRun(limit: nat, p: Parser, s: UrlPos, major: nat, minor: nat)
    requires p.state == InUrl(s) && !UrlUnfinished(s) && p.nread + 11 <= limit && major <= 9 && minor <= 9
    ensures Run(limit, p, VersionText(major, minor)) ==
            Done(p.(nread := p.nread + 11, major := major, minor := minor, state := Header(FieldStart)), [Close(Url)])
  {
    hide Run, DigitChar, Step;
    var numbers := [DigitChar(major), '.', DigitChar(minor), CR, LF];
    var protocol := ['H', 'T', 'T', 'P', '/'];
    assert VersionText(major, minor) == [' '] + (protocol + (numbers + []));
    UrlEnds(limit, p, s);
    RunOne(limit, p, ' ');
    RunAppend(limit, p, [' '], protocol + (numbers + []));
    var q := p.(nread := p.nread + 1, state := RequestLine(ReqHttpStart));
    ProtocolRun(limit, q, numbers + []);
    var q5 := q.(nread := q.nread + 5, state := RequestLine(ReqMajor));
    NumbersRun(limit, q5, major, minor, []);
    var none: seq<Act> := [];
    assert [Close(Url)] + (none + (none + none)) == [Close(Url)];
    Finished(limit, q5.(nread := p.nread + 11, major := major, minor := minor, state := Header(FieldStart)));
  }

  lemma Finished(limit: nat, p: Parser)
    ensures Run(limit, p, []) == Done(p, [])
  {
  }

  // ---------------------------------------------------------------- the line

  /** A URL that the automaton accepts and that may end where it does. */
  predicate GoodUrl(verb: Method, url: Bytes) {
    var at := U.Walk(verb == CONNECT, url);
    url != [] && at.Some? && !UrlUnfinished(U.StateAfter(verb == CONNECT, at.value))
  }

  function RequestLineText(verb: Method, url: Bytes, major: nat, minor: nat): Bytes
    requires major <= 9 && minor <= 9
  {
    (Spelling(verb) + [' ']) + (url + VersionText(major, minor))
  }

  /** The parser after a request line of n bytes. */
  function AfterRequestLine(p: Parser, verb: Method, n: nat, major: nat, minor: nat): Parser {
    Fresh(p).(verb := verb, index := |Spelling(verb)| + 1, nread := p.nread + n, major := major, minor := minor,
              state := Header(FieldStart))
  }

  lemma LineLength(verb: Method, url: Bytes, major: nat, minor: nat)
    requires major <= 9 && minor <= 9
    ensures |RequestLineText(verb, url, major, minor)| == |Spelling(verb)| + |url| + 12
  {
    hide Spelling;
  }

  /** The URL and the version. */
  lemma UrlVersionRun(limit: nat, q: Parser, url: Bytes, major: nat, minor: nat)
    requires q.state == ReqSpacesBeforeUrl && GoodUrl(q.verb, url) && major <= 9 && minor <= 9
    requires q.nread + |url| + 11 <= limit
    ensures Run(limit, q, url + VersionText(major, minor)) ==
            Done(q.(nread := q.nread + |url| + 11, major := major, minor := minor, state := Header(FieldStart)),
                 SpanActs(Url, url))
  {
    hide Run, VersionText, U.StateAfter, U.Walk, Takes, UrlUnfinished;
    var s := U.StateAfter(q.verb == CONNECT, U.Walk(q.verb == CONNECT, url).value);
    UrlRun(limit, q, url);
    VersionRun(limit, InUrlAfter(q, |url|, s), s, major, minor);
    RunAppend(limit, q, url, VersionText(major, minor));
  }

  /** A request line is read as its method, its URL and its version, whatever came before it. */
  lemma RequestLineRun(limit: nat, p: Parser, verb: Method, url: Bytes, major: nat, minor: nat)
    requires p.state == StartReq && GoodUrl(verb, url) && major <= 9 && minor <= 9
    requires p.nread + |RequestLineText(verb, url, major, minor)| <= limit
    ensures Run(limit, p, RequestLineText(verb, url, major, minor)) ==
            Done(AfterRequestLine(p, verb, |RequestLineText(verb, url, major, minor)|, major, minor),
                 [Tell(MessageBegin)] + SpanActs(Url, url))
  {
    hide Run, Spelling, VersionText, SpanActs, GoodUrl;
    LineLength(verb, url, major, minor);
    var n := |Spelling(verb)| + 1;
    MethodRun(limit, p, verb);
    var q := Fresh(p).(verb := verb, index := n, state := ReqSpacesBeforeUrl, nread := p.nread + n);
    UrlVersionRun(limit, q, url, major, minor);
    RunAppend(limit, p, Spelling(verb) + [' '], url + VersionText(major, minor));
  }

  lemma ShortSteps(limit: nat, p: Parser, s: UrlPos)
    requires p.state == InUrl(s) && !UrlUnfinished(s) && p.nread + 1 <= limit
    ensures var q := p.(nread := p.nread + 1, major := 0, minor := 9);
            && Step(limit, p, CR) == Next(q.(state := RequestLine(ReqLineAlmostDone)), [Close(Url)])
            && Step(limit, p, LF) == Next(q.(state := Header(FieldStart)), [Close(Url)])
  {
    hide UrlChar, Micro, StepStart, StepStatusLine, StepRequestLine, StepHeader, StepChunk;
    StepOnce(limit, p, CR) by { ShortMicro(p, s); }
    StepOnce(limit, p, LF) by { ShortMicro(p, s); }
    ShortMicro(p, s);
  }

  lemma ShortMicro(p: Parser, s: UrlPos)
    requires p.state == InUrl(s) && !UrlUnfinished(s)
    ensures var q := Count(p).(major := 0, minor := 9);
            && Micro(Count(p), CR) == Next(q.(state := RequestLine(ReqLineAlmostDone)), [Close(Url)])
            && Micro(Count(p), LF) == Next(q.(state := Header(FieldStart)), [Close(Url)])
  {
    hide UrlChar, StepStart, StepStatusLine, StepRequestLine, StepHeader, StepChunk;
  }

  /** A URL at the end of its line makes a request of HTTP/0.9. */
  lemma ShortLine(limit: nat, p: Parser, s: UrlPos)
    requires p.state == InUrl(s) && !UrlUnfinished(s) && p.nread + 2 <= limit
    ensures Run(limit, p, [CR, LF]) ==
            Done(p.(nread := p.nread + 2, major := 0, minor := 9, state := Header(FieldStart)), [Close(Url)])
    ensures Run(limit, p, [LF]) ==
            Done(p.(nread := p.nread + 1, major := 0, minor := 9, state := Header(FieldStart)), [Close(Url)])
  {
    hide Run, Step;
    var q := p.(nread := p.nread + 1, major := 0, minor := 9, state := RequestLine(ReqLineAlmostDone));
    ShortSteps(limit, p, s);
    LastFeed(limit, q);
    RunTwo(limit, p, CR, LF);
    RunOne(limit, p, LF);
    assert [Close(Url)] + [] == [Close(Url)];
  }

  lemma LastFeed(limit: nat, p: Parser)
    requires p.state == RequestLine(ReqLineAlmostDone) && p.nread + 1 <= limit
    ensures Step(limit, p, LF) == Next(p.(nread := p.nread + 1, state := Header(FieldStart)), [])
  {
    LineByte(limit, p, ReqLineAlmostDone, LF);
    hide Step;
  }

  /** The line feed alone ends the line as well. */
  lemma BareLineEnd(limit: nat, p: Parser)
    requires p.state == RequestLine(ReqEnd) && p.nread + 1 <= limit
    ensures Run(limit, p, [LF]) == Done(p.(nread := p.nread + 1, state := Header(FieldStart)), [])
  {
    LineByte(limit, p, ReqEnd, LF);
    RunOne(limit, p, LF);
    hide Run, Step;
  }
}
