/** A whole header section: any header lines in any order, and what is settled at its end: how the body is
    delimited (section 3.3.3 of RFC 7230) and whether the connection lasts (section 6.3). */
module HttpHeads {
  import opened HttpSyntax
  import opened HttpMachine
  import opened HttpInvariant
  import opened HttpRun
  import opened HttpSpans
  import opened HttpNames
  import opened HttpFraming
  import opened HttpLists
  import opened HttpLines

  type Pair = (Bytes, Bytes)

  function LinesText(lines: seq<Pair>): Bytes
    decreases |lines|
  {
    if lines == [] then [] else LineText(lines[0].0, lines[0].1) + LinesText(lines[1..])
  }

  function LinesActs(lines: seq<Pair>): seq<Act>
    decreases |lines|
  {
    if lines == [] then [] else LineActs(lines[0].0, lines[0].1) + LinesActs(lines[1..])
  }

  // ---------------------------------------------------------------- what the lines say

  predicate LengthHeader(name: Bytes, value: Bytes) {
    && Tokens(name) && Lowered(name) == CONTENT_LENGTH
    && value != [] && Digits(value) && Decimal(0, value) <= MAX_LENGTH
  }

  predicate GoodLines(lines: seq<Pair>) {
    forall i :: 0 <= i < |lines| ==> TextHeader(lines[i].0, lines[i].1) || LengthHeader(lines[i].0, lines[i].1)
  }

  predicate AnyTe(lines: seq<Pair>) {
    exists i :: 0 <= i < |lines| && BeginsTe(Lowered(lines[i].0))
  }

  /** The words heard in all headers of the one kind. */
  function Said(l: List, lines: seq<Pair>): set<Bytes>
    decreases |lines|
  {
    if lines == [] then {} else LineSays(l, lines[0].0, lines[0].1) + Said(l, lines[1..])
  }

  predicate Upgrades(lines: seq<Pair>)
    decreases |lines|
  {
    lines != [] && (LineUpgrades(lines[0].0, lines[0].1) || Upgrades(lines[1..]))
  }

  /** The lengths that are given. */
  function Lengths(lines: seq<Pair>): seq<nat>
    decreases |lines|
  {
    if lines == [] then []
    else
      (if LengthHeader(lines[0].0, lines[0].1) then [Decimal(0, lines[0].1)] else []) + Lengths(lines[1..])
  }

  lemma {:induction false} LinesTextAppend(a: seq<Pair>, b: seq<Pair>)
    ensures LinesText(a + b) == LinesText(a) + LinesText(b)
    decreases |a|
  {
    hide LineText;
    if a == [] {
      assert a + b == b;
    } else {
      assert (a + b)[1..] == a[1..] + b;
      LinesTextAppend(a[1..], b);
    }
  }

  lemma {:induction false} SaidAppend(l: List, a: seq<Pair>, b: seq<Pair>)
    ensures Said(l, a + b) == Said(l, a) + Said(l, b)
    decreases |a|
  {
    hide LineSays;
    if a == [] {
      assert a + b == b;
    } else {
      assert (a + b)[0] == a[0] && (a + b)[1..] == a[1..] + b;
      SaidAppend(l, a[1..], b);
    }
  }

  lemma {:induction false} LengthsAppend(a: seq<Pair>, b: seq<Pair>)
    ensures (Upgrades(a + b) <==> Upgrades(a) || Upgrades(b)) && Lengths(a + b) == Lengths(a) + Lengths(b)
    decreases |a|
  {
    hide LineUpgrades, LengthHeader, Decimal;
    if a == [] {
      assert a + b == b;
    } else {
      assert (a + b)[0] == a[0] && (a + b)[1..] == a[1..] + b;
      LengthsAppend(a[1..], b);
    }
  }

  /** The lines of two lists say what the one and the other says. */
  lemma LinesAppend(a: seq<Pair>, b: seq<Pair>)
    ensures Said(Codings, a + b) == Said(Codings, a) + Said(Codings, b)
    ensures Said(Options, a + b) == Said(Options, a) + Said(Options, b)
    ensures (Upgrades(a + b) <==> Upgrades(a) || Upgrades(b)) && Lengths(a + b) == Lengths(a) + Lengths(b)
  {
    hide *;
    SaidAppend(Codings, a, b);
    SaidAppend(Options, a, b);
    LengthsAppend(a, b);
  }

  lemma AnyTeAppend(a: seq<Pair>, b: seq<Pair>)
    ensures AnyTe(a + b) <==> AnyTe(a) || AnyTe(b)
  {
    hide BeginsTe, Lowered;
    if AnyTe(a) {
      var i :| 0 <= i < |a| && BeginsTe(Lowered(a[i].0));
      assert (a + b)[i] == a[i];
    }
    if AnyTe(b) {
      var i :| 0 <= i < |b| && BeginsTe(Lowered(b[i].0));
      assert (a + b)[|a| + i] == b[i];
    }
  }

  predicate LineSaysWord(l: List, line: Pair, w: Bytes) { Tells(l, Lowered(line.0)) && w in Says(l, line.1) }

  /** A word is said if and only if one of the lines says it. */
  lemma {:induction false} SaidExactly(l: List, lines: seq<Pair>, w: Bytes)
    ensures w in Said(l, lines) <==> exists i :: 0 <= i < |lines| && LineSaysWord(l, lines[i], w)
    decreases |lines|
  {
    hide Says, Lowered, Tells;
    if lines != [] {
      SaidExactly(l, lines[1..], w);
      assert LineSaysWord(l, lines[0], w) <==> w in LineSays(l, lines[0].0, lines[0].1);
      hide LineSaysWord, LineSays;
      if i :| 0 <= i < |lines| && LineSaysWord(l, lines[i], w) {
        assert i > 0 ==> lines[1..][i - 1] == lines[i];
      }
      if i :| 0 <= i < |lines[1..]| && LineSaysWord(l, lines[1..][i], w) {
        assert lines[i + 1] == lines[1..][i];
      }
    }
  }

  // ---------------------------------------------------------------- the lines

  lemma LineFirst(name: Bytes, value: Bytes)
    requires name != [] && Tokens(name)
    ensures LineText(name, value) != [] && !IsBlank(LineText(name, value)[0])
  {
  }

  lemma LinesFirst(lines: seq<Pair>, rest: Bytes)
    requires GoodLines(lines) && rest != [] && !IsBlank(rest[0])
    ensures LinesText(lines) + rest != [] && !IsBlank((LinesText(lines) + rest)[0])
  {
    hide LineText, IsBlank, Tokens, ValueText, Lowered, CONTENT_LENGTH, Digits, Decimal;
    if lines != [] {
      LengthName();
      LineFirst(lines[0].0, lines[0].1);
    }
  }

  lemma AnyTeStep(lines: seq<Pair>)
    requires lines != []
    ensures AnyTe(lines) <==> BeginsTe(Lowered(lines[0].0)) || AnyTe(lines[1..])
  {
    hide BeginsTe;
    if AnyTe(lines) {
      var i :| 0 <= i < |lines| && BeginsTe(Lowered(lines[i].0));
      assert i > 0 ==> lines[1..][i - 1] == lines[i];
    }
    if AnyTe(lines[1..]) {
      var i :| 0 <= i < |lines[1..]| && BeginsTe(Lowered(lines[1..][i].0));
      assert lines[i + 1] == lines[1..][i];
    }
  }

  /** The flags with what the lines say. */
  function LinesNoted(f: Flags, lines: seq<Pair>): Flags {
    Noted(f, Said(Codings, lines), Said(Options, lines), Upgrades(lines))
    .(contentLength := f.contentLength || Lengths(lines) != [])
  }

  /** The parser before and after some lines. */
  predicate LinesRead(p: Parser, lines: seq<Pair>, q: Parser) {
    q == p.(nread := p.nread + |LinesText(lines)|, hs := q.hs, index := q.index, te := p.te || AnyTe(lines),
            flags := LinesNoted(p.flags, lines), length := if Lengths(lines) == [] then p.length else Lengths(lines)[0])
  }

  lemma NotedTwice(f: Flags, a: set<Bytes>, b: set<Bytes>, u: bool, c: set<Bytes>, d: set<Bytes>, v: bool)
    ensures Noted(Noted(f, a, b, u), c, d, v) == Noted(f, a + c, b + d, u || v)
  {
    hide CHUNKED, KEEP_ALIVE, CLOSE, UPGRADE;
  }

  lemma NotedNothing(f: Flags)
    ensures Noted(f, {}, {}, false) == f
  {
  }

  lemma TextLines(lines: seq<Pair>)
    requires lines != [] && TextHeader(lines[0].0, lines[0].1)
    ensures Lengths(lines) == Lengths(lines[1..])
  {
    hide ValueText, Tokens, Lowered, Digits, Decimal, CONTENT_LENGTH;
  }

  lemma LengthFirst(lines: seq<Pair>)
    requires lines != [] && LengthHeader(lines[0].0, lines[0].1)
    ensures Lengths(lines) == [Decimal(0, lines[0].1)] + Lengths(lines[1..])
    ensures Said(Codings, lines) == Said(Codings, lines[1..]) && Said(Options, lines) == Said(Options, lines[1..])
    ensures Upgrades(lines) == Upgrades(lines[1..]) && !BeginsTe(Lowered(lines[0].0))
  {
    LengthName();
    FirstLetters();
    hide Tokens, Lowered, Digits, Decimal, CONTENT_LENGTH, TRANSFER_ENCODING, UPGRADE, CONNECTION, PROXY_CONNECTION,
         Says;
  }

  lemma ReadNone(p: Parser)
    ensures LinesRead(p, [], p)
  {
    NotedNothing(p.flags);
  }

  lemma TextRead(p: Parser, lines: seq<Pair>, q1: Parser, q: Parser)
    requires lines != [] && TextHeader(lines[0].0, lines[0].1)
    requires LineRead(p, lines[0].0, lines[0].1, q1) && LinesRead(q1, lines[1..], q)
    ensures LinesRead(p, lines, q)
  {
    hide LineText, TextHeader, AnyTe, BeginsTe, Noted, LineSays, LineUpgrades, Lengths, Said, Upgrades, Lowered;
    var (name, value) := lines[0];
    var rest := lines[1..];
    TextLines(lines);
    AnyTeStep(lines);
    NotedTwice(p.flags, LineSays(Codings, name, value), LineSays(Options, name, value), LineUpgrades(name, value),
               Said(Codings, rest), Said(Options, rest), Upgrades(rest));
    SaidStep(lines);
    NotedLength(p.flags, LineSays(Codings, name, value), LineSays(Options, name, value), LineUpgrades(name, value));
  }

  lemma SaidStep(lines: seq<Pair>)
    requires lines != []
    ensures Said(Codings, lines) == LineSays(Codings, lines[0].0, lines[0].1) + Said(Codings, lines[1..])
    ensures Said(Options, lines) == LineSays(Options, lines[0].0, lines[0].1) + Said(Options, lines[1..])
    ensures Upgrades(lines) <==> LineUpgrades(lines[0].0, lines[0].1) || Upgrades(lines[1..])
  {
    hide LineSays, LineUpgrades;
  }

  lemma NotedLength(f: Flags, codings: set<Bytes>, options: set<Bytes>, up: bool)
    ensures Noted(f, codings, options, up).contentLength == f.contentLength
    ensures Noted(f, codings, options, up).trailing == f.trailing
  {
  }

  lemma LengthLinesRead(p: Parser, lines: seq<Pair>, q1: Parser, q: Parser)
    requires lines != [] && LengthHeader(lines[0].0, lines[0].1) && Lengths(lines[1..]) == []
    requires LengthRead(p, q1, Decimal(0, lines[0].1)) && q1.state == p.state
    requires q1.nread == p.nread + |LineText(lines[0].0, lines[0].1)| && LinesRead(q1, lines[1..], q)
    ensures LinesRead(p, lines, q)
  {
    hide LineText, LengthHeader, AnyTe, BeginsTe, LineSays, LineUpgrades, Lengths, Said, Upgrades, Lowered, Decimal,
         CHUNKED, KEEP_ALIVE, CLOSE, UPGRADE;
    LengthFirst(lines);
    AnyTeStep(lines);
  }

  /** Any list of header lines with at most one length: every line is reported, and the parser holds what they say. */
  lemma {:induction false} LinesRun(limit: nat, p: Parser, lines: seq<Pair>, rest: Bytes) returns (q: Parser)
    requires Inv(p) && p.state == Header(FieldStart) && GoodLines(lines)
    requires |Lengths(lines)| <= if p.flags.contentLength || p.flags.trailing then 0 else 1
    requires p.nread + |LinesText(lines)| <= limit && rest != [] && !IsBlank(rest[0])
    ensures Run(limit, p, LinesText(lines) + rest) ==
            Continue(LinesActs(lines), |LinesText(lines)|, Run(limit, q, rest))
    ensures LinesRead(p, lines, q) && Inv(q)
    decreases |lines|
  {
    hide Run, Inv, LineText, LineActs, BeginsTe, TextHeader, LengthHeader, Continue, IsBlank, LineRead, LinesRead,
         LengthRead, Lengths, Said, Upgrades, AnyTe;
    if lines == [] {
      q := p;
      ReadNone(p);
      ContinueNone(Run(limit, p, rest));
      assert LinesText(lines) + rest == rest;
    } else {
      var (name, value) := lines[0];
      var more := LinesText(lines[1..]) + rest;
      LinesFirst(lines[1..], rest);
      var q1 := OneLine(limit, p, lines, more);
      q := LinesRun(limit, q1, lines[1..], rest);
      if TextHeader(name, value) {
        TextRead(p, lines, q1, q);
      } else {
        LengthLinesRead(p, lines, q1, q);
      }
      assert LinesText(lines) + rest == LineText(name, value) + more;
      ContinueTwice(LineActs(name, value), |LineText(name, value)|, LinesActs(lines[1..]), |LinesText(lines[1..])|,
                    Run(limit, q, rest));
    }
  }

  /** The first of some lines. */
  lemma OneLine(limit: nat, p: Parser, lines: seq<Pair>, rest: Bytes) returns (q: Parser)
    requires Inv(p) && p.state == Header(FieldStart) && lines != [] && GoodLines(lines)
    requires |Lengths(lines)| <= if p.flags.contentLength || p.flags.trailing then 0 else 1
    requires p.nread + |LineText(lines[0].0, lines[0].1)| <= limit && rest != [] && !IsBlank(rest[0])
    ensures var (name, value) := lines[0];
            && Run(limit, p, LineText(name, value) + rest) ==
               Continue(LineActs(name, value), |LineText(name, value)|, Run(limit, q, rest))
            && Inv(q) && q.state == p.state && q.flags.trailing == p.flags.trailing
            && q.nread == p.nread + |LineText(name, value)|
            && |Lengths(lines[1..])| <= (if q.flags.contentLength || q.flags.trailing then 0 else 1)
            && if TextHeader(name, value) then LineRead(p, name, value, q)
               else
                 && LengthHeader(name, value) && Lengths(lines[1..]) == []
                 && LengthRead(p, q, Decimal(0, value))
  {
    hide Run, Inv, LineText, LineActs, BeginsTe, TextHeader, Continue, IsBlank, Lengths, Noted, LineSays, LineUpgrades,
         Lowered, Digits, Decimal, Tokens;
    var (name, value) := lines[0];
    if TextHeader(name, value) {
      q := TextLine(limit, p, name, value, rest);
      TextLines(lines);
      NotedLength(p.flags, LineSays(Codings, name, value), LineSays(Options, name, value), LineUpgrades(name, value));
    } else {
      LengthFirst(lines);
      q := LengthLine(limit, p, name, value, rest);
    }
  }

  // ---------------------------------------------------------------- the end of the section

  /** A start line has been read and no header yet.  A response answers no CONNECT that the parser knows of. */
  predicate Starts(p: Parser) {
    && Inv(p) && p.state == Header(FieldStart) && p.flags == NO_FLAGS && !p.te && p.length == NO_LENGTH
    && (p.kind.Response? ==> p.verb != CONNECT)
  }

  /** What is known at the end of the header section. */
  datatype HeadFacts = HeadFacts(
    request: bool, connect: bool, status: nat,
    te: bool, codings: set<Bytes>, options: set<Bytes>, up: bool, lengths: seq<nat>)

  function HeadOf(p: Parser, lines: seq<Pair>): HeadFacts {
    HeadFacts(p.kind.Request?, p.verb == CONNECT, p.status, AnyTe(lines), Said(Codings, lines), Said(Options, lines),
         Upgrades(lines), Lengths(lines))
  }

  /** Does the connection change over to another protocol? */
  predicate Switches(h: HeadFacts) {
    if h.up && UPGRADE in h.options then h.request || h.status == 101 else h.connect
  }

  datatype Delimited = Refused(errno: Errno) | Switched | InChunks | OfLength(n: nat) | Bodiless | UntilEof

  /** How the body ends.  An announced coding goes before a length, and the two together are refused; only where
      the last coding is "chunked" can a request have an end; responses of three kinds have no body. */
  function Delimits(h: HeadFacts): Delimited {
    if h.te && h.lengths != [] then Refused(UnexpectedContentLength)
    else if h.connect && Switches(h) then Switched
    else if CHUNKED in h.codings then InChunks
    else if h.lengths != [] && h.lengths[0] > 0 then OfLength(h.lengths[0])
    else if Switches(h) then Switched
    else if h.te then (if h.request then Refused(InvalidTransferEncoding) else UntilEof)
    else if h.lengths != [] then Bodiless
    else if h.request || 100 <= h.status < 200 || h.status == 204 || h.status == 304 then Bodiless
    else UntilEof
  }

  /** Does the connection last for another message?  By default it does from HTTP/1.1 on. */
  predicate Persists(major: nat, minor: nat, options: set<Bytes>) {
    if major > 0 && minor > 0 then CLOSE !in options else KEEP_ALIVE in options
  }

  /** The state after a message. */
  function Ready(p: Parser, options: set<Bytes>): State {
    if !Persists(p.major, p.minor, options) then Dead else if p.kind.Request? then StartReq else StartRes
  }

  /** The parser at the end of the lines, with no line end read yet. */
  predicate AtEnd(p: Parser, h: HeadFacts, options: set<Bytes>) {
    && Inv(p) && p.state == Header(FieldStart) && !p.flags.trailing
    && h.request == p.kind.Request? && h.connect == (p.verb == CONNECT) && h.status == p.status && h.te == p.te
    && (CHUNKED in h.codings <==> p.flags.chunked)
    && (KEEP_ALIVE in options <==> p.flags.keepAlive) && (CLOSE in options <==> p.flags.close)
    && (UPGRADE in h.options <==> p.flags.connUpgrade) && h.up == p.flags.upgrade
    && |h.lengths| <= 1 && p.flags.contentLength == (h.lengths != [])
    && p.length == (if h.lengths == [] then NO_LENGTH else h.lengths[0])
    && (p.kind.Response? ==> p.verb != CONNECT)
  }

  lemma LinesEnd(p: Parser, lines: seq<Pair>, q: Parser)
    requires Starts(p) && LinesRead(p, lines, q) && Inv(q) && |Lengths(lines)| <= 1
    ensures AtEnd(q, HeadOf(p, lines), Said(Options, lines))
  {
    hide CHUNKED, KEEP_ALIVE, CLOSE, UPGRADE, Said, Upgrades, Lengths, AnyTe, LinesText, Inv;
  }

  /** The parser after the head, but for its state. */
  function AfterHead(p: Parser, h: HeadFacts): Parser { p.(nread := 0, upgrade := Switches(h)) }

  function HeadState(p: Parser, h: HeadFacts, options: set<Bytes>): State {
    match Delimits(h)
    case InChunks => Chunk(SizeStart)
    case OfLength(_) => BodyIdentity
    case UntilEof => BodyIdentityEof
    case _ => Ready(p, options)
  }

  predicate EndsMessage(d: Delimited) { d.Switched? || d.Bodiless? }

  function EndActs(d: Delimited): seq<Act> {
    [Tell(HeadersComplete)] + if EndsMessage(d) then [Tell(MessageComplete)] else []
  }

  lemma DoneState(p: Parser, h: HeadFacts, options: set<Bytes>)
    requires AtEnd(p, h, options) && EndsMessage(Delimits(h))
    ensures !NeedsEof(p)
  {
    hide CHUNKED, KEEP_ALIVE, CLOSE, UPGRADE;
  }

  lemma ReadyIs(p: Parser, options: set<Bytes>)
    requires (KEEP_ALIVE in options <==> p.flags.keepAlive) && (CLOSE in options <==> p.flags.close) && !NeedsEof(p)
    ensures Complete(p) == p.(state := Ready(p, options))
  {
    hide KEEP_ALIVE, CLOSE, NeedsEof;
  }

  lemma ReadySame(p: Parser, q: Parser, options: set<Bytes>)
    requires q.kind == p.kind && q.major == p.major && q.minor == p.minor
    ensures Ready(p, options) == Ready(q, options)
  {
  }

  lemma HeadStateSame(p: Parser, q: Parser, h: HeadFacts, options: set<Bytes>)
    requires q.kind == p.kind && q.major == p.major && q.minor == p.minor
    ensures HeadState(p, h, options) == HeadState(q, h, options)
  {
    hide Delimits;
    ReadySame(p, q, options);
  }

  /** The switch at the very end of the head. */
  lemma HeadersDoneOut(p: Parser, h: HeadFacts, options: set<Bytes>)
    requires p.state == Header(HeadersDone) && AtEnd(p.(state := Header(FieldStart)), h, options)
    requires p.upgrade == Switches(h) && !(h.te && h.lengths != [])
    ensures var q := p.(nread := 0, state := HeadState(p, h, options));
            var d := Delimits(h);
            Loop(p, LF) == match d
                           case Refused(e) => Fail(e)
                           case Switched => Halt(q, [Tell(MessageComplete)])
                           case Bodiless => Next(q, [Tell(MessageComplete)])
                           case _ => Next(q, [])
  {
    hide Complete, Micro, Loop, StepFieldStart, StepField, StepDiscardWs, StepDiscardLws, StepValueStart, StepValue,
         StepValueLws, StepHeadersAlmostDone, CHUNKED, KEEP_ALIVE, CLOSE, UPGRADE, Ready;
    HeaderMicro(p, HeadersDone, LF);
    LoopOnce(p, LF);
    if EndsMessage(Delimits(h)) {
      DoneState(p.(state := Header(FieldStart)), h, options);
      ReadyIs(p.(nread := 0), options);
      ReadySame(p, p.(nread := 0), options);
    }
  }

  /** The second byte of the line end. */
  lemma AlmostDoneStep(limit: nat, p: Parser, h: HeadFacts, options: set<Bytes>)
    requires AtEnd(p, h, options) && p.nread + 2 <= limit
    ensures var at := p.(nread := p.nread + 1, state := Header(HeadersAlmostDone));
            var done := p.(nread := p.nread + 2, upgrade := Switches(h), state := Header(HeadersDone));
            Step(limit, at, LF) == if h.te && h.lengths != [] then Fail(UnexpectedContentLength)
                                   else Prepend([Tell(HeadersComplete)], Loop(done, LF))
  {
    hide Micro, Loop, StepFieldStart, StepField, StepDiscardWs, StepDiscardLws, StepValueStart, StepValue, StepValueLws,
         StepHeadersDone, Prepend, CHUNKED, KEEP_ALIVE, CLOSE, UPGRADE, Inv;
    var r := p.(nread := p.nread + 2, state := Header(HeadersAlmostDone));
    HeaderMicro(r, HeadersAlmostDone, LF);
    if h.te && h.lengths != [] {
      LoopOnce(r, LF);
    } else {
      LoopAgain(r, LF, p.(nread := p.nread + 2, upgrade := Switches(h), state := Header(HeadersDone)),
                [Tell(HeadersComplete)]);
    }
  }

  lemma CountEnd(p: Parser, h: HeadFacts, options: set<Bytes>, q: Parser)
    requires AtEnd(p, h, options) && q == p.(nread := q.nread, upgrade := q.upgrade)
    ensures AtEnd(q, h, options) && q.state == Header(FieldStart)
  {
    hide CHUNKED, KEEP_ALIVE, CLOSE, UPGRADE;
  }

  lemma EndLf(limit: nat, p: Parser, h: HeadFacts, options: set<Bytes>)
    requires AtEnd(p, h, options) && p.nread + 2 <= limit
    ensures var at := p.(nread := p.nread + 1, state := Header(HeadersAlmostDone));
            var q := AfterHead(p, h).(state := HeadState(p, h, options));
            Step(limit, at, LF) == match Delimits(h)
                                   case Refused(e) => Fail(e)
                                   case Switched => Halt(q, EndActs(Delimits(h)))
                                   case _ => Next(q, EndActs(Delimits(h)))
  {
    hide Step, Loop, AtEnd, Switches, Inv, HeadState;
    AlmostDoneStep(limit, p, h, options);
    var q := p.(nread := p.nread + 2, upgrade := Switches(h));
    CountEnd(p, h, options, q);
    if !(h.te && h.lengths != []) {
      HeadersDoneOut(q.(state := Header(HeadersDone)), h, options);
      HeadStateSame(p, q.(state := Header(HeadersDone)), h, options);
    }
  }

  /** The blank line at the end of the head. */
  lemma EndRun(limit: nat, p: Parser, h: HeadFacts, options: set<Bytes>)
    requires AtEnd(p, h, options) && p.nread + 2 <= limit
    ensures var q := AfterHead(p, h).(state := HeadState(p, h, options));
            Run(limit, p, [CR, LF]) == match Delimits(h)
                                       case Refused(e) => Failed(e)
                                       case Switched => Stopped(q, EndActs(Delimits(h)), 2)
                                       case _ => Done(q, EndActs(Delimits(h)))
  {
    hide Run, Step, AfterHead, HeadState, Delimits, EndActs;
    EndReturn(limit, p);
    EndLf(limit, p, h, options);
    var at := p.(nread := p.nread + 1, state := Header(HeadersAlmostDone));
    RunOne(limit, p, CR);
    RunOne(limit, at, LF);
    assert [CR, LF] == [CR] + [LF];
    RunAppend(limit, p, [CR], [LF]);
    var acts := EndActs(Delimits(h));
    assert [] + acts == acts;
  }

  /** Ended by the line feed alone it comes to the same. */
  lemma BareEnd(limit: nat, p: Parser)
    requires p.state == Header(FieldStart) && p.nread + 2 <= limit
    ensures Step(limit, p, LF) ==
            Loop(p.(nread := p.nread + 1, state := Header(HeadersAlmostDone)), LF)
    ensures Step(limit, p.(nread := p.nread + 1, state := Header(HeadersAlmostDone)), LF) ==
            Loop(p.(nread := p.nread + 2, state := Header(HeadersAlmostDone)), LF)
  {
    hide StepField, StepDiscardWs, StepDiscardLws, StepValueStart, StepValue, StepValueLws, StepHeadersAlmostDone,
         StepHeadersDone, Loop, Micro;
    var r := p.(nread := p.nread + 1);
    HeaderMicro(r, FieldStart, LF);
    var at := r.(state := Header(HeadersAlmostDone));
    LoopAgain(r, LF, at, []);
    NothingFirst(Loop(at, LF));
  }

  lemma NothingFirst(out: Out)
    ensures Prepend([], out) == out
  {
    if out.Next? || out.Again? || out.Halt? {
      assert [] + out.acts == out.acts;
    }
  }

  /** The whole header section.  How the body is delimited, whether the protocol is switched and whether the
      connection lasts is settled by the start line and by what the headers say, as set out above. */
  lemma HeadRun(limit: nat, p: Parser, lines: seq<Pair>) returns (q: Parser)
    requires Starts(p) && GoodLines(lines) && |Lengths(lines)| <= 1 && p.nread + |LinesText(lines)| + 2 <= limit
    ensures var h, text := HeadOf(p, lines), LinesText(lines) + [CR, LF];
            && Run(limit, p, text) == (match Delimits(h)
                                       case Refused(e) => Failed(e)
                                       case Switched => Stopped(q, LinesActs(lines) + EndActs(Delimits(h)), |text|)
                                       case _ => Done(q, LinesActs(lines) + EndActs(Delimits(h))))
            && q.state == HeadState(p, h, h.options) && q.upgrade == Switches(h) && q.nread == 0
            && q == p.(nread := 0, state := q.state, hs := q.hs, index := q.index, te := h.te, upgrade := q.upgrade,
                       flags := LinesNoted(NO_FLAGS, lines), length := if h.lengths == [] then NO_LENGTH
                                                                       else h.lengths[0])
  {
    hide Run, Inv, LinesText, LinesActs, LinesNoted, HeadState, Delimits, EndActs, Switches, AtEnd, AnyTe,
         Said, Upgrades, Lengths;
    var h := HeadOf(p, lines);
    assert !IsBlank([CR, LF][0]);
    var p1 := LinesRun(limit, p, lines, [CR, LF]);
    LinesEnd(p, lines, p1);
    EndRun(limit, p1, h, h.options);
    q := AfterHead(p1, h).(state := HeadState(p1, h, h.options));
    HeadStateSame(p, p1, h, h.options);
  }
}
