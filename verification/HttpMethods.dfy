/** Recognising the method of a request: the parser tries one method and changes its mind at the byte that
    tells two of them apart. */
module HttpMethods {
  import opened HttpSyntax
  import opened HttpMachine
  import opened HttpInvariant
  import opened HttpRun

  /** How a method has to be written to be recognised.  M-SEARCH has blanks in the method table, but its second
      byte is a hyphen all the same, since only that leads from MKCOL to it. */
  function Spelling(m: Method): Bytes { if m == MSEARCH then "M-- SEARCH" else MethodName(m) }

  /** The method under trial after the first i bytes of m's spelling. */
  function Trial(m: Method, i: nat): Method {
    match m
    case MSEARCH => if i < 2 then MKCOL else MSEARCH
    case PUT => if i < 2 then POST else PUT
    case PATCH => if i < 2 then POST else PATCH
    case PROPFIND => if i < 2 then POST else PROPFIND
    case PROPPATCH => if i < 2 then POST else if i < 5 then PROPFIND else PROPPATCH
    case PURGE => if i < 2 then POST else if i < 3 then PUT else PURGE
    case CHECKOUT => if i < 2 then CONNECT else CHECKOUT
    case COPY => if i < 3 then CONNECT else COPY
    case MOVE => if i < 2 then MKCOL else MOVE
    case MERGE => if i < 2 then MKCOL else MERGE
    case MKACTIVITY => if i < 3 then MKCOL else MKACTIVITY
    case MKCALENDAR => if i < 4 then MKCOL else MKCALENDAR
    case SEARCH => if i < 2 then SUBSCRIBE else SEARCH
    case SOURCE => if i < 2 then SUBSCRIBE else SOURCE
    case REBIND => if i < 3 then REPORT else REBIND
    case LINK => if i < 2 then LOCK else LINK
    case UNSUBSCRIBE => if i < 3 then UNLOCK else UNSUBSCRIBE
    case UNBIND => if i < 3 then UNLOCK else UNBIND
    case UNLINK => if i < 4 then UNLOCK else UNLINK
    case _ => m
  }

  /** One more byte of the name agrees with the method under trial, or leads to the next one. */
  predicate Tells(m: Method, i: nat, ch: Byte) {
    if ch == At(MethodName(Trial(m, i)), i) then Trial(m, i + 1) == Trial(m, i)
    else OtherMethod(Trial(m, i), i, ch) == (true, Trial(m, i + 1))
  }

  lemma TrialStep(m: Method, i: nat)
    requires 1 <= i < |Spelling(m)|
    ensures Tells(m, i, Spelling(m)[i])
  {
    if m == MSEARCH {
      SearchStep(i);
    } else if Trial(m, i) == m {
      hide MethodName;
    } else {
      SwitchStep(m, i);
    }
  }

  lemma SearchStep(i: nat)
    requires 1 <= i < |Spelling(MSEARCH)|
    ensures Tells(MSEARCH, i, Spelling(MSEARCH)[i])
  {
    assert MethodName(MKCOL)[1] == 'K';
    assert i >= 2 ==> Spelling(MSEARCH)[i] == MethodName(MSEARCH)[i];
  }

  predicate WithP(m: Method) { m.PUT? || m.PATCH? || m.PROPFIND? || m.PROPPATCH? || m.PURGE? || m.CHECKOUT? || m.COPY? }

  lemma SwitchStepP(m: Method, i: nat)
    requires WithP(m) && 1 <= i < |MethodName(m)| && Trial(m, i) != m
    ensures Tells(m, i, MethodName(m)[i])
  {
    match m {
      case PUT => case PATCH => case PROPFIND => case PROPPATCH => case PURGE => case CHECKOUT => case COPY =>
    }
  }

  lemma SwitchStep(m: Method, i: nat)
    requires m != MSEARCH && 1 <= i < |MethodName(m)| && Trial(m, i) != m
    ensures Tells(m, i, MethodName(m)[i])
  {
    if WithP(m) {
      SwitchStepP(m, i);
    } else {
      match m {
        case MOVE => case MERGE => case MKACTIVITY => case MKCALENDAR => case SEARCH => case SOURCE =>
        case REBIND => case LINK => case UNSUBSCRIBE => case UNBIND => case UNLINK =>
      }
    }
  }

  predicate Upper(name: Bytes) { forall i :: 0 <= i < |name| ==> IsUpper(name[i]) }

  predicate Common(m: Method) {
    || m.DELETE? || m.GET? || m.HEAD? || m.POST? || m.PUT? || m.CONNECT? || m.OPTIONS? || m.TRACE? || m.COPY?
    || m.LOCK? || m.MKCOL? || m.MOVE? || m.PROPFIND? || m.PROPPATCH? || m.SEARCH? || m.UNLOCK? || m.BIND?
  }

  lemma CommonUpper(m: Method)
    requires Common(m)
    ensures Upper(MethodName(m)) && 3 <= |MethodName(m)| <= 11
  {
    match m {
      case DELETE => case GET => case HEAD => case POST => case PUT => case CONNECT => case OPTIONS =>
      case TRACE => case COPY => case LOCK => case MKCOL => case MOVE => case PROPFIND => case PROPPATCH =>
      case SEARCH => case UNLOCK => case BIND =>
    }
  }

  lemma NameUpper(m: Method)
    requires m != MSEARCH
    ensures Upper(MethodName(m)) && 3 <= |MethodName(m)| <= 11
  {
    if Common(m) {
      CommonUpper(m);
    } else {
      match m {
        case REBIND => case UNBIND => case ACL => case REPORT => case MKACTIVITY => case CHECKOUT => case MERGE =>
        case NOTIFY => case SUBSCRIBE => case UNSUBSCRIBE => case PATCH => case PURGE => case MKCALENDAR =>
        case LINK => case UNLINK => case SOURCE =>
      }
    }
  }

  lemma SpellingShape(m: Method)
    ensures 3 <= |Spelling(m)| <= 11 && |Spelling(m)| == |MethodName(m)|
    ensures forall i :: 0 <= i < |Spelling(m)| ==> Spelling(m)[i] != '\0'
    ensures IsUpper(Spelling(m)[0])
  {
    if m != MSEARCH {
      NameUpper(m);
      hide MethodName;
    }
  }

  lemma TrialEnds(m: Method)
    ensures Trial(m, |Spelling(m)|) == m
    ensures FirstMethod(Spelling(m)[0]) == (true, Trial(m, 1))
  {
    match m {
      case DELETE => case GET => case HEAD => case POST => case PUT => case CONNECT => case OPTIONS =>
      case TRACE => case COPY => case LOCK => case MKCOL => case MOVE => case PROPFIND => case PROPPATCH =>
      case SEARCH => case UNLOCK => case BIND => case REBIND => case UNBIND => case ACL => case REPORT =>
      case MKACTIVITY => case CHECKOUT => case MERGE => case NOTIFY => case SUBSCRIBE => case UNSUBSCRIBE =>
      case PATCH => case PURGE => case MKCALENDAR => case LINK => case UNLINK => case SOURCE => case MSEARCH =>
    }
  }

  lemma KnownByte(v: Method, i: nat, ch: Byte)
    ensures OtherMethod(v, i, ch).0 ==> (IsUpper(ch) || ch == '-') && i > 0
  {
  }

  /** The parser after the first i bytes of m's name. */
  function Tried(p: Parser, m: Method, i: nat): Parser {
    Fresh(p).(verb := Trial(m, i), index := i, state := ReqMethod, nread := p.nread + i)
  }

  lemma FirstStep(limit: nat, p: Parser, m: Method, ch: Byte)
    requires p.state == StartReq && p.nread + 1 <= limit && IsUpper(ch) && FirstMethod(ch) == (true, Trial(m, 1))
    ensures Step(limit, p, ch) == Next(Tried(p, m, 1), [Tell(MessageBegin)])
  {
    hide Trial, FirstMethod, Step, StepStatusLine, StepMethod, StepBeforeUrl, StepUrl, StepRequestLine, StepHeader,
         StepChunk, StepBodyIdentity, StepMessageDone;
    StepOnce(limit, p, ch);
  }

  lemma TryByte(limit: nat, p: Parser, ch: Byte)
    requires p.state == ReqMethod
    ensures Step(limit, p, ch) ==
            if p.nread + 1 > limit then Fail(HeaderOverflow) else StepMethod(p.(nread := p.nread + 1), ch)
  {
    hide Step, StepStart, StepStatusLine, StepMethod, StepBeforeUrl, StepUrl, StepRequestLine, StepHeader, StepChunk,
         StepBodyIdentity, StepMessageDone;
    StepMethodOnce(p.(nread := p.nread + 1), ch);
    if p.nread + 1 <= limit {
      StepOnce(limit, p, ch);
    } else {
      Overflows(limit, p, ch);
    }
  }

  lemma StepMethodOnce(p: Parser, ch: Byte)
    ensures !StepMethod(p, ch).Again?
  {
    hide MethodName, OtherMethod;
  }

  lemma NextStep(limit: nat, p: Parser, m: Method, i: nat)
    requires 1 <= i < |Spelling(m)| && p.nread + i + 1 <= limit
    ensures Step(limit, Tried(p, m, i), Spelling(m)[i]) == Next(Tried(p, m, i + 1), [])
  {
    SpellingShape(m);
    TrialStep(m, i);
    var ch := Spelling(m)[i];
    KnownByte(Trial(m, i), i, ch);
    TryByte(limit, Tried(p, m, i), ch);
    hide Spelling, MethodName, Trial, OtherMethod, Step;
    assert ch != '\0' && Bump(i) == i + 1;
  }

  lemma {:induction false} NameFrom(limit: nat, p: Parser, m: Method, i: nat)
    requires 1 <= i <= |Spelling(m)| && p.nread + |Spelling(m)| <= limit
    ensures Run(limit, Tried(p, m, i), Spelling(m)[i..]) == Done(Tried(p, m, |Spelling(m)|), [])
    decreases |Spelling(m)| - i
  {
    hide Step, Spelling, Tried;
    if i < |Spelling(m)| {
      NextStep(limit, p, m, i);
      NameFrom(limit, p, m, i + 1);
      assert Spelling(m)[i..][1..] == Spelling(m)[i + 1..];
    }
  }

  lemma BlankStep(limit: nat, p: Parser, m: Method)
    requires p.nread + |Spelling(m)| + 1 <= limit
    ensures Step(limit, Tried(p, m, |Spelling(m)|), ' ') ==
            Next(Fresh(p).(verb := m, index := |Spelling(m)| + 1, state := ReqSpacesBeforeUrl,
                           nread := p.nread + |Spelling(m)| + 1), [])
  {
    SpellingShape(m);
    TrialEnds(m);
    hide MethodName, Spelling, Trial;
  }

  /** A method in its spelling, up to the blank. */
  lemma SpellingRun(limit: nat, p: Parser, m: Method)
    requires p.state == StartReq && p.nread + |Spelling(m)| + 1 <= limit
    ensures var n := |Spelling(m)|;
            && Run(limit, p, Spelling(m)) == Done(Tried(p, m, n), [Tell(MessageBegin)])
            && Run(limit, Tried(p, m, n), [' ']) ==
               Done(Fresh(p).(verb := m, index := n + 1, state := ReqSpacesBeforeUrl, nread := p.nread + n + 1), [])
  {
    hide Run, Step, Tried, Trial, FirstMethod, Spelling;
    var name := Spelling(m);
    SpellingShape(m);
    TrialEnds(m);
    FirstStep(limit, p, m, name[0]);
    NameFrom(limit, p, m, 1);
    BlankStep(limit, p, m);
    assert name == [name[0]] + name[1..];
    RunOne(limit, p, name[0]);
    RunAppend(limit, p, [name[0]], name[1..]);
    RunOne(limit, Tried(p, m, |name|), ' ');
    assert [Tell(MessageBegin)] + [] == [Tell(MessageBegin)];
  }

  /** Every method is recognised from its spelling, which is its printed name except for M-SEARCH. */
  lemma MethodRun(limit: nat, p: Parser, m: Method)
    requires p.state == StartReq && p.nread + |Spelling(m)| + 1 <= limit
    ensures Run(limit, p, Spelling(m) + [' ']) ==
            Done(Fresh(p).(verb := m, index := |Spelling(m)| + 1, state := ReqSpacesBeforeUrl,
                           nread := p.nread + |Spelling(m)| + 1), [Tell(MessageBegin)])
    ensures m != MSEARCH ==> Spelling(m) == MethodName(m)
  {
    assert m != MSEARCH ==> Spelling(m) == MethodName(m);
    hide Run, Step, Tried, Spelling, MethodName;
    SpellingRun(limit, p, m);
    RunAppend(limit, p, Spelling(m), [' ']);
    assert [Tell(MessageBegin)] + [] == [Tell(MessageBegin)];
  }

  // ---------------------------------------------------------------- nothing else is recognised

  /** The text is taken for the name of method m: the parser has begun a message and nothing else, is still at
      the method, and a blank ends it. */
  predicate Recognised(limit: nat, p: Parser, text: Bytes, m: Method) {
    var a := Run(limit, p, text);
    && a.Done? && a.acts == [Tell(MessageBegin)] && a.p.state == ReqMethod && Ends(limit, a.p, m)
  }

  predicate Ends(limit: nat, p: Parser, m: Method) {
    var b := Run(limit, p, [' ']);
    b.Done? && b.p.state == ReqSpacesBeforeUrl && b.p.verb == m
  }

  /** Line ends before a request are passed over. */
  function AfterLineEnds(text: Bytes): Bytes
    decreases |text|
  {
    if text != [] && IsLineEnd(text[0]) then AfterLineEnds(text[1..]) else text
  }

  /** The parser is trying method v and has seen the first `index` bytes of its spelling. */
  predicate Tries(p: Parser, seen: Bytes) {
    && p.state == ReqMethod && 1 <= p.index <= |Spelling(p.verb)| && seen == Spelling(p.verb)[..p.index]
    && (p.verb == MSEARCH ==> p.index >= 2)
  }

  lemma FirstSeen(ch: Byte)
    ensures FirstMethod(ch).0 ==>
              var v := FirstMethod(ch).1; v != MSEARCH && MethodName(v) != [] && MethodName(v)[0] == ch
  {
  }

  /** Method w goes on with byte ch where method v goes on otherwise. */
  predicate Branches(v: Method, w: Method, i: nat, ch: Byte) {
    0 < i < |Spelling(w)| && i <= |Spelling(v)| && Spelling(w)[i] == ch && Spelling(w)[..i] == Spelling(v)[..i]
  }

  lemma PostBranches(i: nat, ch: Byte)
    ensures OtherMethod(POST, i, ch).0 ==> Branches(POST, OtherMethod(POST, i, ch).1, i, ch)
  {
  }

  lemma PutBranches(i: nat, ch: Byte)
    ensures OtherMethod(PUT, i, ch).0 ==> Branches(PUT, OtherMethod(PUT, i, ch).1, i, ch)
  {
  }

  lemma PropfindBranches(i: nat, ch: Byte)
    ensures OtherMethod(PROPFIND, i, ch).0 ==> Branches(PROPFIND, OtherMethod(PROPFIND, i, ch).1, i, ch)
  {
  }

  lemma ConnectBranches(i: nat, ch: Byte)
    ensures OtherMethod(CONNECT, i, ch).0 ==> Branches(CONNECT, OtherMethod(CONNECT, i, ch).1, i, ch)
  {
  }

  lemma ReportBranches(i: nat, ch: Byte)
    ensures OtherMethod(REPORT, i, ch).0 ==> Branches(REPORT, OtherMethod(REPORT, i, ch).1, i, ch)
  {
  }

  lemma SubscribeBranches(i: nat, ch: Byte)
    ensures OtherMethod(SUBSCRIBE, i, ch).0 ==> Branches(SUBSCRIBE, OtherMethod(SUBSCRIBE, i, ch).1, i, ch)
  {
  }

  lemma MkcolBranches(i: nat, ch: Byte)
    ensures OtherMethod(MKCOL, i, ch).0 ==> Branches(MKCOL, OtherMethod(MKCOL, i, ch).1, i, ch)
  {
  }

  lemma LockBranches(i: nat, ch: Byte)
    ensures OtherMethod(LOCK, i, ch).0 ==> Branches(LOCK, OtherMethod(LOCK, i, ch).1, i, ch)
  {
  }

  lemma UnlockBranches(i: nat, ch: Byte)
    ensures OtherMethod(UNLOCK, i, ch).0 ==> Branches(UNLOCK, OtherMethod(UNLOCK, i, ch).1, i, ch)
  {
  }

  lemma OthersStay(v: Method, i: nat, ch: Byte)
    requires OtherMethod(v, i, ch).0
    ensures v.POST? || v.PUT? || v.PROPFIND? || v.CONNECT? || v.REPORT? || v.SUBSCRIBE? || v.MKCOL? || v.LOCK?
            || v.UNLOCK?
  {
  }

  /** Two methods are told apart where they first differ. */
  lemma SwitchSeen(v: Method, i: nat, ch: Byte)
    requires OtherMethod(v, i, ch).0
    ensures Branches(v, OtherMethod(v, i, ch).1, i, ch)
  {
    hide *;
    OthersStay(v, i, ch);
    PostBranches(i, ch);
    PutBranches(i, ch);
    PropfindBranches(i, ch);
    ConnectBranches(i, ch);
    ReportBranches(i, ch);
    SubscribeBranches(i, ch);
    MkcolBranches(i, ch);
    LockBranches(i, ch);
    UnlockBranches(i, ch);
  }

  lemma SpellingIs(v: Method)
    ensures |Spelling(v)| == |MethodName(v)|
    ensures forall i :: 2 <= i < |MethodName(v)| ==> Spelling(v)[i] == MethodName(v)[i]
    ensures v != MSEARCH ==> Spelling(v) == MethodName(v)
  {
    if v == MSEARCH {
      assert MethodName(v) == ['M', ' ', '-', ' ', 'S', 'E', 'A', 'R', 'C', 'H'];
      assert Spelling(v) == ['M', '-', '-', ' ', 'S', 'E', 'A', 'R', 'C', 'H'];
    } else {
      hide MethodName;
    }
  }

  lemma SwitchStays(p: Parser, seen: Bytes, ch: Byte, q: Parser)
    requires Tries(p, seen) && OtherMethod(p.verb, p.index, ch).0
    requires q.state == ReqMethod && q.verb == OtherMethod(p.verb, p.index, ch).1 && q.index == p.index + 1
    ensures Tries(q, seen + [ch])
  {
    hide MethodName, OtherMethod, Spelling;
    var i, w := p.index, q.verb;
    SwitchSeen(p.verb, i, ch);
    assert Spelling(w)[..i + 1] == Spelling(w)[..i] + [ch];
  }

  lemma SameStays(p: Parser, seen: Bytes, ch: Byte, q: Parser)
    requires Tries(p, seen) && p.index < |MethodName(p.verb)| && ch == MethodName(p.verb)[p.index]
    requires q.state == ReqMethod && q.verb == p.verb && q.index == p.index + 1
    ensures Tries(q, seen + [ch])
  {
    hide MethodName, Spelling;
    var i, v := p.index, p.verb;
    SpellingIs(v);
    assert Spelling(v)[..i + 1] == Spelling(v)[..i] + [Spelling(v)[i]];
  }

  /** What a byte does while a method is tried. */
  lemma MethodByte(limit: nat, p: Parser, ch: Byte)
    requires p.state == ReqMethod && p.index <= 11 && Step(limit, p, ch).Next?
    ensures p.nread < limit && Step(limit, p, ch).acts == []
    ensures var q, r := Step(limit, p, ch).p, p.(nread := p.nread + 1, index := p.index + 1);
            || (ch == ' ' && At(MethodName(p.verb), p.index) == '\0' && q == r.(state := ReqSpacesBeforeUrl))
            || (ch == At(MethodName(p.verb), p.index) && ch != '\0' && q == r)
            || (OtherMethod(p.verb, p.index, ch).0 && q == r.(verb := OtherMethod(p.verb, p.index, ch).1))
  {
    hide MethodName, OtherMethod, Step;
    TryByte(limit, p, ch);
    assert Bump(p.index) == p.index + 1;
  }

  lemma PastEnd(name: Bytes, i: nat)
    requires forall j :: 0 <= j < |name| ==> name[j] != '\0'
    ensures At(name, i) == '\0' <==> i >= |name|
    ensures i < |name| ==> At(name, i) == name[i]
  {
  }

  lemma NoNul(v: Method)
    ensures forall j :: 0 <= j < |MethodName(v)| ==> MethodName(v)[j] != '\0'
  {
    if v == MSEARCH {
      assert MethodName(v) == ['M', ' ', '-', ' ', 'S', 'E', 'A', 'R', 'C', 'H'];
    } else {
      NameUpper(v);
      hide MethodName;
    }
  }

  /** One byte more. */
  lemma TriesStep(limit: nat, p: Parser, seen: Bytes, ch: Byte)
    requires Tries(p, seen) && Step(limit, p, ch).Next?
    ensures var q := Step(limit, p, ch).p;
            && Step(limit, p, ch).acts == [] && q.nread == p.nread + 1 <= limit
            && (Tries(q, seen + [ch])
                || (ch == ' ' && q.state == ReqSpacesBeforeUrl && q.verb == p.verb && seen == Spelling(p.verb)))
  {
    hide *;
    TriesIs(p, seen);
    SpellingIs(p.verb);
    NoNul(p.verb);
    PastEnd(MethodName(p.verb), p.index);
    MethodByte(limit, p, ch);
    var q := Step(limit, p, ch).p;
    if OtherMethod(p.verb, p.index, ch).0 && q.verb == OtherMethod(p.verb, p.index, ch).1 && q.state == ReqMethod {
      SwitchStays(p, seen, ch, q);
    } else if q.state == ReqMethod {
      SameStays(p, seen, ch, q);
    }
  }

  lemma TriesIs(p: Parser, seen: Bytes)
    requires Tries(p, seen)
    ensures p.state == ReqMethod && 1 <= p.index <= |Spelling(p.verb)| <= 11
    ensures p.index == |Spelling(p.verb)| ==> seen == Spelling(p.verb)
  {
    SpellingShape(p.verb);
    hide Spelling;
  }

  /** While blanks come before the URL nothing is reported, and nothing but blanks can come unreported. */
  lemma {:induction false} BlanksStay(limit: nat, p: Parser, text: Bytes)
    requires p.state == ReqSpacesBeforeUrl
    ensures Run(limit, p, text).Done? && Run(limit, p, text).acts == [] ==>
              Run(limit, p, text).p.state == ReqSpacesBeforeUrl
    decreases |text|
  {
    hide Step;
    if text != [] {
      UrlReported(limit, p, text[0]);
      if Step(limit, p, text[0]).Next? && Step(limit, p, text[0]).acts == [] {
        BlanksStay(limit, Step(limit, p, text[0]).p, text[1..]);
      }
    }
  }

  lemma UrlReported(limit: nat, p: Parser, ch: Byte)
    requires p.state == ReqSpacesBeforeUrl
    ensures var out := Step(limit, p, ch);
            out.Fail? || (out.Next? && (out.acts != [] || out.p.state == ReqSpacesBeforeUrl))
  {
    hide UrlChar, MethodName, OtherMethod;
  }

  /** From a method under trial on, what is recognised completes its spelling. */
  lemma {:induction false} TriesRun(limit: nat, p: Parser, seen: Bytes, text: Bytes, m: Method)
    requires Tries(p, seen)
    requires var a := Run(limit, p, text); a.Done? && a.acts == [] && a.p.state == ReqMethod && Ends(limit, a.p, m)
    ensures seen + text == Spelling(m) && p.nread + |text| + 1 <= limit
    decreases |text|
  {
    hide Step, Tries, Spelling, Ends;
    if text == [] {
      TriesEnd(limit, p, seen, m);
      assert seen + [] == seen;
    } else {
      var ch, rest := text[0], text[1..];
      TriesStep(limit, p, seen, ch);
      var q := Step(limit, p, ch).p;
      if q.state == ReqSpacesBeforeUrl {
        BlanksStay(limit, q, rest);
      }
      TriesRun(limit, q, seen + [ch], rest, m);
      assert seen + [ch] + rest == seen + text;
    }
  }

  lemma TriesEnd(limit: nat, p: Parser, seen: Bytes, m: Method)
    requires Tries(p, seen) && Ends(limit, p, m)
    ensures seen == Spelling(m) && p.nread + 1 <= limit
  {
    RunOne(limit, p, ' ');
    hide Step, Spelling, Run;
    TriesStep(limit, p, seen, ' ');
  }

  lemma StartByte(limit: nat, p: Parser, ch: Byte)
    requires p.state == StartReq
    ensures var out := Step(limit, p, ch);
            || out.Fail?
            || (out == Next(p.(nread := p.nread + 1), []) && IsLineEnd(ch) && p.nread < limit)
            || (out.Next? && !IsLineEnd(ch) && out.acts == [Tell(MessageBegin)] && Tries(out.p, [ch])
                && out.p.nread == p.nread + 1)
  {
    FirstSeen(ch);
    var v := FirstMethod(ch).1;
    hide MethodName, OtherMethod;
    if FirstMethod(ch).0 {
      assert Spelling(v)[..1] == [ch];
    }
  }

  /** What is recognised is the spelling of the method, after line ends. */
  lemma {:induction false} OnlySpelling(limit: nat, p: Parser, text: Bytes, m: Method)
    requires p.state == StartReq && Recognised(limit, p, text, m)
    ensures AfterLineEnds(text) == Spelling(m) && p.nread + |text| + 1 <= limit
    decreases |text|
  {
    hide Step, Tries, Spelling, Ends;
    assert text != [];
    var ch, rest := text[0], text[1..];
    StartByte(limit, p, ch);
    var out := Step(limit, p, ch);
    if IsLineEnd(ch) {
      assert [] + Run(limit, out.p, rest).acts == Run(limit, out.p, rest).acts;
      OnlySpelling(limit, out.p, rest, m);
    } else {
      assert ([Tell(MessageBegin)] + Run(limit, out.p, rest).acts)[1..] == Run(limit, out.p, rest).acts;
      TriesRun(limit, out.p, [ch], rest, m);
      assert [ch] + rest == text;
    }
  }

  lemma LineEndByte(limit: nat, p: Parser, ch: Byte)
    requires p.state == StartReq && IsLineEnd(ch) && p.nread < limit
    ensures Step(limit, p, ch) == Next(p.(nread := p.nread + 1), [])
  {
    hide FirstMethod, MethodName, OtherMethod;
  }

  lemma {:induction false} SpellingRecognised(limit: nat, p: Parser, text: Bytes, m: Method)
    requires p.state == StartReq && AfterLineEnds(text) == Spelling(m) && p.nread + |text| + 1 <= limit
    ensures Recognised(limit, p, text, m)
    decreases |text|
  {
    hide Step, Spelling, Tried;
    if text != [] && IsLineEnd(text[0]) {
      var q := p.(nread := p.nread + 1);
      LineEndByte(limit, p, text[0]);
      SpellingRecognised(limit, q, text[1..], m);
      assert [] + Run(limit, q, text[1..]).acts == Run(limit, q, text[1..]).acts;
    } else {
      SpellingRun(limit, p, m);
      TriedState(p, m, |Spelling(m)|);
    }
  }

  lemma TriedState(p: Parser, m: Method, i: nat)
    ensures Tried(p, m, i).state == ReqMethod
  {
  }

  /** Which texts are recognised as which method: its name, but for M-SEARCH, which has to be written
      "M-- SEARCH"; line ends may come first. */
  lemma MethodExactly(limit: nat, p: Parser, text: Bytes, m: Method)
    requires p.state == StartReq
    ensures Recognised(limit, p, text, m) <==> AfterLineEnds(text) == Spelling(m) && p.nread + |text| + 1 <= limit
  {
    hide *;
    if Recognised(limit, p, text, m) {
      OnlySpelling(limit, p, text, m);
    } else if AfterLineEnds(text) == Spelling(m) && p.nread + |text| + 1 <= limit {
      SpellingRecognised(limit, p, text, m);
    }
  }

  /** For M-SEARCH it is neither what is printed nor its name. */
  lemma MSearchSpelling(limit: nat, p: Parser, text: Bytes)
    requires p.state == StartReq && p.nread + |text| + 1 <= limit && (text == [] || !IsLineEnd(text[0]))
    ensures Recognised(limit, p, text, MSEARCH) <==> text == "M-- SEARCH"
    ensures text == MethodName(MSEARCH) || text == "M-SEARCH" ==> !Recognised(limit, p, text, MSEARCH)
  {
    var printed, odd: Bytes := MethodName(MSEARCH), "M-- SEARCH";
    assert printed[1] != odd[1];
    hide Recognised;
    MethodExactly(limit, p, text, MSEARCH);
  }

  /** The method table spells M-SEARCH with blanks: what is printed for it is refused at its second byte, and the
      name itself at its third. */
  lemma MSearchFails(limit: nat, p: Parser, rest: Bytes)
    requires p.state == StartReq
    ensures Run(limit, p, MethodName(MSEARCH) + rest).Failed?
    ensures Run(limit, p, ['M', '-', 'S'] + rest).Failed?
  {
    hide Run, Step;
    var text := MethodName(MSEARCH) + rest;
    assert text == ['M', ' '] + text[2..];
    TwoFail(limit, p, ['M', ' '], text[2..]) by { MSearchSteps(limit, p); }
    assert ['M', '-', 'S'] + rest == ['M', '-'] + (['S'] + rest);
    ThirdFails(limit, p, rest);
  }

  lemma TwoFail(limit: nat, p: Parser, two: Bytes, rest: Bytes)
    requires |two| == 2
    requires var one := Step(limit, p, two[0]); one.Fail? || (one.Next? && Step(limit, one.p, two[1]).Fail?)
    ensures Run(limit, p, two + rest).Failed?
  {
    hide Step;
    assert two == [two[0]] + [two[1]];
    RunAppend(limit, p, two, rest);
    RunAppend(limit, p, [two[0]], [two[1]]);
    RunOne(limit, p, two[0]);
    if Step(limit, p, two[0]).Next? {
      RunOne(limit, Step(limit, p, two[0]).p, two[1]);
    }
  }

  lemma ThirdFails(limit: nat, p: Parser, rest: Bytes)
    requires p.state == StartReq
    ensures Run(limit, p, ['M', '-'] + (['S'] + rest)).Failed?
  {
    hide Step;
    MSearchSteps(limit, p);
    RunAppend(limit, p, ['M'], ['-', 'S'] + rest);
    RunOne(limit, p, 'M');
    assert ['M', '-'] + (['S'] + rest) == ['M'] + (['-', 'S'] + rest);
    if p.nread + 1 <= limit {
      TwoFail(limit, Step(limit, p, 'M').p, ['-', 'S'], rest);
    }
  }

  lemma MSearchSteps(limit: nat, p: Parser)
    requires p.state == StartReq
    ensures if p.nread + 1 > limit then Step(limit, p, 'M').Fail?
            else
              var q := Step(limit, p, 'M');
              q.Next? && Step(limit, q.p, ' ').Fail?
              && (Step(limit, q.p, '-').Fail?
                  || (Step(limit, q.p, '-').Next? && Step(limit, Step(limit, q.p, '-').p, 'S').Fail?))
  {
    hide Step;
    AfterM(limit, p);
    if p.nread + 1 <= limit {
      var q := Step(limit, p, 'M').p;
      TryByte(limit, q, ' ');
      TryByte(limit, q, '-');
      TryByte(limit, q.(verb := MSEARCH, index := 2, nread := q.nread + 1), 'S');
      assert At(MethodName(MKCOL), 1) == 'K' && At(MethodName(MSEARCH), 2) == '-';
    }
  }

  lemma AfterM(limit: nat, p: Parser)
    requires p.state == StartReq
    ensures if p.nread + 1 > limit then Step(limit, p, 'M').Fail?
            else Step(limit, p, 'M').Next? && Step(limit, p, 'M').p.state == ReqMethod
                 && Step(limit, p, 'M').p.verb == MKCOL && Step(limit, p, 'M').p.index == 1
  {
  }
}
