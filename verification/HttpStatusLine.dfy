/** The status line at once: the version, the code and the reason. */
module HttpStatusLine {
  import opened HttpSyntax
  import opened HttpMachine
  import opened HttpInvariant
  import opened HttpRun
  import opened HttpSpans
  import opened HttpFraming
  import opened HttpLines
  import opened HttpRequestLine

  function StatusLineText(major: nat, minor: nat, code: Bytes, reason: Bytes): Bytes
    requires major <= 9 && minor <= 9
  {
    ['H', 'T', 'T', 'P', '/', DigitChar(major), '.', DigitChar(minor), ' '] + (code + ([' '] + (reason + [CR, LF])))
  }

  // ---------------------------------------------------------------- one byte

  lemma StatusByte(limit: nat, p: Parser, at: StatusPos, ch: Byte)
    requires p.state == StatusLine(at) && p.nread + 1 <= limit
    requires !StepStatusLine(p.(nread := p.nread + 1), at, ch).Again?
    ensures Step(limit, p, ch) == StepStatusLine(p.(nread := p.nread + 1), at, ch)
  {
    hide Step, StepStart, StepRequestLine, StepStatusLine, StepMethod, StepBeforeUrl, StepUrl, StepHeader, StepChunk,
         StepBodyIdentity, StepMessageDone;
    StepOnce(limit, p, ch);
  }

  /** From one place in the status line to the next. */
  lemma StatusOn(limit: nat, p: Parser, at: StatusPos, ch: Byte, q: Parser, rest: Bytes)
    requires p.state == StatusLine(at) && p.nread + 1 <= limit
    requires StepStatusLine(p.(nread := p.nread + 1), at, ch) == Next(q, [])
    ensures Run(limit, p, [ch] + rest) == Continue([], 1, Run(limit, q, rest))
  {
    hide StepStatusLine;
    StatusByte(limit, p, at, ch);
    hide Step;
    assert ([ch] + rest)[1..] == rest;
  }

  function At(p: Parser, n: nat, at: StatusPos): Parser { p.(nread := p.nread + n, state := StatusLine(at)) }

  predicate StatusSpells(at: StatusPos, ch: Byte, to: StatusPos) {
    || (at.ResH? && ch == 'T' && to.ResHT?)
    || (at.ResHT? && ch == 'T' && to.ResHTT?)
    || (at.ResHTT? && ch == 'P' && to.ResHTTP?)
    || (at.ResHTTP? && ch == '/' && to.ResMajor?)
  }

  lemma SpeltByte(limit: nat, p: Parser, n: nat, at: StatusPos, ch: Byte, to: StatusPos, rest: Bytes)
    requires StatusSpells(at, ch, to) && p.nread + n + 1 <= limit
    ensures Run(limit, At(p, n, at), [ch] + rest) == Continue([], 1, Run(limit, At(p, n + 1, to), rest))
  {
    hide Run, Continue;
    StatusOn(limit, At(p, n, at), at, ch, At(p, n + 1, to), rest);
  }

  lemma SpeltAll()
    ensures StatusSpells(ResH, 'T', ResHT) && StatusSpells(ResHT, 'T', ResHTT)
    ensures StatusSpells(ResHTT, 'P', ResHTTP) && StatusSpells(ResHTTP, '/', ResMajor)
  {
  }

  lemma SpeltText(rest: Bytes)
    ensures ['T', 'T', 'P', '/'] + rest == ['T'] + (['T'] + (['P'] + (['/'] + rest)))
  {
  }

  lemma NameText(limit: nat, p: Parser, rest: Bytes)
    requires p.nread + 4 <= limit
    ensures Run(limit, At(p, 0, ResH), ['T', 'T', 'P', '/'] + rest) ==
            Continue([], 4, Run(limit, At(p, 4, ResMajor), rest))
  {
    hide *;
    SpeltAll();
    SpeltText(rest);
    var r3 := ['/'] + rest;
    var r2 := ['P'] + r3;
    var r1 := ['T'] + r2;
    SpeltByte(limit, p, 0, ResH, 'T', ResHT, r1);
    SpeltByte(limit, p, 1, ResHT, 'T', ResHTT, r2);
    SpeltByte(limit, p, 2, ResHTT, 'P', ResHTTP, r3);
    SpeltByte(limit, p, 3, ResHTTP, '/', ResMajor, rest);
    var last := Run(limit, At(p, 4, ResMajor), rest);
    Again2(1, last);
    Again2(2, last);
    Again2(3, last);
  }

  // ---------------------------------------------------------------- the version

  lemma VersionSteps(p: Parser, major: nat, minor: nat)
    requires major <= 9 && minor <= 9
    ensures StepStatusLine(p, ResMajor, DigitChar(major)) == Next(p.(major := major, state := StatusLine(ResDot)), [])
    ensures StepStatusLine(p, ResDot, '.') == Next(p.(state := StatusLine(ResMinor)), [])
    ensures StepStatusLine(p, ResMinor, DigitChar(minor)) == Next(p.(minor := minor, state := StatusLine(ResEnd)), [])
    ensures StepStatusLine(p, ResEnd, ' ') == Next(p.(state := StatusLine(ResFirstStatusCode)), [])
  {
    DigitIs(major);
    DigitIs(minor);
    hide DigitChar, IsNum, Digit;
  }

  lemma MajorText(limit: nat, p: Parser, major: nat, rest: Bytes)
    requires p.state == StatusLine(ResMajor) && p.nread + 2 <= limit && major <= 9
    ensures Run(limit, p, [DigitChar(major)] + (['.'] + rest)) ==
            Continue([], 2, Run(limit, p.(nread := p.nread + 2, major := major, state := StatusLine(ResMinor)), rest))
  {
    hide *;
    var q1 := p.(nread := p.nread + 1, major := major, state := StatusLine(ResDot));
    var q2 := p.(nread := p.nread + 2, major := major, state := StatusLine(ResMinor));
    VersionSteps(p.(nread := p.nread + 1), major, 0);
    VersionSteps(q1.(nread := p.nread + 2), major, 0);
    StatusOn(limit, p, ResMajor, DigitChar(major), q1, ['.'] + rest);
    StatusOn(limit, q1, ResDot, '.', q2, rest);
    Again2(1, Run(limit, q2, rest));
  }

  lemma MinorText(limit: nat, p: Parser, minor: nat, rest: Bytes)
    requires p.state == StatusLine(ResMinor) && p.nread + 2 <= limit && minor <= 9
    ensures Run(limit, p, [DigitChar(minor)] + ([' '] + rest)) ==
            Continue([], 2, Run(limit, p.(nread := p.nread + 2, minor := minor,
                                          state := StatusLine(ResFirstStatusCode)), rest))
  {
    hide *;
    var q1 := p.(nread := p.nread + 1, minor := minor, state := StatusLine(ResEnd));
    var q2 := p.(nread := p.nread + 2, minor := minor, state := StatusLine(ResFirstStatusCode));
    VersionSteps(p.(nread := p.nread + 1), 0, minor);
    VersionSteps(q1.(nread := p.nread + 2), 0, minor);
    StatusOn(limit, p, ResMinor, DigitChar(minor), q1, [' '] + rest);
    StatusOn(limit, q1, ResEnd, ' ', q2, rest);
    Again2(1, Run(limit, q2, rest));
  }

  lemma NumbersText(limit: nat, p: Parser, major: nat, minor: nat, rest: Bytes)
    requires p.state == StatusLine(ResMajor) && p.nread + 4 <= limit && major <= 9 && minor <= 9
    ensures Run(limit, p, [DigitChar(major)] + (['.'] + ([DigitChar(minor)] + ([' '] + rest)))) ==
            Continue([], 4, Run(limit, p.(nread := p.nread + 4, major := major, minor := minor,
                                          state := StatusLine(ResFirstStatusCode)), rest))
  {
    hide *;
    var q := p.(nread := p.nread + 2, major := major, state := StatusLine(ResMinor));
    var r := p.(nread := p.nread + 4, major := major, minor := minor, state := StatusLine(ResFirstStatusCode));
    MajorText(limit, p, major, [DigitChar(minor)] + ([' '] + rest));
    MinorText(limit, q, minor, rest);
    var last := Run(limit, r, rest);
    ContinueTwice([], 2, [], 2, last);
    var none: seq<Act> := [];
    assert none + none == none;
  }

  // ---------------------------------------------------------------- the code

  lemma CodeStep(limit: nat, p: Parser, ch: Byte)
    requires p.state == StatusLine(ResStatusCode) && IsNum(ch) && p.nread + 1 <= limit
    ensures var n := p.status * 10 + Digit(ch);
            Step(limit, p, ch) == if n > 999 then Fail(InvalidStatus)
                                  else Next(p.(nread := p.nread + 1, status := n), [])
  {
    hide Digit;
    StatusByte(limit, p, ResStatusCode, ch);
    hide Step;
  }

  lemma {:induction false} CodeOn(limit: nat, p: Parser, code: Bytes)
    requires p.state == StatusLine(ResStatusCode) && Digits(code) && p.nread + |code| <= limit
    requires p.status <= 999
    ensures Run(limit, p, code) == if Decimal(p.status, code) > 999 then Failed(InvalidStatus)
                                   else Done(p.(nread := p.nread + |code|, status := Decimal(p.status, code)), [])
    decreases |code|
  {
    hide Step, IsNum, Digit;
    if code == [] {
      assert p.(nread := p.nread, status := p.status) == p;
    } else {
      assert IsNum(code[0]);
      CodeStep(limit, p, code[0]);
      var n := p.status * 10 + Digit(code[0]);
      if n > 999 {
        DecimalGrows(n, code[1..]);
      } else {
        CodeOn(limit, p.(nread := p.nread + 1, status := n), code[1..]);
      }
    }
  }

  lemma CodeStart(limit: nat, p: Parser, ch: Byte)
    requires p.state == StatusLine(ResFirstStatusCode) && IsNum(ch) && p.nread + 1 <= limit
    ensures Step(limit, p, ch) ==
            Next(p.(nread := p.nread + 1, status := Digit(ch), state := StatusLine(ResStatusCode)), [])
  {
    hide Digit;
    StatusByte(limit, p, ResFirstStatusCode, ch);
    hide Step;
  }

  /** The digits of a status code are accepted if and only if they make a number of three digits at most, and the
      code is that number. */
  lemma CodeExact(limit: nat, p: Parser, code: Bytes)
    requires p.state == StatusLine(ResFirstStatusCode) && code != [] && Digits(code) && p.nread + |code| <= limit
    ensures Run(limit, p, code) ==
            if Decimal(0, code) > 999 then Failed(InvalidStatus)
            else Done(p.(nread := p.nread + |code|, status := Decimal(0, code), state := StatusLine(ResStatusCode)), [])
  {
    hide Run, Step, IsNum, Digit;
    assert IsNum(code[0]);
    var q := p.(nread := p.nread + 1, status := Digit(code[0]), state := StatusLine(ResStatusCode));
    CodeStart(limit, p, code[0]);
    RunOne(limit, p, code[0]);
    assert code == [code[0]] + code[1..];
    RunAppend(limit, p, [code[0]], code[1..]);
    DigitSmall(code[0]);
    CodeOn(limit, q, code[1..]);
  }

  lemma DigitSmall(c: Byte)
    requires IsNum(c)
    ensures Digit(c) <= 9
  {
  }

  /** Blanks may come before the code; but for them nothing but digits may follow there, and after the first digit
      nothing but digits, a blank or a line end. */
  lemma CodeAllows(limit: nat, p: Parser, ch: Byte)
    requires p.nread + 1 <= limit
    ensures p.state == StatusLine(ResFirstStatusCode) ==>
              && (ch == ' ' ==> Step(limit, p, ch) == Next(p.(nread := p.nread + 1), []))
              && (Step(limit, p, ch).Fail? <==> ch != ' ' && !IsNum(ch))
    ensures p.state == StatusLine(ResStatusCode) && ch != ' ' && !IsNum(ch) && !IsLineEnd(ch) ==>
              Step(limit, p, ch) == Fail(InvalidStatus)
  {
    if p.state == StatusLine(ResFirstStatusCode) {
      StatusByte(limit, p, ResFirstStatusCode, ch);
    } else if p.state == StatusLine(ResStatusCode) && ch != ' ' && !IsNum(ch) && !IsLineEnd(ch) {
      StatusByte(limit, p, ResStatusCode, ch);
    }
    hide Step;
  }

  /** The line feed alone ends the line as well. */
  lemma BareReasonEnd(limit: nat, p: Parser)
    requires p.state == StatusLine(ResStatus) && p.nread + 1 <= limit
    ensures Run(limit, p, [LF]) == Done(p.(nread := p.nread + 1, state := Header(FieldStart)), [Close(Status)])
  {
    StatusByte(limit, p, ResStatus, LF);
    RunOne(limit, p, LF);
    hide Run, Step;
  }

  // ---------------------------------------------------------------- the reason

  lemma ReasonSteps(limit: nat, p: Parser, ch: Byte)
    requires p.nread + 1 <= limit && !IsLineEnd(ch)
    ensures p.state == StatusLine(ResStatusStart) ==>
              Step(limit, p, ch) == Next(p.(nread := p.nread + 1, index := 0, state := StatusLine(ResStatus)),
                                         [Open(Status), Take(Status, ch)])
    ensures p.state == StatusLine(ResStatus) ==>
              Step(limit, p, ch) == Next(p.(nread := p.nread + 1), [Take(Status, ch)])
  {
    if p.state == StatusLine(ResStatusStart) {
      StatusByte(limit, p, ResStatusStart, ch);
      hide Step;
    } else if p.state == StatusLine(ResStatus) {
      StatusByte(limit, p, ResStatus, ch);
      hide Step;
    }
  }

  lemma {:induction false} ReasonOn(limit: nat, p: Parser, reason: Bytes)
    requires p.state == StatusLine(ResStatus) && InLine(reason) && p.nread + |reason| <= limit
    ensures Run(limit, p, reason) == Done(p.(nread := p.nread + |reason|), Takes(Status, reason))
    decreases |reason|
  {
    hide Step, IsLineEnd;
    if reason == [] {
      assert p.(nread := p.nread) == p;
    } else {
      ReasonSteps(limit, p, reason[0]);
      ReasonOn(limit, p.(nread := p.nread + 1), reason[1..]);
      TakesCons(Status, reason);
    }
  }

  lemma ReasonEnd(limit: nat, p: Parser)
    requires p.nread + 2 <= limit && p.state == StatusLine(ResStatus)
    ensures var at := p.(nread := p.nread + 1, state := StatusLine(ResLineAlmostDone));
            && Step(limit, p, CR) == Next(at, [Close(Status)])
            && Step(limit, at, LF) == Next(p.(nread := p.nread + 2, state := Header(FieldStart)), [])
  {
    var at := p.(nread := p.nread + 1, state := StatusLine(ResLineAlmostDone));
    StatusByte(limit, p, ResStatus, CR);
    StatusByte(limit, at, ResLineAlmostDone, LF);
    hide Step;
  }

  /** Where there is no reason it is reported as empty. */
  lemma NoReason(limit: nat, p: Parser)
    requires p.nread + 1 <= limit && p.state == StatusLine(ResStatusStart)
    ensures Step(limit, p, CR) == Next(p.(nread := p.nread + 1, index := 0, state := StatusLine(ResLineAlmostDone)),
                                       [Open(Status)] + [Close(Status)])
  {
    hide StepStart, StepRequestLine, StepMethod, StepBeforeUrl, StepUrl, StepHeader, StepChunk, StepBodyIdentity,
         StepMessageDone, Loop;
    var r := p.(nread := p.nread + 1);
    LoopAgain(r, CR, r.(state := StatusLine(ResStatus), index := 0), [Open(Status)]);
    LoopOnce(r.(state := StatusLine(ResStatus), index := 0), CR);
  }

  /** The reason, which may be empty, and the line end. */
  lemma ReasonRun(limit: nat, p: Parser, reason: Bytes)
    requires p.state == StatusLine(ResStatusStart) && InLine(reason) && p.nread + |reason| + 2 <= limit
    ensures Run(limit, p, reason + [CR, LF]) ==
            Done(p.(nread := p.nread + |reason| + 2, index := 0, state := Header(FieldStart)),
                 SpanActs(Status, reason))
  {
    hide Run, Step, IsLineEnd;
    if reason == [] {
      assert reason + [CR, LF] == [CR, LF];
      NoReason(limit, p);
      ReasonEnd(limit, p.(index := 0, state := StatusLine(ResStatus)));
      RunTwo(limit, p, CR, LF);
      EmptySpan(Status);
      assert [Open(Status)] + [Close(Status)] + [] == [Open(Status), Close(Status)];
    } else {
      var first, rest := reason[0], reason[1..];
      ReasonSteps(limit, p, first);
      var q := p.(nread := p.nread + 1, index := 0, state := StatusLine(ResStatus));
      ReasonOn(limit, q, rest);
      var r := q.(nread := p.nread + |reason|);
      ReasonEnd(limit, r);
      RunTwo(limit, r, CR, LF);
      RunAppend(limit, q, rest, [CR, LF]);
      RunOne(limit, p, first);
      assert reason + [CR, LF] == [first] + (rest + [CR, LF]);
      RunAppend(limit, p, [first], rest + [CR, LF]);
      TakesCons(Status, reason);
      assert [Open(Status), Take(Status, first)] + (Takes(Status, rest) + ([Close(Status)] + []))
             == SpanActs(Status, reason);
    }
  }

  lemma CodeLineEnd(r: Parser)
    requires r.state == StatusLine(ResStatusCode)
    ensures Loop(r, CR) ==
            Next(r.(index := 0, state := StatusLine(ResLineAlmostDone)), [Open(Status), Close(Status)])
  {
    hide StepStart, StepRequestLine, StepMethod, StepBeforeUrl, StepUrl, StepHeader, StepChunk, StepBodyIdentity,
         StepMessageDone, Loop;
    var start := r.(state := StatusLine(ResStatusStart));
    var reason := r.(state := StatusLine(ResStatus), index := 0);
    LoopAgain(r, CR, start, []);
    LoopAgain(start, CR, reason, [Open(Status)]);
    LoopOnce(reason, CR);
    assert [] + ([Open(Status)] + [Close(Status)]) == [Open(Status), Close(Status)];
  }


  lemma CodeEndStep(limit: nat, p: Parser)
    requires p.state == StatusLine(ResStatusCode) && p.nread + 1 <= limit
    ensures Step(limit, p, CR) ==
            Next(p.(nread := p.nread + 1, index := 0, state := StatusLine(ResLineAlmostDone)),
                 [Open(Status), Close(Status)])
  {
    CodeLineEnd(p.(nread := p.nread + 1));
    hide Loop;
  }

  /** The line may end with the code: then the reason is empty as well. */
  lemma NoBlank(limit: nat, p: Parser)
    requires p.state == StatusLine(ResStatusCode) && p.nread + 2 <= limit
    ensures Run(limit, p, [CR, LF]) ==
            Done(p.(nread := p.nread + 2, index := 0, state := Header(FieldStart)), SpanActs(Status, []))
  {
    hide Run, Step, Takes;
    var at := p.(nread := p.nread + 1, index := 0, state := StatusLine(ResLineAlmostDone));
    CodeEndStep(limit, p);
    LastLf(limit, at);
    EmptySpan(Status);
    RunTwo(limit, p, CR, LF);
    assert [Open(Status), Close(Status)] + [] == [Open(Status), Close(Status)];
  }

  lemma LastLf(limit: nat, p: Parser)
    requires p.state == StatusLine(ResLineAlmostDone) && p.nread + 1 <= limit
    ensures Step(limit, p, LF) == Next(p.(nread := p.nread + 1, state := Header(FieldStart)), [])
  {
    StatusByte(limit, p, ResLineAlmostDone, LF);
    hide Step;
  }
  // ---------------------------------------------------------------- the line

  lemma CodeEnd(limit: nat, p: Parser)
    requires p.state == StatusLine(ResStatusCode) && p.nread + 1 <= limit
    ensures Run(limit, p, [' ']) == Done(p.(nread := p.nread + 1, state := StatusLine(ResStatusStart)), [])
  {
    StatusByte(limit, p, ResStatusCode, ' ');
    RunOne(limit, p, ' ');
    hide Run, Step;
  }

  /** The parser after a status line of n bytes. */
  function AfterStatus(p: Parser, major: nat, minor: nat, status: nat, n: nat): Parser {
    Fresh(p).(index := 0, nread := p.nread + n, major := major, minor := minor, status := status,
              state := Header(FieldStart))
  }

  lemma FirstH(limit: nat, p: Parser)
    requires p.state == StartRes && p.nread + 1 <= limit
    ensures Step(limit, p, 'H') ==
            Next(Fresh(p).(nread := p.nread + 1, state := StatusLine(ResH)), [Tell(MessageBegin)])
  {
  }

  lemma StatusLineTextIs(major: nat, minor: nat, code: Bytes, reason: Bytes)
    requires major <= 9 && minor <= 9
    ensures var tail := code + ([' '] + (reason + [CR, LF]));
            StatusLineText(major, minor, code, reason) ==
            ['H'] + (['T', 'T', 'P', '/'] + ([DigitChar(major)] + (['.'] + ([DigitChar(minor)] + ([' '] + tail)))))
    ensures |StatusLineText(major, minor, code, reason)| == |code| + |reason| + 12
  {
    hide DigitChar;
  }

  /** The code and the reason. */
  lemma TailRun(limit: nat, p: Parser, code: Bytes, reason: Bytes)
    requires p.state == StatusLine(ResFirstStatusCode) && code != [] && Digits(code) && InLine(reason)
    requires Decimal(0, code) <= 999 && p.nread + |code| + |reason| + 3 <= limit
    ensures Run(limit, p, code + ([' '] + (reason + [CR, LF]))) ==
            Done(p.(nread := p.nread + |code| + |reason| + 3, index := 0, status := Decimal(0, code),
                    state := Header(FieldStart)), SpanActs(Status, reason))
  {
    hide Run, Step, Digits, Decimal, SpanActs;
    var q := p.(nread := p.nread + |code|, status := Decimal(0, code), state := StatusLine(ResStatusCode));
    CodeExact(limit, p, code);
    CodeEnd(limit, q);
    var r := q.(nread := q.nread + 1, state := StatusLine(ResStatusStart));
    ReasonRun(limit, r, reason);
    RunAppend(limit, q, [' '], reason + [CR, LF]);
    RunAppend(limit, p, code, [' '] + (reason + [CR, LF]));
    var acts := SpanActs(Status, reason);
    assert [] + ([] + acts) == acts;
  }

  /** A status line is read as its version and its code, and its reason is reported, whatever came before. */
  lemma StatusRun(limit: nat, p: Parser, major: nat, minor: nat, code: Bytes, reason: Bytes)
    requires p.state == StartRes
    requires major <= 9 && minor <= 9 && code != [] && Digits(code) && Decimal(0, code) <= 999 && InLine(reason)
    requires p.nread + |StatusLineText(major, minor, code, reason)| <= limit
    ensures Run(limit, p, StatusLineText(major, minor, code, reason)) ==
            Done(AfterStatus(p, major, minor, Decimal(0, code), |StatusLineText(major, minor, code, reason)|),
                 [Tell(MessageBegin)] + SpanActs(Status, reason))
  {
    hide Run, Step, Digits, Decimal, SpanActs, StatusLineText, DigitChar;
    StatusLineTextIs(major, minor, code, reason);
    var p1 := Fresh(p).(nread := p.nread + 1, state := StatusLine(ResH));
    var tail := code + ([' '] + (reason + [CR, LF]));
    var numbers := [DigitChar(major)] + (['.'] + ([DigitChar(minor)] + ([' '] + tail)));
    FirstH(limit, p);
    RunOne(limit, p, 'H');
    RunAppend(limit, p, ['H'], ['T', 'T', 'P', '/'] + numbers);
    NameText(limit, p1, numbers);
    var p2 := At(p1, 4, ResMajor);
    NumbersText(limit, p2, major, minor, tail);
    var p3 := p2.(nread := p2.nread + 4, major := major, minor := minor, state := StatusLine(ResFirstStatusCode));
    TailRun(limit, p3, code, reason);
    var acts := SpanActs(Status, reason);
    assert [] + acts == acts;
  }
}
