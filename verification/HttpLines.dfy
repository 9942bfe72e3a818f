/** A whole header line at once: what the byte machine makes of `name: value` CR LF. */
module HttpLines {
  import opened HttpSyntax
  import opened HttpMachine
  import opened HttpInvariant
  import opened HttpRun
  import opened HttpSpans
  import opened HttpNames
  import opened HttpFraming
  import opened HttpLists

  function LineText(name: Bytes, value: Bytes): Bytes { name + [':', ' '] + value + [CR, LF] }

  function SpanActs(s: Span, bytes: Bytes): seq<Act> { [Open(s)] + Takes(s, bytes) + [Close(s)] }

  function LineActs(name: Bytes, value: Bytes): seq<Act> { SpanActs(Field, name) + SpanActs(Value, value) }

  predicate ValueText(value: Bytes) {
    && (forall i :: 0 <= i < |value| ==> IsHeaderChar(value[i]) && !IsLineEnd(value[i]))
    && (value != [] ==> !IsBlank(value[0]))
  }

  // ---------------------------------------------------------------- the bytes between

  lemma ColonBlank(limit: nat, p: Parser)
    requires Inv(p) && p.state == Header(InField) && p.nread + 2 <= limit
    ensures Run(limit, p, [':', ' ']) == Done(p.(nread := p.nread + 2, state := Header(DiscardWs)), [Close(Field)])
  {
    hide Step;
    var q := p.(nread := p.nread + 1, state := Header(DiscardWs));
    ColonStep(limit, p);
    RunOne(limit, p, ':');
    RunOne(limit, q, ' ');
    assert [':', ' '] == [':'] + [' '];
    RunAppend(limit, p, [':'], [' ']);
    assert [Close(Field)] + [] == [Close(Field)];
  }

  lemma ColonStep(limit: nat, p: Parser)
    requires Inv(p) && p.state == Header(InField) && p.nread + 2 <= limit
    ensures var q := p.(nread := p.nread + 1, state := Header(DiscardWs));
            && Step(limit, p, ':') == Next(q, [Close(Field)])
            && Step(limit, q, ' ') == Next(p.(nread := p.nread + 2, state := Header(DiscardWs)), [])
  {
  }

  /** The end of a line inside a value. */
  lemma ValueEndSteps(limit: nat, p: Parser)
    requires p.state == Header(InValue) && p.nread + 2 <= limit
    ensures var q := p.(nread := p.nread + 1, state := Header(AlmostDone));
            && Step(limit, p, CR) == Next(q, [Close(Value)])
            && Step(limit, q, LF) == Next(p.(nread := p.nread + 2, state := Header(ValueLws)), [])
  {
  }

  lemma ValueEnd(limit: nat, p: Parser)
    requires p.state == Header(InValue) && p.nread + 2 <= limit
    ensures Run(limit, p, [CR, LF]) == Done(p.(nread := p.nread + 2, state := Header(ValueLws)), [Close(Value)])
  {
    hide Step;
    ValueEndSteps(limit, p);
    RunOne(limit, p, CR);
    RunOne(limit, p.(nread := p.nread + 1, state := Header(AlmostDone)), LF);
    assert [CR, LF] == [CR] + [LF];
    RunAppend(limit, p, [CR], [LF]);
    assert [Close(Value)] + [] == [Close(Value)];
  }

  /** The line feed alone ends a line as well. */
  lemma BareEnds(limit: nat, p: Parser)
    requires p.nread + 1 <= limit
    ensures p.state == Header(InValue) ==>
              Run(limit, p, [LF]) == Done(p.(nread := p.nread + 1, state := Header(ValueLws)), [Close(Value)])
    ensures p.state == Header(DiscardWs) ==>
              Run(limit, p, [LF]) == Done(p.(nread := p.nread + 1, state := Header(DiscardLws)), [])
  {
    RunOne(limit, p, LF);
    if p.state == Header(InValue) {
      BareValueStep(limit, p);
    } else if p.state == Header(DiscardWs) {
      BareEmptyStep(limit, p);
    }
    hide Run, Step;
  }

  lemma BareValueStep(limit: nat, p: Parser)
    requires p.nread + 1 <= limit && p.state == Header(InValue)
    ensures Step(limit, p, LF) == Next(p.(nread := p.nread + 1, state := Header(ValueLws)), [Close(Value)])
  {
    hide StepFieldStart, StepField, StepDiscardWs, StepDiscardLws, StepValueStart, StepValueLws, StepHeadersAlmostDone,
         StepHeadersDone, Loop, Micro;
    var r := p.(nread := p.nread + 1);
    var at := r.(state := Header(AlmostDone));
    HeaderMicro(r, InValue, LF);
    HeaderMicro(at, AlmostDone, LF);
    LoopAgain(r, LF, at, [Close(Value)]);
    LoopOnce(at, LF);
    assert [Close(Value)] + [] == [Close(Value)];
  }

  lemma BareEmptyStep(limit: nat, p: Parser)
    requires p.nread + 1 <= limit && p.state == Header(DiscardWs)
    ensures Step(limit, p, LF) == Next(p.(nread := p.nread + 1, state := Header(DiscardLws)), [])
  {
  }

  lemma EmptyEndSteps(limit: nat, p: Parser)
    requires p.state == Header(DiscardWs) && p.nread + 2 <= limit
    ensures var q := p.(nread := p.nread + 1, state := Header(DiscardWsAlmostDone));
            && Step(limit, p, CR) == Next(q, [])
            && Step(limit, q, LF) == Next(p.(nread := p.nread + 2, state := Header(DiscardLws)), [])
  {
  }

  lemma EmptyEnd(limit: nat, p: Parser)
    requires p.state == Header(DiscardWs) && p.nread + 2 <= limit
    ensures Run(limit, p, [CR, LF]) == Done(p.(nread := p.nread + 2, state := Header(DiscardLws)), [])
  {
    hide Step;
    EmptyEndSteps(limit, p);
    RunOne(limit, p, CR);
    RunOne(limit, p.(nread := p.nread + 1, state := Header(DiscardWsAlmostDone)), LF);
    assert [CR, LF] == [CR] + [LF];
    RunAppend(limit, p, [CR], [LF]);
  }

  /** The line after, which is not folded onto this one. */
  function LineDone(p: Parser): Parser { p.(flags := LineFlags(p), state := Header(FieldStart)) }

  lemma PendingStep(limit: nat, p: Parser, ch: Byte)
    requires p.state == Header(ValueLws) || (p.state == Header(DiscardLws) && !p.hs.ContentLength?)
    requires !IsBlank(ch)
    ensures Step(limit, p, ch) ==
            Prepend(if p.state == Header(ValueLws) then [] else [Open(Value), Close(Value)],
                    Step(limit, LineDone(p), ch))
  {
    hide LineFlags;
    var r := Count(p);
    assert LineFlags(r) == LineFlags(p) by { FlagsOfLine(p, p.nread + 1); }
    assert Count(LineDone(p)) == LineDone(r);
    assert Loop(r, ch) ==
           Prepend(if p.state == Header(ValueLws) then [] else [Open(Value), Close(Value)], Loop(LineDone(r), ch)) by {
      hide StepFieldStart;
    }
  }

  lemma FlagsOfLine(p: Parser, n: nat)
    ensures LineFlags(p.(nread := n)) == LineFlags(p)
  {
  }

  lemma Pending(limit: nat, p: Parser, rest: Bytes)
    requires p.state == Header(ValueLws) || (p.state == Header(DiscardLws) && !p.hs.ContentLength?)
    requires rest != [] && !IsBlank(rest[0])
    ensures Run(limit, p, rest) ==
            Continue(if p.state == Header(ValueLws) then [] else [Open(Value), Close(Value)], 0,
                     Run(limit, LineDone(p), rest))
  {
    hide Step, LineDone;
    var acts := if p.state == Header(ValueLws) then [] else [Open(Value), Close(Value)];
    PendingStep(limit, p, rest[0]);
    var out := Step(limit, LineDone(p), rest[0]);
    if out.Next? {
      ContinueTwice(acts, 0, out.acts, 1, Run(limit, out.p, rest[1..]));
    }
  }

  // ---------------------------------------------------------------- the value

  /** After the name of any header but Content-Length. */
  predicate TextHs(hs: HeaderState) { FieldHs(hs) && !hs.ContentLength? }

  /** The parser after the first byte of a value. */
  function FirstOf(p: Parser, ch: Byte): Parser {
    if p.hs.TransferEncoding? then FirstOfValue(Codings, p, ch)
    else if p.hs.Connection? then FirstOfValue(Options, p, ch)
    else p.(index := 0, hs := General, flags := if p.hs.Upgrade? then p.flags.(upgrade := true) else p.flags)
  }

  lemma FirstIs(p: Parser, ch: Byte)
    requires TextHs(p.hs) && IsHeaderChar(ch) && !IsLineEnd(ch)
    ensures FirstValueByte(p, ch) == Ok(FirstOf(p, ch).(index := p.index))
  {
    hide IsHeaderChar, IsLineEnd, FirstOfValue, OrSpace;
    if p.hs.TransferEncoding? {
      FirstByteIs(Codings, p, ch);
    } else if p.hs.Connection? {
      FirstByteIs(Options, p, ch);
    }
  }

  /** The flags after the value of a header. */
  function ValueFlags(hs: HeaderState, f: Flags, value: Bytes): Flags {
    if hs.TransferEncoding? then Heard(Codings, f, Says(Codings, value))
    else if hs.Connection? then Heard(Options, f, Says(Options, value))
    else if hs.Upgrade? && value != [] then f.(upgrade := true)
    else f
  }

  lemma ListedText(value: Bytes)
    requires ValueText(value)
    ensures Listed(value) && InLine(value) && (value != [] ==> value[0] != ' ' && InLine(value[1..]))
    ensures forall i :: 0 <= i < |value| ==> IsHeaderChar(value[i])
  {
    hide IsHeaderChar, IsLineEnd;
  }

  /** The rest of the value, for the matcher. */
  lemma ValueHeard(p: Parser, value: Bytes) returns (q: Parser)
    requires TextHs(p.hs) && ValueText(value) && value != []
    ensures ValueFold(FirstOf(p, value[0]), value[1..]) == Ok(q)
    ensures q == p.(hs := q.hs, index := q.index, flags := q.flags) && LineFlags(q) == ValueFlags(p.hs, p.flags, value)
  {
    hide ValueFold, FirstOfValue, Says, Heard, Listed, IsHeaderChar, ValueText;
    ListedText(value);
    if p.hs.TransferEncoding? {
      q := HeardIs(Codings, p, value);
    } else if p.hs.Connection? {
      q := HeardIs(Options, p, value);
    } else {
      q := FirstOf(p, value[0]);
      ValueFoldGeneral(q, value[1..]);
    }
  }

  lemma FirstValueStep(limit: nat, p: Parser, ch: Byte)
    requires Inv(p) && p.state == Header(DiscardWs) && TextHs(p.hs)
    requires IsHeaderChar(ch) && !IsLineEnd(ch) && !IsBlank(ch) && p.nread + 1 <= limit
    ensures var q := FirstOf(p.(nread := p.nread + 1, state := Header(InValue)), ch);
            Step(limit, p, ch) == Next(q, [Open(Value), Take(Value, ch)]) && Inv(q) && q.state == Header(InValue)
  {
    hide FirstValueByte, FirstOfValue, LengthInv, MatcherInv, IsHeaderChar;
    var p1 := p.(nread := p.nread + 1);
    FirstIs(p1, ch);
    FirstIs(p1.(state := Header(InValue)), ch);
    HeaderInvCount(p, DiscardWs, p.nread + 1);
    FirstValueByteInv(p1, DiscardWs, ch);
    ValueStartKept(FirstValueByte(p1, ch).p);
    FirstOfElsewhere(p1, ch);
  }

  lemma FirstOfElsewhere(p: Parser, ch: Byte)
    ensures FirstOf(p, ch).(state := Header(InValue)) == FirstOf(p.(state := Header(InValue)), ch)
    ensures FirstOf(p, ch).index == 0
  {
  }

  lemma ValueRunText(limit: nat, p: Parser, value: Bytes) returns (q: Parser)
    requires Inv(p) && p.state == Header(DiscardWs) && TextHs(p.hs) && ValueText(value) && value != []
    requires p.nread + |value| + 2 <= limit
    ensures Run(limit, p, value + [CR, LF]) == Done(q, SpanActs(Value, value))
    ensures q == p.(nread := p.nread + |value| + 2, state := Header(ValueLws), hs := q.hs, index := q.index,
                    flags := q.flags)
    ensures LineFlags(q) == ValueFlags(p.hs, p.flags, value)
  {
    hide Run, Step, Inv, ValueFold, FirstOf, ValueFlags, IsHeaderChar, IsLineEnd, IsBlank, ValueText, InLine;
    var p0, rest := p.(nread := p.nread + 1, state := Header(InValue)), value[1..];
    assert IsHeaderChar(value[0]) && !IsLineEnd(value[0]) && !IsBlank(value[0]) by { TextFirst(value); }
    ListedText(value);
    FirstValueStep(limit, p, value[0]);
    var p1 := FirstOf(p0, value[0]);
    assert p1.nread == p.nread + 1 by { FirstOfCount(p0, value[0]); }
    ValueRun(limit, p1, rest);
    var r := ValueHeard(p0, value);
    var p2 := r.(nread := p1.nread + |rest|);
    assert value == [value[0]] + rest;
    RunOne(limit, p, value[0]);
    RunAppend(limit, p, [value[0]], rest);
    TakesCons(Value, value);
    assert [Open(Value), Take(Value, value[0])] + Takes(Value, rest) == [Open(Value)] + Takes(Value, value);
    ValueEnd(limit, p2);
    RunAppend(limit, p, value, [CR, LF]);
    q := p2.(nread := p2.nread + 2, state := Header(ValueLws));
    FlagsElsewhere(r, q);
  }

  lemma TextFirst(value: Bytes)
    requires ValueText(value) && value != []
    ensures IsHeaderChar(value[0]) && !IsLineEnd(value[0]) && !IsBlank(value[0])
  {
    hide IsHeaderChar, IsLineEnd, IsBlank;
  }

  lemma FirstOfCount(p: Parser, ch: Byte)
    ensures FirstOf(p, ch).nread == p.nread
  {
  }

  lemma FlagsElsewhere(p: Parser, q: Parser)
    requires q == p.(nread := q.nread, state := q.state)
    ensures LineFlags(q) == LineFlags(p)
  {
  }

  lemma NothingSaid(hs: HeaderState, f: Flags)
    ensures ValueFlags(hs, f, []) == f
  {
    SaidNone(f);
  }

  /** From the start of the value to the start of the next line. */
  lemma ValueLine(limit: nat, p: Parser, value: Bytes, rest: Bytes) returns (q: Parser)
    requires Inv(p) && p.state == Header(DiscardWs) && TextHs(p.hs) && ValueText(value)
    requires p.nread + |value| + 2 <= limit && rest != [] && !IsBlank(rest[0])
    ensures Run(limit, p, value + [CR, LF] + rest) ==
            Continue(SpanActs(Value, value), |value| + 2, Run(limit, q, rest))
    ensures q == p.(nread := p.nread + |value| + 2, state := Header(FieldStart), hs := q.hs, index := q.index,
                    flags := ValueFlags(p.hs, p.flags, value))
  {
    hide Run, Step, Inv, ValueFlags, LineFlags, IsBlank, ValueText;
    RunAppend(limit, p, value + [CR, LF], rest);
    if value == [] {
      assert value + [CR, LF] == [CR, LF];
      EmptyEnd(limit, p);
      var r := p.(nread := p.nread + 2, state := Header(DiscardLws));
      Pending(limit, r, rest);
      q := LineDone(r);
      NothingSaid(p.hs, p.flags);
      NamePending(r);
      ContinueTwice([], |value| + 2, [Open(Value), Close(Value)], 0, Run(limit, q, rest));
      assert [] + [Open(Value), Close(Value)] == SpanActs(Value, value) by { EmptySpan(Value); }
    } else {
      var r := ValueRunText(limit, p, value);
      Pending(limit, r, rest);
      q := LineDone(r);
      ContinueTwice(SpanActs(Value, value), |value| + 2, [], 0, Run(limit, q, rest));
      assert SpanActs(Value, value) + [] == SpanActs(Value, value);
    }
  }

  lemma NamePending(p: Parser)
    requires FieldHs(p.hs)
    ensures LineFlags(p) == p.flags
  {
  }

  lemma EmptySpan(s: Span)
    ensures SpanActs(s, []) == [Open(s), Close(s)]
  {
  }

  // ---------------------------------------------------------------- the line

  /** Any header but Content-Length. */
  predicate TextHeader(name: Bytes, value: Bytes) {
    name != [] && Tokens(name) && ValueText(value) && Lowered(name) != CONTENT_LENGTH
  }

  /** Does a header of this name, in lower case, hold such a list? */
  predicate Tells(l: List, low: Bytes) {
    if l.Codings? then low == TRANSFER_ENCODING else low == CONNECTION || low == PROXY_CONNECTION
  }

  /** The words that a header line says. */
  function LineSays(l: List, name: Bytes, value: Bytes): set<Bytes> {
    if Tells(l, Lowered(name)) then Says(l, value) else {}
  }

  predicate LineUpgrades(name: Bytes, value: Bytes) { Lowered(name) == UPGRADE && value != [] }

  /** The flags with what header lines say. */
  function Noted(f: Flags, codings: set<Bytes>, options: set<Bytes>, up: bool): Flags {
    f.(chunked := f.chunked || CHUNKED in codings,
       keepAlive := f.keepAlive || KEEP_ALIVE in options, close := f.close || CLOSE in options,
       connUpgrade := f.connUpgrade || UPGRADE in options, upgrade := f.upgrade || up)
  }

  function LineNoted(f: Flags, name: Bytes, value: Bytes): Flags {
    Noted(f, LineSays(Codings, name, value), LineSays(Options, name, value), LineUpgrades(name, value))
  }

  lemma NameIs(low: Bytes)
    requires low != []
    ensures FieldHs(NameHs(low))
    ensures NameHs(low).ContentLength? <==> low == CONTENT_LENGTH
    ensures NameHs(low).TransferEncoding? <==> low == TRANSFER_ENCODING
    ensures NameHs(low).Connection? <==> low == CONNECTION || low == PROXY_CONNECTION
    ensures NameHs(low).Upgrade? <==> low == UPGRADE
  {
    FirstLetters();
    hide CONTENT_LENGTH, TRANSFER_ENCODING, UPGRADE, CONNECTION, PROXY_CONNECTION;
  }

  lemma FirstLetters()
    ensures |CONNECTION| == 10 && CONNECTION[..4] == ['c', 'o', 'n', 'n']
    ensures |CONTENT_LENGTH| == 14 && CONTENT_LENGTH[..4] == ['c', 'o', 'n', 't']
    ensures PROXY_CONNECTION[0] == 'p' && TRANSFER_ENCODING[0] == 't' && UPGRADE[0] == 'u'
    ensures CONNECTION[0] == CONTENT_LENGTH[0] == 'c' && CONNECTION[1] == CONTENT_LENGTH[1] == 'o'
    ensures CONNECTION[2] == CONTENT_LENGTH[2] == 'n' && CONNECTION[3] == 'n' && CONTENT_LENGTH[3] == 't'
  {
  }

  lemma NotedIs(low: Bytes, f: Flags, value: Bytes)
    requires low != []
    ensures ValueFlags(NameHs(low), f, value) ==
            Noted(f, if Tells(Codings, low) then Says(Codings, value) else {},
                  if Tells(Options, low) then Says(Options, value) else {}, low == UPGRADE && value != [])
  {
    NameIs(low);
    DistinctNames();
    hide Says, NameHs, CHUNKED, KEEP_ALIVE, CLOSE, UPGRADE, CONTENT_LENGTH, TRANSFER_ENCODING, CONNECTION,
         PROXY_CONNECTION;
  }

  lemma DistinctNames()
    ensures TRANSFER_ENCODING != CONNECTION && TRANSFER_ENCODING != PROXY_CONNECTION && TRANSFER_ENCODING != UPGRADE
    ensures CONNECTION != UPGRADE && PROXY_CONNECTION != UPGRADE
  {
    FirstLetters();
    hide CONTENT_LENGTH, TRANSFER_ENCODING, UPGRADE, CONNECTION, PROXY_CONNECTION;
  }

  /** The parser at the start of a line, and after that line. */
  predicate LineRead(p: Parser, name: Bytes, value: Bytes, q: Parser) {
    q == p.(nread := p.nread + |LineText(name, value)|, hs := q.hs, index := q.index,
            te := p.te || BeginsTe(Lowered(name)), flags := LineNoted(p.flags, name, value))
  }

  /** Any header line but one with a length is reported as its name and its value, and leaves the parser at the
      start of the next line, with the flags that its words say.  A name that only begins with
      "transfer-encoding" is taken for that header in one respect: the flag that this sets is not taken back. */
  lemma TextLine(limit: nat, p: Parser, name: Bytes, value: Bytes, rest: Bytes) returns (q: Parser)
    requires Inv(p) && p.state == Header(FieldStart) && TextHeader(name, value)
    requires p.nread + |LineText(name, value)| <= limit && rest != [] && !IsBlank(rest[0])
    ensures Run(limit, p, LineText(name, value) + rest) ==
            Continue(LineActs(name, value), |LineText(name, value)|, Run(limit, q, rest))
    ensures LineRead(p, name, value, q) && Inv(q)
  {
    hide Run, Step, Inv, SpanActs, LineText, LineActs, Takes, NameHs, BeginsTe, Continue, ValueFlags, ValueText, Tokens,
         Noted, IsBlank, Lowered, CONTENT_LENGTH, Tells, UPGRADE, Says, FieldHs;
    LineTextLength(name, value);
    var low := Lowered(name);
    var p1 := NameRun(limit, p, name);
    NameIs(low);
    ColonBlank(limit, p1);
    var p2 := p1.(nread := p1.nread + 2, state := Header(DiscardWs));
    assert Inv(p2) by { DiscardInv(p1); }
    q := ValueLine(limit, p2, value, rest);
    NotedIs(low, p.flags, value);
    var tail := value + [CR, LF] + rest;
    RunAppend(limit, p, name, [':', ' '] + tail);
    RunAppend(limit, p1, [':', ' '], tail);
    LineTextSplit(name, value, rest);
    LineInv(p, name, value, q);
    var a, b, c := [Open(Field)] + Takes(Field, name), [Close(Field)], SpanActs(Value, value);
    ContinueTwice(b, 2, c, |value| + 2, Run(limit, q, rest));
    ContinueTwice(a, |name|, b + c, 2 + (|value| + 2), Run(limit, q, rest));
    assert a + (b + c) == LineActs(name, value) by { LineActsAre(name, value); }
  }

  lemma LineInv(p: Parser, name: Bytes, value: Bytes, q: Parser)
    requires Inv(p) && p.state == Header(FieldStart) && LineRead(p, name, value, q)
    ensures Inv(q)
  {
    hide Lowered, Says, LineText, CHUNKED, KEEP_ALIVE, CLOSE, UPGRADE;
    NotChunked();
  }

  lemma NotChunked()
    ensures BeginsTe(TRANSFER_ENCODING)
  {
  }

  /** A header that does not concern framing, `Connection` included. */
  predicate Plain(name: Bytes, value: Bytes) {
    TextHeader(name, value) && Lowered(name) != TRANSFER_ENCODING && Lowered(name) != UPGRADE
  }

  /** Such a line changes nothing but the flags of the connection, and those as its words say. */
  lemma PlainLine(limit: nat, p: Parser, name: Bytes, value: Bytes, rest: Bytes) returns (q: Parser)
    requires Inv(p) && p.state == Header(FieldStart) && Plain(name, value)
    requires p.nread + |LineText(name, value)| <= limit && rest != [] && !IsBlank(rest[0])
    ensures Run(limit, p, LineText(name, value) + rest) ==
            Continue(LineActs(name, value), |LineText(name, value)|, Run(limit, q, rest))
    ensures q == p.(nread := p.nread + |LineText(name, value)|, hs := q.hs, index := q.index,
                    te := p.te || BeginsTe(Lowered(name)), flags := AddSaid(p.flags, LineSays(Options, name, value)))
    ensures Inv(q)
  {
    hide Run, Inv, LineText, LineActs, BeginsTe, Continue, Lowered, ValueText, Tokens, IsBlank, Says,
         CHUNKED, KEEP_ALIVE, CLOSE, UPGRADE, CONTENT_LENGTH, TRANSFER_ENCODING, CONNECTION, PROXY_CONNECTION;
    q := TextLine(limit, p, name, value, rest);
  }

  /** A Transfer-Encoding line, its name in any case, announces a coding, and the chunked one if and only if that
      is heard in its value. */
  lemma TransferLine(limit: nat, p: Parser, name: Bytes, value: Bytes, rest: Bytes) returns (q: Parser)
    requires Inv(p) && p.state == Header(FieldStart) && name != [] && Tokens(name) && ValueText(value)
    requires Lowered(name) == TRANSFER_ENCODING
    requires p.nread + |LineText(name, value)| <= limit && rest != [] && !IsBlank(rest[0])
    ensures Run(limit, p, LineText(name, value) + rest) ==
            Continue(LineActs(name, value), |LineText(name, value)|, Run(limit, q, rest))
    ensures q == p.(nread := p.nread + |LineText(name, value)|, hs := q.hs, index := q.index, te := true,
                    flags := p.flags.(chunked := p.flags.chunked || CHUNKED in Says(Codings, value)))
    ensures Inv(q)
  {
    hide Run, Inv, LineText, LineActs, BeginsTe, Continue, Lowered, ValueText, Tokens, IsBlank, Says,
         CHUNKED, KEEP_ALIVE, CLOSE, UPGRADE, CONTENT_LENGTH, TRANSFER_ENCODING, CONNECTION, PROXY_CONNECTION;
    DistinctNames();
    NotLength();
    NotChunked();
    q := TextLine(limit, p, name, value, rest);
  }

  lemma NotLength()
    ensures TRANSFER_ENCODING != CONTENT_LENGTH && UPGRADE != CONTENT_LENGTH
  {
    FirstLetters();
    hide CONTENT_LENGTH, TRANSFER_ENCODING, UPGRADE;
  }

  lemma LineTextLength(name: Bytes, value: Bytes)
    ensures |LineText(name, value)| == |name| + |value| + 4
  {
  }

  lemma LineTextSplit(name: Bytes, value: Bytes, rest: Bytes)
    ensures LineText(name, value) + rest == name + ([':', ' '] + (value + [CR, LF] + rest))
  {
  }

  lemma LineActsAre(name: Bytes, value: Bytes)
    ensures [Open(Field)] + Takes(Field, name) + ([Close(Field)] + SpanActs(Value, value)) == LineActs(name, value)
  {
  }

  lemma DiscardInv(p: Parser)
    requires Inv(p) && p.state == Header(InField)
    ensures Inv(p.(nread := p.nread + 2, state := Header(DiscardWs)))
  {
  }

  // ---------------------------------------------------------------- the line that gives the length

  /** A parser that has read a length and is otherwise as it was. */
  predicate LengthRead(p: Parser, q: Parser, n: nat) {
    q == p.(nread := q.nread, state := q.state, hs := q.hs, index := q.index, length := n,
            flags := p.flags.(contentLength := true))
  }

  lemma LengthDigits(limit: nat, p: Parser, digits: Bytes) returns (q: Parser)
    requires Inv(p) && p.state == Header(DiscardWs) && p.hs.ContentLength? && !p.flags.contentLength
    requires digits != [] && Digits(digits) && Decimal(0, digits) <= MAX_LENGTH && p.nread + |digits| <= limit
    ensures Run(limit, p, digits) == Done(q, [Open(Value)] + Takes(Value, digits))
    ensures q.state == Header(InValue) && q.hs.ContentLengthNum? && q.nread == p.nread + |digits|
    ensures LengthRead(p, q, Decimal(0, digits))
  {
    hide Run, Step, Inv, ValueFold;
    var more := digits[1..];
    FirstDigit(limit, p, digits[0]);
    FirstDigitActs(limit, p, digits[0]);
    DecimalGrows(Digit(digits[0]), more);
    var p1 := Step(limit, p, digits[0]).p;
    ValueRun(limit, p1, more);
    LengthFold(p1, more);
    q := ValueFold(p1, more).p.(nread := p1.nread + |more|);
    RunOne(limit, p, digits[0]);
    assert digits == [digits[0]] + more;
    RunAppend(limit, p, [digits[0]], more);
    TakesCons(Value, digits);
    assert [Open(Value), Take(Value, digits[0])] + Takes(Value, more) == [Open(Value)] + Takes(Value, digits);
  }

  lemma LengthValue(limit: nat, p: Parser, digits: Bytes, rest: Bytes) returns (q: Parser)
    requires Inv(p) && p.state == Header(DiscardWs) && p.hs.ContentLength? && !p.flags.contentLength
    requires digits != [] && Digits(digits) && Decimal(0, digits) <= MAX_LENGTH
    requires p.nread + |digits| + 2 <= limit && rest != [] && !IsBlank(rest[0])
    ensures Run(limit, p, digits + [CR, LF] + rest) ==
            Continue(SpanActs(Value, digits), |digits| + 2, Run(limit, q, rest))
    ensures q.state == Header(FieldStart) && q.nread == p.nread + |digits| + 2 && LengthRead(p, q, Decimal(0, digits))
  {
    hide Run, Step, Inv, ValueFold, LineDone, Digits, Decimal, IsBlank, Takes;
    var p2 := LengthDigits(limit, p, digits);
    ValueEnd(limit, p2);
    RunAppend(limit, p, digits, [CR, LF]);
    var r := p2.(nread := p2.nread + 2, state := Header(ValueLws));
    Pending(limit, r, rest);
    RunAppend(limit, p, digits + [CR, LF], rest);
    q := LineDone(r);
    LengthDone(r);
    ContinueTwice(SpanActs(Value, digits), |digits| + 2, [], 0, Run(limit, q, rest));
    assert SpanActs(Value, digits) + [] == SpanActs(Value, digits);
  }

  lemma LengthDone(p: Parser)
    requires p.hs.ContentLengthNum?
    ensures LineDone(p) == p.(state := Header(FieldStart))
  {
  }

  lemma FirstDigitActs(limit: nat, p: Parser, ch: Byte)
    requires Inv(p) && p.state == Header(DiscardWs) && p.hs.ContentLength? && !p.flags.contentLength && IsNum(ch)
    requires p.nread + 1 <= limit
    ensures Step(limit, p, ch).Next? && Step(limit, p, ch).acts == [Open(Value), Take(Value, ch)]
  {
  }

  lemma LengthName()
    ensures Lowered(CONTENT_LENGTH) == CONTENT_LENGTH && Tokens(CONTENT_LENGTH) && |CONTENT_LENGTH| == 14
    ensures NameHs(CONTENT_LENGTH) == ContentLength && !BeginsTe(CONTENT_LENGTH)
  {
    var w := CONTENT_LENGTH;
    assert w == ['c', 'o', 'n', 't', 'e', 'n', 't', '-', 'l', 'e', 'n', 'g', 't', 'h'];
    assert Lowered(w) == w;
  }

  /** A Content-Length line, its name in any case, is read as its number. */
  lemma LengthLine(limit: nat, p: Parser, name: Bytes, digits: Bytes, rest: Bytes) returns (q: Parser)
    requires Inv(p) && p.state == Header(FieldStart) && !p.flags.contentLength && !p.flags.trailing
    requires Tokens(name) && Lowered(name) == CONTENT_LENGTH
    requires digits != [] && Digits(digits) && Decimal(0, digits) <= MAX_LENGTH
    requires p.nread + |LineText(name, digits)| <= limit && rest != [] && !IsBlank(rest[0])
    ensures Run(limit, p, LineText(name, digits) + rest) ==
            Continue(LineActs(name, digits), |LineText(name, digits)|, Run(limit, q, rest))
    ensures q.state == Header(FieldStart) && q.nread == p.nread + |LineText(name, digits)|
    ensures LengthRead(p, q, Decimal(0, digits)) && Inv(q)
  {
    hide Run, Step, Inv, SpanActs, LineText, LineActs, Takes, NameHs, BeginsTe, Continue, CONTENT_LENGTH, Lowered,
         Tokens, Digits, Decimal, IsBlank;
    LineTextLength(name, digits);
    LengthName();
    var p1 := NameRun(limit, p, name);
    ColonBlank(limit, p1);
    var p2 := p1.(nread := p1.nread + 2, state := Header(DiscardWs));
    assert Inv(p2) by { DiscardInv(p1); }
    q := LengthValue(limit, p2, digits, rest);
    var tail := digits + [CR, LF] + rest;
    RunAppend(limit, p, name, [':', ' '] + tail);
    RunAppend(limit, p1, [':', ' '], tail);
    LineTextSplit(name, digits, rest);
    LengthInvKept(p, q, Decimal(0, digits));
    var a, b, c := [Open(Field)] + Takes(Field, name), [Close(Field)], SpanActs(Value, digits);
    ContinueTwice(b, 2, c, |digits| + 2, Run(limit, q, rest));
    ContinueTwice(a, |name|, b + c, 2 + (|digits| + 2), Run(limit, q, rest));
    assert a + (b + c) == LineActs(name, digits) by { LineActsAre(name, digits); }
  }

  lemma LengthInvKept(p: Parser, q: Parser, n: nat)
    requires Inv(p) && p.state == Header(FieldStart) && LengthRead(p, q, n) && q.state == Header(FieldStart)
    requires n < NO_LENGTH && !p.flags.trailing
    ensures Inv(q)
  {
  }

  // ---------------------------------------------------------------- which lengths are taken

  /** How many digits a text begins with. */
  function Leading(bytes: Bytes): (k: nat)
    ensures k <= |bytes| && Digits(bytes[..k])
    decreases |bytes|
  {
    if bytes == [] || !IsNum(bytes[0]) then 0
    else
      var k := 1 + Leading(bytes[1..]);
      assert forall i :: 0 < i < k ==> bytes[..k][i] == bytes[1..][..k - 1][i - 1];
      k
  }

  lemma {:induction false} BlanksOnly(p: Parser, bytes: Bytes)
    requires p.hs.ContentLengthWs? && HeaderChars(bytes)
    ensures ValueFold(p, bytes) == if Spaces(bytes) then Ok(p) else Err(InvalidContentLength)
    decreases |bytes|
  {
    hide IsHeaderChar;
    if bytes != [] {
      SpacesTail(bytes);
      if bytes[0] == ' ' {
        BlanksOnly(p, bytes[1..]);
      }
    }
  }

  /** Digits, then blanks. */
  predicate LengthText(v: nat, bytes: Bytes) {
    var k := Leading(bytes);
    Spaces(bytes[k..]) && (k > 0 ==> Decimal(v, bytes[..k]) <= MAX_LENGTH)
  }

  lemma LeadingStep(v: nat, bytes: Bytes)
    requires bytes != [] && IsNum(bytes[0])
    ensures var k, more := Leading(bytes), v * 10 + Digit(bytes[0]);
            && k == 1 + Leading(bytes[1..]) && bytes[k..] == bytes[1..][k - 1..]
            && Decimal(v, bytes[..k]) == Decimal(more, bytes[1..][..k - 1])
  {
    hide IsNum;
    var k := Leading(bytes);
    assert bytes[..k][0] == bytes[0] && bytes[..k][1..] == bytes[1..][..k - 1];
  }

  lemma LeadingNone(bytes: Bytes)
    requires bytes == [] || !IsNum(bytes[0])
    ensures Leading(bytes) == 0 && bytes[0..] == bytes
  {
  }

  lemma NumByte(p: Parser, ch: Byte)
    requires p.hs.ContentLengthNum? && IsHeaderChar(ch)
    ensures ValueByte(p, ch) ==
            if ch == ' ' then Ok(p.(hs := ContentLengthWs))
            else if IsNum(ch) && p.length * 10 + Digit(ch) <= MAX_LENGTH then
              Ok(p.(length := p.length * 10 + Digit(ch)))
            else Err(InvalidContentLength)
  {
    hide IsHeaderChar;
  }

  lemma {:induction false} LengthFoldExact(p: Parser, bytes: Bytes)
    requires p.hs.ContentLengthNum? && HeaderChars(bytes) && p.length <= MAX_LENGTH
    ensures var k := Leading(bytes);
            ValueFold(p, bytes) ==
            if LengthText(p.length, bytes) then
              Ok(p.(length := Decimal(p.length, bytes[..k]), hs := if k < |bytes| then ContentLengthWs else p.hs))
            else Err(InvalidContentLength)
    decreases |bytes|
  {
    hide IsHeaderChar, ValueByte, IsNum, Digit, Spaces;
    if bytes == [] {
      LeadingNone(bytes);
      assert p.(length := p.length, hs := p.hs) == p;
      SpacesNone();
    } else {
      var ch, rest := bytes[0], bytes[1..];
      NumByte(p, ch);
      if IsNum(ch) {
        LeadingStep(p.length, bytes);
        DigitNoBlank(ch);
        var more := p.length * 10 + Digit(ch);
        if more <= MAX_LENGTH {
          LengthFoldExact(p.(length := more), rest);
        } else {
          DecimalGrows(more, rest[..Leading(rest)]);
        }
      } else {
        LeadingNone(bytes);
        if ch == ' ' {
          BlanksOnly(p.(hs := ContentLengthWs), rest);
          SpacesTail(bytes);
        } else {
          SpacesTail(bytes);
        }
      }
    }
  }

  lemma SpacesNone()
    ensures Spaces([])
  {
  }

  lemma DigitNoBlank(ch: Byte)
    requires IsNum(ch)
    ensures ch != ' '
  {
  }

  lemma DigitIsSmall(ch: Byte)
    requires IsNum(ch)
    ensures Digit(ch) <= 9
  {
  }

  lemma FirstOfLength(limit: nat, p: Parser, ch: Byte)
    requires Inv(p) && p.state == Header(DiscardWs) && p.hs.ContentLength? && p.nread + 1 <= limit
    requires !IsBlank(ch) && !IsLineEnd(ch)
    ensures !IsNum(ch) ==> Step(limit, p, ch) == Fail(InvalidContentLength)
    ensures IsNum(ch) && p.flags.contentLength ==> Step(limit, p, ch) == Fail(UnexpectedContentLength)
  {
    hide Inv, IsNum, IsBlank;
    HeaderMicro(p.(nread := p.nread + 1), DiscardWs, ch);
  }


  lemma RestOfLength(limit: nat, p: Parser, value: Bytes)
    requires Inv(p) && p.state == Header(DiscardWs) && p.hs.ContentLength? && !p.flags.contentLength
    requires value != [] && ValueText(value) && p.nread + |value| <= limit && IsNum(value[0])
    ensures var one, rest := Step(limit, p, value[0]), value[1..];
            && one.Next?
            && var r, k := Run(limit, one.p, rest), Leading(rest);
               if LengthText(Digit(value[0]), rest) then
                 && r.Done? && r.p.length == Decimal(Digit(value[0]), rest[..k]) && r.p.flags.contentLength
                 && r.p.state == Header(InValue)
               else r == Failed(InvalidContentLength)
  {
    hide Run, Step, Inv, ValueFold, IsHeaderChar, IsLineEnd, IsBlank, IsNum, Digit, LengthText, Decimal, ValueText;
    ListedText(value);
    FirstDigit(limit, p, value[0]);
    var q, rest := Step(limit, p, value[0]).p, value[1..];
    assert HeaderChars(rest);
    DigitIsSmall(value[0]);
    LengthFoldExact(q, rest);
    ValueRun(limit, q, rest);
  }


  /** Which values of a Content-Length header are taken: a digit at least, then blanks only, and a number below the
      conservative bound; anything else is refused, and a second length whatever it is. */
  lemma LengthValueExact(limit: nat, p: Parser, value: Bytes)
    requires Inv(p) && p.state == Header(DiscardWs) && p.hs.ContentLength?
    requires value != [] && ValueText(value) && p.nread + |value| <= limit
    ensures var r, k := Run(limit, p, value), Leading(value);
            if k > 0 && p.flags.contentLength then r == Failed(UnexpectedContentLength)
            else if k > 0 && LengthText(0, value) then
              r.Done? && r.p.length == Decimal(0, value[..k]) && r.p.flags.contentLength && r.p.state == Header(InValue)
            else r == Failed(InvalidContentLength)
  {
    hide Run, Step, Inv, ValueFold, IsHeaderChar, IsLineEnd, IsBlank, IsNum, Digit, Spaces, ValueText;
    var ch, rest := value[0], value[1..];
    TextFirst(value);
    FirstOfLength(limit, p, ch);
    assert value == [ch] + rest;
    RunAppend(limit, p, [ch], rest);
    RunOne(limit, p, ch);
    if IsNum(ch) {
      LeadingStep(0, value);
      if !p.flags.contentLength {
        RestOfLength(limit, p, value);
      }
    } else {
      LeadingNone(value);
    }
  }

  // ---------------------------------------------------------------- which other values are taken

  predicate TextValueHs(hs: HeaderState) { hs.General? || CodingHs(hs) || ConnectionHs(hs) }

  lemma TextByte(p: Parser, ch: Byte)
    requires TextValueHs(p.hs)
    ensures if IsHeaderChar(ch) then ValueByte(p, ch).Ok? && TextValueHs(ValueByte(p, ch).p.hs)
            else ValueByte(p, ch) == Err(InvalidHeaderToken)
  {
    hide IsHeaderChar, CodingByte, ConnectionByte;
    if CodingHs(p.hs) {
      CodingByteInv(p, ch);
    } else if ConnectionHs(p.hs) {
      ConnectionByteInv(p, ch);
    }
  }

  lemma {:induction false} TextFold(p: Parser, bytes: Bytes)
    requires TextValueHs(p.hs)
    ensures if HeaderChars(bytes) then ValueFold(p, bytes).Ok? else ValueFold(p, bytes) == Err(InvalidHeaderToken)
    decreases |bytes|
  {
    hide IsHeaderChar, ValueByte, TextValueHs;
    if bytes != [] {
      TextByte(p, bytes[0]);
      if IsHeaderChar(bytes[0]) {
        TextFold(ValueByte(p, bytes[0]).p, bytes[1..]);
        assert forall i :: 0 < i < |bytes| ==> bytes[i] == bytes[1..][i - 1];
      }
    }
  }

  lemma FirstText(limit: nat, p: Parser, ch: Byte)
    requires Inv(p) && p.state == Header(DiscardWs) && TextHs(p.hs)
    requires !IsLineEnd(ch) && !IsBlank(ch) && p.nread + 1 <= limit
    ensures Step(limit, p, ch).Next?
    ensures var q := Step(limit, p, ch).p;
            Inv(q) && q.state == Header(InValue) && q.nread == p.nread + 1 && TextValueHs(q.hs)
  {
    hide LengthInv, MatcherInv, OrSpace;
    var p1 := p.(nread := p.nread + 1);
    HeaderInvCount(p, DiscardWs, p.nread + 1);
    FirstValueByteInv(p1, DiscardWs, ch);
    ValueStartKept(FirstValueByte(p1, ch).p);
  }

  /** The value of any header but Content-Length is taken if and only if all its bytes but the first, which is not
      looked at, may stand in a header; otherwise it is refused. */
  lemma ValueExactly(limit: nat, p: Parser, value: Bytes)
    requires Inv(p) && p.state == Header(DiscardWs) && TextHs(p.hs) && value != [] && InLine(value)
    requires !IsBlank(value[0]) && p.nread + |value| <= limit
    ensures var out := Run(limit, p, value);
            if HeaderChars(value[1..]) then out.Done? && out.p.state == Header(InValue)
            else out == Failed(InvalidHeaderToken)
  {
    hide Run, Step, Inv, ValueFold, IsHeaderChar, IsLineEnd, IsBlank, TextHs, HeaderChars;
    var ch, rest := value[0], value[1..];
    FirstText(limit, p, ch);
    var q := Step(limit, p, ch).p;
    TextFold(q, rest);
    ValueRun(limit, q, rest);
    RunOne(limit, p, ch);
    assert value == [ch] + rest;
    RunAppend(limit, p, [ch], rest);
  }

  // ---------------------------------------------------------------- blanks and folded lines

  /** Any blanks may come before a value. */
  lemma {:induction false} BlanksSkipped(limit: nat, p: Parser, blanks: Bytes)
    requires p.state == Header(DiscardWs) && p.nread + |blanks| <= limit
    requires forall i :: 0 <= i < |blanks| ==> IsBlank(blanks[i])
    ensures Run(limit, p, blanks) == Done(p.(nread := p.nread + |blanks|), [])
    decreases |blanks|
  {
    hide Step, IsBlank;
    if blanks == [] {
      assert p.(nread := p.nread) == p;
    } else {
      BlankStep(limit, p, blanks[0]);
      BlanksSkipped(limit, p.(nread := p.nread + 1), blanks[1..]);
    }
  }

  lemma BlankStep(limit: nat, p: Parser, ch: Byte)
    requires p.state == Header(DiscardWs) && p.nread + 1 <= limit && IsBlank(ch)
    ensures Step(limit, p, ch) == Next(p.(nread := p.nread + 1), [])
  {
  }

  /** Or a line end that is followed by a blank. */
  lemma BlankLineSkipped(limit: nat, p: Parser, blank: Byte)
    requires p.state == Header(DiscardWs) && p.nread + 3 <= limit && IsBlank(blank)
    ensures Run(limit, p, [CR, LF] + [blank]) == Done(p.(nread := p.nread + 3), [])
  {
    EmptyEnd(limit, p);
    var q := p.(nread := p.nread + 2, state := Header(DiscardLws));
    assert Step(limit, q, blank) == Next(p.(nread := p.nread + 3), []);
    hide Run, Step;
    RunOne(limit, q, blank);
    RunAppend(limit, p, [CR, LF], [blank]);
  }

  /** What a folded line makes of the value matcher: only between the elements of a list it goes on where it was. */
  function FoldHs(hs: HeaderState): HeaderState {
    if LengthHs(hs) then ContentLengthWs
    else if hs.TeTokenStart? || hs.ConnTokenStart? then hs
    else General
  }

  /** The parser after the blank that a folded line begins with. */
  function Folded(p: Parser): Parser {
    p.(nread := p.nread + 1, state := Header(InValue), index := 0, hs := FoldHs(p.hs))
  }

  lemma FoldStep(limit: nat, p: Parser, blank: Byte)
    requires p.state == Header(ValueLws) && IsBlank(blank) && p.nread + 1 <= limit && ValueHs(p.hs)
    ensures Step(limit, p, blank) == Next(Folded(p), [Open(Value), Take(Value, blank)])
  {
    hide IsBlank, Micro, StepFieldStart, StepField, StepDiscardWs, StepDiscardLws, StepValue, StepHeadersAlmostDone,
         StepHeadersDone, Loop;
    var r := p.(nread := p.nread + 1);
    var start := r.(hs := if r.hs.ContentLengthNum? then ContentLengthWs else r.hs, state := Header(ValueStart));
    HeaderMicro(r, ValueLws, blank);
    HeaderMicro(start, ValueStart, blank);
    LoopAgain(r, blank, start, []);
    LoopOnce(start, blank);
  }

  lemma FoldInv(p: Parser)
    requires Inv(p) && p.state == Header(ValueLws)
    ensures ValueHs(p.hs) && Inv(Folded(p))
  {
  }

  lemma FoldedSpan(blank: Byte, text: Bytes)
    ensures [Open(Value), Take(Value, blank)] + (Takes(Value, text) + [Close(Value)]) == SpanActs(Value, [blank] + text)
  {
    hide Takes;
    TakesCons(Value, [blank] + text);
    assert ([blank] + text)[1..] == text;
  }

  /** A line that begins with a blank goes on with the value of the line before, in a span of its own. */
  lemma FoldedLine(limit: nat, p: Parser, blank: Byte, text: Bytes)
    requires Inv(p) && p.state == Header(ValueLws) && IsBlank(blank) && InLine(text)
    requires p.nread + 1 + |text| + 2 <= limit
    ensures var out := Run(limit, p, [blank] + (text + [CR, LF]));
            match ValueFold(Folded(p), text)
            case Ok(r) => out == Done(r.(nread := p.nread + |text| + 3, state := Header(ValueLws)),
                                      SpanActs(Value, [blank] + text))
            case Err(e) => out == Failed(e)
            case Bug => false
  {
    hide Run, Step, Inv, ValueFold, Takes, IsBlank, IsLineEnd, SpanActs, Folded, InLine;
    FoldInv(p);
    FoldStep(limit, p, blank);
    var p1 := Folded(p);
    assert p1.state == Header(InValue) && p1.nread == p.nread + 1 by { FoldedState(p); }
    ValueRun(limit, p1, text);
    RunOne(limit, p, blank);
    RunAppend(limit, p, [blank], text + [CR, LF]);
    RunAppend(limit, p1, text, [CR, LF]);
    if ValueFold(p1, text).Ok? {
      ValueEnd(limit, ValueFold(p1, text).p.(nread := p1.nread + |text|));
      FoldedSpan(blank, text);
    }
  }

  lemma FoldedState(p: Parser)
    ensures Folded(p).state == Header(InValue) && Folded(p).nread == p.nread + 1
  {
  }

  /** The bytes that may follow on the line. */
  lemma FoldedText(text: Bytes)
    requires Listed(text)
    ensures InLine(text) && HeaderChars(text)
  {
    hide IsHeaderChar, IsLineEnd;
  }

  /** A word that the line before ended with is not heard after all, whatever follows. */
  lemma FoldForgets(limit: nat, p: Parser, blank: Byte, text: Bytes) returns (q: Parser)
    requires Inv(p) && p.state == Header(ValueLws) && IsBlank(blank) && Listed(text)
    requires !LengthHs(p.hs) && !p.hs.TeTokenStart? && !p.hs.ConnTokenStart?
    requires p.nread + |text| + 3 <= limit
    ensures Run(limit, p, [blank] + (text + [CR, LF])) == Done(q, SpanActs(Value, [blank] + text))
    ensures q == p.(nread := p.nread + |text| + 3, index := 0, hs := General) && LineFlags(q) == p.flags
  {
    hide Run, Inv, IsBlank, SpanActs, Listed, IsHeaderChar, InLine, ValueFold;
    FoldedText(text);
    FoldedLine(limit, p, blank, text);
    ValueFoldGeneral(Folded(p), text);
    q := p.(nread := p.nread + |text| + 3, index := 0, hs := General);
  }

  /** After a comma that was seen the list goes on with the words that the folded line says. */
  lemma FoldContinues(limit: nat, p: Parser, l: List, blank: Byte, text: Bytes) returns (q: Parser)
    requires Inv(p) && p.state == Header(ValueLws) && IsBlank(blank) && Listed(text) && p.hs == StartHs(l)
    requires p.nread + |text| + 3 <= limit
    ensures Run(limit, p, [blank] + (text + [CR, LF])) == Done(q, SpanActs(Value, [blank] + text))
    ensures var w := WalkFrom(l, text);
            LineFlags(q) == Heard(l, p.flags, w.said + if w.end.Word? then {w.end.word} else {})
    ensures q == p.(nread := p.nread + |text| + 3, index := q.index, hs := q.hs, flags := q.flags)
  {
    hide Run, Inv, IsBlank, SpanActs, Listed, IsHeaderChar, InLine, ValueFold, WalkFrom, Heard, LineFlags;
    FoldedText(text);
    FoldedLine(limit, p, blank, text);
    var p1 := Folded(p);
    assert p1 == p.(nread := p.nread + 1, state := Header(InValue), index := 0);
    var r := WalkFromFold(l, p1, text);
    EndFlags(l, p1, r, WalkFrom(l, text));
    q := r.(nread := p.nread + |text| + 3, state := Header(ValueLws));
    FlagsElsewhere(r, q);
    hide EndsIn, AddSaid;
  }

  /** A length may only be followed by blanks. */
  lemma FoldedLength(limit: nat, p: Parser, blank: Byte, text: Bytes)
    requires Inv(p) && p.state == Header(ValueLws) && IsBlank(blank) && Listed(text) && LengthHs(p.hs)
    requires p.nread + |text| + 3 <= limit
    ensures Run(limit, p, [blank] + (text + [CR, LF])) ==
            if Spaces(text) then
              Done(p.(nread := p.nread + |text| + 3, index := 0, hs := ContentLengthWs),
                   SpanActs(Value, [blank] + text))
            else Failed(InvalidContentLength)
  {
    hide Run, Inv, IsBlank, SpanActs, Listed, IsHeaderChar, InLine, ValueFold, Spaces;
    FoldedText(text);
    FoldedLine(limit, p, blank, text);
    BlanksOnly(Folded(p), text);
  }
}
