/** Messages are completed as they are begun: the parser is inside one message at most. */
module HttpMessages {
  import opened HttpSyntax
  import opened HttpMachine
  import opened HttpInvariant
  import opened HttpRun

  /** The number of messages that have been begun and not completed in a state. */
  function Unfinished(s: State): nat { if BetweenMessages(s) || s.StartReqOrRes? then 0 else 1 }

  function CountAct(acts: seq<Act>, n: Note): nat
    decreases |acts|
  {
    if acts == [] then 0 else (if acts[0] == Tell(n) then 1 else 0) + CountAct(acts[1..], n)
  }

  lemma {:induction false} CountAppend(a: seq<Act>, b: seq<Act>, n: Note)
    ensures CountAct(a + b, n) == CountAct(a, n) + CountAct(b, n)
    decreases |a|
  {
    if a == [] {
      assert a + b == b;
    } else {
      assert (a + b)[0] == a[0] && (a + b)[1..] == a[1..] + b;
      CountAppend(a[1..], b, n);
    }
  }

  /** Acts that lead from one state to another begin and complete messages as the states say. */
  predicate Pairs(from: State, acts: seq<Act>, to: State) {
    CountAct(acts, MessageBegin) + Unfinished(from) == CountAct(acts, MessageComplete) + Unfinished(to)
  }

  predicate Paired(p: Parser, out: Out) {
    out.Next? || out.Again? || out.Halt? ==> Pairs(p.state, out.acts, out.p.state)
  }

  /** None of the acts begins or completes a message. */
  predicate Quiet(acts: seq<Act>) {
    forall i :: 0 <= i < |acts| ==> acts[i] != Tell(MessageBegin) && acts[i] != Tell(MessageComplete)
  }

  lemma {:induction false} QuietCounts(acts: seq<Act>)
    requires Quiet(acts)
    ensures CountAct(acts, MessageBegin) == 0 && CountAct(acts, MessageComplete) == 0
    decreases |acts|
  {
    if acts != [] {
      QuietCounts(acts[1..]);
    }
  }

  /** A pass inside a message that neither begins nor completes one. */
  predicate Inside(out: Out) {
    out.Next? || out.Again? || out.Halt? ==> Quiet(out.acts) && Unfinished(out.p.state) == 1
  }

  lemma InsidePaired(p: Parser, out: Out)
    requires Inside(out) && Unfinished(p.state) == 1
    ensures Paired(p, out)
  {
    if out.Next? || out.Again? || out.Halt? {
      QuietCounts(out.acts);
    }
  }

  lemma OneCount(n: Note)
    ensures CountAct([Tell(n)], n) == 1
    ensures forall m: Note :: m != n ==> CountAct([Tell(n)], m) == 0
    ensures forall m: Note :: CountAct([], m) == 0
  {
    assert [Tell(n)][1..] == [];
  }

  lemma StartPaired(p: Parser, ch: Byte)
    requires p.state.Dead? || p.state.StartReqOrRes? || p.state.ResOrRespH? || p.state.StartRes? || p.state.StartReq?
    ensures Paired(p, StepStart(p, ch))
  {
    OneCount(MessageBegin);
    hide CountAct, FirstMethod;
  }

  lemma StatusInside(p: Parser, at: StatusPos, ch: Byte)
    requires p.state == StatusLine(at)
    ensures Inside(StepStatusLine(p, at, ch))
  {
    hide Digit, IsNum;
  }

  lemma MethodInside(p: Parser, ch: Byte)
    requires p.state.ReqMethod?
    ensures Inside(StepMethod(p, ch))
  {
    hide MethodName, OtherMethod;
  }

  lemma UrlInside(p: Parser, ch: Byte)
    ensures p.state.ReqSpacesBeforeUrl? ==> Inside(StepBeforeUrl(p, ch))
    ensures p.state.InUrl? ==> Inside(StepUrl(p, p.state.url, ch))
  {
    hide UrlChar;
  }

  lemma RequestInside(p: Parser, at: RequestPos, ch: Byte)
    requires p.state == RequestLine(at)
    ensures Inside(StepRequestLine(p, at, ch))
  {
    hide Digit, IsNum;
  }

  lemma FieldInside(p: Parser, ch: Byte)
    requires p.state.Header?
    ensures Inside(StepFieldStart(p, ch)) && Inside(StepField(p, ch))
  {
    hide FieldByte, IsToken, Lower;
    if IsToken(ch) {
      FieldByteState(p, ch);
    }
  }

  lemma FieldByteState(p: Parser, ch: Byte)
    requires IsToken(ch)
    ensures FieldByte(p, ch).state == p.state
  {
    hide IsToken;
  }

  lemma ValueByteState(p: Parser, ch: Byte)
    ensures ValueByte(p, ch).Ok? ==> ValueByte(p, ch).p.state == p.state
  {
    hide OrSpace, IsToken, IsBlank, IsNum;
  }

  lemma ValueStartInside(p: Parser, ch: Byte)
    ensures Inside(StepValueStart(p, ch))
  {
    hide FirstValueByte;
  }

  lemma ValueInside(p: Parser, ch: Byte)
    requires p.state.Header?
    ensures Inside(StepValue(p, ch))
  {
    hide ValueByte, IsHeaderChar;
    ValueByteState(p, ch);
  }

  lemma BlankInside(p: Parser, ch: Byte)
    requires p.state.Header?
    ensures Inside(StepDiscardWs(p, ch)) && Inside(StepDiscardLws(p, ch)) && Inside(StepValueLws(p, ch))
  {
    ValueStartInside(p, ch);
    hide StepValueStart, LineFlags, IsBlank;
  }

  lemma HeadersAlmostDoneInside(p: Parser, ch: Byte)
    requires p.state.Header?
    ensures Inside(StepHeadersAlmostDone(p, ch))
  {
  }

  lemma CompleteUnfinished(p: Parser)
    ensures Unfinished(Complete(p).state) == 0
  {
    hide ShouldKeepAlive;
  }

  lemma HeadersDonePaired(p: Parser, ch: Byte)
    requires p.state == Header(HeadersDone)
    ensures Paired(p, StepHeadersDone(p, ch))
  {
    OneCount(MessageComplete);
    CompleteUnfinished(p.(nread := 0));
    hide Complete, NeedsEof, CountAct;
  }

  lemma HeaderPaired(p: Parser, at: HeaderPos, ch: Byte)
    requires p.state == Header(at)
    ensures Paired(p, StepHeader(p, at, ch))
  {
    FieldInside(p, ch);
    ValueStartInside(p, ch);
    ValueInside(p, ch);
    BlankInside(p, ch);
    HeadersAlmostDoneInside(p, ch);
    if at.HeadersDone? {
      HeadersDonePaired(p, ch);
    } else {
      hide StepFieldStart, StepField, StepValueStart, StepValue, StepDiscardWs, StepDiscardLws, StepValueLws,
           StepHeadersAlmostDone, StepHeadersDone, Paired;
      InsidePaired(p, StepHeader(p, at, ch));
    }
  }

  lemma BodyPaired(p: Parser, ch: Byte)
    ensures p.state.BodyIdentity? ==> Inside(StepBodyIdentity(p, ch))
    ensures p.state.BodyIdentityEof? ==> Inside(Next(p, [Take(Body, ch)]))
    ensures p.state.MessageDone? ==> Paired(p, StepMessageDone(p))
  {
    OneCount(MessageComplete);
    CompleteUnfinished(p);
    hide Complete, CountAct;
  }

  lemma ChunkInside(p: Parser, at: ChunkPos, ch: Byte)
    requires p.state == Chunk(at)
    ensures Inside(StepChunk(p, at, ch))
  {
    hide Unhex;
  }

  lemma MicroPaired(p: Parser, ch: Byte)
    ensures Paired(p, Micro(p, ch))
  {
    hide StepStatusLine, StepMethod, StepBeforeUrl, StepUrl, StepRequestLine, StepHeader, StepChunk, StepBodyIdentity,
         StepMessageDone, StepStart, Paired, Inside;
    match p.state {
      case StatusLine(at) => StatusInside(p, at, ch); InsidePaired(p, Micro(p, ch));
      case ReqMethod => MethodInside(p, ch); InsidePaired(p, Micro(p, ch));
      case ReqSpacesBeforeUrl => UrlInside(p, ch); InsidePaired(p, Micro(p, ch));
      case InUrl(_) => UrlInside(p, ch); InsidePaired(p, Micro(p, ch));
      case RequestLine(at) => RequestInside(p, at, ch); InsidePaired(p, Micro(p, ch));
      case Header(at) => HeaderPaired(p, at, ch);
      case Chunk(at) => ChunkInside(p, at, ch); InsidePaired(p, Micro(p, ch));
      case BodyIdentity => BodyPaired(p, ch); InsidePaired(p, Micro(p, ch));
      case BodyIdentityEof => BodyPaired(p, ch); InsidePaired(p, Micro(p, ch));
      case MessageDone => BodyPaired(p, ch);
      case _ => StartPaired(p, ch);
    }
  }

  lemma PairsOn(a: State, acts: seq<Act>, b: State, more: seq<Act>, c: State)
    requires Pairs(a, acts, b) && Pairs(b, more, c)
    ensures Pairs(a, acts + more, c)
  {
    CountAppend(acts, more, MessageBegin);
    CountAppend(acts, more, MessageComplete);
  }

  lemma {:induction false} LoopPaired(p: Parser, ch: Byte)
    ensures Paired(p, Loop(p, ch))
    decreases Rank(p.state)
  {
    hide Micro, Pairs, Rank;
    MicroPaired(p, ch);
    var out := Micro(p, ch);
    if out.Again? && Rank(out.p.state) < Rank(p.state) {
      LoopPaired(out.p, ch);
      var rest := Loop(out.p, ch);
      if rest.Next? || rest.Halt? {
        PairsOn(p.state, out.acts, out.p.state, rest.acts, rest.p.state);
      }
    }
  }

  lemma StepPaired(limit: nat, p: Parser, ch: Byte)
    ensures Paired(p, Step(limit, p, ch))
  {
    LoopPaired(Count(p), ch);
    hide Loop, Pairs;
  }

  /** Over every run each message that is begun is completed once, but for the one the parser is in at the end;
      a run that stops early stops between messages. */
  lemma {:induction false} RunPairs(limit: nat, p: Parser, data: Bytes)
    ensures var r := Run(limit, p, data); r.Done? || r.Stopped? ==> Pairs(p.state, r.acts, r.p.state)
    decreases |data|
  {
    hide Step;
    if data == [] {
      OneCount(MessageBegin);
    } else {
      StepPaired(limit, p, data[0]);
      var out, rest := Step(limit, p, data[0]), data[1..];
      if out.Next? {
        RunPairs(limit, out.p, rest);
        var r := Run(limit, out.p, rest);
        if r.Done? || r.Stopped? {
          PairsOn(p.state, out.acts, out.p.state, r.acts, r.p.state);
        }
      }
    }
  }

  /** From the start on: all messages begun have been completed, but for the one the parser is in. */
  lemma EndPairs(limit: nat, kind: Kind, data: Bytes)
    requires Run(limit, Init(kind), data).Done?
    ensures var r := Run(limit, Init(kind), data);
            CountAct(r.acts, MessageBegin) == CountAct(r.acts, MessageComplete) + Unfinished(r.p.state)
  {
    RunPairs(limit, Init(kind), data);
    hide Run;
  }
}
