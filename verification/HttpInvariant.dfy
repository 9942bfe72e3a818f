/** What every reachable parser state satisfies: one framing mode at a time (section 3.3.3 of RFC 7230),
    no internal assertion violated, and the spans it reports open and close in step with its state. */
module HttpInvariant {
  import opened HttpSyntax
  import opened HttpMachine

  // ---------------------------------------------------------------- framing

  predicate InStartLine(s: State) {
    s.ReqMethod? || s.ReqSpacesBeforeUrl? || s.InUrl? || s.RequestLine? || s.StatusLine? || s.ResOrRespH?
  }

  predicate LengthHs(hs: HeaderState) { hs.ContentLengthNum? || hs.ContentLengthWs? }

  predicate ValueHs(hs: HeaderState) { hs.General? || LengthHs(hs) || CodingHs(hs) || ConnectionHs(hs) }

  predicate TeHs(hs: HeaderState) { hs.TransferEncoding? || CodingHs(hs) }

  /** The name matcher and the value matcher never see each other's states. */
  predicate MatcherInv(p: Parser, at: HeaderPos) {
    match at
    case FieldStart => true
    case HeadersAlmostDone => true
    case HeadersDone => true
    case InField => FieldHs(p.hs) && (TeHs(p.hs) ==> p.te)
    case DiscardWs => FieldHs(p.hs) && (TeHs(p.hs) ==> p.te)
    case DiscardWsAlmostDone => FieldHs(p.hs) && (TeHs(p.hs) ==> p.te)
    case DiscardLws => FieldHs(p.hs) && (TeHs(p.hs) ==> p.te)
    case _ => ValueHs(p.hs) && (TeHs(p.hs) ==> p.te) && (LengthHs(p.hs) ==> p.flags.contentLength)
  }

  predicate LengthInv(p: Parser) {
    && !p.kind.Both?
    && p.length <= NO_LENGTH
    && (p.flags.chunked ==> p.te)
    && (if p.flags.trailing then p.flags.chunked && p.length < NO_LENGTH
        else p.flags.contentLength <==> p.length < NO_LENGTH)
  }

  predicate HeaderInv(p: Parser, at: HeaderPos) {
    && LengthInv(p)
    && MatcherInv(p, at)
    && (at.HeadersDone? ==> !p.flags.trailing && !(p.te && p.flags.contentLength))
  }

  predicate ChunkInv(p: Parser, at: ChunkPos) {
    && !p.kind.Both? && p.te && p.flags.chunked && !p.flags.contentLength && !p.flags.trailing
    && (at.SizeStart? ==> p.nread == 0)
    && (!at.SizeStart? && !at.DataDone? ==> p.length < NO_LENGTH)
    && (at.InData? ==> p.length > 0)
    && (at.DataAlmostDone? ==> p.length == 0)
  }

  /** The invariant of a parser that has reported no error. */
  predicate Inv(p: Parser) {
    && p.length <= NO_LENGTH
    && (InStartLine(p.state) ==> p.flags == NO_FLAGS && !p.te && p.length == NO_LENGTH)
    && match p.state
       case Dead => !p.kind.Both?
       case StartReqOrRes => true
       case ResOrRespH => true
       case StartRes => p.kind.Response?
       case StartReq => p.kind.Request?
       case StatusLine(_) => p.kind.Response?
       case ReqMethod => p.kind.Request? && 1 <= p.index <= |MethodName(p.verb)|
       case ReqSpacesBeforeUrl => p.kind.Request?
       case InUrl(_) => p.kind.Request?
       case RequestLine(_) => p.kind.Request?
       case Header(at) => HeaderInv(p, at)
       case Chunk(at) => ChunkInv(p, at)
       case BodyIdentity =>
         !p.kind.Both? && p.flags.contentLength && !p.flags.chunked && !p.te && 0 < p.length < NO_LENGTH
       case BodyIdentityEof => p.kind.Response? && !p.flags.chunked
       case MessageDone => !p.kind.Both?
  }

  // ---------------------------------------------------------------- spans

  /** Which span is being reported; `Off(true)` when a body span was the last thing reported. */
  datatype Mark = On(span: Span) | Off(afterBody: bool)

  /** The span that must be open in a state, also between two calls. */
  function EntryMark(s: State): Mark {
    match s
    case Header(InField) => On(Field)
    case Header(InValue) => On(Value)
    case InUrl(_) => On(Url)
    case StatusLine(ResStatus) => On(Status)
    case _ => Off(false)
  }

  predicate InBody(s: State) {
    match s
    case Chunk(at) => at.InData? || at.DataAlmostDone?
    case BodyIdentity => true
    case BodyIdentityEof => true
    case _ => false
  }

  predicate Allowed(s: State, m: Mark) {
    if EntryMark(s).On? then m == EntryMark(s)
    else if InBody(s) then m == Off(false) || m == On(Body)
    else if s == Header(HeadersDone) then m == Off(false)
    else m.Off?
  }

  predicate Legal(m: Mark, act: Act) {
    match act
    case Open(s) => m.Off?
    case Take(s, _) => m == On(s) || (s.Body? && m == Off(false))
    case Close(s) => m == On(s) || (s.Body? && m.Off?)
    case Tell(_) => m.Off?
  }

  function After(m: Mark, act: Act): Mark {
    match act
    case Open(s) => On(s)
    case Take(s, _) => On(s)
    case Close(s) => if m.On? then Off(s.Body?) else m
    case Tell(_) => Off(false)
  }

  predicate LegalAll(m: Mark, acts: seq<Act>)
    decreases |acts|
  {
    acts == [] || (Legal(m, acts[0]) && LegalAll(After(m, acts[0]), acts[1..]))
  }

  function AfterAll(m: Mark, acts: seq<Act>): Mark
    decreases |acts|
  {
    if acts == [] then m else AfterAll(After(m, acts[0]), acts[1..])
  }

  lemma {:induction false} LegalAppend(m: Mark, a: seq<Act>, b: seq<Act>)
    ensures LegalAll(m, a + b) <==> LegalAll(m, a) && LegalAll(AfterAll(m, a), b)
    ensures AfterAll(m, a + b) == AfterAll(AfterAll(m, a), b)
    decreases |a|
  {
    if a == [] {
      assert a + b == b;
    } else {
      assert (a + b)[1..] == a[1..] + b;
      LegalAppend(After(m, a[0]), a[1..], b);
    }
  }

  // ---------------------------------------------------------------- preservation

  /** The acts of one pass, which are at most two, are legal and leave the mark the new state allows. */
  predicate Reports(m: Mark, acts: seq<Act>, s: State) {
    if acts == [] then Allowed(s, m)
    else if |acts| == 1 then Legal(m, acts[0]) && Allowed(s, After(m, acts[0]))
    else |acts| == 2 && Legal(m, acts[0]) && Legal(After(m, acts[0]), acts[1])
         && Allowed(s, After(After(m, acts[0]), acts[1]))
  }

  lemma ReportsLegal(m: Mark, acts: seq<Act>, s: State)
    requires Reports(m, acts, s)
    ensures LegalAll(m, acts) && Allowed(s, AfterAll(m, acts))
  {
    hide Legal, After, Allowed;
    if |acts| == 2 {
      var rest := acts[1..];
      assert rest[0] == acts[1] && rest[1..] == [];
      assert LegalAll(After(m, acts[0]), rest);
      assert AfterAll(After(m, acts[0]), rest) == After(After(m, acts[0]), acts[1]);
    } else if |acts| == 1 {
      assert acts[1..] == [];
    }
  }

  predicate BetweenMessages(s: State) { s.Dead? || s.StartReq? || s.StartRes? }

  /** A pass takes no byte but the one at hand, and takes it last unless it closes the span with it;
      a pass that ends inside a span has taken the byte exactly when it consumes it. */
  predicate Timed(m: Mark, acts: seq<Act>, ch: Byte, consumed: bool) {
    if acts == [] then consumed ==> m.Off?
    else if |acts| == 1 then
      match acts[0]
      case Take(_, b) => b == ch && consumed
      case Open(_) => !consumed
      case _ => true
    else
      && |acts| == 2
      && match acts[1]
         case Take(_, b) => b == ch && consumed && acts[0].Open?
         case Close(_) => acts[0].Open? || (acts[0].Take? && acts[0].byte == ch)
         case _ => false
  }

  /** One pass of the switch keeps the invariant, violates no assertion, reports in step with the state,
      and when it looks at the same byte again does so with a lower rank. */
  predicate Sound(p: Parser, ch: Byte, m: Mark, out: Out) {
    match out
    case Broken => false
    case Fail(_) => true
    case Next(q, acts) =>
      && Inv(q) && q.state != Header(HeadersDone) && q.nread <= p.nread
      && Reports(m, acts, q.state) && Timed(m, acts, ch, true)
    case Halt(q, acts) =>
      && Inv(q) && BetweenMessages(q.state) && q.nread <= p.nread
      && Reports(m, acts, q.state) && Timed(m, acts, ch, true)
    case Again(q, acts) =>
      && Inv(q) && q.nread <= p.nread && !q.state.Chunk? && Reports(m, acts, q.state) && Timed(m, acts, ch, false)
      && Rank(q.state) < Rank(p.state)
  }

  /** What holds inside the switch: as `Inv`, but the byte at hand has been counted already. */
  predicate Counted(p: Parser) {
    if p.state == Chunk(SizeStart) then p.nread == 1 && Inv(p.(nread := 0)) else Inv(p)
  }

  lemma FirstByteSound(p: Parser, ch: Byte, m: Mark)
    requires Inv(p) && m.Off? && (p.state.Dead? || p.state.ResOrRespH?)
    ensures Sound(p, ch, m, StepStart(p, ch))
  {
    hide FirstMethod;
    assert |MethodName(HEAD)| == 4;
    hide MethodName;
  }

  lemma BeginSound(p: Parser, ch: Byte, m: Mark)
    requires Inv(p) && m.Off? && (p.state.StartReqOrRes? || p.state.StartRes? || p.state.StartReq?)
    ensures Sound(p, ch, m, StepStart(p, ch))
  {
    NameFits(FirstMethod(ch).1);
    NameLong(FirstMethod(ch).1);
    hide FirstMethod, MethodName;
  }

  lemma StartSound(p: Parser, ch: Byte, m: Mark)
    requires Inv(p) && m.Off?
    requires p.state.Dead? || p.state.StartReqOrRes? || p.state.ResOrRespH? || p.state.StartRes? || p.state.StartReq?
    ensures Sound(p, ch, m, StepStart(p, ch))
  {
    hide *;
    if p.state.Dead? || p.state.ResOrRespH? {
      FirstByteSound(p, ch, m);
    } else {
      BeginSound(p, ch, m);
    }
  }

  /** A byte is consumed and nothing is reported. */
  lemma SilentSound(p: Parser, ch: Byte, m: Mark, q: Parser)
    requires Inv(q) && q.state != Header(HeadersDone) && q.nread <= p.nread && m.Off? && Allowed(q.state, m)
    ensures Sound(p, ch, m, Next(q, []))
  {
    hide Inv, Allowed;
  }

  predicate StatusText(at: StatusPos) { at.ResStatusStart? || at.ResStatus? }

  lemma StatusInv(p: Parser, at: StatusPos, q: Parser)
    requires Inv(p) && p.state.StatusLine? && q.state == StatusLine(at) && !at.ResStatus?
    requires q == p.(state := q.state, status := q.status, major := q.major, minor := q.minor)
    ensures Inv(q) && forall m: Mark :: m.Off? ==> Allowed(q.state, m)
  {
  }

  lemma StatusLineSound(p: Parser, at: StatusPos, ch: Byte, m: Mark)
    requires Inv(p) && p.state == StatusLine(at) && m.Off? && !StatusText(at) && !at.ResStatusCode?
    ensures Sound(p, ch, m, StepStatusLine(p, at, ch))
  {
    FieldStartInv(p);
    assert Allowed(Header(FieldStart), m);
    hide Digit, IsNum, Inv, Allowed, Sound, InStartLine;
    var out := StepStatusLine(p, at, ch);
    if out.Next? {
      if out.p.state.StatusLine? {
        StatusInv(p, out.p.state.status, out.p);
      }
      SilentSound(p, ch, m, out.p);
    } else {
      FailSound(p, ch, m, out);
    }
  }

  lemma FailSound(p: Parser, ch: Byte, m: Mark, out: Out)
    requires out.Fail?
    ensures Sound(p, ch, m, out)
  {
  }

  lemma StatusTextSound(p: Parser, at: StatusPos, ch: Byte, m: Mark)
    requires Inv(p) && p.state == StatusLine(at) && Allowed(p.state, m) && (StatusText(at) || at.ResStatusCode?)
    ensures Sound(p, ch, m, StepStatusLine(p, at, ch))
  {
    FieldStartInv(p);
    hide Digit, IsNum, LengthInv, MatcherInv;
  }

  lemma StatusSound(p: Parser, at: StatusPos, ch: Byte, m: Mark)
    requires Inv(p) && p.state == StatusLine(at) && Allowed(p.state, m)
    ensures Sound(p, ch, m, StepStatusLine(p, at, ch))
  {
    hide Sound, Inv, StepStatusLine;
    if StatusText(at) || at.ResStatusCode? {
      StatusTextSound(p, at, ch, m);
    } else {
      StatusLineSound(p, at, ch, m);
    }
  }

  lemma FieldStartInv(p: Parser)
    requires !p.kind.Both? && p.flags == NO_FLAGS && !p.te && p.length == NO_LENGTH
    ensures Inv(p.(state := Header(FieldStart)))
  {
  }

  lemma MethodSound(p: Parser, ch: Byte, m: Mark)
    requires Inv(p) && p.state.ReqMethod? && m.Off?
    ensures Sound(p, ch, m, StepMethod(p, ch))
  {
    hide MethodName, OtherMethod;
    OtherMethodFits(p.verb, p.index, ch);
    NameFits(p.verb);
  }

  lemma NameFits(v: Method)
    ensures |MethodName(v)| <= 11
  {
  }

  lemma NameLong(m: Method)
    ensures |MethodName(m)| >= if m.GET? || m.PUT? || m.ACL? then 3
            else if m.HEAD? || m.POST? || m.COPY? || m.LOCK? || m.MOVE? || m.BIND? || m.LINK? then 4 else 5
  {
  }

  lemma OtherMethodFits(v: Method, i: nat, ch: Byte)
    ensures OtherMethod(v, i, ch).0 ==> i < |MethodName(OtherMethod(v, i, ch).1)|
  {
    NameLong(OtherMethod(v, i, ch).1);
    hide MethodName;
  }

  lemma UrlSound(p: Parser, ch: Byte, m: Mark)
    requires Inv(p) && Allowed(p.state, m)
    ensures p.state.ReqSpacesBeforeUrl? ==> Sound(p, ch, m, StepBeforeUrl(p, ch))
    ensures p.state.InUrl? ==> Sound(p, ch, m, StepUrl(p, p.state.url, ch))
  {
    hide UrlChar;
  }

  lemma RequestInv(p: Parser, at: RequestPos, q: Parser)
    requires Inv(p) && p.state.RequestLine? && q.state == RequestLine(at)
    requires q == p.(state := q.state, major := q.major, minor := q.minor)
    ensures Inv(q) && forall m: Mark :: m.Off? ==> Allowed(q.state, m)
  {
  }

  lemma RequestSound(p: Parser, at: RequestPos, ch: Byte, m: Mark)
    requires Inv(p) && p.state == RequestLine(at) && m.Off?
    ensures Sound(p, ch, m, StepRequestLine(p, at, ch))
  {
    FieldStartInv(p);
    assert Allowed(Header(FieldStart), m);
    hide Digit, IsNum, Inv, Allowed, Sound, InStartLine;
    var out := StepRequestLine(p, at, ch);
    if out.Next? {
      if out.p.state.RequestLine? {
        RequestInv(p, out.p.state.request, out.p);
      }
      SilentSound(p, ch, m, out.p);
    } else {
      FailSound(p, ch, m, out);
    }
  }

  lemma MatchWordShape(p: Parser, word: string, c: Byte, found: HeaderState, other: HeaderState)
    ensures var q := MatchWord(p, word, c, found, other);
            q == p.(hs := q.hs, index := q.index) && (q.hs == p.hs || q.hs == found || q.hs == other)
  {
  }

  lemma LengthKept(p: Parser, q: Parser)
    requires LengthInv(p) && q == p.(hs := q.hs, index := q.index, te := q.te) && (p.te ==> q.te)
    ensures LengthInv(q)
  {
  }

  /** What a byte of a name leaves: only the matcher and the coding flag change. */
  predicate FieldShape(p: Parser, q: Parser) {
    q == p.(hs := q.hs, index := q.index, te := q.te) && FieldHs(q.hs) && (TeHs(q.hs) ==> q.te) && (p.te ==> q.te)
  }

  lemma WordShape(p: Parser, ch: Byte)
    requires IsToken(ch) && FieldHs(p.hs) && (TeHs(p.hs) ==> p.te)
    requires p.hs.MatchingTransferEncoding? || p.hs.MatchingUpgrade? || p.hs.MatchingContentLength?
    ensures FieldShape(p, FieldByte(p, ch))
  {
    hide MatchWord, IsToken, Lower;
    var c := Lower(ch);
    MatchWordShape(p, "content-length", c, ContentLength, General);
    MatchWordShape(p, "transfer-encoding", c, TransferEncoding, General);
    MatchWordShape(p, "upgrade", c, Upgrade, General);
  }

  lemma ConnectionWordShape(p: Parser, ch: Byte)
    requires IsToken(ch) && FieldHs(p.hs) && (TeHs(p.hs) ==> p.te)
    requires p.hs.MatchingConnection? || p.hs.MatchingProxyConnection?
    ensures FieldShape(p, FieldByte(p, ch))
  {
    hide MatchWord, IsToken, Lower;
    var c := Lower(ch);
    MatchWordShape(p, "connection", c, Connection, General);
    MatchWordShape(p, "proxy-connection", c, Connection, General);
  }

  predicate WordHs(hs: HeaderState) {
    || hs.MatchingTransferEncoding? || hs.MatchingUpgrade? || hs.MatchingContentLength?
    || hs.MatchingConnection? || hs.MatchingProxyConnection?
  }

  lemma NoWordShape(p: Parser, ch: Byte)
    requires IsToken(ch) && FieldHs(p.hs) && (TeHs(p.hs) ==> p.te) && !WordHs(p.hs)
    ensures FieldShape(p, FieldByte(p, ch))
  {
    hide IsToken, Lower;
  }

  lemma FieldByteShape(p: Parser, ch: Byte)
    requires IsToken(ch) && FieldHs(p.hs) && (TeHs(p.hs) ==> p.te)
    ensures FieldShape(p, FieldByte(p, ch))
  {
    hide IsToken, FieldByte, FieldShape, FieldHs, TeHs;
    if p.hs.MatchingConnection? || p.hs.MatchingProxyConnection? {
      ConnectionWordShape(p, ch);
    } else if WordHs(p.hs) {
      WordShape(p, ch);
    } else {
      NoWordShape(p, ch);
    }
  }

  lemma FieldByteInv(p: Parser, ch: Byte)
    requires HeaderInv(p, InField) && p.state == Header(InField) && IsToken(ch)
    ensures HeaderInv(FieldByte(p, ch), InField)
    ensures FieldByte(p, ch) ==
            p.(hs := FieldByte(p, ch).hs, index := FieldByte(p, ch).index, te := FieldByte(p, ch).te)
  {
    hide FieldByte, LengthInv, IsToken;
    FieldByteShape(p, ch);
    LengthKept(p, FieldByte(p, ch));
  }

  lemma FieldStartSound(p: Parser, ch: Byte, m: Mark)
    requires Inv(p) && Allowed(p.state, m) && p.state == Header(FieldStart)
    ensures Sound(p, ch, m, StepFieldStart(p, ch))
  {
    hide IsToken, Lower;
  }

  lemma InFieldSound(p: Parser, ch: Byte, m: Mark)
    requires Inv(p) && Allowed(p.state, m) && p.state == Header(InField)
    ensures Sound(p, ch, m, StepField(p, ch))
  {
    hide FieldByte, IsToken;
    if IsToken(ch) {
      FieldByteInv(p, ch);
    }
  }

  lemma FieldSound(p: Parser, ch: Byte, m: Mark)
    requires Inv(p) && Allowed(p.state, m)
    ensures p.state == Header(FieldStart) ==> Sound(p, ch, m, StepFieldStart(p, ch))
    ensures p.state == Header(InField) ==> Sound(p, ch, m, StepField(p, ch))
  {
    hide *;
    if p.state == Header(FieldStart) {
      FieldStartSound(p, ch, m);
    } else if p.state == Header(InField) {
      InFieldSound(p, ch, m);
    }
  }

  lemma LengthDigitInv(p: Parser, ch: Byte)
    requires LengthInv(p) && p.flags.contentLength && !LengthDigit(p, ch).Err?
    ensures LengthDigit(p, ch).Ok?
    ensures var q := LengthDigit(p, ch).p;
            LengthInv(q) && LengthHs(q.hs) && q == p.(hs := q.hs, length := q.length)
  {
  }

  lemma CodingByteInv(p: Parser, ch: Byte)
    requires CodingHs(p.hs)
    ensures var q := CodingByte(p, ch); q == p.(hs := q.hs, index := q.index) && (CodingHs(q.hs) || q.hs.General?)
  {
    hide MatchWord;
    MatchWordShape(p, "chunked", OrSpace(ch), TeChunked, TeToken);
  }

  /** Two parsers that differ only in what a Connection value may change. */
  predicate SameButConnection(p: Parser, q: Parser) {
    && q == p.(hs := q.hs, index := q.index, flags := q.flags)
    && q.flags == p.flags.(keepAlive := q.flags.keepAlive, close := q.flags.close, connUpgrade := q.flags.connUpgrade)
  }

  lemma AfterWordShape(p: Parser, ch: Byte)
    requires ConnectionHs(p.hs)
    ensures var q := AfterConnectionWord(p, ch); SameButConnection(p, q) && (ConnectionHs(q.hs) || q.hs.General?)
  {
  }

  lemma ConnectionByteInv(p: Parser, ch: Byte)
    requires ConnectionHs(p.hs)
    ensures var q := ConnectionByte(p, ch); SameButConnection(p, q) && (ConnectionHs(q.hs) || q.hs.General?)
  {
    hide MatchWord, OrSpace, IsToken, IsBlank, AfterConnectionWord;
    var c := OrSpace(ch);
    MatchWordShape(p, "keep-alive", c, ConnKeepAlive, ConnToken);
    MatchWordShape(p, "close", c, ConnClose, ConnToken);
    MatchWordShape(p, "upgrade", c, ConnUpgrade, ConnToken);
    AfterWordShape(p, ch);
  }

  lemma ConnectionKept(p: Parser, q: Parser)
    requires LengthInv(p) && SameButConnection(p, q)
    ensures LengthInv(q)
  {
  }

  lemma ValueByteInv(p: Parser, ch: Byte)
    requires HeaderInv(p, InValue) && p.state == Header(InValue)
    ensures !ValueByte(p, ch).Bug?
    ensures ValueByte(p, ch).Ok? ==>
              var q := ValueByte(p, ch).p;
              HeaderInv(q, InValue) && q == p.(hs := q.hs, index := q.index, flags := q.flags, length := q.length)
  {
    hide CodingByte, ConnectionByte, LengthInv, LengthDigit, IsHeaderChar;
    if LengthHs(p.hs) {
      if !LengthDigit(p, ch).Err? {
        LengthDigitInv(p, ch);
      }
    } else if CodingHs(p.hs) {
      CodingByteInv(p, ch);
      LengthKept(p, CodingByte(p, ch));
    } else if ConnectionHs(p.hs) {
      ConnectionByteInv(p, ch);
      ConnectionKept(p, ConnectionByte(p, ch));
    } else {
      LengthKept(p, p.(hs := General));
    }
  }

  lemma ValueSound(p: Parser, ch: Byte, m: Mark)
    requires Inv(p) && Allowed(p.state, m) && p.state == Header(InValue)
    ensures Sound(p, ch, m, StepValue(p, ch))
  {
    hide ValueByte;
    ValueByteInv(p, ch);
  }

  lemma FirstLengthDigit(p: Parser, d: nat)
    requires LengthInv(p) && d <= 9
    ensures LengthInv(p.(flags := p.flags.(contentLength := true), length := d, hs := ContentLengthNum))
  {
  }

  lemma UpgradeKept(p: Parser)
    requires LengthInv(p)
    ensures LengthInv(p.(flags := p.flags.(upgrade := true), hs := General))
  {
  }

  lemma FirstValueByteInv(p: Parser, at: HeaderPos, ch: Byte)
    requires LengthInv(p) && MatcherInv(p, at) && (at.DiscardWs? || at.ValueStart?)
    ensures !FirstValueByte(p, ch).Bug?
    ensures FirstValueByte(p, ch).Ok? ==>
              var q := FirstValueByte(p, ch).p;
              LengthInv(q) && MatcherInv(q, InValue) && q == p.(hs := q.hs, flags := q.flags, length := q.length)
  {
    hide LengthInv;
    UpgradeKept(p);
    if p.hs.ContentLength? && IsNum(ch) {
      FirstLengthDigit(p, Digit(ch));
    }
    var r := FirstValueByte(p, ch);
    if r.Ok? && r.p == p.(hs := r.p.hs) {
      LengthKept(p, r.p);
    }
  }

  lemma ValueStartSound(p: Parser, at: HeaderPos, ch: Byte, m: Mark)
    requires Inv(p) && m.Off? && p.state == Header(at) && (at.DiscardWs? || at.ValueStart?)
    ensures Sound(p, ch, m, StepValueStart(p, ch))
  {
    hide FirstValueByte, LengthInv, MatcherInv;
    FirstValueByteInv(p, at, ch);
    if FirstValueByte(p, ch).Ok? {
      var q := FirstValueByte(p, ch).p;
      ValueStartKept(q);
    }
  }

  lemma ValueStartKept(q: Parser)
    requires LengthInv(q) && MatcherInv(q, InValue)
    ensures LengthInv(q.(state := Header(InValue), index := 0))
    ensures MatcherInv(q.(state := Header(InValue), index := 0), InValue)
    ensures Inv(q.(state := Header(InValue), index := 0))
  {
  }

  lemma LineFlagsInv(p: Parser)
    requires LengthInv(p) && (TeHs(p.hs) ==> p.te)
    ensures LengthInv(p.(flags := LineFlags(p), state := Header(FieldStart)))
  {
  }

  lemma DiscardSound(p: Parser, at: HeaderPos, ch: Byte, m: Mark)
    requires LengthInv(p) && MatcherInv(p, DiscardWs) && m.Off?
    requires at.DiscardWs? || at.DiscardWsAlmostDone? || at.DiscardLws?
    ensures Sound(p, ch, m, To(p, Header(at)))
  {
  }

  lemma DiscardWsSound(p: Parser, ch: Byte, m: Mark)
    requires Inv(p) && m.Off? && p.state == Header(DiscardWs)
    ensures Sound(p, ch, m, StepDiscardWs(p, ch))
  {
    hide StepValueStart, Sound, LengthInv, MatcherInv;
    DiscardSound(p, DiscardWs, ch, m);
    DiscardSound(p, DiscardWsAlmostDone, ch, m);
    DiscardSound(p, DiscardLws, ch, m);
    ValueStartSound(p, DiscardWs, ch, m);
    assert IsBlank(ch) ==> StepDiscardWs(p, ch) == To(p, Header(DiscardWs));
  }

  lemma DiscardLwsSound(p: Parser, ch: Byte, m: Mark)
    requires Inv(p) && m.Off? && p.state == Header(DiscardLws)
    ensures Sound(p, ch, m, StepDiscardLws(p, ch))
  {
    hide LineFlags, LengthInv;
    LineFlagsInv(p);
    StateKept(p, Header(DiscardWs));
  }

  lemma StateKept(p: Parser, s: State)
    requires LengthInv(p)
    ensures LengthInv(p.(state := s))
  {
  }

  lemma ValueLwsSound(p: Parser, ch: Byte, m: Mark)
    requires Inv(p) && m.Off? && p.state == Header(ValueLws)
    ensures Sound(p, ch, m, StepValueLws(p, ch))
  {
    hide LineFlags, LengthInv;
    LineFlagsInv(p);
    StateKept(p, Header(ValueStart));
    var q := p.(state := Header(ValueStart));
    LengthKept(q, q.(hs := ContentLengthWs));
  }

  lemma NewMessageKind(p: Parser)
    requires !p.kind.Both?
    ensures Complete(p) == p.(state := NewMessage(p))
    ensures NewMessage(p).Dead? || (NewMessage(p).StartReq? && p.kind.Request?)
            || (NewMessage(p).StartRes? && p.kind.Response?)
  {
  }

  lemma HeadersAlmostDoneSound(p: Parser, ch: Byte, m: Mark)
    requires Inv(p) && Allowed(p.state, m) && p.state == Header(HeadersAlmostDone)
    ensures Sound(p, ch, m, StepHeadersAlmostDone(p, ch))
  {
    hide Complete, NewMessage, NeedsEof;
  }

  lemma HeadersDoneSound(p: Parser, ch: Byte, m: Mark)
    requires Inv(p) && Allowed(p.state, m) && p.state == Header(HeadersDone)
    ensures Sound(p, ch, m, StepHeadersDone(p, ch))
  {
    hide Complete, NewMessage;
    NewMessageKind(p.(nread := 0));
  }

  lemma HeaderSound(p: Parser, at: HeaderPos, ch: Byte, m: Mark)
    requires Inv(p) && Allowed(p.state, m) && p.state == Header(at)
    ensures Sound(p, ch, m, StepHeader(p, at, ch))
  {
    match at {
      case FieldStart => FieldSound(p, ch, m);
      case InField => FieldSound(p, ch, m);
      case DiscardWs => DiscardWsSound(p, ch, m);
      case DiscardWsAlmostDone =>
      case DiscardLws => DiscardLwsSound(p, ch, m);
      case ValueStart => ValueStartSound(p, at, ch, m);
      case InValue => ValueSound(p, ch, m);
      case ValueLws => ValueLwsSound(p, ch, m);
      case AlmostDone =>
      case HeadersAlmostDone => HeadersAlmostDoneSound(p, ch, m);
      case HeadersDone => HeadersDoneSound(p, ch, m);
    }
  }

  lemma IdentitySound(p: Parser, ch: Byte, m: Mark)
    requires Inv(p) && Allowed(p.state, m) && p.state.BodyIdentity?
    ensures Sound(p, ch, m, StepBodyIdentity(p, ch))
  {
  }

  lemma EofSound(p: Parser, ch: Byte, m: Mark)
    requires Inv(p) && Allowed(p.state, m) && p.state.BodyIdentityEof?
    ensures Sound(p, ch, m, Next(p, [Take(Body, ch)]))
  {
  }

  lemma DoneSound(p: Parser, ch: Byte, m: Mark)
    requires Inv(p) && Allowed(p.state, m) && p.state.MessageDone?
    ensures Sound(p, ch, m, StepMessageDone(p))
  {
    hide Complete, NewMessage;
    NewMessageKind(p);
  }

  lemma BodySound(p: Parser, ch: Byte, m: Mark)
    requires Inv(p) && Allowed(p.state, m)
    ensures p.state.BodyIdentity? ==> Sound(p, ch, m, StepBodyIdentity(p, ch))
    ensures p.state.BodyIdentityEof? ==> Sound(p, ch, m, Next(p, [Take(Body, ch)]))
    ensures p.state.MessageDone? ==> Sound(p, ch, m, StepMessageDone(p))
  {
    hide *;
    if p.state.BodyIdentity? {
      IdentitySound(p, ch, m);
    } else if p.state.BodyIdentityEof? {
      EofSound(p, ch, m);
    } else if p.state.MessageDone? {
      DoneSound(p, ch, m);
    }
  }

  predicate SizePos(at: ChunkPos) { at.SizeStart? || at.InSize? || at.Parameters? }

  lemma ChunkSizeSound(p: Parser, at: ChunkPos, ch: Byte, m: Mark)
    requires ChunkInv(p.(nread := 0), at) && (at.SizeStart? ==> p.nread == 1) && m.Off? && p.state == Chunk(at)
    requires p.length <= NO_LENGTH && SizePos(at)
    ensures Sound(p, ch, m, StepChunk(p, at, ch))
  {
    hide Unhex;
  }

  lemma InDataSound(p: Parser, ch: Byte, m: Mark)
    requires ChunkInv(p, InData) && Allowed(p.state, m) && p.state == Chunk(InData) && p.length <= NO_LENGTH
    ensures Sound(p, ch, m, StepChunk(p, InData, ch))
  {
    hide Unhex;
  }

  lemma ChunkEndSound(p: Parser, at: ChunkPos, ch: Byte, m: Mark)
    requires ChunkInv(p, at) && Allowed(p.state, m) && p.state == Chunk(at) && p.length <= NO_LENGTH
    requires !SizePos(at) && !at.InData?
    ensures Sound(p, ch, m, StepChunk(p, at, ch))
  {
    hide Unhex;
  }

  lemma ChunkDataSound(p: Parser, at: ChunkPos, ch: Byte, m: Mark)
    requires ChunkInv(p, at) && Allowed(p.state, m) && p.state == Chunk(at)
    requires p.length <= NO_LENGTH && !SizePos(at)
    ensures Sound(p, ch, m, StepChunk(p, at, ch))
  {
    hide Sound, StepChunk, Allowed, ChunkInv;
    if at.InData? {
      InDataSound(p, ch, m);
    } else {
      ChunkEndSound(p, at, ch, m);
    }
  }

  lemma ChunkSound(p: Parser, at: ChunkPos, ch: Byte, m: Mark)
    requires Counted(p) && Allowed(p.state, m) && p.state == Chunk(at)
    ensures Sound(p, ch, m, StepChunk(p, at, ch))
  {
    hide Sound, StepChunk;
    if SizePos(at) {
      ChunkSizeSound(p, at, ch, m);
    } else {
      ChunkDataSound(p, at, ch, m);
    }
  }

  /** Every internal assertion of the parser holds, in every state the invariant allows. */
  lemma MicroSound(p: Parser, ch: Byte, m: Mark)
    requires Counted(p) && Allowed(p.state, m)
    ensures Sound(p, ch, m, Micro(p, ch))
  {
    hide Sound, Inv, StepStart, StepStatusLine, StepMethod, StepBeforeUrl, StepUrl, StepRequestLine, StepHeader,
         StepBodyIdentity, StepMessageDone, StepChunk;
    match p.state {
      case StatusLine(at) => StatusSound(p, at, ch, m);
      case ReqMethod => MethodSound(p, ch, m);
      case ReqSpacesBeforeUrl => UrlSound(p, ch, m);
      case InUrl(_) => UrlSound(p, ch, m);
      case RequestLine(at) => RequestSound(p, at, ch, m);
      case Header(at) => HeaderSound(p, at, ch, m);
      case Chunk(at) => ChunkSound(p, at, ch, m);
      case BodyIdentity => BodySound(p, ch, m);
      case BodyIdentityEof => BodySound(p, ch, m);
      case MessageDone => BodySound(p, ch, m);
      case _ => StartSound(p, ch, m);
    }
  }

  lemma InitInv(kind: Kind)
    ensures Inv(Init(kind))
  {
  }
}
