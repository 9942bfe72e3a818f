/** The parser as a machine that takes one byte at a time.

    The C function jumps ahead over runs of bytes and keeps pointers ("marks") to the start of the
    spans it reports.  This machine does neither: it is the simple form that the fast form refines.
    It reports what it sees as acts, one at a time: a span opens, takes a byte, closes. */
module HttpMachine {
  import opened HttpSyntax

  const NO_LENGTH: nat := 0xFFFF_FFFF_FFFF_FFFF

  datatype Kind = Request | Response | Both

  datatype StatusPos =
    | ResH | ResHT | ResHTT | ResHTTP | ResMajor | ResDot | ResMinor | ResEnd
    | ResFirstStatusCode | ResStatusCode | ResStatusStart | ResStatus | ResLineAlmostDone

  datatype UrlPos =
    | UrlDead | UrlBefore
    | ReqSchema | ReqSchemaSlash | ReqSchemaSlashSlash | ReqServerStart | ReqServer | ReqServerWithAt
    | ReqPath | ReqQueryStart | ReqQuery | ReqFragmentStart | ReqFragment

  datatype RequestPos =
    | ReqHttpStart | ReqH | ReqHT | ReqHTT | ReqHTTP | ReqI | ReqIC
    | ReqMajor | ReqDot | ReqMinor | ReqEnd | ReqLineAlmostDone

  datatype HeaderPos =
    | FieldStart | InField
    | DiscardWs | DiscardWsAlmostDone | DiscardLws
    | ValueStart | InValue | ValueLws | AlmostDone
    | HeadersAlmostDone | HeadersDone

  datatype ChunkPos =
    | SizeStart | InSize | Parameters | SizeAlmostDone | InData | DataAlmostDone | DataDone

  /** The parser states, grouped by the part of the message they belong to. */
  datatype State =
    | Dead | StartReqOrRes | ResOrRespH | StartRes | StartReq
    | StatusLine(status: StatusPos)
    | ReqMethod | ReqSpacesBeforeUrl
    | InUrl(url: UrlPos)
    | RequestLine(request: RequestPos)
    | Header(header: HeaderPos)
    | Chunk(chunk: ChunkPos)
    | BodyIdentity | BodyIdentityEof | MessageDone

  datatype HeaderState =
    | General | HC | HCO | HCON
    | MatchingConnection | MatchingProxyConnection | MatchingContentLength | MatchingTransferEncoding
    | MatchingUpgrade
    | Connection | ContentLength | ContentLengthNum | ContentLengthWs | TransferEncoding | Upgrade
    | TeTokenStart | TeMatchingChunked | TeToken
    | ConnTokenStart | ConnMatchingKeepAlive | ConnMatchingClose | ConnMatchingUpgrade | ConnToken
    | TeChunked | ConnKeepAlive | ConnClose | ConnUpgrade

  datatype Flags = Flags(
    chunked: bool, keepAlive: bool, close: bool, connUpgrade: bool,
    trailing: bool, upgrade: bool, contentLength: bool)

  const NO_FLAGS := Flags(false, false, false, false, false, false, false)

  /** The fields of `http_parser`; the two strictness switches keep their default, off. */
  datatype Parser = Parser(
    kind: Kind, state: State, hs: HeaderState, index: nat, te: bool, flags: Flags,
    nread: nat, length: nat, major: nat, minor: nat, status: nat, verb: Method, upgrade: bool)

  datatype Errno =
    | InvalidEofState | HeaderOverflow | ClosedConnection | InvalidVersion | InvalidStatus | InvalidMethod
    | InvalidUrl | LfExpected | InvalidHeaderToken | InvalidContentLength | UnexpectedContentLength
    | InvalidChunkSize | InvalidConstant | Strict | InvalidTransferEncoding

  datatype Span = Field | Value | Url | Body | Status
  datatype Note = MessageBegin | HeadersComplete | MessageComplete | ChunkHeader | ChunkComplete
  datatype Act = Open(span: Span) | Take(span: Span, byte: Byte) | Close(span: Span) | Tell(note: Note)

  /** What one pass of the switch does: consume the byte, look at it again in the new state, consume it
      and return to the caller, report an error, or violate an internal assertion. */
  datatype Out =
    | Next(p: Parser, acts: seq<Act>)
    | Again(p: Parser, acts: seq<Act>)
    | Halt(p: Parser, acts: seq<Act>)
    | Fail(errno: Errno)
    | Broken

  function Init(kind: Kind): Parser {
    Parser(kind,
           if kind == Request then StartReq else if kind == Response then StartRes else StartReqOrRes,
           General, 0, false, NO_FLAGS, 0, 0, 0, 0, 0, DELETE, false)
  }

  /** The `index` bit field has five bits. */
  function Bump(i: nat): nat { (i + 1) % 32 }

  predicate ParsingHeader(s: State) {
    match s
    case Chunk(c) => !(c.InData? || c.DataAlmostDone? || c.DataDone?)
    case BodyIdentity => false
    case BodyIdentityEof => false
    case MessageDone => false
    case _ => true
  }

  /** Does the message end only at the end of the stream? */
  predicate NeedsEof(p: Parser) {
    if p.kind == Request then false
    else if p.status / 100 == 1 || p.status == 204 || p.status == 304 then false
    else if p.te && !p.flags.chunked then true
    else !(p.flags.chunked || p.length != NO_LENGTH)
  }

  predicate ShouldKeepAlive(p: Parser) {
    && (if p.major > 0 && p.minor > 0 then !p.flags.close else p.flags.keepAlive)
    && !NeedsEof(p)
  }

  function NewMessage(p: Parser): State {
    if !ShouldKeepAlive(p) then Dead else if p.kind == Request then StartReq else StartRes
  }

  function Complete(p: Parser): Parser { p.(state := NewMessage(p)) }

  function To(p: Parser, s: State): Out { Next(p.(state := s), []) }

  function Expect(p: Parser, ok: bool, e: Errno, s: State): Out {
    if ok then To(p, s) else Fail(e)
  }

  function Fresh(p: Parser): Parser {
    p.(flags := NO_FLAGS, te := false, length := NO_LENGTH)
  }

  // ---------------------------------------------------------------- start of a message

  function FirstMethod(ch: Byte): (r: (bool, Method)) {
    match ch
    case 'A' => (true, ACL) case 'B' => (true, BIND) case 'C' => (true, CONNECT) case 'D' => (true, DELETE)
    case 'G' => (true, GET) case 'H' => (true, HEAD) case 'L' => (true, LOCK) case 'M' => (true, MKCOL)
    case 'N' => (true, NOTIFY) case 'O' => (true, OPTIONS) case 'P' => (true, POST) case 'R' => (true, REPORT)
    case 'S' => (true, SUBSCRIBE) case 'T' => (true, TRACE) case 'U' => (true, UNLOCK)
    case _ => (false, DELETE)
  }

  /** The method to try next when byte `ch` at `index` differs from the one under trial. */
  function OtherMethod(m: Method, index: nat, ch: Byte): (r: (bool, Method)) {
    match (m, index, ch)
    case (POST, 1, 'U') => (true, PUT)
    case (POST, 1, 'A') => (true, PATCH)
    case (POST, 1, 'R') => (true, PROPFIND)
    case (PUT, 2, 'R') => (true, PURGE)
    case (CONNECT, 1, 'H') => (true, CHECKOUT)
    case (CONNECT, 2, 'P') => (true, COPY)
    case (MKCOL, 1, 'O') => (true, MOVE)
    case (MKCOL, 1, 'E') => (true, MERGE)
    case (MKCOL, 1, '-') => (true, MSEARCH)
    case (MKCOL, 2, 'A') => (true, MKACTIVITY)
    case (MKCOL, 3, 'A') => (true, MKCALENDAR)
    case (SUBSCRIBE, 1, 'E') => (true, SEARCH)
    case (SUBSCRIBE, 1, 'O') => (true, SOURCE)
    case (REPORT, 2, 'B') => (true, REBIND)
    case (PROPFIND, 4, 'P') => (true, PROPPATCH)
    case (LOCK, 1, 'I') => (true, LINK)
    case (UNLOCK, 2, 'S') => (true, UNSUBSCRIBE)
    case (UNLOCK, 2, 'B') => (true, UNBIND)
    case (UNLOCK, 3, 'I') => (true, UNLINK)
    case _ => (false, m)
  }

  function StepStart(p: Parser, ch: Byte): Out {
    if p.state.Dead? then (if IsLineEnd(ch) then Next(p, []) else Fail(ClosedConnection))
    else if p.state.ResOrRespH? then
      if ch == 'T' then To(p.(kind := Response), StatusLine(ResHT))
      else if ch == 'E' then To(p.(kind := Request, verb := HEAD, index := 2), ReqMethod)
      else Fail(InvalidConstant)
    else if IsLineEnd(ch) then Next(p, [])
    else if p.state.StartReqOrRes? then
      if ch == 'H' then Next(Fresh(p).(state := ResOrRespH), [Tell(MessageBegin)])
      else Again(Fresh(p).(kind := Request, state := StartReq), [])
    else if p.state.StartRes? then
      if ch == 'H' then Next(Fresh(p).(state := StatusLine(ResH)), [Tell(MessageBegin)]) else Fail(InvalidConstant)
    else
      var (known, m) := FirstMethod(ch);
      if known then Next(Fresh(p).(verb := m, index := 1, state := ReqMethod), [Tell(MessageBegin)])
      else Fail(InvalidMethod)
  }

  // ---------------------------------------------------------------- status line

  function StepStatusLine(p: Parser, at: StatusPos, ch: Byte): Out {
    match at
    case ResH => Expect(p, ch == 'T', Strict, StatusLine(ResHT))
    case ResHT => Expect(p, ch == 'T', Strict, StatusLine(ResHTT))
    case ResHTT => Expect(p, ch == 'P', Strict, StatusLine(ResHTTP))
    case ResHTTP => Expect(p, ch == '/', Strict, StatusLine(ResMajor))
    case ResMajor => if IsNum(ch) then To(p.(major := Digit(ch)), StatusLine(ResDot)) else Fail(InvalidVersion)
    case ResDot => Expect(p, ch == '.', InvalidVersion, StatusLine(ResMinor))
    case ResMinor => if IsNum(ch) then To(p.(minor := Digit(ch)), StatusLine(ResEnd)) else Fail(InvalidVersion)
    case ResEnd => Expect(p, ch == ' ', InvalidVersion, StatusLine(ResFirstStatusCode))
    case ResFirstStatusCode =>
      if IsNum(ch) then To(p.(status := Digit(ch)), StatusLine(ResStatusCode))
      else Expect(p, ch == ' ', InvalidStatus, StatusLine(ResFirstStatusCode))
    case ResStatusCode =>
      if IsNum(ch) then
        if p.status * 10 + Digit(ch) > 999 then Fail(InvalidStatus)
        else Next(p.(status := p.status * 10 + Digit(ch)), [])
      else if ch == ' ' then To(p, StatusLine(ResStatusStart))
      else if IsLineEnd(ch) then Again(p.(state := StatusLine(ResStatusStart)), [])
      else Fail(InvalidStatus)
    case ResStatusStart =>
      var q := p.(state := StatusLine(ResStatus), index := 0);
      if IsLineEnd(ch) then Again(q, [Open(Status)]) else Next(q, [Open(Status), Take(Status, ch)])
    case ResStatus =>
      if ch == CR then Next(p.(state := StatusLine(ResLineAlmostDone)), [Close(Status)])
      else if ch == LF then Next(p.(state := Header(FieldStart)), [Close(Status)])
      else Next(p, [Take(Status, ch)])
    case ResLineAlmostDone => Expect(p, ch == LF, Strict, Header(FieldStart))
  }

  // ---------------------------------------------------------------- request line

  function StepMethod(p: Parser, ch: Byte): Out {
    var want := At(MethodName(p.verb), p.index);
    var q := p.(index := Bump(p.index));
    if ch == '\0' then Fail(InvalidMethod)
    else if ch == ' ' && want == '\0' then Next(q.(state := ReqSpacesBeforeUrl), [])
    else if ch == want then Next(q, [])
    else if IsUpper(ch) || ch == '-' then
      var (known, m) := OtherMethod(p.verb, p.index, ch);
      if known then Next(q.(verb := m), []) else Fail(InvalidMethod)
    else Fail(InvalidMethod)
  }

  /** The URL automaton, shared with `http_parser_parse_url`; `UrlDead` is its error state. */
  function UrlChar(s: UrlPos, ch: Byte): UrlPos {
    if ch == ' ' || IsLineEnd(ch) || ch == '\t' || ch == '\U{0C}' then UrlDead
    else
      match s
      case UrlDead => UrlDead
      case UrlBefore =>
        if ch == '/' || ch == '*' then ReqPath else if IsAlpha(ch) then ReqSchema else UrlDead
      case ReqSchema => if IsAlpha(ch) then ReqSchema else if ch == ':' then ReqSchemaSlash else UrlDead
      case ReqSchemaSlash => if ch == '/' then ReqSchemaSlashSlash else UrlDead
      case ReqSchemaSlashSlash => if ch == '/' then ReqServerStart else UrlDead
      case ReqServerWithAt => if ch == '@' then UrlDead else ServerChar(ch)
      case ReqServerStart => ServerChar(ch)
      case ReqServer => ServerChar(ch)
      case ReqPath =>
        if IsUrlChar(ch) then ReqPath else if ch == '?' then ReqQueryStart
        else if ch == '#' then ReqFragmentStart else UrlDead
      case ReqQueryStart =>
        if IsUrlChar(ch) || ch == '?' then ReqQuery else if ch == '#' then ReqFragmentStart else UrlDead
      case ReqQuery =>
        if IsUrlChar(ch) || ch == '?' then ReqQuery else if ch == '#' then ReqFragmentStart else UrlDead
      case ReqFragmentStart =>
        if IsUrlChar(ch) || ch == '?' then ReqFragment else if ch == '#' then ReqFragmentStart else UrlDead
      case ReqFragment => if IsUrlChar(ch) || ch == '?' || ch == '#' then ReqFragment else UrlDead
  }

  function ServerChar(ch: Byte): UrlPos {
    if ch == '/' then ReqPath
    else if ch == '?' then ReqQueryStart
    else if ch == '@' then ReqServerWithAt
    else if IsUserInfoChar(ch) || ch == '[' || ch == ']' then ReqServer
    else UrlDead
  }

  /** The states in which a request may not end its URL yet. */
  predicate UrlUnfinished(s: UrlPos) {
    s.ReqSchema? || s.ReqSchemaSlash? || s.ReqSchemaSlashSlash? || s.ReqServerStart?
  }

  function StepBeforeUrl(p: Parser, ch: Byte): Out {
    if ch == ' ' then Next(p, [])
    else
      var s := UrlChar(if p.verb == CONNECT then ReqServerStart else UrlBefore, ch);
      if s == UrlDead then Fail(InvalidUrl) else Next(p.(state := InUrl(s)), [Open(Url), Take(Url, ch)])
  }

  function StepUrl(p: Parser, at: UrlPos, ch: Byte): Out {
    if !UrlUnfinished(at) && ch == ' ' then Next(p.(state := RequestLine(ReqHttpStart)), [Close(Url)])
    else if !UrlUnfinished(at) && IsLineEnd(ch) then
      Next(p.(major := 0, minor := 9,
              state := if ch == CR then RequestLine(ReqLineAlmostDone) else Header(FieldStart)),
           [Close(Url)])
    else
      var s := UrlChar(at, ch);
      if s == UrlDead then Fail(InvalidUrl) else Next(p.(state := InUrl(s)), [Take(Url, ch)])
  }

  function StepRequestLine(p: Parser, at: RequestPos, ch: Byte): Out {
    match at
    case ReqHttpStart =>
      if ch == ' ' then Next(p, [])
      else if ch == 'H' then To(p, RequestLine(ReqH))
      else if ch == 'I' && p.verb == SOURCE then To(p, RequestLine(ReqI))
      else Fail(InvalidConstant)
    case ReqH => Expect(p, ch == 'T', Strict, RequestLine(ReqHT))
    case ReqHT => Expect(p, ch == 'T', Strict, RequestLine(ReqHTT))
    case ReqHTT => Expect(p, ch == 'P', Strict, RequestLine(ReqHTTP))
    case ReqI => Expect(p, ch == 'C', Strict, RequestLine(ReqIC))
    case ReqIC => Expect(p, ch == 'E', Strict, RequestLine(ReqHTTP))
    case ReqHTTP => Expect(p, ch == '/', Strict, RequestLine(ReqMajor))
    case ReqMajor => if IsNum(ch) then To(p.(major := Digit(ch)), RequestLine(ReqDot)) else Fail(InvalidVersion)
    case ReqDot => Expect(p, ch == '.', InvalidVersion, RequestLine(ReqMinor))
    case ReqMinor => if IsNum(ch) then To(p.(minor := Digit(ch)), RequestLine(ReqEnd)) else Fail(InvalidVersion)
    case ReqEnd =>
      if ch == CR then To(p, RequestLine(ReqLineAlmostDone))
          else Expect(p, ch == LF, InvalidVersion, Header(FieldStart))
    case ReqLineAlmostDone => Expect(p, ch == LF, LfExpected, Header(FieldStart))
  }

  // ---------------------------------------------------------------- header names

  function FirstFieldState(c: Byte): HeaderState {
    if c == 'c' then HC
    else if c == 'p' then MatchingProxyConnection
    else if c == 't' then MatchingTransferEncoding
    else if c == 'u' then MatchingUpgrade
    else General
  }

  /** One step of matching a known word whose byte `c` should stand at index `i`: found at its last byte,
      given up at the first difference. */
  function Match(hs: HeaderState, word: string, i: nat, c: Byte, found: HeaderState, other: HeaderState): HeaderState {
    if i > |word| || c != At(word, i) then other else if i + 1 == |word| then found else hs
  }

  function MatchWord(p: Parser, word: string, c: Byte, found: HeaderState, other: HeaderState): Parser {
    p.(index := Bump(p.index), hs := Match(p.hs, word, Bump(p.index), c, found, other))
  }

  predicate FieldHs(hs: HeaderState) {
    || hs.General? || hs.HC? || hs.HCO? || hs.HCON? || hs.MatchingConnection? || hs.MatchingProxyConnection?
    || hs.MatchingContentLength? || hs.MatchingTransferEncoding? || hs.MatchingUpgrade?
    || hs.Connection? || hs.ContentLength? || hs.TransferEncoding? || hs.Upgrade?
  }

  /** What one token byte of a header name does to the name matcher. */
  function FieldByte(p: Parser, ch: Byte): Parser
    requires IsToken(ch)
  {
    var c := Lower(ch);
    match p.hs
    case HC => p.(index := Bump(p.index), hs := if c == 'o' then HCO else General)
    case HCO => p.(index := Bump(p.index), hs := if c == 'n' then HCON else General)
    case HCON =>
      p.(index := Bump(p.index),
         hs := if c == 'n' then MatchingConnection else if c == 't' then MatchingContentLength else General)
    case MatchingConnection => MatchWord(p, "connection", c, Connection, General)
    case MatchingProxyConnection => MatchWord(p, "proxy-connection", c, Connection, General)
    case MatchingContentLength => MatchWord(p, "content-length", c, ContentLength, General)
    case MatchingTransferEncoding =>
      var q := MatchWord(p, "transfer-encoding", c, TransferEncoding, General);
      if q.hs.TransferEncoding? then q.(te := true) else q
    case MatchingUpgrade => MatchWord(p, "upgrade", c, Upgrade, General)
    case _ => p.(hs := General)
  }

  function StepFieldStart(p: Parser, ch: Byte): Out {
    if ch == CR then To(p, Header(HeadersAlmostDone))
    else if ch == LF then Again(p.(state := Header(HeadersAlmostDone)), [])
    else if !IsToken(ch) then Fail(InvalidHeaderToken)
    else
      Next(p.(index := 0, state := Header(InField), hs := FirstFieldState(Lower(ch))), [Open(Field), Take(Field, ch)])
  }

  function StepField(p: Parser, ch: Byte): Out {
    if IsToken(ch) then
      if FieldHs(p.hs) then Next(FieldByte(p, ch), [Take(Field, ch)]) else Broken
    else if ch == ':' then Next(p.(state := Header(DiscardWs)), [Close(Field)])
    else Fail(InvalidHeaderToken)
  }

  // ---------------------------------------------------------------- header values

  datatype Result = Ok(p: Parser) | Err(errno: Errno) | Bug

  /** What the first byte of a header value, or of a folded continuation line, makes of the header. */
  function FirstValueByte(p: Parser, ch: Byte): Result {
    var c := OrSpace(ch);
    match p.hs
    case Upgrade => Ok(p.(flags := p.flags.(upgrade := true), hs := General))
    case TransferEncoding => Ok(p.(hs := if c == 'c' then TeMatchingChunked else TeToken))
    case ContentLength =>
      if !IsNum(ch) then Err(InvalidContentLength)
      else if p.flags.contentLength then Err(UnexpectedContentLength)
      else Ok(p.(flags := p.flags.(contentLength := true), length := Digit(ch), hs := ContentLengthNum))
    case Connection =>
      Ok(p.(hs := if c == 'k' then ConnMatchingKeepAlive else if c == 'c' then ConnMatchingClose
                  else if c == 'u' then ConnMatchingUpgrade else ConnToken))
    case TeTokenStart => Ok(p)
    case ContentLengthWs => Ok(p)
    case ConnTokenStart => Ok(p)
    case _ => Ok(p.(hs := General))
  }

  function StepValueStart(p: Parser, ch: Byte): Out {
    match FirstValueByte(p, ch)
    case Ok(q) => Next(q.(state := Header(InValue), index := 0), [Open(Value), Take(Value, ch)])
    case Err(e) => Fail(e)
    case Bug => Broken
  }

  function LengthDigit(p: Parser, ch: Byte): Result {
    if ch == ' ' then Ok(p.(hs := ContentLengthWs))
    else if !IsNum(ch) then Err(InvalidContentLength)
    else if (NO_LENGTH - 10) / 10 < p.length then Err(InvalidContentLength)
    else Ok(p.(hs := ContentLengthNum, length := p.length * 10 + Digit(ch)))
  }

  function AddConnectionFlag(f: Flags, hs: HeaderState): Flags {
    if hs.ConnKeepAlive? then f.(keepAlive := true)
    else if hs.ConnClose? then f.(close := true)
    else if hs.ConnUpgrade? then f.(connUpgrade := true)
    else f
  }

  /** Matching the last coding of a Transfer-Encoding list against "chunked". */
  function CodingByte(p: Parser, ch: Byte): Parser {
    var c := OrSpace(ch);
    match p.hs
    case TeTokenStart =>
      p.(hs := if c == 'c' then TeMatchingChunked else if IsToken(c) then TeToken
               else if IsBlank(c) then TeTokenStart else General)
    case TeMatchingChunked => MatchWord(p, "chunked", c, TeChunked, TeToken)
    case TeToken => if ch == ',' then p.(hs := TeTokenStart, index := 0) else p
    case _ => if ch != ' ' then p.(hs := TeToken) else p
  }

  /** Matching the words of a Connection list. */
  function ConnectionByte(p: Parser, ch: Byte): Parser {
    var c := OrSpace(ch);
    match p.hs
    case ConnTokenStart =>
      p.(hs := if c == 'k' then ConnMatchingKeepAlive else if c == 'c' then ConnMatchingClose
               else if c == 'u' then ConnMatchingUpgrade else if IsToken(c) then ConnToken
               else if IsBlank(c) then ConnTokenStart else General)
    case ConnMatchingKeepAlive => MatchWord(p, "keep-alive", c, ConnKeepAlive, ConnToken)
    case ConnMatchingClose => MatchWord(p, "close", c, ConnClose, ConnToken)
    case ConnMatchingUpgrade => MatchWord(p, "upgrade", c, ConnUpgrade, ConnToken)
    case ConnToken => if ch == ',' then p.(hs := ConnTokenStart, index := 0) else p
    case _ => AfterConnectionWord(p, ch)
  }

  predicate CodingHs(hs: HeaderState) {
    hs.TeTokenStart? || hs.TeMatchingChunked? || hs.TeToken? || hs.TeChunked?
  }

  predicate ConnectionHs(hs: HeaderState) {
    || hs.ConnTokenStart? || hs.ConnMatchingKeepAlive? || hs.ConnMatchingClose? || hs.ConnMatchingUpgrade?
    || hs.ConnToken? || hs.ConnKeepAlive? || hs.ConnClose? || hs.ConnUpgrade?
  }

  /** What one byte of a header value, not CR or LF, does to the value matcher. */
  function ValueByte(p: Parser, ch: Byte): Result {
    if !IsHeaderChar(ch) then Err(InvalidHeaderToken)
    else if p.hs.Connection? || p.hs.TransferEncoding? then Bug
    else if p.hs.ContentLength? then (if ch == ' ' then Ok(p) else LengthDigit(p, ch))
    else if p.hs.ContentLengthNum? then LengthDigit(p, ch)
    else if p.hs.ContentLengthWs? then (if ch == ' ' then Ok(p) else Err(InvalidContentLength))
    else if CodingHs(p.hs) then Ok(CodingByte(p, ch))
    else if ConnectionHs(p.hs) then Ok(ConnectionByte(p, ch))
    else Ok(p.(hs := General))
  }

  function AfterConnectionWord(p: Parser, ch: Byte): Parser {
    if ch == ',' then p.(flags := AddConnectionFlag(p.flags, p.hs), hs := ConnTokenStart, index := 0)
    else if ch != ' ' then p.(hs := ConnToken)
    else p
  }

  /** The flags a finished header line adds. */
  function LineFlags(p: Parser): Flags {
    if p.hs.TeChunked? then p.flags.(chunked := true) else AddConnectionFlag(p.flags, p.hs)
  }

  function StepValue(p: Parser, ch: Byte): Out {
    if ch == CR then Next(p.(state := Header(AlmostDone)), [Close(Value)])
    else if ch == LF then Again(p.(state := Header(AlmostDone)), [Close(Value)])
    else
      match ValueByte(p, ch)
      case Ok(q) => Next(q, [Take(Value, ch)])
      case Err(e) => Fail(e)
      case Bug => Broken
  }

  function StepDiscardWs(p: Parser, ch: Byte): Out {
    if IsBlank(ch) then Next(p, [])
    else if ch == CR then To(p, Header(DiscardWsAlmostDone))
    else if ch == LF then To(p, Header(DiscardLws))
    else StepValueStart(p, ch)
  }

  function StepDiscardLws(p: Parser, ch: Byte): Out {
    if IsBlank(ch) then To(p, Header(DiscardWs))
    else if p.hs.ContentLength? then Fail(InvalidContentLength)
    else Again(p.(flags := LineFlags(p), state := Header(FieldStart)), [Open(Value), Close(Value)])
  }

  /** After a header line: a blank folds the next line into the value, anything else ends the header. */
  function StepValueLws(p: Parser, ch: Byte): Out {
    if IsBlank(ch) then
      Again(p.(hs := if p.hs.ContentLengthNum? then ContentLengthWs else p.hs, state := Header(ValueStart)), [])
    else Again(p.(flags := LineFlags(p), state := Header(FieldStart)), [])
  }

  // ---------------------------------------------------------------- end of the header section

  function StepHeadersAlmostDone(p: Parser, ch: Byte): Out {
    if ch != LF then Fail(Strict)
    else if p.flags.trailing then Again(p.(state := MessageDone), [Tell(ChunkComplete)])
    else if p.te && p.flags.contentLength then Fail(UnexpectedContentLength)
    else
      var up := if p.flags.upgrade && p.flags.connUpgrade then p.kind == Request || p.status == 101
                else p.verb == CONNECT;
      Again(p.(state := Header(HeadersDone), upgrade := up), [Tell(HeadersComplete)])
  }

  function StepHeadersDone(p: Parser, ch: Byte): Out {
    var q := p.(nread := 0);
    var hasBody := p.flags.chunked || (p.length > 0 && p.length != NO_LENGTH);
    if ch != LF then Fail(Strict)
    else if p.upgrade && (p.verb == CONNECT || !hasBody) then Halt(Complete(q), [Tell(MessageComplete)])
    else if p.flags.chunked then To(q, Chunk(SizeStart))
    else if p.te then (if p.kind == Request then Fail(InvalidTransferEncoding) else To(q, BodyIdentityEof))
    else if p.length == 0 then Next(Complete(q), [Tell(MessageComplete)])
    else if p.length != NO_LENGTH then To(q, BodyIdentity)
    else if !NeedsEof(q) then Next(Complete(q), [Tell(MessageComplete)])
    else To(q, BodyIdentityEof)
  }

  function StepHeader(p: Parser, at: HeaderPos, ch: Byte): Out {
    match at
    case FieldStart => StepFieldStart(p, ch)
    case InField => StepField(p, ch)
    case DiscardWs => StepDiscardWs(p, ch)
    case DiscardWsAlmostDone => Expect(p, ch == LF, Strict, Header(DiscardLws))
    case DiscardLws => StepDiscardLws(p, ch)
    case ValueStart => StepValueStart(p, ch)
    case InValue => StepValue(p, ch)
    case ValueLws => StepValueLws(p, ch)
    case AlmostDone => Expect(p, ch == LF, LfExpected, Header(ValueLws))
    case HeadersAlmostDone => StepHeadersAlmostDone(p, ch)
    case HeadersDone => StepHeadersDone(p, ch)
  }

  // ---------------------------------------------------------------- body

  predicate HasLength(p: Parser) { p.length != 0 && p.length != NO_LENGTH }

  function StepBodyIdentity(p: Parser, ch: Byte): Out {
    if !HasLength(p) then Broken
    else if p.length == 1 then Again(p.(length := 0, state := MessageDone), [Take(Body, ch), Close(Body)])
    else Next(p.(length := p.length - 1), [Take(Body, ch)])
  }

  function StepMessageDone(p: Parser): Out {
    if p.upgrade then Halt(Complete(p), [Tell(MessageComplete)]) else Next(Complete(p), [Tell(MessageComplete)])
  }

  function StepChunk(p: Parser, at: ChunkPos, ch: Byte): Out {
    if !p.flags.chunked then Broken
    else
      match at
      case SizeStart =>
        if p.nread != 1 then Broken
        else if Unhex(ch) == -1 then Fail(InvalidChunkSize)
        else To(p.(length := Unhex(ch)), Chunk(InSize))
      case InSize =>
        if ch == CR then To(p, Chunk(SizeAlmostDone))
        else if Unhex(ch) == -1 then Expect(p, ch == ';' || ch == ' ', InvalidChunkSize, Chunk(Parameters))
        else if (NO_LENGTH - 16) / 16 < p.length then Fail(InvalidContentLength)
        else Next(p.(length := p.length * 16 + Unhex(ch)), [])
      case Parameters => if ch == CR then To(p, Chunk(SizeAlmostDone)) else Next(p, [])
      case SizeAlmostDone =>
        if ch != LF then Fail(Strict)
        else if p.length == 0 then
          Next(p.(nread := 0, flags := p.flags.(trailing := true), state := Header(FieldStart)), [Tell(ChunkHeader)])
        else Next(p.(nread := 0, state := Chunk(InData)), [Tell(ChunkHeader)])
      case InData =>
        if !HasLength(p) then Broken
        else
          Next(p.(length := p.length - 1, state := Chunk(if p.length == 1 then DataAlmostDone else InData)),
               [Take(Body, ch)])
      case DataAlmostDone =>
        if p.length != 0 then Broken
        else if ch != CR then Fail(Strict)
        else Next(p.(state := Chunk(DataDone)), [Close(Body)])
      case DataDone =>
        if ch != LF then Fail(Strict) else Next(p.(nread := 0, state := Chunk(SizeStart)), [Tell(ChunkComplete)])
  }

  // ---------------------------------------------------------------- the switch

  function Micro(p: Parser, ch: Byte): Out {
    match p.state
    case StatusLine(at) => StepStatusLine(p, at, ch)
    case ReqMethod => StepMethod(p, ch)
    case ReqSpacesBeforeUrl => StepBeforeUrl(p, ch)
    case InUrl(at) => StepUrl(p, at, ch)
    case RequestLine(at) => StepRequestLine(p, at, ch)
    case Header(at) => StepHeader(p, at, ch)
    case Chunk(at) => StepChunk(p, at, ch)
    case BodyIdentity => StepBodyIdentity(p, ch)
    case BodyIdentityEof => Next(p, [Take(Body, ch)])
    case MessageDone => StepMessageDone(p)
    case _ => StepStart(p, ch)
  }

  /** Along every edge that looks at the same byte again the rank falls. */
  function Rank(s: State): nat {
    match s
    case Header(ValueLws) => 5 case Header(DiscardLws) => 5
    case Header(InValue) => 4 case StartReqOrRes => 4 case StatusLine(ResStatusCode) => 4
    case Header(FieldStart) => 3 case StatusLine(ResStatusStart) => 3
    case Header(HeadersAlmostDone) => 2 case BodyIdentity => 2
    case Header(HeadersDone) => 1
    case _ => 0
  }
}
