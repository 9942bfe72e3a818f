/** Runs inside one span, in closed form: what the byte machine makes of a whole header name, header value
    or piece of body.  The skip-ahead loops of the parser are proved against these. */
module HttpSpans {
  import opened HttpSyntax
  import opened HttpMachine
  import opened HttpInvariant
  import opened HttpRun

  function Takes(s: Span, bytes: Bytes): (acts: seq<Act>)
    ensures |acts| == |bytes|
  {
    seq(|bytes|, i requires 0 <= i < |bytes| => Take(s, bytes[i]))
  }

  lemma TakesCons(s: Span, bytes: Bytes)
    requires bytes != []
    ensures Takes(s, bytes) == [Take(s, bytes[0])] + Takes(s, bytes[1..])
    ensures Takes(s, bytes)[0] == Take(s, bytes[0]) && Takes(s, bytes)[1..] == Takes(s, bytes[1..])
  {
  }

  lemma {:induction false} RenderTakes(log: seq<Event>, s: Span, bytes: Bytes)
    requires EndsWith(log, s)
    ensures Render(log, Takes(s, bytes)) == Extend(log, bytes)
    decreases |bytes|
  {
    if bytes == [] {
      assert Last(log).bytes + [] == Last(log).bytes;
    } else {
      TakesCons(s, bytes);
      RenderTakes(Extend(log, [bytes[0]]), s, bytes[1..]);
      var x := Last(log).bytes;
      assert x + [bytes[0]] + bytes[1..] == x + bytes;
    }
  }

  /** A span that opens by taking its first byte is one new event. */
  lemma RenderTakesNew(log: seq<Event>, s: Span, bytes: Bytes)
    requires !EndsWith(log, s) && bytes != []
    ensures Render(log, Takes(s, bytes)) == log + [Data(s, bytes)]
  {
    TakesCons(s, bytes);
    var one := log + [Data(s, [bytes[0]])];
    RenderTakes(one, s, bytes[1..]);
    assert [bytes[0]] + bytes[1..] == bytes;
    assert one[..|one| - 1] == log;
  }

  lemma {:induction false} AfterTakes(m: Mark, s: Span, bytes: Bytes)
    ensures AfterAll(m, Takes(s, bytes)) == if bytes == [] then m else On(s)
    ensures m == On(s) || (s.Body? && m == Off(false)) ==> LegalAll(m, Takes(s, bytes))
    decreases |bytes|
  {
    if bytes != [] {
      TakesCons(s, bytes);
      AfterTakes(On(s), s, bytes[1..]);
    }
  }

  predicate All(f: Byte -> bool, bytes: Bytes) { forall i :: 0 <= i < |bytes| ==> f(bytes[i]) }

  // ---------------------------------------------------------------- header names

  predicate Tokens(bytes: Bytes) { forall i :: 0 <= i < |bytes| ==> IsToken(bytes[i]) }

  function FieldFold(p: Parser, bytes: Bytes): Parser
    requires Tokens(bytes)
    decreases |bytes|
  {
    if bytes == [] then p else FieldFold(FieldByte(p, bytes[0]), bytes[1..])
  }

  lemma {:induction false} FieldFoldAppend(p: Parser, a: Bytes, b: Bytes)
    requires Tokens(a) && Tokens(b)
    ensures Tokens(a + b) && FieldFold(p, a + b) == FieldFold(FieldFold(p, a), b)
    decreases |a|
  {
    hide FieldByte;
    if a == [] {
      assert a + b == b;
    } else {
      assert (a + b)[1..] == a[1..] + b;
      FieldFoldAppend(FieldByte(p, a[0]), a[1..], b);
    }
  }

  lemma MatchWordCount(p: Parser, word: string, c: Byte, found: HeaderState, other: HeaderState, n: nat)
    ensures MatchWord(p.(nread := n), word, c, found, other) == MatchWord(p, word, c, found, other).(nread := n)
  {
    hide Bump, Match;
  }

  lemma FieldByteCount(p: Parser, ch: Byte, n: nat)
    requires IsToken(ch)
    ensures FieldByte(p.(nread := n), ch) == FieldByte(p, ch).(nread := n)
  {
    hide MatchWord, Bump, IsToken, Lower;
    var c := Lower(ch);
    match p.hs {
      case MatchingConnection => MatchWordCount(p, "connection", c, Connection, General, n);
      case MatchingProxyConnection => MatchWordCount(p, "proxy-connection", c, Connection, General, n);
      case MatchingContentLength => MatchWordCount(p, "content-length", c, ContentLength, General, n);
      case MatchingTransferEncoding => MatchWordCount(p, "transfer-encoding", c, TransferEncoding, General, n);
      case MatchingUpgrade => MatchWordCount(p, "upgrade", c, Upgrade, General, n);
      case _ =>
    }
  }

  lemma {:induction false} FieldFoldCount(p: Parser, bytes: Bytes, n: nat)
    requires Tokens(bytes)
    ensures FieldFold(p.(nread := n), bytes) == FieldFold(p, bytes).(nread := n)
    decreases |bytes|
  {
    hide FieldByte;
    if bytes != [] {
      FieldByteCount(p, bytes[0], n);
      FieldFoldCount(FieldByte(p, bytes[0]), bytes[1..], n);
    }
  }

  lemma FieldStep(limit: nat, p: Parser, ch: Byte)
    requires Inv(p) && p.state == Header(InField) && IsToken(ch)
    ensures Step(limit, p, ch) ==
            if p.nread + 1 > limit then Fail(HeaderOverflow)
            else Next(FieldByte(p, ch).(nread := p.nread + 1), [Take(Field, ch)])
  {
    hide FieldByte;
    FieldByteCount(p, ch, p.nread + 1);
  }

  /** A stretch of a header name: within the limit every byte is taken, beyond it the run fails. */
  lemma {:induction false} FieldRun(limit: nat, p: Parser, bytes: Bytes)
    requires Inv(p) && p.state == Header(InField) && Tokens(bytes)
    ensures Run(limit, p, bytes) ==
            if bytes != [] && p.nread + |bytes| > limit then Failed(HeaderOverflow)
            else Done(FieldFold(p, bytes).(nread := p.nread + |bytes|), Takes(Field, bytes))
    ensures Inv(FieldFold(p, bytes)) && FieldFold(p, bytes).state == Header(InField)
    decreases |bytes|
  {
    hide Step, FieldByte, HeaderInv;
    if bytes == [] {
      assert FieldFold(p, bytes).(nread := p.nread) == p;
    } else {
      FieldStep(limit, p, bytes[0]);
      FieldByteInv(p, bytes[0]);
      var q := FieldByte(p, bytes[0]);
      var q' := q.(nread := p.nread + 1);
      HeaderInvCount(q, InField, p.nread + 1);
      FieldRun(limit, q', bytes[1..]);
      FieldRun(limit, q, bytes[1..]);
      FieldFoldCount(q, bytes[1..], p.nread + 1);
      TakesCons(Field, bytes);
    }
  }

  lemma HeaderInvCount(p: Parser, at: HeaderPos, n: nat)
    requires HeaderInv(p, at)
    ensures HeaderInv(p.(nread := n), at) && p.length <= NO_LENGTH
  {
  }

  // ---------------------------------------------------------------- header values

  predicate InLine(bytes: Bytes) { forall i :: 0 <= i < |bytes| ==> !IsLineEnd(bytes[i]) }

  function ValueFold(p: Parser, bytes: Bytes): Result
    decreases |bytes|
  {
    if bytes == [] then Ok(p)
    else
      match ValueByte(p, bytes[0])
      case Ok(q) => ValueFold(q, bytes[1..])
      case other => other
  }

  lemma {:induction false} ValueFoldAppend(p: Parser, a: Bytes, b: Bytes)
    ensures ValueFold(p, a + b) ==
            match ValueFold(p, a)
            case Ok(q) => ValueFold(q, b)
            case other => other
    decreases |a|
  {
    hide ValueByte;
    if a == [] {
      assert a + b == b;
    } else {
      assert (a + b)[1..] == a[1..] + b;
      if ValueByte(p, a[0]).Ok? {
        ValueFoldAppend(ValueByte(p, a[0]).p, a[1..], b);
      }
    }
  }

  function WithCount(r: Result, n: nat): Result {
    match r
    case Ok(q) => Ok(q.(nread := n))
    case other => other
  }

  lemma LengthDigitCount(p: Parser, ch: Byte, n: nat)
    ensures LengthDigit(p.(nread := n), ch) == WithCount(LengthDigit(p, ch), n)
  {
  }

  lemma CodingByteCount(p: Parser, ch: Byte, n: nat)
    ensures CodingByte(p.(nread := n), ch) == CodingByte(p, ch).(nread := n)
  {
    hide MatchWord, IsToken, OrSpace, AfterConnectionWord;
    MatchWordCount(p, "chunked", OrSpace(ch), TeChunked, TeToken, n);
  }

  lemma AfterWordCount(p: Parser, ch: Byte, n: nat)
    ensures AfterConnectionWord(p.(nread := n), ch) == AfterConnectionWord(p, ch).(nread := n)
  {
    hide AddConnectionFlag;
  }

  lemma ConnectionByteCount(p: Parser, ch: Byte, n: nat)
    ensures ConnectionByte(p.(nread := n), ch) == ConnectionByte(p, ch).(nread := n)
  {
    hide MatchWord, IsToken, OrSpace, AfterConnectionWord;
    var c := OrSpace(ch);
    match p.hs {
      case ConnMatchingKeepAlive => MatchWordCount(p, "keep-alive", c, ConnKeepAlive, ConnToken, n);
      case ConnMatchingClose => MatchWordCount(p, "close", c, ConnClose, ConnToken, n);
      case ConnMatchingUpgrade => MatchWordCount(p, "upgrade", c, ConnUpgrade, ConnToken, n);
      case ConnTokenStart =>
      case ConnToken =>
      case _ => AfterWordCount(p, ch, n);
    }
  }

  lemma ValueByteCount(p: Parser, ch: Byte, n: nat)
    ensures ValueByte(p.(nread := n), ch) == WithCount(ValueByte(p, ch), n)
  {
    hide CodingByte, ConnectionByte, IsHeaderChar, CodingHs, ConnectionHs, LengthDigit;
    CodingByteCount(p, ch, n);
    ConnectionByteCount(p, ch, n);
    LengthDigitCount(p, ch, n);
  }

  lemma {:induction false} ValueFoldCount(p: Parser, bytes: Bytes, n: nat)
    ensures ValueFold(p.(nread := n), bytes) == WithCount(ValueFold(p, bytes), n)
    decreases |bytes|
  {
    hide ValueByte;
    if bytes != [] {
      ValueByteCount(p, bytes[0], n);
      if ValueByte(p, bytes[0]).Ok? {
        ValueFoldCount(ValueByte(p, bytes[0]).p, bytes[1..], n);
      }
    }
  }

  lemma ValueStep(limit: nat, p: Parser, ch: Byte)
    requires Inv(p) && p.state == Header(InValue) && !IsLineEnd(ch)
    ensures !ValueByte(p, ch).Bug?
    ensures Step(limit, p, ch) ==
            if p.nread + 1 > limit then Fail(HeaderOverflow)
            else match ValueByte(p, ch)
                 case Ok(q) => Next(q.(nread := p.nread + 1), [Take(Value, ch)])
                 case Err(e) => Fail(e)
                 case Bug => Broken
  {
    hide ValueByte;
    ValueByteCount(p, ch, p.nread + 1);
    ValueByteInv(p, ch);
  }

  /** A stretch of a header value: it fails if the value matcher refuses a byte or the limit is passed. */
  lemma {:induction false} ValueRun(limit: nat, p: Parser, bytes: Bytes)
    requires Inv(p) && p.state == Header(InValue) && InLine(bytes)
    ensures match ValueFold(p, bytes)
            case Ok(q) =>
              Run(limit, p, bytes) ==
                if bytes != [] && p.nread + |bytes| > limit then Failed(HeaderOverflow)
                else Done(q.(nread := p.nread + |bytes|), Takes(Value, bytes))
            case Err(e) =>
              && (p.nread + |bytes| <= limit ==> Run(limit, p, bytes) == Failed(e))
              && (Run(limit, p, bytes) == Failed(e) || Run(limit, p, bytes) == Failed(HeaderOverflow))
            case Bug => false
    ensures ValueFold(p, bytes).Ok? ==>
              Inv(ValueFold(p, bytes).p) && ValueFold(p, bytes).p.state == Header(InValue)
              && ValueFold(p, bytes).p.nread == p.nread
    decreases |bytes|
  {
    hide Step, ValueByte, HeaderInv;
    if bytes == [] {
    } else {
      ValueStep(limit, p, bytes[0]);
      ValueByteInv(p, bytes[0]);
      if ValueByte(p, bytes[0]).Ok? {
        var q := ValueByte(p, bytes[0]).p;
        HeaderInvCount(q, InValue, p.nread + 1);
        ValueRun(limit, q.(nread := p.nread + 1), bytes[1..]);
        ValueRun(limit, q, bytes[1..]);
        ValueFoldCount(q, bytes[1..], p.nread + 1);
        TakesCons(Value, bytes);
      }
    }
  }

  /** Once the value is of no interest every printable byte is skipped. */
  lemma {:induction false} ValueFoldGeneral(p: Parser, bytes: Bytes)
    requires p.hs.General? && forall i :: 0 <= i < |bytes| ==> IsHeaderChar(bytes[i])
    ensures ValueFold(p, bytes) == Ok(p)
    decreases |bytes|
  {
    if bytes != [] {
      ValueFoldGeneral(p, bytes[1..]);
    }
  }

  /** Likewise for a name that is none of those the parser looks for. */
  lemma {:induction false} FieldFoldGeneral(p: Parser, bytes: Bytes)
    requires p.hs.General? && Tokens(bytes)
    ensures FieldFold(p, bytes) == p
    decreases |bytes|
  {
    if bytes != [] {
      FieldFoldGeneral(p, bytes[1..]);
    }
  }

  // ---------------------------------------------------------------- bodies

  lemma IdentityStep(limit: nat, p: Parser, ch: Byte)
    requires p.state.BodyIdentity? && 1 < p.length < NO_LENGTH
    ensures Step(limit, p, ch) == Next(p.(length := p.length - 1), [Take(Body, ch)])
  {
  }

  /** A stretch of a body of known length that does not reach its end. */
  lemma {:induction false} IdentityRun(limit: nat, p: Parser, bytes: Bytes)
    requires p.state.BodyIdentity? && |bytes| < p.length < NO_LENGTH
    ensures Run(limit, p, bytes) == Done(p.(length := p.length - |bytes|), Takes(Body, bytes))
    decreases |bytes|
  {
    hide Step;
    if bytes == [] {
      assert p.(length := p.length) == p;
    } else {
      IdentityStep(limit, p, bytes[0]);
      IdentityRun(limit, p.(length := p.length - 1), bytes[1..]);
      TakesCons(Body, bytes);
    }
  }

  lemma ChunkDataStep(limit: nat, p: Parser, ch: Byte)
    requires p.state == Chunk(InData) && p.flags.chunked && 0 < p.length < NO_LENGTH
    ensures Step(limit, p, ch) ==
            Next(p.(length := p.length - 1, state := Chunk(if p.length == 1 then DataAlmostDone else InData)),
                 [Take(Body, ch)])
  {
  }

  /** A stretch of a chunk, up to its end at most. */
  lemma {:induction false} ChunkDataRun(limit: nat, p: Parser, bytes: Bytes)
    requires p.state == Chunk(InData) && p.flags.chunked && 0 < p.length < NO_LENGTH && |bytes| <= p.length
    ensures Run(limit, p, bytes) ==
            Done(p.(length := p.length - |bytes|,
                    state := Chunk(if |bytes| == p.length then DataAlmostDone else InData)), Takes(Body, bytes))
    decreases |bytes|
  {
    hide Step;
    if bytes == [] {
      assert p.(length := p.length, state := Chunk(InData)) == p;
    } else {
      ChunkDataStep(limit, p, bytes[0]);
      TakesCons(Body, bytes);
      if |bytes| > 1 {
        ChunkDataRun(limit, p.(length := p.length - 1), bytes[1..]);
      } else {
        assert bytes[1..] == [];
      }
    }
  }

  lemma EofStep(limit: nat, p: Parser, ch: Byte)
    requires p.state.BodyIdentityEof?
    ensures Step(limit, p, ch) == Next(p, [Take(Body, ch)])
  {
  }

  /** A body that lasts until the stream ends takes everything. */
  lemma {:induction false} EofRun(limit: nat, p: Parser, bytes: Bytes)
    requires p.state.BodyIdentityEof?
    ensures Run(limit, p, bytes) == Done(p, Takes(Body, bytes))
    decreases |bytes|
  {
    hide Step;
    if bytes != [] {
      EofStep(limit, p, bytes[0]);
      EofRun(limit, p, bytes[1..]);
      TakesCons(Body, bytes);
    }
  }
}
