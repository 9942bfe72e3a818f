/** Message framing: the numbers that delimit a body are read exactly, and the chunked transfer coding
    (section 4.1 of RFC 7230) is decoded exactly, however the stream is cut into calls. */
module HttpFraming {
  import opened HttpSyntax
  import opened HttpMachine
  import opened HttpInvariant
  import opened HttpRun
  import opened HttpSpans

  // ---------------------------------------------------------------- any number of calls

  datatype Fed = Alive(p: Parser, log: seq<Event>) | Lost

  /** The parser fed with one piece after the other; a call with an empty piece would be the end of the stream. */
  function Feed(limit: nat, p: Parser, pieces: seq<Bytes>): Fed
    requires forall i :: 0 <= i < |pieces| ==> pieces[i] != []
    decreases |pieces|
  {
    if pieces == [] then Alive(p, [])
    else
      match Run(limit, p, pieces[0])
      case Done(q, acts) =>
        (match Feed(limit, q, pieces[1..])
         case Alive(r, log) => Alive(r, Reported(p, acts) + log)
         case Lost => Lost)
      case _ => Lost
  }

  function Concat(pieces: seq<Bytes>): Bytes
    decreases |pieces|
  {
    if pieces == [] then [] else pieces[0] + Concat(pieces[1..])
  }

  /** Cutting the stream differently changes nothing but where the reported data is cut: if the parser gets
      through the whole in one call, it gets through any list of nonempty pieces, to the same fields and the
      same joined log. */
  lemma {:induction false} AnySplit(limit: nat, p: Parser, pieces: seq<Bytes>)
    requires Resting(p) && pieces != [] && forall i :: 0 <= i < |pieces| ==> pieces[i] != []
    requires Run(limit, p, Concat(pieces)).Done?
    ensures var whole, fed := Run(limit, p, Concat(pieces)), Feed(limit, p, pieces);
            fed.Alive? && fed.p == whole.p && Joined(fed.log) == Joined(Reported(p, whole.acts))
    decreases |pieces|
  {
    hide Run, Joined, Reported, Resting;
    var a, rest := pieces[0], Concat(pieces[1..]);
    if |pieces| == 1 {
      assert pieces[1..] == [] && a + rest == a;
      assert Feed(limit, Run(limit, p, a).p, pieces[1..]) == Alive(Run(limit, p, a).p, []);
      assert Reported(p, Run(limit, p, a).acts) + [] == Reported(p, Run(limit, p, a).acts);
    } else {
      SplitInvariance(limit, p, a, rest);
      var first := Run(limit, p, a);
      RestingAfter(limit, p, a);
      AnySplit(limit, first.p, pieces[1..]);
      var second := Run(limit, first.p, rest);
      var fed := Feed(limit, first.p, pieces[1..]);
      JoinedSuffix(Reported(p, first.acts), fed.log, Reported(first.p, second.acts));
    }
  }

  lemma RestingAfter(limit: nat, p: Parser, a: Bytes)
    requires Resting(p)
    ensures Run(limit, p, a).Done? ==> Resting(Run(limit, p, a).p)
  {
    hide Run, Inv;
    EntryFits(p.state);
    RunSound(limit, p, a, EntryMark(p.state));
  }

  lemma Join1Joined(log: seq<Event>, e: Event, f: Event)
    requires e.Data? && f.Data? && e.span == f.span
    ensures Join1(Join1(log, e), f) == Join1(log, Data(e.span, e.bytes + f.bytes))
  {
    ExtendTwice(log, e.span, e.bytes, f.bytes);
  }

  /** Joining from a log is joining from nothing, then joining the result on. */
  lemma {:induction false} JoinJoined(log: seq<Event>, es: seq<Event>)
    ensures Join(log, es) == Join(log, Joined(es))
    decreases |es|
  {
    if es == [] {
    } else {
      var n := |es| - 1;
      var init, e := es[..n], es[n];
      assert es == init + [e];
      JoinLast(log, init, e);
      JoinLast([], init, e);
      JoinJoined(log, init);
      var j := Joined(init);
      if e.Data? && EndsWith(j, e.span) {
        var k := |j| - 1;
        assert j == j[..k] + [j[k]];
        JoinLast(log, j[..k], j[k]);
        JoinLast(log, j[..k], Data(e.span, j[k].bytes + e.bytes));
        Join1Joined(Join(log, j[..k]), j[k], e);
      } else {
        JoinLast(log, j, e);
      }
    }
  }

  lemma JoinedSuffix(a: seq<Event>, b: seq<Event>, c: seq<Event>)
    requires Joined(b) == Joined(c)
    ensures Joined(a + b) == Joined(a + c)
  {
    JoinAppend([], a, b);
    JoinAppend([], a, c);
    JoinJoined(Joined(a), b);
    JoinJoined(Joined(a), c);
  }

  // ---------------------------------------------------------------- the value of a Content-Length

  predicate Digits(bytes: Bytes) { forall i :: 0 <= i < |bytes| ==> IsNum(bytes[i]) }

  /** The number that `v` becomes when the digits are written after it. */
  function Decimal(v: nat, bytes: Bytes): nat
    requires Digits(bytes)
    decreases |bytes|
  {
    if bytes == [] then v else Decimal(v * 10 + Digit(bytes[0]), bytes[1..])
  }

  lemma {:induction false} DecimalGrows(v: nat, bytes: Bytes)
    requires Digits(bytes)
    ensures Decimal(v, bytes) >= v
    ensures bytes != [] ==> Decimal(v, bytes) >= 10 * v
    decreases |bytes|
  {
    if bytes != [] {
      DecimalGrows(v * 10 + Digit(bytes[0]), bytes[1..]);
    }
  }

  lemma {:induction false} DecimalSnoc(v: nat, bytes: Bytes, c: Byte)
    requires Digits(bytes) && IsNum(c)
    ensures Digits(bytes + [c]) && Decimal(v, bytes + [c]) == Decimal(v, bytes) * 10 + Digit(c)
    decreases |bytes|
  {
    if bytes == [] {
      assert ([] + [c])[1..] == [];
      assert Decimal(v * 10 + Digit(c), []) == v * 10 + Digit(c);
    } else {
      assert (bytes + [c])[1..] == bytes[1..] + [c];
      DecimalSnoc(v * 10 + Digit(bytes[0]), bytes[1..], c);
    }
  }

  /** The largest length the conservative overflow test lets through. */
  const MAX_LENGTH: nat := 18446744073709551609

  lemma {:induction false} LengthFold(p: Parser, bytes: Bytes)
    requires p.hs.ContentLengthNum? && Digits(bytes)
    ensures ValueFold(p, bytes) ==
            if bytes == [] then Ok(p)
            else if Decimal(p.length, bytes) <= MAX_LENGTH then Ok(p.(length := Decimal(p.length, bytes)))
            else Err(InvalidContentLength)
    decreases |bytes|
  {
    if bytes != [] {
      DecimalGrows(p.length, bytes);
      var r := ValueByte(p, bytes[0]);
      if r.Ok? {
        assert r.p == p.(length := p.length * 10 + Digit(bytes[0]));
        LengthFold(r.p, bytes[1..]);
      }
    }
  }

  /** A Content-Length is read exactly: the parser gets through its digits precisely when the number fits and
      the header section is within the limit, and then holds that number. */
  lemma ContentLengthExact(limit: nat, p: Parser, bytes: Bytes)
    requires Inv(p) && p.state == Header(DiscardWs) && p.hs.ContentLength? && !p.flags.contentLength
    requires bytes != [] && Digits(bytes)
    ensures var r := Run(limit, p, bytes);
            if p.nread + |bytes| <= limit && Decimal(0, bytes) <= MAX_LENGTH then
              r.Done? && r.p.length == Decimal(0, bytes) && r.p.hs.ContentLengthNum? && r.p.flags.contentLength
              && r.p.state == Header(InValue) && r.p.nread == p.nread + |bytes|
            else r.Failed?
  {
    hide Step, Inv, ValueFold, HeaderInv;
    var rest := bytes[1..];
    FirstDigit(limit, p, bytes[0]);
    DecimalGrows(Digit(bytes[0]), rest);
    if p.nread + 1 <= limit {
      var q := Step(limit, p, bytes[0]).p;
      ValueRun(limit, q, rest);
      LengthFold(q, rest);
    }
  }

  lemma FirstDigit(limit: nat, p: Parser, ch: Byte)
    requires Inv(p) && p.state == Header(DiscardWs) && p.hs.ContentLength? && !p.flags.contentLength && IsNum(ch)
    ensures var out := Step(limit, p, ch);
            if p.nread + 1 > limit then out == Fail(HeaderOverflow)
            else out.Next? && Inv(out.p)
                 && out.p == p.(nread := p.nread + 1, state := Header(InValue), index := 0, length := Digit(ch),
                                flags := p.flags.(contentLength := true), hs := ContentLengthNum)
  {
    hide Inv, Step, Micro, StepFieldStart, StepField, StepDiscardLws, StepValue, StepValueLws,
         StepHeadersAlmostDone, StepHeadersDone;
    FirstDigitInv(p, ch, p.nread + 1);
    if p.nread + 1 > limit {
      Overflows(limit, p, ch);
    } else {
      HeaderMicro(Count(p), DiscardWs, ch);
      StepOnce(limit, p, ch);
    }
  }

  lemma FirstDigitInv(p: Parser, ch: Byte, n: nat)
    requires Inv(p) && p.state == Header(DiscardWs) && IsNum(ch)
    ensures Inv(p.(nread := n, state := Header(InValue), index := 0, length := Digit(ch),
                   flags := p.flags.(contentLength := true), hs := ContentLengthNum))
  {
  }

  // ---------------------------------------------------------------- the value of a chunk size

  /** What the parser takes for a digit of a chunk size: besides the hexadecimal digits every byte of 128 and
      above, for the table of digits holds noughts there. */
  predicate IsSizeDigit(c: Byte) { IsHex(c) || c as int >= 128 }

  predicate SizeDigits(bytes: Bytes) { forall i :: 0 <= i < |bytes| ==> IsSizeDigit(bytes[i]) }

  lemma UnhexDigit(c: Byte)
    ensures Unhex(c) >= 0 <==> IsSizeDigit(c)
    ensures c as int >= 128 ==> Unhex(c) == 0
    ensures IsSizeDigit(c) ==> c != CR
  {
  }

  function DigitValue(c: Byte): (v: nat)
    requires IsSizeDigit(c)
    ensures v <= 15
  {
    UnhexDigit(c);
    Unhex(c)
  }

  function Hexadecimal(v: nat, bytes: Bytes): nat
    requires SizeDigits(bytes)
    decreases |bytes|
  {
    if bytes == [] then v else Hexadecimal(v * 16 + DigitValue(bytes[0]), bytes[1..])
  }

  lemma {:induction false} HexadecimalGrows(v: nat, bytes: Bytes)
    requires SizeDigits(bytes)
    ensures Hexadecimal(v, bytes) >= v
    ensures bytes != [] ==> Hexadecimal(v, bytes) >= 16 * v
    decreases |bytes|
  {
    if bytes != [] {
      HexadecimalGrows(v * 16 + DigitValue(bytes[0]), bytes[1..]);
    }
  }

  const MAX_CHUNK: nat := 18446744073709551599

  lemma SizeStep(limit: nat, p: Parser, ch: Byte)
    requires p.state == Chunk(InSize) && p.flags.chunked && IsSizeDigit(ch)
    ensures Step(limit, p, ch) ==
            if p.nread + 1 > limit then Fail(HeaderOverflow)
            else if p.length * 16 + DigitValue(ch) > MAX_CHUNK then Fail(InvalidContentLength)
            else Next(p.(nread := p.nread + 1, length := p.length * 16 + DigitValue(ch)), [])
  {
    UnhexDigit(ch);
    hide Unhex, IsHex;
    MaxChunk(p.length, DigitValue(ch));
  }

  lemma MaxChunk(n: nat, d: nat)
    requires d <= 15
    ensures n * 16 + d > MAX_CHUNK <==> n > (NO_LENGTH - 16) / 16
  {
  }

  lemma {:induction false} SizeRun(limit: nat, p: Parser, bytes: Bytes)
    requires p.state == Chunk(InSize) && p.flags.chunked && SizeDigits(bytes)
    requires p.nread + |bytes| <= limit && Hexadecimal(p.length, bytes) <= MAX_CHUNK
    ensures Run(limit, p, bytes) ==
            Done(p.(nread := p.nread + |bytes|, length := Hexadecimal(p.length, bytes)), [])
    decreases |bytes|
  {
    hide Step;
    if bytes == [] {
      assert p.(nread := p.nread, length := p.length) == p;
    } else {
      SizeStep(limit, p, bytes[0]);
      HexadecimalGrows(p.length * 16 + DigitValue(bytes[0]), bytes[1..]);
      SizeRun(limit, Step(limit, p, bytes[0]).p, bytes[1..]);
    }
  }

  // ---------------------------------------------------------------- the chunked coding

  /** A chunk as it stands on the wire: any spelling of its size, any extension, and the data. */
  datatype ChunkText = ChunkText(size: Bytes, extension: Bytes, data: Bytes)

  predicate SizeLine(limit: nat, size: Bytes, extension: Bytes, n: nat) {
    && size != [] && SizeDigits(size) && Hexadecimal(0, size) == n && n <= MAX_CHUNK
    && (extension != [] ==> extension[0] == ';' || extension[0] == ' ')
    && (forall i :: 0 <= i < |extension| ==> extension[i] != CR)
    && |size| + |extension| + 2 <= limit
  }

  predicate WellFormed(limit: nat, c: ChunkText) { c.data != [] && SizeLine(limit, c.size, c.extension, |c.data|) }

  function Line(size: Bytes, extension: Bytes): Bytes { size + extension + [CR, LF] }

  function Wire(chunks: seq<ChunkText>): Bytes
    decreases |chunks|
  {
    if chunks == [] then []
    else Line(chunks[0].size, chunks[0].extension) + (chunks[0].data + ([CR, LF] + Wire(chunks[1..])))
  }

  /** What decoding the chunks reports. */
  function ChunkActs(chunks: seq<ChunkText>): seq<Act>
    decreases |chunks|
  {
    if chunks == [] then []
    else
      [Tell(ChunkHeader)]
      + (Takes(Body, chunks[0].data) + ([Close(Body), Tell(ChunkComplete)] + ChunkActs(chunks[1..])))
  }

  function OneChunk(c: ChunkText): seq<Act> {
    [Tell(ChunkHeader)] + (Takes(Body, c.data) + [Close(Body), Tell(ChunkComplete)])
  }

  lemma ChunkActsSplit(chunks: seq<ChunkText>)
    requires chunks != []
    ensures ChunkActs(chunks) == OneChunk(chunks[0]) + ChunkActs(chunks[1..])
  {
    hide Takes;
    var head, data, tail := [Tell(ChunkHeader)], Takes(Body, chunks[0].data), [Close(Body), Tell(ChunkComplete)];
    var rest := ChunkActs(chunks[1..]);
    assert head + (data + (tail + rest)) == head + (data + tail) + rest;
  }

  function OneWire(c: ChunkText): Bytes { Line(c.size, c.extension) + (c.data + [CR, LF]) }

  lemma WireSplit(chunks: seq<ChunkText>)
    requires chunks != []
    ensures Wire(chunks) == OneWire(chunks[0]) + Wire(chunks[1..])
  {
    hide Line;
    var head, data, tail, rest := Line(chunks[0].size, chunks[0].extension), chunks[0].data, [CR, LF],
        Wire(chunks[1..]);
    assert head + (data + (tail + rest)) == head + (data + tail) + rest;
  }

  function ChunkEvents(chunks: seq<ChunkText>): seq<Event>
    decreases |chunks|
  {
    if chunks == [] then []
    else [Notify(ChunkHeader), Data(Body, chunks[0].data), Notify(ChunkComplete)] + ChunkEvents(chunks[1..])
  }

  predicate AtChunk(p: Parser) { Inv(p) && p.state == Chunk(SizeStart) }

  lemma ExtensionStart(limit: nat, p: Parser, ch: Byte)
    requires p.state == Chunk(InSize) && p.flags.chunked && (ch == ';' || ch == ' ') && p.nread + 1 <= limit
    ensures Step(limit, p, ch) == Next(p.(nread := p.nread + 1, state := Chunk(Parameters)), [])
  {
  }

  lemma ExtensionStep(limit: nat, p: Parser, ch: Byte)
    requires p.state == Chunk(Parameters) && p.flags.chunked && ch != CR && p.nread + 1 <= limit
    ensures Step(limit, p, ch) == Next(p.(nread := p.nread + 1), [])
  {
  }

  lemma {:induction false} ExtensionRun(limit: nat, p: Parser, bytes: Bytes)
    requires p.state == Chunk(Parameters) && p.flags.chunked && p.nread + |bytes| <= limit
    requires forall i :: 0 <= i < |bytes| ==> bytes[i] != CR
    ensures Run(limit, p, bytes) == Done(p.(nread := p.nread + |bytes|), [])
    decreases |bytes|
  {
    hide Step;
    if bytes == [] {
      assert p.(nread := p.nread) == p;
    } else {
      ExtensionStep(limit, p, bytes[0]);
      ExtensionRun(limit, p.(nread := p.nread + 1), bytes[1..]);
    }
  }

  lemma SizeStartStep(limit: nat, p: Parser, ch: Byte)
    requires AtChunk(p) && IsSizeDigit(ch) && 1 <= limit
    ensures Step(limit, p, ch) == Next(p.(nread := 1, length := DigitValue(ch), state := Chunk(InSize)), [])
  {
    UnhexDigit(ch);
    hide Unhex, IsHex;
  }

  lemma LineEndSteps(limit: nat, p: Parser, n: nat)
    requires p.state == Chunk(InSize) || p.state == Chunk(Parameters)
    requires p.flags.chunked && p.nread + 2 <= limit
    ensures Step(limit, p, CR) == Next(p.(nread := p.nread + 1, state := Chunk(SizeAlmostDone)), [])
    ensures Step(limit, p.(nread := p.nread + 1, state := Chunk(SizeAlmostDone)), LF) ==
            if p.length == 0 then
              Next(p.(nread := 0, flags := p.flags.(trailing := true), state := Header(FieldStart)),
                    [Tell(ChunkHeader)])
            else Next(p.(nread := 0, state := Chunk(InData)), [Tell(ChunkHeader)])
  {
  }

  lemma RunTwo(limit: nat, p: Parser, x: Byte, y: Byte)
    requires Step(limit, p, x).Next? && Step(limit, Step(limit, p, x).p, y).Next?
    ensures var one := Step(limit, p, x);
            var two := Step(limit, one.p, y);
            Run(limit, p, [x, y]) == Done(two.p, one.acts + two.acts)
  {
    hide Step;
    assert [x, y] == [x] + [y];
    RunAppend(limit, p, [x], [y]);
    RunOne(limit, p, x);
    RunOne(limit, Step(limit, p, x).p, y);
  }

  lemma SizeLineParts(limit: nat, size: Bytes, extension: Bytes, n: nat)
    requires SizeLine(limit, size, extension, n)
    ensures size != [] && SizeDigits(size) && Hexadecimal(0, size) == n && n <= MAX_CHUNK
    ensures extension != [] ==> extension[0] == ';' || extension[0] == ' '
    ensures forall i :: 0 <= i < |extension| ==> extension[i] != CR
    ensures |size| + |extension| + 2 <= limit
    ensures Line(size, extension) == size + extension + [CR, LF]
  {
    hide SizeDigits, Hexadecimal;
  }

  /** The digits of a chunk's size. */
  lemma SizeTextRun(limit: nat, p: Parser, size: Bytes, n: nat)
    requires AtChunk(p) && size != [] && SizeDigits(size) && Hexadecimal(0, size) == n <= MAX_CHUNK && |size| <= limit
    ensures Run(limit, p, size) == Done(p.(nread := |size|, length := n, state := Chunk(InSize)), [])
  {
    hide Step, AtChunk, DigitValue, IsSizeDigit;
    ChunkFlags(p);
    assert IsSizeDigit(size[0]);
    SizeStartStep(limit, p, size[0]);
    assert Hexadecimal(0, size) == Hexadecimal(DigitValue(size[0]), size[1..]);
    SizeRun(limit, p.(nread := 1, length := DigitValue(size[0]), state := Chunk(InSize)), size[1..]);
  }

  lemma ExtensionTextRun(limit: nat, p: Parser, extension: Bytes)
    requires p.state == Chunk(InSize) && p.flags.chunked && p.nread + |extension| <= limit
    requires extension != [] && (extension[0] == ';' || extension[0] == ' ')
    requires forall i :: 0 <= i < |extension| ==> extension[i] != CR
    ensures Run(limit, p, extension) == Done(p.(nread := p.nread + |extension|, state := Chunk(Parameters)), [])
  {
    hide Step;
    ExtensionStart(limit, p, extension[0]);
    ExtensionRun(limit, p.(nread := p.nread + 1, state := Chunk(Parameters)), extension[1..]);
  }

  lemma ContinueQuietly(n: nat, rest: Outcome)
    requires rest.Done?
    ensures Continue([], n, rest) == rest
  {
    var none: seq<Act> := [];
    assert none + rest.acts == rest.acts;
  }

  /** A size line leads to the data, or after a zero size to the trailer. */
  lemma LineRun(limit: nat, p: Parser, size: Bytes, extension: Bytes, n: nat)
    requires AtChunk(p) && SizeLine(limit, size, extension, n)
    ensures Run(limit, p, Line(size, extension)) ==
            if n == 0 then
              Done(p.(nread := 0, length := 0, flags := p.flags.(trailing := true), state := Header(FieldStart)),
                   [Tell(ChunkHeader)])
            else Done(p.(nread := 0, length := n, state := Chunk(InData)), [Tell(ChunkHeader)])
  {
    hide *;
    SizeLineParts(limit, size, extension, n);
    ChunkFlags(p);
    var p2 := p.(nread := |size|, length := n, state := Chunk(InSize));
    SizeTextRun(limit, p, size, n);
    var p3 := p2;
    if extension == [] {
      assert size + extension == size;
    } else {
      p3 := p2.(nread := |size| + |extension|, state := Chunk(Parameters));
      ExtensionTextRun(limit, p2, extension);
      RunAppend(limit, p, size, extension);
      ContinueQuietly(|size|, Done(p3, []));
    }
    LineEndSteps(limit, p3, n);
    RunTwo(limit, p3, CR, LF);
    RunAppend(limit, p, size + extension, [CR, LF]);
    ContinueQuietly(|size + extension|, Run(limit, p3, [CR, LF]));
  }

  // Which sizes are accepted.

  lemma {:induction false} ParametersStay(limit: nat, p: Parser, bytes: Bytes)
    requires p.state == Chunk(Parameters) && p.flags.chunked && CR !in bytes
    ensures Run(limit, p, bytes).Done? ==> Run(limit, p, bytes).p.state == Chunk(Parameters)
    decreases |bytes|
  {
    hide Step;
    if bytes != [] {
      ParameterByte(limit, p, bytes[0]);
      if p.nread + 1 <= limit {
        ParametersStay(limit, Step(limit, p, bytes[0]).p, bytes[1..]);
      }
    }
  }

  lemma ParameterByte(limit: nat, p: Parser, ch: Byte)
    requires p.state == Chunk(Parameters) && p.flags.chunked && ch != CR
    ensures Step(limit, p, ch) == if p.nread + 1 > limit then Fail(HeaderOverflow)
            else Next(p.(nread := p.nread + 1), [])
  {
  }

  lemma NoDigit(limit: nat, p: Parser, ch: Byte)
    requires p.state == Chunk(InSize) && p.flags.chunked && ch != CR && !IsSizeDigit(ch)
    ensures var out := Step(limit, p, ch);
            out.Fail? || out == Next(p.(nread := p.nread + 1, state := Chunk(Parameters)), [])
  {
    UnhexDigit(ch);
    hide Unhex, IsHex;
  }

  lemma {:induction false} SizeRunOnly(limit: nat, p: Parser, bytes: Bytes)
    requires p.state == Chunk(InSize) && p.flags.chunked && CR !in bytes && p.length <= MAX_CHUNK && p.nread <= limit
    requires Run(limit, p, bytes).Done? && Run(limit, p, bytes).p.state == Chunk(InSize)
    ensures SizeDigits(bytes) && Hexadecimal(p.length, bytes) <= MAX_CHUNK && p.nread + |bytes| <= limit
    ensures Run(limit, p, bytes).p.length == Hexadecimal(p.length, bytes)
    decreases |bytes|
  {
    hide Step, IsSizeDigit, DigitValue;
    if bytes != [] {
      var ch, rest := bytes[0], bytes[1..];
      if IsSizeDigit(ch) {
        SizeStep(limit, p, ch);
        SizeRunOnly(limit, Step(limit, p, ch).p, rest);
        assert forall i :: 0 < i < |bytes| ==> bytes[i] == rest[i - 1];
      } else {
        NoDigit(limit, p, ch);
        ParametersStay(limit, Step(limit, p, ch).p, rest);
      }
    }
  }

  predicate SizeTaken(limit: nat, p: Parser, bytes: Bytes, n: nat) {
    var r := Run(limit, p, bytes);
    r.Done? && r.p.state == Chunk(InSize) && r.p.length == n
  }

  predicate SizeText(limit: nat, bytes: Bytes, n: nat) {
    SizeDigits(bytes) && Hexadecimal(0, bytes) == n && n <= MAX_CHUNK && |bytes| <= limit
  }

  lemma SizeStartOnly(limit: nat, p: Parser, ch: Byte)
    requires AtChunk(p)
    ensures !Step(limit, p, ch).Fail? ==> IsSizeDigit(ch) && 1 <= limit
  {
    UnhexDigit(ch);
    hide Unhex, IsHex;
  }

  /** Which bytes are taken for the size of a chunk, and for which: those that are hexadecimal digits or at least
      128, when their value is below the conservative bound and the limit allows them. */
  lemma ChunkSizeExact(limit: nat, p: Parser, bytes: Bytes, n: nat)
    requires AtChunk(p) && bytes != [] && CR !in bytes
    ensures SizeTaken(limit, p, bytes, n) <==> SizeText(limit, bytes, n)
  {
    ChunkFlags(p);
    hide Step, Inv, IsSizeDigit, DigitValue, AtChunk;
    var ch, rest := bytes[0], bytes[1..];
    SizeStartOnly(limit, p, ch);
    if IsSizeDigit(ch) && 1 <= limit {
      SizeStartStep(limit, p, ch);
      var q := Step(limit, p, ch).p;
      assert SizeDigits(bytes)
             <==> SizeDigits(rest) by { assert forall i :: 0 < i < |bytes| ==> bytes[i] == rest[i - 1]; }
      if SizeDigits(bytes) {
        assert Hexadecimal(0, bytes) == Hexadecimal(DigitValue(ch), rest);
      }
      if SizeTaken(limit, p, bytes, n) {
        SizeRunOnly(limit, q, rest);
      } else if SizeText(limit, bytes, n) {
        SizeRun(limit, q, rest);
      }
    }
  }

  /** A size that is taken is one by section 4.1 of RFC 7230 exactly when no byte of it is 128 or above. */
  lemma SizeByStandard(limit: nat, p: Parser, bytes: Bytes, n: nat)
    requires AtChunk(p) && bytes != [] && CR !in bytes && SizeTaken(limit, p, bytes, n)
    ensures (forall i :: 0 <= i < |bytes| ==> IsHex(bytes[i]))
            <==> (forall i :: 0 <= i < |bytes| ==> bytes[i] as int < 128)
  {
    hide SizeTaken, AtChunk, IsHex;
    ChunkSizeExact(limit, p, bytes, n);
    forall i | 0 <= i < |bytes|
      ensures IsHex(bytes[i]) <==> (bytes[i] as int < 128)
    {
      HexSmall(bytes[i]);
      assert IsSizeDigit(bytes[i]);
    }
  }

  lemma HexSmall(c: Byte)
    ensures IsHex(c) ==> c as int < 128
  {
  }

  /** For example a byte of 128 and a "5" are read as 5. */
  lemma SizeWitness(limit: nat, p: Parser)
    requires AtChunk(p) && limit >= 2
    ensures SizeTaken(limit, p, [128 as char, '5'], 5)
  {
    var bytes: Bytes := [128 as char, '5'];
    assert bytes[1..] == ['5'] && bytes[1..][1..] == [];
    assert Hexadecimal(5, bytes[1..][1..]) == 5;
    assert DigitValue(bytes[0]) == 0 && DigitValue(bytes[1..][0]) == 5;
    assert Hexadecimal(0, bytes[1..]) == 5;
    hide SizeTaken, AtChunk;
    ChunkSizeExact(limit, p, bytes, 5);
  }

  lemma ChunkFlags(p: Parser)
    requires AtChunk(p)
    ensures p.flags.chunked && p.te && !p.flags.trailing && p.nread == 0 && !p.kind.Both?
  {
  }

  lemma DataEndSteps(limit: nat, p: Parser)
    requires p.state == Chunk(DataAlmostDone) && p.flags.chunked && p.length == 0
    ensures Step(limit, p, CR) == Next(p.(state := Chunk(DataDone)), [Close(Body)])
    ensures Step(limit, p.(state := Chunk(DataDone)), LF) ==
            Next(p.(nread := 0, state := Chunk(SizeStart)), [Tell(ChunkComplete)])
  {
  }

  lemma ChunkAgain(p: Parser, q: Parser)
    requires AtChunk(p) && q == p.(length := 0)
    ensures AtChunk(q)
  {
  }

  /** One chunk. */
  lemma ChunkRun(limit: nat, p: Parser, c: ChunkText)
    requires AtChunk(p) && WellFormed(limit, c)
    ensures Run(limit, p, OneWire(c)) == Done(p.(length := 0), OneChunk(c))
  {
    hide Step, Inv, Line;
    ChunkFlags(p);
    LineRun(limit, p, c.size, c.extension, |c.data|);
    var q := p.(nread := 0, length := |c.data|, state := Chunk(InData));
    ChunkDataRun(limit, q, c.data);
    var r := q.(length := 0, state := Chunk(DataAlmostDone));
    DataEndSteps(limit, r);
    RunTwo(limit, r, CR, LF);
    RunAppend(limit, q, c.data, [CR, LF]);
    RunAppend(limit, p, Line(c.size, c.extension), c.data + [CR, LF]);
    assert [Close(Body)] + [Tell(ChunkComplete)] == [Close(Body), Tell(ChunkComplete)];
    assert p.(length := 0) == r.(nread := 0, state := Chunk(SizeStart));
  }

  /** Any list of chunks, back to the start of the next. */
  lemma {:induction false} ChunksRun(limit: nat, p: Parser, chunks: seq<ChunkText>)
    requires AtChunk(p) && forall c :: c in chunks ==> WellFormed(limit, c)
    ensures Run(limit, p, Wire(chunks)) == Done(if chunks == [] then p else p.(length := 0), ChunkActs(chunks))
    decreases |chunks|
  {
    hide Run, Inv, OneWire, OneChunk, WellFormed, Takes, Line;
    if chunks == [] {
      assert Run(limit, p, []) == Done(p, []) by { RunNone(limit, p); }
    } else {
      var rest := chunks[1..];
      ChunkRun(limit, p, chunks[0]);
      ChunkAgain(p, p.(length := 0));
      ChunksRun(limit, p.(length := 0), rest);
      WireSplit(chunks);
      ChunkActsSplit(chunks);
      RunAppend(limit, p, OneWire(chunks[0]), Wire(rest));
    }
  }

  lemma RunNone(limit: nat, p: Parser)
    ensures Run(limit, p, []) == Done(p, [])
  {
  }

  lemma EndReturn(limit: nat, p: Parser)
    requires p.state == Header(FieldStart) && p.nread + 1 <= limit
    ensures Step(limit, p, CR) == Next(p.(nread := p.nread + 1, state := Header(HeadersAlmostDone)), [])
  {
    hide Step, Micro, StepField, StepDiscardWs, StepDiscardLws, StepValueStart, StepValue, StepValueLws,
         StepHeadersAlmostDone, StepHeadersDone;
    HeaderMicro(Count(p), FieldStart, CR);
    StepOnce(limit, p, CR);
  }

  lemma TrailerLoop(r: Parser)
    requires r.state == Header(HeadersAlmostDone) && r.flags.trailing
    ensures var q := Complete(r.(state := MessageDone));
            var acts := [Tell(ChunkComplete)] + [Tell(MessageComplete)];
            Loop(r, LF) == if r.upgrade then Halt(q, acts) else Next(q, acts)
  {
    hide Complete, Loop, StepFieldStart, StepField, StepDiscardWs, StepDiscardLws, StepValueStart, StepValue,
         StepValueLws, StepHeadersDone;
    LoopAgain(r, LF, r.(state := MessageDone), [Tell(ChunkComplete)]);
    LoopOnce(r.(state := MessageDone), LF);
  }

  lemma TrailerEnd(limit: nat, p: Parser)
    requires p.nread + 2 <= limit
    ensures var r := p.(nread := p.nread + 1, state := Header(HeadersAlmostDone));
            Step(limit, r, LF) == Loop(r.(nread := p.nread + 2), LF)
  {
    hide Loop;
  }

  lemma TrailerSteps(limit: nat, p: Parser)
    requires p.state == Header(FieldStart) && p.flags.trailing && p.nread + 2 <= limit
    ensures Step(limit, p, CR) == Next(p.(nread := p.nread + 1, state := Header(HeadersAlmostDone)), [])
    ensures Step(limit, p.(nread := p.nread + 1, state := Header(HeadersAlmostDone)), LF) ==
            var q := Complete(p.(nread := p.nread + 2, state := MessageDone));
            var acts := [Tell(ChunkComplete)] + [Tell(MessageComplete)];
            if p.upgrade then Halt(q, acts) else Next(q, acts)
  {
    hide Complete, Step, Loop, Micro, Prepend;
    EndReturn(limit, p);
    TrailerLoop(p.(nread := p.nread + 2, state := Header(HeadersAlmostDone)));
    TrailerEnd(limit, p);
  }

  /** The acts at the end of a chunked message. */
  const LAST_CHUNK := [Tell(ChunkHeader), Tell(ChunkComplete), Tell(MessageComplete)]

  /** Decoding the chunked coding.  From the start of a chunk, any list of nonempty chunks in any spelling,
      closed by a zero chunk and an empty trailer, is consumed to its last byte; the acts are those of the
      chunks in order, and one end of message.  Only then, for an upgraded connection, does the call end early. */
  lemma ChunkedDecodes(limit: nat, p: Parser, chunks: seq<ChunkText>, zero: Bytes, extension: Bytes)
    requires AtChunk(p) && SizeLine(limit, zero, extension, 0)
    requires forall c :: c in chunks ==> WellFormed(limit, c)
    ensures var text := Wire(chunks) + (Line(zero, extension) + [CR, LF]);
            var r := Run(limit, p, text);
            && (if p.upgrade then r.Stopped? && r.used == |text| else r.Done?)
            && r.acts == ChunkActs(chunks) + LAST_CHUNK
            && r.p == Complete(p.(nread := 2, length := 0, flags := p.flags.(trailing := true), state := MessageDone))
  {
    hide Run, Inv, Step, Line, WellFormed, SizeLine, Complete;
    var q := if chunks == [] then p else p.(length := 0);
    ChunksRun(limit, p, chunks);
    ChunkAgain(p, p.(length := 0));
    LineRun(limit, q, zero, extension, 0);
    assert 2 <= limit by { SizeLineLimit(limit, zero, extension, 0); }
    var r := q.(nread := 0, length := 0, flags := q.flags.(trailing := true), state := Header(FieldStart));
    TrailerSteps(limit, r);
    var r1 := r.(nread := 1, state := Header(HeadersAlmostDone));
    RunOne(limit, r, CR);
    RunOne(limit, r1, LF);
    assert [CR, LF] == [CR] + [LF];
    RunAppend(limit, r, [CR], [LF]);
    RunAppend(limit, q, Line(zero, extension), [CR, LF]);
    RunAppend(limit, p, Wire(chunks), Line(zero, extension) + [CR, LF]);
    ChunkFlags(q);
    assert [Tell(ChunkHeader)] + ([] + ([Tell(ChunkComplete)] + [Tell(MessageComplete)])) == LAST_CHUNK;
  }

  lemma SizeLineLimit(limit: nat, size: Bytes, extension: Bytes, n: nat)
    requires SizeLine(limit, size, extension, n)
    ensures 2 <= limit
  {
  }

  lemma RenderChunk(log: seq<Event>, c: ChunkText)
    requires c.data != []
    ensures Render(log, OneChunk(c)) == log + [Notify(ChunkHeader), Data(Body, c.data), Notify(ChunkComplete)]
  {
    hide Render1, Render, Takes;
    var log1 := log + [Notify(ChunkHeader)];
    var log2 := log1 + [Data(Body, c.data)];
    var tail := [Close(Body)] + [Tell(ChunkComplete)];
    RenderTell(log, ChunkHeader, Takes(Body, c.data) + tail);
    RenderAppend(log1, Takes(Body, c.data), tail);
    RenderTakesNew(log1, Body, c.data);
    RenderClose(log2, Body, [Tell(ChunkComplete)]);
    RenderTell(log2, ChunkComplete, []);
    assert [Tell(ChunkComplete)] + [] == [Tell(ChunkComplete)];
    RenderNone(log2 + [Notify(ChunkComplete)]);
    assert OneChunk(c) == [Tell(ChunkHeader)] + (Takes(Body, c.data) + tail) by {
      assert tail == [Close(Body), Tell(ChunkComplete)];
    }
    assert log2 + [Notify(ChunkComplete)] == log + [Notify(ChunkHeader), Data(Body, c.data), Notify(ChunkComplete)];
  }

  lemma RenderNone(log: seq<Event>)
    ensures Render(log, []) == log
  {
  }

  /** The acts of a list of chunks are rendered as one body event per chunk. */
  lemma {:induction false} RenderChunks(log: seq<Event>, chunks: seq<ChunkText>)
    requires forall c :: c in chunks ==> c.data != []
    ensures Render(log, ChunkActs(chunks)) == log + ChunkEvents(chunks)
    decreases |chunks|
  {
    hide Render1, Render, OneChunk, Takes;
    if chunks == [] {
      RenderNone(log);
    } else {
      var c, rest := chunks[0], ChunkActs(chunks[1..]);
      var log3 := log + [Notify(ChunkHeader), Data(Body, c.data), Notify(ChunkComplete)];
      ChunkActsSplit(chunks);
      RenderAppend(log, OneChunk(c), rest);
      RenderChunk(log, c);
      RenderChunks(log3, chunks[1..]);
      assert log3 + ChunkEvents(chunks[1..]) == log + ChunkEvents(chunks);
    }
  }

  lemma RenderTell(log: seq<Event>, n: Note, rest: seq<Act>)
    ensures Render(log, [Tell(n)] + rest) == Render(log + [Notify(n)], rest)
  {
    assert ([Tell(n)] + rest)[1..] == rest;
  }

  lemma RenderClose(log: seq<Event>, s: Span, rest: seq<Act>)
    ensures Render(log, [Close(s)] + rest) == Render(log, rest)
  {
    assert ([Close(s)] + rest)[1..] == rest;
  }

  /** The body a log reports. */
  function BodyOf(log: seq<Event>): Bytes
    decreases |log|
  {
    if log == [] then []
    else (if log[0].Data? && log[0].span.Body? then log[0].bytes else []) + BodyOf(log[1..])
  }

  function CountOf(log: seq<Event>, n: Note): nat
    decreases |log|
  {
    if log == [] then 0 else (if log[0] == Notify(n) then 1 else 0) + CountOf(log[1..], n)
  }

  function AllData(chunks: seq<ChunkText>): Bytes
    decreases |chunks|
  {
    if chunks == [] then [] else chunks[0].data + AllData(chunks[1..])
  }

  lemma {:induction false} CountAppend(a: seq<Event>, b: seq<Event>, n: Note)
    ensures CountOf(a + b, n) == CountOf(a, n) + CountOf(b, n)
    decreases |a|
  {
    if a == [] {
      assert a + b == b;
    } else {
      assert (a + b)[0] == a[0] && (a + b)[1..] == a[1..] + b;
      CountAppend(a[1..], b, n);
    }
  }

  lemma {:induction false} BodyAppend(a: seq<Event>, b: seq<Event>, n: Note)
    ensures BodyOf(a + b) == BodyOf(a) + BodyOf(b)
    ensures CountOf(a + b, n) == CountOf(a, n) + CountOf(b, n)
    decreases |a|
  {
    hide CountOf;
    CountAppend(a, b, n);
    if a == [] {
      assert a + b == b;
    } else {
      assert (a + b)[0] == a[0] && (a + b)[1..] == a[1..] + b;
      BodyAppend(a[1..], b, n);
    }
  }

  lemma BodyOne(e: Event, n: Note)
    ensures BodyOf([e]) == if e.Data? && e.span.Body? then e.bytes else []
    ensures CountOf([e], n) == if e == Notify(n) then 1 else 0
  {
    assert [e][1..] == [];
  }

  lemma BodyThree(a: Event, b: Event, c: Event, n: Note)
    ensures BodyOf([a, b, c]) == BodyOf([a]) + BodyOf([b]) + BodyOf([c])
    ensures CountOf([a, b, c], n) == CountOf([a], n) + CountOf([b], n) + CountOf([c], n)
  {
    assert [a, b, c] == [a] + [b] + [c];
    BodyAppend([a] + [b], [c], n);
    BodyAppend([a], [b], n);
  }

  /** The events of one chunk. */
  lemma ChunkEventsOne(data: Bytes)
    ensures var three := [Notify(ChunkHeader), Data(Body, data), Notify(ChunkComplete)];
            BodyOf(three) == data && CountOf(three, MessageComplete) == 0
  {
    hide BodyOf, CountOf;
    var a, b, c := Notify(ChunkHeader), Data(Body, data), Notify(ChunkComplete);
    BodyThree(a, b, c, MessageComplete);
    BodyOne(a, MessageComplete);
    BodyOne(b, MessageComplete);
    BodyOne(c, MessageComplete);
  }

  lemma {:induction false} ChunkEventsBody(chunks: seq<ChunkText>)
    ensures BodyOf(ChunkEvents(chunks)) == AllData(chunks)
    ensures CountOf(ChunkEvents(chunks), MessageComplete) == 0
    decreases |chunks|
  {
    hide BodyOf, CountOf;
    if chunks == [] {
      BodyNone();
    } else {
      var three := [Notify(ChunkHeader), Data(Body, chunks[0].data), Notify(ChunkComplete)];
      ChunkEventsOne(chunks[0].data);
      BodyAppend(three, ChunkEvents(chunks[1..]), MessageComplete);
      ChunkEventsBody(chunks[1..]);
    }
  }

  lemma BodyNone()
    ensures BodyOf([]) == [] && CountOf([], MessageComplete) == 0
  {
  }

  /** In terms of callbacks: the body delivered is the concatenation of the chunks, with one end of message. */
  lemma ChunkedBody(limit: nat, p: Parser, chunks: seq<ChunkText>, zero: Bytes, extension: Bytes)
    requires AtChunk(p) && SizeLine(limit, zero, extension, 0)
    requires forall c :: c in chunks ==> WellFormed(limit, c)
    ensures var r := Run(limit, p, Wire(chunks) + (Line(zero, extension) + [CR, LF]));
            && (r.Done? || r.Stopped?)
            && BodyOf(Reported(p, r.acts)) == AllData(chunks)
            && CountOf(Reported(p, r.acts), MessageComplete) == 1
  {
    hide Run, SizeLine, Inv, Line, Render, Render1, BodyOf, CountOf, Wire, ChunkActs;
    ChunkedDecodes(limit, p, chunks, zero, extension);
    RenderAppend([], ChunkActs(chunks), LAST_CHUNK);
    RenderChunks([], chunks);
    var log := ChunkEvents(chunks);
    assert [] + log == log;
    RenderLast(log);
    ChunkEventsBody(chunks);
    var a, b, c := Notify(ChunkHeader), Notify(ChunkComplete), Notify(MessageComplete);
    BodyThree(a, b, c, MessageComplete);
    BodyOne(a, MessageComplete);
    BodyOne(b, MessageComplete);
    BodyOne(c, MessageComplete);
    BodyAppend(log, [a, b, c], MessageComplete);
  }

  lemma RenderLast(log: seq<Event>)
    ensures Render(log, LAST_CHUNK) == log + [Notify(ChunkHeader), Notify(ChunkComplete), Notify(MessageComplete)]
  {
    hide Render, Render1;
    var a, b, c := [Tell(ChunkHeader)], [Tell(ChunkComplete)], [Tell(MessageComplete)];
    assert LAST_CHUNK == a + (b + (c + []));
    RenderTell(log, ChunkHeader, b + (c + []));
    RenderTell(log + [Notify(ChunkHeader)], ChunkComplete, c + []);
    RenderTell(log + [Notify(ChunkHeader)] + [Notify(ChunkComplete)], MessageComplete, []);
    RenderNone(log + [Notify(ChunkHeader)] + [Notify(ChunkComplete)] + [Notify(MessageComplete)]);
  }
}
