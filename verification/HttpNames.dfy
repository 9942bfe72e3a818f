/** What the nested name matcher makes of a whole header name, and the run over a whole header line. */
module HttpNames {
  import opened HttpSyntax
  import opened HttpMachine
  import opened HttpInvariant
  import opened HttpRun
  import opened HttpSpans

  function Lowered(name: Bytes): (low: Bytes)
    ensures |low| == |name|
  {
    seq(|name|, i requires 0 <= i < |name| => Lower(name[i]))
  }

  const CONNECTION: Bytes := "connection"
  const CONTENT_LENGTH: Bytes := "content-length"
  const PROXY_CONNECTION: Bytes := "proxy-connection"
  const TRANSFER_ENCODING: Bytes := "transfer-encoding"
  const UPGRADE: Bytes := "upgrade"

  /** A name against one word: on the way to it, equal to it, or off it. */
  function Aimed(low: Bytes, word: Bytes, matching: HeaderState, found: HeaderState): HeaderState {
    if low == word then found else if low <= word then matching else General
  }

  /** The matcher's state after a nonempty name, given in lower case. */
  function NameHs(low: Bytes): HeaderState
    requires low != []
  {
    if low[0] == 'c' then
      if |low| == 1 then HC
      else if low[1] != 'o' then General
      else if |low| == 2 then HCO
      else if low[2] != 'n' then General
      else if |low| == 3 then HCON
      else if low[3] == 'n' then Aimed(low, CONNECTION, MatchingConnection, Connection)
      else if low[3] == 't' then Aimed(low, CONTENT_LENGTH, MatchingContentLength, ContentLength)
      else General
    else if low[0] == 'p' then Aimed(low, PROXY_CONNECTION, MatchingProxyConnection, Connection)
    else if low[0] == 't' then Aimed(low, TRANSFER_ENCODING, MatchingTransferEncoding, TransferEncoding)
    else if low[0] == 'u' then Aimed(low, UPGRADE, MatchingUpgrade, Upgrade)
    else General
  }

  /** Names that begin like the transfer coding header, however they go on. */
  predicate BeginsTe(low: Bytes) { TRANSFER_ENCODING <= low }

  predicate Matching(hs: HeaderState) {
    || hs.HC? || hs.HCO? || hs.HCON? || hs.MatchingConnection? || hs.MatchingContentLength?
    || hs.MatchingProxyConnection? || hs.MatchingTransferEncoding? || hs.MatchingUpgrade?
  }

  lemma PrefixSnoc(low: Bytes, c: Byte, word: Bytes)
    ensures low + [c] <= word <==> low < word && word[|low|] == c
    ensures word <= low + [c] <==> word <= low || word == low + [c]
  {
    var x := low + [c];
    assert x[..|low|] == low;
    if x <= word {
      assert word[..|low|] == x[..|low|];
      assert word[|low|] == x[|low|];
    }
    if low < word && word[|low|] == c {
      assert word[..|x|] == x;
    }
    if word <= x && |word| <= |low| {
      assert word == x[..|word|] == low[..|word|];
    }
    if word <= low {
      assert word == low[..|word|] == x[..|word|];
    }
  }

  lemma AimedSnoc(low: Bytes, c: Byte, word: Bytes, matching: HeaderState, found: HeaderState)
    requires matching != found && matching != General && found != General
    ensures Aimed(low + [c], word, matching, found) ==
            if Aimed(low, word, matching, found) == matching then Match(matching, word, |low|, c, found, General)
            else General
  {
    PrefixSnoc(low, c, word);
  }

  /** What the matcher's state says about the name so far. */
  predicate Tracks(p: Parser, low: Bytes, te: bool) {
    && low != [] && p.hs == NameHs(low) && (Matching(p.hs) ==> p.index == |low| - 1)
    && p.te == (te || BeginsTe(low))
  }

  lemma Words()
    ensures CONNECTION == "connection" && CONTENT_LENGTH == "content-length" && PROXY_CONNECTION == "proxy-connection"
    ensures TRANSFER_ENCODING == "transfer-encoding" && UPGRADE == "upgrade"
    ensures |CONNECTION| == 10 && |CONTENT_LENGTH| == 14 && |PROXY_CONNECTION| == 16 && |TRANSFER_ENCODING| == 17
    ensures |UPGRADE| == 7
  {
  }

  function NextHs(hs: HeaderState, i: nat, c: Byte): HeaderState {
    match hs
    case HC => if c == 'o' then HCO else General
    case HCO => if c == 'n' then HCON else General
    case HCON => if c == 'n' then MatchingConnection else if c == 't' then MatchingContentLength else General
    case MatchingConnection => Match(hs, "connection", i, c, Connection, General)
    case MatchingContentLength => Match(hs, "content-length", i, c, ContentLength, General)
    case MatchingProxyConnection => Match(hs, "proxy-connection", i, c, Connection, General)
    case MatchingTransferEncoding => Match(hs, "transfer-encoding", i, c, TransferEncoding, General)
    case MatchingUpgrade => Match(hs, "upgrade", i, c, Upgrade, General)
    case _ => General
  }

  lemma NameHsC(low: Bytes, c: Byte)
    requires low != [] && low[0] == 'c'
    ensures NameHs(low + [c]) == NextHs(NameHs(low), |low|, c)
  {
    hide Match;
    Words();
    if |low| < 4 {
      ConStart(low, c);
    } else {
      AimedSnoc(low, c, CONNECTION, MatchingConnection, Connection);
      AimedSnoc(low, c, CONTENT_LENGTH, MatchingContentLength, ContentLength);
    }
  }

  lemma ConStart(low: Bytes, c: Byte)
    requires 1 <= |low| < 4 && low[0] == 'c'
    ensures NameHs(low + [c]) == NextHs(NameHs(low), |low|, c)
  {
    var more := low + [c];
    if |low| == 3 && low[1] == 'o' && low[2] == 'n' {
      if c == 'n' {
        assert more == ['c', 'o', 'n', 'n'] == CONNECTION[..4];
      } else if c == 't' {
        assert more == ['c', 'o', 'n', 't'] == CONTENT_LENGTH[..4];
      }
    }
  }

  lemma NameHsSnoc(low: Bytes, c: Byte)
    requires low != []
    ensures NameHs(low + [c]) == NextHs(NameHs(low), |low|, c)
  {
    hide Match;
    Words();
    if low[0] == 'c' {
      NameHsC(low, c);
    } else if low[0] == 'p' {
      AimedSnoc(low, c, PROXY_CONNECTION, MatchingProxyConnection, Connection);
    } else if low[0] == 't' {
      AimedSnoc(low, c, TRANSFER_ENCODING, MatchingTransferEncoding, TransferEncoding);
    } else if low[0] == 'u' {
      AimedSnoc(low, c, UPGRADE, MatchingUpgrade, Upgrade);
    }
  }

  lemma BeginsTeSnoc(low: Bytes, c: Byte)
    requires low != []
    ensures BeginsTe(low + [c]) <==> BeginsTe(low) || NameHs(low + [c]) == TransferEncoding
  {
    PrefixSnoc(low, c, TRANSFER_ENCODING);
  }

  /** The byte moves the matcher on as `NextHs` says. */
  lemma FieldByteNext(p: Parser, ch: Byte, i: nat)
    requires IsToken(ch) && (Matching(p.hs) ==> i == p.index + 1 < 32)
    ensures var q := FieldByte(p, ch);
            && q.hs == NextHs(p.hs, i, Lower(ch)) && q.te == (p.te || q.hs.TransferEncoding?)
            && (Matching(q.hs) ==> q.index == i)
  {
    hide IsToken, Lower;
    assert Matching(p.hs) ==> Bump(p.index) == i;
    hide Bump;
  }

  /** One byte of a name keeps track of it. */
  lemma TrackByte(p: Parser, low: Bytes, te: bool, ch: Byte)
    requires Tracks(p, low, te) && IsToken(ch)
    ensures Tracks(FieldByte(p, ch), low + [Lower(ch)], te)
  {
    hide IsToken, Lower, NameHs, BeginsTe, FieldByte, NextHs, Match, Matching;
    var c := Lower(ch);
    NameHsSnoc(low, c);
    BeginsTeSnoc(low, c);
    if Matching(p.hs) {
      ShortNames(low);
    }
    FieldByteNext(p, ch, |low|);
  }

  lemma ShortNames(low: Bytes)
    requires low != [] && Matching(NameHs(low))
    ensures |low| < 17
  {
    Words();
  }

  lemma {:induction false} TrackFold(p: Parser, low: Bytes, te: bool, bytes: Bytes)
    requires Tracks(p, low, te) && Tokens(bytes)
    ensures Tracks(FieldFold(p, bytes), low + Lowered(bytes), te)
    decreases |bytes|
  {
    hide Tracks, FieldByte;
    if bytes == [] {
      assert low + Lowered(bytes) == low;
    } else {
      TrackByte(p, low, te, bytes[0]);
      var more := low + [Lower(bytes[0])];
      TrackFold(FieldByte(p, bytes[0]), more, te, bytes[1..]);
      assert more + Lowered(bytes[1..]) == low + Lowered(bytes);
    }
  }

  /** The parser as it stands after the first byte of a name. */
  function NameStart(p: Parser, ch: Byte): Parser {
    p.(nread := p.nread + 1, index := 0, state := Header(InField), hs := FirstFieldState(Lower(ch)))
  }

  lemma TrackStart(p: Parser, ch: Byte)
    ensures Tracks(NameStart(p, ch), [Lower(ch)], p.te)
  {
    Words();
  }

  lemma FieldStartStep(limit: nat, p: Parser, ch: Byte)
    requires Inv(p) && p.state == Header(FieldStart) && IsToken(ch) && p.nread + 1 <= limit
    ensures Step(limit, p, ch) == Next(NameStart(p, ch), [Open(Field), Take(Field, ch)])
    ensures Inv(NameStart(p, ch))
  {
    var c := Lower(ch);
    assert NameStart(p, ch) ==
           p.(nread := p.nread + 1).(index := 0, state := Header(InField), hs := FirstFieldState(c));
    assert FieldHs(FirstFieldState(c)) && !TeHs(FirstFieldState(c));
  }

  lemma {:induction false} FieldFoldKeeps(p: Parser, bytes: Bytes)
    requires HeaderInv(p, InField) && p.state == Header(InField) && Tokens(bytes)
    ensures var q := FieldFold(p, bytes); q == p.(hs := q.hs, index := q.index, te := q.te)
    decreases |bytes|
  {
    hide FieldByte, HeaderInv;
    if bytes != [] {
      FieldByteInv(p, bytes[0]);
      FieldFoldKeeps(FieldByte(p, bytes[0]), bytes[1..]);
    }
  }

  lemma FirstToken(name: Bytes)
    requires name != [] && Tokens(name)
    ensures IsToken(name[0]) && Tokens(name[1..])
  {
    hide IsToken;
  }

  lemma InFieldCount(p: Parser, n: nat)
    requires Inv(p) && p.state == Header(InField)
    ensures Inv(p.(nread := n))
  {
    hide HeaderInv;
    HeaderInvCount(p, InField, n);
  }

  /** What the matcher makes of a name. */
  lemma NameFolds(p: Parser, name: Bytes)
    requires name != [] && Tokens(name) && Inv(NameStart(p, name[0]))
    ensures var p1 := NameStart(p, name[0]);
            var f := FieldFold(p1, name[1..]);
            && f == p1.(hs := f.hs, index := f.index, te := f.te)
            && f.hs == NameHs(Lowered(name)) && f.te == (p.te || BeginsTe(Lowered(name)))
  {
    hide HeaderInv, FieldByte, FieldFold, NameHs, BeginsTe, IsToken;
    var p1, rest := NameStart(p, name[0]), name[1..];
    FieldFoldKeeps(p1, rest);
    TrackStart(p, name[0]);
    TrackFold(p1, [Lower(name[0])], p.te, rest);
    assert [Lower(name[0])] + Lowered(rest) == Lowered(name);
  }

  /** A whole name, up to its colon. */
  lemma NameRun(limit: nat, p: Parser, name: Bytes) returns (q: Parser)
    requires Inv(p) && p.state == Header(FieldStart) && name != [] && Tokens(name)
    requires p.nread + |name| <= limit
    ensures Run(limit, p, name) == Done(q, [Open(Field)] + Takes(Field, name))
    ensures Inv(q) && q == p.(nread := p.nread + |name|, state := Header(InField), hs := q.hs, index := q.index,
              te := q.te)
    ensures q.hs == NameHs(Lowered(name)) && q.te == (p.te || BeginsTe(Lowered(name)))
  {
    hide Step, Run, Inv, HeaderInv, FieldFold, Lowered, NameHs, BeginsTe, IsToken, Takes;
    var p1, rest := NameStart(p, name[0]), name[1..];
    FirstToken(name);
    FieldStartStep(limit, p, name[0]);
    FieldRun(limit, p1, rest);
    NameFolds(p, name);
    q := FieldFold(p1, rest).(nread := p1.nread + |rest|);
    InFieldCount(FieldFold(p1, rest), p1.nread + |rest|);
    assert name == [name[0]] + rest;
    RunOne(limit, p, name[0]);
    RunAppend(limit, p, [name[0]], rest);
    TakesCons(Field, name);
    assert [Open(Field), Take(Field, name[0])] + Takes(Field, rest) == [Open(Field)] + Takes(Field, name);
  }

  // ---------------------------------------------------------------- what is not a name

  /** How many token bytes a text begins with. */
  function LeadingTokens(text: Bytes): (k: nat)
    ensures k <= |text| && Tokens(text[..k]) && (k < |text| ==> !IsToken(text[k]))
    decreases |text|
  {
    if text == [] || !IsToken(text[0]) then 0
    else
      var k := 1 + LeadingTokens(text[1..]);
      assert forall i :: 0 < i < k ==> text[..k][i] == text[1..][..k - 1][i - 1];
      k
  }

  predicate EndsName(c: Byte) { c == ':' || IsLineEnd(c) }

  lemma OddByte(limit: nat, p: Parser, ch: Byte)
    requires !IsToken(ch) && !EndsName(ch) && p.nread + 1 <= limit
    requires p.state == Header(FieldStart) || p.state == Header(InField)
    ensures Step(limit, p, ch) == Fail(InvalidHeaderToken)
  {
    hide IsToken;
    if p.state == Header(FieldStart) {
      HeaderMicro(p.(nread := p.nread + 1), FieldStart, ch);
    } else {
      HeaderMicro(p.(nread := p.nread + 1), InField, ch);
    }
  }

  /** A text without a colon and without line ends is taken for the beginning of a header name if and only if it is
      made of tokens; otherwise it is refused. */
  lemma NameExactly(limit: nat, p: Parser, text: Bytes) returns (q: Parser)
    requires Inv(p) && p.state == Header(FieldStart) && text != [] && p.nread + |text| <= limit
    requires forall i :: 0 <= i < |text| ==> !EndsName(text[i])
    ensures Run(limit, p, text) == if Tokens(text) then Done(q, [Open(Field)] + Takes(Field, text))
                                   else Failed(InvalidHeaderToken)
  {
    hide Run, Step, Inv, IsToken, EndsName, Takes, NameHs;
    q := p;
    var k := LeadingTokens(text);
    if k == |text| {
      assert text[..k] == text;
      q := NameRun(limit, p, text);
    } else {
      assert !Tokens(text);
      var a, b := text[..k], text[k..];
      assert text == a + b && b == [text[k]] + text[k + 1..];
      var p1 := p;
      if k > 0 {
        p1 := NameRun(limit, p, a);
        RunAppend(limit, p, a, b);
      }
      OddByte(limit, p1, text[k]);
      RunOne(limit, p1, text[k]);
      RunAppend(limit, p1, [text[k]], text[k + 1..]);
      assert k == 0 ==> text == b;
    }
  }
}
