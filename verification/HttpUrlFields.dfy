/** `http_parser_parse_url` and `http_parse_host` as they are written: one pass that notes where the fields
    start and how long they are, a second pass over the authority, and the value of the port. */
module HttpUrlFields {
  import opened Options
  import opened HttpSyntax
  import opened HttpMachine
  import opened HttpFraming
  import H = HttpHost
  import U = HttpUrl

  datatype UrlField = Schema | Host | Port | Path | Query | Fragment | UserInfo
  datatype Slice = Slice(off: nat, len: nat)

  /** Offsets and lengths are stored in 16 bits. */
  const HALF: nat := 0x1_0000

  function Short(n: nat): nat { n % HALF }

  function Stored(s: Slice): Slice { Slice(Short(s.off), Short(s.len)) }

  // ---------------------------------------------------------------- the specification

  /** Where the fields of the first pass stand. */
  function Extent(o: U.Pieces, f: UrlField): Slice {
    match f
    case Schema => Slice(0, |o.schema|)
    case Host => Slice(|U.ToSchema(o)|, |o.authority|)
    case Path => Slice(|U.ToAuthority(o)|, |o.path|)
    case Query => Slice(|U.ToMark(o)|, |o.query|)
    case Fragment => Slice(|U.ToHashes(o)|, |o.fragment|)
    case _ => Slice(0, 0)
  }

  /** Where the fields of the second pass stand, in an authority that starts at `base`. */
  function HostExtent(base: nat, a: H.Authority, f: UrlField): Slice {
    match f
    case UserInfo => Slice(base, |a.userinfo|)
    case Host =>
      if a.name != [] then Slice(base + |H.ToAt(a)|, |a.name|)
      else if a.address != [] then Slice(base + |H.ToOpen(a)|, |H.ToZone(a)| - |H.ToOpen(a)|)
      else Slice(base, 0)
    case Port => Slice(base + |H.ToColon(a)|, |a.port|)
    case _ => Slice(0, 0)
  }

  /** The fields of the first pass, and those of the second, which share the host. */
  predicate Outer(f: UrlField) { !f.UserInfo? && !f.Port? }
  predicate Inner(f: UrlField) { f.UserInfo? || f.Host? || f.Port? }

  function PlaceOf(o: U.Pieces, a: H.Authority, f: UrlField): Slice {
    if Inner(f) then HostExtent(|U.ToSchema(o)|, a, f) else Extent(o, f)
  }

  /** The fields a successful split reports, with their places. */
  function Layout(o: U.Pieces, a: H.Authority): map<UrlField, Slice> {
    map f: UrlField | PlaceOf(o, a, f).len > 0 :: PlaceOf(o, a, f)
  }

  datatype Parsed = Good(fields: map<UrlField, Slice>, port: nat) | Bad

  function PortValue(a: H.Authority): nat
    requires Digits(a.port)
  {
    Decimal(0, a.port)
  }

  /** What splitting comes to, on buffers short enough for 16-bit offsets. */
  function Parse(connect: bool, buf: Bytes): Parsed {
    match U.Walk(connect, buf)
    case None => Bad
    case Some(o) =>
      if buf == [] || (o.authority == [] && (connect || o.schema != [])) then Bad
      else if o.authority == [] then Good(Layout(o, H.NOBODY), 0)
      else
        match H.Walk('@' in o.authority, o.authority)
        case None => Bad
        case Some(a) =>
          if !H.MayEnd(H.StateAfter('@' in o.authority, a)) then Bad
          else if connect && Layout(o, a).Keys != {Host, Port} then Bad
          else if !Digits(a.port) || PortValue(a) > 0xFFFF then Bad
          else Good(Layout(o, a), PortValue(a))
  }

  // ---------------------------------------------------------------- splitting inverts putting together

  /** The pieces that make an acceptable URL.  A CONNECT target must come to a host and a port and nothing
      else, which still lets an '@' without user information, a '?' and '#'s through. */
  predicate Acceptable(connect: bool, o: U.Pieces, a: H.Authority) {
    && U.Proper(connect, o)
    && (if o.authority == [] then a == H.NOBODY && !connect && o.schema == [] && o.path != []
        else
          && H.Proper(a.at, a) && H.HostText(a) == o.authority && H.MayEnd(H.StateAfter(a.at, a))
          && Digits(a.port) && PortValue(a) <= 0xFFFF)
    && (connect ==> a.userinfo == [] && a.port != [] && o.path == [] && o.query == [] && o.fragment == [])
  }

  lemma AtInText(a: H.Authority)
    requires H.Proper(a.at, a)
    ensures '@' in H.HostText(a) <==> a.at
  {
    var t := H.HostText(a);
    if a.at {
      assert t[|a.userinfo|] == '@';
    } else {
      assert a.userinfo == [];
      AtNowhere(a);
    }
  }

  lemma AtNowhere(a: H.Authority)
    requires H.Proper(false, a) && !a.at
    ensures '@' !in H.HostText(a)
  {
    assert a.userinfo == [];
    assert '@' !in H.ToOpen(a);
    assert '@' !in H.ToPercent(a);
    assert '@' !in H.ToClose(a);
    assert '@' !in a.port;
  }

  lemma PortDigits(found: bool, a: H.Authority)
    requires H.Proper(found, a)
    ensures Digits(a.port)
  {
  }

  lemma HostExtents(base: nat, found: bool, a: H.Authority)
    requires H.Proper(found, a)
    ensures H.MayEnd(H.StateAfter(found, a)) ==>
              HostExtent(base, a, Host).len > 0 && (a.colon ==> a.port != []) && (a.at || !found)
    ensures (HostExtent(base, a, UserInfo).len > 0 <==> a.userinfo != [])
    ensures (HostExtent(base, a, Port).len > 0 <==> a.port != [])
  {
    assert |H.ToZone(a)| == |H.ToOpen(a)| + |a.address| + (if a.percent then 1 else 0) + |a.zone|;
  }

  lemma LayoutKeys(o: U.Pieces, found: bool, a: H.Authority)
    requires H.Proper(found, a)
    ensures var l := Layout(o, a);
            && (Schema in l <==> o.schema != []) && (Path in l <==> o.path != [])
            && (Query in l <==> o.query != []) && (Fragment in l <==> o.fragment != [])
            && (UserInfo in l <==> a.userinfo != []) && (Port in l <==> a.port != [])
            && (H.MayEnd(H.StateAfter(found, a)) ==> Host in l)
  {
    hide H.ToZone, H.ToOpen, H.Proper;
    HostExtents(|U.ToSchema(o)|, found, a);
  }

  lemma ConnectKeys(o: U.Pieces, found: bool, a: H.Authority)
    requires H.Proper(found, a) && H.MayEnd(H.StateAfter(found, a)) && o.schema == []
    ensures Layout(o, a).Keys == {Host, Port} <==>
            a.userinfo == [] && a.port != [] && o.path == [] && o.query == [] && o.fragment == []
  {
    hide Layout, H.Proper, H.MayEnd;
    LayoutKeys(o, found, a);
    var k := Layout(o, a).Keys;
    if a.userinfo == [] && a.port != [] && o.path == [] && o.query == [] && o.fragment == [] {
      forall f: UrlField ensures f in k <==> f in {Host, Port} {
        match f {
          case Schema => case Host => case Port => case Path => case Query => case Fragment => case UserInfo =>
        }
      }
    } else {
      assert UserInfo !in {Host, Port} && Path !in {Host, Port};
    }
  }

  lemma NobodyKeys()
    ensures H.Proper(false, H.NOBODY)
  {
  }

  /** Splitting what was put together gives the pieces back. */
  lemma ParseInverts(connect: bool, o: U.Pieces, a: H.Authority)
    requires Acceptable(connect, o, a)
    ensures Digits(a.port) && Parse(connect, U.Text(o)) == Good(Layout(o, a), PortValue(a))
  {
    hide U.Walk, U.Text, U.Proper, H.Walk, H.HostText, H.Proper, H.StateAfter, Layout;
    U.WalkComplete(connect, o);
    TextNotEmpty(o);
    if o.authority != [] {
      AtInText(a);
      H.WalkComplete(a.at, a);
      NoSchema(connect, o);
      if connect {
        ConnectKeys(o, a.at, a);
      }
    }
  }

  lemma NoSchema(connect: bool, o: U.Pieces)
    requires U.Proper(connect, o)
    ensures connect ==> o.schema == []
    ensures o.authority == [] && !connect && o.schema == [] && o.path == [] ==> o == U.NOTHING
  {
  }

  lemma TextNotEmpty(o: U.Pieces)
    ensures o.path != [] || o.authority != [] ==> U.Text(o) != []
  {
  }

  /** Every accepted buffer is a URL put together from acceptable pieces, and the fields are theirs. */
  lemma ParseSplits(connect: bool, buf: Bytes) returns (o: U.Pieces, a: H.Authority)
    requires Parse(connect, buf).Good?
    ensures Acceptable(connect, o, a) && U.Text(o) == buf
    ensures Parse(connect, buf) == Good(Layout(o, a), PortValue(a))
  {
    hide U.Walk, U.Text, U.Proper, H.Walk, H.HostText, H.Proper, H.StateAfter, H.MayEnd, Layout;
    U.WalkSound(connect, buf);
    o := U.Walk(connect, buf).value;
    a := H.NOBODY;
    NoSchema(connect, o);
    if o.authority == [] {
      if o.path == [] {
        U.NothingProper(connect);
        assert false;
      }
    } else {
      var found := '@' in o.authority;
      H.WalkSound(found, o.authority);
      a := H.Walk(found, o.authority).value;
      HostExtents(0, found, a);
      AtKnown(found, a);
      if connect {
        ConnectKeys(o, found, a);
      }
    }
  }

  lemma AtKnown(found: bool, a: H.Authority)
    requires H.Proper(found, a) && (a.at || !found)
    ensures a.at == found
  {
  }

  /** A buffer is accepted precisely when it can be put together from acceptable pieces. */
  lemma UrlExact(connect: bool, buf: Bytes)
    ensures Parse(connect, buf).Good? <==>
            exists o: U.Pieces, a: H.Authority :: Acceptable(connect, o, a) && U.Text(o) == buf
  {
    if Parse(connect, buf).Good? {
      var o, a := ParseSplits(connect, buf);
    }
    forall o: U.Pieces, a: H.Authority | Acceptable(connect, o, a) && U.Text(o) == buf
      ensures Parse(connect, buf).Good?
    {
      ParseInverts(connect, o, a);
    }
  }

  // ---------------------------------------------------------------- the fields

  function Place(f: UrlField): nat {
    match f
    case Schema => 0 case UserInfo => 1 case Host => 2 case Port => 3
    case Path => 4 case Query => 5 case Fragment => 6
  }

  function Content(o: U.Pieces, a: H.Authority, f: UrlField): Bytes {
    match f
    case Schema => o.schema case Path => o.path case Query => o.query case Fragment => o.fragment
    case UserInfo => a.userinfo
    case Host => if a.name != [] then a.name else a.address + H.Sign(a.percent, '%') + a.zone
    case Port => a.port
  }

  predicate Holds(buf: Bytes, s: Slice, content: Bytes) {
    s.off + s.len <= |buf| && buf[s.off..s.off + s.len] == content
  }

  /** The texts up to each piece are prefixes of the whole. */
  lemma OuterHolds(o: U.Pieces, f: UrlField)
    requires Outer(f)
    ensures Holds(U.Text(o), Extent(o, f), if f.Host? then o.authority else Content(o, H.NOBODY, f))
  {
    PrefixText(o);
  }

  lemma PrefixText(o: U.Pieces)
    ensures U.ToSchema(o) <= U.ToAuthority(o) <= U.ToPath(o) <= U.ToMark(o)
    ensures U.ToMark(o) <= U.ToQuery(o) <= U.ToHashes(o) <= U.Text(o)
    ensures o.schema <= U.Text(o)
  {
  }

  lemma HostPrefixes(a: H.Authority)
    ensures H.ToAt(a) <= H.ToName(a) <= H.ToOpen(a) <= H.ToZone(a) <= H.ToClose(a) <= H.ToColon(a) <= H.HostText(a)
    ensures a.userinfo <= H.HostText(a)
    ensures H.ToZone(a) == H.ToOpen(a) + (a.address + H.Sign(a.percent, '%') + a.zone)
  {
    assert H.ToOpen(a) <= H.ToAddress(a) <= H.ToPercent(a) <= H.ToZone(a);
  }

  lemma Cut(text: Bytes, before: Bytes, piece: Bytes)
    requires before + piece <= text
    ensures Holds(text, Slice(|before|, |piece|), piece)
  {
    assert text[..|before| + |piece|] == before + piece;
  }

  lemma InnerHolds(found: bool, a: H.Authority, f: UrlField)
    requires H.Proper(found, a) && H.MayEnd(H.StateAfter(found, a)) && Inner(f)
    ensures Holds(H.HostText(a), HostExtent(0, a, f), Content(U.NOTHING, a, f))
  {
    hide H.ToAt, H.HostText, H.ToOpen, H.ToColon, Holds, H.ToZone, H.Spelled;
    HostPrefixes(a);
    var t := H.HostText(a);
    if f == UserInfo {
      assert [] + a.userinfo == a.userinfo;
      Cut(t, [], a.userinfo);
    } else if f == Port {
      PortLast(a);
      Cut(t, H.ToColon(a), a.port);
    } else if a.name != [] {
      Cut(t, H.ToAt(a), a.name);
    } else {
      assert a.address != [] by { HostBracketed(found, a); }
      var inside := a.address + H.Sign(a.percent, '%') + a.zone;
      Cut(t, H.ToOpen(a), inside);
      assert |H.ToZone(a)| - |H.ToOpen(a)| == |inside|;
    }
  }

  lemma PortLast(a: H.Authority)
    ensures H.ToColon(a) + a.port == H.HostText(a)
  {
  }

  lemma HostBracketed(found: bool, a: H.Authority)
    requires H.Proper(found, a) && H.MayEnd(H.StateAfter(found, a)) && a.name == []
    ensures a.address != []
  {
  }

  lemma Shift(text: Bytes, outer: Slice, authority: Bytes, inner: Slice, content: Bytes)
    requires Holds(text, outer, authority) && Holds(authority, inner, content)
    ensures Holds(text, Slice(outer.off + inner.off, inner.len), content)
  {
    var i, n := outer.off + inner.off, inner.len;
    var p, q := authority[inner.off..inner.off + n], text[i..i + n];
    forall k | 0 <= k < n ensures p[k] == q[k] {
      assert p[k] == authority[inner.off + k] == text[outer.off + (inner.off + k)];
    }
    assert p == q;
  }

  lemma FieldHolds(connect: bool, o: U.Pieces, a: H.Authority, f: UrlField)
    requires Acceptable(connect, o, a) && f in Layout(o, a)
    ensures Layout(o, a)[f].len > 0 && Holds(U.Text(o), Layout(o, a)[f], Content(o, a, f))
  {
    hide Holds, U.Text, H.HostText, H.Proper, U.Proper, H.ToOpen, H.ToZone, H.ToAt, H.ToColon, U.ToSchema, U.ToPath,
         U.ToMark, U.ToHashes, U.ToAuthority;
    if Inner(f) {
      assert o.authority != [] by { NobodyHasNone(); }
      OuterHolds(o, Host);
      InnerHolds(a.at, a, f);
      Shift(U.Text(o), Extent(o, Host), o.authority, HostExtent(0, a, f), Content(o, a, f));
    } else {
      OuterHolds(o, f);
    }
  }

  lemma NobodyHasNone()
    ensures forall base, f :: HostExtent(base, H.NOBODY, f).len == 0
  {
  }

  lemma Ascending(found: bool, a: H.Authority)
    requires H.Proper(found, a) && H.MayEnd(H.StateAfter(found, a))
    ensures |a.userinfo| <= HostExtent(0, a, Host).off
    ensures HostExtent(0, a, Host).off + HostExtent(0, a, Host).len <= |H.ToColon(a)| <= |H.HostText(a)|
    ensures |H.ToColon(a)| + |a.port| == |H.HostText(a)|
  {
    hide H.ToZone;
    HostPrefixes(a);
    HostExtents(0, found, a);
  }

  /** The fields of an acceptable URL stand in the order of a URL, without overlap. */
  lemma FieldsApart(connect: bool, o: U.Pieces, a: H.Authority, f: UrlField, g: UrlField)
    requires Acceptable(connect, o, a) && f in Layout(o, a) && g in Layout(o, a) && Place(f) < Place(g)
    ensures Layout(o, a)[f].off + Layout(o, a)[f].len <= Layout(o, a)[g].off
  {
    hide H.HostText, H.Proper, U.Proper, H.ToOpen, H.ToZone, H.ToAt, H.ToColon, U.ToSchema, U.ToMark, U.ToHashes,
         H.MayEnd, H.StateAfter;
    Lengths(o);
    NobodyHasNone();
    if o.authority != [] {
      Ascending(a.at, a);
      Shifted(|U.ToSchema(o)|, a);
    }
  }

  lemma Shifted(base: nat, a: H.Authority)
    ensures forall f :: Inner(f) ==>
              HostExtent(base, a, f) == Slice(base + HostExtent(0, a, f).off, HostExtent(0, a, f).len)
  {
  }

  lemma Lengths(o: U.Pieces)
    ensures |o.schema| <= |U.ToSchema(o)|
    ensures |U.ToSchema(o)| + |o.authority| == |U.ToAuthority(o)|
    ensures |U.ToAuthority(o)| + |o.path| <= |U.ToMark(o)|
    ensures |U.ToMark(o)| + |o.query| <= |U.ToHashes(o)|
    ensures |U.ToHashes(o)| + |o.fragment| == |U.Text(o)|
  {
  }

  /** What a caller may rely on after a successful split: every field is a nonempty piece of the buffer, the
      fields are in order and disjoint, a schema comes with a host, and the port is the value of its digits. */
  lemma SplitIsExact(connect: bool, buf: Bytes)
    requires Parse(connect, buf).Good?
    ensures var fields := Parse(connect, buf).fields;
            && (forall f :: f in fields ==> fields[f].len > 0 && fields[f].off + fields[f].len <= |buf|)
            && (forall f, g :: f in fields && g in fields && Place(f) < Place(g) ==>
                  fields[f].off + fields[f].len <= fields[g].off)
            && (Schema in fields ==> Host in fields)
            && (if Port in fields then
                  var digits := buf[fields[Port].off..fields[Port].off + fields[Port].len];
                  Digits(digits) && Parse(connect, buf).port == Decimal(0, digits) <= 0xFFFF
                else Parse(connect, buf).port == 0)
  {
    hide Parse, Acceptable, Layout, U.Text;
    var o, a := ParseSplits(connect, buf);
    var l := Layout(o, a);
    forall f | f in l ensures l[f].len > 0 && l[f].off + l[f].len <= |buf| {
      FieldHolds(connect, o, a, f);
    }
    forall f, g | f in l && g in l && Place(f) < Place(g) ensures l[f].off + l[f].len <= l[g].off {
      FieldsApart(connect, o, a, f, g);
    }
    AcceptableFacts(connect, o, a);
    if Port in l {
      FieldHolds(connect, o, a, Port);
    }
  }

  lemma AcceptableFacts(connect: bool, o: U.Pieces, a: H.Authority)
    requires Acceptable(connect, o, a)
    ensures Schema in Layout(o, a) ==> Host in Layout(o, a)
    ensures Digits(a.port) && PortValue(a) <= 0xFFFF
    ensures Port !in Layout(o, a) ==> PortValue(a) == 0
  {
    hide U.Proper, H.Proper;
    NobodyKeys();
    LayoutKeys(o, a.at, a);
  }

  /** A text that is accepted as a CONNECT target. */
  predicate ConnectTarget(a: H.Authority, question: bool, hashes: nat) {
    && H.Proper(a.at, a) && H.MayEnd(H.StateAfter(a.at, a)) && a.userinfo == []
    && a.port != [] && Digits(a.port) && PortValue(a) <= 0xFFFF
    && (hashes > 0 ==> question)
  }

  function TargetText(a: H.Authority, question: bool, hashes: nat): Bytes {
    H.HostText(a) + (if question then ['?'] else []) + U.Hashes(hashes)
  }

  /** The comment in the code says that CONNECT targets can only be "hostname:port"; that is not so.  A target
      is accepted precisely when it is a host and a port, possibly with a bare '@' in front and a bare '?'
      and then '#'s behind. */
  lemma ConnectTargets(buf: Bytes)
    ensures Parse(true, buf).Good? <==>
            exists a, question, hashes :: ConnectTarget(a, question, hashes) && buf == TargetText(a, question, hashes)
  {
    hide Acceptable, ConnectTarget, TargetText, Parse;
    if Parse(true, buf).Good? {
      var o, a := ParseSplits(true, buf);
      TargetOfPieces(o, a);
      assert ConnectTarget(a, o.question, o.hashes);
    }
    forall a, question, hashes | ConnectTarget(a, question, hashes) && buf == TargetText(a, question, hashes)
      ensures Parse(true, buf).Good?
    {
      PiecesOfTarget(a, question, hashes);
      ParseInverts(true, Target(a, question, hashes), a);
    }
  }

  function Target(a: H.Authority, question: bool, hashes: nat): U.Pieces {
    U.Pieces([], 0, H.HostText(a), [], question, [], hashes, [])
  }

  lemma TargetOfPieces(o: U.Pieces, a: H.Authority)
    requires Acceptable(true, o, a)
    ensures ConnectTarget(a, o.question, o.hashes)
    ensures U.Text(o) == TargetText(a, o.question, o.hashes)
  {
    hide H.HostText, H.Proper;
    assert U.ToAuthority(o) == o.authority;
  }

  lemma PiecesOfTarget(a: H.Authority, question: bool, hashes: nat)
    requires ConnectTarget(a, question, hashes)
    ensures Acceptable(true, Target(a, question, hashes), a)
    ensures U.Text(Target(a, question, hashes)) == TargetText(a, question, hashes)
  {
    hide H.HostText, H.Proper, U.ServerChars;
    assert H.HostText(a) != [] by { PortLast(a); }
    HostTextServer(a);
    var o := Target(a, question, hashes);
    assert U.ToAuthority(o) == o.authority;
  }

  lemma HostTextServer(a: H.Authority)
    requires H.Proper(a.at, a) && a.userinfo == []
    ensures U.ServerChars(H.HostText(a))
  {
    var rest := a.(at := false);
    assert H.Proper(false, rest);
    AtNowhere(rest);
    HostTextChars(rest);
    AtFirst(a);
  }

  lemma AtFirst(a: H.Authority)
    requires a.userinfo == []
    ensures H.HostText(a) == H.Sign(a.at, '@') + H.HostText(a.(at := false))
  {
    hide H.HostText, H.ToOpen, H.Sign, HostTail;
    var rest, sign := a.(at := false), H.Sign(a.at, '@');
    AtFirstOpen(a);
    HostTailed(a);
    HostTailed(rest);
    assert HostTail(rest) == HostTail(a) by { SameTail(a); }
    assert sign + H.ToOpen(rest) + HostTail(a) == sign + (H.ToOpen(rest) + HostTail(a));
  }

  lemma AtFirstOpen(a: H.Authority)
    requires a.userinfo == []
    ensures H.ToOpen(a) == H.Sign(a.at, '@') + H.ToOpen(a.(at := false))
  {
    var rest, sign := a.(at := false), H.Sign(a.at, '@');
    assert H.ToName(a) == sign + H.ToName(rest);
    hide H.ToName;
    assert sign + H.ToName(rest) + H.Sign(a.open, '[') == sign + (H.ToName(rest) + H.Sign(a.open, '['));
  }

  function HostTail(a: H.Authority): Bytes {
    a.address + H.Sign(a.percent, '%') + a.zone + H.Sign(a.close, ']') + H.Sign(a.colon, ':') + a.port
  }

  lemma SameTail(a: H.Authority)
    ensures HostTail(a.(at := false)) == HostTail(a)
  {
  }

  lemma HostTailed(a: H.Authority)
    ensures H.HostText(a) == H.ToOpen(a) + HostTail(a)
  {
    hide H.ToOpen, H.Sign;
    var x := H.ToOpen(a);
    var b, c, d, e, f, g := a.address, H.Sign(a.percent, '%'), a.zone, H.Sign(a.close, ']'), H.Sign(a.colon, ':'),
        a.port;
    assert x + b + c + d + e + f + g == x + (b + c + d + e + f + g);
  }

  predicate InServer(s: Bytes) { forall i :: 0 <= i < |s| ==> U.IsServerChar(s[i]) }

  lemma InServerJoin(s: Bytes, t: Bytes)
    requires InServer(s) && InServer(t)
    ensures InServer(s + t)
  {
  }

  lemma PartsInServer(found: bool, a: H.Authority)
    requires H.Proper(found, a)
    ensures InServer(a.name) && InServer(a.address) && InServer(a.zone) && InServer(a.port)
  {
  }

  lemma SignsInServer()
    ensures forall b :: InServer(H.Sign(b, '[')) && InServer(H.Sign(b, ']')) && InServer(H.Sign(b, '%'))
                        && InServer(H.Sign(b, ':'))
  {
  }

  lemma HostTextChars(a: H.Authority)
    requires H.Proper(false, a) && !a.at
    ensures InServer(H.HostText(a))
  {
    hide InServer, H.Sign;
    PartsInServer(false, a);
    SignsInServer();
    assert H.ToName(a) == a.name by { NoAt(a); }
    InServerJoin(H.ToName(a), H.Sign(a.open, '['));
    InServerJoin(H.ToOpen(a), a.address);
    InServerJoin(H.ToAddress(a), H.Sign(a.percent, '%'));
    InServerJoin(H.ToPercent(a), a.zone);
    InServerJoin(H.ToZone(a), H.Sign(a.close, ']'));
    InServerJoin(H.ToClose(a), H.Sign(a.colon, ':'));
    InServerJoin(H.ToColon(a), a.port);
  }

  lemma NoAt(a: H.Authority)
    requires H.Proper(false, a) && !a.at
    ensures H.ToName(a) == a.name
  {
  }

  /** For example the target "@h:1?##". */
  lemma ConnectWitness()
    ensures Parse(true, ['@', 'h', ':', '1', '?', '#', '#']).Good?
  {
    var a := H.NOBODY.(at := true, name := ['h'], colon := true, port := ['1']);
    assert H.Proper(true, a);
    assert U.Hashes(2) == ['#', '#'];
    assert TargetText(a, true, 2) == ['@', 'h', ':', '1', '?', '#', '#'];
    assert ConnectTarget(a, true, 2) by { OneDigit(); }
    ConnectTargets(['@', 'h', ':', '1', '?', '#', '#']);
  }

  lemma OneDigit()
    ensures Digits(['1']) && Decimal(0, ['1']) == 1
  {
    assert ['1'][1..] == [];
    assert Decimal(1, []) == 1;
  }

  // ---------------------------------------------------------------- how the places grow

  /** The field a byte belongs to when it leads to state s; the delimiters belong to none. */
  function FieldOf(s: UrlPos): Option<UrlField> {
    match s
    case ReqSchema => Some(Schema)
    case ReqServer => Some(Host)
    case ReqServerWithAt => Some(Host)
    case ReqPath => Some(Path)
    case ReqQuery => Some(Query)
    case ReqFragment => Some(Fragment)
    case _ => None
  }

  function Latest(o: U.Pieces): Option<UrlField> {
    if o.fragment != [] then Some(Fragment)
    else if o.query != [] then Some(Query)
    else if o.path != [] then Some(Path)
    else if o.authority != [] then Some(Host)
    else if o.schema != [] then Some(Schema)
    else None
  }

  predicate Same(s: Slice, t: Slice) { s.len == t.len && (s.len > 0 ==> s == t) }

  lemma PlaceLengths(o: U.Pieces)
    requires o.slashes <= 3
    ensures |U.ToSchema(o)| == |o.schema| + o.slashes
    ensures |U.ToAuthority(o)| == |U.ToSchema(o)| + |o.authority|
    ensures |U.ToMark(o)| == |U.ToAuthority(o)| + |o.path| + (if o.question then 1 else 0)
    ensures |U.ToHashes(o)| == |U.ToMark(o)| + |o.query| + o.hashes
    ensures |U.Text(o)| == |U.ToHashes(o)| + |o.fragment|
  {
  }

  /** A byte lengthens the field that was being read or starts the next one where it stands. */
  predicate Lengthens(o: U.Pieces, g: U.Pieces, s: UrlPos) {
    match FieldOf(s)
    case None => Latest(g) == Latest(o) && forall f :: Outer(f) ==> Same(Extent(g, f), Extent(o, f))
    case Some(uf) =>
      && Outer(uf) && Latest(g) == Some(uf)
      && (forall f :: Outer(f) && f != uf ==> Same(Extent(g, f), Extent(o, f)))
      && Own(o, g, uf)
  }

  predicate Own(o: U.Pieces, g: U.Pieces, uf: UrlField) {
    if Latest(o) == Some(uf) then
      Extent(o, uf).len > 0 && Extent(g, uf) == Slice(Extent(o, uf).off, Extent(o, uf).len + 1)
    else Extent(o, uf).len == 0 && Extent(g, uf) == Slice(|U.Text(o)|, 1)
  }

  lemma ExtentGrow(connect: bool, o: U.Pieces, ch: Byte)
    requires U.Proper(connect, o) && UrlChar(U.StateAfter(connect, o), ch) != UrlDead
    ensures var s := UrlChar(U.StateAfter(connect, o), ch);
            Lengthens(o, U.Grow(s, o, ch), s)
  {
    var s := UrlChar(U.StateAfter(connect, o), ch);
    U.GrowFollows(connect, o, ch);
    U.GrowProper(connect, o, ch);
    LengthensBy(connect, o, s, ch);
  }

  lemma LatestGrows(connect: bool, o: U.Pieces, s: UrlPos, ch: Byte)
    requires U.Proper(connect, o) && U.Proper(connect, U.Grow(s, o, ch)) && s != UrlDead
    requires U.Follows(s, o, ch) && U.FollowsEarly(s, o, ch)
    ensures Latest(U.Grow(s, o, ch)) == if FieldOf(s).None? then Latest(o) else FieldOf(s)
    ensures FieldOf(s).Some? ==> Outer(FieldOf(s).value)
  {
    hide U.ToSchema, U.ToAuthority, U.ToMark, U.ToHashes, U.Text, U.Alphas, U.ServerChars, U.PathChars, U.QueryChars,
         U.FragmentChars, Extent;
  }

  lemma OwnGrows(connect: bool, o: U.Pieces, s: UrlPos, ch: Byte)
    requires U.Proper(connect, o) && U.Proper(connect, U.Grow(s, o, ch)) && s != UrlDead
    requires U.Follows(s, o, ch) && U.FollowsEarly(s, o, ch)
    requires FieldOf(s).Some?
    ensures Own(o, U.Grow(s, o, ch), FieldOf(s).value)
  {
    hide U.ToSchema, U.ToAuthority, U.ToMark, U.ToHashes, U.Text, U.Alphas, U.ServerChars, U.PathChars, U.QueryChars,
         U.FragmentChars;
    PlaceLengths(o);
    PlaceLengths(U.Grow(s, o, ch));
  }

  lemma LengthensParts(o: U.Pieces, g: U.Pieces, s: UrlPos)
    requires Latest(g) == if FieldOf(s).None? then Latest(o) else FieldOf(s)
    requires FieldOf(s).Some? ==> Outer(FieldOf(s).value) && Own(o, g, FieldOf(s).value)
    requires forall f :: Outer(f) && FieldOf(s) != Some(f) ==> Same(Extent(g, f), Extent(o, f))
    ensures Lengthens(o, g, s)
  {
    hide Latest, FieldOf, Own, Same, Extent, Outer;
  }

  lemma LengthensBy(connect: bool, o: U.Pieces, s: UrlPos, ch: Byte)
    requires U.Proper(connect, o) && U.Proper(connect, U.Grow(s, o, ch)) && s != UrlDead
    requires U.Follows(s, o, ch) && U.FollowsEarly(s, o, ch)
    ensures Lengthens(o, U.Grow(s, o, ch), s)
  {
    hide *;
    var g := U.Grow(s, o, ch);
    LatestGrows(connect, o, s, ch);
    if FieldOf(s).Some? {
      OwnGrows(connect, o, s, ch);
    }
    forall f | Outer(f) && FieldOf(s) != Some(f) ensures Same(Extent(g, f), Extent(o, f)) {
      LengthensField(connect, o, s, ch, f);
    }
    LengthensParts(o, g, s);
  }

  lemma LengthensField(connect: bool, o: U.Pieces, s: UrlPos, ch: Byte, f: UrlField)
    requires U.Proper(connect, o) && U.Proper(connect, U.Grow(s, o, ch)) && s != UrlDead
    requires U.Follows(s, o, ch) && U.FollowsEarly(s, o, ch)
    requires Outer(f) && FieldOf(s) != Some(f)
    ensures Same(Extent(U.Grow(s, o, ch), f), Extent(o, f))
  {
    hide U.ToSchema, U.ToAuthority, U.ToMark, U.ToHashes, U.Text, U.Alphas, U.ServerChars, U.PathChars, U.QueryChars,
         U.FragmentChars;
    PlaceLengths(o);
    PlaceLengths(U.Grow(s, o, ch));
  }

  /** The same for the three fields of an authority. */
  predicate HostLengthens(base: nat, a: H.Authority, g: H.Authority, s0: H.HostPos, s: H.HostPos) {
    NameLengthens(base, a, g, s0, s) && PortLengthens(base, a, g, s0, s) && UserLengthens(base, a, g, s0, s)
  }

  predicate NameLengthens(base: nat, a: H.Authority, g: H.Authority, s0: H.HostPos, s: H.HostPos) {
    && (if s.InHost? || s.InV6? || s.InZone? || s.ZoneStart? then
          HostExtent(base, g, Host) ==
            if s != s0 && (s.InHost? || s.InV6?) then Slice(base + |H.HostText(a)|, 1)
            else Slice(HostExtent(base, a, Host).off, HostExtent(base, a, Host).len + 1)
        else HostExtent(base, g, Host) == HostExtent(base, a, Host))
    && (s != s0 && (s.InHost? || s.InV6?) ==> HostExtent(base, a, Host).len == 0)
  }

  predicate PortLengthens(base: nat, a: H.Authority, g: H.Authority, s0: H.HostPos, s: H.HostPos) {
    && (if s.InPort? then
          HostExtent(base, g, Port) ==
            if s != s0 then Slice(base + |H.HostText(a)|, 1)
            else Slice(HostExtent(base, a, Port).off, HostExtent(base, a, Port).len + 1)
        else Same(HostExtent(base, g, Port), HostExtent(base, a, Port)))
    && (s == s0 && s.InPort? ==> HostExtent(base, a, Port).len > 0)
  }

  predicate UserLengthens(base: nat, a: H.Authority, g: H.Authority, s0: H.HostPos, s: H.HostPos) {
    && (if s.InUserInfo? then
          HostExtent(base, g, UserInfo) ==
            if s != s0 then Slice(base + |H.HostText(a)|, 1)
            else Slice(HostExtent(base, a, UserInfo).off, HostExtent(base, a, UserInfo).len + 1)
        else HostExtent(base, g, UserInfo) == HostExtent(base, a, UserInfo))
    && (s == s0 && s.InUserInfo? ==> HostExtent(base, a, UserInfo).len > 0)
  }

  lemma HostLengths(a: H.Authority)
    ensures |H.ToAt(a)| == |a.userinfo| + (if a.at then 1 else 0)
    ensures |H.ToOpen(a)| == |H.ToAt(a)| + |a.name| + (if a.open then 1 else 0)
    ensures |H.ToZone(a)| == |H.ToOpen(a)| + |a.address| + (if a.percent then 1 else 0) + |a.zone|
    ensures |H.ToColon(a)| == |H.ToZone(a)| + (if a.close then 1 else 0) + (if a.colon then 1 else 0)
    ensures |H.HostText(a)| == |H.ToColon(a)| + |a.port|
  {
  }

  lemma HostExtentGrow(base: nat, found: bool, a: H.Authority, ch: Byte)
    requires H.Proper(found, a) && H.HostChar(H.StateAfter(found, a), ch) != H.HostDead
    ensures var s0 := H.StateAfter(found, a);
            var s := H.HostChar(s0, ch);
            HostLengthens(base, a, H.Grow(s, a, ch), s0, s)
  {
    var s0 := H.StateAfter(found, a);
    H.GrowFollows(found, a, ch);
    H.GrowProper(found, a, ch);
    H.CharOf(s0, ch);
    HostLengthensBy(base, found, a, H.HostChar(s0, ch), ch);
  }

  lemma NameLengthensBy(base: nat, found: bool, a: H.Authority, s: H.HostPos, ch: Byte)
    requires H.Proper(found, a) && H.Proper(found, H.Grow(s, a, ch)) && H.StateAfter(found, H.Grow(s, a, ch)) == s
    requires H.Follows(s, a, ch)
    ensures NameLengthens(base, a, H.Grow(s, a, ch), H.StateAfter(found, a), s)
  {
    hide H.ToAt, H.ToOpen, H.ToZone, H.ToColon, H.HostText, H.Spelled;
    HostLengths(a);
    HostLengths(H.Grow(s, a, ch));
  }

  lemma PortLengthensBy(base: nat, found: bool, a: H.Authority, s: H.HostPos, ch: Byte)
    requires H.Proper(found, a) && H.Proper(found, H.Grow(s, a, ch)) && H.StateAfter(found, H.Grow(s, a, ch)) == s
    requires H.Follows(s, a, ch)
    ensures PortLengthens(base, a, H.Grow(s, a, ch), H.StateAfter(found, a), s)
  {
    hide H.ToAt, H.ToOpen, H.ToZone, H.ToColon, H.HostText, H.Spelled;
    HostLengths(a);
    HostLengths(H.Grow(s, a, ch));
  }

  lemma UserLengthensBy(base: nat, found: bool, a: H.Authority, s: H.HostPos, ch: Byte)
    requires H.Proper(found, a) && H.Proper(found, H.Grow(s, a, ch)) && H.StateAfter(found, H.Grow(s, a, ch)) == s
    requires H.Follows(s, a, ch)
    ensures UserLengthens(base, a, H.Grow(s, a, ch), H.StateAfter(found, a), s)
  {
    hide H.ToAt, H.ToOpen, H.ToZone, H.ToColon, H.HostText, H.Spelled;
    HostLengths(a);
    HostLengths(H.Grow(s, a, ch));
  }

  lemma HostLengthensBy(base: nat, found: bool, a: H.Authority, s: H.HostPos, ch: Byte)
    requires H.Proper(found, a) && H.Proper(found, H.Grow(s, a, ch)) && H.StateAfter(found, H.Grow(s, a, ch)) == s
    requires H.Follows(s, a, ch)
    ensures HostLengthens(base, a, H.Grow(s, a, ch), H.StateAfter(found, a), s)
  {
    hide H.Proper, H.Grow, H.StateAfter, H.Follows, NameLengthens, PortLengthens, UserLengthens;
    NameLengthensBy(base, found, a, s, ch);
    PortLengthensBy(base, found, a, s, ch);
    UserLengthensBy(base, found, a, s, ch);
  }
}
