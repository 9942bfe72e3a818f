/** What `http_parser_parse_url` comes to on buffers of any length: offsets and lengths are kept in 16 bits, and the
    second pass works on what they have become.  On buffers below 2^16 bytes that is what `Parse` says. */
module HttpUrlWide {
  import opened Options
  import opened HttpSyntax
  import opened HttpMachine
  import opened HttpFraming
  import opened HttpUrlFields
  import H = HttpHost
  import U = HttpUrl

  const ALL := {Schema, Host, Port, Path, Query, Fragment, UserInfo}

  /** The fields of the first pass. */
  function OuterFields(o: U.Pieces): map<UrlField, Slice> {
    map f: UrlField | Outer(f) && Extent(o, f).len > 0 :: Stored(Extent(o, f))
  }

  predicate InBoth(o: U.Pieces, base: nat, a: H.Authority, f: UrlField) {
    if f.UserInfo? || f.Port? then HostExtent(base, a, f).len > 0 else Extent(o, f).len > 0
  }

  /** The fields after the second pass over an authority that starts at `base`. */
  function BothFields(o: U.Pieces, base: nat, a: H.Authority): map<UrlField, Slice> {
    map f: UrlField | InBoth(o, base, a, f) :: Stored(if Inner(f) then HostExtent(base, a, f) else Extent(o, f))
  }

  /** The loop over the digits of the port, in 64-bit arithmetic. */
  function PortRead(v: nat, bytes: Bytes): Option<nat>
    requires v <= 0xFFFF
    decreases |bytes|
  {
    if bytes == [] then Some(v)
    else
      var w := (v * 10 + bytes[0] as int - '0' as int) % 0x1_0000_0000_0000_0000;
      if w > 0xFFFF then None else PortRead(w, bytes[1..])
  }

  function Finish(connect: bool, buf: Bytes, fields: map<UrlField, Slice>): Parsed {
    if connect && fields.Keys != {Host, Port} then Bad
    else if Port !in fields then Good(fields, 0)
    else
      var p := fields[Port];
      if p.off + p.len > |buf| then Bad
      else
        match PortRead(0, buf[p.off..p.off + p.len])
        case None => Bad
        case Some(v) => Good(fields, v)
  }

  /** The text that the second pass is made over. */
  function HostPart(buf: Bytes, o: U.Pieces): Bytes {
    var at := Stored(Extent(o, Host));
    if at.off + at.len <= |buf| then buf[at.off..at.off + at.len] else []
  }

  function Split(connect: bool, buf: Bytes): Parsed {
    match U.Walk(connect, buf)
    case None => Bad
    case Some(o) =>
      if buf == [] || (o.authority == [] && (connect || o.schema != [])) then Bad
      else if o.authority == [] then Good(OuterFields(o), 0)
      else
        match H.Walk('@' in o.authority, HostPart(buf, o))
        case None => Bad
        case Some(a) =>
          if !H.MayEnd(H.StateAfter('@' in o.authority, a)) then Bad
          else Finish(connect, buf, BothFields(o, Short(Extent(o, Host).off), a))
  }

  lemma HostStart(o: U.Pieces)
    ensures Extent(o, Host) == Slice(|U.ToSchema(o)|, |o.authority|)
    ensures |U.ToSchema(o)| + |o.authority| <= |U.Text(o)|
  {
    PrefixText(o);
  }

  lemma HostPlaces(base: nat, found: bool, a: H.Authority)
    requires H.Proper(found, a) && H.MayEnd(H.StateAfter(found, a))
    ensures forall f :: Inner(f) ==> HostExtent(base, a, f).off + HostExtent(base, a, f).len <= base + |H.HostText(a)|
  {
    hide H.ToZone, H.ToOpen, H.ToColon, H.ToAt, H.HostText;
    HostLengths(a);
  }

  lemma OuterPlaces(connect: bool, o: U.Pieces)
    requires U.Proper(connect, o)
    ensures forall f :: Outer(f) ==> Extent(o, f).off + Extent(o, f).len <= |U.Text(o)|
    ensures Holds(U.Text(o), Extent(o, Host), o.authority)
    ensures Extent(o, Schema).len == |o.schema| && Extent(o, Host).len == |o.authority|
  {
    OuterHolds(o, Host);
    hide U.Text;
    PlaceLengths(o);
  }

  lemma StoredSame(s: Slice)
    requires s.off + s.len < HALF
    ensures Stored(s) == s
  {
  }

  lemma StoredLess(s: Slice)
    ensures Stored(s).off + Stored(s).len <= s.off + s.len
  {
  }

  lemma AllFields(f: UrlField)
    ensures f in ALL
  {
  }

  lemma PortInside(base: nat, a: H.Authority)
    ensures HostExtent(base, a, Port).off + HostExtent(base, a, Port).len == base + |H.HostText(a)|
  {
    HostLengths(a);
  }

  lemma PortHeld(buf: Bytes, base: nat, a: H.Authority)
    requires base + |H.HostText(a)| <= |buf| && buf[base..base + |H.HostText(a)|] == H.HostText(a)
    ensures var at := HostExtent(base, a, Port);
            && at.len == |a.port| && at.off + at.len == base + |H.HostText(a)|
            && buf[at.off..at.off + at.len] == a.port
  {
    hide H.ToColon, H.HostText;
    PortInside(base, a);
    PortLast(a);
    Cut(H.HostText(a), H.ToColon(a), a.port);
    Shift(buf, Slice(base, |H.HostText(a)|), H.HostText(a), Slice(|H.ToColon(a)|, |a.port|), a.port);
  }

  lemma LayoutAt(o: U.Pieces, a: H.Authority)
    ensures var l := Layout(o, a);
            && (forall f :: f in l <==> PlaceOf(o, a, f).len > 0)
            && (forall f :: f in l ==> l[f] == PlaceOf(o, a, f))
  {
    hide PlaceOf;
  }

  lemma {:induction false} PortReadDigits(v: nat, bytes: Bytes)
    requires Digits(bytes) && v <= 0xFFFF
    ensures PortRead(v, bytes) == if Decimal(v, bytes) <= 0xFFFF then Some(Decimal(v, bytes)) else None
    decreases |bytes|
  {
    if bytes != [] {
      var w := v * 10 + Digit(bytes[0]);
      DecimalGrows(w, bytes[1..]);
      if w <= 0xFFFF {
        PortReadDigits(w, bytes[1..]);
      }
    }
  }

  lemma OuterFieldsSame(connect: bool, o: U.Pieces)
    requires U.Proper(connect, o) && |U.Text(o)| < HALF && o.authority == []
    ensures OuterFields(o) == Layout(o, H.NOBODY)
  {
    hide U.Text, U.Proper, Extent, HostExtent, Layout, Stored;
    NobodyHasNone();
    OuterPlaces(connect, o);
    LayoutAt(o, H.NOBODY);
    var l := Layout(o, H.NOBODY);
    assert Extent(o, Host).len == 0;
    forall f: UrlField ensures (f in OuterFields(o) <==> f in l) && (f in l ==> OuterFields(o)[f] == l[f]) {
      if Outer(f) {
        StoredSame(Extent(o, f));
      }
    }
  }

  lemma BothFieldsSame(connect: bool, o: U.Pieces, found: bool, a: H.Authority)
    requires U.Proper(connect, o) && |U.Text(o)| < HALF && o.authority != []
    requires H.Proper(found, a) && H.HostText(a) == o.authority && H.MayEnd(H.StateAfter(found, a))
    ensures BothFields(o, |U.ToSchema(o)|, a) == Layout(o, a)
  {
    hide U.Text, U.Proper, Extent, HostExtent, H.Proper, H.HostText, H.MayEnd, H.StateAfter, Layout, Stored;
    OuterPlaces(connect, o);
    HostExtents(|U.ToSchema(o)|, found, a);
    HostPlaces(|U.ToSchema(o)|, found, a);
    HostStart(o);
    LayoutAt(o, a);
    var base, l := |U.ToSchema(o)|, Layout(o, a);
    forall f: UrlField ensures (f in BothFields(o, base, a) <==> f in l)
        && (f in l ==> BothFields(o, base, a)[f] == l[f]) {
      if Inner(f) {
        StoredSame(HostExtent(base, a, f));
      } else {
        StoredSame(Extent(o, f));
      }
    }
  }

  lemma HostPartSame(connect: bool, o: U.Pieces, buf: Bytes)
    requires U.Proper(connect, o) && U.Text(o) == buf && |buf| < HALF
    ensures HostPart(buf, o) == o.authority && Short(Extent(o, Host).off) == |U.ToSchema(o)|
  {
    hide U.Text, U.Proper;
    OuterPlaces(connect, o);
    HostStart(o);
    StoredSame(Extent(o, Host));
  }

  lemma FinishSame(connect: bool, o: U.Pieces, buf: Bytes, found: bool, a: H.Authority)
    requires U.Proper(connect, o) && U.Text(o) == buf && |buf| < HALF && o.authority != []
    requires H.Proper(found, a) && H.HostText(a) == o.authority && H.MayEnd(H.StateAfter(found, a))
    ensures Digits(a.port)
    ensures Finish(connect, buf, Layout(o, a)) ==
            if connect && Layout(o, a).Keys != {Host, Port} then Bad
            else if PortValue(a) > 0xFFFF then Bad else Good(Layout(o, a), PortValue(a))
  {
    hide U.Text, U.Proper, Extent, HostExtent, H.Proper, H.HostText, H.MayEnd, H.StateAfter, Layout, Holds;
    var base, l := |U.ToSchema(o)|, Layout(o, a);
    PortDigits(found, a);
    OuterPlaces(connect, o);
    HostStart(o);
    HostExtents(base, found, a);
    LayoutAt(o, a);
    assert buf[base..base + |H.HostText(a)|] == H.HostText(a) by { AuthorityHeld(connect, o); }
    PortHeld(buf, base, a);
    PortReadDigits(0, a.port);
  }

  lemma AuthorityHeld(connect: bool, o: U.Pieces)
    requires U.Proper(connect, o)
    ensures var base := |U.ToSchema(o)|;
            base + |o.authority| <= |U.Text(o)| && U.Text(o)[base..base + |o.authority|] == o.authority
  {
    hide U.Text, U.Proper;
    OuterPlaces(connect, o);
    HostStart(o);
  }

  /** On buffers that 16-bit offsets can address this is the specification. */
  lemma SplitIsParse(connect: bool, buf: Bytes)
    requires |buf| < HALF
    ensures Split(connect, buf) == Parse(connect, buf)
  {
    hide U.Walk, U.Proper, U.Text, H.Walk, H.Proper, H.HostText, H.StateAfter, H.MayEnd, Layout, OuterFields,
        BothFields,
         Finish, HostPart, Extent;
    U.WalkSound(connect, buf);
    if U.Walk(connect, buf).Some? {
      var o := U.Walk(connect, buf).value;
      if o.authority == [] {
        OuterFieldsSame(connect, o);
      } else {
        var found := '@' in o.authority;
        HostPartSame(connect, o, buf);
        H.WalkSound(found, o.authority);
        if H.Walk(found, o.authority).Some? {
          var a := H.Walk(found, o.authority).value;
          if H.MayEnd(H.StateAfter(found, a)) {
            BothFieldsSame(connect, o, found, a);
            FinishSame(connect, o, buf, found, a);
          }
        }
      }
    }
  }
}
