/** `http_parser_parse_url` and `http_parse_host` as they are written, filling in a `http_parser_url`. */
module HttpUrlParts {
  import opened Options
  import opened HttpSyntax
  import opened HttpMachine
  import opened HttpFraming
  import opened HttpUrlFields
  import opened HttpUrlWide
  import H = HttpHost
  import U = HttpUrl

  lemma WalkOn(connect: bool, buf: Bytes, i: nat, o: U.Pieces)
    requires i < |buf| && U.Walk(connect, buf[..i]) == Some(o)
    ensures var s := UrlChar(U.StateAfter(connect, o), buf[i]);
            U.Walk(connect, buf[..i + 1]) == if s == UrlDead then None else Some(U.Grow(s, o, buf[i]))
  {
    hide U.Grow, UrlChar, U.StateAfter;
    assert buf[..i + 1][..i] == buf[..i];
  }

  lemma {:induction false} WalkStops(connect: bool, buf: Bytes, i: nat)
    requires i <= |buf| && U.Walk(connect, buf[..i]).None?
    ensures U.Walk(connect, buf).None?
    decreases |buf| - i
  {
    if i == |buf| {
      assert buf[..i] == buf;
    } else {
      assert buf[..i + 1][..i] == buf[..i];
      WalkStops(connect, buf, i + 1);
    }
  }

  lemma HostWalkOn(found: bool, buf: Bytes, off: nat, i: nat, a: H.Authority)
    requires off <= i < |buf| && H.Walk(found, buf[off..i]) == Some(a)
    ensures var s := H.HostChar(H.StateAfter(found, a), buf[i]);
            H.Walk(found, buf[off..i + 1]) == if s == H.HostDead then None else Some(H.Grow(s, a, buf[i]))
  {
    hide H.Grow, H.HostChar, H.StateAfter;
    var text := buf[off..i + 1];
    assert |text| - 1 == i - off && text[i - off] == buf[i];
    assert text[..i - off] == buf[off..i];
  }

  lemma {:induction false} HostWalkStops(found: bool, text: Bytes, i: nat)
    requires i <= |text| && H.Walk(found, text[..i]).None?
    ensures H.Walk(found, text).None?
    decreases |text| - i
  {
    if i == |text| {
      assert text[..i] == text;
    } else {
      assert text[..i + 1][..i] == text[..i];
      HostWalkStops(found, text, i + 1);
    }
  }

  lemma ShortNext(n: nat)
    ensures Short(Short(n) + 1) == Short(n + 1)
  {
  }

  class UrlParts {
    var fieldSet: set<UrlField>
    var data: map<UrlField, Slice>
    var port: nat

    constructor ()
      ensures fieldSet == {} && port == 0 && data.Keys == ALL
    {
      fieldSet, port := {}, 0;
      data := map f | f in ALL :: Slice(0, 0);
    }

    /** The first pass has noted these pieces. */
    ghost predicate Noted(o: U.Pieces)
      reads this`data, this`fieldSet
    {
      && data.Keys == ALL
      && (forall f :: f in fieldSet <==> Outer(f) && Extent(o, f).len > 0)
      && forall f :: f in fieldSet ==> data[f] == Stored(Extent(o, f))
    }

    method Begin(f: UrlField, i: nat)
      requires data.Keys == ALL
      modifies this
      ensures fieldSet == old(fieldSet) + {f} && port == old(port)
      ensures data == old(data)[f := Slice(Short(i), 1)] && data.Keys == ALL
    {
      data := data[f := Slice(Short(i), 1)];
      fieldSet := fieldSet + {f};
    }

    method Lengthen(f: UrlField)
      requires data.Keys == ALL
      modifies this
      ensures fieldSet == old(fieldSet) && port == old(port)
      ensures data == old(data)[f := Slice(old(data)[f].off, Short(old(data)[f].len + 1))] && data.Keys == ALL
    {
      data := data[f := Slice(data[f].off, Short(data[f].len + 1))];
    }

    method NoteMore(ghost o: U.Pieces, f: UrlField, ghost g: U.Pieces, ghost s: UrlPos)
      requires Noted(o) && Latest(o) == Some(f) && Lengthens(o, g, s) && FieldOf(s) == Some(f)
      modifies this
      ensures Noted(g) && port == old(port)
    {
      hide U.Text, Extent, Latest, Short;
      ShortNext(Extent(o, f).len);
      Lengthen(f);
    }

    method NoteFirst(ghost o: U.Pieces, f: UrlField, i: nat, ghost g: U.Pieces, ghost s: UrlPos)
      requires Noted(o) && Latest(o) != Some(f) && i == |U.Text(o)| && Lengthens(o, g, s) && FieldOf(s) == Some(f)
      modifies this
      ensures Noted(g) && port == old(port)
    {
      hide U.Text, Extent, Latest;
      Begin(f, i);
    }

    /** The first pass: one turn for a byte that belongs to a field. */
    method NoteByte(ghost o: U.Pieces, f: UrlField, latest: Option<UrlField>, i: nat, ghost g: U.Pieces,
          ghost s: UrlPos)
      requires Noted(o) && latest == Latest(o) && i == |U.Text(o)|
      requires Lengthens(o, g, s) && FieldOf(s) == Some(f)
      modifies this
      ensures Noted(g) && Latest(g) == Some(f) && port == old(port)
    {
      hide U.Text, Extent, Latest, Noted;
      if latest == Some(f) {
        NoteMore(o, f, g, s);
      } else {
        NoteFirst(o, f, i, g, s);
      }
    }

    ghost predicate OuterReached(buf: Bytes, connect: bool, i: nat, o: U.Pieces)
      reads this`data, this`fieldSet
      requires i <= |buf|
    {
      U.Walk(connect, buf[..i]) == Some(o) && U.Proper(connect, o) && |U.Text(o)| == i && Noted(o)
    }

    method OuterTurn(buf: Bytes, connect: bool, i: nat, at: UrlPos, prev: Option<UrlField>, ghost o: U.Pieces)
      returns (s: UrlPos, latest: Option<UrlField>, ghost g: U.Pieces)
      requires i < |buf| && OuterReached(buf, connect, i, o) && at == U.StateAfter(connect, o) && prev == Latest(o)
      modifies this
      ensures port == old(port) && data.Keys == ALL
      ensures if s == UrlDead then U.Walk(connect, buf[..i + 1]).None?
              else
                && OuterReached(buf, connect, i + 1, g) && s == U.StateAfter(connect, g) && latest == Latest(g)
                && ('@' in g.authority <==> '@' in o.authority || s.ReqServerWithAt?)
    {
      hide U.Walk, U.Grow, U.Text, U.Proper, UrlChar, U.StateAfter, Latest, Extent, Lengthens;
      WalkOn(connect, buf, i, o);
      s, latest, g := UrlChar(at, buf[i]), prev, o;
      if s != UrlDead {
        g := U.Grow(s, o, buf[i]);
        U.GrowProper(connect, o, buf[i]);
        U.GrowFollows(connect, o, buf[i]);
        U.GrowText(s, o, buf[i]);
        ExtentGrow(connect, o, buf[i]);
        U.CharOf(connect, o, buf[i]);
        AtGrows(s, o, buf[i]);
        if FieldOf(s).None? {
          SkippedNoted(o, g, s);
        } else {
          NoteByte(o, FieldOf(s).value, prev, i, g, s);
          latest := FieldOf(s);
        }
      }
    }

    method SplitOuter(buf: Bytes, connect: bool) returns (ok: bool, foundAt: bool)
      requires data.Keys == ALL
      modifies this
      ensures ok <==> U.Walk(connect, buf).Some?
      ensures ok ==> Noted(U.Walk(connect, buf).value) && (foundAt <==> '@' in U.Walk(connect, buf).value.authority)
      ensures port == 0 && data.Keys == ALL
    {
      hide U.Walk, U.Text, U.Proper, U.StateAfter, Latest, Noted, UrlChar;
      port, fieldSet := 0, {};
      foundAt := false;
      var s, latest, i := if connect then ReqServerStart else UrlBefore, None, 0;
      ghost var o := U.NOTHING;
      StartsAtNothing(connect, buf);
      assert Noted(o) by { NothingNoted(); }
      while i < |buf|
        invariant i <= |buf| && port == 0 && data.Keys == ALL && OuterReached(buf, connect, i, o)
        invariant s == U.StateAfter(connect, o) && latest == Latest(o) && (foundAt <==> '@' in o.authority)
      {
        s, latest, o := OuterTurn(buf, connect, i, s, latest, o);
        if s == UrlDead {
          WalkStops(connect, buf, i + 1);
          return false, foundAt;
        }
        foundAt := foundAt || s.ReqServerWithAt?;
        i := i + 1;
      }
      assert buf[..i] == buf;
      return true, foundAt;
    }

    lemma NothingNoted()
      requires data.Keys == ALL && fieldSet == {}
      ensures Noted(U.NOTHING)
    {
    }

    lemma SkippedNoted(o: U.Pieces, g: U.Pieces, s: UrlPos)
      requires Noted(o) && Lengthens(o, g, s) && FieldOf(s).None?
      ensures Noted(g)
    {
      hide Extent;
    }

    /** The second pass over an authority that starts at `base` has noted these parts. */
    ghost predicate HostNoted(base: nat, a: H.Authority, before: set<UrlField>)
      reads this`data, this`fieldSet
    {
      && data.Keys == ALL
      && (forall f :: f in fieldSet <==>
            f in before || ((f.UserInfo? || f.Port?) && HostExtent(base, a, f).len > 0))
      && data[Host] == Stored(HostExtent(base, a, Host))
      && (forall f: UrlField :: (f.UserInfo? || f.Port?) && HostExtent(base, a, f).len > 0 ==>
            data[f] == Stored(HostExtent(base, a, f)))
    }

    method LengthenHost(i: nat, restart: bool)
      requires data.Keys == ALL
      modifies this
      ensures fieldSet == old(fieldSet) && port == old(port) && data.Keys == ALL
      ensures data == old(data)[Host := Slice(if restart then Short(i) else old(data)[Host].off,
                                              Short(old(data)[Host].len + 1))]
    {
      if restart {
        data := data[Host := Slice(Short(i), data[Host].len)];
      }
      Lengthen(Host);
    }

    method NoteHostChar(s0: H.HostPos, s: H.HostPos, i: nat, ghost base: nat, ghost a: H.Authority,
                        ghost g: H.Authority, ghost before: set<UrlField>)
      requires HostNoted(base, a, before) && i == base + |H.HostText(a)| && HostLengthens(base, a, g, s0, s)
      requires s.InHost? || s.InV6? || s.ZoneStart? || s.InZone?
      modifies this
      ensures HostNoted(base, g, before) && port == old(port)
      ensures forall f :: !Inner(f) ==> data[f] == old(data)[f]
    {
      hide H.HostText, HostExtent;
      ShortNext(HostExtent(base, a, Host).len);
      LengthenHost(i, s != s0 && (s.InHost? || s.InV6?));
    }

    method NoteInnerChar(s0: H.HostPos, s: H.HostPos, i: nat, ghost base: nat, ghost a: H.Authority,
                         ghost g: H.Authority, ghost before: set<UrlField>)
      requires HostNoted(base, a, before) && i == base + |H.HostText(a)| && HostLengthens(base, a, g, s0, s)
      requires s.InPort? || s.InUserInfo?
      modifies this
      ensures HostNoted(base, g, before) && port == old(port)
      ensures forall f :: !Inner(f) ==> data[f] == old(data)[f]
    {
      hide H.HostText, HostExtent;
      var f := if s.InPort? then Port else UserInfo;
      if s != s0 {
        Begin(f, i);
      } else {
        ShortNext(HostExtent(base, a, f).len);
        Lengthen(f);
      }
    }

    /** The second pass: one byte that leads from state s0 to state s. */
    method NoteHostByte(s0: H.HostPos, s: H.HostPos, i: nat, ghost base: nat, ghost a: H.Authority,
                        ghost g: H.Authority, ghost before: set<UrlField>)
      requires HostNoted(base, a, before) && i == base + |H.HostText(a)| && HostLengthens(base, a, g, s0, s)
      modifies this
      ensures HostNoted(base, g, before) && port == old(port)
      ensures forall f :: !Inner(f) ==> data[f] == old(data)[f]
    {
      hide H.HostText, HostExtent;
      if s.InHost? || s.InV6? || s.ZoneStart? || s.InZone? {
        NoteHostChar(s0, s, i, base, a, g, before);
      } else if s.InPort? || s.InUserInfo? {
        NoteInnerChar(s0, s, i, base, a, g, before);
      }
    }

    ghost predicate HostReached(buf: Bytes, foundAt: bool, base: nat, i: nat, a: H.Authority, before: set<UrlField>)
      reads this
      requires base <= i <= |buf|
    {
      && H.Walk(foundAt, buf[base..i]) == Some(a) && H.Proper(foundAt, a)
      && |H.HostText(a)| == i - base && HostNoted(base, a, before)
    }

    method HostTurn(buf: Bytes, i: nat, s: H.HostPos, foundAt: bool, ghost base: nat, ghost a: H.Authority,
                    ghost before: set<UrlField>)
      returns (next: H.HostPos, ghost g: H.Authority)
      requires base <= i < |buf| && HostReached(buf, foundAt, base, i, a, before) && s == H.StateAfter(foundAt, a)
      modifies this
      ensures port == old(port) && data.Keys == ALL
      ensures forall f :: !Inner(f) ==> data[f] == old(data)[f]
      ensures if next == H.HostDead then H.Walk(foundAt, buf[base..i + 1]).None?
              else HostReached(buf, foundAt, base, i + 1, g, before) && next == H.StateAfter(foundAt, g)
    {
      hide H.Walk, H.Grow, H.HostText, H.Proper, H.HostChar, H.StateAfter, HostExtent, HostLengthens;
      HostWalkOn(foundAt, buf, base, i, a);
      next := H.HostChar(s, buf[i]);
      g := a;
      if next != H.HostDead {
        g := H.Grow(next, a, buf[i]);
        H.GrowProper(foundAt, a, buf[i]);
        H.GrowFollows(foundAt, a, buf[i]);
        H.GrowText(next, a, buf[i]);
        HostExtentGrow(base, foundAt, a, buf[i]);
        NoteHostByte(s, next, i, base, a, g, before);
      }
    }

    method SplitHost(buf: Bytes, foundAt: bool) returns (ok: bool)
      requires data.Keys == ALL && Host in fieldSet && UserInfo !in fieldSet && Port !in fieldSet
      requires data[Host].off + data[Host].len <= |buf| && data[Host].off < HALF
      modifies this
      ensures port == old(port) && data.Keys == ALL
      ensures forall f :: !Inner(f) ==> data[f] == old(data)[f]
      ensures var at := old(data)[Host];
              var r := H.Walk(foundAt, buf[at.off..at.off + at.len]);
              if r.Some? && H.MayEnd(H.StateAfter(foundAt, r.value)) then ok
                  && HostNoted(at.off, r.value, old(fieldSet))
              else !ok
    {
      hide H.Walk, H.HostText, H.Proper, H.StateAfter, HostExtent, H.MayEnd, HostNoted, HostReached, Stored;
      ghost var at, before := data[Host], fieldSet;
      ghost var text := buf[at.off..at.off + at.len];
      var i, end := data[Host].off, data[Host].off + data[Host].len;
      data := data[Host := Slice(data[Host].off, 0)];
      var s := if foundAt then H.UserInfoStart else H.HostStart;
      ghost var a := H.NOBODY;
      NobodyReached(buf, foundAt, at.off, before);
      while i < end
        invariant at.off <= i <= end == at.off + at.len && port == old(port) && data.Keys == ALL
        invariant HostReached(buf, foundAt, at.off, i, a, before) && s == H.StateAfter(foundAt, a)
        invariant forall f :: !Inner(f) ==> data[f] == old(data)[f]
      {
        s, a := HostTurn(buf, i, s, foundAt, at.off, a, before);
        if s == H.HostDead {
          assert text[..i + 1 - at.off] == buf[at.off..i + 1];
          HostWalkStops(foundAt, text, i + 1 - at.off);
          return false;
        }
        i := i + 1;
      }
      ReachedParts(buf, foundAt, at.off, i, a, before);
      return H.MayEnd(s);
    }

    lemma ReachedParts(buf: Bytes, foundAt: bool, base: nat, i: nat, a: H.Authority, before: set<UrlField>)
      requires base <= i <= |buf| && HostReached(buf, foundAt, base, i, a, before)
      ensures H.Walk(foundAt, buf[base..i]) == Some(a) && HostNoted(base, a, before)
    {
      hide H.Walk, HostNoted;
    }

    lemma NobodyReached(buf: Bytes, foundAt: bool, base: nat, before: set<UrlField>)
      requires data.Keys == ALL && fieldSet == before && data[Host] == Slice(base, 0) && base < HALF && base <= |buf|
      ensures HostReached(buf, foundAt, base, base, H.NOBODY, before)
      ensures H.StateAfter(foundAt, H.NOBODY) == (if foundAt then H.UserInfoStart else H.HostStart)
    {
      hide H.Walk, H.HostText, H.Proper, H.StateAfter, HostNoted;
      StartsAtNobody(foundAt, base, buf);
      NobodyNoted(base, before);
    }

    lemma NobodyNoted(base: nat, before: set<UrlField>)
      requires data.Keys == ALL && fieldSet == before && data[Host] == Slice(base, 0) && base < HALF
      ensures HostNoted(base, H.NOBODY, before)
    {
    }

    /** The value of the port. */
    method ReadPort(buf: Bytes) returns (ok: bool)
      requires data.Keys == ALL && data[Port].off + data[Port].len <= |buf|
      modifies this`port
      ensures var digits := buf[data[Port].off..data[Port].off + data[Port].len];
              && (Digits(digits) ==> if Decimal(0, digits) <= 0xFFFF then ok && port == Decimal(0, digits) else !ok)
              && match PortRead(0, digits) case None => !ok case Some(v) => ok && port == v
    {
      var p, end := data[Port].off, data[Port].off + data[Port].len;
      ghost var digits := buf[p..end];
      if Digits(digits) {
        PortReadDigits(0, digits);
      }
      var v: nat := 0;
      while p < end
        invariant data[Port].off <= p <= end && v <= 0xFFFF
        invariant PortRead(v, buf[p..end]) == PortRead(0, digits)
      {
        assert buf[p..end][0] == buf[p] && buf[p..end][1..] == buf[p + 1..end];
        v := (v * 10 + buf[p] as int - '0' as int) % 0x1_0000_0000_0000_0000;
        if v > 0xFFFF {
          return false;
        }
        p := p + 1;
      }
      assert buf[p..end] == [];
      port := v;
      return true;
    }

    /** The fields and their places are those of the specification. */
    ghost predicate Shows(fields: map<UrlField, Slice>)
      reads this`data, this`fieldSet
    {
      data.Keys == ALL && fieldSet == fields.Keys && forall f :: f in fields ==> f in data && data[f] == fields[f]
    }

    lemma OuterShows(o: U.Pieces)
      requires Noted(o)
      ensures Shows(OuterFields(o))
    {
      hide Extent, Stored;
    }

    lemma BothShows(o: U.Pieces, base: nat, a: H.Authority, before: set<UrlField>)
      requires HostNoted(base, a, before) && Extent(o, Host).len > 0
      requires forall f :: f in before <==> Outer(f) && Extent(o, f).len > 0
      requires forall f :: f in before && f != Host ==> f in data && data[f] == Stored(Extent(o, f))
      ensures Shows(BothFields(o, base, a))
    {
      hide Extent, HostExtent, Stored;
      var l := BothFields(o, base, a);
      forall f: UrlField
        ensures (f in fieldSet <==> f in l) && (f in l ==> f in data && data[f] == l[f])
      {
        AllFields(f);
      }
    }

    /** Every field reported is a piece of the buffer, however long the buffer is. */
    ghost predicate Inside(buf: Bytes)
      reads this`data, this`fieldSet
    {
      data.Keys == ALL && forall f :: f in fieldSet ==> f in data && data[f].off + data[f].len <= |buf|
    }

    lemma OuterInside(buf: Bytes, connect: bool, o: U.Pieces)
      requires Noted(o) && U.Proper(connect, o) && U.Text(o) == buf
      ensures Inside(buf)
    {
      hide U.Text, U.Proper, Extent, Stored;
      OuterPlaces(connect, o);
      forall f | f in fieldSet ensures f in data && data[f].off + data[f].len <= |buf| {
        StoredLess(Extent(o, f));
      }
    }

    lemma HostInside(buf: Bytes, base: nat, found: bool, a: H.Authority, before: set<UrlField>)
      requires HostNoted(base, a, before) && H.Proper(found, a) && H.MayEnd(H.StateAfter(found, a))
      requires base + |H.HostText(a)| <= |buf|
      requires forall f :: f in before && f != Host ==>
                 f !in {UserInfo, Port} && f in data && data[f].off + data[f].len <= |buf|
      ensures Inside(buf)
    {
      hide H.HostText, H.Proper, HostExtent, H.MayEnd, H.StateAfter, Stored;
      HostPlaces(base, found, a);
      forall f | f in fieldSet ensures f in data && data[f].off + data[f].len <= |buf| {
        AllFields(f);
        if Inner(f) {
          StoredLess(HostExtent(base, a, f));
        }
      }
    }

    /** The whole of it, for buffers of any length. */
    method ParseUrl(buf: Bytes, connect: bool) returns (ok: bool)
      requires data.Keys == ALL
      modifies this
      ensures match Split(connect, buf)
              case Bad => !ok
              case Good(fields, p) => ok && Shows(fields) && port == p
      ensures |buf| < HALF ==>
                match Parse(connect, buf)
                case Bad => !ok
                case Good(fields, p) => ok && Shows(fields) && port == p
      ensures ok ==> Inside(buf)
    {
      hide U.Walk, U.Proper, U.Text, Extent, H.Walk, H.StateAfter, H.MayEnd, HostExtent, Layout, H.Proper, Holds,
           H.HostText, HostNoted, OuterFields, BothFields, Finish, Parse, Shows, HostPart;
      if |buf| < HALF {
        SplitIsParse(connect, buf);
      }
      if |buf| == 0 {
        return false;
      }
      var split, foundAt := SplitOuter(buf, connect);
      if !split {
        return false;
      }
      U.WalkSound(connect, buf);
      ghost var o := U.Walk(connect, buf).value;
      OuterPlaces(connect, o);
      if Schema in fieldSet && Host !in fieldSet {
        return false;
      }
      OuterInside(buf, connect, o);
      if Host !in fieldSet {
        OuterShows(o);
        return !connect;
      }
      ok := FinishHost(buf, connect, foundAt, o);
    }

    /** The second pass, and what follows it. */
    method FinishHost(buf: Bytes, connect: bool, foundAt: bool, ghost o: U.Pieces) returns (ok: bool)
      requires Noted(o) && o.authority != [] && port == 0 && Extent(o, Host).len > 0
      requires (foundAt <==> '@' in o.authority) && Inside(buf)
      modifies this
      ensures ok ==> Inside(buf)
      ensures match H.Walk(foundAt, HostPart(buf, o))
              case None => !ok
              case Some(a) =>
                if !H.MayEnd(H.StateAfter(foundAt, a)) then !ok
                else
                  match Finish(connect, buf, BothFields(o, Short(Extent(o, Host).off), a))
                  case Bad => !ok
                  case Good(fields, p) => ok && Shows(fields) && port == p
    {
      hide Extent, H.Walk, H.StateAfter, H.MayEnd, HostExtent, H.Proper, H.HostText, HostNoted, BothFields, Finish,
          Shows;
      ghost var at, before := data[Host], fieldSet;
      ghost var text := buf[at.off..at.off + at.len];
      assert at == Stored(Extent(o, Host)) && HostPart(buf, o) == text;
      ok := SplitHost(buf, foundAt);
      if ok {
        ghost var a := H.Walk(foundAt, text).value;
        H.WalkSound(foundAt, text);
        HostInside(buf, at.off, foundAt, a, before);
        BothShows(o, at.off, a, before);
        ok := FinishPort(buf, connect, BothFields(o, at.off, a));
      }
    }

    /** The check on CONNECT targets and the value of the port. */
    method FinishPort(buf: Bytes, connect: bool, ghost fields: map<UrlField, Slice>) returns (ok: bool)
      requires Shows(fields) && Inside(buf) && port == 0
      modifies this`port
      ensures match Finish(connect, buf, fields)
              case Bad => !ok
              case Good(g, p) => ok && g == fields && port == p
    {
      hide PortRead;
      if connect && fieldSet != {Host, Port} {
        return false;
      }
      if Port in fieldSet {
        ok := ReadPort(buf);
      } else {
        return true;
      }
    }
  }

  lemma StartsAtNobody(found: bool, base: nat, buf: Bytes)
    requires base <= |buf|
    ensures H.Walk(found, buf[base..base]) == Some(H.NOBODY) && H.Proper(found, H.NOBODY)
    ensures H.StateAfter(found, H.NOBODY) == (if found then H.UserInfoStart else H.HostStart)
    ensures H.HostText(H.NOBODY) == []
    ensures HostExtent(base, H.NOBODY, Host) == Slice(base, 0)
    ensures HostExtent(base, H.NOBODY, UserInfo).len == 0 && HostExtent(base, H.NOBODY, Port).len == 0
  {
  }

  lemma StartsAtNothing(connect: bool, buf: Bytes)
    ensures U.Walk(connect, buf[..0]) == Some(U.NOTHING) && U.Proper(connect, U.NOTHING)
    ensures U.StateAfter(connect, U.NOTHING) == (if connect then ReqServerStart else UrlBefore)
    ensures U.Text(U.NOTHING) == [] && Latest(U.NOTHING) == None
    ensures forall f :: Extent(U.NOTHING, f).len == 0
  {
  }

  lemma AtGrows(s: UrlPos, o: U.Pieces, ch: Byte)
    requires s.ReqServer? ==> ch != '@'
    requires s.ReqServerWithAt? ==> ch == '@'
    ensures '@' in U.Grow(s, o, ch).authority <==> '@' in o.authority || s.ReqServerWithAt?
  {
  }
}
