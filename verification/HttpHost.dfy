/** Splitting the authority of a URL into user information, host and port (`http_parse_host_char` and the
    automaton of `http_parse_host`).  As for the URL itself, splitting inverts putting together. */
module HttpHost {
  import opened Options
  import opened HttpSyntax

  datatype HostPos =
    | HostDead | UserInfoStart | InUserInfo | HostStart | V6Start | InHost | InV6 | V6End
    | ZoneStart | InZone | PortStart | InPort

  predicate IsZoneChar(ch: Byte) {
    IsAlphaNum(ch) || ch == '%' || ch == '.' || ch == '-' || ch == '_' || ch == '~'
  }

  predicate IsV6Char(ch: Byte) { IsHex(ch) || ch == ':' || ch == '.' }

  function HostChar(s: HostPos, ch: Byte): HostPos {
    match s
    case UserInfoStart => if ch == '@' then HostStart else if IsUserInfoChar(ch) then InUserInfo else HostDead
    case InUserInfo => if ch == '@' then HostStart else if IsUserInfoChar(ch) then InUserInfo else HostDead
    case HostStart => if ch == '[' then V6Start else if IsHostChar(ch) then InHost else HostDead
    case InHost => if IsHostChar(ch) then InHost else if ch == ':' then PortStart else HostDead
    case V6End => if ch == ':' then PortStart else HostDead
    case InV6 =>
      if ch == ']' then V6End else if IsV6Char(ch) then InV6 else if ch == '%' then ZoneStart else HostDead
    case V6Start => if IsV6Char(ch) then InV6 else HostDead
    case InZone => if ch == ']' then V6End else if IsZoneChar(ch) then InZone else HostDead
    case ZoneStart => if IsZoneChar(ch) then InZone else HostDead
    case InPort => if IsNum(ch) then InPort else HostDead
    case PortStart => if IsNum(ch) then InPort else HostDead
    case HostDead => HostDead
  }

  /** The states an authority may end in. */
  predicate MayEnd(s: HostPos) { s.InHost? || s.V6End? || s.InPort? }

  // ---------------------------------------------------------------- what an authority is made of

  datatype Authority = Authority(
    userinfo: Bytes, at: bool, name: Bytes, open: bool, address: Bytes, percent: bool, zone: Bytes,
    close: bool, colon: bool, port: Bytes)

  const NOBODY := Authority([], false, [], false, [], false, [], false, false, [])

  function Sign(here: bool, ch: Byte): Bytes { if here then [ch] else [] }

  function ToAt(a: Authority): Bytes { a.userinfo + Sign(a.at, '@') }
  function ToName(a: Authority): Bytes { ToAt(a) + a.name }
  function ToOpen(a: Authority): Bytes { ToName(a) + Sign(a.open, '[') }
  function ToAddress(a: Authority): Bytes { ToOpen(a) + a.address }
  function ToPercent(a: Authority): Bytes { ToAddress(a) + Sign(a.percent, '%') }
  function ToZone(a: Authority): Bytes { ToPercent(a) + a.zone }
  function ToClose(a: Authority): Bytes { ToZone(a) + Sign(a.close, ']') }
  function ToColon(a: Authority): Bytes { ToClose(a) + Sign(a.colon, ':') }

  /** The authority put together. */
  function HostText(a: Authority): Bytes { ToColon(a) + a.port }

  predicate Spelled(a: Authority) {
    && (forall i :: 0 <= i < |a.userinfo| ==> IsUserInfoChar(a.userinfo[i]))
    && (forall i :: 0 <= i < |a.name| ==> IsHostChar(a.name[i]))
    && (forall i :: 0 <= i < |a.address| ==> IsV6Char(a.address[i]))
    && (forall i :: 0 <= i < |a.zone| ==> IsZoneChar(a.zone[i]))
    && (forall i :: 0 <= i < |a.port| ==> IsNum(a.port[i]))
  }

  /** The parts the automaton can be in the middle of; `found` says that an '@' is expected. */
  predicate Proper(found: bool, a: Authority) {
    && Spelled(a)
    && (a.userinfo != [] || a.at ==> found)
    && (a.name != [] || a.open ==> a.at || !found)
    && !(a.name != [] && a.open)
    && (a.address != [] ==> a.open)
    && (a.percent ==> a.address != [])
    && (a.zone != [] ==> a.percent)
    && (a.close ==> a.address != [] && (a.percent ==> a.zone != []))
    && (a.colon ==> a.name != [] || a.close)
    && (a.port != [] ==> a.colon)
  }

  function StateAfter(found: bool, a: Authority): HostPos {
    if a.port != [] then InPort
    else if a.colon then PortStart
    else if a.close then V6End
    else if a.zone != [] then InZone
    else if a.percent then ZoneStart
    else if a.address != [] then InV6
    else if a.open then V6Start
    else if a.name != [] then InHost
    else if a.at || !found then HostStart
    else if a.userinfo != [] then InUserInfo
    else UserInfoStart
  }

  function Grow(s: HostPos, a: Authority, ch: Byte): Authority {
    match s
    case InUserInfo => a.(userinfo := a.userinfo + [ch])
    case HostStart => a.(at := true)
    case InHost => a.(name := a.name + [ch])
    case V6Start => a.(open := true)
    case InV6 => a.(address := a.address + [ch])
    case ZoneStart => a.(percent := true)
    case InZone => a.(zone := a.zone + [ch])
    case V6End => a.(close := true)
    case PortStart => a.(colon := true)
    case _ => a.(port := a.port + [ch])
  }

  function Walk(found: bool, text: Bytes): Option<Authority>
    decreases |text|
  {
    if text == [] then Some(NOBODY)
    else
      var n := |text| - 1;
      match Walk(found, text[..n])
      case None => None
      case Some(a) =>
        var s := HostChar(StateAfter(found, a), text[n]);
        if s == HostDead then None else Some(Grow(s, a, text[n]))
  }

  lemma CharOf(s0: HostPos, ch: Byte)
    ensures var s := HostChar(s0, ch);
            && (s.InUserInfo? ==> IsUserInfoChar(ch))
            && (s.InHost? ==> IsHostChar(ch))
            && (s.InV6? ==> IsV6Char(ch))
            && (s.InZone? ==> IsZoneChar(ch))
            && (s.InPort? ==> IsNum(ch))
            && (s.HostStart? ==> ch == '@') && (s.V6Start? ==> ch == '[') && (s.ZoneStart? ==> ch == '%')
            && (s.V6End? ==> ch == ']') && (s.PortStart? ==> ch == ':') && s != UserInfoStart
  {
  }

  lemma SnocChars(a: Authority, ch: Byte, s: HostPos)
    requires Spelled(a) && !s.HostDead? && !s.UserInfoStart?
    requires s.InUserInfo? ==> IsUserInfoChar(ch)
    requires s.InHost? ==> IsHostChar(ch)
    requires s.InV6? ==> IsV6Char(ch)
    requires s.InZone? ==> IsZoneChar(ch)
    requires s.InPort? ==> IsNum(ch)
    ensures Spelled(Grow(s, a, ch))
  {
    hide IsUserInfoChar, IsHostChar, IsV6Char, IsZoneChar;
  }

  lemma GrowProper(found: bool, a: Authority, ch: Byte)
    requires Proper(found, a) && HostChar(StateAfter(found, a), ch) != HostDead
    ensures var s := HostChar(StateAfter(found, a), ch);
            Proper(found, Grow(s, a, ch)) && StateAfter(found, Grow(s, a, ch)) == s
  {
    hide Spelled, IsUserInfoChar, IsHostChar, IsV6Char, IsZoneChar, IsNum;
    CharOf(StateAfter(found, a), ch);
    SnocChars(a, ch, HostChar(StateAfter(found, a), ch));
  }

  /** What is still missing when a byte leads to state s, and which byte it was. */
  predicate Follows(s: HostPos, a: Authority, ch: Byte) {
    && (!s.InPort? ==> !a.colon && a.port == [])
    && (!s.InPort? && !s.PortStart? ==> !a.close)
    && (!s.InPort? && !s.PortStart? && !s.V6End? && !s.InZone? ==> a.zone == [] && !a.percent)
    && (s.InUserInfo? || s.HostStart? || s.InHost? || s.V6Start? ==> a.address == [] && !a.open)
    && (s.InUserInfo? || s.HostStart? || s.V6Start? ==> a.name == [])
    && (s.InUserInfo? || s.HostStart? ==> !a.at)
    && (s.HostStart? ==> ch == '@') && (s.V6Start? ==> ch == '[') && (s.ZoneStart? ==> ch == '%')
    && (s.V6End? ==> ch == ']') && (s.PortStart? ==> ch == ':')
    && s != HostDead && s != UserInfoStart
  }

  lemma GrowFollows(found: bool, a: Authority, ch: Byte)
    requires Proper(found, a) && HostChar(StateAfter(found, a), ch) != HostDead
    ensures Follows(HostChar(StateAfter(found, a), ch), a, ch)
  {
    hide Spelled, IsUserInfoChar, IsHostChar, IsV6Char, IsZoneChar, IsNum;
    CharOf(StateAfter(found, a), ch);
  }

  lemma TextEnds(a: Authority)
    ensures a.port == [] ==> HostText(a) == ToColon(a)
    ensures a.port == [] && !a.colon ==> HostText(a) == ToClose(a)
    ensures a.port == [] && !a.colon && !a.close ==> HostText(a) == ToZone(a)
    ensures a.port == [] && !a.colon && !a.close && a.zone == [] ==> HostText(a) == ToPercent(a)
    ensures a.port == [] && !a.colon && !a.close && a.zone == [] && !a.percent ==> HostText(a) == ToAddress(a)
  {
  }

  lemma TextEndsEarly(a: Authority)
    requires a.port == [] && !a.colon && !a.close && a.zone == [] && !a.percent && a.address == []
    ensures HostText(a) == ToOpen(a)
    ensures !a.open ==> HostText(a) == ToName(a)
    ensures !a.open && a.name == [] ==> HostText(a) == ToAt(a)
    ensures !a.open && a.name == [] && !a.at ==> HostText(a) == a.userinfo
  {
    TextEnds(a);
  }

  lemma GrowText(s: HostPos, a: Authority, ch: Byte)
    requires Follows(s, a, ch)
    ensures HostText(Grow(s, a, ch)) == HostText(a) + [ch]
  {
    hide HostText;
    var g := Grow(s, a, ch);
    if s.InUserInfo? || s.HostStart? || s.InHost? || s.V6Start? {
      hide ToColon, ToClose, ToZone, ToPercent;
      TextEndsEarly(a);
      TextEndsEarly(g);
    } else if s.InPort? {
      PortText(a, ch);
    } else {
      hide ToOpen;
      TextEnds(a);
      TextEnds(g);
      OpenKept(s, a, ch);
    }
  }

  lemma OpenKept(s: HostPos, a: Authority, ch: Byte)
    requires s.PortStart? || s.V6End? || s.InZone? || s.ZoneStart? || s.InV6?
    ensures ToOpen(Grow(s, a, ch)) == ToOpen(a)
  {
  }

  lemma PortText(a: Authority, ch: Byte)
    ensures HostText(a.(port := a.port + [ch])) == HostText(a) + [ch]
  {
  }

  lemma {:induction false} WalkSound(found: bool, text: Bytes)
    ensures Walk(found, text).Some? ==>
              Proper(found, Walk(found, text).value) && HostText(Walk(found, text).value) == text
    decreases |text|
  {
    hide Proper, HostText, Grow, StateAfter, HostChar, Follows;
    if text == [] {
      assert Proper(found, NOBODY) && HostText(NOBODY) == [] by { NobodyProper(found); }
    } else {
      var n := |text| - 1;
      WalkSound(found, text[..n]);
      if Walk(found, text).Some? {
        var a := Walk(found, text[..n]).value;
        GrowProper(found, a, text[n]);
        GrowFollows(found, a, text[n]);
        GrowText(HostChar(StateAfter(found, a), text[n]), a, text[n]);
      }
    }
  }

  lemma NobodyProper(found: bool)
    ensures Proper(found, NOBODY) && HostText(NOBODY) == []
  {
  }

  function Init(s: Bytes): Bytes
    requires s != []
  {
    s[..|s| - 1]
  }

  function LastByte(s: Bytes): Byte
    requires s != []
  {
    s[|s| - 1]
  }

  function Shrink(a: Authority): (r: (Authority, Byte))
    requires a != NOBODY
  {
    if a.port != [] then (a.(port := Init(a.port)), LastByte(a.port))
    else if a.colon then (a.(colon := false), ':')
    else if a.close then (a.(close := false), ']')
    else if a.zone != [] then (a.(zone := Init(a.zone)), LastByte(a.zone))
    else if a.percent then (a.(percent := false), '%')
    else if a.address != [] then (a.(address := Init(a.address)), LastByte(a.address))
    else if a.open then (a.(open := false), '[')
    else if a.name != [] then (a.(name := Init(a.name)), LastByte(a.name))
    else if a.at then (a.(at := false), '@')
    else (a.(userinfo := Init(a.userinfo)), LastByte(a.userinfo))
  }

  lemma ShrinkSpelled(a: Authority)
    requires Spelled(a) && a != NOBODY
    ensures Spelled(Shrink(a).0)
  {
    hide IsUserInfoChar, IsHostChar, IsV6Char, IsZoneChar;
  }

  lemma ShrinkProper(found: bool, a: Authority)
    requires Proper(found, a) && a != NOBODY
    ensures Proper(found, Shrink(a).0)
  {
    hide Spelled;
    ShrinkSpelled(a);
  }

  lemma Rejoin(s: Bytes)
    requires s != []
    ensures Init(s) + [LastByte(s)] == s && |Init(s)| == |s| - 1
  {
  }

  lemma LastSpelled(a: Authority)
    requires Spelled(a)
    ensures a.userinfo != [] ==> IsUserInfoChar(LastByte(a.userinfo))
    ensures a.name != [] ==> IsHostChar(LastByte(a.name))
    ensures a.address != [] ==> IsV6Char(LastByte(a.address))
    ensures a.zone != [] ==> IsZoneChar(LastByte(a.zone))
    ensures a.port != [] ==> IsNum(LastByte(a.port))
  {
  }

  lemma ShrinkGrow(found: bool, a: Authority)
    requires Proper(found, a) && a != NOBODY
    ensures var (q, ch) := Shrink(a);
            var s := HostChar(StateAfter(found, q), ch);
            s == StateAfter(found, a) && s != HostDead && Grow(s, q, ch) == a
  {
    hide Spelled, Init, LastByte;
    LastSpelled(a);
    if a.port != [] {
      Rejoin(a.port);
    } else if a.zone != [] {
      Rejoin(a.zone);
    } else if a.address != [] {
      Rejoin(a.address);
    } else if a.name != [] {
      Rejoin(a.name);
    } else if a.userinfo != [] {
      Rejoin(a.userinfo);
    }
  }

  lemma {:induction false} WalkComplete(found: bool, a: Authority)
    requires Proper(found, a)
    ensures Walk(found, HostText(a)) == Some(a)
    decreases |HostText(a)|
  {
    hide Proper, HostText, Grow, StateAfter, HostChar, Shrink, Follows;
    if a == NOBODY {
      NobodyProper(found);
    } else {
      var (q, ch) := Shrink(a);
      ShrinkProper(found, a);
      ShrinkGrow(found, a);
      GrowFollows(found, q, ch);
      GrowText(StateAfter(found, a), q, ch);
      WalkComplete(found, q);
      assert HostText(a)[..|HostText(a)| - 1] == HostText(q);
    }
  }
}
