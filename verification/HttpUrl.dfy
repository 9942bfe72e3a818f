/** Splitting a URL into its fields (`http_parser_parse_url`).

    The code walks the URL automaton and notes where each field starts and how long it is.  The
    specification says what a URL is made of and puts it together; splitting is shown to be the exact
    inverse, so that a URL is accepted precisely when it can be put together. */
module HttpUrl {
  import opened Options
  import opened HttpSyntax
  import opened HttpMachine

  // ---------------------------------------------------------------- what a URL is made of

  datatype Pieces = Pieces(
    schema: Bytes, slashes: nat, authority: Bytes, path: Bytes, question: bool, query: Bytes,
    hashes: nat, fragment: Bytes)

  const NOTHING := Pieces([], 0, [], [], false, [], 0, [])

  function Slashes(n: nat): Bytes {
    if n == 0 then [] else if n == 1 then [':'] else if n == 2 then [':', '/'] else [':', '/', '/']
  }

  function Hashes(n: nat): (s: Bytes)
    ensures |s| == n
  {
    seq(n, _ => '#')
  }

  function ToSchema(o: Pieces): Bytes { o.schema + Slashes(o.slashes) }
  function ToAuthority(o: Pieces): Bytes { ToSchema(o) + o.authority }
  function ToPath(o: Pieces): Bytes { ToAuthority(o) + o.path }
  function ToMark(o: Pieces): Bytes { ToPath(o) + (if o.question then ['?'] else []) }
  function ToQuery(o: Pieces): Bytes { ToMark(o) + o.query }
  function ToHashes(o: Pieces): Bytes { ToQuery(o) + Hashes(o.hashes) }

  /** The URL put together. */
  function Text(o: Pieces): Bytes { ToHashes(o) + o.fragment }

  predicate IsServerChar(c: Byte) { IsUserInfoChar(c) || c == '[' || c == ']' || c == '@' }

  predicate Alphas(s: Bytes) { forall i :: 0 <= i < |s| ==> IsAlpha(s[i]) }

  predicate ServerChars(s: Bytes) {
    && (forall i :: 0 <= i < |s| ==> IsServerChar(s[i]))
    && forall i :: 0 < i < |s| ==> !(s[i - 1] == '@' && s[i] == '@')
  }

  predicate PathChars(s: Bytes) { forall i :: 0 <= i < |s| ==> IsUrlChar(s[i]) }

  predicate QueryChars(s: Bytes) { forall i :: 0 <= i < |s| ==> IsUrlChar(s[i]) || s[i] == '?' }

  predicate FragmentChars(s: Bytes) {
    && (forall i :: 0 <= i < |s| ==> IsUrlChar(s[i]) || s[i] == '?' || s[i] == '#')
    && (s != [] ==> s[0] != '#')
  }

  /** Has the part before the authority been passed? */
  predicate AtServer(connect: bool, o: Pieces) { connect || o.slashes == 3 }

  /** The pieces the automaton can be in the middle of. */
  predicate Proper(connect: bool, o: Pieces) {
    && Alphas(o.schema) && ServerChars(o.authority) && PathChars(o.path) && QueryChars(o.query)
    && FragmentChars(o.fragment)
    && o.slashes <= 3
    && (connect ==> o.schema == [] && o.slashes == 0)
    && (o.slashes > 0 ==> o.schema != [])
    && (o.authority != [] ==> AtServer(connect, o))
    && (o.path != [] ==> o.path[0] == '/' || (o.path[0] == '*' && !AtServer(connect, o)))
    && (o.path != [] && !AtServer(connect, o) ==> o.schema == [])
    && (o.question ==> o.path != [] || AtServer(connect, o))
    && (o.query != [] ==> o.question)
    && (o.hashes > 0 ==> o.path != [] || o.question)
    && (o.fragment != [] ==> o.hashes > 0)
  }

  /** The state of the automaton after these pieces. */
  function StateAfter(connect: bool, o: Pieces): UrlPos {
    if o.fragment != [] then ReqFragment
    else if o.hashes > 0 then ReqFragmentStart
    else if o.query != [] then ReqQuery
    else if o.question then ReqQueryStart
    else if o.path != [] then ReqPath
    else if o.authority != [] then (if o.authority[|o.authority| - 1] == '@' then ReqServerWithAt else ReqServer)
    else if AtServer(connect, o) then ReqServerStart
    else if o.slashes == 2 then ReqSchemaSlashSlash
    else if o.slashes == 1 then ReqSchemaSlash
    else if o.schema != [] then ReqSchema
    else UrlBefore
  }

  /** The pieces after one more byte, which has led to state s. */
  function Grow(s: UrlPos, o: Pieces, ch: Byte): Pieces {
    match s
    case ReqSchema => o.(schema := o.schema + [ch])
    case ReqServer => o.(authority := o.authority + [ch])
    case ReqServerWithAt => o.(authority := o.authority + [ch])
    case ReqPath => o.(path := o.path + [ch])
    case ReqQueryStart => o.(question := true)
    case ReqQuery => o.(query := o.query + [ch])
    case ReqFragmentStart => o.(hashes := o.hashes + 1)
    case ReqFragment => o.(fragment := o.fragment + [ch])
    case _ => o.(slashes := o.slashes + 1)
  }

  /** The pieces of a text, if the automaton gets through it. */
  function Walk(connect: bool, text: Bytes): Option<Pieces>
    decreases |text|
  {
    if text == [] then Some(NOTHING)
    else
      var n := |text| - 1;
      match Walk(connect, text[..n])
      case None => None
      case Some(o) =>
        var s := UrlChar(StateAfter(connect, o), text[n]);
        if s == UrlDead then None else Some(Grow(s, o, text[n]))
  }

  /** The characters of the pieces that take characters, each in its own alphabet. */
  predicate Spelled(o: Pieces) {
    && Alphas(o.schema) && ServerChars(o.authority) && PathChars(o.path) && QueryChars(o.query)
    && FragmentChars(o.fragment)
  }

  lemma SnocChars(o: Pieces, ch: Byte, s: UrlPos)
    requires Spelled(o)
    requires s.ReqSchema? ==> IsAlpha(ch)
    requires s.ReqServer? || s.ReqServerWithAt? ==> IsServerChar(ch)
    requires s.ReqServerWithAt? && o.authority != [] ==> o.authority[|o.authority| - 1] != '@'
    requires s.ReqServer? ==> ch != '@'
    requires s.ReqPath? ==> IsUrlChar(ch)
    requires s.ReqQuery? ==> IsUrlChar(ch) || ch == '?'
    requires s.ReqFragment? ==> IsUrlChar(ch) || ch == '?' || (ch == '#' && o.fragment != [])
    ensures Spelled(Grow(s, o, ch))
  {
    hide IsAlpha, IsServerChar;
  }

  /** What the automaton checks of a byte on the way to state s. */
  lemma CharOf(connect: bool, o: Pieces, ch: Byte)
    requires Proper(connect, o)
    ensures var s0 := StateAfter(connect, o);
            var s := UrlChar(s0, ch);
            && (s.ReqSchema? ==> IsAlpha(ch))
            && (s.ReqServer? || s.ReqServerWithAt? ==> IsServerChar(ch))
            && (s.ReqServerWithAt? && o.authority != [] ==> o.authority[|o.authority| - 1] != '@')
            && (s.ReqServer? ==> ch != '@') && (s.ReqServerWithAt? ==> ch == '@')
            && (s.ReqPath? ==> IsUrlChar(ch))
            && (s.ReqQuery? ==> IsUrlChar(ch) || ch == '?')
            && (s.ReqFragment? ==> IsUrlChar(ch) || ch == '?' || (ch == '#' && o.fragment != []))
  {
    hide Proper;
  }

  /** What is present when a byte leads to state s: all that `Proper` asks of the other pieces. */
  predicate Ready(connect: bool, o: Pieces, s: UrlPos, ch: Byte) {
    match s
    case ReqSchema => !connect && o.slashes == 0 && o.authority == [] && o.path == []
    case ReqSchemaSlash => !connect && o.schema != [] && o.slashes == 0 && o.authority == [] && o.path == []
        && !o.question
    case ReqSchemaSlashSlash =>
      !connect && o.schema != [] && o.slashes == 1 && o.authority == [] && o.path == [] && !o.question
    case ReqServerStart => !connect && o.schema != [] && o.slashes == 2 && o.authority == [] && o.path == []
        && !o.question
    case ReqServer => AtServer(connect, o)
    case ReqServerWithAt => AtServer(connect, o)
    case ReqPath =>
      || o.path != []
      || ((ch == '/' || (ch == '*' && !AtServer(connect, o))) && (!AtServer(connect, o) ==> o.schema == []))
    case ReqQueryStart => o.path != [] || AtServer(connect, o)
    case ReqQuery => o.question
    case ReqFragmentStart => o.path != [] || o.question
    case ReqFragment => o.hashes > 0
    case _ => false
  }

  lemma GrowReady(connect: bool, o: Pieces, ch: Byte)
    requires Proper(connect, o) && UrlChar(StateAfter(connect, o), ch) != UrlDead
    ensures Ready(connect, o, UrlChar(StateAfter(connect, o), ch), ch)
  {
    hide Alphas, ServerChars, PathChars, QueryChars, FragmentChars, IsUserInfoChar, IsUrlChar;
  }

  lemma ReadyProper(connect: bool, o: Pieces, ch: Byte, s: UrlPos)
    requires Proper(connect, o) && Ready(connect, o, s, ch) && Spelled(Grow(s, o, ch))
    ensures Proper(connect, Grow(s, o, ch))
  {
    hide Alphas, ServerChars, PathChars, QueryChars, FragmentChars;
  }

  lemma GrowProper(connect: bool, o: Pieces, ch: Byte)
    requires Proper(connect, o) && UrlChar(StateAfter(connect, o), ch) != UrlDead
    ensures var s := UrlChar(StateAfter(connect, o), ch);
            Proper(connect, Grow(s, o, ch)) && StateAfter(connect, Grow(s, o, ch)) == s
  {
    var s := UrlChar(StateAfter(connect, o), ch);
    CharOf(connect, o, ch);
    SnocChars(o, ch, s);
    GrowReady(connect, o, ch);
    GrowFollows(connect, o, ch);
    ReadyProper(connect, o, ch, s);
    GrowState(connect, o, ch, s);
  }

  lemma GrowState(connect: bool, o: Pieces, ch: Byte, s: UrlPos)
    requires Follows(s, o, ch) && FollowsEarly(s, o, ch) && s != UrlDead
    requires s.ReqServer? ==> ch != '@'
    requires s.ReqServerWithAt? ==> ch == '@'
    requires Ready(connect, o, s, ch)
    ensures StateAfter(connect, Grow(s, o, ch)) == s
  {
  }

  /** Texts of pieces that end early. */
  lemma TextEnds(o: Pieces)
    ensures o.fragment == [] ==> Text(o) == ToHashes(o)
    ensures o.fragment == [] && o.hashes == 0 ==> Text(o) == ToQuery(o)
    ensures o.fragment == [] && o.hashes == 0 && o.query == [] ==> Text(o) == ToMark(o)
    ensures o.fragment == [] && o.hashes == 0 && o.query == [] && !o.question ==> Text(o) == ToPath(o)
    ensures o.fragment == [] && o.hashes == 0 && o.query == [] && !o.question && o.path == [] ==>
              Text(o) == ToAuthority(o)
    ensures o.fragment == [] && o.hashes == 0 && o.query == [] && !o.question && o.path == [] && o.authority == [] ==>
              Text(o) == ToSchema(o)
  {
  }

  /** What is empty, and what the byte was, when a byte leads to state s. */
  predicate Follows(s: UrlPos, o: Pieces, ch: Byte) {
    && (!s.ReqFragment? ==> o.fragment == [])
    && (!s.ReqFragment? && !s.ReqFragmentStart? ==> o.hashes == 0)
    && (s.ReqFragmentStart? ==> ch == '#')
    && (!s.ReqFragment? && !s.ReqFragmentStart? && !s.ReqQuery? ==> o.query == [] && !o.question)
    && (s.ReqQueryStart? ==> ch == '?')
  }

  predicate FollowsEarly(s: UrlPos, o: Pieces, ch: Byte) {
    && (s.ReqServer? || s.ReqServerWithAt? ==> o.path == [])
    && (s.ReqSchema? || s.ReqSchemaSlash? || s.ReqSchemaSlashSlash? || s.ReqServerStart? ==>
          o.path == [] && o.authority == [])
    && (s.ReqSchema? ==> o.slashes == 0)
    && (s.ReqSchemaSlash? ==> o.slashes == 0 && ch == ':')
    && (s.ReqSchemaSlashSlash? ==> o.slashes == 1 && ch == '/')
    && (s.ReqServerStart? ==> o.slashes == 2 && ch == '/')
    && s != UrlBefore
  }

  lemma GrowFollows(connect: bool, o: Pieces, ch: Byte)
    requires Proper(connect, o) && UrlChar(StateAfter(connect, o), ch) != UrlDead
    ensures Follows(UrlChar(StateAfter(connect, o), ch), o, ch)
    ensures FollowsEarly(UrlChar(StateAfter(connect, o), ch), o, ch)
  {
    hide Alphas, ServerChars, PathChars, QueryChars, FragmentChars, IsUserInfoChar, IsUrlChar;
  }

  lemma GrowText(s: UrlPos, o: Pieces, ch: Byte)
    requires s != UrlDead && Follows(s, o, ch) && FollowsEarly(s, o, ch)
    ensures Text(Grow(s, o, ch)) == Text(o) + [ch]
  {
    hide Text;
    TextEnds(o);
    TextEnds(Grow(s, o, ch));
    match s {
      case ReqFragment => FragmentText(o, ch);
      case ReqFragmentStart => assert Hashes(o.hashes + 1) == Hashes(o.hashes) + ['#'];
      case _ =>
    }
  }

  lemma FragmentText(o: Pieces, ch: Byte)
    ensures Text(o.(fragment := o.fragment + [ch])) == Text(o) + [ch]
  {
  }

  lemma {:induction false} WalkSound(connect: bool, text: Bytes)
    ensures Walk(connect, text).Some? ==>
              Proper(connect, Walk(connect, text).value) && Text(Walk(connect, text).value) == text
    decreases |text|
  {
    hide Proper, Text, Grow, StateAfter, UrlChar, Follows, FollowsEarly;
    if text == [] {
      assert Proper(connect, NOTHING) && Text(NOTHING) == [] by { NothingProper(connect); }
    } else {
      var n := |text| - 1;
      WalkSound(connect, text[..n]);
      if Walk(connect, text).Some? {
        var o := Walk(connect, text[..n]).value;
        GrowProper(connect, o, text[n]);
        GrowFollows(connect, o, text[n]);
        GrowText(UrlChar(StateAfter(connect, o), text[n]), o, text[n]);
      }
    }
  }

  lemma NothingProper(connect: bool)
    ensures Proper(connect, NOTHING) && Text(NOTHING) == []
  {
  }

  function Init(s: Bytes): Bytes
    requires s != []
  {
    s[..|s| - 1]
  }

  function LastByte(s: Bytes): Byte
    requires s != []
  {
    s[|s| - 1]
  }

  /** The pieces before the last byte, and that byte. */
  function Shrink(o: Pieces): (r: (Pieces, Byte))
    requires o != NOTHING && o.slashes <= 3
  {
    if o.fragment != [] then (o.(fragment := Init(o.fragment)), LastByte(o.fragment))
    else if o.hashes > 0 then (o.(hashes := o.hashes - 1), '#')
    else if o.query != [] then (o.(query := Init(o.query)), LastByte(o.query))
    else if o.question then (o.(question := false), '?')
    else if o.path != [] then (o.(path := Init(o.path)), LastByte(o.path))
    else if o.authority != [] then (o.(authority := Init(o.authority)), LastByte(o.authority))
    else if o.slashes > 0 then (o.(slashes := o.slashes - 1), if o.slashes == 1 then ':' else '/')
    else (o.(schema := Init(o.schema)), LastByte(o.schema))
  }

  lemma ShrinkSpelled(o: Pieces)
    requires Spelled(o) && o != NOTHING && o.slashes <= 3
    ensures Spelled(Shrink(o).0)
  {
    hide IsAlpha, IsServerChar, IsUrlChar;
  }

  lemma ShrinkProper(connect: bool, o: Pieces)
    requires Proper(connect, o) && o != NOTHING
    ensures Proper(connect, Shrink(o).0)
  {
    hide Alphas, ServerChars, PathChars, QueryChars, FragmentChars;
    ShrinkSpelled(o);
  }

  lemma Rejoin(s: Bytes)
    requires s != []
    ensures Init(s) + [LastByte(s)] == s
  {
  }

  predicate Late(o: Pieces) { o.fragment != [] || o.hashes > 0 || o.query != [] || o.question }

  lemma ShrinkLate(connect: bool, o: Pieces)
    requires Proper(connect, o) && Late(o)
    ensures var (q, ch) := Shrink(o);
            var s := UrlChar(StateAfter(connect, q), ch);
            s == StateAfter(connect, o) && Grow(s, q, ch) == o
  {
    hide Alphas, ServerChars, PathChars, IsUserInfoChar, Init;
    if o.fragment != [] {
      Rejoin(o.fragment);
      assert Init(o.fragment) != [] ==> Init(o.fragment)[0] == o.fragment[0];
      LastIs(o.fragment);
    } else if o.hashes > 0 {
    } else if o.query != [] {
      Rejoin(o.query);
      LastIs(o.query);
    }
  }

  lemma LastIs(s: Bytes)
    requires s != []
    ensures |Init(s)| == |s| - 1 && (Init(s) == [] ==> s[0] == LastByte(s))
  {
  }

  lemma ShrinkEarly(connect: bool, o: Pieces)
    requires Proper(connect, o) && !Late(o) && o != NOTHING
    ensures var (q, ch) := Shrink(o);
            var s := UrlChar(StateAfter(connect, q), ch);
            s == StateAfter(connect, o) && Grow(s, q, ch) == o
  {
    hide QueryChars, FragmentChars, Init;
    if o.path != [] {
      Rejoin(o.path);
      LastIs(o.path);
    } else if o.authority != [] {
      Rejoin(o.authority);
      LastIs(o.authority);
      BeforeLast(o.authority);
    } else if o.slashes > 0 {
    } else {
      Rejoin(o.schema);
      LastIs(o.schema);
    }
  }

  lemma BeforeLast(s: Bytes)
    requires s != [] && ServerChars(s)
    ensures Init(s) != [] ==> !(LastByte(Init(s)) == '@' && LastByte(s) == '@')
    ensures IsServerChar(LastByte(s))
  {
  }

  /** Each last byte is one the automaton accepts there, and brings the pieces back. */
  lemma ShrinkGrow(connect: bool, o: Pieces)
    requires Proper(connect, o) && o != NOTHING
    ensures var (q, ch) := Shrink(o);
            var s := UrlChar(StateAfter(connect, q), ch);
            s == StateAfter(connect, o) && s != UrlDead && Grow(s, q, ch) == o
  {
    hide Proper, Shrink, UrlChar, Grow;
    if Late(o) {
      ShrinkLate(connect, o);
    } else {
      ShrinkEarly(connect, o);
    }
  }

  lemma {:induction false} WalkComplete(connect: bool, o: Pieces)
    requires Proper(connect, o)
    ensures Walk(connect, Text(o)) == Some(o)
    decreases |Text(o)|
  {
    hide Proper, Text, Grow, StateAfter, UrlChar, Shrink, Follows, FollowsEarly;
    if o == NOTHING {
      NothingProper(connect);
    } else {
      assert o.slashes <= 3 by { SlashBound(connect, o); }
      var (q, ch) := Shrink(o);
      ShrinkProper(connect, o);
      ShrinkGrow(connect, o);
      GrowFollows(connect, q, ch);
      GrowText(StateAfter(connect, o), q, ch);
      WalkComplete(connect, q);
      assert Text(o)[..|Text(o)| - 1] == Text(q);
    }
  }

  lemma SlashBound(connect: bool, o: Pieces)
    requires Proper(connect, o)
    ensures o.slashes <= 3
  {
  }
}
