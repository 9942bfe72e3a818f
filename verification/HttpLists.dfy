/** What the value matcher hears of a list of words: the codings of a Transfer-Encoding header and the options of a
    Connection header (sections 3.3.1 and 6.1 of RFC 7230).

    The list is taken apart at its commas, and each element is judged on its own.  The matcher does not always see the
    comma after an element: one that ends an element on its way to a word it knows is taken for part of the element,
    and so is one that follows "chunked".  Nor does it go on after an element that is empty or begins like no token. */
module HttpLists {
  import opened HttpSyntax
  import opened HttpMachine
  import opened HttpInvariant
  import opened HttpRun
  import opened HttpSpans
  import opened HttpNames

  const CHUNKED: Bytes := "chunked"
  const KEEP_ALIVE: Bytes := "keep-alive"
  const CLOSE: Bytes := "close"

  datatype List = Codings | Options

  /** The word that may begin with this byte, in lower case; there is at most one. */
  function WordFor(l: List, c: Byte): Bytes {
    if l.Codings? then (if c == 'c' then CHUNKED else [])
    else if c == 'k' then KEEP_ALIVE
    else if c == 'c' then CLOSE
    else if c == 'u' then UPGRADE
    else []
  }

  // ---------------------------------------------------------------- elements

  datatype Item = Blank | Odd | Partial | Word(word: Bytes) | Other

  function Core(e: Bytes): (z: Bytes)
    ensures |z| <= |e| && (z != [] ==> z[0] != ' ')
    decreases |e|
  {
    if e != [] && e[0] == ' ' then Core(e[1..]) else e
  }

  predicate Spaces(s: Bytes) { forall i :: 0 <= i < |s| ==> s[i] == ' ' }

  /** An element, blanks in front left out: empty; beginning like no token; a part of a word, from its beginning but
      not to its end; a word, in any case, with nothing but blanks behind; or another one. */
  function ItemOf(l: List, e: Bytes): Item {
    var z := Core(e);
    if z == [] then Blank
    else
      var low := Lowered(z);
      var w := WordFor(l, low[0]);
      if w == [] then (if IsToken(OrSpace(z[0])) then Other else Odd)
      else if low < w then Partial
      else if w <= low && Spaces(z[|w|..]) then Word(w)
      else Other
  }

  /** The length of the first element. */
  function Upto(v: Bytes): (k: nat)
    ensures k <= |v| && ',' !in v[..k] && (k < |v| ==> v[k] == ',')
    decreases |v|
  {
    if v == [] then 0
    else if v[0] == ',' then 0
    else
      var k := 1 + Upto(v[1..]);
      assert v[..k] == [v[0]] + v[1..][..k - 1];
      k
  }

  /** How the walk over a list ends: with which element, and having heard which words before. */
  datatype Walk = Walk(end: Item, said: set<Bytes>)

  /** From the start of an element. */
  function WalkFrom(l: List, v: Bytes): Walk
    decreases |v|, 1
  {
    var k := Upto(v);
    var item := ItemOf(l, v[..k]);
    if k == |v| then Walk(item, {})
    else
      match item
      case Other => WalkFrom(l, v[k + 1..])
      case Word(w) =>
        if l.Codings? then WalkPast(l, v[k + 1..])
        else var more := WalkFrom(l, v[k + 1..]); more.(said := more.said + {w})
      case Partial => WalkPast(l, v[k + 1..])
      case _ => Walk(Odd, {})
  }

  /** From after a comma that was not seen. */
  function WalkPast(l: List, v: Bytes): Walk
    decreases |v|, 0
  {
    var k := Upto(v);
    if k == |v| then Walk(Other, {}) else WalkFrom(l, v[k + 1..])
  }

  /** From the start of the value, whose first byte is taken for that of an element whatever it is. */
  function WalkValue(l: List, v: Bytes): Walk
    requires v != []
  {
    if v[0] == ',' then WalkPast(l, v[1..])
    else if ItemOf(l, v[..Upto(v)]).Odd? then WalkPast(l, v)
    else WalkFrom(l, v)
  }

  /** The words that are heard in a value. */
  function Says(l: List, v: Bytes): set<Bytes> {
    if v == [] then {}
    else var w := WalkValue(l, v); w.said + if w.end.Word? then {w.end.word} else {}
  }

  // ---------------------------------------------------------------- the matcher

  function StartHs(l: List): HeaderState { if l.Codings? then TeTokenStart else ConnTokenStart }

  function TokenHs(l: List): HeaderState { if l.Codings? then TeToken else ConnToken }

  function MatchHs(l: List, c: Byte): HeaderState {
    if l.Codings? then TeMatchingChunked
    else if c == 'k' then ConnMatchingKeepAlive
    else if c == 'c' then ConnMatchingClose
    else ConnMatchingUpgrade
  }

  function FoundHs(l: List, c: Byte): HeaderState {
    if l.Codings? then TeChunked
    else if c == 'k' then ConnKeepAlive
    else if c == 'c' then ConnClose
    else ConnUpgrade
  }

  predicate Free(bytes: Bytes) { forall i :: 0 <= i < |bytes| ==> IsHeaderChar(bytes[i]) && bytes[i] != ',' }

  predicate HeaderChars(bytes: Bytes) { forall i :: 0 <= i < |bytes| ==> IsHeaderChar(bytes[i]) }

  /** A byte of a list value, when the matcher is in the list. */
  function ListByte(l: List, p: Parser, ch: Byte): Parser {
    if l.Codings? then CodingByte(p, ch) else ConnectionByte(p, ch)
  }

  predicate InList(l: List, hs: HeaderState) { if l.Codings? then CodingHs(hs) else ConnectionHs(hs) }

  lemma ListByteIs(l: List, p: Parser, ch: Byte)
    requires InList(l, p.hs) && IsHeaderChar(ch)
    ensures ValueByte(p, ch) == Ok(ListByte(l, p, ch))
  {
    hide CodingByte, ConnectionByte, IsHeaderChar;
  }

  lemma WordsAre(l: List, c: Byte)
    requires WordFor(l, c) != []
    ensures var w := WordFor(l, c);
            |w| > 1 && w[0] == c && |w| <= 10 && forall i :: 0 <= i < |w| ==> IsLower(w[i]) || w[i] == '-'
    ensures l.Codings? ==> c == 'c'
    ensures l.Options? ==> c == 'k' || c == 'c' || c == 'u'
  {
    assert CHUNKED == ['c', 'h', 'u', 'n', 'k', 'e', 'd'];
    assert KEEP_ALIVE == ['k', 'e', 'e', 'p', '-', 'a', 'l', 'i', 'v', 'e'];
    assert CLOSE == ['c', 'l', 'o', 's', 'e'];
    assert UPGRADE == ['u', 'p', 'g', 'r', 'a', 'd', 'e'];
  }

  /** Setting the bit of the case does what lowering does, as far as the words can tell. */
  lemma BitIsCase(ch: Byte, x: Byte)
    requires IsHeaderChar(ch) && !IsLineEnd(ch) && (IsLower(x) || x == '-')
    ensures OrSpace(ch) == x <==> Lower(ch) == x
  {
  }

  // ---------------------------------------------------------------- inside one element

  /** In another element than the words. */
  lemma {:induction false} FoldToken(l: List, p: Parser, bytes: Bytes)
    requires p.hs == TokenHs(l) && Free(bytes)
    ensures ValueFold(p, bytes) == Ok(p)
    decreases |bytes|
  {
    hide ValueByte, IsHeaderChar;
    if bytes != [] {
      TokenByte(l, p, bytes[0]);
      FoldToken(l, p, bytes[1..]);
    }
  }

  lemma TokenByte(l: List, p: Parser, ch: Byte)
    requires p.hs == TokenHs(l) && IsHeaderChar(ch)
    ensures ValueByte(p, ch) == Ok(if ch == ',' then p.(hs := StartHs(l), index := 0) else p)
  {
    ListByteIs(l, p, ch);
    hide ValueByte, IsHeaderChar, OrSpace;
  }

  /** The parser after a comma, where that is seen. */
  function NextItem(l: List, p: Parser): Parser { p.(hs := StartHs(l), index := 0) }

  /** After the last byte of a word: blanks leave it at that. */
  lemma {:induction false} FoldFound(l: List, p: Parser, c: Byte, bytes: Bytes)
    requires WordFor(l, c) != [] && p.hs == FoundHs(l, c) && Free(bytes)
    ensures ValueFold(p, bytes) == Ok(if Spaces(bytes) then p else p.(hs := TokenHs(l)))
    decreases |bytes|
  {
    hide ValueByte, IsHeaderChar, WordFor;
    if bytes != [] {
      FoundByte(l, p, c, bytes[0]);
      assert bytes == [bytes[0]] + bytes[1..];
      if bytes[0] == ' ' {
        FoldFound(l, p, c, bytes[1..]);
        assert Spaces(bytes) <==> Spaces(bytes[1..]) by { SpacesTail(bytes); }
      } else {
        FoldToken(l, p.(hs := TokenHs(l)), bytes[1..]);
      }
    }
  }

  lemma SpacesTail(bytes: Bytes)
    requires bytes != []
    ensures Spaces(bytes) <==> bytes[0] == ' ' && Spaces(bytes[1..])
  {
    assert forall i :: 0 < i < |bytes| ==> bytes[i] == bytes[1..][i - 1];
  }

  lemma FoundByte(l: List, p: Parser, c: Byte, ch: Byte)
    requires WordFor(l, c) != [] && p.hs == FoundHs(l, c) && IsHeaderChar(ch) && ch != ','
    ensures ValueByte(p, ch) == Ok(if ch == ' ' then p else p.(hs := TokenHs(l)))
  {
    WordsAre(l, c);
    ListByteIs(l, p, ch);
    hide ValueByte, IsHeaderChar, OrSpace;
  }

  /** What the comma after a word does: an option is noted, a coding is not finished. */
  lemma FoundComma(l: List, p: Parser, c: Byte)
    requires WordFor(l, c) != [] && p.hs == FoundHs(l, c)
    ensures ValueByte(p, ',') ==
            Ok(if l.Codings? then p.(hs := TokenHs(l)) else NextItem(l, p.(flags := AddConnectionFlag(p.flags, p.hs))))
  {
    WordsAre(l, c);
    ListByteIs(l, p, ',');
    hide ValueByte, OrSpace;
  }

  /** Where the matching stands after so many more bytes. */
  function Matched(l: List, p: Parser, c: Byte, left: Bytes, bytes: Bytes): Parser {
    var low := Lowered(bytes);
    if low < left then p.(index := p.index + |bytes|)
    else if left <= low && Spaces(bytes[|left|..]) then p.(index := p.index + |left|, hs := FoundHs(l, c))
    else p.(index := Matched0(p.index, left, bytes), hs := TokenHs(l))
  }

  /** The index where matching stops. */
  function Matched0(i: nat, left: Bytes, bytes: Bytes): nat
    decreases |left|
  {
    if left == [] || bytes == [] then i
    else if Lower(bytes[0]) != left[0] then i + 1
    else Matched0(i + 1, left[1..], bytes[1..])
  }

  lemma MatchWordIs(p: Parser, word: Bytes, c: Byte, found: HeaderState, other: HeaderState)
    requires p.index + 1 < |word| < 32
    ensures var i := p.index + 1;
            MatchWord(p, word, c, found, other) ==
            p.(index := i, hs := if c != word[i] then other else if i + 1 == |word| then found else p.hs)
  {
  }

  lemma MatchByte(l: List, p: Parser, c: Byte, ch: Byte)
    requires WordFor(l, c) != [] && p.hs == MatchHs(l, c) && p.index + 1 < |WordFor(l, c)|
    requires IsHeaderChar(ch) && !IsLineEnd(ch)
    ensures var w, i := WordFor(l, c), p.index + 1;
            ValueByte(p, ch) ==
            Ok(p.(index := i,
                  hs := if Lower(ch) != w[i] then TokenHs(l) else if i + 1 == |w| then FoundHs(l, c) else p.hs))
  {
    var w := WordFor(l, c);
    WordsAre(l, c);
    ListByteIs(l, p, ch);
    BitIsCase(ch, w[p.index + 1]);
    MatchWordIs(p, w, OrSpace(ch), FoundHs(l, c), TokenHs(l));
    WordStrings();
    hide ValueByte, IsHeaderChar, OrSpace, Lower, MatchWord, CHUNKED, KEEP_ALIVE, CLOSE, UPGRADE;
  }

  lemma WordStrings()
    ensures CHUNKED == "chunked" && KEEP_ALIVE == "keep-alive" && CLOSE == "close" && UPGRADE == "upgrade"
  {
  }

  lemma {:induction false} FoldMatch(l: List, p: Parser, c: Byte, left: Bytes, bytes: Bytes)
    requires WordFor(l, c) != [] && p.hs == MatchHs(l, c) && p.index + 1 < |WordFor(l, c)|
    requires left == WordFor(l, c)[p.index + 1..] && Free(bytes) && InLine(bytes)
    ensures ValueFold(p, bytes) == Ok(Matched(l, p, c, left, bytes))
    decreases |bytes|
  {
    hide ValueByte, IsHeaderChar, IsLineEnd, Lower, WordFor, MatchHs, FoundHs, TokenHs;
    if bytes == [] {
      assert Lowered(bytes) == [] && p.(index := p.index + 0) == p;
    } else {
      var ch, rest, more := bytes[0], bytes[1..], left[1..];
      MatchByte(l, p, c, ch);
      LoweredCons(bytes);
      PrefixCons(left, Lowered(bytes));
      if Lower(ch) != left[0] {
        FoldToken(l, p.(index := p.index + 1, hs := TokenHs(l)), rest);
      } else if more == [] {
        FoldFound(l, p.(index := p.index + 1, hs := FoundHs(l, c)), c, rest);
        assert |left| == 1 && bytes[|left|..] == rest && left[1..] == [];
        assert Matched0(p.index, left, bytes) == p.index + 1;
        assert left <= Lowered(bytes);
      } else {
        assert more == WordFor(l, c)[p.index + 2..];
        FoldMatch(l, p.(index := p.index + 1), c, more, rest);
        if more <= Lowered(rest) {
          assert bytes[|left|..] == rest[|more|..];
        }
      }
    }
  }

  lemma LoweredCons(bytes: Bytes)
    requires bytes != []
    ensures Lowered(bytes) == [Lower(bytes[0])] + Lowered(bytes[1..])
  {
  }

  lemma PrefixCons(a: Bytes, b: Bytes)
    requires a != [] && b != []
    ensures a <= b <==> a[0] == b[0] && a[1..] <= b[1..]
    ensures b < a <==> a[0] == b[0] && b[1..] < a[1..]
  {
    assert a == [a[0]] + a[1..] && b == [b[0]] + b[1..];
    if a <= b {
      assert a[1..] == b[..|a|][1..] == b[1..][..|a| - 1];
    }
    if b < a {
      assert b[1..] == a[..|b|][1..] == a[1..][..|b| - 1];
    }
  }

  /** Where an element leaves the matcher. */
  function ItemHs(l: List, e: Bytes): HeaderState {
    match ItemOf(l, e)
    case Blank => StartHs(l)
    case Odd => General
    case Partial => MatchHs(l, Lower(Core(e)[0]))
    case Word(w) => FoundHs(l, First(w))
    case Other => TokenHs(l)
  }

  lemma StartBlank(l: List, p: Parser)
    requires p.hs == StartHs(l)
    ensures ValueByte(p, ' ') == Ok(p)
  {
    ListByteIs(l, p, ' ');
    hide ValueByte;
  }

  lemma StartByte(l: List, p: Parser, ch: Byte)
    requires p.hs == StartHs(l) && IsHeaderChar(ch) && !IsLineEnd(ch) && ch != ' '
    ensures ValueByte(p, ch) ==
            Ok(p.(hs := if WordFor(l, Lower(ch)) != [] then MatchHs(l, Lower(ch))
                        else if IsToken(OrSpace(ch)) then TokenHs(l) else General))
  {
    ListByteIs(l, p, ch);
    BitIsCase(ch, 'c');
    BitIsCase(ch, 'k');
    BitIsCase(ch, 'u');
    WordsSome();
    NoBlank(ch);
    hide ValueByte, IsHeaderChar, OrSpace, Lower, IsToken, CHUNKED, KEEP_ALIVE, CLOSE, UPGRADE;
  }

  lemma WordsSome()
    ensures CHUNKED != [] && KEEP_ALIVE != [] && CLOSE != [] && UPGRADE != []
    ensures KEEP_ALIVE != CLOSE && KEEP_ALIVE != UPGRADE && CLOSE != UPGRADE
    ensures CHUNKED[0] == 'c' && KEEP_ALIVE[0] == 'k' && CLOSE[0] == 'c' && UPGRADE[0] == 'u'
  {
  }

  lemma NoBlank(ch: Byte)
    requires IsHeaderChar(ch) && ch != ' '
    ensures !IsBlank(OrSpace(ch))
  {
  }

  lemma FreeTail(e: Bytes)
    requires e != [] && Free(e) && InLine(e)
    ensures Free(e[1..]) && InLine(e[1..]) && IsHeaderChar(e[0]) && !IsLineEnd(e[0]) && e[0] != ','
  {
    hide IsHeaderChar, IsLineEnd;
  }

  /** A whole element, without its comma. */
  lemma {:induction false} ItemFold(l: List, p: Parser, e: Bytes) returns (q: Parser)
    requires p.hs == StartHs(l) && p.index == 0 && Free(e) && InLine(e)
    ensures ValueFold(p, e) == Ok(q) && q == p.(hs := ItemHs(l, e), index := q.index)
    ensures ItemOf(l, e).Partial? ==> q.index + 1 < |WordFor(l, Lower(Core(e)[0]))|
    decreases |e|
  {
    hide ValueByte, Free, InLine, IsHeaderChar, IsLineEnd, WordFor, MatchHs, FoundHs;
    if e == [] {
      q := p;
    } else {
      FreeTail(e);
      if e[0] == ' ' {
        StartBlank(l, p);
        q := ItemFold(l, p, e[1..]);
      } else {
        q := CoreFold(l, p, e);
      }
    }
  }

  lemma CoreFold(l: List, p: Parser, e: Bytes) returns (q: Parser)
    requires p.hs == StartHs(l) && p.index == 0 && Free(e) && InLine(e) && e != [] && e[0] != ' '
    ensures ValueFold(p, e) == Ok(q) && q == p.(hs := ItemHs(l, e), index := q.index)
    ensures ItemOf(l, e).Partial? ==> q.index + 1 < |WordFor(l, Lower(Core(e)[0]))|
  {
    FreeTail(e);
    StartByte(l, p, e[0]);
    q := FirstFold(l, p.(hs := FirstHs(l, e[0])), e);
  }

  /** Where the first byte of an element leaves the matcher. */
  function FirstHs(l: List, ch: Byte): HeaderState {
    if WordFor(l, Lower(ch)) != [] then MatchHs(l, Lower(ch))
    else if IsToken(OrSpace(ch)) then TokenHs(l)
    else General
  }

  /** The kinds of element, by what follows the first byte. */
  lemma CoreItem(l: List, e: Bytes)
    requires e != [] && e[0] != ' '
    ensures Core(e) == e
    ensures var w, rest := WordFor(l, Lower(e[0])), e[1..];
            if w == [] then ItemOf(l, e) == if IsToken(OrSpace(e[0])) then Other else Odd
            else
              && |w| > 1 && w[0] == Lower(e[0])
              && ItemOf(l, e) == if Lowered(rest) < w[1..] then Partial
                                 else if w[1..] <= Lowered(rest) && Spaces(rest[|w| - 1..]) then Word(w)
                                 else Other
  {
    hide OrSpace, Lower, IsToken, WordFor, Spaces;
    var w, rest := WordFor(l, Lower(e[0])), e[1..];
    LoweredCons(e);
    if w != [] {
      WordsAre(l, Lower(e[0]));
      PrefixCons(w, Lowered(e));
      if w[1..] <= Lowered(rest) {
        assert e[|w|..] == rest[|w| - 1..];
      }
    }
  }

  lemma FirstFold(l: List, p: Parser, e: Bytes) returns (q: Parser)
    requires e != [] && e[0] != ' ' && Free(e) && InLine(e) && p.hs == FirstHs(l, e[0]) && p.index == 0
    ensures ValueFold(p, e[1..]) == Ok(q) && q == p.(hs := ItemHs(l, e), index := q.index)
    ensures ItemOf(l, e).Partial? ==> q.index + 1 < |WordFor(l, Lower(Core(e)[0]))|
  {
    hide ValueByte, IsHeaderChar, IsLineEnd, ValueFold, OrSpace, Lower, IsToken, WordFor, MatchHs, FoundHs, ItemOf,
         Core, Lowered, Spaces;
    var c, rest := Lower(e[0]), e[1..];
    var w := WordFor(l, c);
    FreeTail(e);
    CoreItem(l, e);
    if w != [] {
      FoldMatch(l, p, c, w[1..], rest);
      q := Matched(l, p, c, w[1..], rest);
      assert |w[1..]| + 1 == |w|;
    } else if IsToken(OrSpace(e[0])) {
      FoldToken(l, p, rest);
      q := p;
    } else {
      ValueFoldGeneral(p, rest);
      q := p;
    }
  }

  // ---------------------------------------------------------------- the commas

  function First(w: Bytes): Byte { if w == [] then '\0' else w[0] }

  /** The parser after the comma that ends an element. */
  function AfterComma(l: List, p: Parser, item: Item): Parser {
    match item
    case Other => NextItem(l, p)
    case Word(w) =>
      if l.Codings? then p.(hs := TokenHs(l))
      else NextItem(l, p.(flags := AddConnectionFlag(p.flags, FoundHs(l, First(w)))))
    case Partial => p.(hs := TokenHs(l), index := p.index + 1)
    case _ => p.(hs := General)
  }

  lemma CommaFold(l: List, p: Parser, e: Bytes)
    requires p.hs == ItemHs(l, e)
    requires ItemOf(l, e).Partial? ==> p.index + 1 < |WordFor(l, Lower(Core(e)[0]))|
    ensures ValueByte(p, ',') == Ok(AfterComma(l, p, ItemOf(l, e)))
  {
    var item := ItemOf(l, e);
    ItemWord(l, e);
    hide ValueByte, ItemOf, Lower, WordFor, Core;
    match item {
      case Other => TokenByte(l, p, ',');
      case Word(w) => FoundComma(l, p, w[0]);
      case Partial => PartialComma(l, p, Lower(Core(e)[0]));
      case Blank => StartComma(l, p);
      case Odd => GeneralComma(p);
    }
  }

  lemma ItemWord(l: List, e: Bytes)
    ensures ItemOf(l, e).Word? ==>
              var w := ItemOf(l, e).word; |w| > 1 && WordFor(l, w[0]) == w
    ensures ItemOf(l, e).Partial? ==> Core(e) != [] && WordFor(l, Lower(Core(e)[0])) != []
  {
    hide Lower, WordFor;
    var z := Core(e);
    if z != [] && WordFor(l, Lower(z[0])) != [] {
      WordsAre(l, Lower(z[0]));
    }
  }

  lemma StartComma(l: List, p: Parser)
    requires p.hs == StartHs(l)
    ensures ValueByte(p, ',') == Ok(p.(hs := General))
  {
    StartByte(l, p, ',');
    hide ValueByte;
  }

  lemma GeneralComma(p: Parser)
    requires p.hs.General?
    ensures ValueByte(p, ',') == Ok(p)
  {
  }

  lemma PartialComma(l: List, p: Parser, c: Byte)
    requires WordFor(l, c) != [] && p.hs == MatchHs(l, c) && p.index + 1 < |WordFor(l, c)|
    ensures ValueByte(p, ',') == Ok(p.(hs := TokenHs(l), index := p.index + 1))
  {
    WordsAre(l, c);
    MatchByte(l, p, c, ',');
    hide ValueByte, WordFor;
  }

  // ---------------------------------------------------------------- the walk

  /** The flags of a Connection header, and of a Transfer-Encoding header, for the words heard. */
  function AddSaid(f: Flags, said: set<Bytes>): Flags {
    f.(keepAlive := f.keepAlive || KEEP_ALIVE in said, close := f.close || CLOSE in said,
       connUpgrade := f.connUpgrade || UPGRADE in said)
  }

  function Heard(l: List, f: Flags, said: set<Bytes>): Flags {
    if l.Codings? then f.(chunked := f.chunked || CHUNKED in said) else AddSaid(f, said)
  }

  /** The matcher's state at the end of the list. */
  predicate EndsIn(l: List, end: Item, hs: HeaderState) {
    match end
    case Word(w) => w != [] && WordFor(l, w[0]) == w && hs == FoundHs(l, w[0])
    case _ => !hs.TeChunked? && !hs.ConnKeepAlive? && !hs.ConnClose? && !hs.ConnUpgrade?
  }

  predicate Walked(l: List, p: Parser, q: Parser, w: Walk) {
    && q == p.(hs := q.hs, index := q.index, flags := if l.Codings? then p.flags else AddSaid(p.flags, w.said))
    && EndsIn(l, w.end, q.hs) && (l.Codings? ==> w.said == {})
  }

  lemma ItemEnds(l: List, e: Bytes)
    ensures EndsIn(l, ItemOf(l, e), ItemHs(l, e))
  {
    ItemWord(l, e);
    hide ItemOf, WordFor, Core, Lower;
  }

  lemma SaidNone(f: Flags)
    ensures AddSaid(f, {}) == f
  {
  }

  lemma WhichWord(l: List, w: Bytes)
    requires l.Options? && w != [] && WordFor(l, w[0]) == w
    ensures w == KEEP_ALIVE || w == CLOSE || w == UPGRADE
    ensures w == KEEP_ALIVE <==> w[0] == 'k'
    ensures w == CLOSE <==> w[0] == 'c'
    ensures w == UPGRADE <==> w[0] == 'u'
  {
    WordsSome();
    hide CHUNKED, KEEP_ALIVE, CLOSE, UPGRADE;
  }

  lemma SaidMore(l: List, f: Flags, w: Bytes, more: set<Bytes>)
    requires l.Options? && w != [] && WordFor(l, w[0]) == w
    ensures AddSaid(AddConnectionFlag(f, FoundHs(l, w[0])), more) == AddSaid(f, more + {w})
  {
    WhichWord(l, w);
    hide CHUNKED, KEEP_ALIVE, CLOSE, UPGRADE, WordFor;
    InMore(KEEP_ALIVE, w, more);
    InMore(CLOSE, w, more);
    InMore(UPGRADE, w, more);
  }

  lemma InMore(x: Bytes, w: Bytes, more: set<Bytes>)
    ensures x in more + {w} <==> x == w || x in more
  {
  }

  predicate Listed(v: Bytes) { HeaderChars(v) && InLine(v) }

  lemma ListedParts(v: Bytes, k: nat)
    requires Listed(v) && k == Upto(v)
    ensures Free(v[..k]) && InLine(v[..k]) && (k < |v| ==> v == v[..k] + ([','] + v[k + 1..]) && Listed(v[k + 1..]))
    ensures k == |v| ==> v[..k] == v
  {
    hide *;
    UptoBounds(v);
    FreeFront(v, k);
    if k < |v| {
      ListedBack(v, k + 1);
    }
  }

  lemma UptoBounds(v: Bytes)
    ensures Upto(v) <= |v| && ',' !in v[..Upto(v)] && (Upto(v) < |v| ==> v[Upto(v)] == ',')
  {
    hide *;
  }

  lemma FreeFront(v: Bytes, k: nat)
    requires Listed(v) && k <= |v| && ',' !in v[..k]
    ensures Free(v[..k]) && InLine(v[..k])
  {
    hide IsHeaderChar, IsLineEnd;
    forall i | 0 <= i < k ensures v[..k][i] != ',' {
      assert v[..k][i] in v[..k];
    }
  }

  lemma ListedBack(v: Bytes, k: nat)
    requires Listed(v) && k <= |v|
    ensures Listed(v[k..])
  {
    hide IsHeaderChar, IsLineEnd;
  }

  /** One element and its comma, then the rest. */
  lemma FoldOn(p: Parser, e: Bytes, q: Parser, r: Parser, rest: Bytes)
    requires ValueFold(p, e) == Ok(q) && ValueByte(q, ',') == Ok(r)
    ensures ValueFold(p, e + ([','] + rest)) == ValueFold(r, rest)
  {
    hide ValueByte;
    ValueFoldAppend(p, e, [','] + rest);
    assert ([','] + rest)[1..] == rest;
  }

  lemma {:induction false} WalkFromFold(l: List, p: Parser, v: Bytes) returns (q: Parser)
    requires p.hs == StartHs(l) && p.index == 0 && Listed(v)
    ensures ValueFold(p, v) == Ok(q) && Walked(l, p, q, WalkFrom(l, v))
    decreases |v|, 1
  {
    hide ValueFold, ValueByte, Listed, ItemOf, Upto, Walked, ItemHs, AfterComma, StartHs;
    var k := Upto(v);
    var e, rest, item := v[..k], if k < |v| then v[k + 1..] else [], ItemOf(l, v[..k]);
    ListedParts(v, k);
    var p1 := ItemFold(l, p, e);
    if k == |v| {
      q := p1;
      ItemEnds(l, e);
      WalkedEnd(l, p, q, item);
    } else {
      CommaFold(l, p1, e);
      var p2 := AfterComma(l, p1, item);
      FoldOn(p, e, p1, p2, rest);
      q := AfterItem(l, p, p1, item, rest);
      ItemWord(l, e);
      WalkedOn(l, p, p1, item, q, rest);
    }
  }

  /** From after a comma, seen or not. */
  lemma {:induction false} AfterItem(l: List, p: Parser, p1: Parser, item: Item, rest: Bytes) returns (q: Parser)
    requires p1 == p.(hs := p1.hs, index := p1.index) && Listed(rest)
    ensures var p2 := AfterComma(l, p1, item);
            && ValueFold(p2, rest) == Ok(q)
            && match item
               case Other => Walked(l, p2, q, WalkFrom(l, rest))
               case Word(_) => Walked(l, p2, q, if l.Codings? then WalkPast(l, rest) else WalkFrom(l, rest))
               case Partial => Walked(l, p2, q, WalkPast(l, rest))
               case _ => q == p2
    decreases |rest|, 2
  {
    hide ValueFold, ValueByte, Listed, Walked, StartHs, TokenHs, WalkFrom, WalkPast, FoundHs;
    var p2 := AfterComma(l, p1, item);
    if item.Other? || (item.Word? && l.Options?) {
      q := WalkFromFold(l, p2, rest);
    } else if item.Word? || item.Partial? {
      q := WalkPastFold(l, p2, rest);
    } else {
      ListedChars(rest);
      ValueFoldGeneral(p2, rest);
      q := p2;
    }
  }

  lemma ListedChars(v: Bytes)
    requires Listed(v)
    ensures forall i :: 0 <= i < |v| ==> IsHeaderChar(v[i])
  {
    hide IsHeaderChar;
  }

  lemma {:induction false} WalkPastFold(l: List, p: Parser, v: Bytes) returns (q: Parser)
    requires p.hs == TokenHs(l) && Listed(v)
    ensures ValueFold(p, v) == Ok(q) && Walked(l, p, q, WalkPast(l, v))
    decreases |v|, 0
  {
    hide ValueFold, ValueByte, Listed, Upto, Walked, TokenHs, StartHs, WalkFrom;
    var k := Upto(v);
    ListedParts(v, k);
    FoldToken(l, p, v[..k]);
    if k == |v| {
      q := p;
      TokenWalked(l, p);
    } else {
      TokenByte(l, p, ',');
      FoldOn(p, v[..k], p, NextItem(l, p), v[k + 1..]);
      q := WalkFromFold(l, NextItem(l, p), v[k + 1..]);
      NextWalked(l, p, q, WalkFrom(l, v[k + 1..]));
    }
  }

  lemma TokenWalked(l: List, p: Parser)
    requires p.hs == TokenHs(l)
    ensures Walked(l, p, p, Walk(Other, {}))
  {
    SaidNone(p.flags);
  }

  lemma NextWalked(l: List, p: Parser, q: Parser, w: Walk)
    requires Walked(l, NextItem(l, p), q, w)
    ensures Walked(l, p, q, w)
  {
  }

  lemma WalkedEnd(l: List, p: Parser, q: Parser, item: Item)
    requires q == p.(hs := q.hs, index := q.index) && EndsIn(l, item, q.hs)
    ensures Walked(l, p, q, Walk(item, {}))
  {
    SaidNone(p.flags);
  }

  /** What is heard from an element on. */
  function WalkItem(l: List, item: Item, rest: Bytes): Walk {
    match item
    case Other => WalkFrom(l, rest)
    case Word(w) =>
      if l.Codings? then WalkPast(l, rest)
      else var more := WalkFrom(l, rest); more.(said := more.said + {w})
    case Partial => WalkPast(l, rest)
    case _ => Walk(Odd, {})
  }

  lemma WalkedOn(l: List, p: Parser, p1: Parser, item: Item, q: Parser, rest: Bytes)
    requires p1 == p.(hs := p1.hs, index := p1.index)
    requires item.Word? ==> item.word != [] && WordFor(l, item.word[0]) == item.word
    requires var p2 := AfterComma(l, p1, item);
             match item
             case Other => Walked(l, p2, q, WalkFrom(l, rest))
             case Word(_) => Walked(l, p2, q, if l.Codings? then WalkPast(l, rest) else WalkFrom(l, rest))
             case Partial => Walked(l, p2, q, WalkPast(l, rest))
             case _ => q == p2
    ensures Walked(l, p, q, WalkItem(l, item, rest))
  {
    hide WalkFrom, WalkPast, AddSaid, AddConnectionFlag, WordFor, FoundHs;
    SaidNone(p.flags);
    if item.Word? && l.Options? {
      SaidMore(l, p.flags, item.word, WalkFrom(l, rest).said);
    }
  }

  // ---------------------------------------------------------------- the whole value

  /** The parser after the first byte of a value. */
  function FirstOfValue(l: List, p: Parser, ch: Byte): Parser {
    p.(index := 0, hs := if WordFor(l, Lower(ch)) != [] then MatchHs(l, Lower(ch)) else TokenHs(l))
  }

  lemma FirstByteIs(l: List, p: Parser, ch: Byte)
    requires p.hs == (if l.Codings? then TransferEncoding else HeaderState.Connection)
    requires IsHeaderChar(ch) && !IsLineEnd(ch)
    ensures FirstValueByte(p, ch) == Ok(FirstOfValue(l, p, ch).(index := p.index))
  {
    BitIsCase(ch, 'c');
    BitIsCase(ch, 'k');
    BitIsCase(ch, 'u');
    WordsSome();
    hide IsHeaderChar, OrSpace, Lower, CHUNKED, KEEP_ALIVE, CLOSE, UPGRADE;
  }

  /** After the first byte the rest of the value is walked through. */
  lemma ValueWalks(l: List, p: Parser, v: Bytes) returns (q: Parser)
    requires v != [] && Listed(v) && v[0] != ' '
    ensures ValueFold(FirstOfValue(l, p, v[0]), v[1..]) == Ok(q) && Walked(l, p, q, WalkValue(l, v))
  {
    hide ValueFold, ValueByte, Listed, Upto, Walked, TokenHs, StartHs, WalkFrom, WalkPast, ItemOf, MatchHs, WordFor,
         OrSpace, Lower;
    var p1, k := FirstOfValue(l, p, v[0]), Upto(v);
    ListedParts(v, k);
    UptoFirst(v);
    if v[0] == ',' {
      CommaFirst(l);
      q := WalkPastFold(l, p1, v[1..]);
      StartWalked(l, p, p1, q, WalkPast(l, v[1..]));
    } else {
      CoreItem(l, v[..k]);
      assert v[..k][0] == v[0];
      if ItemOf(l, v[..k]).Odd? {
        OddFirst(l, p1, v);
        q := WalkPastFold(l, p1, v[1..]);
        StartWalked(l, p, p1, q, WalkPast(l, v[1..]));
      } else {
        q := FirstElement(l, p, v);
      }
    }
  }

  lemma UptoFirst(v: Bytes)
    requires v != []
    ensures Upto(v) == 0 <==> v[0] == ','
    ensures v[0] != ',' ==> Upto(v) == 1 + Upto(v[1..])
  {
  }

  lemma CommaFirst(l: List)
    ensures WordFor(l, Lower(',')) == []
  {
  }

  lemma StartWalked(l: List, p: Parser, p1: Parser, q: Parser, w: Walk)
    requires p1 == p.(hs := p1.hs, index := p1.index) && Walked(l, p1, q, w)
    ensures Walked(l, p, q, w)
  {
  }

  /** An element that begins like no token is passed over when it is the first one. */
  lemma OddFirst(l: List, p1: Parser, v: Bytes)
    requires v != [] && v[0] != ',' && Listed(v)
    ensures WalkPast(l, v[1..]) == WalkPast(l, v) && Listed(v[1..])
  {
    hide IsHeaderChar, IsLineEnd;
    UptoFirst(v);
    var k := Upto(v);
    if k < |v| {
      assert v[1..][k..] == v[k + 1..];
    }
  }

  lemma FirstElement(l: List, p: Parser, v: Bytes) returns (q: Parser)
    requires v != [] && Listed(v) && v[0] != ' ' && v[0] != ',' && !ItemOf(l, v[..Upto(v)]).Odd?
    ensures ValueFold(FirstOfValue(l, p, v[0]), v[1..]) == Ok(q) && Walked(l, p, q, WalkFrom(l, v))
  {
    hide ValueFold, ValueByte, Listed, Upto, Walked, TokenHs, StartHs, WalkFrom, WalkPast, ItemOf, MatchHs, WordFor,
         OrSpace, Lower, ItemHs, AfterComma;
    var k := Upto(v);
    var e, rest, item := v[..k], if k < |v| then v[k + 1..] else [], ItemOf(l, v[..k]);
    ListedParts(v, k);
    UptoFirst(v);
    assert e != [] && e[0] == v[0];
    CoreItem(l, e);
    var p1 := FirstFold(l, FirstOfValue(l, p, v[0]), e);
    WalkFromIs(l, v);
    if k == |v| {
      q := p1;
      ItemEnds(l, e);
      WalkedEnd(l, p, q, item);
    } else {
      CommaFold(l, p1, e);
      var p2 := AfterComma(l, p1, item);
      assert v[1..] == e[1..] + ([','] + rest);
      FoldOn(FirstOfValue(l, p, v[0]), e[1..], p1, p2, rest);
      q := AfterItem(l, p, p1, item, rest);
      ItemWord(l, e);
      WalkedOn(l, p, p1, item, q, rest);
    }
  }

  lemma WalkFromIs(l: List, v: Bytes)
    ensures var k := Upto(v);
            WalkFrom(l, v) == if k == |v| then Walk(ItemOf(l, v), {}) else WalkItem(l, ItemOf(l, v[..k]), v[k + 1..])
  {
    assert v[..|v|] == v;
    hide ItemOf, Upto;
  }

  /** The flags that the header is left with are those of the words heard in its value. */
  lemma HeardIs(l: List, p: Parser, v: Bytes) returns (q: Parser)
    requires v != [] && Listed(v) && v[0] != ' '
    ensures ValueFold(FirstOfValue(l, p, v[0]), v[1..]) == Ok(q)
    ensures q == p.(hs := q.hs, index := q.index, flags := q.flags)
    ensures LineFlags(q) == Heard(l, p.flags, Says(l, v))
    ensures l.Codings? ==> q.flags == p.flags
  {
    q := ValueWalks(l, p, v);
    hide ValueFold, WalkValue, Listed, FirstOfValue, WordFor;
    EndFlags(l, p, q, WalkValue(l, v));
  }

  lemma EndFlags(l: List, p: Parser, q: Parser, w: Walk)
    requires Walked(l, p, q, w)
    ensures LineFlags(q) == Heard(l, p.flags, w.said + if w.end.Word? then {w.end.word} else {})
  {
    WordsSome();
    if w.end.Word? && l.Options? {
      WhichWord(l, w.end.word);
      InMore(KEEP_ALIVE, w.end.word, w.said);
      InMore(CLOSE, w.end.word, w.said);
      InMore(UPGRADE, w.end.word, w.said);
    } else if w.end.Word? {
      InMore(CHUNKED, w.end.word, w.said);
    }
    hide CHUNKED, KEEP_ALIVE, CLOSE, UPGRADE;
  }

  // ---------------------------------------------------------------- well-made lists

  /** The elements of a list, with their blanks. */
  function Elements(v: Bytes): (es: seq<Bytes>)
    ensures es != []
    decreases |v|
  {
    var k := Upto(v);
    if k == |v| then [v] else [v[..k]] + Elements(v[k + 1..])
  }

  function LastOf(es: seq<Bytes>): Bytes
    requires es != []
  {
    es[|es| - 1]
  }

  /** Every element before the last is another one than the words, and more than a part of one. */
  predicate CleanCodings(es: seq<Bytes>) { forall i :: 0 <= i < |es| - 1 ==> ItemOf(Codings, es[i]).Other? }

  predicate CleanOptions(es: seq<Bytes>) {
    forall i :: 0 <= i < |es| - 1 ==> ItemOf(Options, es[i]).Other? || ItemOf(Options, es[i]).Word?
  }

  /** The words among the elements. */
  function WordsIn(es: seq<Bytes>): set<Bytes>
    decreases |es|
  {
    if es == [] then {}
    else WordsIn(es[1..]) + if ItemOf(Options, es[0]).Word? then {ItemOf(Options, es[0]).word} else {}
  }

  lemma LastTail(es: seq<Bytes>)
    requires |es| > 1
    ensures LastOf(es) == LastOf(es[1..]) && (CleanCodings(es) ==> CleanCodings(es[1..]))
    ensures CleanOptions(es) ==> CleanOptions(es[1..])
  {
    hide ItemOf;
  }

  /** A list in which "chunked" is heard ends with it, whatever comes before. */
  lemma {:induction false} ChunkedEnds(v: Bytes, past: bool)
    ensures var w := if past then WalkPast(Codings, v) else WalkFrom(Codings, v);
            w.said == {} && (w.end.Word? ==> ItemOf(Codings, LastOf(Elements(v))) == w.end)
    decreases |v|, past
  {
    hide ItemOf, Upto;
    var k := Upto(v);
    assert v[..|v|] == v;
    if k < |v| {
      ChunkedEnds(v[k + 1..], false);
      ChunkedEnds(v[k + 1..], true);
      LastTail(Elements(v));
    }
  }

  lemma CodingWord(e: Bytes)
    ensures ItemOf(Codings, e).Word? ==> ItemOf(Codings, e) == Word(CHUNKED)
  {
    ItemWord(Codings, e);
    hide Core, Lower;
  }

  /** If "chunked" is heard in a Transfer-Encoding value it is the last coding, in any case and with any blanks. */
  lemma ChunkedIsLast(v: Bytes)
    requires v != [] && v[0] != ' ' && CHUNKED in Says(Codings, v)
    ensures ItemOf(Codings, LastOf(Elements(v))) == Word(CHUNKED)
  {
    hide ItemOf, Upto, WalkFrom, WalkPast, CHUNKED;
    ChunkedEnds(v, false);
    ChunkedEnds(v, true);
    UptoFirst(v);
    if v[0] == ',' {
      ChunkedEnds(v[1..], true);
      AfterFirst(v);
    }
    CodingWord(LastOf(Elements(v)));
  }

  lemma AfterFirst(v: Bytes)
    requires v != [] && v[0] == ','
    ensures LastOf(Elements(v)) == LastOf(Elements(v[1..]))
  {
    UptoFirst(v);
    assert v[..0] == [];
    LastTail(Elements(v));
    hide ItemOf;
  }

  lemma {:induction false} CleanWalk(v: Bytes)
    requires CleanCodings(Elements(v))
    ensures WalkFrom(Codings, v) == Walk(ItemOf(Codings, LastOf(Elements(v))), {})
    decreases |v|
  {
    hide ItemOf, Upto;
    var k := Upto(v);
    assert v[..|v|] == v;
    if k < |v| {
      LastTail(Elements(v));
      assert Elements(v)[0] == v[..k] && Elements(v)[1..] == Elements(v[k + 1..]);
      CleanWalk(v[k + 1..]);
    }
  }

  /** And the other way round, when the codings before it are neither empty nor parts of the word. */
  lemma ChunkedHeard(v: Bytes)
    requires v != [] && v[0] != ' ' && CleanCodings(Elements(v))
    ensures CHUNKED in Says(Codings, v) <==> ItemOf(Codings, LastOf(Elements(v))) == Word(CHUNKED)
  {
    CleanWalk(v);
    CodingWord(LastOf(Elements(v)));
    FirstIsClean(Codings, v);
    if ItemOf(Codings, LastOf(Elements(v))) == Word(CHUNKED) {
      hide ItemOf, Upto, WalkFrom, WalkPast, Elements;
    }
  }

  lemma FirstIsClean(l: List, v: Bytes)
    requires v != [] && v[0] != ' ' && (if l.Codings? then CleanCodings(Elements(v)) else CleanOptions(Elements(v)))
    ensures v[0] != ',' && (ItemOf(l, v[..Upto(v)]).Odd? ==> |Elements(v)| == 1 && Upto(v) == |v|)
  {
    var k := Upto(v);
    UptoFirst(v);
    if k < |v| {
      assert Elements(v)[0] == v[..k];
    }
    hide ItemOf;
    if v[0] == ',' {
      assert v[..0] == [];
      EmptyItem(l);
    }
  }

  lemma EmptyItem(l: List)
    ensures ItemOf(l, []).Blank?
  {
  }

  lemma {:induction false} OptionsWalk(v: Bytes)
    requires CleanOptions(Elements(v))
    ensures var w := WalkFrom(Options, v);
            w.said + (if w.end.Word? then {w.end.word} else {}) == WordsIn(Elements(v))
    decreases |v|
  {
    hide ItemOf, Upto;
    var k := Upto(v);
    assert v[..|v|] == v;
    if k < |v| {
      LastTail(Elements(v));
      assert Elements(v)[0] == v[..k] && Elements(v)[1..] == Elements(v[k + 1..]);
      OptionsWalk(v[k + 1..]);
    } else {
      assert Elements(v)[1..] == [] && WordsIn([]) == {};
    }
  }

  /** A Connection value whose elements are words or other tokens says exactly the words among them. */
  lemma OptionsHeard(v: Bytes)
    requires v != [] && v[0] != ' ' && CleanOptions(Elements(v))
    ensures Says(Options, v) == WordsIn(Elements(v))
  {
    OptionsWalk(v);
    FirstIsClean(Options, v);
    hide ItemOf, Upto, WalkFrom, WordsIn, Elements;
    if ItemOf(Options, v[..Upto(v)]).Odd? {
      OddAlone(v);
    }
  }

  lemma OddAlone(v: Bytes)
    requires Upto(v) == |v| && ItemOf(Options, v[..Upto(v)]).Odd?
    ensures WalkPast(Options, v) == Walk(Other, {}) && WordsIn(Elements(v)) == {}
  {
    hide ItemOf, Upto, WalkFrom, WordsIn;
    assert v[..|v|] == v;
    WordsOne(v);
  }

  lemma WordsOne(e: Bytes)
    ensures WordsIn([e]) == if ItemOf(Options, e).Word? then {ItemOf(Options, e).word} else {}
  {
    hide ItemOf;
    assert [e][1..] == [];
    assert WordsIn([]) == {};
  }

  /** A word on its own says itself. */
  lemma OneWord(l: List, w: Bytes)
    requires w != [] && WordFor(l, w[0]) == w
    ensures Says(l, w) == {w}
  {
    WordsAre(l, w[0]);
    WordIsItself(w);
    NoComma(w);
    assert w[..|w|] == w;
    hide *;
    OneWalk(l, w);
  }

  lemma WordIsItself(w: Bytes)
    requires forall i :: 0 <= i < |w| ==> IsLower(w[i]) || w[i] == '-'
    ensures Lowered(w) == w && ',' !in w && (w != [] ==> w[0] != ' ')
  {
  }

  lemma {:induction false} NoComma(v: Bytes)
    requires ',' !in v
    ensures Upto(v) == |v|
    decreases |v|
  {
    if v != [] {
      NoComma(v[1..]);
    }
  }

  lemma OneWalk(l: List, w: Bytes)
    requires w != [] && WordFor(l, w[0]) == w && Lowered(w) == w && ',' !in w && w[0] != ' '
    requires Upto(w) == |w| && w[..|w|] == w
    ensures Says(l, w) == {w}
  {
    hide WordFor, Lowered, Upto, OrSpace, IsToken;
    assert w[0] == w[..|w|][0];
    assert ItemOf(l, w) == Word(w) by {
      assert w[|w|..] == [];
    }
    hide ItemOf;
  }

  /** A comma is missed after "chunked" and after a part of it, so that the element behind it is not heard. */
  lemma MissedComma(e: Bytes, last: Bytes)
    requires e != [] && e[0] != ' ' && ',' !in e && ',' !in last
    requires ItemOf(Codings, e).Word? || ItemOf(Codings, e).Partial?
    ensures Says(Codings, e + ([','] + last)) == {}
  {
    hide ItemOf, WalkFrom, WalkPast, Upto;
    var v := e + ([','] + last);
    UptoComma(e, last);
    assert v[..|e|] == e && v[|e| + 1..] == last && v[0] == e[0];
    NoComma(last);
    assert WalkPast(Codings, last) == Walk(Other, {}) by { PastAll(last); }
    WalkFromIs(Codings, v);
    FirstNoComma(e);
  }

  lemma FirstNoComma(e: Bytes)
    requires e != [] && ',' !in e
    ensures e[0] != ','
  {
  }

  lemma PastAll(v: Bytes)
    requires Upto(v) == |v|
    ensures WalkPast(Codings, v) == Walk(Other, {})
  {
    hide Upto;
  }

  lemma {:induction false} UptoComma(e: Bytes, rest: Bytes)
    requires ',' !in e
    ensures Upto(e + ([','] + rest)) == |e|
    decreases |e|
  {
    var v := e + ([','] + rest);
    if e == [] {
      assert v[0] == ',';
    } else {
      assert v[0] == e[0] && v[1..] == e[1..] + ([','] + rest);
      UptoComma(e[1..], rest);
    }
  }

  const GZIP: Bytes := "gzip"
  const PART: Bytes := "c"

  /** A coding and "chunked", with a comma and a blank between. */
  function ThenChunked(coding: Bytes): Bytes { coding + ([','] + ([' '] + CHUNKED)) }

  lemma ChunkedItems()
    ensures ItemOf(Codings, CHUNKED) == Word(CHUNKED) == ItemOf(Codings, [' '] + CHUNKED)
    ensures ItemOf(Codings, PART).Partial? && ItemOf(Codings, GZIP).Other?
    ensures ',' !in CHUNKED && ',' !in [' '] + CHUNKED && ',' !in GZIP && ',' !in PART
    ensures |GZIP| == 4 && GZIP[0] == 'g' && |CHUNKED| == 7 && CHUNKED[0] == 'c' && |PART| == 1 && PART[0] == 'c'
  {
    var w := CHUNKED;
    assert w == ['c', 'h', 'u', 'n', 'k', 'e', 'd'];
    assert GZIP == ['g', 'z', 'i', 'p'];
    assert Lowered(w) == w;
    assert Core([' '] + w) == w by { assert ([' '] + w)[1..] == w; }
    assert w[|w|..] == [];
  }

  lemma GzipElements()
    ensures Elements(ThenChunked(GZIP)) == [GZIP, [' '] + CHUNKED]
  {
    ChunkedItems();
    var rest := [' '] + CHUNKED;
    var v := GZIP + ([','] + rest);
    hide ItemOf, CHUNKED, GZIP;
    UptoComma(GZIP, rest);
    NoComma(rest);
    assert v[..|GZIP|] == GZIP && v[|GZIP| + 1..] == rest;
    assert Elements(rest) == [rest];
  }

  /** So "chunked" twice is not heard at all, nor is it after a coding "c"; after "gzip" it is. */
  lemma ChunkedTwice()
    ensures Says(Codings, ThenChunked(CHUNKED)) == {} && Says(Codings, ThenChunked(PART)) == {}
    ensures CHUNKED in Says(Codings, ThenChunked(GZIP))
  {
    ChunkedItems();
    GzipElements();
    hide ItemOf, Says, Elements, CHUNKED, GZIP, PART;
    MissedComma(CHUNKED, [' '] + CHUNKED);
    MissedComma(PART, [' '] + CHUNKED);
    ChunkedHeard(ThenChunked(GZIP));
  }
}
