/** Query strings: the loop that takes them apart, and the parameters it leaves. */
module Queries {
  import opened HttpSyntax
  import opened UrlCodes

  type Pair = (Bytes, Bytes)

  /** Where a byte first stands in a text, or the length of the text. */
  function Index(s: Bytes, c: Byte): (i: nat)
    ensures i <= |s| && (i < |s| ==> s[i] == c) && forall j :: 0 <= j < i ==> s[j] != c
    decreases |s|
  {
    if s == [] || s[0] == c then 0
    else
      assert forall j :: 0 < j < |s| ==> s[j] == s[1..][j - 1];
      Index(s[1..], c) + 1
  }

  lemma IndexAt(a: Bytes, c: Byte, b: Bytes)
    requires c !in a
    ensures Index(a + [c] + b, c) == |a|
    ensures (a + [c] + b)[..|a|] == a && (a + [c] + b)[|a| + 1..] == b
  {
    var s := a + [c] + b;
    assert s[|a|] == c && forall j :: 0 <= j < |a| ==> s[j] == a[j];
  }

  lemma IndexNone(s: Bytes, c: Byte)
    requires c !in s
    ensures Index(s, c) == |s|
  {
  }

  /** One turn of `PARSE_PARAM`: a key runs up to the next '=', its value from there to the next separator. */
  datatype Piece = Nothing | Last(pair: Pair) | More(pair: Pair, rest: Bytes)

  function Cut(s: Bytes, sep: Byte): (p: Piece)
    ensures p.More? ==> |p.rest| < |s|
  {
    var k := Index(s, '=');
    if k == |s| then Nothing
    else
      var (key, value) := (s[..k], s[k + 1..]);
      var v := Index(value, sep);
      if v == |value| then Last((key, Decode(value, true)))
      else More((key, Decode(value[..v], true)), value[v + 1..])
  }

  /** `PARSE_PARAM` without the map: the pairs in the order they are inserted. */
  function Pairs(s: Bytes, sep: Byte): seq<Pair>
    decreases |s|
  {
    match Cut(s, sep)
    case Nothing => []
    case Last(p) => [p]
    case More(p, rest) => [p] + Pairs(rest, sep)
  }

  function Written(p: Pair): Bytes { p.0 + ['='] + Encode(p.1, true) }

  function Joined(ps: seq<Pair>, sep: Byte): Bytes
    decreases |ps|
  {
    if ps == [] then []
    else if |ps| == 1 then Written(ps[0])
    else Written(ps[0]) + [sep] + Joined(ps[1..], sep)
  }

  /** A byte that the encoder never writes. */
  predicate Separator(c: Byte) { !Kept(c) && c != '+' && c != '%' }

  lemma {:induction false} NoSeparator(s: Bytes, sep: Byte)
    requires Separator(sep)
    ensures sep !in Encode(s, true)
    decreases |s|
  {
    if s != [] {
      NoSeparator(s[1..], sep);
    }
  }

  lemma CutBack(p: Pair, sep: Byte, rest: Bytes)
    requires '=' !in p.0 && Separator(sep)
    ensures Cut(Written(p), sep) == Last(p)
    ensures Cut(Written(p) + [sep] + rest, sep) == More(p, rest)
  {
    hide Encode, Decode, Index;
    var v := Encode(p.1, true);
    NoSeparator(p.1, sep);
    RoundTrip(p.1, true, true);
    IndexAt(p.0, '=', v);
    IndexNone(v, sep);
    assert Written(p) + [sep] + rest == p.0 + ['='] + (v + [sep] + rest);
    IndexAt(p.0, '=', v + [sep] + rest);
    IndexAt(v, sep, rest);
  }

  lemma {:induction false} PairsBack(ps: seq<Pair>, sep: Byte)
    requires Separator(sep) && forall i :: 0 <= i < |ps| ==> '=' !in ps[i].0
    ensures Pairs(Joined(ps, sep), sep) == ps
    decreases |ps|
  {
    hide Cut, Written, Separator;
    if ps == [] {
      NoPairs(sep);
    } else {
      CutBack(ps[0], sep, Joined(ps[1..], sep));
      if |ps| > 1 {
        forall i | 0 <= i < |ps[1..]| ensures '=' !in ps[1..][i].0 {
          assert ps[1..][i] == ps[i + 1];
        }
        PairsBack(ps[1..], sep);
      }
    }
  }

  lemma NoPairs(sep: Byte)
    ensures Cut([], sep) == Nothing
  {
  }

  /** What follows the last pair and holds no '=' is left out, and so is a text that holds none. */
  lemma {:induction false} TailLeftOut(ps: seq<Pair>, sep: Byte, tail: Bytes)
    requires Separator(sep) && '=' !in tail && forall i :: 0 <= i < |ps| ==> '=' !in ps[i].0
    ensures Pairs(if ps == [] then tail else Joined(ps, sep) + [sep] + tail, sep) == ps
    decreases |ps|
  {
    hide Cut, Written, Separator;
    if ps == [] {
      assert Cut(tail, sep) == Nothing by { NothingCut(tail, sep); }
    } else {
      var more := ps[1..];
      var rest := if more == [] then tail else Joined(more, sep) + [sep] + tail;
      CutBack(ps[0], sep, rest);
      forall i | 0 <= i < |more| ensures '=' !in more[i].0 {
        assert more[i] == ps[i + 1];
      }
      TailLeftOut(more, sep, tail);
      assert Joined(ps, sep) + [sep] + tail == Written(ps[0]) + [sep] + rest;
    }
  }

  lemma NothingCut(s: Bytes, sep: Byte)
    requires '=' !in s
    ensures Cut(s, sep) == Nothing
  {
    IndexNone(s, '=');
  }

  lemma KeyPlain(s: Bytes, sep: Byte)
    ensures !Cut(s, sep).Nothing? ==> '=' !in Cut(s, sep).pair.0
  {
    hide Decode, Index;
  }

  lemma {:induction false} KeysPlain(s: Bytes, sep: Byte)
    ensures forall i :: 0 <= i < |Pairs(s, sep)| ==> '=' !in Pairs(s, sep)[i].0
    decreases |s|
  {
    hide Cut;
    KeyPlain(s, sep);
    if Cut(s, sep).More? {
      KeysPlain(Cut(s, sep).rest, sep);
    }
  }

  /** A list of parameters, the values percent-coded, is taken apart into itself exactly when no key holds an
      '='; a key may hold the separator. */
  lemma PairsExactly(ps: seq<Pair>, sep: Byte)
    requires Separator(sep)
    ensures Pairs(Joined(ps, sep), sep) == ps <==> forall i :: 0 <= i < |ps| ==> '=' !in ps[i].0
  {
    hide Pairs, Joined;
    KeysPlain(Joined(ps, sep), sep);
    if forall i :: 0 <= i < |ps| ==> '=' !in ps[i].0 {
      PairsBack(ps, sep);
    }
  }

  lemma Separators()
    ensures Separator('&') && Separator(';')
  {
  }

  // ---------------------------------------------------------------- the map

  /** What the map compares keys by: `strcasecmp` ends at the first NUL and does not tell cases apart. */
  function Folded(key: Bytes): Bytes {
    var n := Index(key, '\0');
    seq(n, i requires 0 <= i < n => Lower(key[i]))
  }

  type Params = map<Bytes, Pair>

  /** `std::map::insert`: a key that is there already stays. */
  function Insert(m: Params, p: Pair): Params {
    if Folded(p.0) in m then m else m[Folded(p.0) := p]
  }

  function InsertAll(m: Params, ps: seq<Pair>): Params
    decreases |ps|
  {
    if ps == [] then m else InsertAll(Insert(m, ps[0]), ps[1..])
  }

  predicate FirstFor(ps: seq<Pair>, f: Bytes, i: int) {
    0 <= i < |ps| && Folded(ps[i].0) == f && forall j :: 0 <= j < i ==> Folded(ps[j].0) != f
  }

  /** What is found for a key: what was there before, or else the first pair with that key. */
  lemma {:induction false} Found(m: Params, ps: seq<Pair>, f: Bytes)
    ensures f in m ==> f in InsertAll(m, ps) && InsertAll(m, ps)[f] == m[f]
    ensures f !in m && f in InsertAll(m, ps) ==> exists i :: FirstFor(ps, f, i) && InsertAll(m, ps)[f] == ps[i]
    ensures f !in m && f !in InsertAll(m, ps) ==> forall i :: 0 <= i < |ps| ==> Folded(ps[i].0) != f
    decreases |ps|
  {
    hide Folded;
    if ps != [] {
      var rest := ps[1..];
      assert forall i :: 0 <= i < |rest| ==> rest[i] == ps[i + 1];
      Found(Insert(m, ps[0]), rest, f);
      if f !in m && f in InsertAll(m, ps) {
        if Folded(ps[0].0) == f {
          assert FirstFor(ps, f, 0);
        } else {
          var i :| FirstFor(rest, f, i) && InsertAll(m, ps)[f] == rest[i];
          forall j | 0 <= j < i + 1 ensures Folded(ps[j].0) != f {
            assert j > 0 ==> ps[j] == rest[j - 1];
          }
          assert FirstFor(ps, f, i + 1);
        }
      }
      if f !in m && f !in InsertAll(m, ps) {
        forall i | 0 <= i < |ps| ensures Folded(ps[i].0) != f {
          assert i > 0 ==> ps[i] == rest[i - 1];
        }
      }
    }
  }

  /** Reading a written query: under each key stands the first pair that has it, and every key is there. */
  lemma QueryBack(ps: seq<Pair>, f: Bytes)
    requires forall i :: 0 <= i < |ps| ==> '=' !in ps[i].0
    ensures var m := InsertAll(map[], Pairs(Joined(ps, '&'), '&'));
            && (f in m <==> exists i :: 0 <= i < |ps| && Folded(ps[i].0) == f)
            && (f in m ==> exists i :: FirstFor(ps, f, i) && m[f] == ps[i])
  {
    hide Pairs, Joined, Folded, InsertAll;
    Separators();
    PairsBack(ps, '&');
    Found(map[], ps, f);
    assert forall i :: FirstFor(ps, f, i) ==> 0 <= i < |ps| && Folded(ps[i].0) == f;
  }

  // ---------------------------------------------------------------- the request

  /** A turn by positions in the whole query. */
  lemma CutFrom(q: Bytes, last: nat, sep: Byte)
    requires last <= |q|
    ensures var key := last + Index(q[last..], '=');
            && key <= |q|
            && (key == |q| ==> Cut(q[last..], sep) == Nothing)
            && (key < |q| ==>
                  var value := q[key + 1..];
                  var v := Index(value, sep);
                  && (v == |value| ==> Cut(q[last..], sep) == Last((q[last..key], Decode(value, true))))
                  && (v < |value| ==>
                        Cut(q[last..], sep) == More((q[last..key], Decode(value[..v], true)), q[key + v + 2..])))
  {
    hide Index, Decode;
    var rest := q[last..];
    var k := Index(rest, '=');
    if k < |rest| {
      var value := q[last + k + 1..];
      assert rest[k + 1..] == value && rest[..k] == q[last..last + k];
      var v := Index(value, sep);
      if v < |value| {
        assert value[v + 1..] == q[last + k + v + 2..];
      }
    }
  }

  lemma InsertFirst(m: Params, p: Pair, ps: seq<Pair>)
    ensures InsertAll(m, [p] + ps) == InsertAll(Insert(m, p), ps)
    ensures InsertAll(m, []) == m && InsertAll(m, [p]) == Insert(m, p)
  {
    hide Insert;
    assert ([p] + ps)[1..] == ps;
    assert [p][1..] == [];
  }

  class HttpRequest {
    const query: Bytes
    var params: Params
    var parsed: bv8

    constructor (query: Bytes)
      ensures this.query == query && params == map[] && parsed == 0
    {
      this.query, params, parsed := query, map[], 0;
    }

    /** `initQueryParam`: the query is taken apart once; a second call changes nothing. */
    method InitQueryParam()
      modifies this
      ensures params == if old(parsed) & 1 != 0 then old(params) else InsertAll(old(params), Pairs(query, '&'))
      ensures parsed == old(parsed) | 1
    {
      hide Index, Decode, Cut, Insert, InsertAll;
      if parsed & 1 != 0 {
        assert parsed | 1 == parsed;
        return;
      }
      var pos := 0;
      assert query[0..] == query;
      while true
        invariant pos <= |query| && parsed == old(parsed)
        invariant InsertAll(params, Pairs(query[pos..], '&')) == InsertAll(old(params), Pairs(query, '&'))
        decreases |query| - pos
      {
        var last := pos;
        CutFrom(query, last, '&');
        pos := pos + Index(query[pos..], '=');
        if pos == |query| {
          InsertFirst(params, (query, query), []);
          break;
        }
        var key := pos;
        var value := query[key + 1..];
        var n := Index(value, '&');
        if n == |value| {
          InsertFirst(params, (query[last..key], Decode(value, true)), []);
          params := Insert(params, (query[last..key], Decode(value, true)));
          break;
        }
        pos := key + 1 + n;
        InsertFirst(params, (query[last..key], Decode(value[..n], true)), Pairs(query[pos + 1..], '&'));
        params := Insert(params, (query[last..key], Decode(value[..n], true)));
        pos := pos + 1;
      }
      parsed := parsed | 1;
    }
  }
}
