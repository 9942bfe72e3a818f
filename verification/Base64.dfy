/** Base 64 (section 4 of RFC 4648) as the server writes and reads it. */
module Base64 {
  import opened Options
  import opened HttpSyntax

  predicate IsSymbol(c: Byte) { IsAlphaNum(c) || c == '+' || c == '/' }

  function Value(c: Byte): (v: nat)
    requires IsSymbol(c)
    ensures v < 64
  {
    if IsUpper(c) then c as int - 'A' as int
    else if IsLower(c) then c as int - 'a' as int + 26
    else if IsNum(c) then c as int - '0' as int + 52
    else if c == '+' then 62
    else 63
  }

  function Symbol(v: nat): (c: Byte)
    requires v < 64
    ensures IsSymbol(c) && Value(c) == v
  {
    if v < 26 then ('A' as int + v) as char
    else if v < 52 then ('a' as int + v - 26) as char
    else if v < 62 then ('0' as int + v - 52) as char
    else if v == 62 then '+'
    else '/'
  }

  lemma SymbolOf(c: Byte)
    requires IsSymbol(c)
    ensures Symbol(Value(c)) == c
  {
  }

  const ALPHABET: string := UPPER_LETTERS + LOWER_LETTERS + DECIMAL_DIGITS + ['+', '/']

  /** The symbols stand in the order of table 1 of RFC 4648. */
  lemma AlphabetIs(v: nat)
    requires v < 64
    ensures |ALPHABET| == 64 && Symbol(v) == ALPHABET[v]
  {
    UppersAre(if v < 26 then v else 0);
    LowersAre(if 26 <= v < 52 then v - 26 else 0);
    DecimalsAre(if 52 <= v < 62 then v - 52 else 0);
    hide UPPER_LETTERS, LOWER_LETTERS, DECIMAL_DIGITS;
  }

  const LIMIT: nat := 0x100_0000

  // ---------------------------------------------------------------- encoding

  /** Three bytes, or what is left of them with noughts behind, as one number. */
  function Packed(s: Bytes): (n: nat)
    requires 1 <= |s| <= 3
    ensures n < LIMIT
  {
    s[0] as int * 65536 + (if |s| > 1 then s[1] as int * 256 else 0) + if |s| > 2 then s[2] as int else 0
  }

  /** Four symbols for a number, the last of them `=` as often as bytes were missing. */
  function Quad(n: nat, padding: nat): (t: Bytes)
    requires n < LIMIT && padding <= 2
    ensures |t| == 4
  {
    [Symbol(n / 262144), Symbol(n / 4096 % 64),
     if padding < 2 then Symbol(n / 64 % 64) else '=', if padding < 1 then Symbol(n % 64) else '=']
  }

  function Least(a: nat, b: nat): nat { if a < b then a else b }

  function Encode(s: Bytes): Bytes
    decreases |s|
  {
    if s == [] then []
    else
      var k := Least(|s|, 3);
      Quad(Packed(s[..k]), 3 - k) + Encode(s[k..])
  }

  /** A number of twenty-four bits from its three bytes, and from its four groups of six bits. */
  function FromBytes(a: Byte, b: Byte, c: Byte): nat { a as int * 65536 + b as int * 256 + c as int }

  function FromSixes(a: nat, b: nat, c: nat, d: nat): nat { a * 262144 + b * 4096 + c * 64 + d }

  /** Each group of three bytes is written as the four symbols of the same number, high bits first; one or two bytes
      left over are filled up with noughts, and `=` stands for the symbols that hold none of their bits. */
  lemma GroupIs(s: Bytes)
    requires 1 <= |s| <= 3
    ensures var t := Encode(s);
            && |t| == 4 && IsSymbol(t[0]) && IsSymbol(t[1])
            && (if |s| < 3 then t[3] == '=' else IsSymbol(t[3])) && (if |s| < 2 then t[2] == '=' else IsSymbol(t[2]))
            && FromBytes(s[0], if |s| < 2 then '\0' else s[1], if |s| < 3 then '\0' else s[2])
               == FromSixes(Value(t[0]), Value(t[1]), if |s| < 2 then 0 else Value(t[2]),
                            if |s| < 3 then 0 else Value(t[3]))
  {
    var n := Packed(s);
    assert s[..|s|] == s && s[|s|..] == [];
    assert Encode(s) == Quad(n, 3 - |s|) + Encode(s[|s|..]) == Quad(n, 3 - |s|);
    Sixfold(n);
    PackedIs(s);
    hide Encode, Symbol, Value, IsSymbol, Packed, FromBytes;
  }

  lemma PackedIs(s: Bytes)
    requires 1 <= |s| <= 3
    ensures Packed(s) == FromBytes(s[0], if |s| < 2 then '\0' else s[1], if |s| < 3 then '\0' else s[2])
    ensures |s| < 3 ==> Packed(s) % 64 == 0
    ensures |s| < 2 ==> Packed(s) / 64 % 64 == 0
  {
  }

  lemma Sixfold(n: nat)
    requires n < LIMIT
    ensures n == FromSixes(n / 262144, n / 4096 % 64, n / 64 % 64, n % 64)
  {
  }

  /** Longer texts are written group by group. */
  lemma GroupByGroup(s: Bytes)
    requires |s| >= 3
    ensures Encode(s) == Encode(s[..3]) + Encode(s[3..])
  {
    assert s[..3][..3] == s[..3] && s[..3][3..] == [];
    hide Quad, Packed;
  }

  // ---------------------------------------------------------------- decoding

  /** The number four symbols stand for, and how many of them are `=`; None if one is no symbol, or follows
      a `=`. */
  function Unpacked(t: Bytes, padding: nat, packed: nat): (r: Option<(nat, nat)>)
    ensures r.Some? ==> padding <= r.value.0 <= padding + |t|
    decreases |t|
  {
    if t == [] then Some((padding, packed))
    else if t[0] == '=' then Unpacked(t[1..], padding + 1, packed * 64)
    else if padding > 0 || !IsSymbol(t[0]) then None
    else Unpacked(t[1..], padding, packed * 64 + Value(t[0]))
  }

  function Bytes3(padding: nat, packed: nat): (s: Bytes)
    requires padding <= 2
    ensures |s| == 3 - padding
  {
    var a: Byte := (packed / 65536 % 256) as char;
    var b: Byte := (packed / 256 % 256) as char;
    var c: Byte := (packed % 256) as char;
    if padding == 2 then [a] else if padding == 1 then [a, b] else [a, b, c]
  }

  function Before(s: Bytes, r: Option<Bytes>): Option<Bytes> {
    if r.Some? then Some(s + r.value) else None
  }

  /** None where the source returns an empty text for want of a better answer. */
  function Decode(t: Bytes): Option<Bytes>
    decreases |t|
  {
    if t == [] then Some([])
    else if |t| < 4 then None
    else
      match Unpacked(t[..4], 0, 0)
      case None => None
      case Some((padding, packed)) =>
        if (padding > 0 && |t| > 4) || padding > 2 then None
        else Before(Bytes3(padding, packed), Decode(t[4..]))
  }

  // ---------------------------------------------------------------- there and back

  lemma UnpackSymbol(c: Byte, t: Bytes, packed: nat)
    requires IsSymbol(c)
    ensures Unpacked([c] + t, 0, packed) == Unpacked(t, 0, packed * 64 + Value(c))
  {
    assert ([c] + t)[1..] == t;
  }

  lemma UnpackPad(t: Bytes, padding: nat, packed: nat)
    ensures Unpacked(['='] + t, padding, packed) == Unpacked(t, padding + 1, packed * 64)
  {
    assert (['='] + t)[1..] == t;
  }

  lemma UnpackNone(padding: nat, packed: nat)
    ensures Unpacked([], padding, packed) == Some((padding, packed))
  {
  }

  lemma QuadUnpacked(n: nat, padding: nat)
    requires n < LIMIT && padding <= 2
    requires padding >= 1 ==> n % 64 == 0
    requires padding >= 2 ==> n / 64 % 64 == 0
    ensures Unpacked(Quad(n, padding), 0, 0) == Some((padding, n))
  {
    hide Symbol, Value, Unpacked;
    var t := Quad(n, padding);
    var a, b, c, d := n / 262144, n / 4096 % 64, n / 64 % 64, n % 64;
    var ab, abc := a * 64 + b, n / 64;
    assert ab == n / 4096 && abc == ab * 64 + c && abc * 64 + d == n;
    var t3, t2, t1: Bytes := [t[3]] + [], [t[2]] + ([t[3]] + []), [t[1]] + ([t[2]] + ([t[3]] + []));
    assert t == [t[0]] + t1;
    UnpackSymbol(t[0], t1, 0);
    UnpackSymbol(t[1], t2, a);
    if padding == 2 {
      UnpackPad(t3, 0, ab);
      UnpackPad([], 1, abc);
    } else {
      UnpackSymbol(t[2], t3, ab);
      if padding == 1 {
        UnpackPad([], 0, abc);
      } else {
        UnpackSymbol(t[3], [], abc);
      }
    }
    UnpackNone(padding, n);
  }

  lemma ThreeBack(a: nat, b: nat, c: nat)
    requires a < 256 && b < 256 && c < 256
    ensures var n := a * 65536 + b * 256 + c;
            n / 65536 % 256 == a && n / 256 % 256 == b && n % 256 == c && n % 64 == c % 64
  {
  }

  lemma PackedBack(s: Bytes)
    requires 1 <= |s| <= 3
    ensures Bytes3(3 - |s|, Packed(s)) == s
    ensures |s| <= 2 ==> Packed(s) % 64 == 0
    ensures |s| <= 1 ==> Packed(s) / 64 % 64 == 0
  {
    var b, c := if |s| > 1 then s[1] as int else 0, if |s| > 2 then s[2] as int else 0;
    ThreeBack(s[0] as int, b, c);
    assert Packed(s) == s[0] as int * 65536 + b * 256 + c;
  }

  lemma {:induction false} DecodeBack(s: Bytes)
    ensures Decode(Encode(s)) == Some(s)
    decreases |s|
  {
    hide Quad, Unpacked, Bytes3, Packed;
    if s != [] {
      var k := Least(|s|, 3);
      var q := Quad(Packed(s[..k]), 3 - k);
      PackedBack(s[..k]);
      QuadUnpacked(Packed(s[..k]), 3 - k);
      var t := q + Encode(s[k..]);
      assert t[..4] == q && t[4..] == Encode(s[k..]);
      DecodeBack(s[k..]);
      assert s == s[..k] + s[k..];
    }
  }

  // ---------------------------------------------------------------- what is accepted

  /** Symbols, and then `k` times `=`. */
  predicate Padded(t: Bytes, k: nat) {
    && k <= |t|
    && (forall i :: 0 <= i < |t| - k ==> IsSymbol(t[i]))
    && (forall i :: |t| - k <= i < |t| ==> t[i] == '=')
  }

  /** A text of base 64: whole groups of four, the last of them with at most two `=`. */
  predicate Shaped(t: Bytes, k: nat) { |t| % 4 == 0 && k <= 2 && Padded(t, k) }

  lemma {:induction false} PaddedUnpacked(t: Bytes, k: nat, padding: nat, packed: nat)
    requires Padded(t, k) && (padding > 0 ==> k == |t|)
    ensures Unpacked(t, padding, packed).Some? && Unpacked(t, padding, packed).value.0 == padding + k
    decreases |t|
  {
    hide Value;
    if t != [] {
      if k == |t| {
        PaddedUnpacked(t[1..], k - 1, padding + 1, packed * 64);
      } else {
        assert IsSymbol(t[0]);
        PaddedUnpacked(t[1..], k, padding, packed * 64 + Value(t[0]));
      }
    }
  }

  lemma {:induction false} UnpackedPadded(t: Bytes, padding: nat, packed: nat)
    requires Unpacked(t, padding, packed).Some?
    ensures var k := Unpacked(t, padding, packed).value.0 - padding;
            Padded(t, k) && (padding > 0 ==> k == |t|)
    decreases |t|
  {
    hide Value, IsSymbol;
    if t != [] {
      var rest := t[1..];
      if t[0] == '=' {
        UnpackedPadded(rest, padding + 1, packed * 64);
      } else {
        UnpackedPadded(rest, padding, packed * 64 + Value(t[0]));
      }
      assert forall i :: 0 < i < |t| ==> t[i] == rest[i - 1];
    }
  }

  /** A shaped text is one group, or a group without padding and a shaped text. */
  lemma ShapedRest(t: Bytes, k: nat)
    requires Shaped(t, k) && |t| > 4
    ensures Padded(t[..4], 0) && Shaped(t[4..], k)
  {
    hide IsSymbol;
    var rest := t[4..];
    assert forall i :: 0 <= i < |rest| ==> rest[i] == t[i + 4];
    assert |t| >= 8;
  }

  lemma {:induction false} ShapedAccepted(t: Bytes, k: nat)
    requires Shaped(t, k)
    ensures Decode(t).Some? && |Decode(t).value| == |t| / 4 * 3 - k
    decreases |t|
  {
    hide Unpacked, IsSymbol, Bytes3;
    if |t| > 4 {
      ShapedRest(t, k);
      PaddedUnpacked(t[..4], 0, 0, 0);
      ShapedAccepted(t[4..], k);
    } else if |t| == 4 {
      assert t[..4] == t && t[4..] == [];
      PaddedUnpacked(t, k, 0, 0);
    }
  }

  lemma EmptyShaped()
    ensures Shaped([], 0)
  {
  }

  lemma ShapedMore(q: Bytes, rest: Bytes, k: nat)
    requires |q| == 4 && Padded(q, 0) && Shaped(rest, k)
    ensures Shaped(q + rest, k)
  {
    hide IsSymbol;
  }

  lemma {:induction false} AcceptedShaped(t: Bytes) returns (k: nat)
    requires Decode(t).Some?
    ensures Shaped(t, k)
    decreases |t|
  {
    hide Unpacked, IsSymbol, Bytes3, Padded;
    if t == [] {
      EmptyShaped();
      return 0;
    }
    var q, rest := t[..4], t[4..];
    k := Unpacked(q, 0, 0).value.0;
    UnpackedPadded(q, 0, 0);
    if |t| > 4 {
      k := AcceptedShaped(rest);
      ShapedMore(q, rest, k);
      assert q + rest == t;
    } else {
      assert q == t;
    }
  }

  /** What is decoded is just what is shaped, and the length of the result is three bytes for each four less one
      for each `=`. */
  lemma AcceptsExactly(t: Bytes)
    ensures Decode(t).Some? <==> exists k: nat :: Shaped(t, k)
    ensures forall k: nat :: Shaped(t, k) ==> |Decode(t).value| == |t| / 4 * 3 - k
  {
    hide Decode, Shaped;
    if Decode(t).Some? {
      var k := AcceptedShaped(t);
    }
    forall k: nat | Shaped(t, k) ensures Decode(t).Some? && |Decode(t).value| == |t| / 4 * 3 - k {
      ShapedAccepted(t, k);
    }
  }

  // ---------------------------------------------------------------- and back again

  /** The bits of the last symbol that no byte uses are nought. */
  predicate Spare(t: Bytes, k: nat)
    requires Shaped(t, k)
  {
    && (k == 1 ==> Value(t[|t| - 2]) % 4 == 0)
    && (k == 2 ==> Value(t[|t| - 3]) % 16 == 0)
  }

  function Weight(c: Byte): (v: nat)
    requires IsSymbol(c) || c == '='
    ensures v < 64
  {
    if c == '=' then 0 else Value(c)
  }

  lemma GroupUnpacked(t: Bytes, k: nat)
    requires |t| == 4 && Padded(t, k) && k <= 2
    ensures Unpacked(t, 0, 0)
         == Some((k, ((Weight(t[0]) * 64 + Weight(t[1])) * 64 + Weight(t[2])) * 64 + Weight(t[3])))
  {
    hide Value, Unpacked;
    var a := Value(t[0]);
    var ab := a * 64 + Value(t[1]);
    var abc := ab * 64 + Weight(t[2]);
    var t3, t2, t1: Bytes := [t[3]] + [], [t[2]] + ([t[3]] + []), [t[1]] + ([t[2]] + ([t[3]] + []));
    assert t == [t[0]] + t1;
    UnpackSymbol(t[0], t1, 0);
    UnpackSymbol(t[1], t2, a);
    if k == 2 {
      UnpackPad(t3, 0, ab);
      UnpackPad([], 1, abc);
    } else {
      UnpackSymbol(t[2], t3, ab);
      if k == 1 {
        UnpackPad([], 0, abc);
      } else {
        UnpackSymbol(t[3], [], abc);
      }
    }
    UnpackNone(k, abc * 64 + Weight(t[3]));
  }

  lemma Sixes(a: nat, b: nat, c: nat, d: nat)
    requires a < 64 && b < 64 && c < 64 && d < 64
    ensures var n := ((a * 64 + b) * 64 + c) * 64 + d;
            n < LIMIT && n / 262144 == a && n / 4096 % 64 == b && n / 64 % 64 == c && n % 64 == d
            && n / 65536 < 256
  {
  }

  /** What is packed again after unpacking: the number less the bits that fell away. */
  lemma Repacked(k: nat, n: nat)
    requires k <= 2 && n < LIMIT
    ensures Packed(Bytes3(k, n)) == n - (if k == 0 then 0 else if k == 1 then n % 256 else n % 65536)
  {
    var high, c := n / 256, n % 256;
    var a, b := high / 256, high % 256;
    assert n == a * 65536 + (b * 256 + c);
    Rem65536(a, b * 256 + c);
    assert a < 256 && n / 65536 == a;
  }

  lemma QuadIs(a: nat, b: nat, c: nat, d: nat, k: nat)
    requires a < 64 && b < 64 && c < 64 && d < 64 && k <= 2
    ensures var n := ((a * 64 + b) * 64 + c) * 64 + d;
            n < LIMIT && Quad(n, k)
            == [Symbol(a), Symbol(b), if k < 2 then Symbol(c) else '=', if k < 1 then Symbol(d) else '=']
  {
    hide Symbol;
    Sixes(a, b, c, d);
  }

  lemma Rem256(q: nat, r: nat)
    requires r < 256
    ensures (q * 256 + r) % 256 == r && (q * 256 + r) / 256 == q
  {
  }

  lemma Rem65536(q: nat, r: nat)
    requires r < 65536
    ensures (q * 65536 + r) % 65536 == r && (q * 65536 + r) / 65536 == q
  {
  }

  lemma LowByte(x: nat, c: nat)
    ensures ((x * 64 + c) * 64) % 256 == c % 4 * 64
  {
    var q, r := c / 4, c % 4;
    assert (x * 64 + c) * 64 == (x * 16 + q) * 256 + r * 64;
    Rem256(x * 16 + q, r * 64);
  }

  lemma LowBytes(x: nat, b: nat)
    ensures ((x * 64 + b) * 4096) % 65536 == b % 16 * 4096
  {
    var q, r := b / 16, b % 16;
    assert (x * 64 + b) * 4096 == (x * 4 + q) * 65536 + r * 4096;
    Rem65536(x * 4 + q, r * 4096);
  }

  /** What is left of four weights when the bits of `k` bytes fall away. */
  lemma Dropped(a: nat, b: nat, c: nat, d: nat, k: nat)
    requires a < 64 && b < 64 && c < 64 && d < 64 && k <= 2 && (k >= 1 ==> d == 0) && (k >= 2 ==> c == 0)
    ensures var n := ((a * 64 + b) * 64 + c) * 64 + d;
            n < LIMIT && Packed(Bytes3(k, n))
            == ((a * 64 + (if k == 2 then b - b % 16 else b)) * 64 + (if k == 1 then c - c % 4 else c)) * 64 + d
  {
    hide Packed, Bytes3;
    var n := ((a * 64 + b) * 64 + c) * 64 + d;
    Sixes(a, b, c, d);
    Repacked(k, n);
    if k == 1 {
      LowByte(a * 64 + b, c);
    } else if k == 2 {
      LowBytes(a, b);
    }
  }

  lemma SymbolIs(v: nat, c: Byte)
    requires v < 64 && IsSymbol(c)
    ensures Symbol(v) == c <==> v == Value(c)
  {
    hide Symbol, Value, IsSymbol;
    SymbolOf(c);
  }

  lemma GroupBack(t: Bytes, k: nat, n: nat)
    requires |t| == 4 && Shaped(t, k) && Unpacked(t, 0, 0) == Some((k, n))
    ensures n < LIMIT && (Quad(Packed(Bytes3(k, n)), k) == t <==> Spare(t, k))
  {
    hide Unpacked, Value, Symbol, Quad, Packed, Bytes3, IsSymbol;
    GroupUnpacked(t, k);
    var a, b, c, d := Weight(t[0]), Weight(t[1]), Weight(t[2]), Weight(t[3]);
    Dropped(a, b, c, d, k);
    var b', c' := if k == 2 then b - b % 16 else b, if k == 1 then c - c % 4 else c;
    QuadIs(a, b', c', d, k);
    WeightSymbols(t, k);
    SymbolIs(a, t[0]);
    SymbolIs(b', t[1]);
    if k < 2 {
      SymbolIs(c', t[2]);
    }
    if k < 1 {
      SymbolIs(d, t[3]);
    }
  }

  lemma WeightSymbols(t: Bytes, k: nat)
    requires |t| == 4 && Padded(t, k) && k <= 2
    ensures forall i :: 0 <= i < 4 ==> Weight(t[i]) == if i < 4 - k then Value(t[i]) else 0
  {
  }

  /** The first group of a text, which is the whole of it if it is short. */
  lemma EncodeHead(head: Bytes, more: Bytes)
    requires 1 <= |head| <= 3 && (|head| < 3 ==> more == [])
    ensures Encode(head + more) == Quad(Packed(head), 3 - |head|) + Encode(more)
  {
    hide Quad, Packed;
    var s := head + more;
    assert s[..Least(|s|, 3)] == head && s[Least(|s|, 3)..] == more;
  }

  lemma SameParts(a: Bytes, b: Bytes, c: Bytes, d: Bytes)
    requires |a| == |c|
    ensures c + d == a + b <==> c == a && d == b
  {
    if c + d == a + b {
      assert (c + d)[..|c|] == c && (a + b)[..|c|] == a && (c + d)[|c|..] == d && (a + b)[|c|..] == b;
    }
  }

  /** A text that is accepted is what its decoding is encoded to exactly when its spare bits are nought. */
  lemma {:induction false} EncodeBack(t: Bytes, k: nat)
    requires Shaped(t, k)
    ensures Decode(t).Some? && (Encode(Decode(t).value) == t <==> Spare(t, k))
    decreases |t|
  {
    hide Unpacked, Value, Quad, Packed, IsSymbol;
    ShapedAccepted(t, k);
    if t != [] {
      var q, rest := t[..4], t[4..];
      var j := if |t| > 4 then 0 else k;
      if |t| > 4 {
        ShapedRest(t, k);
        EncodeBack(rest, k);
      } else {
        assert q == t && rest == [];
      }
      PaddedUnpacked(q, j, 0, 0);
      var n := Unpacked(q, 0, 0).value.1;
      GroupBack(q, j, n);
      var head := Bytes3(j, n);
      assert Decode(t).value == head + Decode(rest).value;
      hide Decode, Bytes3, Shaped;
      EncodeHead(head, Decode(rest).value);
      assert t == q + rest;
      SameParts(q, rest, Quad(Packed(head), j), Encode(Decode(rest).value));
    }
  }

  // ---------------------------------------------------------------- the loops

  /** Up to three bytes are shifted into a number; where the text ends, noughts are. */
  method Pack(data: Bytes, start: nat) returns (packed: nat, padding: nat, ptr: nat)
    requires start < |data|
    ensures ptr == start + Least(|data| - start, 3) && padding == 3 - Least(|data| - start, 3)
    ensures packed == Packed(data[start..ptr]) && packed < LIMIT
  {
    packed, padding, ptr := 0, 0, start;
    var i := 0;
    while i < 3 && ptr < |data|
      invariant 0 <= i <= 3 && ptr == start + i <= |data|
      invariant i == 1 ==> packed == data[start] as int
      invariant i == 2 ==> packed == data[start] as int * 256 + data[start + 1] as int
      invariant i == 3 ==> packed == Packed(data[start..ptr])
      invariant i == 0 ==> packed == 0
    {
      packed := packed * 256 + data[ptr] as int;
      i, ptr := i + 1, ptr + 1;
    }
    if i == 2 {
      padding := 1;
    } else if i == 1 {
      padding := 2;
    }
    ghost var got, had := i, packed;
    while i < 3
      invariant got <= i <= 3
      invariant packed == if i == got then had else if i == got + 1 then had * 256 else had * 65536
    {
      packed := packed * 256;
      i := i + 1;
    }
  }

  method AppendQuad(ret: Bytes, packed: nat, padding: nat) returns (r: Bytes)
    requires packed < LIMIT && padding <= 2
    ensures r == ret + Quad(packed, padding)
  {
    hide Symbol;
    r := ret + [Symbol(packed / 262144)];
    r := r + [Symbol(packed / 4096 % 64)];
    if padding != 2 {
      r := r + [Symbol(packed / 64 % 64)];
    }
    if padding == 0 {
      r := r + [Symbol(packed % 64)];
    }
    r := r + seq(padding, i => '=');
  }

  lemma EncodeFrom(s: Bytes, p: nat, was: Bytes)
    requires p < |s|
    ensures var k := Least(|s| - p, 3);
            was + Encode(s[p..]) == was + Quad(Packed(s[p..p + k]), 3 - k) + Encode(s[p + k..])
  {
    hide Quad, Packed;
    var k := Least(|s| - p, 3);
    assert s[p..][..k] == s[p..p + k] && s[p..][k..] == s[p + k..];
    var q := Quad(Packed(s[p..p + k]), 3 - k);
    assert was + (q + Encode(s[p + k..])) == was + q + Encode(s[p + k..]);
  }

  method Base64Encode(data: Bytes) returns (ret: Bytes)
    ensures ret == Encode(data)
  {
    hide Quad, Packed;
    ret := [];
    var ptr := 0;
    assert data[0..] == data;
    while ptr < |data|
      invariant ptr <= |data| && ret + Encode(data[ptr..]) == Encode(data)
    {
      EncodeFrom(data, ptr, ret);
      var packed, padding;
      packed, padding, ptr := Pack(data, ptr);
      ret := AppendQuad(ret, packed, padding);
    }
    assert ret + [] == ret && data[ptr..] == [];
  }

  /** Up to four symbols are shifted into a number. */
  method Unpack(src: Bytes, start: nat) returns (ok: bool, padding: nat, packed: nat, i: nat)
    requires start < |src|
    ensures var q := src[start..start + Least(|src| - start, 4)];
            && (ok <==> Unpacked(q, 0, 0).Some?)
            && (ok ==> Unpacked(q, 0, 0) == Some((padding, packed)) && i == |q|)
  {
    hide Value, IsSymbol;
    ghost var q := src[start..start + Least(|src| - start, 4)];
    ok, padding, packed, i := true, 0, 0, 0;
    var ptr := start;
    while i < 4 && ptr < |src|
      invariant i <= |q| && ptr == start + i
      invariant Unpacked(q, 0, 0) == Unpacked(q[i..], padding, packed)
      decreases 4 - i
    {
      assert q[i..][0] == src[ptr] && q[i..][1..] == q[i + 1..];
      if src[ptr] == '=' {
        padding, packed := padding + 1, packed * 64;
      } else {
        if padding > 0 || !IsSymbol(src[ptr]) {
          return false, padding, packed, i;
        }
        packed := packed * 64 + Value(src[ptr]);
      }
      i, ptr := i + 1, ptr + 1;
    }
    assert q[i..] == [];
  }

  lemma DecodeGroup(t: Bytes)
    requires t != []
    ensures var q := t[..Least(|t|, 4)];
            && (|t| < 4 || Unpacked(q, 0, 0).None? ==> Decode(t).None?)
            && (|t| >= 4 && Unpacked(q, 0, 0).Some? ==>
                  var (padding, packed) := Unpacked(q, 0, 0).value;
                  Decode(t) == if (padding > 0 && |t| > 4) || padding > 2 then None
                               else Before(Bytes3(padding, packed), Decode(t[4..])))
  {
    hide Unpacked, Bytes3;
  }

  lemma BeforeTwice(a: Bytes, b: Bytes, r: Option<Bytes>)
    ensures Before(a, Before(b, r)) == Before(a + b, r) && Before([], r) == r
  {
    if r.Some? {
      assert a + (b + r.value) == a + b + r.value && [] + r.value == r.value;
    }
  }

  /** The bytes of one group, written from w on. */
  method StoreBytes(buffer: array<Byte>, w0: nat, padding: nat, packed: nat) returns (w: nat)
    requires w0 + 3 <= buffer.Length && padding <= 2
    modifies buffer
    ensures w0 <= w <= w0 + 3 && buffer[..w] == old(buffer[..w0]) + Bytes3(padding, packed)
  {
    w := w0;
    buffer[w] := (packed / 65536 % 256) as char;
    w := w + 1;
    if padding != 2 {
      buffer[w] := (packed / 256 % 256) as char;
      w := w + 1;
    }
    if padding == 0 {
      buffer[w] := (packed % 256) as char;
      w := w + 1;
    }
    assert buffer[..w0] == old(buffer[..w0]) && buffer[w0..w] == Bytes3(padding, packed);
  }

  /** The decoder writes into a buffer of three quarters of the input and never past it. */
  method Base64Decode(src: Bytes) returns (result: Bytes)
    ensures result == if Decode(src).Some? then Decode(src).value else []
  {
    hide Decode, Unpacked, Before;
    var buffer := new Byte[|src| * 3 / 4];
    var w, ptr := 0, 0;
    assert src[0..] == src && buffer[..0] == [];
    BeforeTwice([], [], Decode(src));
    while ptr < |src|
      invariant ptr <= |src| && 4 * w <= 3 * ptr
      invariant w <= buffer.Length && Decode(src) == Before(buffer[..w], Decode(src[ptr..]))
    {
      ghost var rest, was := src[ptr..], buffer[..w];
      var ok, padding, packed, i := Unpack(src, ptr);
      assert rest[..Least(|rest|, 4)] == src[ptr..ptr + Least(|rest|, 4)];
      DecodeGroup(rest);
      NoneBefore(was);
      if !ok || i != 4 {
        return [];
      }
      ptr := ptr + 4;
      if padding > 0 && ptr != |src| {
        return [];
      }
      if padding > 2 {
        return [];
      }
      assert rest[4..] == src[ptr..] && w + 3 <= buffer.Length;
      w := StoreBytes(buffer, w, padding, packed);
      assert buffer[..w] == was + Bytes3(padding, packed);
      BeforeTwice(was, Bytes3(padding, packed), Decode(src[ptr..]));
    }
    assert src[ptr..] == [];
    DecodeNothing(buffer[..w]);
    return buffer[..w];
  }

  lemma NoneBefore(s: Bytes)
    ensures Before(s, None).None?
  {
  }

  lemma DecodeNothing(s: Bytes)
    ensures Before(s, Decode([])) == Some(s)
  {
    assert s + [] == s;
  }
}
