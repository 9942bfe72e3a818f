/** The variable-length integers that `ByteArray` writes and reads, and the zigzag form of signed ones. */
module Varints {
  import opened Bits
  import opened HttpSyntax
  import opened ByteArrays
  import opened ByteArrayRuns

  // ---------------------------------------------------------------- zigzag

  function Unsigned(n: nat, x: int): (u: nat)
    ensures u < Two(n)
  {
    x % Two(n)
  }

  /** The n-bit two's complement read as a number. */
  function Signed(n: nat, u: nat): int
    requires n > 0
  {
    if u < Two(n - 1) then u else u - Two(n)
  }

  predicate IsInt(n: nat, v: int)
    requires n > 0
  {
    0 <= v + Two(n - 1) && v < Two(n - 1)
  }

  /** `EncodeZigzag32` and `EncodeZigzag64`, n being 32 or 64.  The negation wraps at the smallest number. */
  function Zigzag(n: nat, v: int): (u: nat)
    requires n > 0
    ensures u < Two(n)
  {
    if v < 0 then Unsigned(n, Unsigned(n, -v) * 2 - 1) else Unsigned(n, v * 2)
  }

  /** `DecodeZigzag32` and `DecodeZigzag64`: a shift, and an exclusive or with nothing or with all ones. */
  function Unzigzag(n: nat, u: nat): int
    requires n > 0
  {
    Signed(n, Xor(n, u / 2, Unsigned(n, -(u % 2))))
  }

  lemma Wrapped(m: nat, x: int)
    requires 0 <= x < m
    ensures x % m == x && (x - m) % m == x
  {
  }

  lemma ZigzagIs(n: nat, v: int)
    requires n > 0 && IsInt(n, v)
    ensures Zigzag(n, v) == if v < 0 then -2 * v - 1 else 2 * v
  {
    var m := Two(n);
    if v < 0 {
      Wrapped(m, -v);
      Wrapped(m, -2 * v - 1);
    } else {
      Wrapped(m, 2 * v);
    }
  }

  lemma UnzigzagIs(n: nat, u: nat)
    requires n > 0 && u < Two(n)
    ensures Unzigzag(n, u) == (if u % 2 == 0 then u / 2 else -(u / 2) - 1) && IsInt(n, Unzigzag(n, u))
  {
    var m := Two(n);
    if u % 2 == 0 {
      Wrapped(m, 0);
      XorNothing(n, u / 2);
    } else {
      Wrapped(m, m - 1);
      XorOnes(n, u / 2);
    }
  }

  /** The exclusive-or form of decoding inverts the arithmetic form of encoding, on every n-bit number, the
      smallest included; and encoding inverts decoding on every n-bit word. */
  lemma ZigzagRoundTrip(n: nat, v: int, u: nat)
    requires n > 0
    ensures IsInt(n, v) ==> Unzigzag(n, Zigzag(n, v)) == v
    ensures u < Two(n) ==> IsInt(n, Unzigzag(n, u)) && Zigzag(n, Unzigzag(n, u)) == u
  {
    hide Zigzag, Unzigzag, Two, IsInt;
    if IsInt(n, v) {
      ZigzagIs(n, v);
      UnzigzagIs(n, Zigzag(n, v));
    }
    if u < Two(n) {
      UnzigzagIs(n, u);
      ZigzagIs(n, Unzigzag(n, u));
    }
  }

  // ---------------------------------------------------------------- the text of a number

  const TWO_64: nat := 0x1_0000_0000_0000_0000
  const TWO_32: nat := 0x1_0000_0000

  function Varint(v: nat): (s: Bytes)
    ensures s != []
  {
    if v < 128 then [v as char] else [(v % 128 + 128) as char] + Varint(v / 128)
  }

  function Pow(k: nat): (p: nat)
    ensures p > 0
  {
    if k == 0 then 1 else 128 * Pow(k - 1)
  }

  lemma {:induction false} VarintLength(v: nat, k: nat)
    requires v < Pow(k) && k > 0
    ensures |Varint(v)| <= k
  {
    if v >= 128 {
      VarintLength(v / 128, k - 1);
    }
  }

  lemma {:induction false} VarintTopBits(v: nat)
    ensures var s := Varint(v);
            (forall i :: 0 <= i < |s| - 1 ==> s[i] as int >= 128) && s[|s| - 1] as int < 128
  {
    if v >= 128 {
      VarintTopBits(v / 128);
    }
  }

  /** A 64-bit number takes one to ten bytes, a 32-bit one at most five. */
  lemma VarintSize(v: nat)
    ensures v < TWO_64 ==> 1 <= |Varint(v)| <= 10
    ensures v < TWO_32 ==> |Varint(v)| <= 5
  {
    assert Pow(5) == 0x8_0000_0000 by { Powers(); }
    assert Pow(10) == 0x8_0000_0000 * 0x8_0000_0000 by { Powers(); }
    if v < TWO_64 {
      VarintLength(v, 10);
    }
    if v < TWO_32 {
      VarintLength(v, 5);
    }
  }

  lemma Powers()
    ensures Pow(5) == 0x8_0000_0000 && Pow(10) == 0x8_0000_0000 * 0x8_0000_0000
  {
    assert Pow(1) == 128;
    assert Pow(2) == 16384;
    assert Pow(3) == 2097152;
    assert Pow(4) == 268435456;
    assert Pow(5) == 0x8_0000_0000;
    assert Pow(6) == 128 * 0x8_0000_0000;
    assert Pow(7) == 16384 * 0x8_0000_0000;
    assert Pow(8) == 2097152 * 0x8_0000_0000;
    assert Pow(9) == 268435456 * 0x8_0000_0000;
  }

  lemma VarintStep(v: nat)
    requires v >= 128
    ensures Varint(v) == [(v % 128 + 128) as char] + Varint(v / 128) && |Varint(v)| == 1 + |Varint(v / 128)|
  {
  }

  lemma Rejoin(done: Bytes, b: Byte, rest: Bytes, whole: Bytes)
    requires done + ([b] + rest) == whole
    ensures (done + [b]) + rest == whole
  {
  }

  /** `writeUint64`: the bytes are put together in an array of ten. */
  method EncodeUint64(number: nat) returns (bytes: Bytes)
    requires number < TWO_64
    ensures bytes == Varint(number)
  {
    hide Varint;
    var tmp := new Byte[10];
    var value := number;
    var i := 0;
    VarintSize(number);
    assert tmp[..0] + Varint(value) == Varint(number);
    while value >= 0x80
      invariant i + |Varint(value)| <= 10 && tmp[..i] + Varint(value) == Varint(number)
    {
      VarintStep(value);
      ghost var was := tmp[..i];
      tmp[i] := (value % 128 + 128) as char;
      assert tmp[..i + 1] == was + [tmp[i]];
      Rejoin(was, tmp[i], Varint(value / 128), Varint(number));
      value := value / 128;
      i := i + 1;
    }
    ghost var was := tmp[..i];
    tmp[i] := value as char;
    assert tmp[..i + 1] == was + [tmp[i]];
    VarintLast(value);
    return tmp[..i + 1];
  }

  lemma VarintLast(v: nat)
    requires v < 128
    ensures Varint(v) == [v as char]
  {
  }

  // ---------------------------------------------------------------- reading a number

  datatype Result = Value(number: nat, rest: Cursor) | Thrown

  /** `readUint64`: at most ten bytes, seven bits of each, up to one whose top bit is clear.  What the tenth
      shifts out of the word is lost; the bits of different bytes do not overlap, so or is addition. */
  function ReadNumber(base: nat, c: Cursor, k: nat, ans: nat): Result
    requires base > 0
    decreases 10 - k
  {
    if k >= 10 then Value(ans, c)
    else
      match Answer(c, 1)
      case Ok(bytes) =>
        if |bytes| != 1 then Thrown
        else
          var b := bytes[0] as int;
          var more := ans + (b % 128 * Pow(k)) % TWO_64;
          if b >= 128 then ReadNumber(base, AfterRead(base, c, 1), k + 1, more)
          else Value(more, AfterRead(base, c, 1))
      case _ => Thrown
  }

  /** Reading byte after byte gives these bytes. */
  predicate Streams(base: nat, c: Cursor, bytes: Bytes)
    requires base > 0
    decreases |bytes|
  {
    bytes == [] || (Answer(c, 1) == Ok([bytes[0]]) && Streams(base, AfterRead(base, c, 1), bytes[1..]))
  }

  function Skip(base: nat, c: Cursor, n: nat): Cursor
    requires base > 0
    decreases n
  {
    if n == 0 then c else Skip(base, AfterRead(base, c, 1), n - 1)
  }

  lemma {:induction false} StreamsOn(base: nat, c: Cursor, a: Bytes, b: Bytes)
    requires base > 0 && Streams(base, c, a + b)
    ensures Streams(base, c, a) && Streams(base, Skip(base, c, |a|), b)
    decreases |a|
  {
    hide AfterRead;
    if a == [] {
      assert a + b == b;
    } else {
      assert (a + b)[1..] == a[1..] + b;
      StreamsOn(base, AfterRead(base, c, 1), a[1..], b);
    }
  }

  function Mul(v: nat, p: nat): nat { v * p }

  /** The low digit of a number and the rest of it. */
  lemma LowDigit(ans: nat, v: nat, p: nat)
    requires v >= 128 && ans + Mul(v, p) < TWO_64
    ensures (v % 128 * p) % TWO_64 == Mul(v % 128, p)
    ensures ans + Mul(v % 128, p) + Mul(v / 128, 128 * p) == ans + Mul(v, p)
  {
    var q, r := v / 128, v % 128;
    assert v == 128 * q + r;
    assert v * p == (128 * q) * p + r * p;
    assert (128 * q) * p == q * (128 * p);
    Wrapped(TWO_64, r * p);
  }

  lemma LastDigit(ans: nat, v: nat, p: nat)
    requires v < 128 && ans + Mul(v, p) < TWO_64
    ensures (v % 128 * p) % TWO_64 == Mul(v, p)
  {
    Wrapped(TWO_64, v * p);
  }

  /** Where the bytes to come are those of a number, that number is read and no more. */
  lemma {:induction false} ReadsBack(base: nat, c: Cursor, k: nat, ans: nat, v: nat)
    requires base > 0 && Streams(base, c, Varint(v)) && k + |Varint(v)| <= 10 && ans + Mul(v, Pow(k)) < TWO_64
    ensures ReadNumber(base, c, k, ans) == Value(ans + Mul(v, Pow(k)), Skip(base, c, |Varint(v)|))
    decreases v
  {
    hide AfterRead, Answer, Pow, Varint, ReadNumber, Mul;
    var d, p := AfterRead(base, c, 1), Pow(k);
    var b := Varint(v)[0];
    assert Answer(c, 1) == Ok([b]);
    ReadOne(base, c, k, ans, b);
    if v < 128 {
      VarintLast(v);
      assert Skip(base, d, 0) == d;
      assert b as int % 128 == v % 128;
      LastDigit(ans, v, p);
    } else {
      VarintStep(v);
      assert b as int == v % 128 + 128 && Varint(v)[1..] == Varint(v / 128);
      assert b as int % 128 == v % 128;
      LowDigit(ans, v, p);
      PowStep(k);
      ReadsBack(base, d, k + 1, ans + Mul(v % 128, p), v / 128);
    }
  }

  /** One turn of the loop. */
  lemma ReadOne(base: nat, c: Cursor, k: nat, ans: nat, b: Byte)
    requires base > 0 && k < 10 && Answer(c, 1) == Ok([b])
    ensures var more := ans + (b as int % 128 * Pow(k)) % TWO_64;
            ReadNumber(base, c, k, ans) ==
            if b as int >= 128 then ReadNumber(base, AfterRead(base, c, 1), k + 1, more)
            else Value(more, AfterRead(base, c, 1))
  {
    hide AfterRead, Answer, Pow;
  }

  lemma PowStep(k: nat)
    ensures Pow(k + 1) == 128 * Pow(k)
  {
  }

  lemma TwoWord()
    ensures Two(64) == TWO_64
  {
    TwoByte();
    hide Two;
    TwoSum(8, 8);
    TwoSum(16, 16);
    TwoSum(32, 32);
  }

  /** `writeInt64` and then `readInt64`. */
  lemma SignedReadsBack(base: nat, c: Cursor, v: int)
    requires base > 0 && IsInt(64, v) && Streams(base, c, Varint(Zigzag(64, v)))
    ensures var r := ReadNumber(base, c, 0, 0); r.Value? && Unzigzag(64, r.number) == v
  {
    hide Two, Zigzag, Unzigzag, IsInt, ReadNumber, Varint, Streams, AfterRead, Answer;
    TwoWord();
    VarintSize(Zigzag(64, v));
    ReadsBack(base, c, 0, 0, Zigzag(64, v));
    ZigzagRoundTrip(64, v, 0);
  }

  /** `readUint32`, which stops at a byte whose top bit is set and goes on after one whose top bit is clear. */
  function ReadNumber32(base: nat, c: Cursor, k: nat, ans: nat): Result
    requires base > 0
    decreases 5 - k
  {
    if k >= 5 then Value(ans, c)
    else
      match Answer(c, 1)
      case Ok(bytes) =>
        if |bytes| != 1 then Thrown
        else
          var b := bytes[0] as int;
          var more := ans + (b % 128 * Pow(k)) % TWO_32;
          if b >= 128 then Value(more, AfterRead(base, c, 1))
          else ReadNumber32(base, AfterRead(base, c, 1), k + 1, more)
      case _ => Thrown
  }

  /** The bits of byte number k that reach a 32-bit number are nought. */
  predicate AddsNothing(k: nat, b: Byte) { b as int % (if k == 4 then 16 else 128) == 0 }

  /** Bytes, the first of them number k, that add nothing and with which the reader stops: at the first whose
      top bit is set, or at byte number four. */
  predicate Harmless(k: nat, more: Bytes)
    decreases |more|
  {
    if k >= 5 then more == []
    else
      && more != [] && AddsNothing(k, more[0])
      && if more[0] as int >= 128 then |more| == 1 else Harmless(k + 1, more[1..])
  }

  lemma SmallPowers()
    ensures Pow(0) == 1 && Pow(1) == 128 && Pow(2) == 16384 && Pow(3) == 2097152 && Pow(4) == 268435456
  {
  }

  lemma AddsNothingIs(k: nat, b: Byte)
    requires k < 5
    ensures (b as int % 128 * Pow(k)) % TWO_32 == 0 <==> AddsNothing(k, b)
  {
    SmallPowers();
    hide Pow;
    var r := b as int % 128;
    if k == 4 {
      LastNothing(r);
    } else {
      assert 0 <= r * Pow(k) < TWO_32 by { Inside32(k, r); }
      Remainder32(0, r * Pow(k));
      assert r * Pow(k) == 0 <==> r == 0;
    }
  }

  lemma Inside32(k: nat, r: nat)
    requires k < 4 && r < 128
    ensures r * Pow(k) < TWO_32
  {
    SmallPowers();
  }

  lemma LastNothing(r: nat)
    requires r < 128
    ensures (r * 268435456) % TWO_32 == 0 <==> r % 16 == 0
  {
    var q, s := r / 16, r % 16;
    assert r * 268435456 == q * TWO_32 + s * 268435456;
    Remainder32(q, s * 268435456);
  }

  lemma Remainder32(q: nat, r: nat)
    requires r < TWO_32
    ensures (q * TWO_32 + r) % TWO_32 == r
  {
  }

  lemma {:induction false} Read32Grows(base: nat, c: Cursor, k: nat, ans: nat)
    requires base > 0
    ensures ReadNumber32(base, c, k, ans).Value? ==> ReadNumber32(base, c, k, ans).number >= ans
    decreases 5 - k
  {
    hide Answer, AfterRead, Pow;
    if k < 5 && Answer(c, 1).Ok? && |Answer(c, 1).bytes| == 1 {
      var more := ans + (Answer(c, 1).bytes[0] as int % 128 * Pow(k)) % TWO_32;
      Read32Grows(base, AfterRead(base, c, 1), k + 1, more);
    }
  }

  /** Such bytes are what is read next. */
  ghost predicate HarmlessNext(base: nat, c: Cursor, k: nat)
    requires base > 0
  {
    exists more :: Harmless(k, more) && Streams(base, c, more)
  }

  lemma HarmlessStep(base: nat, c: Cursor, k: nat, b: Byte)
    requires base > 0 && k < 5 && Answer(c, 1) == Ok([b])
    ensures HarmlessNext(base, c, k) <==>
            AddsNothing(k, b) && (b as int >= 128 || HarmlessNext(base, AfterRead(base, c, 1), k + 1))
  {
    hide Answer, AfterRead, AddsNothing;
    var d := AfterRead(base, c, 1);
    if HarmlessNext(base, c, k) {
      var more :| Harmless(k, more) && Streams(base, c, more);
      assert [more[0]] == [b];
      assert b as int < 128 ==> Harmless(k + 1, more[1..]) && Streams(base, d, more[1..]);
    }
    if AddsNothing(k, b) && b as int >= 128 {
      assert [b][1..] == [];
      assert Harmless(k, [b]) && Streams(base, c, [b]);
    }
    if AddsNothing(k, b) && b as int < 128 && HarmlessNext(base, d, k + 1) {
      var rest :| Harmless(k + 1, rest) && Streams(base, d, rest);
      var more := [b] + rest;
      assert more[1..] == rest;
      assert Harmless(k, more) && Streams(base, c, more);
    }
  }

  lemma HarmlessEnd(base: nat, c: Cursor, k: nat)
    requires base > 0
    ensures k >= 5 ==> HarmlessNext(base, c, k)
    ensures k < 5 && !(Answer(c, 1).Ok? && |Answer(c, 1).bytes| == 1) ==> !HarmlessNext(base, c, k)
  {
    hide Answer;
    if k >= 5 {
      assert Harmless(k, []) && Streams(base, c, []);
    }
  }

  /** The number read so far stays as it is exactly when harmless bytes follow. */
  lemma {:induction false} Read32Keeps(base: nat, c: Cursor, k: nat, ans: nat)
    requires base > 0
    ensures var r := ReadNumber32(base, c, k, ans); (r.Value? && r.number == ans) <==> HarmlessNext(base, c, k)
    decreases 5 - k
  {
    hide Answer, AfterRead, Pow, AddsNothing, HarmlessNext;
    HarmlessEnd(base, c, k);
    if k < 5 && Answer(c, 1).Ok? && |Answer(c, 1).bytes| == 1 {
      var b := Answer(c, 1).bytes[0];
      assert Answer(c, 1).bytes == [b];
      HarmlessStep(base, c, k, b);
      AddsNothingIs(k, b);
      var d := AfterRead(base, c, 1);
      var more := ans + (b as int % 128 * Pow(k)) % TWO_32;
      Read32Grows(base, d, k + 1, more);
      Read32Keeps(base, d, k + 1, more);
    }
  }

  /** One turn of the loop, on the first byte of a number. */
  lemma ReadFirst32(base: nat, c: Cursor, v: nat)
    requires base > 0 && Streams(base, c, Varint(v))
    ensures var d := AfterRead(base, c, 1);
            ReadNumber32(base, c, 0, 0) == if v >= 128 then Value(v % 128, d) else ReadNumber32(base, d, 1, v)
  {
    hide Answer, AfterRead, Varint, ReadNumber32;
    FirstByte(v);
    ReadOne32(base, c, 0, 0, Varint(v)[0]);
    SmallPowers();
    Wrapped(TWO_32, v % 128);
  }

  lemma FirstByte(v: nat)
    ensures var s := Varint(v); s != [] && s[0] as int % 128 == v % 128 && (s[0] as int >= 128 <==> v >= 128)
  {
    hide Varint;
    if v >= 128 {
      VarintStep(v);
    } else {
      VarintLast(v);
    }
  }

  lemma ReadOne32(base: nat, c: Cursor, k: nat, ans: nat, b: Byte)
    requires base > 0 && k < 5 && Answer(c, 1) == Ok([b])
    ensures var more := ans + (b as int % 128 * Pow(k)) % TWO_32;
            ReadNumber32(base, c, k, ans) ==
            if b as int >= 128 then Value(more, AfterRead(base, c, 1))
            else ReadNumber32(base, AfterRead(base, c, 1), k + 1, more)
  {
    hide Answer, AfterRead, Pow;
  }

  /** What `readUint32` makes of a number that `writeUint32` wrote, whatever follows it: of a number of several
      bytes its low seven bits; a number of one byte comes back if and only if harmless bytes follow. */
  lemma Read32Exactly(base: nat, c: Cursor, v: nat)
    requires base > 0 && Streams(base, c, Varint(v))
    ensures var r := ReadNumber32(base, c, 0, 0);
            && (v >= 128 ==> r == Value(v % 128, AfterRead(base, c, 1)))
            && ((r.Value? && r.number == v) <==> v < 128 && HarmlessNext(base, AfterRead(base, c, 1), 1))
  {
    hide Answer, AfterRead, Varint, ReadNumber32, HarmlessNext, Streams;
    ReadFirst32(base, c, v);
    Read32Keeps(base, AfterRead(base, c, 1), 1, v);
  }

  lemma FiveAlone(base: nat, c: Cursor, more: Bytes)
    requires base > 0 && Streams(base, c, [5 as char] + more)
    ensures Streams(base, c, Varint(5)) && Streams(base, AfterRead(base, c, 1), more)
  {
    hide Answer, AfterRead;
    VarintLast(5);
    assert ([5 as char] + more)[1..] == more && Varint(5)[1..] == [];
  }

  /** For example 5 comes back from a node of eight bytes when four noughts follow it. */
  lemma Read32Witness()
    ensures var c := Cursor([5 as char, '\0', '\0', '\0', '\0', '\0', '\0', '\0'], 0, 5, 0);
            && Sound(8, c) && Streams(8, c, Varint(5))
            && ReadNumber32(8, c, 0, 0).Value? && ReadNumber32(8, c, 0, 0).number == 5
  {
    var flat: Bytes := [5 as char, '\0', '\0', '\0', '\0', '\0', '\0', '\0'];
    var c, bytes := Cursor(flat, 0, 5, 0), [5 as char] + ['\0', '\0', '\0', '\0'];
    FromStart(8, flat, 5);
    forall k | 0 <= k < 5 ensures bytes[k] == flat[Offset(0 + k, 8)] {
      WithinNode(8, k);
    }
    BytewiseFrom(8, flat, 5, 0, bytes);
    hide *;
    FiveAlone(8, c, ['\0', '\0', '\0', '\0']);
    NoughtsHarmless(['\0', '\0', '\0', '\0']);
    Read32Exactly(8, c, 5);
  }

  lemma NoughtsHarmless(none: Bytes)
    requires none == ['\0', '\0', '\0', '\0']
    ensures Harmless(1, none)
  {
    assert none[1..] == ['\0', '\0', '\0'] && none[1..][1..] == ['\0', '\0'];
    assert none[1..][1..][1..] == ['\0'] && none[1..][1..][1..][1..] == [];
    assert Harmless(5, none[1..][1..][1..][1..]);
    assert Harmless(4, none[1..][1..][1..]);
    assert Harmless(3, none[1..][1..]);
  }

  /** The last number in the buffer never comes back: after a short one the reader asks for more and throws. */
  lemma Read32NeverLast(base: nat, c: Cursor, v: nat)
    requires Sound(base, c) && Streams(base, c, Varint(v)) && c.size == c.position + |Varint(v)|
    ensures ReadNumber32(base, c, 0, 0) ==
            if v >= 128 then Value(v % 128, AfterRead(base, c, 1)) else Thrown
  {
    hide Varint;
    Read32Exactly(base, c, v);
    if v < 128 {
      VarintLast(v);
      if Slips(base, c.position, 1) {
        SlipFits(base, c, 1);
      }
      var d := AfterRead(base, c, 1);
      assert d.position == d.size;
      assert ReadNumber32(base, d, 1, v) == Thrown;
    }
  }

  // ---------------------------------------------------------------- lists of numbers

  function Encoded(vs: seq<nat>): Bytes
    decreases |vs|
  {
    if vs == [] then [] else Varint(vs[0]) + Encoded(vs[1..])
  }

  predicate Words(vs: seq<nat>) { forall i :: 0 <= i < |vs| ==> vs[i] < TWO_64 }

  datatype Results = Values(numbers: seq<nat>) | NoValues

  function ReadNumbers(base: nat, c: Cursor, count: nat): Results
    requires base > 0
    decreases count
  {
    if count == 0 then Values([])
    else
      match ReadNumber(base, c, 0, 0)
      case Thrown => NoValues
      case Value(v, d) =>
        match ReadNumbers(base, d, count - 1)
        case NoValues => NoValues
        case Values(vs) => Values([v] + vs)
  }

  /** Where the bytes to come are those of a list of numbers, the list is read. */
  lemma {:induction false} ListReadsBack(base: nat, c: Cursor, vs: seq<nat>)
    requires base > 0 && Words(vs) && Streams(base, c, Encoded(vs))
    ensures ReadNumbers(base, c, |vs|) == Values(vs)
    decreases |vs|
  {
    hide AfterRead, Answer, ReadNumber;
    if vs != [] {
      StreamsOn(base, c, Varint(vs[0]), Encoded(vs[1..]));
      VarintSize(vs[0]);
      ReadsBack(base, c, 0, 0, vs[0]);
      ListReadsBack(base, Skip(base, c, |Varint(vs[0])|), vs[1..]);
      assert [vs[0]] + vs[1..] == vs;
    }
  }

  // ---------------------------------------------------------------- through the nodes

  /** The state after i bytes have been read one by one from the start: with nodes of more than one byte every
      read of a node's last byte slips, so the cursor never leaves the first node. */
  function After(base: nat, flat: Bytes, size: nat, i: nat): Cursor
    requires base > 0
  {
    Cursor(flat, i, size, if base == 1 then i else Offset(i, base))
  }

  lemma AfterNext(base: nat, flat: Bytes, size: nat, i: nat)
    requires base > 0 && base <= |flat| && i < size <= |flat|
    ensures AfterRead(base, After(base, flat, size, i), 1) == After(base, flat, size, i + 1)
    ensures Answer(After(base, flat, size, i), 1) == Ok([flat[if base == 1 then i else Offset(i, base)]])
  {
    if base > 1 {
      ModAdd(i, 1, base);
    }
  }

  /** What is read byte by byte: the string itself with nodes of one byte, otherwise its first node over and
      over. */
  lemma {:induction false} BytewiseFrom(base: nat, flat: Bytes, size: nat, i: nat, bytes: Bytes)
    requires base > 0 && base <= |flat| && i + |bytes| <= size <= |flat|
    ensures Streams(base, After(base, flat, size, i), bytes) <==>
            forall k :: 0 <= k < |bytes| ==> bytes[k] == flat[if base == 1 then i + k else Offset(i + k, base)]
    decreases |bytes|
  {
    hide AfterRead, Offset, After;
    if bytes != [] {
      AfterNext(base, flat, size, i);
      var rest := bytes[1..];
      BytewiseFrom(base, flat, size, i + 1, rest);
      assert forall k :: 0 <= k < |rest| ==> rest[k] == bytes[k + 1];
      if forall k :: 0 <= k < |rest| ==> rest[k] == flat[if base == 1 then i + 1 + k else Offset(i + 1 + k, base)] {
        if bytes[0] == flat[if base == 1 then i else Offset(i, base)] {
          forall k | 0 <= k < |bytes| ensures bytes[k] == flat[if base == 1 then i + k else Offset(i + k, base)] {
            if k > 0 {
              assert bytes[k] == rest[k - 1];
            }
          }
        }
      } else {
        var k :| 0 <= k < |rest| && rest[k] != flat[if base == 1 then i + 1 + k else Offset(i + 1 + k, base)];
        assert bytes[k + 1] != flat[if base == 1 then i + (k + 1) else Offset(i + (k + 1), base)];
      }
    }
  }

  /** A string that begins with the encoding of a list. */
  predicate Begins(base: nat, flat: Bytes, size: nat, vs: seq<nat>) {
    && Words(vs) && base <= |flat| && |Encoded(vs)| <= size <= |flat|
    && flat[..|Encoded(vs)|] == Encoded(vs)
  }

  predicate ReadsAs(base: nat, flat: Bytes, size: nat, vs: seq<nat>)
    requires base > 0
  {
    ReadNumbers(base, Cursor(flat, 0, size, 0), |vs|) == Values(vs)
  }

  lemma FromStart(base: nat, flat: Bytes, size: nat)
    requires base > 0
    ensures After(base, flat, size, 0) == Cursor(flat, 0, size, 0)
  {
    QuotientOf(0, 0, base);
    StartNone(base);
  }

  lemma WithinNode(base: nat, i: nat)
    requires i < base
    ensures Offset(i, base) == i
  {
  }

  /** Lists that are encoded within the first node come back, and with nodes of one byte all lists do. */
  lemma FitsReadsBack(base: nat, flat: Bytes, size: nat, vs: seq<nat>)
    requires base > 0 && Begins(base, flat, size, vs) && (|Encoded(vs)| <= base || base == 1)
    ensures ReadsAs(base, flat, size, vs)
  {
    hide Offset, After, ReadNumbers, Streams, Encoded;
    var bytes := Encoded(vs);
    FromStart(base, flat, size);
    forall k | 0 <= k < |bytes| ensures bytes[k] == flat[if base == 1 then 0 + k else Offset(0 + k, base)] {
      if base > 1 {
        WithinNode(base, k);
      }
      assert flat[..|bytes|][k] == flat[k];
    }
    BytewiseFrom(base, flat, size, 0, bytes);
    ListReadsBack(base, Cursor(flat, 0, size, 0), vs);
  }

  function Zeros(n: nat): seq<nat> { seq(n, _ => 0) }

  function ZeroBytes(n: nat): Bytes { seq(n, _ => '\0') }

  lemma {:induction false} EncodedZeros(n: nat)
    ensures Encoded(Zeros(n)) == ZeroBytes(n)
  {
    if n > 0 {
      EncodedZeros(n - 1);
      assert Zeros(n)[1..] == Zeros(n - 1);
      assert ['\0'] + ZeroBytes(n - 1) == ZeroBytes(n);
    }
  }

  lemma {:induction false} EncodedAppend(a: seq<nat>, b: seq<nat>)
    ensures Encoded(a + b) == Encoded(a) + Encoded(b)
    decreases |a|
  {
    hide Varint;
    if a == [] {
      assert a + b == b;
    } else {
      assert (a + b)[1..] == a[1..] + b;
      EncodedAppend(a[1..], b);
      assert Varint(a[0]) + (Encoded(a[1..]) + Encoded(b)) == (Varint(a[0]) + Encoded(a[1..])) + Encoded(b);
    }
  }

  /** A list that does not come back: noughts for as long as the first node, then a one. */
  function Spoiler(base: nat, n: nat): seq<nat>
    requires base < n
  {
    Zeros(base) + ([1] + Zeros(n - base - 1))
  }

  function SpoilerBytes(base: nat, n: nat): Bytes
    requires base < n
  {
    ZeroBytes(base) + (['\U{01}'] + ZeroBytes(n - base - 1))
  }

  lemma SpoilerEncoded(base: nat, n: nat)
    requires base < n
    ensures Encoded(Spoiler(base, n)) == SpoilerBytes(base, n)
    ensures Words(Spoiler(base, n)) && |Spoiler(base, n)| == n == |SpoilerBytes(base, n)|
  {
    EncodedAppend(Zeros(base), [1] + Zeros(n - base - 1));
    EncodedAppend([1], Zeros(n - base - 1));
    EncodedZeros(base);
    EncodedZeros(n - base - 1);
    assert [1][1..] == [];
    assert Encoded([1]) == Varint(1) + Encoded([1][1..]) == ['\U{01}'];
  }

  /** Whatever else the buffer holds, this list does not come back from nodes of more than one byte. */
  lemma SpoilerFails(base: nat, n: nat, flat: Bytes, size: nat)
    requires 1 < base < n && Begins(base, flat, size, Spoiler(base, n))
    ensures !ReadsAs(base, flat, size, Spoiler(base, n))
  {
    hide Offset, After, Encoded;
    SpoilerEncoded(base, n);
    EncodedZeros(n);
    FromStart(base, flat, size);
    var zeros, text := ZeroBytes(n), SpoilerBytes(base, n);
    assert flat[..n] == text;
    forall k | 0 <= k < n ensures zeros[k] == flat[if base == 1 then 0 + k else Offset(0 + k, base)] {
      assert flat[..n][Offset(k, base)] == text[Offset(k, base)] == ZeroBytes(base)[Offset(k, base)];
    }
    BytewiseFrom(base, flat, size, 0, zeros);
    ListReadsBack(base, Cursor(flat, 0, size, 0), Zeros(n));
    assert Spoiler(base, n)[base] == 1 && Zeros(n)[base] == 0;
  }

  // ---------------------------------------------------------------- writing a list

  function WriteNumbers(c: Cursor, vs: seq<nat>, slacks: seq<Bytes>): Cursor
    requires |slacks| == |vs|
    decreases |vs|
  {
    if vs == [] then c else WriteNumbers(Written(c, Varint(vs[0]), slacks[0]), vs[1..], slacks[1..])
  }

  ghost predicate Growing(base: nat, c: Cursor, vs: seq<nat>, slacks: seq<Bytes>)
    requires |slacks| == |vs| && Sound(base, c)
    decreases |vs|
  {
    vs == []
    || (Possible(base, c, Put(Varint(vs[0]), slacks[0]))
        && (WrittenSound(base, c, Varint(vs[0]), slacks[0]);
            Growing(base, Written(c, Varint(vs[0]), slacks[0]), vs[1..], slacks[1..])))
  }

  /** Writing a list at a cursor that is right appends its encoding there. */
  lemma {:induction false} WritesEncoding(base: nat, c: Cursor, vs: seq<nat>, slacks: seq<Bytes>)
    requires |slacks| == |vs| && Sound(base, c) && Growing(base, c, vs, slacks) && c.place == c.position
    ensures var d := WriteNumbers(c, vs, slacks);
            && Sound(base, d) && d.place == d.position == c.position + |Encoded(vs)|
            && d.flat[..c.position] == c.flat[..c.position]
            && d.flat[c.position..d.position] == Encoded(vs)
    decreases |vs|
  {
    hide Varint, Sound, Possible;
    if vs != [] {
      WrittenSound(base, c, Varint(vs[0]), slacks[0]);
      WritesOne(base, c, Varint(vs[0]), slacks[0]);
      var e := Written(c, Varint(vs[0]), slacks[0]);
      WritesEncoding(base, e, vs[1..], slacks[1..]);
      var d := WriteNumbers(c, vs, slacks);
      SoundInside(base, d);
      Glue(c.flat, e.flat, d.flat, c.position, e.position, d.position);
    } else {
      SoundInside(base, c);
    }
  }

  lemma WritesOne(base: nat, c: Cursor, buf: Bytes, slack: Bytes)
    requires Sound(base, c) && Possible(base, c, Put(buf, slack)) && c.place == c.position && buf != []
    ensures var e := Written(c, buf, slack);
            && c.position <= |c.flat| && e.place == e.position == c.position + |buf| <= |e.flat|
            && e.flat[..c.position] == c.flat[..c.position] && e.flat[c.position..e.position] == buf
  {
    WrittenSound(base, c, buf, slack);
  }

  lemma Glue(a: Bytes, b: Bytes, c: Bytes, i: nat, j: nat, k: nat)
    requires i <= j <= k <= |c| && j <= |b| && i <= |a|
    requires b[..i] == a[..i] && c[..j] == b[..j]
    ensures c[..i] == a[..i] && c[i..k] == b[i..j] + c[j..k]
  {
    assert c[..j][..i] == c[..i] && b[..j][..i] == b[..i];
    assert c[..j][i..] == c[i..j] && b[..j][i..] == b[i..j];
  }

  // ---------------------------------------------------------------- write, go back, read

  /** A buffer with its cursor at the start: one that is new, that has been cleared, or that is rewound. */
  ghost predicate AtStart(base: nat, c: Cursor) { Sound(base, c) && c.place == c.position == 0 }

  /** Write a list, `setPosition(0)`, read as many numbers. */
  function WriteThenRead(base: nat, c: Cursor, vs: seq<nat>, slacks: seq<Bytes>): Results
    requires base > 0 && |slacks| == |vs|
  {
    ReadNumbers(base, Moved(WriteNumbers(c, vs, slacks), 0), |vs|)
  }

  /** After writing and going back the buffer begins with the encoding. */
  lemma WrittenBegins(base: nat, c: Cursor, vs: seq<nat>, slacks: seq<Bytes>)
    requires AtStart(base, c) && Words(vs) && |slacks| == |vs| && Growing(base, c, vs, slacks)
    ensures var d := WriteNumbers(c, vs, slacks);
            Moved(d, 0) == Cursor(d.flat, 0, d.size, 0) && Begins(base, d.flat, d.size, vs)
  {
    hide Encoded, WriteNumbers, Growing, Offset;
    WritesEncoding(base, c, vs, slacks);
    var d := WriteNumbers(c, vs, slacks);
    assert d.flat[0..d.position] == d.flat[..d.position];
  }

  /** A list can always be written. */
  lemma {:induction false} CanWrite(base: nat, c: Cursor, vs: seq<nat>) returns (slacks: seq<Bytes>)
    requires Sound(base, c)
    ensures |slacks| == |vs| && Growing(base, c, vs, slacks)
    decreases |vs|
  {
    hide Varint, Written, NodeCount, Start;
    if vs == [] {
      slacks := [];
    } else {
      var buf := Varint(vs[0]);
      var slack := ZeroBytes(Start(NodeCount(|buf|, |c.flat| - c.position, base), base));
      WrittenSound(base, c, buf, slack);
      var more := CanWrite(base, Written(c, buf, slack), vs[1..]);
      slacks := [slack] + more;
      assert slacks[1..] == more;
    }
  }

  /** Do all lists that take n bytes come back when they are written from the start of this buffer? */
  ghost predicate AllComeBack(base: nat, c: Cursor, n: nat)
    requires AtStart(base, c)
  {
    forall vs, slacks ::
      Words(vs) && |Encoded(vs)| == n && |slacks| == |vs| && Growing(base, c, vs, slacks) ==>
        WriteThenRead(base, c, vs, slacks) == Values(vs)
  }

  /** The round trip of lists of numbers, from the start of any buffer, holds if and only if the encoding fits the
      first node, or nodes are of one byte. */
  lemma RoundTripExactly(base: nat, c: Cursor, n: nat)
    requires AtStart(base, c)
    ensures AllComeBack(base, c, n) <==> n <= base || base == 1
  {
    assert base > 0;
    hide Begins, ReadNumbers, WriteNumbers, Moved, Sound, Growing, Words, Encoded, Spoiler;
    if n <= base || base == 1 {
      forall vs, slacks | Words(vs) && |Encoded(vs)| == n && |slacks| == |vs| && Growing(base, c, vs, slacks)
        ensures WriteThenRead(base, c, vs, slacks) == Values(vs)
      {
        WrittenBegins(base, c, vs, slacks);
        var d := WriteNumbers(c, vs, slacks);
        FitsReadsBack(base, d.flat, d.size, vs);
      }
    } else {
      var slacks := SpoilerRun(base, c, n);
    }
  }

  /** A run that does not give back what it wrote. */
  lemma SpoilerRun(base: nat, c: Cursor, n: nat) returns (slacks: seq<Bytes>)
    requires AtStart(base, c) && 1 < base < n
    ensures var vs := Spoiler(base, n);
            && Words(vs) && |Encoded(vs)| == n && |slacks| == |vs| && Growing(base, c, vs, slacks)
            && WriteThenRead(base, c, vs, slacks) != Values(vs)
  {
    hide Begins, ReadNumbers, WriteNumbers, Moved, Sound, Growing, Words, Encoded, Spoiler;
    var vs := Spoiler(base, n);
    SpoilerEncoded(base, n);
    slacks := CanWrite(base, c, vs);
    WrittenBegins(base, c, vs, slacks);
    var d := WriteNumbers(c, vs, slacks);
    SpoilerFails(base, n, d.flat, d.size);
  }

  // ---------------------------------------------------------------- on the byte array

  lemma StateFits(ba: ByteArray)
    requires ba.Valid()
    ensures ba.baseSize > 0 && ba.position <= |ba.flat| == ba.capacity
    ensures ba.State().flat == ba.flat && ba.State().position == ba.position
  {
  }

  lemma PossibleIs(base: nat, c: Cursor, buf: Bytes, slack: Bytes)
    requires base > 0 && c.position <= |c.flat|
    requires |slack| == Start(NodeCount(|buf|, |c.flat| - c.position, base), base)
    ensures Possible(base, c, Put(buf, slack))
  {
  }

  /** `readUint64` and `writeUint64` on the byte array itself. */
  method WriteUint64(ba: ByteArray, value: nat)
    requires ba.Valid() && value < TWO_64
    modifies ba.Repr()
    ensures ba.Valid() && |old(ba.flat)| <= |ba.flat| && fresh(ba.Repr() - old(ba.Repr()))
    ensures var slack := ba.flat[|old(ba.flat)|..];
            && old(ba.position) <= |old(ba.flat)| && Possible(ba.baseSize, old(ba.State()), Put(Varint(value), slack))
            && ba.State() == Written(old(ba.State()), Varint(value), slack)
  {
    hide Varint, Written, Start, NodeCount, Offset, Possible, ByteArray.Valid, ByteArray.State;
    StateFits(ba);
    ghost var c, had := ba.State(), |ba.flat|;
    var bytes := EncodeUint64(value);
    ba.Write(bytes);
    PossibleIs(ba.baseSize, c, bytes, ba.flat[had..]);
  }

  method ReadUint64(ba: ByteArray) returns (r: Results)
    requires ba.Valid()
    modifies ba`position, ba`cur, ba`at
    ensures ba.Valid()
    ensures match ReadNumber(ba.baseSize, old(ba.State()), 0, 0)
            case Value(v, d) => r == Values([v]) && ba.State() == d
            case Thrown => r == NoValues
  {
    hide AfterRead, Answer, ReadNumber, Pow;
    ghost var base, c0 := ba.baseSize, ba.State();
    var ans: nat, k: nat, power: nat := 0, 0, 1;
    assert Pow(0) == 1 by { PowNone(); }
    while k < 10
      invariant k <= 10 && power == Pow(k) && ba.Valid()
      invariant ReadNumber(base, c0, 0, 0) == ReadNumber(base, ba.State(), k, ans)
    {
      ghost var c := ba.State();
      var reply := ba.Read(1);
      if !reply.Ok? || |reply.bytes| != 1 {
        ReadNone(base, c, k, ans);
        return NoValues;
      }
      ReadOne(base, c, k, ans, reply.bytes[0]);
      PowStep(k);
      var b := reply.bytes[0] as int;
      ans := ans + (b % 128 * power) % TWO_64;
      if b < 128 {
        return Values([ans]);
      }
      k := k + 1;
      power := 128 * power;
    }
    ReadAll(base, ba.State(), k, ans);
    return Values([ans]);
  }

  lemma PowNone()
    ensures Pow(0) == 1
  {
  }

  lemma ReadNone(base: nat, c: Cursor, k: nat, ans: nat)
    requires base > 0 && k < 10 && (!Answer(c, 1).Ok? || |Answer(c, 1).bytes| != 1)
    ensures ReadNumber(base, c, k, ans) == Thrown
  {
    hide Answer, AfterRead;
  }

  lemma ReadAll(base: nat, c: Cursor, k: nat, ans: nat)
    requires base > 0 && k >= 10
    ensures ReadNumber(base, c, k, ans) == Value(ans, c)
  {
  }

  lemma {:induction false} WritesSnoc(base: nat, c: Cursor, vs: seq<nat>, slacks: seq<Bytes>, v: nat, slack: Bytes)
    requires |slacks| == |vs| && Sound(base, c) && Growing(base, c, vs, slacks)
    requires var d := WriteNumbers(c, vs, slacks);
             d.position <= |d.flat| && Possible(base, d, Put(Varint(v), slack))
    ensures Growing(base, c, vs + [v], slacks + [slack])
    ensures WriteNumbers(c, vs + [v], slacks + [slack]) == Written(WriteNumbers(c, vs, slacks), Varint(v), slack)
    decreases |vs|
  {
    hide Varint, Written, Sound, Possible;
    var all, extra := vs + [v], slacks + [slack];
    if vs == [] {
      assert all[1..] == [] && extra[1..] == [];
      WrittenSound(base, c, Varint(v), slack);
      assert Growing(base, Written(c, Varint(v), slack), all[1..], extra[1..]);
    } else {
      assert all[1..] == vs[1..] + [v] && extra[1..] == slacks[1..] + [slack];
      WrittenSound(base, c, Varint(vs[0]), slacks[0]);
      WritesSnoc(base, Written(c, Varint(vs[0]), slacks[0]), vs[1..], slacks[1..], v, slack);
    }
  }

  /** One number more, after those that have been written since the buffer was c. */
  method WriteNext(ba: ByteArray, v: nat, ghost c: Cursor, ghost done: seq<nat>, ghost slacks: seq<Bytes>)
    returns (ghost more: seq<Bytes>)
    requires ba.Valid() && v < TWO_64 && Sound(ba.baseSize, c) && |slacks| == |done|
    requires Growing(ba.baseSize, c, done, slacks) && ba.State() == WriteNumbers(c, done, slacks)
    modifies ba.Repr()
    ensures ba.Valid() && fresh(ba.Repr() - old(ba.Repr())) && |more| == |done + [v]|
    ensures Growing(ba.baseSize, c, done + [v], more) && ba.State() == WriteNumbers(c, done + [v], more)
  {
    hide *;
    ghost var had := |ba.flat|;
    StateFits(ba);
    WriteUint64(ba, v);
    ghost var slack := ba.flat[had..];
    WritesSnoc(ba.baseSize, c, done, slacks, v, slack);
    more := slacks + [slack];
  }

  /** Writing a list on the byte array itself. */
  method WriteAll(ba: ByteArray, vs: seq<nat>) returns (ghost slacks: seq<Bytes>)
    requires ba.Valid() && Words(vs)
    modifies ba.Repr()
    ensures ba.Valid() && |slacks| == |vs| && Sound(ba.baseSize, old(ba.State()))
    ensures Growing(ba.baseSize, old(ba.State()), vs, slacks)
    ensures ba.State() == WriteNumbers(old(ba.State()), vs, slacks)
  {
    hide *;
    StateFits(ba);
    ghost var c, repr := ba.State(), ba.Repr();
    ValidSound(ba);
    slacks := [];
    NothingWritten(ba.baseSize, c);
    assert vs[..0] == [];
    for i := 0 to |vs|
      invariant ba.Valid() && fresh(ba.Repr() - repr) && |slacks| == i && Growing(ba.baseSize, c, vs[..i], slacks)
      invariant ba.State() == WriteNumbers(c, vs[..i], slacks)
    {
      ghost var now := ba.Repr();
      WordAt(vs, i);
      slacks := WriteNext(ba, vs[i], c, vs[..i], slacks);
      assert fresh(now - repr);
      assert fresh(ba.Repr() - now);
      assert vs[..i + 1] == vs[..i] + [vs[i]];
    }
    assert vs[..|vs|] == vs;
  }

  lemma WordAt(vs: seq<nat>, i: nat)
    requires Words(vs) && i < |vs|
    ensures vs[i] < TWO_64
  {
  }

  lemma NothingWritten(base: nat, c: Cursor)
    requires Sound(base, c)
    ensures Growing(base, c, [], []) && WriteNumbers(c, [], []) == c
  {
  }

  /** Reading so many numbers, one after the other. */
  method ReadAllNumbers(ba: ByteArray, count: nat) returns (r: Results)
    requires ba.Valid()
    modifies ba`position, ba`cur, ba`at
    ensures ba.Valid() && r == ReadNumbers(ba.baseSize, old(ba.State()), count)
  {
    hide ReadNumber;
    ghost var base, c := ba.baseSize, ba.State();
    var numbers: seq<nat> := [];
    for i := 0 to count
      invariant ba.Valid() && |numbers| == i
      invariant ReadNumbers(base, c, count) == Before(numbers, ReadNumbers(base, ba.State(), count - i))
    {
      ghost var rest := ReadNumbers(base, ba.State(), count - i);
      var one := ReadUint64(ba);
      if one.NoValues? {
        return NoValues;
      }
      ghost var more := ReadNumbers(base, ba.State(), count - i - 1);
      assert rest == Before(one.numbers, more);
      BeforeBoth(numbers, one.numbers, more);
      numbers := numbers + one.numbers;
    }
    return Values(numbers);
  }

  function Before(numbers: seq<nat>, r: Results): Results {
    match r
    case NoValues => NoValues
    case Values(more) => Values(numbers + more)
  }

  lemma BeforeBoth(a: seq<nat>, b: seq<nat>, r: Results)
    ensures Before(a, Before(b, r)) == Before(a + b, r)
  {
    if r.Values? {
      assert a + (b + r.numbers) == a + b + r.numbers;
    }
  }

  /** What the test of the byte array does, with nodes of any size: write a list, go back to the start, and read
      it.  It comes back when its encoding fits the first node or nodes are of one byte. */
  method WriteAndRead(ba: ByteArray, vs: seq<nat>) returns (r: Results)
    requires ba.Valid() && ba.position == 0 && Words(vs)
    modifies ba.Repr()
    ensures ba.Valid() && AtStart(ba.baseSize, old(ba.State()))
    ensures exists slacks ::
              && |slacks| == |vs| && Growing(ba.baseSize, old(ba.State()), vs, slacks)
              && r == WriteThenRead(ba.baseSize, old(ba.State()), vs, slacks)
    ensures |Encoded(vs)| <= ba.baseSize || ba.baseSize == 1 ==> r == Values(vs)
  {
    hide Sound, Growing, WriteNumbers, Encoded, ReadNumbers, Moved, Words;
    ghost var base, c := ba.baseSize, ba.State();
    ghost var slacks := WriteAll(ba, vs);
    var ok := ba.SetPosition(0);
    r := ReadAllNumbers(ba, |vs|);
    RoundTripExactly(base, c, |Encoded(vs)|);
  }
}
