/** Bit operations on words given as numbers. */
module Bits {

  function Two(n: nat): (p: nat)
    ensures p > 0
  {
    if n == 0 then 1 else 2 * Two(n - 1)
  }

  /** Exclusive or of the n low bits. */
  function Xor(n: nat, x: nat, y: nat): (z: nat)
    ensures z < Two(n)
  {
    if n == 0 then 0 else (x % 2 + y % 2) % 2 + 2 * Xor(n - 1, x / 2, y / 2)
  }

  /** The binary digit of a number at place i. */
  predicate BitOf(x: nat, i: nat) { if i == 0 then x % 2 == 1 else BitOf(x / 2, i - 1) }

  /** Each bit of the result is set exactly when one of the two bits is. */
  lemma {:induction false} XorBit(n: nat, x: nat, y: nat, i: nat)
    requires i < n
    ensures BitOf(Xor(n, x, y), i) <==> BitOf(x, i) != BitOf(y, i)
    decreases n
  {
    var z, rest := (x % 2 + y % 2) % 2, Xor(n - 1, x / 2, y / 2);
    assert (z + 2 * rest) / 2 == rest && (z + 2 * rest) % 2 == z;
    if i > 0 {
      XorBit(n - 1, x / 2, y / 2, i - 1);
    }
  }

  lemma {:induction false} XorNothing(n: nat, x: nat)
    requires x < Two(n)
    ensures Xor(n, x, 0) == x
  {
    if n > 0 {
      XorNothing(n - 1, x / 2);
    }
  }

  lemma {:induction false} XorOnes(n: nat, x: nat)
    requires x < Two(n)
    ensures Xor(n, x, Two(n) - 1) == Two(n) - 1 - x
  {
    if n > 0 {
      var m := Two(n - 1);
      assert (2 * m - 1) / 2 == m - 1 && (2 * m - 1) % 2 == 1;
      var q, r := x / 2, x % 2;
      assert x == 2 * q + r && q < m;
      XorOnes(n - 1, q);
      assert (r + 1) % 2 == 1 - r;
    }
  }

  /** Applying a mask twice takes it off. */
  lemma {:induction false} XorTwice(n: nat, x: nat, y: nat)
    requires x < Two(n)
    ensures Xor(n, Xor(n, x, y), y) == x
  {
    if n > 0 {
      var q, r, z := x / 2, x % 2, (x % 2 + y % 2) % 2;
      var rest := Xor(n - 1, q, y / 2);
      assert x == 2 * q + r;
      assert (z + 2 * rest) / 2 == rest && (z + 2 * rest) % 2 == z;
      BitTwice(r, y % 2);
      XorTwice(n - 1, q, y / 2);
      hide Two;
    }
  }

  lemma BitTwice(r: nat, s: nat)
    requires r < 2 && s < 2
    ensures ((r + s) % 2 + s) % 2 == r
  {
  }

  /** A mask changes nothing exactly when it is nought. */
  lemma {:induction false} XorSame(n: nat, x: nat, y: nat)
    requires x < Two(n) && y < Two(n)
    ensures Xor(n, x, y) == x <==> y == 0
  {
    if n > 0 {
      var q, r, z := x / 2, x % 2, (x % 2 + y % 2) % 2;
      var rest := Xor(n - 1, q, y / 2);
      assert x == 2 * q + r && y == 2 * (y / 2) + y % 2;
      XorSame(n - 1, q, y / 2);
      assert z == r <==> y % 2 == 0;
      assert z + 2 * rest == 2 * q + r <==> z == r && rest == q;
    }
  }

  lemma {:induction false} TwoSum(a: nat, b: nat)
    ensures Two(a + b) == Two(a) * Two(b)
  {
    if a > 0 {
      TwoSum(a - 1, b);
    }
  }

  lemma TwoByte()
    ensures Two(8) == 256
  {
    assert Two(4) == 16;
  }
}
