/** Bitmaps: operations on blocks of 64 bits over words of 16 against a plain set of indices. */
module Bitmaps {
  import opened Options

  /** A 16-bit word, lowest bit first; four words in a row make a block of 64 bits. */
  type Word = w: seq<bool> | |w| == 16 witness seq(16, i => false)

  function Nought(): Word { seq(16, i => false) }

  /** The table `POS`: the word with one bit set. */
  function Pos(n: nat): Word
    requires n < 16
  {
    Nought()[n := true]
  }

  datatype Op = And | Or

  function Bit(op: Op, a: bool, b: bool): bool {
    match op case And => a && b case Or => a || b
  }

  function Join(op: Op, a: seq<bool>, b: seq<bool>): (c: seq<bool>)
    requires |a| == |b|
    ensures |c| == |a|
  {
    seq(|a|, i requires 0 <= i < |a| => Bit(op, a[i], b[i]))
  }

  function Flip(a: seq<bool>): (c: seq<bool>)
    ensures |c| == |a|
  {
    seq(|a|, i requires 0 <= i < |a| => !a[i])
  }

  predicate Any(a: seq<bool>) { exists i :: 0 <= i < |a| && a[i] }

  /** How many bits are set: `__builtin_popcount`. */
  function Count(a: seq<bool>): nat
    decreases |a|
  {
    if a == [] then 0 else Count(a[..|a| - 1]) + if a[|a| - 1] then 1 else 0
  }

  lemma {:induction false} CountAppend(a: seq<bool>, b: seq<bool>)
    ensures Count(a + b) == Count(a) + Count(b)
    decreases |b|
  {
    if b == [] {
      assert a + b == a;
    } else {
      var c := a + b;
      assert c[..|c| - 1] == a + b[..|b| - 1];
      CountAppend(a, b[..|b| - 1]);
    }
  }

  lemma {:induction false} CountNone(a: seq<bool>)
    ensures Count(a) == 0 <==> !Any(a)
    decreases |a|
  {
    if a != [] {
      var rest := a[..|a| - 1];
      CountNone(rest);
      if Any(rest) {
        var i :| 0 <= i < |rest| && rest[i];
        assert a[i];
      } else if Any(a) {
        var i :| 0 <= i < |a| && a[i];
        assert i < |rest| ==> rest[i];
      }
    }
  }

  // ---------------------------------------------------------------- words in a row

  function Flat(ws: seq<Word>): (bits: seq<bool>)
    ensures |bits| == 16 * |ws|
  {
    seq(16 * |ws|, i requires 0 <= i < 16 * |ws| => ws[i / 16][i % 16])
  }

  lemma FlatAt(ws: seq<Word>, i: nat)
    requires i < 16 * |ws|
    ensures i / 16 < |ws| && Flat(ws)[i] == ws[i / 16][i % 16]
  {
  }

  lemma FlatWord(ws: seq<Word>, k: nat)
    requires k < |ws|
    ensures Flat(ws)[16 * k..16 * k + 16] == ws[k]
  {
    forall i | 0 <= i < 16 ensures Flat(ws)[16 * k + i] == ws[k][i] {
      assert (16 * k + i) / 16 == k && (16 * k + i) % 16 == i;
    }
  }

  function Block(ws: seq<Word>, k: nat): (b: seq<bool>)
    requires 4 * k + 4 <= |ws|
    ensures |b| == 64
  {
    var first: seq<bool> := ws[4 * k];
    first + ws[4 * k + 1] + ws[4 * k + 2] + ws[4 * k + 3]
  }

  lemma FlatBlock(ws: seq<Word>, k: nat)
    requires 4 * k + 4 <= |ws|
    ensures Flat(ws)[64 * k..64 * k + 64] == Block(ws, k)
  {
    hide Flat;
    var f := Flat(ws);
    FlatWord(ws, 4 * k);
    FlatWord(ws, 4 * k + 1);
    FlatWord(ws, 4 * k + 2);
    FlatWord(ws, 4 * k + 3);
    Quarters(f, 64 * k);
  }

  lemma Quarters(f: seq<bool>, a: nat)
    requires a + 64 <= |f|
    ensures f[a..a + 64] == f[a..a + 16] + f[a + 16..a + 32] + f[a + 32..a + 48] + f[a + 48..a + 64]
  {
  }

  /** A word of a block. */
  function Part(b: seq<bool>, j: nat): Word
    requires |b| == 64 && j < 4
  {
    b[16 * j..16 * j + 16]
  }

  lemma JoinParts(op: Op, ws: seq<Word>, vs: seq<Word>, k: nat, j: nat)
    requires 4 * k + 4 <= |ws| && |ws| == |vs| && j < 4
    ensures Part(Join(op, Block(ws, k), Block(vs, k)), j) == Join(op, ws[4 * k + j], vs[4 * k + j])
  {
    hide Bit;
    BlockPart(ws, k, j);
    BlockPart(vs, k, j);
    var b, c := Block(ws, k), Block(vs, k);
    forall i | 0 <= i < 16 ensures Part(Join(op, b, c), j)[i] == Join(op, ws[4 * k + j], vs[4 * k + j])[i] {
      assert Part(b, j)[i] == b[16 * j + i] && Part(c, j)[i] == c[16 * j + i];
    }
  }

  lemma BlockPart(ws: seq<Word>, k: nat, j: nat)
    requires 4 * k + 4 <= |ws| && j < 4
    ensures Part(Block(ws, k), j) == ws[4 * k + j]
  {
  }

  lemma FlipParts(ws: seq<Word>, k: nat, j: nat)
    requires 4 * k + 4 <= |ws| && j < 4
    ensures Part(Flip(Block(ws, k)), j) == Flip(ws[4 * k + j])
  {
    BlockPart(ws, k, j);
    var b := Block(ws, k);
    forall i | 0 <= i < 16 ensures Part(Flip(b), j)[i] == Flip(ws[4 * k + j])[i] {
      assert Part(b, j)[i] == b[16 * j + i];
    }
  }

  lemma JoinBlock(op: Op, ws: seq<Word>, vs: seq<Word>, k: nat)
    requires 4 * k + 4 <= |ws| && |ws| == |vs|
    ensures var b := Join(op, Block(ws, k), Block(vs, k));
            && Part(b, 0) == Join(op, ws[4 * k], vs[4 * k])
            && Part(b, 1) == Join(op, ws[4 * k + 1], vs[4 * k + 1])
            && Part(b, 2) == Join(op, ws[4 * k + 2], vs[4 * k + 2])
            && Part(b, 3) == Join(op, ws[4 * k + 3], vs[4 * k + 3])
  {
    hide Part, Join, Block;
    JoinParts(op, ws, vs, k, 0);
    JoinParts(op, ws, vs, k, 1);
    JoinParts(op, ws, vs, k, 2);
    JoinParts(op, ws, vs, k, 3);
  }

  lemma FlipBlock(ws: seq<Word>, k: nat)
    requires 4 * k + 4 <= |ws|
    ensures var b := Flip(Block(ws, k));
            && Part(b, 0) == Flip(ws[4 * k]) && Part(b, 1) == Flip(ws[4 * k + 1])
            && Part(b, 2) == Flip(ws[4 * k + 2]) && Part(b, 3) == Flip(ws[4 * k + 3])
  {
    hide Part, Flip, Block;
    FlipParts(ws, k, 0);
    FlipParts(ws, k, 1);
    FlipParts(ws, k, 2);
    FlipParts(ws, k, 3);
  }

  lemma FlatJoin(op: Op, ws: seq<Word>, vs: seq<Word>, us: seq<Word>)
    requires |ws| == |vs| == |us| && forall j :: 0 <= j < |ws| ==> us[j] == Join(op, ws[j], vs[j])
    ensures Flat(us) == Join(op, Flat(ws), Flat(vs))
  {
    hide Bit;
  }

  lemma FlatFlip(ws: seq<Word>, us: seq<Word>)
    requires |ws| == |us| && forall j :: 0 <= j < |ws| ==> us[j] == Flip(ws[j])
    ensures Flat(us) == Flip(Flat(ws))
  {
  }

  lemma FlatUpdate(ws: seq<Word>, i: nat, v: bool)
    requires i < 16 * |ws|
    ensures Flat(ws[i / 16 := ws[i / 16][i % 16 := v]]) == Flat(ws)[i := v]
  {
    var us := ws[i / 16 := ws[i / 16][i % 16 := v]];
    forall j | 0 <= j < 16 * |ws| ensures Flat(us)[j] == Flat(ws)[i := v][j] {
      assert j == 16 * (j / 16) + j % 16 && i == 16 * (i / 16) + i % 16;
    }
  }

  // ---------------------------------------------------------------- counting

  function Most(a: nat, b: nat): nat { if a < b then b else a }

  function Least(a: nat, b: nat): nat { if a < b then a else b }

  function DataSize(size: nat): nat { (size + 15) / 16 }

  /** How far `getCount` looks: to the size, but to the end of the last whole block where that is further. */
  function Horizon(size: nat): (h: nat)
    ensures size <= h <= 16 * DataSize(size)
  {
    Most(size, DataSize(size) / 4 * 64)
  }

  function Counted(size: nat, bits: seq<bool>): nat
    requires |bits| == 16 * DataSize(size)
  {
    Count(bits[..Horizon(size)])
  }

  /** The count is that of the bits below the size exactly when none is set between the size and the end of the
      last whole block. */
  lemma CountExactly(size: nat, bits: seq<bool>)
    requires |bits| == 16 * DataSize(size)
    ensures Counted(size, bits) == Count(bits[..size]) <==> !Any(bits[size..Horizon(size)])
  {
    hide Count, Any, Horizon;
    var h := Horizon(size);
    assert bits[..h] == bits[..size] + bits[size..h];
    CountAppend(bits[..size], bits[size..h]);
    CountNone(bits[size..h]);
  }

  /** No bit is set at or above the size. */
  predicate Clean(size: nat, bits: seq<bool>)
    requires size <= |bits|
  {
    !Any(bits[size..])
  }

  lemma CleanAt(size: nat, bits: seq<bool>)
    requires size <= |bits|
    ensures Clean(size, bits) <==> forall i :: size <= i < |bits| ==> !bits[i]
  {
    assert forall i :: size <= i < |bits| ==> bits[size..][i - size] == bits[i];
  }

  function Indices(bits: seq<bool>, n: nat): set<nat>
    requires n <= |bits|
  {
    set i: nat | i < n && bits[i]
  }

  lemma IndicesNext(bits: seq<bool>, n: nat)
    requires n < |bits|
    ensures Indices(bits, n + 1) == Indices(bits, n) + if bits[n] then {n} else {}
    ensures n !in Indices(bits, n)
  {
  }

  lemma {:induction false} CountIndices(bits: seq<bool>, n: nat)
    requires n <= |bits|
    ensures Count(bits[..n]) == |Indices(bits, n)|
  {
    if n == 0 {
      assert Indices(bits, 0) == {};
    } else {
      hide *;
      CountIndices(bits, n - 1);
      CountNext(bits, n - 1);
      IndicesNext(bits, n - 1);
    }
  }

  /** The count of a clean bitmap is the number of indices below the size that are in it. */
  lemma CleanCount(size: nat, bits: seq<bool>)
    requires |bits| == 16 * DataSize(size) && Clean(size, bits)
    ensures Counted(size, bits) == |Indices(bits, size)|
  {
    hide Count, Counted, Horizon;
    CleanAt(size, bits);
    CountExactly(size, bits);
    CountIndices(bits, size);
    var above := bits[size..Horizon(size)];
    assert forall i :: 0 <= i < |above| ==> above[i] == bits[size + i];
  }

  /** Intersections and unions of clean bitmaps are clean. */
  lemma JoinClean(op: Op, size: nat, a: seq<bool>, b: seq<bool>)
    requires |a| == |b| && size <= |a| && Clean(size, a) && Clean(size, b)
    ensures Clean(size, Join(op, a, b))
  {
    CleanAt(size, a);
    CleanAt(size, b);
    CleanAt(size, Join(op, a, b));
  }

  /** `set` keeps a bitmap clean exactly when it sets no bit at or above the size. */
  lemma UpdateClean(size: nat, a: seq<bool>, i: nat, v: bool)
    requires size <= |a| && i < |a| && Clean(size, a)
    ensures Clean(size, a[i := v]) <==> i < size || !v
  {
    CleanAt(size, a);
    CleanAt(size, a[i := v]);
    assert a[i := v][i] == v;
  }

  /** The complement of a clean bitmap is clean exactly when the size is a whole number of words. */
  lemma FlipClean(size: nat, a: seq<bool>)
    requires |a| == 16 * DataSize(size) && Clean(size, a)
    ensures Clean(size, Flip(a)) <==> size % 16 == 0
  {
    CleanAt(size, a);
    CleanAt(size, Flip(a));
    if size % 16 != 0 {
      assert Flip(a)[size];
    }
  }

  // ---------------------------------------------------------------- the class

  lemma SameBlock(a: seq<Word>, b: seq<Word>, k: nat)
    requires |a| == |b| && 4 * k + 4 <= |a| && forall j :: 4 * k <= j < |a| ==> a[j] == b[j]
    ensures Block(a, k) == Block(b, k)
  {
  }

  lemma HorizonIs(size: nat)
    ensures var len, words := DataSize(size) / 4, DataSize(size);
            Horizon(size) == if words == len * 4 then 64 * len else Least(16 * words, size)
  {
  }

  lemma CountNothing(bits: seq<bool>)
    ensures Count(bits[..0]) == 0
  {
  }

  lemma CountPiece(bits: seq<bool>, from: nat, to: nat)
    requires from <= to <= |bits|
    ensures Count(bits[..to]) == Count(bits[..from]) + Count(bits[from..to])
  {
    assert bits[..to] == bits[..from] + bits[from..to];
    CountAppend(bits[..from], bits[from..to]);
  }

  lemma CountNext(bits: seq<bool>, i: nat)
    requires i < |bits|
    ensures Count(bits[..i + 1]) == Count(bits[..i]) + if bits[i] then 1 else 0
  {
    assert bits[..i + 1][..i] == bits[..i];
  }

  class Bitmap {
    var size: nat
    var data: array<Word>

    /** Room for `size` bits in whole words. */
    ghost predicate Valid()
      reads this
    {
      data.Length == DataSize(size)
    }

    ghost function Bits(): (bits: seq<bool>)
      reads this, data
      ensures |bits| == 16 * data.Length
    {
      Flat(data[..])
    }

    constructor (size: nat, def: seq<bool>)
      requires |def| == 8
      ensures Valid() && fresh(data) && this.size == size
      ensures forall i :: 0 <= i < |Bits()| ==> Bits()[i] == def[i % 8]
    {
      this.size := size;
      var word: Word := def + def;
      var d := new Word[DataSize(size)](i => word);
      data := d;
      new;
      forall i | 0 <= i < |Bits()| ensures Bits()[i] == def[i % 8] {
        FlatAt(data[..], i);
        assert i % 16 % 8 == i % 8;
      }
    }

    /** The copy constructor. */
    constructor Copy(rhs: Bitmap)
      requires rhs.Valid()
      ensures Valid() && fresh(data) && size == rhs.size && Bits() == rhs.Bits()
    {
      size := rhs.size;
      var d := new Word[rhs.data.Length](i requires 0 <= i < rhs.data.Length reads rhs, rhs.data => rhs.data[i]);
      data := d;
      new;
      assert data[..] == rhs.data[..];
    }

    /** `get`: None where the index is out of range. */
    method Get(idx: nat) returns (r: Option<bool>)
      requires Valid()
      ensures r == if idx < |Bits()| then Some(Bits()[idx]) else None
    {
      var cur, pos := idx / 16, idx % 16;
      if cur >= data.Length {
        return None;
      }
      FlatAt(data[..], idx);
      var hit := Join(And, data[cur], Pos(pos));
      assert hit[pos] == data[cur][pos];
      r := Some(exists i :: 0 <= i < 16 && hit[i]);
    }

    /** `set`: false where the index is out of range; it need not be below the size. */
    method Set(idx: nat, v: bool) returns (ok: bool)
      requires Valid()
      modifies data
      ensures ok <==> idx < |old(Bits())|
      ensures Bits() == if ok then old(Bits())[idx := v] else old(Bits())
    {
      var cur, pos := idx / 16, idx % 16;
      if cur >= data.Length {
        return false;
      }
      ghost var was := data[..];
      FlatUpdate(was, idx, v);
      var w: Word := if v then Join(Or, data[cur], Pos(pos)) else Join(And, data[cur], Flip(Pos(pos)));
      assert w == data[cur][pos := v];
      data[cur] := w;
      assert data[..] == was[cur := w];
      ok := true;
    }

    method HasAny() returns (r: bool)
      requires Valid()
      ensures r <==> Any(Bits())
    {
      var i := 0;
      while i < data.Length
        invariant 0 <= i <= data.Length
        invariant forall j :: 0 <= j < i ==> !Any(data[j])
      {
        if exists k :: 0 <= k < 16 && data[i][k] {
          ghost var k :| 0 <= k < 16 && data[i][k];
          FlatWord(data[..], i);
          assert Bits()[16 * i..16 * i + 16][k];
          assert Bits()[16 * i + k];
          return true;
        }
        i := i + 1;
      }
      forall k | 0 <= k < |Bits()| ensures !Bits()[k] {
        FlatAt(data[..], k);
        assert !Any(data[k / 16]);
      }
      r := false;
    }

    /** `getCount`: whole blocks, then the words that are left, bit by bit up to the size. */
    method GetCount() returns (count: nat)
      requires Valid()
      ensures count == Counted(size, Bits())
    {
      hide Count, Horizon, Flat;
      ghost var ws, bits := data[..], Bits();
      var len := data.Length / 4;
      count := 0;
      var curPos := 0;
      CountNothing(bits);
      for i := 0 to len
        invariant curPos == 64 * i && count == Count(bits[..64 * i])
      {
        var tmp := Block(data[..], i);
        FlatBlock(ws, i);
        count := count + (Count(tmp[..32]) + Count(tmp[32..]));
        assert tmp == tmp[..32] + tmp[32..];
        CountAppend(tmp[..32], tmp[32..]);
        curPos := curPos + 64;
        CountPiece(bits, 64 * i, 64 * i + 64);
      }
      for i := len * 4 to data.Length
        invariant i < data.Length ==> curPos == 16 * i
        invariant count == Count(bits[..if i == len * 4 then 64 * len else Least(16 * i, size)])
      {
        FlatWord(ws, i);
        assert 16 * i < size;
        count, curPos := CountWord(data[i], bits, count, curPos);
      }
      HorizonIs(size);
    }

    /** A word bit by bit as far as the size; a word without bits is passed over whole. */
    method CountWord(tmp: Word, ghost bits: seq<bool>, had: nat, from: nat) returns (count: nat, curPos: nat)
      requires from + 16 <= |bits| && bits[from..from + 16] == tmp && from < size
      requires had == Count(bits[..from])
      ensures count == Count(bits[..Least(from + 16, size)])
      ensures curPos == from + 16 || curPos == size < from + 16
    {
      hide Count;
      count, curPos := had, from;
      if exists k :: 0 <= k < 16 && tmp[k] {
        var n := 0;
        while n < 16 && curPos < size
          invariant 0 <= n <= 16 && curPos == from + n <= size
          invariant count == Count(bits[..curPos])
        {
          assert tmp[n] == bits[from..from + 16][n] == bits[curPos];
          CountNext(bits, curPos);
          if tmp[n] {
            count := count + 1;
          }
          n, curPos := n + 1, curPos + 1;
        }
      } else {
        ghost var to := Least(from + 16, size);
        CountPiece(bits, from, to);
        assert forall k :: 0 <= k < to - from ==> bits[from..to][k] == tmp[k];
        CountNone(bits[from..to]);
        curPos := curPos + 16;
      }
    }

    /** Four words at once. */
    method PutBlock(i: nat, block: seq<bool>)
      requires 4 * i + 4 <= data.Length && |block| == 64
      modifies data
      ensures forall j :: 0 <= j < data.Length && !(4 * i <= j < 4 * i + 4) ==> data[j] == old(data[j])
      ensures data[4 * i] == Part(block, 0) && data[4 * i + 1] == Part(block, 1)
      ensures data[4 * i + 2] == Part(block, 2) && data[4 * i + 3] == Part(block, 3)
    {
      hide Part;
      data[4 * i] := Part(block, 0);
      data[4 * i + 1] := Part(block, 1);
      data[4 * i + 2] := Part(block, 2);
      data[4 * i + 3] := Part(block, 3);
    }

    /** The loop over the whole blocks. */
    method CombineBlocks(op: Op, rhs: Bitmap)
      requires Valid() && rhs.Valid() && (rhs == this || rhs.data != data) && size == rhs.size
      modifies data
      ensures forall j :: 0 <= j < size / 64 * 4 ==> data[j] == Join(op, old(data[j]), old(rhs.data[j]))
      ensures forall j :: size / 64 * 4 <= j < data.Length ==>
              data[j] == old(data[j]) && rhs.data[j] == old(rhs.data[j])
    {
      hide Bit, Flat, Join, Part, Block;
      ghost var ws, vs := data[..], rhs.data[..];
      var maxSize := size / 64;
      for i := 0 to maxSize
        invariant forall j :: 0 <= j < 4 * i ==> data[j] == Join(op, ws[j], vs[j])
        invariant forall j :: 4 * i <= j < data.Length ==> data[j] == ws[j] && rhs.data[j] == vs[j]
      {
        SameBlock(data[..], ws, i);
        SameBlock(rhs.data[..], vs, i);
        JoinBlock(op, ws, vs, i);
        PutBlock(i, Join(op, Block(data[..], i), Block(rhs.data[..], i)));
      }
    }

    /** `operator&=` and `operator|=`, by whole blocks and then by words; false where the sizes differ. */
    method Combine(op: Op, rhs: Bitmap) returns (ok: bool)
      requires Valid() && rhs.Valid() && (rhs == this || rhs.data != data)
      modifies data
      ensures ok <==> size == rhs.size
      ensures ok ==> Bits() == Join(op, old(Bits()), old(rhs.Bits()))
      ensures !ok ==> Bits() == old(Bits())
    {
      if size != rhs.size {
        return false;
      }
      hide Bit, Flat, Join, Part, Block;
      ghost var ws, vs := data[..], rhs.data[..];
      CombineBlocks(op, rhs);
      for i := size / 64 * 4 to data.Length
        invariant forall j :: 0 <= j < i ==> data[j] == Join(op, ws[j], vs[j])
        invariant forall j :: i <= j < data.Length ==> data[j] == ws[j] && rhs.data[j] == vs[j]
      {
        data[i] := Join(op, data[i], rhs.data[i]);
      }
      FlatJoin(op, ws, vs, data[..]);
      ok := true;
    }

    /** `operator~` turns every bit of every word, those above the size included. */
    method Complement()
      requires Valid()
      modifies data
      ensures Bits() == Flip(old(Bits()))
    {
      hide Flat, Flip, Part, Block;
      ghost var ws := data[..];
      var maxSize := size / 64;
      for i := 0 to maxSize
        invariant forall j :: 0 <= j < 4 * i ==> data[j] == Flip(ws[j])
        invariant forall j :: 4 * i <= j < data.Length ==> data[j] == ws[j]
      {
        SameBlock(data[..], ws, i);
        FlipBlock(ws, i);
        PutBlock(i, Flip(Block(data[..], i)));
      }
      for i := maxSize * 4 to data.Length
        invariant forall j :: 0 <= j < i ==> data[j] == Flip(ws[j])
        invariant forall j :: i <= j < data.Length ==> data[j] == ws[j]
      {
        data[i] := Flip(data[i]);
      }
      FlatFlip(ws, data[..]);
    }
  }
}
