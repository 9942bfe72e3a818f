/** `ByteArray`: a linked list of equal buffers with a cursor, which is to act as one flat byte string.

    `flat` is that byte string, slack included.  The cursor is a node and the offset `position % baseSize`
    in it; `Where()` is the place of the string that it stands for.  It ought to be `position`, and is as
    long as no read stops at the end of a node in whose middle it began. */
module ByteArrays {
  import opened HttpSyntax

  // ---------------------------------------------------------------- flat strings

  function Overwrite(flat: Bytes, i: nat, s: Bytes): (r: Bytes)
    requires i + |s| <= |flat|
    ensures |r| == |flat|
  {
    flat[..i] + s + flat[i + |s|..]
  }

  lemma OverwriteTwice(flat: Bytes, i: nat, s: Bytes, t: Bytes)
    requires i + |s| + |t| <= |flat|
    ensures Overwrite(Overwrite(flat, i, s), i + |s|, t) == Overwrite(flat, i, s + t)
  {
  }

  lemma OverwriteNothing(flat: Bytes, i: nat)
    requires i <= |flat|
    ensures Overwrite(flat, i, []) == flat
  {
  }

  lemma Cat(flat: Bytes, w: nat, a: nat, b: nat)
    requires w + a + b <= |flat|
    ensures flat[w..w + a] + flat[w + a..w + a + b] == flat[w..w + a + b]
  {
    var x, y := flat[w..w + a] + flat[w + a..w + a + b], flat[w..w + a + b];
    forall i | 0 <= i < a + b ensures x[i] == y[i] {
      assert x[i] == flat[w + i];
    }
    assert x == y;
  }

  // ---------------------------------------------------------------- segments

  /** Where node i starts in the flat string. */
  function Start(i: nat, base: nat): nat { i * base }

  lemma Starts(i: nat, j: nat, base: nat)
    requires i < j
    ensures Start(i, base) + base == Start(i + 1, base) <= Start(j, base)
  {
    var d := j - i - 1;
    assert j * base == (i + 1) * base + d * base;
  }

  lemma StartNone(base: nat)
    ensures Start(0, base) == 0
  {
  }

  function Offset(p: nat, base: nat): (r: nat)
    requires base > 0
    ensures r < base
  {
    p % base
  }

  /** The number of the node that a position is in. */
  function Nth(p: nat, base: nat): nat
    requires base > 0
  {
    p / base
  }

  lemma Quotient(p: nat, base: nat)
    requires base > 0
    ensures p == Start(p / base, base) + Offset(p, base)
  {
  }

  lemma QuotientOf(q: nat, r: nat, base: nat)
    requires r < base
    ensures (Start(q, base) + r) / base == q && Offset(Start(q, base) + r, base) == r
  {
    var p := Start(q, base) + r;
    Quotient(p, base);
    var q1 := p / base;
    if q1 < q {
      Starts(q1, q, base);
    } else if q < q1 {
      Starts(q, q1, base);
    }
  }

  ghost predicate SegmentIs(flat: Bytes, i: nat, base: nat, s: Bytes) {
    Start(i, base) + base <= |flat| && flat[Start(i, base)..Start(i, base) + base] == s
  }

  lemma SegmentPiece(flat: Bytes, i: nat, base: nat, seg: Bytes, npos: nat, k: nat)
    requires SegmentIs(flat, i, base, seg) && npos + k <= base
    ensures Start(i, base) + npos + k <= |flat| && |seg| == base
    ensures seg[npos..npos + k] == flat[Start(i, base) + npos..Start(i, base) + npos + k]
  {
    hide Offset, Start;
    var s := Start(i, base);
    var a, b := seg[npos..npos + k], flat[s + npos..s + npos + k];
    forall i | 0 <= i < k ensures a[i] == b[i] {
      assert a[i] == seg[npos + i] == flat[s + (npos + i)];
    }
    assert a == b;
  }

  lemma SegmentHit(flat: Bytes, i: nat, base: nat, npos: nat, s: Bytes, was: Bytes, now: Bytes)
    requires SegmentIs(flat, i, base, was) && npos + |s| <= base
    requires now == was[..npos] + s + was[npos + |s|..]
    ensures Start(i, base) + npos + |s| <= |flat|
    ensures SegmentIs(Overwrite(flat, Start(i, base) + npos, s), i, base, now)
  {
    hide Offset, Start;
    var at := Start(i, base);
    var g := Overwrite(flat, at + npos, s);
    assert g[at..at + base] == now by {
      forall k | 0 <= k < base ensures g[at + k] == now[k] {
        assert was[k] == flat[at + k];
      }
    }
  }

  lemma SegmentMissed(flat: Bytes, i: nat, j: nat, base: nat, npos: nat, s: Bytes, seg: Bytes)
    requires SegmentIs(flat, j, base, seg) && i != j && npos + |s| <= base && Start(i, base) + base <= |flat|
    ensures SegmentIs(Overwrite(flat, Start(i, base) + npos, s), j, base, seg)
  {
    if i < j {
      Starts(i, j, base);
    } else {
      Starts(j, i, base);
    }
    hide Offset, Start;
    var at := Start(j, base);
    var g := Overwrite(flat, Start(i, base) + npos, s);
    assert g[at..at + base] == flat[at..at + base];
  }

  class Node {
    const data: array<Byte>
    var next: Node?

    constructor (s: nat)
      ensures data.Length == s && next == null && fresh(data)
    {
      data := new Byte[s];
      next := null;
    }
  }

  /** An `iovec`: a piece of a buffer. */
  datatype Iov = Iov(node: Node, off: nat, len: nat) {
    ghost function Bytes(): Bytes
      reads node.data
    {
      if off + len <= node.data.Length then node.data[off..off + len] else []
    }
  }

  datatype Reply = Ok(bytes: Bytes) | OutOfRange | NullPointer

  /** The state of a byte array in terms of its flat string; `place` is where the cursor stands. */
  datatype Cursor = Cursor(flat: Bytes, position: nat, size: nat, place: nat)

  /** Does reading n bytes from position p leave the cursor behind?  When the read begins inside a node and
      stops exactly at its end: the test compares the node's size with what is read, not with where it ends. */
  predicate Slips(base: nat, p: nat, n: nat)
    requires base > 0
  {
    Offset(p, base) != 0 && n == base - Offset(p, base)
  }

  function Max(a: nat, b: nat): nat { if a < b then b else a }

  /** Writing; `slack` is what the new nodes happen to hold.  If there was no room at all the cursor is put
      right by the growing. */
  function Written(c: Cursor, buf: Bytes, slack: Bytes): Cursor {
    var w := if |c.flat| == c.position then c.position else c.place;
    if buf == [] || w + |buf| > |c.flat| + |slack| then c
    else Cursor(Overwrite(c.flat + slack, w, buf), c.position + |buf|, Max(c.size, c.position + |buf|), w + |buf|)
  }

  predicate Extends(a: Bytes, b: Bytes) { |a| <= |b| && b[..|a|] == a }

  function Answer(c: Cursor, n: nat): Reply {
    if n > c.size - c.position then OutOfRange
    else if n == 0 && c.place >= |c.flat| then NullPointer
    else if c.place + n <= |c.flat| then Ok(c.flat[c.place..c.place + n])
    else NullPointer
  }

  function AfterRead(base: nat, c: Cursor, n: nat): Cursor
    requires base > 0
  {
    var place := c.place + n - (if Slips(base, c.position, n) then base else 0);
    if Answer(c, n).Ok? && place >= 0 then c.(position := c.position + n, place := place) else c
  }

  function Moved(c: Cursor, pos: nat): Cursor {
    if pos > |c.flat| then c else c.(position := pos, place := pos, size := Max(c.size, pos))
  }

  class ByteArray {
    const baseSize: nat
    var position: nat
    var capacity: nat
    var size: nat
    var root: Node
    var cur: Node?

    ghost var nodes: seq<Node>
    ghost var at: nat
    ghost var flat: Bytes

    ghost predicate LinkedAt(i: nat)
      reads this`nodes, nodes
    {
      i < |nodes| && nodes[i].next == if i + 1 < |nodes| then nodes[i + 1] else null
    }

    /** The list: its links and its buffers. */
    ghost predicate Chain()
      reads this`nodes, this`root, nodes
    {
      && baseSize > 0 && |nodes| > 0 && nodes[0] == root
      && (forall i :: 0 <= i < |nodes| ==> nodes[i].data.Length == baseSize)
      && (forall i :: 0 <= i < |nodes| ==> LinkedAt(i))
      && (forall i, j :: 0 <= i < j < |nodes| ==> nodes[i] != nodes[j] && nodes[i].data != nodes[j].data)
    }

    /** The list, and the cursor in it. */
    ghost predicate Listed()
      reads this`nodes, this`root, this`cur, this`at, nodes
    {
      Chain() && at <= |nodes| && cur == (if at < |nodes| then nodes[at] else null)
    }

    /** The buffers hold the flat string. */
    ghost predicate Holds()
      reads this`nodes, this`flat, set n | n in nodes :: n.data
    {
      && |flat| == Start(|nodes|, baseSize)
      && forall i :: 0 <= i < |nodes| ==> SegmentIs(flat, i, baseSize, nodes[i].data[..])
    }

    ghost function Where(): nat
      reads this`at, this`position
      requires baseSize > 0
    {
      Start(at, baseSize) + Offset(position, baseSize)
    }

    ghost predicate Valid()
      reads this, nodes, set n | n in nodes :: n.data
    {
      && Listed() && Holds()
      && capacity == |flat| && position <= size <= capacity
      && Where() <= position
    }

    ghost function State(): Cursor
      reads this`at, this`position, this`flat, this`size
      requires baseSize > 0
    {
      Cursor(flat, position, size, Where())
    }

    /** The cursor stands where the position says. */
    ghost predicate InStep()
      reads this`at, this`position
      requires baseSize > 0
    {
      Where() == position
    }

    ghost function Repr(): set<object>
      reads this`nodes
    {
      {this as object} + (set n: Node | n in nodes :: n as object) + (set n: Node | n in nodes :: n.data as object)
    }

    constructor (base: nat)
      requires base > 0
      ensures Valid() && InStep() && baseSize == base && capacity == base && position == size == 0
      ensures fresh(Repr())
    {
      baseSize := base;
      position, capacity, size := 0, base, 0;
      var first := new Node(base);
      root, cur := first, first;
      nodes, at, flat := [first], 0, first.data[..];
    }

    static method MemCpy(dst: array<Byte>, npos: nat, piece: Bytes)
      requires npos + |piece| <= dst.Length
      modifies dst
      ensures dst[..] == old(dst[..npos]) + piece + old(dst[npos + |piece|..])
    {
      forall k | 0 <= k < |piece| {
        dst[npos + k] := piece[k];
      }
    }

    /** The buffers other than the one under the cursor hold their part of a flat string. */
    ghost predicate HoldsRest(was: Bytes)
      reads this`nodes, this`at, set n | n in nodes :: n.data
    {
      && |was| == Start(|nodes|, baseSize)
      && forall i :: 0 <= i < |nodes| && i != at ==> SegmentIs(was, i, baseSize, nodes[i].data[..])
    }

    lemma HoldsAgain(was: Bytes, npos: nat, piece: Bytes, before: Bytes)
      requires HoldsRest(was) && at < |nodes| && nodes[at].data.Length == baseSize && npos + |piece| <= baseSize
      requires SegmentIs(was, at, baseSize, before)
      requires nodes[at].data[..] == before[..npos] + piece + before[npos + |piece|..]
      ensures Start(at, baseSize) + npos + |piece| <= |was|
      ensures flat == Overwrite(was, Start(at, baseSize) + npos, piece) ==> Holds()
    {
      SegmentHit(was, at, baseSize, npos, piece, before, nodes[at].data[..]);
      assert Start(at, baseSize) + baseSize <= |was|;
      hide SegmentIs, Overwrite, Start;
      forall i | 0 <= i < |nodes| && flat == Overwrite(was, Start(at, baseSize) + npos, piece)
        ensures SegmentIs(flat, i, baseSize, nodes[i].data[..])
      {
        if i != at {
          SegmentMissed(was, at, i, baseSize, npos, piece, nodes[i].data[..]);
        }
      }
    }

    lemma SplitHolds()
      requires Holds() && at < |nodes|
      ensures HoldsRest(flat) && SegmentIs(flat, at, baseSize, nodes[at].data[..])
    {
    }

    /** `memcpy` into the buffer under the cursor. */
    method CopyIn(npos: nat, piece: Bytes)
      requires Listed() && Holds() && at < |nodes| && npos + |piece| <= baseSize
      modifies nodes[at].data, this`flat
      ensures Start(at, baseSize) + npos + |piece| <= |old(flat)|
      ensures Listed() && Holds() && flat == Overwrite(old(flat), Start(at, baseSize) + npos, piece)
    {
      SplitHolds();
      hide SegmentIs, Overwrite, Holds, Start;
      ghost var was, before := flat, cur.data[..];
      MemCpy(cur.data, npos, piece);
      assert HoldsRest(was) by {
        forall i | 0 <= i < |nodes| && i != at ensures SegmentIs(was, i, baseSize, nodes[i].data[..]) {
          assert nodes[i].data != nodes[at].data;
        }
      }
      HoldsAgain(was, npos, piece, before);
      flat := Overwrite(flat, Start(at, baseSize) + npos, piece);
      HoldsAgain(was, npos, piece, before);
    }

    // -------------------------------------------------------------- growing

    method AppendNode(last: Node)
      requires Chain() && Holds() && last == nodes[|nodes| - 1] && capacity == |flat|
      modifies this`nodes, this`flat, this`capacity, last`next
      ensures Chain() && Holds() && capacity == |flat|
      ensures |nodes| == |old(nodes)| + 1 && nodes[..|old(nodes)|] == old(nodes)
      ensures last.next == nodes[|old(nodes)|]
      ensures fresh(nodes[|old(nodes)|]) && fresh(nodes[|old(nodes)|].data)
      ensures |flat| == |old(flat)| + baseSize && flat[..|old(flat)|] == old(flat)
    {
      var node := new Node(baseSize);
      ghost var n, was := |nodes|, flat;
      last.next := node;
      nodes := nodes + [node];
      flat := flat + node.data[..];
      capacity := capacity + baseSize;
      Starts(n, n + 1, baseSize);
      hide Offset, Start;
      forall i | 0 <= i < |nodes| ensures SegmentIs(flat, i, baseSize, nodes[i].data[..]) {
        if i < n {
          assert SegmentIs(was, i, baseSize, nodes[i].data[..]);
          assert flat[..|was|] == was;
          Prefixed(was, flat, Start(i, baseSize), baseSize);
        } else {
          assert flat[Start(n, baseSize)..Start(n, baseSize) + baseSize] == node.data[..];
        }
      }
      forall i | 0 <= i < |nodes| ensures LinkedAt(i) {
        if i < n - 1 {
          assert old(LinkedAt(i));
        }
      }
    }

    method FindLast() returns (last: Node)
      requires Chain()
      ensures last == nodes[|nodes| - 1]
    {
      var temp := root;
      ghost var j := 0;
      while temp.next != null
        invariant j < |nodes| && temp == nodes[j]
        decreases |nodes| - j
      {
        assert LinkedAt(j);
        temp := temp.next;
        j := j + 1;
      }
      assert LinkedAt(j);
      return temp;
    }

    /** What growing leaves as it was. */
    twostate predicate Grown(k: nat)
      reads this`nodes, this`flat, this`capacity
    {
      && |nodes| == |old(nodes)| + k && nodes[..|old(nodes)|] == old(nodes)
      && (forall i :: |old(nodes)| <= i < |nodes| ==> fresh(nodes[i]) && fresh(nodes[i].data))
      && |flat| == |old(flat)| + Start(k, baseSize) && flat[..|old(flat)|] == old(flat)
    }

    method AppendNodes(last: Node, k: nat) returns (first: Node?)
      requires Chain() && Holds() && last == nodes[|nodes| - 1] && capacity == |flat|
      modifies this`nodes, this`flat, this`capacity, last`next
      ensures Chain() && Holds() && capacity == |flat| && Grown(k)
      ensures first == if k == 0 then null else nodes[|old(nodes)|]
    {
      var temp := last;
      first := null;
      var i := 0;
      assert Start(0, baseSize) == 0;
      hide Offset, Start;
      while i < k
        invariant i <= k && Chain() && Holds() && capacity == |flat| && Grown(i)
        invariant temp == nodes[|nodes| - 1] && (i == 0 ==> temp == last)
        invariant i > 0 ==> fresh(temp)
        invariant first == if i == 0 then null else nodes[|old(nodes)|]
      {
        AppendNode(temp);
        if first == null {
          first := temp.next;
        }
        temp := temp.next;
        i := i + 1;
        Starts(i - 1, i, baseSize);
      }
    }

    /** New nodes at the end of the list; the cursor goes to the first of them when it had run off the list. */
    method Extend(k: nat, atEnd: bool)
      requires Listed() && Holds() && capacity == |flat| && k > 0 && (at == |nodes| ==> atEnd)
      modifies this`nodes, this`flat, this`capacity, this`cur, this`at, nodes[|nodes| - 1]
      ensures Listed() && Holds() && capacity == |flat| && Grown(k)
      ensures at == if atEnd then |old(nodes)| else old(at)
    {
      hide Offset, Start, Holds, Chain;
      SomeNode();
      var last := FindLast();
      var first := AppendNodes(last, k);
      if atEnd {
        cur := first;
        at := |old(nodes)|;
      }
    }

    /** Room for n more bytes after the position. */
    method AddCapacity(n: nat)
      requires Valid()
      modifies Repr()
      ensures Valid() && position == old(position) && size == old(size)
      ensures Grown(NodeCount(n, old(capacity) - old(position), baseSize))
      ensures capacity - position >= n
      ensures if n == 0 then at == old(at) else Where() == old(WritePlace())
      ensures fresh(Repr() - old(Repr()))
    {
      hide Offset, Start, Holds, Chain;
      StartNone(baseSize);
      if n == 0 {
        assert Grown(0);
        return;
      }
      var oldCap := capacity - position;
      if oldCap >= n {
        assert Grown(0);
        return;
      }
      SomeNode();
      Enough(n, oldCap, baseSize);
      var nodeCount := NodeCount(n, oldCap, baseSize);
      FlatLength();
      QuotientOf(|nodes|, 0, baseSize);
      Extend(nodeCount, oldCap == 0);
      FreshRepr(nodeCount);
    }

    twostate lemma FreshRepr(k: nat)
      requires Grown(k)
      ensures fresh(Repr() - old(Repr()))
    {
      forall n | n in nodes ensures n in old(nodes) || (fresh(n) && fresh(n.data)) {
        var i :| 0 <= i < |nodes| && nodes[i] == n;
        if i < |old(nodes)| {
          assert nodes[..|old(nodes)|][i] == old(nodes)[i];
        }
      }
      forall o | o in Repr() ensures o in old(Repr()) || fresh(o) {
        if o != this {
          var n :| n in nodes && (o == n || o == n.data);
        }
      }
    }

    lemma SomeNode()
      requires Chain()
      ensures |nodes| > 0 && nodes[|nodes| - 1] in nodes && baseSize > 0
    {
    }

    lemma FlatLength()
      requires Holds()
      ensures |flat| == Start(|nodes|, baseSize)
    {
    }

    // -------------------------------------------------------------- writing

    method Advance()
      requires Listed() && at < |nodes|
      modifies this`cur, this`at
      ensures Listed() && at == old(at) + 1
    {
      assert LinkedAt(at);
      cur := cur.next;
      at := at + 1;
    }

    /** The place after the position is the place the cursor stands for. */
    lemma WhereLess()
      requires Listed() && Holds() && Where() < |flat|
      ensures at < |nodes|
    {
      hide Offset, Start;
      FlatLength();
      assert Where() >= Start(at, baseSize);
    }

    /** One piece, which does not go beyond the buffer under the cursor. */
    method PutPiece(npos: nat, piece: Bytes)
      requires Listed() && Holds() && at < |nodes| && npos == Offset(position, baseSize)
      requires piece != [] && npos + |piece| <= baseSize
      modifies nodes[at].data, this`flat, this`position, this`cur, this`at
      ensures Listed() && Holds() && old(Where()) + |piece| <= |old(flat)|
      ensures flat == Overwrite(old(flat), old(Where()), piece)
      ensures position == old(position) + |piece| && Where() == old(Where()) + |piece|
    {
      hide Offset, Start, Overwrite;
      CopyIn(npos, piece);
      ModAdd(position, |piece|, baseSize);
      Starts(at, at + 1, baseSize);
      position := position + |piece|;
      hide Holds, Chain;
      if cur.data.Length == npos + |piece| {
        Advance();
      }
    }

    /** Where the next bytes will be written. */
    ghost function WritePlace(): nat
      reads this`at, this`position, this`capacity
      requires baseSize > 0
    {
      if capacity == position then position else Where()
    }

    /** The first bpos bytes of buf have been written from w on. */
    ghost predicate Progress(f0: Bytes, w: nat, buf: Bytes, bpos: nat)
      reads this`nodes, this`root, this`cur, this`at, this`flat, this`position, nodes, set n | n in nodes :: n.data
    {
      && Listed() && Holds() && w + |buf| <= |f0| && bpos <= |buf|
      && flat == Overwrite(f0, w, buf[..bpos]) && Where() == w + bpos
    }

    lemma Room(f0: Bytes, w: nat, buf: Bytes, bpos: nat)
      requires Progress(f0, w, buf, bpos) && bpos < |buf|
      ensures at < |nodes| && cur == nodes[at] && cur in nodes && cur.data.Length == baseSize > 0
    {
      hide Offset, Start, Overwrite;
      WhereLess();
    }

    /** One piece of the buffer, as far as the node goes at most. */
    method PutSome(npos: nat, buf: Bytes, bpos: nat, k: nat, ghost f0: Bytes, ghost w: nat)
      requires Progress(f0, w, buf, bpos) && 0 < k <= |buf| - bpos
      requires baseSize > 0 && npos == Offset(position, baseSize) && npos + k <= baseSize
      modifies this`flat, this`position, this`cur, this`at, set n | n in nodes :: n.data
      ensures Progress(f0, w, buf, bpos + k) && position == old(position) + k
      ensures npos + k == baseSize ==> Offset(position, baseSize) == 0
      ensures bpos + k < |buf| ==> cur != null && cur.data.Length == baseSize
    {
      Room(f0, w, buf, bpos);
      hide Offset, Start, Holds, Chain, Overwrite;
      ModAdd(position, k, baseSize);
      PutPiece(npos, buf[bpos..bpos + k]);
      Joined(f0, w, buf, bpos, k);
      if bpos + k < |buf| {
        Room(f0, w, buf, bpos + k);
      }
    }

    static lemma Joined(f0: Bytes, w: nat, buf: Bytes, bpos: nat, k: nat)
      requires bpos + k <= |buf| && w + |buf| <= |f0|
      ensures Overwrite(Overwrite(f0, w, buf[..bpos]), w + bpos, buf[bpos..bpos + k]) ==
              Overwrite(f0, w, buf[..bpos + k])
    {
      assert buf[..bpos + k] == buf[..bpos] + buf[bpos..bpos + k];
      OverwriteTwice(f0, w, buf[..bpos], buf[bpos..bpos + k]);
    }

    lemma NoProgress(buf: Bytes)
      requires Listed() && Holds() && Where() + |buf| <= |flat|
      ensures Progress(flat, Where(), buf, 0)
    {
      hide Offset, Start, Holds;
      assert buf[..0] == [];
      OverwriteNothing(flat, Where());
    }

    lemma AllProgress(f0: Bytes, w: nat, buf: Bytes)
      requires Progress(f0, w, buf, |buf|)
      ensures Listed() && Holds() && baseSize > 0 && flat == Overwrite(f0, w, buf) && Where() == w + |buf|
    {
      hide Offset, Start, Holds;
      assert buf[..|buf|] == buf;
    }

    method PutAll(buf: Bytes)
      requires Listed() && Holds() && Where() + |buf| <= |flat| && buf != []
      modifies this`flat, this`position, this`cur, this`at, set n | n in nodes :: n.data
      ensures Listed() && Holds()
      ensures flat == Overwrite(old(flat), old(Where()), buf)
      ensures position == old(position) + |buf| && Where() == old(Where()) + |buf|
    {
      ghost var f0, w, p0 := flat, Where(), position;
      NoProgress(buf);
      hide *;
      Room(f0, w, buf, 0);
      var npos := Offset(position, baseSize);
      var ncap := cur.data.Length - npos;
      var bpos: nat, left: nat := 0, |buf|;
      while left > 0
        invariant bpos + left == |buf| && position == p0 + bpos && Progress(f0, w, buf, bpos)
        invariant left > 0 ==> cur != null && npos == Offset(position, baseSize) && ncap == baseSize - npos
      {
        if ncap >= left {
          PutSome(npos, buf, bpos, left, f0, w);
          bpos := bpos + left;
          left := 0;
        } else {
          PutSome(npos, buf, bpos, ncap, f0, w);
          bpos := bpos + ncap;
          left := left - ncap;
          ncap := cur.data.Length;
          npos := 0;
        }
      }
      AllProgress(f0, w, buf);
    }

    /** Growing for a write: the old string stays, and the cursor stands where the write will begin. */
    method GrowFor(n: nat)
      requires Valid() && n > 0
      modifies Repr()
      ensures Valid() && fresh(Repr() - old(Repr())) && baseSize > 0
      ensures position == old(position) && size == old(size) && position + n <= capacity
      ensures |flat| == |old(flat)| + Start(NodeCount(n, old(capacity) - old(position), baseSize), baseSize)
      ensures Extends(old(flat), flat) && Where() == old(WritePlace())
    {
      hide Offset, Start, Holds, Chain, Where;
      Ends();
      AddCapacity(n);
    }

    method WriteSome(buf: Bytes)
      requires Valid() && buf != []
      modifies Repr()
      ensures Valid() && fresh(Repr() - old(Repr()))
      ensures position == old(position) + |buf| && size == Max(old(size), position)
      ensures |flat| == |old(flat)| + Start(NodeCount(|buf|, old(capacity) - old(position), baseSize), baseSize)
      ensures |old(flat)| <= |flat| && State() == Written(old(State()), buf, flat[|old(flat)|..])
    {
      hide *;
      Ends();
      PlaceOf();
      ghost var w, c0 := WritePlace(), State();
      GrowFor(|buf|);
      ghost var now := flat;
      WriteInside(buf);
      GrownWritten(c0, now, w, buf);
    }

    lemma PlaceOf()
      requires Valid()
      ensures State().flat == flat && State().position == position && State().size == size
      ensures WritePlace() == if |flat| == position then position else State().place
    {
    }

    lemma NothingWritten()
      requires Valid()
      ensures State() == Written(State(), [], flat[|flat|..])
    {
    }

    /** Writes at the cursor, growing as needed.  A cursor that lags behind the position writes where it
        stands, not at the position; but if there is no room at all it is put right first. */
    method Write(buf: Bytes)
      requires Valid()
      modifies Repr()
      ensures Valid() && fresh(Repr() - old(Repr()))
      ensures position == old(position) + |buf| && size == if old(size) < position then position else old(size)
      ensures |flat| == |old(flat)| + Start(NodeCount(|buf|, old(capacity) - old(position), baseSize), baseSize)
      ensures |old(flat)| <= |flat| && State() == Written(old(State()), buf, flat[|old(flat)|..])
    {
      if |buf| == 0 {
        StartNone(baseSize);
        NothingWritten();
        return;
      }
      hide *;
      WriteSome(buf);
    }

    /** Writing when there is room. */
    method WriteInside(buf: Bytes)
      requires Valid() && buf != [] && position + |buf| <= capacity
      modifies Repr()
      ensures Valid() && baseSize > 0 && Repr() == old(Repr())
      ensures position == old(position) + |buf| && size == Max(old(size), position)
      ensures old(Where()) + |buf| <= |old(flat)| && flat == Overwrite(old(flat), old(Where()), buf)
      ensures State() == Cursor(flat, position, size, old(Where()) + |buf|)
    {
      InRepr();
      Ends();
      hide Offset, Start, Holds, Chain, Overwrite, Listed, Repr;
      PutAll(buf);
      if position > size {
        size := position;
      }
    }

    lemma InRepr()
      ensures forall n :: n in nodes ==> n.data in Repr() && n in Repr()
      ensures this in Repr()
    {
    }

    lemma Ends()
      requires Valid()
      ensures Listed() && Holds() && baseSize > 0 && Where() <= position && capacity == |flat|
    {
    }

    static lemma GrownWritten(c: Cursor, now: Bytes, w: nat, buf: Bytes)
      requires Extends(c.flat, now) && w + |buf| <= |now| && buf != []
      requires w == if |c.flat| == c.position then c.position else c.place
      ensures var f := Overwrite(now, w, buf);
              |c.flat| <= |f| == |now| &&
              Written(c, buf, f[|c.flat|..]) ==
                  Cursor(f, c.position + |buf|, Max(c.size, c.position + |buf|), w + |buf|)
    {
      var was, f := c.flat, Overwrite(now, w, buf);
      assert Overwrite(was + f[|was|..], w, buf) == f;
    }

    // -------------------------------------------------------------- reading

    lemma PieceIs(npos: nat, k: nat)
      requires Listed() && Holds() && at < |nodes| && npos == Offset(position, baseSize) && npos + k <= baseSize
      ensures Where() + k <= |flat| && nodes[at].data[npos..npos + k] == flat[Where()..Where() + k]
    {
      hide Offset, Start, Holds;
      PieceAt(at, npos, k);
    }

    /** Reads the rest of the buffer under the cursor, or a part of what comes from it at a stretch. */
    method GetPiece(npos: nat, k: nat, leave: bool) returns (piece: Bytes)
      requires Listed() && Holds() && at < |nodes| && npos == Offset(position, baseSize) && npos + k <= baseSize
      requires k > 0
      requires leave ==> npos + k == baseSize
      modifies this`position, this`cur, this`at
      ensures Listed() && Holds() && position == old(position) + k
      ensures old(Where()) + k <= |flat| && piece == flat[old(Where())..old(Where()) + k]
      ensures Where() == old(Where()) + k - (if npos + k == baseSize && !leave then baseSize else 0)
    {
      PieceIs(npos, k);
      hide Offset, Start, Holds, Chain;
      piece := cur.data[npos..npos + k];
      ModAdd(position, k, baseSize);
      Starts(at, at + 1, baseSize);
      position := position + k;
      if leave {
        Advance();
      }
    }

    /** All but the last `left` bytes of n have been read, from place w and position p0 on. */
    ghost predicate Fetched(p0: nat, w: nat, n: nat, left: nat, buf: Bytes)
      reads this`nodes, this`root, this`cur, this`at, this`flat, this`position, nodes, set n | n in nodes :: n.data
    {
      && Listed() && Holds() && left <= n && position == p0 + n - left && w + n <= |flat|
      && Where() == w + n - left - (if left == 0 && Slips(baseSize, p0, n) then baseSize else 0)
      && buf == flat[w..w + n - left]
      && (0 < left < n ==> Offset(position, baseSize) == 0 && n - left >= baseSize - Offset(p0, baseSize))
    }

    lemma MoreToFetch(p0: nat, w: nat, n: nat, left: nat, buf: Bytes)
      requires Fetched(p0, w, n, left, buf) && left > 0
      ensures at < |nodes| && cur == nodes[at] && cur.data.Length == baseSize > 0
    {
      hide Offset, Start;
      Here();
    }

    static lemma SliceMore(s: Bytes, a: nat, b: nat, c: nat)
      requires a <= b <= c <= |s|
      ensures s[a..b] + s[b..c] == s[a..c]
    {
    }

    method FetchNode(npos: nat, left: nat, buf: Bytes, ghost p0: nat, ghost w: nat, ghost n: nat) returns (more: Bytes)
      requires Fetched(p0, w, n, left, buf) && left > 0 && baseSize > 0 && npos == Offset(position, baseSize)
      requires baseSize - npos < left
      modifies this`position, this`cur, this`at
      ensures Fetched(p0, w, n, left - (baseSize - npos), more)
    {
      MoreToFetch(p0, w, n, left, buf);
      hide Offset, Start, Holds, Chain, Listed;
      ModAdd(position, baseSize - npos, baseSize);
      SliceMore(flat, w, w + n - left, w + n - left + (baseSize - npos));
      var piece := GetPiece(npos, baseSize - npos, true);
      more := buf + piece;
    }

    method FetchLast(npos: nat, left: nat, buf: Bytes, ghost p0: nat, ghost w: nat, ghost n: nat) returns (more: Bytes)
      requires Fetched(p0, w, n, left, buf) && left > 0 && baseSize > 0 && npos == Offset(position, baseSize)
      requires npos + left <= baseSize
      modifies this`position, this`cur, this`at
      ensures Fetched(p0, w, n, 0, more)
    {
      MoreToFetch(p0, w, n, left, buf);
      hide Offset, Start, Holds, Chain, Listed;
      SliceMore(flat, w, w + n - left, w + n);
      var piece := GetPiece(npos, left, cur.data.Length == left);
      more := buf + piece;
    }

    method ReadAll(n: nat) returns (buf: Bytes)
      requires Listed() && Holds() && Where() + n <= |flat| && n > 0
      modifies this`position, this`cur, this`at
      ensures Listed() && Holds() && position == old(position) + n
      ensures buf == flat[old(Where())..old(Where()) + n]
      ensures Where() == old(Where()) + n - (if Slips(baseSize, old(position), n) then baseSize else 0)
    {
      ghost var w, p0 := Where(), position;
      assert Fetched(p0, w, n, n, []) by { hide Offset, Start, Chain, Holds; }
      MoreToFetch(p0, w, n, n, []);
      hide Offset, Start, Holds, Chain, Listed;
      var npos := Offset(position, baseSize);
      var ncap := cur.data.Length - npos;
      var left: nat := n;
      buf := [];
      while left > 0
        invariant Fetched(p0, w, n, left, buf) && baseSize > 0
        invariant left > 0 ==> npos == Offset(position, baseSize) && ncap == baseSize - npos
      {
        if ncap >= left {
          buf := FetchLast(npos, left, buf, p0, w, n);
          left := 0;
        } else {
          buf := FetchNode(npos, left, buf, p0, w, n);
          left := left - ncap;
          npos := 0;
          MoreToFetch(p0, w, n, left, buf);
          ncap := cur.data.Length;
        }
      }
    }

    lemma Here()
      requires Listed() && Holds() && Where() < |flat|
      ensures at < |nodes| && cur == nodes[at] && cur.data.Length == baseSize
    {
      WhereLess();
    }

    /** Reads at the cursor.  What comes back is the string from where the cursor stands. */
    method Read(n: nat) returns (r: Reply)
      requires Valid()
      modifies this`position, this`cur, this`at
      ensures Valid() && r == Answer(old(State()), n) && State() == AfterRead(baseSize, old(State()), n)
    {
      hide Offset, Start, Holds, Chain;
      Ends();
      if n > size - position {
        return OutOfRange;
      }
      NullAtEnd();
      if cur == null {
        return NullPointer;
      }
      if n == 0 {
        StaysPut();
        return Ok([]);
      }
      var buf := ReadAll(n);
      return Ok(buf);
    }

    lemma StaysPut()
      requires Valid()
      ensures !Slips(baseSize, position, 0)
    {
    }

    lemma NullAtEnd()
      requires Valid()
      ensures cur == null <==> Where() >= |flat|
      ensures cur == null ==> position == |flat|
    {
      FlatLength();
      if at < |nodes| {
        Starts(at, |nodes|, baseSize);
      }
      hide Offset, Start;
      assert Where() >= Start(at, baseSize);
    }

    // -------------------------------------------------------------- moving the cursor

    /** There is a next node as long as the end has not been reached. */
    lemma NextNode(left: nat, pos: nat)
      requires Listed() && Holds() && at < |nodes| && Start(at, baseSize) + left == pos <= |flat| && left > baseSize
      ensures at + 1 < |nodes|
    {
      hide Offset, Start, Chain;
      FlatLength();
      Starts(at, at + 1, baseSize);
    }

    /** Walks from the root to the node that a position is in. */
    method Seek(pos: nat)
      requires Listed() && Holds() && pos <= |flat|
      modifies this`cur, this`at
      ensures Listed() && Start(at, baseSize) + Offset(pos, baseSize) == pos
    {
      cur := root;
      at := 0;
      StartNone(baseSize);
      assert Listed() && cur.data.Length == baseSize > 0;
      hide Offset, Start, Holds, Chain;
      var left: nat := pos;
      while left > cur.data.Length
        invariant Listed() && Holds() && at < |nodes| && left + Start(at, baseSize) == pos
        invariant cur.data.Length == baseSize
        decreases |nodes| - at
      {
        NextNode(left, pos);
        Starts(at, at + 1, baseSize);
        Advance();
        CurLength();
        left := left - cur.data.Length;
      }
      Starts(at, at + 1, baseSize);
      if left == cur.data.Length {
        QuotientOf(at + 1, 0, baseSize);
        Advance();
      } else {
        QuotientOf(at, left, baseSize);
      }
    }

    lemma CurLength()
      requires Listed() && at < |nodes|
      ensures cur.data.Length == baseSize
    {
    }

    /** Moves the cursor, which puts it right whatever it was. */
    method SetPosition(pos: nat) returns (ok: bool)
      requires Valid()
      modifies this`position, this`size, this`cur, this`at
      ensures Valid() && ok == (pos <= capacity) && State() == Moved(old(State()), pos)
    {
      Ends();
      hide Offset, Start, Holds, Chain, Listed;
      if pos > capacity {
        return false;
      }
      position := pos;
      if position > size {
        size := position;
      }
      Seek(pos);
      return true;
    }

    /** Gives back all nodes but the first. */
    method Clear()
      requires Valid()
      modifies this, root`next
      ensures Valid() && capacity == baseSize && nodes == [root] && root == old(root)
      ensures baseSize <= |old(flat)| && State() == Cursor(old(flat)[..baseSize], 0, 0, 0)
    {
      Ends();
      DeleteRest();
      assert root.data.Length == baseSize by { assert nodes[0] == root; }
      hide Offset, Start, Holds, Chain, Listed;
      position, size := 0, 0;
      capacity := baseSize;
      cur := root;
      root.next := null;
      nodes, at := [root], 0;
      flat := flat[..baseSize];
      OneNode();
    }

    lemma OneNode()
      requires baseSize > 0 && nodes == [root] && root.data.Length == baseSize && root.next == null
      requires cur == root && at == 0 && flat == root.data[..] && position == 0
      ensures Listed() && Holds() && Where() == 0
    {
      StartNone(baseSize);
      assert LinkedAt(0);
      assert Start(1, baseSize) == baseSize;
      assert SegmentIs(flat, 0, baseSize, root.data[..]);
    }

    /** Walks over the nodes to be given back. */
    method DeleteRest()
      requires Chain() && Holds()
      ensures |flat| >= baseSize && flat[..baseSize] == root.data[..]
    {
      assert SegmentIs(flat, 0, baseSize, nodes[0].data[..]);
      StartNone(baseSize);
      assert LinkedAt(0);
      var next := root.next;
      ghost var j := 1;
      while next != null
        invariant 1 <= j <= |nodes| && next == (if j < |nodes| then nodes[j] else null)
        decreases |nodes| - j
      {
        assert LinkedAt(j);
        next := next.next;
        j := j + 1;
      }
    }

    // -------------------------------------------------------------- reading elsewhere

    /** What the unsigned subtraction `m_size - position` comes to. */
    function Avail(pos: nat): (n: nat)
      reads this`size
    {
      (size - pos) % 0x1_0000_0000_0000_0000
    }

    /** Walks `pos / baseSize` nodes from the root; null when that leads off the list or to its end. */
    method NodeAt(pos: nat) returns (node: Node?, ghost j: nat)
      requires Chain() && Holds()
      ensures node == null <==> pos >= |flat|
      ensures pos < |flat| ==> j < |nodes| && node == nodes[j] && Start(j, baseSize) + Offset(pos, baseSize) == pos
      ensures pos < |flat| ==> j == Nth(pos, baseSize)
    {
      Quotient(pos, baseSize);
      ghost var count := pos / baseSize;
      var left: nat := pos / baseSize;
      node := root;
      j := 0;
      CountBelow(count, pos);
      while left > 0 && node != null
        invariant j + left == count && (if j < |nodes| then node == nodes[j] else node == null) && j <= |nodes|
      {
        assert LinkedAt(j);
        node := node.next;
        left, j := left - 1, j + 1;
      }
    }

    lemma CountBelow(count: nat, pos: nat)
      requires Holds() && baseSize > 0 && Start(count, baseSize) + Offset(pos, baseSize) == pos
      ensures count < |nodes| <==> pos < |flat|
    {
      if count < |nodes| {
        Starts(count, |nodes|, baseSize);
      } else if count > |nodes| {
        Starts(|nodes|, count, baseSize);
      }
    }

    lemma PieceAt(j: nat, npos: nat, k: nat)
      requires Chain() && Holds() && j < |nodes| && npos + k <= baseSize
      ensures Start(j, baseSize) + npos + k <= |flat|
      ensures nodes[j].data[npos..npos + k] == flat[Start(j, baseSize) + npos..Start(j, baseSize) + npos + k]
    {
      assert SegmentIs(flat, j, baseSize, nodes[j].data[..]);
      SegmentPiece(flat, j, baseSize, nodes[j].data[..], npos, k);
      assert nodes[j].data[npos..npos + k] == nodes[j].data[..][npos..npos + k];
    }

    /** The node after j, if the string goes on. */
    lemma After(j: nat)
      requires Chain() && Holds() && j < |nodes|
      ensures nodes[j].next == null <==> |flat| == Start(j + 1, baseSize)
      ensures nodes[j].next != null ==> j + 1 < |nodes| && nodes[j].next == nodes[j + 1]
      ensures nodes[j].data.Length == baseSize > 0 && Start(j, baseSize) + baseSize == Start(j + 1, baseSize) <= |flat|
    {
      assert LinkedAt(j);
      Starts(j, j + 1, baseSize);
      if j + 1 < |nodes| {
        Starts(j + 1, |nodes|, baseSize);
      }
    }

    /** Reads at a position of the caller's choice, whatever the cursor.  A position beyond the size passes the
        check, because the subtraction wraps; and a position at the very end is a null dereference even when
        nothing is to be read. */
    method ReadAt(n: nat, pos: nat) returns (r: Reply)
      requires Valid()
      ensures r.OutOfRange? <==> n > Avail(pos)
      ensures r.NullPointer? <==> n <= Avail(pos) && (pos >= capacity || pos + n > capacity)
      ensures r.Ok? ==> pos + n <= |flat| && r.bytes == flat[pos..pos + n]
    {
      Ends();
      hide Holds, Chain, Start;
      if n > Avail(pos) {
        return OutOfRange;
      }
      var npos := Offset(pos, baseSize);
      var cur, j := NodeAt(pos);
      if cur == null {
        return NullPointer;
      }
      r := ReadFrom(cur, npos, n, j, pos);
    }

    method ReadFrom(first: Node, npos0: nat, n: nat, ghost j0: nat, ghost pos: nat) returns (r: Reply)
      requires Chain() && Holds() && j0 < |nodes| && first == nodes[j0] && baseSize > 0 && npos0 < baseSize
      requires Start(j0, baseSize) + npos0 == pos
      ensures !r.OutOfRange? && (r.Ok? <==> pos + n <= |flat|)
      ensures r.Ok? ==> r.bytes == flat[pos..pos + n]
    {
      hide Holds, Chain, Start;
      var cur, npos: nat, left: nat := first, npos0, n;
      ghost var j: nat := j0;
      After(j);
      var ncap := cur.data.Length - npos;
      var buf := [];
      while left > 0
        invariant left <= n && |buf| == n - left && pos + |buf| <= |flat| && buf == flat[pos..pos + |buf|]
        invariant left > 0 ==>
                    j < |nodes| && cur == nodes[j] && ncap == baseSize - npos && npos < baseSize
                    && Start(j, baseSize) + npos == pos + |buf| && cur.data.Length == baseSize
        decreases left
      {
        After(j);
        var k := if ncap >= left then left else ncap;
        PieceAt(j, npos, k);
        ghost var was := |buf|;
        buf := buf + cur.data[npos..npos + k];
        Cat(flat, pos, was, k);
        if ncap >= left {
          left := 0;
        } else {
          left := left - ncap;
          npos := 0;
          if cur.next == null {
            return NullPointer;
          }
          cur := cur.next;
          j := j + 1;
          After(j);
          ncap := cur.data.Length;
        }
      }
      return Ok(buf);
    }

    // -------------------------------------------------------------- scatter and gather

    /** The vectors that the loop of the three get-buffers functions makes for `len` bytes, from offset npos of
        node j.  The loop never takes what a vector covers off `len`: when the rest of the first node is not
        enough, the next one is asked for all of `len` again. */
    ghost predicate Vectors(j: nat, npos: nat, len: nat, r: seq<Iov>)
      reads this`nodes
    {
      if npos + len <= baseSize then j < |nodes| && r == [Iov(nodes[j], npos, len)]
      else
        && len <= baseSize && npos <= baseSize && j + 1 < |nodes|
        && r == [Iov(nodes[j], npos, baseSize - npos), Iov(nodes[j + 1], 0, len)]
    }

    method Collect(first: Node, npos0: nat, len: nat, ghost j0: nat) returns (ok: bool, r: seq<Iov>)
      requires Chain() && Holds() && j0 < |nodes| && first == nodes[j0] && baseSize > 0 && npos0 < baseSize
      requires 0 < len
      ensures ok ==> Vectors(j0, npos0, len, r)
      ensures ok <==> npos0 + len <= baseSize || (len <= baseSize && j0 + 1 < |nodes|)
    {
      hide Holds, Chain, Start;
      var cur, npos: nat, left: nat := first, npos0, len;
      ghost var j: nat := j0;
      After(j);
      var ncap := cur.data.Length - npos;
      r := [];
      while left > 0
        invariant left == 0 || left == len
        invariant left == 0 ==> Vectors(j0, npos0, len, r)
        invariant left > 0 ==>
                    j0 <= j < |nodes| && cur == nodes[j] && ncap == baseSize - npos && cur.data.Length == baseSize
        invariant left > 0 && j == j0 ==> npos == npos0 && r == []
        invariant left > 0 && j > j0 ==> npos == 0 && npos0 + len > baseSize
        invariant left > 0 && j == j0 + 1 ==> r == [Iov(nodes[j0], npos0, baseSize - npos0)]
        invariant left > 0 && j > j0 + 1 ==> len > baseSize
        decreases left, |nodes| - j
      {
        After(j);
        if ncap >= left {
          r := r + [Iov(cur, npos, left)];
          left := 0;
        } else {
          r := r + [Iov(cur, npos, ncap)];
          if cur.next == null {
            Last(j);
            return false, [];
          }
          cur := cur.next;
          j := j + 1;
          After(j);
          ncap := cur.data.Length;
          npos := 0;
        }
      }
      return true, r;
    }

    lemma Last(j: nat)
      requires Chain() && j < |nodes| && nodes[j].next == null
      ensures j + 1 == |nodes|
    {
      assert LinkedAt(j);
    }

    /** What the vectors hold, one after the other. */
    static ghost function Gathered(r: seq<Iov>): Bytes
      reads set v | v in r :: v.node.data
    {
      if r == [] then [] else r[0].Bytes() + Gathered(r[1..])
    }

    /** The vectors hold the string from their place on, but too much of it when they are two. */
    lemma VectorsHold(j: nat, npos: nat, len: nat, r: seq<Iov>)
      requires Chain() && Holds() && Vectors(j, npos, len, r) && npos < baseSize
      ensures var w, extra := Start(j, baseSize) + npos, if npos + len <= baseSize then 0 else baseSize - npos;
              w + len + extra <= |flat| && Gathered(r) == flat[w..w + len + extra]
    {
      hide Holds, Chain, Start;
      After(j);
      if npos + len <= baseSize {
        PieceAt(j, npos, len);
        assert r[1..] == [];
        assert Gathered(r) == r[0].Bytes();
      } else {
        After(j + 1);
        PieceAt(j, npos, baseSize - npos);
        PieceAt(j + 1, 0, len);
        assert r[1..][1..] == [];
        assert Gathered(r[1..]) == r[1].Bytes();
        var w, m := Start(j, baseSize) + npos, baseSize - npos;
        Cat(flat, w, m, len);
      }
    }

    /** Vectors for reading at the cursor. */
    method GetReadBuffers(buffers: seq<Iov>, len: nat) returns (ok: bool, count: nat, r: seq<Iov>)
      requires Valid()
      ensures var want := if len > size - position then size - position else len;
              if want == 0 then ok && count == 0 && r == buffers
              else
                && (ok <==> want <= baseSize)
                && (ok ==> count == want && Vectors(at, Offset(position, baseSize), want, r))
    {
      Ends();
      hide Offset, Start, Holds, Chain;
      var want := if len > size - position then size - position else len;
      if want == 0 {
        return true, 0, buffers;
      }
      WhereLess();
      CurLength();
      Beyond(want);
      ok, r := Collect(cur, Offset(position, baseSize), want, at);
      return ok, want, r;
    }

    /** If the string goes on beyond the node under the cursor there is a next one. */
    lemma Beyond(want: nat)
      requires Listed() && Holds() && at < |nodes| && Where() + want <= |flat|
      ensures Offset(position, baseSize) + want > baseSize ==> at + 1 < |nodes|
    {
      hide Offset, Start;
      FlatLength();
      Starts(at, at + 1, baseSize);
    }

    /** Vectors for reading elsewhere. */
    method GetReadBuffersAt(buffers: seq<Iov>, len: nat, pos: nat) returns (ok: bool, count: nat, r: seq<Iov>)
      requires Valid() && size < 0x1_0000_0000_0000_0000
      ensures var want := if len > Avail(pos) then Avail(pos) else len;
              if want == 0 then ok && count == 0 && r == buffers
              else
                && (ok ==> pos < capacity && count == want
                           && Vectors(Nth(pos, baseSize), Offset(pos, baseSize), want, r))
                && (pos <= size ==> (ok <==> want <= baseSize))
    {
      Ends();
      hide Offset, Start, Nth, Holds, Chain, Avail;
      var want := if len > Avail(pos) then Avail(pos) else len;
      if want == 0 {
        return true, 0, buffers;
      }
      ghost var j;
      var node: Node?;
      node, j := NodeAt(pos);
      NodeFound(pos, want);
      if node == null {
        return false, 0, [];
      }
      BeyondAt(j, pos, want);
      hide Valid, Listed;
      ok, r := Collect(node, Offset(pos, baseSize), want, j);
      return ok, want, r;
    }

    lemma NodeFound(pos: nat, want: nat)
      requires Valid() && 0 < want <= Avail(pos) && size < 0x1_0000_0000_0000_0000
      ensures pos <= size ==> pos < |flat|
    {
    }

    lemma BeyondAt(j: nat, pos: nat, want: nat)
      requires Valid() && j < |nodes| && Start(j, baseSize) + Offset(pos, baseSize) == pos
      requires want <= Avail(pos) && size < 0x1_0000_0000_0000_0000
      ensures pos <= size ==> pos + want <= size
      ensures pos <= size && Offset(pos, baseSize) + want > baseSize ==> j + 1 < |nodes|
    {
      FlatLength();
      hide Offset, Start;
      Starts(j, j + 1, baseSize);
    }

    /** Vectors for writing at the cursor; grows as needed. */
    method GetWriteBuffers(buffers: seq<Iov>, len: nat) returns (ok: bool, count: nat, r: seq<Iov>)
      requires Valid()
      modifies Repr()
      ensures Valid() && position == old(position) && size == old(size) && fresh(Repr() - old(Repr()))
      ensures |old(flat)| <= |flat| && flat[..|old(flat)|] == old(flat)
      ensures if len == 0 then ok && count == 0 && r == buffers && flat == old(flat)
              else
                && Where() == old(WritePlace()) && (ok <==> len <= baseSize)
                && (ok ==> count == len && Vectors(at, Offset(position, baseSize), len, r))
    {
      Ends();
      if len == 0 {
        return true, 0, buffers;
      }
      hide Offset, Start, Holds, Chain;
      AddCapacity(len);
      Ends();
      WhereLess();
      CurLength();
      Beyond(len);
      ok, r := Collect(cur, Offset(position, baseSize), len, at);
      return ok, len, r;
    }
  }

  lemma ModAdd(p: nat, k: nat, base: nat)
    requires base > 0 && Offset(p, base) + k <= base
    ensures Offset(p + k, base) == if Offset(p, base) + k == base then 0 else Offset(p, base) + k
  {
    Quotient(p, base);
    var q, r := p / base, Offset(p, base);
    if r + k == base {
      Starts(q, q + 1, base);
      QuotientOf(q + 1, 0, base);
    } else {
      QuotientOf(q, r + k, base);
    }
  }

  lemma Enough(n: nat, avail: nat, base: nat)
    requires base > 0 && n > avail
    ensures NodeCount(n, avail, base) > 0 && Start(NodeCount(n, avail, base), base) >= n - avail
  {
    var x := n - avail + base - 1;
    Quotient(x, base);
    assert x / base > 0 by {
      hide Offset, Start;
      assert Start(0, base) == 0 by { StartNone(base); }
    }
  }

  lemma Prefixed(a: Bytes, b: Bytes, i: nat, n: nat)
    requires i + n <= |a| <= |b| && b[..|a|] == a
    ensures b[i..i + n] == a[i..i + n]
  {
    assert b[..|a|][i..i + n] == b[i..i + n];
  }

  /** How many nodes are added for n bytes when `avail` are left: the quotient rounded up. */
  function NodeCount(n: nat, avail: nat, base: nat): (k: nat)
    requires base > 0
  {
    if n <= avail then 0 else (n - avail + base - 1) / base
  }
}
