/** Sequences of operations on a `ByteArray`, against one flat byte string with a position.

    The two agree as long as nothing is read or written through a cursor that lags behind.  What makes it lag,
    what puts it right and what a lagging cursor does are stated exactly. */
module ByteArrayRuns {
  import opened HttpSyntax
  import opened ByteArrays

  datatype Op = Put(buf: Bytes, slack: Bytes) | Get(n: nat) | MoveTo(pos: nat) | Reset

  /** What the following needs to know of the state; `ValidSound` says that every valid byte array meets it. */
  ghost predicate Sound(base: nat, c: Cursor) {
    && base > 0 && base <= |c.flat| && c.position <= c.size <= |c.flat|
    && c.place <= c.position && Offset(c.place, base) == Offset(c.position, base)
  }

  lemma ValidSound(ba: ByteArray)
    requires ba.Valid()
    ensures Sound(ba.baseSize, ba.State())
  {
    ba.SomeNode();
    ba.FlatLength();
    Starts(0, |ba.nodes|, ba.baseSize);
    StartNone(ba.baseSize);
    QuotientOf(ba.at, Offset(ba.position, ba.baseSize), ba.baseSize);
    hide Offset, Start;
  }

  /** What the new nodes hold is arbitrary; how many there are is not. */
  predicate Possible(base: nat, c: Cursor, op: Op)
    requires base > 0 && c.position <= |c.flat|
  {
    op.Put? ==> |op.slack| == Start(NodeCount(|op.buf|, |c.flat| - c.position, base), base)
  }

  /** One operation, as the methods of `ByteArray` are specified. */
  function Real(base: nat, c: Cursor, op: Op): (r: (Cursor, Reply))
    requires base > 0
  {
    match op
    case Put(buf, slack) => (Written(c, buf, slack), Ok([]))
    case Get(n) => (AfterRead(base, c, n), Answer(c, n))
    case MoveTo(pos) => (Moved(c, pos), if pos > |c.flat| then OutOfRange else Ok([]))
    case Reset => (Cursor(if base <= |c.flat| then c.flat[..base] else c.flat, 0, 0, 0), Ok([]))
  }

  /** A byte string with a position. */
  datatype Text = Text(flat: Bytes, position: nat, size: nat)

  function TextOf(c: Cursor): Text { Text(c.flat, c.position, c.size) }

  function Ideal(base: nat, t: Text, op: Op): (r: (Text, Reply)) {
    match op
    case Put(buf, slack) =>
      if buf == [] || t.position + |buf| > |t.flat| + |slack| then (t, Ok([]))
      else
        (Text(Overwrite(t.flat + slack, t.position, buf), t.position + |buf|, Max(t.size, t.position + |buf|)), Ok([]))
    case Get(n) =>
      if n > t.size - t.position || t.position + n > |t.flat| then (t, OutOfRange)
      else (t.(position := t.position + n), Ok(t.flat[t.position..t.position + n]))
    case MoveTo(pos) =>
      if pos > |t.flat| then (t, OutOfRange) else (t.(position := pos, size := Max(t.size, pos)), Ok([]))
    case Reset => (Text(if base <= |t.flat| then t.flat[..base] else t.flat, 0, 0), Ok([]))
  }

  // ---------------------------------------------------------------- one operation

  lemma Slides(base: nat, p: nat, n: nat)
    requires base > 0 && Slips(base, p, n)
    ensures Offset(p + n, base) == 0 && n < base
  {
    ModAdd(p, n, base);
  }

  /** Adding to two places that agree modulo the node size keeps them agreeing. */
  lemma Parallel(base: nat, p: nat, q: nat, n: nat)
    requires base > 0 && q <= p && Offset(p, base) == Offset(q, base)
    ensures Offset(p + n, base) == Offset(q + n, base)
    decreases n
  {
    if n > 0 {
      Parallel(base, p, q, n - 1);
      ModAdd(p + n - 1, 1, base);
      ModAdd(q + n - 1, 1, base);
    }
  }

  lemma OneNodeBack(base: nat, p: nat)
    requires base > 0 && base <= p
    ensures Offset(p - base, base) == Offset(p, base)
  {
    Quotient(p - base, base);
    var q, r := (p - base) / base, Offset(p - base, base);
    Starts(q, q + 1, base);
    QuotientOf(q + 1, r, base);
  }

  /** A place one node back from the end of a slipping read is not before the start of the string. */
  lemma SlipFits(base: nat, c: Cursor, n: nat)
    requires Sound(base, c) && Slips(base, c.position, n)
    ensures base <= c.place + n
  {
    ModAdd(c.place, n, base);
    Quotient(c.place, base);
    assert Offset(c.place, base) <= c.place by { OffsetLess(c.place, base); }
  }

  lemma OffsetLess(p: nat, base: nat)
    requires base > 0
    ensures Offset(p, base) <= p
  {
    Quotient(p, base);
  }

  lemma WrittenSound(base: nat, c: Cursor, buf: Bytes, slack: Bytes)
    requires Sound(base, c) && Possible(base, c, Put(buf, slack)) && buf != []
    ensures Sound(base, Written(c, buf, slack))
    ensures c.position + |buf| <= |c.flat| + |slack|
  {
    hide Offset, Start;
    var avail := |c.flat| - c.position;
    if |buf| > avail {
      Enough(|buf|, avail, base);
    }
    var w := if |c.flat| == c.position then c.position else c.place;
    Parallel(base, c.position, w, |buf|);
  }

  lemma ReadSound(base: nat, c: Cursor, n: nat)
    requires Sound(base, c)
    ensures Sound(base, AfterRead(base, c, n))
    ensures Answer(c, n).OutOfRange? <==> n > c.size - c.position
    ensures n > 0 && n <= c.size - c.position ==> Answer(c, n).Ok?
  {
    hide Offset;
    if Answer(c, n).Ok? {
      Parallel(base, c.position, c.place, n);
      if Slips(base, c.position, n) {
        SlipFits(base, c, n);
        OneNodeBack(base, c.place + n);
      }
    }
  }

  lemma RealSound(base: nat, c: Cursor, op: Op)
    requires Sound(base, c) && Possible(base, c, op)
    ensures Sound(base, Real(base, c, op).0)
  {
    match op {
      case Put(buf, slack) =>
        if buf != [] {
          WrittenSound(base, c, buf, slack);
        }
      case Get(n) => ReadSound(base, c, n);
      case MoveTo(_) =>
      case Reset =>
    }
  }

  /** Is something read or written through the cursor? */
  predicate Uses(c: Cursor, op: Op) {
    match op
    case Put(buf, _) => buf != [] && c.position < |c.flat|
    case Get(n) => 0 < n <= c.size - c.position
    case _ => false
  }

  /** The operation does not use a cursor that lags, and does not read nothing at the very end, where the
      cursor is null. */
  predicate Safe(c: Cursor, op: Op) {
    (Uses(c, op) ==> c.place == c.position) && (op == Get(0) ==> c.place < |c.flat|)
  }

  /** A safe operation does what it does on a flat string. */
  lemma StepAgrees(base: nat, c: Cursor, op: Op)
    requires Sound(base, c) && Possible(base, c, op) && Safe(c, op)
    ensures TextOf(Real(base, c, op).0) == Ideal(base, TextOf(c), op).0
    ensures Real(base, c, op).1 == Ideal(base, TextOf(c), op).1
  {
    hide Offset, Start;
    match op {
      case Put(buf, slack) =>
        if buf != [] {
          WrittenSound(base, c, buf, slack);
        }
      case Get(n) =>
        ReadSound(base, c, n);
        if Slips(base, c.position, n) {
          SlipFits(base, c, n);
        }
      case MoveTo(_) =>
      case Reset =>
    }
  }

  /** When the cursor stands where the position says after an operation: moving it and clearing put it right,
      and so does a write that finds no room at all; a read that slips sets it back; nothing else changes
      whether it is right. */
  lemma InStepAfter(base: nat, c: Cursor, op: Op)
    requires Sound(base, c) && Possible(base, c, op)
    ensures var d := Real(base, c, op).0;
            d.place == d.position <==>
            match op
            case Put(buf, _) => c.place == c.position || (buf != [] && c.position == |c.flat|)
            case Get(n) => c.place == c.position && !(Slips(base, c.position, n) && n <= c.size - c.position)
            case MoveTo(pos) => c.place == c.position || pos <= |c.flat|
            case Reset => true
  {
    hide Offset, Start;
    match op {
      case Put(buf, slack) =>
        if buf != [] {
          WrittenSound(base, c, buf, slack);
        }
      case Get(n) =>
        ReadSound(base, c, n);
        if Slips(base, c.position, n) {
          SlipFits(base, c, n);
          assert n > 0;
        }
      case MoveTo(_) =>
      case Reset =>
    }
  }

  // ---------------------------------------------------------------- whole runs

  function Replies(base: nat, c: Cursor, ops: seq<Op>): seq<Reply>
    requires base > 0
    decreases |ops|
  {
    if ops == [] then []
    else var (d, r) := Real(base, c, ops[0]); [r] + Replies(base, d, ops[1..])
  }

  function IdealReplies(base: nat, t: Text, ops: seq<Op>): seq<Reply>
    decreases |ops|
  {
    if ops == [] then []
    else var (u, r) := Ideal(base, t, ops[0]); [r] + IdealReplies(base, u, ops[1..])
  }

  function Final(base: nat, c: Cursor, ops: seq<Op>): Cursor
    requires base > 0
    decreases |ops|
  {
    if ops == [] then c else Final(base, Real(base, c, ops[0]).0, ops[1..])
  }

  function IdealFinal(base: nat, t: Text, ops: seq<Op>): Text
    decreases |ops|
  {
    if ops == [] then t else IdealFinal(base, Ideal(base, t, ops[0]).0, ops[1..])
  }

  ghost predicate AllPossible(base: nat, c: Cursor, ops: seq<Op>)
    requires Sound(base, c)
    decreases |ops|
  {
    || ops == []
    || (Possible(base, c, ops[0])
        && (RealSound(base, c, ops[0]); AllPossible(base, Real(base, c, ops[0]).0, ops[1..])))
  }

  predicate AllSafe(base: nat, c: Cursor, ops: seq<Op>)
    requires base > 0
    decreases |ops|
  {
    ops == [] || (Safe(c, ops[0]) && AllSafe(base, Real(base, c, ops[0]).0, ops[1..]))
  }

  /** A run of safe operations is a run on a flat string: every reply is the same and so is the string. */
  lemma {:induction false} RunAgrees(base: nat, c: Cursor, ops: seq<Op>)
    requires Sound(base, c) && AllPossible(base, c, ops) && AllSafe(base, c, ops)
    ensures Replies(base, c, ops) == IdealReplies(base, TextOf(c), ops)
    ensures TextOf(Final(base, c, ops)) == IdealFinal(base, TextOf(c), ops)
    decreases |ops|
  {
    hide Real, Ideal, Safe, Possible, Sound;
    if ops != [] {
      StepAgrees(base, c, ops[0]);
      RealSound(base, c, ops[0]);
      RunAgrees(base, Real(base, c, ops[0]).0, ops[1..]);
    }
  }

  /** A condition on positions alone: no accepted read slips, and none reads nothing at the very end. */
  predicate Straight(base: nat, t: Text, ops: seq<Op>)
    requires base > 0
    decreases |ops|
  {
    ops == []
    || ((ops[0].Get? ==> !(Slips(base, t.position, ops[0].n) && ops[0].n <= t.size - t.position)
                         && !(ops[0].n == 0 && t.position == |t.flat|))
        && Straight(base, Ideal(base, t, ops[0]).0, ops[1..]))
  }

  /** From a cursor that is right, a straight run is safe throughout. */
  lemma {:induction false} StraightSafe(base: nat, c: Cursor, ops: seq<Op>)
    requires Sound(base, c) && AllPossible(base, c, ops) && c.place == c.position && Straight(base, TextOf(c), ops)
    ensures AllSafe(base, c, ops)
    decreases |ops|
  {
    hide Real, Ideal, Sound, Possible;
    if ops != [] {
      assert c.position <= |c.flat| by { SoundInside(base, c); }
      assert Safe(c, ops[0]);
      StepAgrees(base, c, ops[0]);
      RealSound(base, c, ops[0]);
      InStepAfter(base, c, ops[0]);
      StraightSafe(base, Real(base, c, ops[0]).0, ops[1..]);
    }
  }

  lemma SoundInside(base: nat, c: Cursor)
    requires Sound(base, c)
    ensures c.position <= |c.flat|
  {
  }

  /** With nodes of one byte no read can slip. */
  lemma OneByteNodes(p: nat, n: nat)
    ensures !Slips(1, p, n)
  {
  }

  /** A read that slips, followed by a read of m bytes: the second starts one node too early.  It returns what
      it should just when the string happens to repeat itself there. */
  lemma SlipThenRead(base: nat, c: Cursor, n: nat, m: nat)
    requires Sound(base, c) && c.place == c.position && Slips(base, c.position, n) && n + m <= c.size - c.position
    requires m > 0
    ensures var p := c.position + n;
            && base <= p
            && Replies(base, c, [Get(n), Get(m)]) == [Ok(c.flat[c.position..p]), Ok(c.flat[p - base..p - base + m])]
            && (Replies(base, c, [Get(n), Get(m)]) == IdealReplies(base, TextOf(c), [Get(n), Get(m)])
                <==> c.flat[p - base..p - base + m] == c.flat[p..p + m])
  {
    hide Offset;
    SlipFits(base, c, n);
    Slides(base, c.position, n);
    var d := Real(base, c, Get(n)).0;
    var ops := [Get(n), Get(m)];
    assert ops[1..] == [Get(m)] && ops[1..][1..] == [];
    assert Replies(base, Real(base, d, Get(m)).0, ops[1..][1..]) == [];
    assert IdealReplies(base, Ideal(base, TextOf(d), Get(m)).0, ops[1..][1..]) == [];
    assert Replies(base, d, ops[1..]) == [Answer(d, m)];
    assert IdealReplies(base, TextOf(d), ops[1..]) == [Ideal(base, TextOf(d), Get(m)).1];
    var p := c.position + n;
    var x, y := Replies(base, c, ops), IdealReplies(base, TextOf(c), ops);
    assert x[1] == Ok(c.flat[p - base..p - base + m]) && y == [x[0], Ok(c.flat[p..p + m])];
    assert x == y <==> x[1] == y[1];
  }
}
