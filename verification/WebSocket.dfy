/** WebSocket messages (sections 5.2 to 5.4 of RFC 6455): putting fragments together again, and sending. */
module WebSockets {
  import opened Options
  import opened Bits
  import opened HttpSyntax

  const WORD: nat := 0x1_0000_0000_0000_0000

  // ---------------------------------------------------------------- frames on the wire

  /** `WSFrameHead`: two bytes. */
  datatype Head = Head(fin: bool, opcode: nat, mask: bool, payload: nat)

  const CONTINUE: nat := 0
  const TEXT: nat := 1
  const BINARY: nat := 2
  const PING: nat := 9
  const PONG: nat := 10

  function HeadOf(a: Byte, b: Byte): Head {
    Head(a as int / 128 == 1, a as int % 16, b as int / 128 == 1, b as int % 128)
  }

  function HeadBytes(h: Head): Bytes
    requires h.opcode < 16 && h.payload < 128
  {
    [(h.opcode + if h.fin then 128 else 0) as char, (h.payload + if h.mask then 128 else 0) as char]
  }

  lemma HeadBack(h: Head)
    requires h.opcode < 16 && h.payload < 128
    ensures HeadOf(HeadBytes(h)[0], HeadBytes(h)[1]) == h
  {
  }

  /** A number in network order. */
  function Big(n: nat, k: nat): (s: Bytes)
    ensures |s| == k
    decreases k
  {
    if k == 0 then [] else Big(n / 256, k - 1) + [(n % 256) as char]
  }

  function FromBig(s: Bytes): nat
    decreases |s|
  {
    if s == [] then 0 else FromBig(s[..|s| - 1]) * 256 + s[|s| - 1] as int
  }

  function Pow256(k: nat): (p: nat)
    ensures p > 0
  {
    if k == 0 then 1 else 256 * Pow256(k - 1)
  }

  lemma {:induction false} BigBack(n: nat, k: nat)
    requires n < Pow256(k)
    ensures FromBig(Big(n, k)) == n
    decreases k
  {
    if k > 0 {
      var s := Big(n, k);
      assert s[..|s| - 1] == Big(n / 256, k - 1);
      BigBack(n / 256, k - 1);
    }
  }

  lemma Powers()
    ensures Pow256(2) == 0x1_0000 && Pow256(8) == WORD
  {
    assert Pow256(1) == 256;
    assert Pow256(3) == 0x100_0000;
    assert Pow256(4) == 0x1_0000_0000;
    assert Pow256(5) == 0x100_0000_0000;
    assert Pow256(6) == 0x1_0000_0000_0000;
    assert Pow256(7) == 0x100_0000_0000_0000;
  }

  // ---------------------------------------------------------------- masks

  function XorByte(a: Byte, k: Byte): (c: Byte) {
    assert Two(8) == 256 by { TwoByte(); }
    Xor(8, a as int, k as int) as char
  }

  lemma XorByteTwice(a: Byte, k: Byte)
    ensures XorByte(XorByte(a, k), k) == a
  {
    TwoByte();
    XorTwice(8, a as int, k as int);
  }

  lemma XorByteSame(a: Byte, k: Byte)
    ensures XorByte(a, k) == a <==> k == '\0'
  {
    TwoByte();
    XorSame(8, a as int, k as int);
  }

  type Key = k: Bytes | |k| == 4 witness ['\0', '\0', '\0', '\0']

  function Masked(key: Key, s: Bytes): (t: Bytes)
    ensures |t| == |s|
  {
    seq(|s|, i requires 0 <= i < |s| => XorByte(s[i], key[i % 4]))
  }

  lemma MaskedTwice(key: Key, s: Bytes)
    ensures Masked(key, Masked(key, s)) == s
  {
    var t := Masked(key, s);
    forall i | 0 <= i < |s| ensures Masked(key, t)[i] == s[i] {
      XorByteTwice(s[i], key[i % 4]);
    }
  }

  /** Masking leaves a text as it is exactly when every byte of the key that is used is nought. */
  lemma MaskedSame(key: Key, s: Bytes)
    ensures Masked(key, s) == s <==> forall i :: 0 <= i < |s| ==> key[i % 4] == '\0'
  {
    var t := Masked(key, s);
    forall i | 0 <= i < |s| ensures t[i] == s[i] <==> key[i % 4] == '\0' {
      XorByteSame(s[i], key[i % 4]);
    }
    if t == s {
      forall i | 0 <= i < |s| ensures key[i % 4] == '\0' {
        assert t[i] == s[i];
      }
    }
  }

  // ---------------------------------------------------------------- receiving

  /** What a receive comes to: a message and what is left of the stream; or the stream is closed.  `pongs`
      counts the answers sent. */
  datatype Received =
    | Message(opcode: nat, data: Bytes, rest: Bytes, pongs: nat)
    | Closed(pongs: nat)

  /** The largest message allowed; the source keeps the length so far in an `int`. */
  type Limit = n: nat | n <= 0x8000_0000

  function LengthSize(payload: nat): nat {
    if payload == 126 then 2 else if payload == 127 then 8 else 0
  }

  /** The length field: seven bits, or the sixteen or sixty-four that follow.  None if the stream ends. */
  function Length(payload: nat, s: Bytes): (r: Option<(nat, Bytes)>)
    ensures r.Some? ==> |r.value.1| <= |s|
  {
    var k := LengthSize(payload);
    if k == 0 then Some((payload, s))
    else if k > |s| then None
    else Some((FromBig(s[..k]), s[k..]))
  }

  predicate IsData(opcode: nat) { opcode == CONTINUE || opcode == TEXT || opcode == BINARY }

  /** A data frame after its head: its payload, unmasked, and what follows. */
  datatype Framed = Payload(text: Bytes, rest: Bytes) | Refused

  /** The length is added to what there is in 64 bits; where that wraps below the limit the read that follows is
      asked for a negative number of bytes and fails. */
  function Frame(limit: Limit, client: bool, h: Head, s: Bytes, have: nat): (r: Framed)
    ensures r.Payload? ==> |r.rest| < |s|
  {
    if !client && !h.mask then Refused
    else
      match Length(h.payload, s)
      case None => Refused
      case Some((length, t)) =>
        if (have + length) % WORD >= limit then Refused
        else if h.mask && |t| < 4 then Refused
        else
          var u := if h.mask then t[4..] else t;
          if length == 0 || length >= 0x8000_0000 || length > |u| then Refused
          else Payload(if h.mask then Masked(t[..4], u[..length]) else u[..length], u[length..])
  }

  /** `WSRecvMessage` on a stream that gives what is asked for as long as it has it.  Other control frames than
      a ping are passed over, and so is whatever follows the head of a control frame. */
  function Receive(limit: Limit, client: bool, s: Bytes, data: Bytes, opcode: nat, pongs: nat): Received
    decreases |s|
  {
    if |s| < 2 then Closed(pongs)
    else
      var h := HeadOf(s[0], s[1]);
      if h.opcode == PING then Receive(limit, client, s[2..], data, opcode, pongs + 1)
      else if !IsData(h.opcode) then Receive(limit, client, s[2..], data, opcode, pongs)
      else
        match Frame(limit, client, h, s[2..], |data|)
        case Refused => Closed(pongs)
        case Payload(text, rest) =>
          var code := if opcode == 0 && h.opcode != CONTINUE then h.opcode else opcode;
          if h.fin then Message(code, data + text, rest, pongs)
          else Receive(limit, client, rest, data + text, code, pongs)
  }

  // ---------------------------------------------------------------- fragments

  datatype Form = Short | Medium | Long

  /** A fragment, in any of the three forms of its length, under its own mask or none. */
  datatype Fragment = Fragment(fin: bool, opcode: nat, form: Form, mask: Option<Key>, text: Bytes)

  function FormPayload(form: Form, n: nat): nat {
    if form.Short? then n else if form.Medium? then 126 else 127
  }

  function FormBytes(form: Form, n: nat): Bytes {
    if form.Short? then [] else if form.Medium? then Big(n, 2) else Big(n, 8)
  }

  predicate Fits(form: Form, n: nat) {
    if form.Short? then n < 126 else if form.Medium? then n < 0x1_0000 else n < WORD
  }

  predicate WellFormed(f: Fragment) { f.opcode < 16 && Fits(f.form, |f.text|) }

  function Body(f: Fragment): Bytes {
    if f.mask.Some? then f.mask.value + Masked(f.mask.value, f.text) else f.text
  }

  function Wire(f: Fragment): Bytes
    requires WellFormed(f)
  {
    HeadBytes(Head(f.fin, f.opcode, f.mask.Some?, FormPayload(f.form, |f.text|)))
    + (FormBytes(f.form, |f.text|) + Body(f))
  }

  lemma LengthBack(form: Form, n: nat, rest: Bytes)
    requires Fits(form, n)
    ensures Length(FormPayload(form, n), FormBytes(form, n) + rest) == Some((n, rest))
  {
    Powers();
    var s := FormBytes(form, n) + rest;
    if form.Medium? {
      BigBack(n, 2);
      assert s[..2] == Big(n, 2) && s[2..] == rest;
    } else if form.Long? {
      BigBack(n, 8);
      assert s[..8] == Big(n, 8) && s[8..] == rest;
    } else {
      assert s == rest;
    }
  }

  /** A frame is read back from the wire. */
  lemma FrameBack(limit: Limit, client: bool, f: Fragment, rest: Bytes, have: nat)
    requires WellFormed(f) && f.text != [] && (client || f.mask.Some?) && have + |f.text| < limit
    ensures var h := Head(f.fin, f.opcode, f.mask.Some?, FormPayload(f.form, |f.text|));
            Frame(limit, client, h, FormBytes(f.form, |f.text|) + (Body(f) + rest), have) == Payload(f.text, rest)
  {
    hide Masked, FormBytes, FormPayload, Length;
    LengthBack(f.form, |f.text|, Body(f) + rest);
    var t := Body(f) + rest;
    if f.mask.Some? {
      var key: Key := f.mask.value;
      var m := Masked(key, f.text);
      assert t[..4] == key && t[4..] == m + rest;
      assert (m + rest)[..|f.text|] == m && (m + rest)[|f.text|..] == rest;
      MaskedTwice(key, f.text);
    } else {
      assert t[..|f.text|] == f.text && t[|f.text|..] == rest;
    }
  }

  function WireAll(fs: seq<Fragment>): Bytes
    requires forall i :: 0 <= i < |fs| ==> WellFormed(fs[i])
    decreases |fs|
  {
    if fs == [] then [] else Wire(fs[0]) + WireAll(fs[1..])
  }

  function TextAll(fs: seq<Fragment>): Bytes
    decreases |fs|
  {
    if fs == [] then [] else fs[0].text + TextAll(fs[1..])
  }

  /** Fragments of one message: nonempty, `fin` on the last alone, masked where the receiver asks for it. */
  predicate Fragments(client: bool, fs: seq<Fragment>) {
    && fs != []
    && (forall i :: 0 <= i < |fs| ==> WellFormed(fs[i]) && fs[i].text != [] && (client || fs[i].mask.Some?))
    && (forall i :: 0 <= i < |fs| ==> (fs[i].fin <==> i == |fs| - 1))
  }

  /** The first fragment says what the message is, the others continue it. */
  predicate Opens(fs: seq<Fragment>) {
    && fs != [] && (fs[0].opcode == TEXT || fs[0].opcode == BINARY)
    && forall i :: 0 < i < |fs| ==> fs[i].opcode == CONTINUE
  }

  lemma ReceiveOne(limit: Limit, client: bool, f: Fragment, rest: Bytes, data: Bytes, opcode: nat, pongs: nat)
    requires WellFormed(f) && IsData(f.opcode) && f.text != [] && (client || f.mask.Some?)
    requires |data| + |f.text| < limit
    ensures var code := if opcode == 0 && f.opcode != CONTINUE then f.opcode else opcode;
            Receive(limit, client, Wire(f) + rest, data, opcode, pongs) ==
            if f.fin then Message(code, data + f.text, rest, pongs)
            else Receive(limit, client, rest, data + f.text, code, pongs)
  {
    hide Frame, Masked, FormBytes, FormPayload, Body;
    var h := Head(f.fin, f.opcode, f.mask.Some?, FormPayload(f.form, |f.text|));
    PayloadSmall(f);
    HeadBack(h);
    var s := Wire(f) + rest;
    var tail := FormBytes(f.form, |f.text|) + (Body(f) + rest);
    assert s == HeadBytes(h) + tail && s[2..] == tail && s[0] == HeadBytes(h)[0] && s[1] == HeadBytes(h)[1];
    FrameBack(limit, client, f, rest, |data|);
    assert |rest| < |s|;
  }

  lemma PayloadSmall(f: Fragment)
    requires WellFormed(f)
    ensures FormPayload(f.form, |f.text|) < 128
  {
  }

  lemma {:induction false} ReceiveMore(limit: Limit, client: bool, fs: seq<Fragment>, rest: Bytes, data: Bytes,
        opcode: nat)
    requires Fragments(client, fs) && |data| + |TextAll(fs)| < limit && opcode != 0
    requires forall i :: 0 <= i < |fs| ==> fs[i].opcode == CONTINUE
    ensures Receive(limit, client, WireAll(fs) + rest, data, opcode, 0) == Message(opcode, data + TextAll(fs), rest, 0)
    decreases |fs|
  {
    hide Receive, Wire, WellFormed;
    var f, more := fs[0], fs[1..];
    ReceiveOne(limit, client, f, WireAll(more) + rest, data, opcode, 0);
    assert WireAll(fs) + rest == Wire(f) + (WireAll(more) + rest);
    if more == [] {
      assert WireAll(more) + rest == rest && data + TextAll(fs) == data + f.text;
    } else {
      forall i | 0 <= i < |more| ensures more[i] == fs[i + 1] {
      }
      ReceiveMore(limit, client, more, rest, data + f.text, opcode);
      assert data + f.text + TextAll(more) == data + TextAll(fs);
    }
  }

  /** Any list of nonempty fragments, however their lengths are written and whatever their masks, comes back as
      one message with the opcode of the first and all their payloads, and no byte more is consumed. */
  lemma Reassembles(limit: Limit, client: bool, fs: seq<Fragment>, rest: Bytes)
    requires Fragments(client, fs) && Opens(fs) && |TextAll(fs)| < limit
    ensures Receive(limit, client, WireAll(fs) + rest, [], 0, 0) == Message(fs[0].opcode, TextAll(fs), rest, 0)
  {
    hide Receive, Wire, WellFormed;
    var f, more := fs[0], fs[1..];
    ReceiveOne(limit, client, f, WireAll(more) + rest, [], 0, 0);
    assert WireAll(fs) + rest == Wire(f) + (WireAll(more) + rest);
    assert [] + f.text == f.text;
    if more == [] {
      assert WireAll(more) + rest == rest && f.text + TextAll(more) == f.text;
    } else {
      forall i | 0 <= i < |more| ensures more[i] == fs[i + 1] {
      }
      ReceiveMore(limit, client, more, rest, f.text, f.opcode);
    }
  }

  /** A fragment without payload closes the stream. */
  lemma EmptyCloses(limit: Limit, client: bool, f: Fragment, rest: Bytes, data: Bytes, opcode: nat, pongs: nat)
    requires WellFormed(f) && IsData(f.opcode) && f.text == [] && |data| < WORD
    ensures Receive(limit, client, Wire(f) + rest, data, opcode, pongs) == Closed(pongs)
  {
    hide Masked, FormBytes, FormPayload, Body, Length;
    var h := Head(f.fin, f.opcode, f.mask.Some?, FormPayload(f.form, 0));
    PayloadSmall(f);
    HeadBack(h);
    var s := Wire(f) + rest;
    var tail := FormBytes(f.form, 0) + (Body(f) + rest);
    assert s == HeadBytes(h) + tail && s[2..] == tail && s[0] == HeadBytes(h)[0] && s[1] == HeadBytes(h)[1];
    LengthBack(f.form, 0, Body(f) + rest);
  }

  // ---------------------------------------------------------------- sending

  /** `WSSendMessage`: a client announces a mask and sends it, but then sends the payload as it is. */
  function Sent(opcode: nat, text: Bytes, client: bool, fin: bool, key: Key): Bytes
    requires opcode < 16
  {
    var form := FormFor(|text|);
    HeadBytes(Head(fin, opcode, client, FormPayload(form, |text|)))
    + (FormBytes(form, |text|) + ((if client then key else []) + text))
  }

  function FormFor(n: nat): (form: Form)
    ensures n < WORD ==> Fits(form, n)
    ensures FormPayload(form, n) < 128
  {
    if n < 126 then Short else if n < 0xFF then Medium else Long
  }

  /** A server's message, sent whole, comes back to a client if and only if it is not empty. */
  lemma ServerToClient(limit: Limit, opcode: nat, text: Bytes, key: Key, rest: Bytes)
    requires (opcode == TEXT || opcode == BINARY) && |text| < limit
    ensures Receive(limit, true, Sent(opcode, text, false, true, key) + rest, [], 0, 0) ==
            if text != [] then Message(opcode, text, rest, 0) else Closed(0)
  {
    hide Receive;
    var f := Fragment(true, opcode, FormFor(|text|), None, text);
    assert [] + text == text;
    assert Sent(opcode, text, false, true, key) == Wire(f);
    if text == [] {
      EmptyCloses(limit, true, f, rest, [], 0, 0);
    } else {
      ReceiveOne(limit, true, f, rest, [], 0, 0);
    }
  }

  /** A client's message arrives at a server under the mask that was not applied: it is what was sent if and
      only if the bytes of the key that are used are nought. */
  lemma ClientToServer(limit: Limit, opcode: nat, text: Bytes, key: Key, rest: Bytes)
    requires (opcode == TEXT || opcode == BINARY) && 0 < |text| < limit
    ensures var r := Receive(limit, false, Sent(opcode, text, true, true, key) + rest, [], 0, 0);
            && r == Message(opcode, Masked(key, text), rest, 0)
            && (r.data == text <==> forall i :: 0 <= i < |text| ==> key[i % 4] == '\0')
  {
    hide Receive, Masked;
    var f := Fragment(true, opcode, FormFor(|text|), Some(key), Masked(key, text));
    MaskedTwice(key, text);
    assert Sent(opcode, text, true, true, key) == Wire(f);
    ReceiveOne(limit, false, f, rest, [], 0, 0);
    assert [] + Masked(key, text) == Masked(key, text);
    MaskedSame(key, text);
  }

  // ---------------------------------------------------------------- the two loops

  function PongFrame(): Bytes { HeadBytes(Head(true, PONG, false, 0)) }

  function Pongs(n: nat): Bytes {
    if n == 0 then [] else Pongs(n - 1) + PongFrame()
  }

  /** A length as it comes out of an `int`. */
  function AsInt(n: nat): int {
    var low := n % 0x1_0000_0000;
    if low < 0x8000_0000 then low else low - 0x1_0000_0000
  }

  /** A stream that reads and writes all it is asked for as long as it can. */
  class Stream {
    var input: Bytes
    var output: Bytes
    var open: bool

    constructor (input: Bytes)
      ensures this.input == input && output == [] && open
    {
      this.input, output, open := input, [], true;
    }

    /** `readFixedSize`: nothing but a positive number of bytes counts as success. */
    method ReadFixed(n: nat) returns (ok: bool, got: Bytes)
      modifies this`input
      ensures ok <==> 0 < n < 0x8000_0000 && n <= |old(input)|
      ensures ok ==> got == old(input)[..n] && input == old(input)[n..]
    {
      ok, got := false, [];
      if 0 < n < 0x8000_0000 && n <= |input| {
        ok, got, input := true, input[..n], input[n..];
      }
    }

    /** `writeFixedSize`: a length that is not positive as an `int` writes nothing and is not a success. */
    method WriteFixed(s: Bytes) returns (ok: bool)
      modifies this`output
      ensures ok <==> AsInt(|s|) > 0
      ensures output == if ok then old(output) + s else old(output)
    {
      ok := false;
      if AsInt(|s|) > 0 {
        ok, output := true, output + s;
      }
    }
  }

  /** The unmasking loop: from `from` on the bytes are xored with the key in turn, those before stay. */
  method Unmask(s: Bytes, from: nat, key: Key) returns (t: Bytes)
    requires from <= |s|
    ensures t == s[..from] + Masked(key, s[from..])
  {
    t := s;
    var n := |s| - from;
    for i := 0 to n
      invariant |t| == |s| && t[..from] == s[..from]
      invariant t[from..from + i] == Masked(key, s[from..])[..i]
      invariant t[from + i..] == s[from + i..]
    {
      assert t[from + i] == s[from + i] == s[from..][i];
      var was := t;
      t := t[from + i := XorByte(t[from + i], key[i % 4])];
      assert t[from..from + i] == was[from..from + i];
      assert t[from + i + 1..] == was[from + i..][1..] == s[from + i..][1..];
      assert t[from..from + i + 1] == t[from..from + i] + [t[from + i]];
      var m := Masked(key, s[from..]);
      assert m[..i + 1] == m[..i] + [m[i]];
    }
    assert t == t[..from] + t[from..from + n];
  }

  /** The extended length, if the head asks for one. */
  method ReadLength(stream: Stream, payload: nat) returns (ok: bool, length: nat)
    modifies stream`input
    ensures var r := Length(payload, old(stream.input));
            && (ok <==> r.Some?)
            && (ok ==> (length, stream.input) == r.value)
  {
    if LengthSize(payload) == 0 {
      return true, payload;
    }
    var got;
    ok, got := stream.ReadFixed(LengthSize(payload));
    length := FromBig(got);
  }

  /** A data frame after its head: its payload is appended to `data`. */
  method ReadFrame(stream: Stream, limit: Limit, client: bool, h: Head, data: Bytes) returns (ok: bool, more: Bytes)
    modifies stream`input
    ensures var r := Frame(limit, client, h, old(stream.input), |data|);
            && (ok <==> r.Payload?)
            && (ok ==> more == data + r.text && stream.input == r.rest)
  {
    hide Masked, Length;
    more := data;
    if !client && !h.mask {
      return false, more;
    }
    var length;
    ok, length := ReadLength(stream, h.payload);
    if !ok || (|data| + length) % WORD >= limit {
      return false, more;
    }
    var key: Bytes := ['\0', '\0', '\0', '\0'];
    if h.mask {
      ok, key := stream.ReadFixed(4);
      if !ok {
        return;
      }
    }
    var got;
    ok, got := stream.ReadFixed(length);
    if !ok {
      return;
    }
    more := data + got;
    if h.mask {
      more := Unmask(more, |data|, key);
      assert (data + got)[..|data|] == data && (data + got)[|data|..] == got;
    }
  }

  lemma PongLength()
    ensures AsInt(|PongFrame()|) == 2
  {
  }

  /** `WSRecvMessage`: what it returns, what it leaves in the stream and what it answers to pings is what
      `Receive` says; when there is no message the stream is closed. */
  method WSRecvMessage(stream: Stream, limit: Limit, client: bool) returns (m: Option<(nat, Bytes)>)
    modifies stream
    ensures match Receive(limit, client, old(stream.input), [], 0, 0)
            case Message(opcode, data, rest, pongs) =>
              && m == Some((opcode, data)) && stream.input == rest
              && stream.output == old(stream.output) + Pongs(pongs) && stream.open == old(stream.open)
            case Closed(pongs) =>
              m == None && !stream.open && stream.output == old(stream.output) + Pongs(pongs)
  {
    hide Frame, PongFrame, AsInt;
    var opcode, data := 0, [];
    ghost var pongs := 0;
    assert stream.output == old(stream.output) + Pongs(0);
    while true
      invariant Receive(limit, client, old(stream.input), [], 0, 0)
             == Receive(limit, client, stream.input, data, opcode, pongs)
      invariant stream.output == old(stream.output) + Pongs(pongs) && stream.open == old(stream.open)
      decreases |stream.input|
    {
      var ok, got := stream.ReadFixed(2);
      if !ok {
        break;
      }
      var h := HeadOf(got[0], got[1]);
      if h.opcode == PING {
        PongLength();
        var sent := stream.WriteFixed(PongFrame());
        pongs := pongs + 1;
      } else if IsData(h.opcode) {
        ok, data := ReadFrame(stream, limit, client, h, data);
        if !ok {
          break;
        }
        if opcode == 0 && h.opcode != CONTINUE {
          opcode := h.opcode;
        }
        if h.fin {
          return Some((opcode, data));
        }
      }
    }
    stream.open := false;
    m := None;
  }

  lemma SentInParts(was: Bytes, opcode: nat, text: Bytes, client: bool, fin: bool, key: Key)
    requires opcode < 16
    ensures var form := FormFor(|text|);
            var long, mask := FormBytes(form, |text|), if client then key else [];
            var out := was + HeadBytes(Head(fin, opcode, client, FormPayload(form, |text|)));
            var out' := if form == Short then out else out + long;
            was + Sent(opcode, text, client, fin, key) == (if client then out' + key else out') + text
  {
    hide HeadBytes, FormPayload;
    var form := FormFor(|text|);
    var head, long := HeadBytes(Head(fin, opcode, client, FormPayload(form, |text|))), FormBytes(form, |text|);
    assert long + text == long + ([] + text);
    assert was + (head + (long + (key + text))) == was + head + long + key + text;
    assert was + (head + (long + text)) == was + head + long + text;
    assert form == Short ==> was + head + long == was + head;
  }

  /** The part of what is sent that comes before the payload. */
  lemma SentHead(was: Bytes, opcode: nat, text: Bytes, client: bool, fin: bool, key: Key, parts: Bytes)
    requires opcode < 16 && was + Sent(opcode, text, client, fin, key) == parts + text && |was| <= |parts|
    ensures var all := Sent(opcode, text, client, fin, key);
            |text| <= |all| && parts == was + all[..|all| - |text|]
  {
    hide Sent;
    var all := Sent(opcode, text, client, fin, key);
    assert parts == (was + all)[..|parts|];
  }

  lemma HeadIsTwo(fin: bool, opcode: nat, client: bool, form: Form, n: nat, key: Key)
    requires opcode < 16 && form == FormFor(n)
    ensures AsInt(|HeadBytes(Head(fin, opcode, client, FormPayload(form, n)))|) == 2
    ensures form != Short ==> AsInt(|FormBytes(form, n)|) > 0
    ensures AsInt(|key|) == 4
  {
  }

  /** `WSSendMessage`, for a message of any length: what is written is what `Sent` says, and it succeeds, exactly
      when the length of the payload is positive as an `int`; otherwise what comes before the payload is written
      and the stream is closed.  The masked copy is made and not used. */
  method WSSendMessage(stream: Stream, opcode: nat, text: Bytes, client: bool, fin: bool, key: Key)
    returns (n: int)
    requires opcode < 16
    modifies stream
    ensures stream.input == old(stream.input)
    ensures var all := Sent(opcode, text, client, fin, key);
            |text| <= |all| && stream.output ==
              old(stream.output) + (if AsInt(|text|) > 0 then all else all[..|all| - |text|])
    ensures n == (if AsInt(|text|) > 0 then AsInt(|text| + 2) else -1)
    ensures stream.open <==> old(stream.open) && AsInt(|text|) > 0
  {
    hide *;
    var form := FormFor(|text|);
    HeadIsTwo(fin, opcode, client, form, |text|, key);
    var head := HeadBytes(Head(fin, opcode, client, FormPayload(form, |text|)));
    var ok := stream.WriteFixed(head);
    var long := FormBytes(form, |text|);
    if form != Short {
      ok := stream.WriteFixed(long);
    }
    var mask: Bytes := [];
    if client {
      var masked := Unmask(text, 0, key);
      mask := key;
      ok := stream.WriteFixed(mask);
    }
    SentInParts(old(stream.output), opcode, text, client, fin, key);
    SentHead(old(stream.output), opcode, text, client, fin, key, stream.output);
    ok := stream.WriteFixed(text);
    if ok {
      return AsInt(|text| + 2);
    }
    stream.open := false;
    n := -1;
  }
}
