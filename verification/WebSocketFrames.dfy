/** Frames as the standard writes them, and control frames: what is answered to a ping and what a peer makes of the
    answers. */
module WebSocketFrames {
  import opened Options
  import opened Bits
  import opened HttpSyntax
  import opened WebSockets

  /** The head of an answer: a final frame, not masked, without payload, with the opcode of a pong; its two bytes are
      0x8A and 0x00 (sections 5.2 and 5.5.3 of RFC 6455). */
  lemma PongIsPong()
    ensures PongFrame() == [0x8A as char, 0x00 as char]
    ensures HeadOf(PongFrame()[0], PongFrame()[1]) == Head(true, 10, false, 0)
  {
  }

  /** A peer passes over any number of answers: none of them is answered in turn. */
  lemma {:induction false} PongsPassed(limit: Limit, client: bool, n: nat, s: Bytes, data: Bytes, opcode: nat, k: nat)
    ensures Receive(limit, client, Pongs(n) + s, data, opcode, k) == Receive(limit, client, s, data, opcode, k)
    decreases n
  {
    if n == 0 {
      assert Pongs(0) + s == s;
    } else {
      var more := PongFrame() + s;
      assert Pongs(n) + s == Pongs(n - 1) + more;
      PongsPassed(limit, client, n - 1, more, data, opcode, k);
      PongIsPong();
      hide PongFrame, Pongs, Frame;
      assert more[2..] == s;
    }
  }

  function WithPongs(r: Received, n: nat): Received {
    match r
    case Message(opcode, data, rest, pongs) => Message(opcode, data, rest, pongs + n)
    case Closed(pongs) => Closed(pongs + n)
  }

  lemma {:induction false} CountsOn(limit: Limit, client: bool, s: Bytes, data: Bytes, opcode: nat, k: nat, n: nat)
    ensures Receive(limit, client, s, data, opcode, k + n) == WithPongs(Receive(limit, client, s, data, opcode, k), n)
    decreases |s|
  {
    hide Frame, HeadOf;
    if |s| >= 2 {
      var h := HeadOf(s[0], s[1]);
      if h.opcode == PING {
        CountsOn(limit, client, s[2..], data, opcode, k + 1, n);
      } else if !IsData(h.opcode) {
        CountsOn(limit, client, s[2..], data, opcode, k, n);
      } else {
        var f := Frame(limit, client, h, s[2..], |data|);
        if f.Payload? && !h.fin {
          var named := if opcode == 0 && h.opcode != CONTINUE then h.opcode else opcode;
          CountsOn(limit, client, f.rest, data + f.text, named, k, n);
        }
      }
    }
  }

  /** The head of a ping, whatever its other bits: opcode 9. */
  predicate IsPing(a: Byte) { a as int % 16 == 9 }

  /** A ping is answered exactly once and changes nothing else of what is received. */
  lemma PingAnswered(limit: Limit, client: bool, a: Byte, b: Byte, s: Bytes, data: Bytes, opcode: nat, k: nat)
    requires IsPing(a)
    ensures Receive(limit, client, [a, b] + s, data, opcode, k) ==
            WithPongs(Receive(limit, client, s, data, opcode, k), 1)
  {
    CountsOn(limit, client, s, data, opcode, k, 1);
    hide Frame;
    assert ([a, b] + s)[2..] == s;
  }

  /** So two peers that answer each other's answers stay silent: a stream of answers alone gets none. */
  lemma AnswersUnanswered(limit: Limit, client: bool, n: nat)
    ensures Receive(limit, client, Pongs(n), [], 0, 0) == Closed(0)
  {
    PongsPassed(limit, client, n, [], [], 0, 0);
    assert Pongs(n) + [] == Pongs(n);
  }

  /** Any other control frame is passed over: those of the opcodes from 3 on but 9. */
  lemma ControlPassed(limit: Limit, client: bool, a: Byte, b: Byte, s: Bytes, data: Bytes, opcode: nat, k: nat)
    requires a as int % 16 >= 3 && !IsPing(a)
    ensures Receive(limit, client, [a, b] + s, data, opcode, k) == Receive(limit, client, s, data, opcode, k)
  {
    hide Frame;
    assert ([a, b] + s)[2..] == s;
  }

  // ---------------------------------------------------------------- fragments that are refused

  predicate Unwelcome(limit: Limit, client: bool, f: Fragment, have: nat) {
    f.text == [] || (!client && f.mask.None?) || have + |f.text| >= limit
  }

  /** The head of a fragment, and what follows it. */
  lemma WireParts(f: Fragment, rest: Bytes)
    requires WellFormed(f)
    ensures var s := Wire(f) + rest;
            && FormPayload(f.form, |f.text|) < 128 && |s| >= 2
            && HeadOf(s[0], s[1]) == Head(f.fin, f.opcode, f.mask.Some?, FormPayload(f.form, |f.text|))
            && s[2..] == FormBytes(f.form, |f.text|) + (Body(f) + rest)
  {
    PayloadSmall(f);
    var h := Head(f.fin, f.opcode, f.mask.Some?, FormPayload(f.form, |f.text|));
    HeadBack(h);
    assert |HeadBytes(h)| == 2;
    hide FormBytes, FormPayload, Body, HeadOf, HeadBytes, WellFormed;
    var tail := FormBytes(f.form, |f.text|) + (Body(f) + rest);
    assert Wire(f) + rest == HeadBytes(h) + tail;
    hide Wire;
    TwoAndMore(HeadBytes(h), tail);
  }

  lemma TwoAndMore(two: Bytes, more: Bytes)
    requires |two| == 2
    ensures var s := two + more; s[2..] == more && s[0] == two[0] && s[1] == two[1]
  {
  }

  lemma FrameRefused(limit: Limit, client: bool, f: Fragment, rest: Bytes, have: nat)
    requires WellFormed(f) && have + |f.text| < WORD && FormPayload(f.form, |f.text|) < 128
    ensures var h := Head(f.fin, f.opcode, f.mask.Some?, FormPayload(f.form, |f.text|));
            Frame(limit, client, h, FormBytes(f.form, |f.text|) + (Body(f) + rest), have).Refused?
            <==> Unwelcome(limit, client, f, have)
  {
    hide Masked, FormBytes, FormPayload, Body, Length;
    LengthBack(f.form, |f.text|, Body(f) + rest);
    if !Unwelcome(limit, client, f, have) {
      FrameBack(limit, client, f, rest, have);
    }
  }

  /** A fragment is refused, and the stream closed, if and only if it is empty, or has no mask where a server reads,
      or makes the message too long; otherwise its payload is taken. */
  lemma FragmentRefused(limit: Limit, client: bool, f: Fragment, rest: Bytes, data: Bytes, opcode: nat, k: nat)
    requires WellFormed(f) && IsData(f.opcode) && |data| + |f.text| < WORD
    ensures var code := if opcode == 0 && f.opcode != CONTINUE then f.opcode else opcode;
            Receive(limit, client, Wire(f) + rest, data, opcode, k) ==
            if Unwelcome(limit, client, f, |data|) then Closed(k)
            else if f.fin then Message(code, data + f.text, rest, k)
            else Receive(limit, client, rest, data + f.text, code, k)
  {
    WireParts(f, rest);
    FrameRefused(limit, client, f, rest, |data|);
    hide Frame, FormBytes, FormPayload, Body, HeadOf, Wire;
    if !Unwelcome(limit, client, f, |data|) {
      ReceiveOne(limit, client, f, rest, data, opcode, k);
    }
  }

  // ---------------------------------------------------------------- the examples of the standard

  const HELLO: Bytes := ['H', 'e', 'l', 'l', 'o']

  function FormSize(form: Form): nat { if form.Short? then 0 else if form.Medium? then 2 else 8 }

  /** No other form in which the length fits takes fewer bytes (section 5.2 of RFC 6455). */
  ghost predicate Shortest(form: Form, n: nat) {
    Fits(form, n) && forall other: Form :: Fits(other, n) ==> FormSize(form) <= FormSize(other)
  }

  /** The sender uses the shortest form but for lengths from 255 to 65535, which take eight bytes where two would do. */
  lemma ShortestExactly(n: nat)
    requires n < WORD
    ensures Fits(FormFor(n), n) && (Shortest(FormFor(n), n) <==> n < 255 || n > 65535)
  {
    if 255 <= n <= 65535 {
      assert Fits(Medium, n);
    }
  }

  /** A text frame without a mask (section 5.7 of RFC 6455). */
  lemma UnmaskedHello()
    ensures Wire(Fragment(true, TEXT, Short, None, HELLO)) == [0x81 as char, 0x05 as char] + HELLO
  {
  }

  /** The same in two fragments. */
  lemma FragmentedHello()
    ensures Wire(Fragment(false, TEXT, Short, None, ['H', 'e', 'l'])) == [0x01 as char, 0x03 as char, 'H', 'e', 'l']
    ensures Wire(Fragment(true, CONTINUE, Short, None, ['l', 'o'])) == [0x80 as char, 0x02 as char, 'l', 'o']
  {
  }

  /** Each bit of a masked byte is that of the byte, turned if the bit of the key's byte in turn is set (section 5.3
      of RFC 6455). */
  lemma MaskedBits(key: Key, s: Bytes, i: nat, b: nat)
    requires i < |s| && b < 8
    ensures BitOf(Masked(key, s)[i] as int, b) == if BitOf(key[i % 4] as int, b) then !BitOf(s[i] as int, b)
                                                  else BitOf(s[i] as int, b)
  {
    TwoByte();
    XorBit(8, s[i] as int, key[i % 4] as int, b);
  }

  lemma BigForms()
    ensures Big(256, 2) == [0x01 as char, '\0']
    ensures Big(0x1_0000, 8) == ['\0', '\0', '\0', '\0', '\0', 0x01 as char, '\0', '\0']
  {
    assert Big(256, 2) == Big(1, 1) + ['\0'] && Big(1, 1) == Big(0, 0) + [0x01 as char];
    assert Big(0x1_0000, 8) == Big(256, 7) + ['\0'];
    assert Big(256, 7) == Big(1, 6) + ['\0'] && Big(1, 6) == Big(0, 5) + [0x01 as char];
    assert Big(0, 5) == Big(0, 4) + ['\0'] && Big(0, 4) == Big(0, 3) + ['\0'];
    assert Big(0, 3) == Big(0, 2) + ['\0'] && Big(0, 2) == Big(0, 1) + ['\0'] && Big(0, 1) == Big(0, 0) + ['\0'];
  }

  lemma HeadForms()
    ensures HeadBytes(Head(true, BINARY, false, 126)) == [0x82 as char, 0x7E as char]
    ensures HeadBytes(Head(true, BINARY, false, 127)) == [0x82 as char, 0x7F as char]
  {
  }

  /** Lengths of 256 and of 65536 bytes in binary frames: the length in two and in eight bytes, high byte first. */
  lemma LongForms(a: Bytes, b: Bytes)
    requires |a| == 256 && |b| == 0x1_0000
    ensures Wire(Fragment(true, BINARY, Medium, None, a)) ==
            [0x82 as char, 0x7E as char, 0x01 as char, '\0'] + a
    ensures Wire(Fragment(true, BINARY, Long, None, b)) ==
            [0x82 as char, 0x7F as char, '\0', '\0', '\0', '\0', '\0', 0x01 as char, '\0', '\0'] + b
  {
    BigForms();
    HeadForms();
    hide Big, HeadBytes, Masked;
  }
}
