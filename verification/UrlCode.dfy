/** Percent coding (section 2.1 of RFC 3986) as the server writes and reads it. */
module UrlCodes {
  import opened HttpSyntax

  /** The bytes the table leaves as they are; '=' is among them, although the comment over the encoder does not
      list it. */
  predicate Kept(c: Byte) { IsAlphaNum(c) || c == '-' || c == '.' || c == '_' || c == '~' || c == '=' }

  function HexDigit(n: nat): (c: Byte)
    requires n < 16
    ensures IsHex(c) && HexValue(c) == n
  {
    if n < 10 then ('0' as int + n) as char else ('A' as int + n - 10) as char
  }

  function HexValue(c: Byte): (n: nat)
    requires IsHex(c)
    ensures n < 16
  {
    if IsNum(c) then c as int - '0' as int
    else if IsLower(c) then c as int - 'a' as int + 10
    else c as int - 'A' as int + 10
  }

  function EncodeByte(c: Byte, plus: bool): Bytes {
    if Kept(c) then [c]
    else if c == ' ' && plus then ['+']
    else ['%', HexDigit(c as int / 16), HexDigit(c as int % 16)]
  }

  const MARKS: string := "-._~"
  const UNRESERVED: string := UPPER_LETTERS + LOWER_LETTERS + DECIMAL_DIGITS + MARKS

  const HEX_DIGITS: string := "0123456789ABCDEF"

  /** A byte is left as it is exactly when it is unreserved (section 2.3 of RFC 3986) or '='; otherwise it is written
      as '+', if it is a blank and that is asked for, or escaped with the two digits of its value, high one first. */
  lemma EscapedExactly(c: Byte, plus: bool)
    ensures EncodeByte(c, plus) == [c] <==> c in UNRESERVED || c == '='
    ensures !(c in UNRESERVED || c == '=') ==>
              EncodeByte(c, plus) == if c == ' ' && plus then ['+']
                                     else ['%', HEX_DIGITS[c as int / 16], HEX_DIGITS[c as int % 16]]
  {
    UnreservedIs(c);
    HexDigitIs(c as int / 16);
    HexDigitIs(c as int % 16);
    hide UNRESERVED, HEX_DIGITS;
  }

  lemma UnreservedIs(c: Byte)
    ensures c in UNRESERVED <==> IsAlphaNum(c) || c == '-' || c == '.' || c == '_' || c == '~'
  {
    assert MARKS == ['-', '.', '_', '~'];
    InTables(c);
    hide MARKS, UPPER_LETTERS, LOWER_LETTERS, DECIMAL_DIGITS, IsUpper, IsLower, IsNum;
  }

  /** A table that holds the bytes from one on in order holds just those. */
  lemma InRange(table: string, first: char, n: nat, c: Byte)
    requires |table| == n && first as int + n < 256
    requires forall i :: 0 <= i < n ==> table[i] == (first as int + i) as char
    ensures c in table <==> first as int <= c as int < first as int + n
  {
    if first as int <= c as int < first as int + n {
      assert table[c as int - first as int] == c;
    }
  }

  lemma InTables(c: Byte)
    ensures c in UPPER_LETTERS <==> IsUpper(c)
    ensures c in LOWER_LETTERS <==> IsLower(c)
    ensures c in DECIMAL_DIGITS <==> IsNum(c)
  {
    UppersAre(0);
    LowersAre(0);
    DecimalsAre(0);
    hide UPPER_LETTERS, LOWER_LETTERS, DECIMAL_DIGITS;
    forall i | 0 <= i < 26 ensures UPPER_LETTERS[i] == ('A' as int + i) as char { UppersAre(i); }
    forall i | 0 <= i < 26 ensures LOWER_LETTERS[i] == ('a' as int + i) as char { LowersAre(i); }
    forall i | 0 <= i < 10 ensures DECIMAL_DIGITS[i] == ('0' as int + i) as char { DecimalsAre(i); }
    InRange(UPPER_LETTERS, 'A', 26, c);
    InRange(LOWER_LETTERS, 'a', 26, c);
    InRange(DECIMAL_DIGITS, '0', 10, c);
  }

  lemma HexDigitIs(n: nat)
    requires n < 16
    ensures HexDigit(n) == HEX_DIGITS[n]
  {
  }

  function Encode(s: Bytes, plus: bool): Bytes
    decreases |s|
  {
    if s == [] then [] else EncodeByte(s[0], plus) + Encode(s[1..], plus)
  }

  predicate Escaped(t: Bytes) { |t| >= 3 && t[0] == '%' && IsHex(t[1]) && IsHex(t[2]) }

  function Unescape(t: Bytes): Byte
    requires Escaped(t)
  {
    (16 * HexValue(t[1]) + HexValue(t[2])) as char
  }

  /** The byte that a nonempty text begins with, decoded, and how many bytes it was written with. */
  function Head(t: Bytes, plus: bool): (r: (Byte, nat))
    requires t != []
    ensures 1 <= r.1 <= |t|
  {
    if t[0] == '+' && plus then (' ', 1)
    else if Escaped(t) then (Unescape(t), 3)
    else (t[0], 1)
  }

  function Decode(t: Bytes, plus: bool): Bytes
    decreases |t|
  {
    if t == [] then [] else var (c, n) := Head(t, plus); [c] + Decode(t[n..], plus)
  }

  // ---------------------------------------------------------------- there and back

  /** What becomes of a byte that is encoded with one flag and decoded with another. */
  function Through(c: Byte, plus: bool, plus': bool): Byte {
    if c == ' ' && plus && !plus' then '+' else c
  }

  lemma HeadBack(c: Byte, plus: bool, plus': bool, rest: Bytes)
    ensures var t := EncodeByte(c, plus) + rest;
            Head(t, plus') == (Through(c, plus, plus'), |EncodeByte(c, plus)|) && t[|EncodeByte(c, plus)|..] == rest
  {
    var e := EncodeByte(c, plus);
    var t := e + rest;
    assert t[|e|..] == rest && t[0] == e[0];
    if |e| == 3 {
      assert t[1] == e[1] && t[2] == e[2];
    }
  }

  lemma {:induction false} DecodeBack(s: Bytes, plus: bool, plus': bool)
    ensures |Decode(Encode(s, plus), plus')| == |s|
    ensures forall i :: 0 <= i < |s| ==> Decode(Encode(s, plus), plus')[i] == Through(s[i], plus, plus')
    decreases |s|
  {
    hide Through, EncodeByte, Head;
    if s != [] {
      HeadBack(s[0], plus, plus', Encode(s[1..], plus));
      DecodeBack(s[1..], plus, plus');
    }
  }

  /** Whatever is encoded is decoded again, with the same flag or another, but for one case: blanks written as
      '+' and read without that convention. */
  lemma RoundTrip(s: Bytes, plus: bool, plus': bool)
    ensures Decode(Encode(s, plus), plus') == s <==> (plus' || !plus || ' ' !in s)
  {
    hide Decode, Encode;
    DecodeBack(s, plus, plus');
    if plus && !plus' && ' ' in s {
      var i :| 0 <= i < |s| && s[i] == ' ';
      assert Decode(Encode(s, plus), plus')[i] == '+';
    }
  }

  /** A text as the encoder writes it: nothing that could stand for itself is escaped, digits are upper case. */
  predicate Canonical(t: Bytes, plus: bool)
    decreases |t|
  {
    t == []
    || (Kept(t[0]) && Canonical(t[1..], plus))
    || (t[0] == '+' && plus && Canonical(t[1..], plus))
    || (Escaped(t) && !IsLower(t[1]) && !IsLower(t[2]) && !Kept(Unescape(t)) && !(Unescape(t) == ' ' && plus)
        && Canonical(t[3..], plus))
  }

  lemma {:induction false} EncodedCanonical(s: Bytes, plus: bool)
    ensures Canonical(Encode(s, plus), plus)
    decreases |s|
  {
    if s != [] {
      EncodedCanonical(s[1..], plus);
      HeadBack(s[0], plus, plus, Encode(s[1..], plus));
    }
  }

  lemma EscapeBack(t: Bytes, plus: bool)
    requires Escaped(t) && !IsLower(t[1]) && !IsLower(t[2]) && !Kept(Unescape(t)) && !(Unescape(t) == ' ' && plus)
    ensures EncodeByte(Unescape(t), plus) == t[..3]
  {
    assert HexDigit(HexValue(t[1])) == t[1] && HexDigit(HexValue(t[2])) == t[2];
  }

  lemma {:induction false} CanonicalBack(t: Bytes, plus: bool)
    requires Canonical(t, plus)
    ensures Encode(Decode(t, plus), plus) == t
    decreases |t|
  {
    if t != [] {
      var (c, n) := Head(t, plus);
      if n == 3 {
        EscapeBack(t, plus);
      }
      assert EncodeByte(c, plus) == t[..n] && Canonical(t[n..], plus);
      CanonicalBack(t[n..], plus);
      assert Decode(t, plus)[0] == c && Decode(t, plus)[1..] == Decode(t[n..], plus);
    }
  }

  /** Decoding can be undone exactly where the encoder could have written the text. */
  lemma EncodeBack(t: Bytes, plus: bool)
    ensures Encode(Decode(t, plus), plus) == t <==> Canonical(t, plus)
  {
    hide Encode, Decode, Canonical;
    EncodedCanonical(Decode(t, plus), plus);
    if Canonical(t, plus) {
      CanonicalBack(t, plus);
    }
  }

  const LOWER_HEX_DIGITS: string := "0123456789abcdef"

  lemma HexIs(n: nat)
    requires n < 16
    ensures IsHex(HEX_DIGITS[n]) && HexValue(HEX_DIGITS[n]) == n
    ensures IsHex(LOWER_HEX_DIGITS[n]) && HexValue(LOWER_HEX_DIGITS[n]) == n
  {
  }

  /** The digit of a number, in either case. */
  function EitherDigit(n: nat, lower: bool): Byte
    requires n < 16
  {
    if lower then LOWER_HEX_DIGITS[n] else HEX_DIGITS[n]
  }

  /** An escape is read with its digits in either case, high one first. */
  lemma EscapeRead(high: nat, low: nat, a: bool, b: bool, rest: Bytes, plus: bool)
    requires high < 16 && low < 16
    ensures Decode(['%', EitherDigit(high, a), EitherDigit(low, b)] + rest, plus) ==
            [(16 * high + low) as char] + Decode(rest, plus)
  {
    HexIs(high);
    HexIs(low);
    hide HexValue, IsHex, HEX_DIGITS, LOWER_HEX_DIGITS;
    var t := ['%', EitherDigit(high, a), EitherDigit(low, b)] + rest;
    assert t[3..] == rest;
  }

  /** What is no escape stands for itself, but for a `+` where that stands for a blank; a `%` among the rest. */
  lemma OtherRead(c: Byte, rest: Bytes, plus: bool)
    requires !Escaped([c] + rest)
    ensures Decode([c] + rest, plus) == [if c == '+' && plus then ' ' else c] + Decode(rest, plus)
  {
    assert ([c] + rest)[1..] == rest;
  }

  // ---------------------------------------------------------------- the loops

  method AppendEncoded(ss: Bytes, c: Byte, plus: bool) returns (r: Bytes)
    requires !Kept(c)
    ensures r == ss + EncodeByte(c, plus)
  {
    if c == ' ' && plus {
      r := ss + ['+'];
    } else {
      r := ss + ['%'];
      r := r + [HexDigit(c as int / 16)];
      r := r + [HexDigit(c as int % 16)];
    }
  }

  lemma EncodeFrom(s: Bytes, c: nat, plus: bool, before: Bytes)
    requires c < |s|
    ensures before + Encode(s[c..], plus) == before + EncodeByte(s[c], plus) + Encode(s[c + 1..], plus)
  {
    hide EncodeByte;
    assert s[c..][1..] == s[c + 1..];
  }

  lemma KeptAlone(c: Byte, plus: bool)
    requires Kept(c)
    ensures EncodeByte(c, plus) == [c]
  {
  }

  /** A copy is made only when the first byte changes; until then the text stands for itself. */
  method UrlEncode(str: Bytes, plus: bool) returns (r: Bytes)
    ensures r == Encode(str, plus)
  {
    hide Encode, EncodeByte, Kept;
    var copied := false;
    var ss: Bytes := [];
    for c := 0 to |str|
      invariant (if copied then ss else str[..c]) + Encode(str[c..], plus) == Encode(str, plus)
    {
      EncodeFrom(str, c, plus, if copied then ss else str[..c]);
      assert str[..c + 1] == str[..c] + [str[c]];
      if !Kept(str[c]) {
        if !copied {
          copied, ss := true, str[..c];
        }
        ss := AppendEncoded(ss, str[c], plus);
      } else {
        KeptAlone(str[c], plus);
        if copied {
          ss := ss + [str[c]];
        }
      }
    }
    EncodeNothing(plus);
    assert str[..|str|] == str && str[|str|..] == [];
    r := if copied then ss else str;
    assert r + [] == r;
  }

  lemma EncodeNothing(plus: bool)
    ensures Encode([], plus) == []
  {
  }

  method UrlDecode(str: Bytes, plus: bool) returns (r: Bytes)
    ensures r == Decode(str, plus)
  {
    hide Decode, Head, HexValue, IsHex;
    var copied, c := false, 0;
    var ss: Bytes := [];
    while c < |str|
      invariant c <= |str|
      invariant (if copied then ss else str[..c]) + Decode(str[c..], plus) == Decode(str, plus)
    {
      HeadAt(str, c, plus);
      DecodeFrom(str, c, plus, if copied then ss else str[..c]);
      assert str[..c + 1] == str[..c] + [str[c]];
      if str[c] == '+' && plus {
        if !copied {
          copied, ss := true, str[..c];
        }
        ss := ss + [' '];
      } else if str[c] == '%' && c + 2 < |str| && IsHex(str[c + 1]) && IsHex(str[c + 2]) {
        if !copied {
          copied, ss := true, str[..c];
        }
        ss := ss + [(16 * HexValue(str[c + 1]) + HexValue(str[c + 2])) as char];
        c := c + 2;
      } else if copied {
        ss := ss + [str[c]];
      }
      c := c + 1;
    }
    DecodeNothing(plus);
    assert str[..|str|] == str && str[|str|..] == [];
    r := if copied then ss else str;
    assert r + [] == r;
  }

  lemma DecodeNothing(plus: bool)
    ensures Decode([], plus) == []
  {
  }

  lemma DecodeFrom(s: Bytes, c: nat, plus: bool, before: Bytes)
    requires c < |s|
    ensures var (b, n) := Head(s[c..], plus);
            c + n <= |s| && before + Decode(s[c..], plus) == before + [b] + Decode(s[c + n..], plus)
  {
    hide Head;
    var (b, n) := Head(s[c..], plus);
    assert s[c..][n..] == s[c + n..];
    assert before + ([b] + Decode(s[c + n..], plus)) == before + [b] + Decode(s[c + n..], plus);
  }

  /** The head of a tail, by the bytes of the whole. */
  lemma HeadAt(s: Bytes, c: nat, plus: bool)
    requires c < |s|
    ensures var escaped := s[c] == '%' && c + 2 < |s| && IsHex(s[c + 1]) && IsHex(s[c + 2]);
            var (b, n) := Head(s[c..], plus);
            && s[c..][n..] == s[c + n..]
            && (if s[c] == '+' && plus then b == ' ' && n == 1
                else if escaped then b == (16 * HexValue(s[c + 1]) + HexValue(s[c + 2])) as char && n == 3
                else b == s[c] && n == 1)
  {
  }
}
