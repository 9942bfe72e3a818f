/** The character classes and method names that the HTTP/1.x parser tests bytes against (strict mode). */
module HttpSyntax {

  /** One byte of the wire, written as a character so that literals read like the protocol. */
  type Byte = c: char | c as int < 256
  type Bytes = seq<Byte>

  const CR: Byte := '\r'
  const LF: Byte := '\n'

  predicate IsUpper(c: Byte) { 'A' <= c <= 'Z' }

  predicate IsLower(c: Byte) { 'a' <= c <= 'z' }

  predicate IsAlpha(c: Byte) { IsUpper(c) || IsLower(c) }

  predicate IsNum(c: Byte) { '0' <= c <= '9' }

  predicate IsAlphaNum(c: Byte) { IsAlpha(c) || IsNum(c) }

  predicate IsHex(c: Byte) { IsNum(c) || 'a' <= c <= 'f' || 'A' <= c <= 'F' }

  const UPPER_LETTERS: string := "ABCDEFGHIJKLMNOPQRSTUVWXYZ"
  const LOWER_LETTERS: string := "abcdefghijklmnopqrstuvwxyz"
  const DECIMAL_DIGITS: string := "0123456789"

  /** The ranges are those of the letters and digits, in their order. */
  lemma UppersAre(i: nat)
    requires i < 26
    ensures |UPPER_LETTERS| == 26 && UPPER_LETTERS[i] == ('A' as int + i) as char
  {
  }

  lemma LowersAre(i: nat)
    requires i < 26
    ensures |LOWER_LETTERS| == 26 && LOWER_LETTERS[i] == ('a' as int + i) as char
  {
  }

  lemma DecimalsAre(i: nat)
    requires i < 10
    ensures |DECIMAL_DIGITS| == 10 && DECIMAL_DIGITS[i] == ('0' as int + i) as char
  {
  }

  predicate IsBlank(c: Byte) { c == ' ' || c == '\t' }

  predicate IsLineEnd(c: Byte) { c == CR || c == LF }

  function Digit(c: Byte): (d: nat)
    requires IsNum(c)
    ensures d <= 9
  {
    c as int - '0' as int
  }

  /** Sets the bit that separates the two cases of a letter, on every byte. */
  function OrSpace(c: Byte): Byte {
    if c as int / 32 % 2 == 0 then (c as int + 32) as char else c
  }

  /** A byte of an RFC 2616 token. */
  predicate IsToken(c: Byte) {
    || IsAlphaNum(c)
    || c == '!' || c == '#' || c == '$' || c == '%' || c == '&' || c == '\'' || c == '*' || c == '+'
    || c == '-' || c == '.' || c == '^' || c == '_' || c == '`' || c == '|' || c == '~'
  }

  const TOKEN_MARKS: string := "!#$%&'*+-.^_`|~"

  /** These are the characters of section 3.2.6 of RFC 7230. */
  lemma TokenIs(c: Byte)
    ensures IsToken(c) <==> IsAlphaNum(c) || c in TOKEN_MARKS
  {
    var marks := ['!', '#', '$', '%', '&', '\'', '*', '+', '-', '.', '^', '_', '`', '|', '~'];
    assert TOKEN_MARKS == marks;
    if c in marks {
      var i :| 0 <= i < |marks| && marks[i] == c;
    }
    assert forall i :: 0 <= i < |marks| ==> marks[i] in TOKEN_MARKS;
    hide IsAlphaNum;
  }

  /** The token table lowers upper-case letters. */
  function Lower(c: Byte): Byte {
    if IsUpper(c) then (c as int + 32) as char else c
  }

  /** A byte that may stand in a path, query or fragment; '?' and '#' are not among them. */
  predicate IsUrlChar(c: Byte) { '!' <= c <= '~' && c != '#' && c != '?' }

  predicate IsMark(c: Byte) {
    c == '-' || c == '_' || c == '.' || c == '!' || c == '~' || c == '*' || c == '\'' || c == '(' || c == ')'
  }

  predicate IsUserInfoChar(c: Byte) {
    || IsAlphaNum(c) || IsMark(c)
    || c == '%' || c == ';' || c == ':' || c == '&' || c == '=' || c == '+' || c == '$' || c == ','
  }

  predicate IsHostChar(c: Byte) { IsAlphaNum(c) || c == '.' || c == '-' }

  predicate IsHeaderChar(c: Byte) { c == CR || c == LF || c == '\t' || (c as int > 31 && c as int != 127) }

  /** The value of a hexadecimal digit, or -1.  The table has entries for 128 bytes only, so the
      C initialiser leaves 0, not -1, at every byte above them. */
  function Unhex(c: Byte): (v: int)
    ensures -1 <= v <= 15
  {
    if IsNum(c) then c as int - '0' as int
    else if 'a' <= c <= 'f' then c as int - 'a' as int + 10
    else if 'A' <= c <= 'F' then c as int - 'A' as int + 10
    else if c as int >= 128 then 0
    else -1
  }

  /** The byte at i, or NUL past the end, as in a C string. */
  function At(s: string, i: nat): char {
    if i < |s| then s[i] else '\0'
  }

  datatype Method =
    | DELETE | GET | HEAD | POST | PUT | CONNECT | OPTIONS | TRACE
    | COPY | LOCK | MKCOL | MOVE | PROPFIND | PROPPATCH | SEARCH | UNLOCK | BIND | REBIND | UNBIND | ACL
    | REPORT | MKACTIVITY | CHECKOUT | MERGE | MSEARCH | NOTIFY | SUBSCRIBE | UNSUBSCRIBE
    | PATCH | PURGE | MKCALENDAR | LINK | UNLINK | SOURCE

  /** The method's text.  M-SEARCH is spelled with blanks in the method table. */
  function MethodName(m: Method): (s: Bytes) {
    match m
    case DELETE => "DELETE" case GET => "GET" case HEAD => "HEAD" case POST => "POST" case PUT => "PUT"
    case CONNECT => "CONNECT" case OPTIONS => "OPTIONS" case TRACE => "TRACE" case COPY => "COPY"
    case LOCK => "LOCK" case MKCOL => "MKCOL" case MOVE => "MOVE" case PROPFIND => "PROPFIND"
    case PROPPATCH => "PROPPATCH" case SEARCH => "SEARCH" case UNLOCK => "UNLOCK" case BIND => "BIND"
    case REBIND => "REBIND" case UNBIND => "UNBIND" case ACL => "ACL" case REPORT => "REPORT"
    case MKACTIVITY => "MKACTIVITY" case CHECKOUT => "CHECKOUT" case MERGE => "MERGE"
    case MSEARCH => "M - SEARCH" case NOTIFY => "NOTIFY" case SUBSCRIBE => "SUBSCRIBE"
    case UNSUBSCRIBE => "UNSUBSCRIBE" case PATCH => "PATCH" case PURGE => "PURGE"
    case MKCALENDAR => "MKCALENDAR" case LINK => "LINK" case UNLINK => "UNLINK" case SOURCE => "SOURCE"
  }
}
