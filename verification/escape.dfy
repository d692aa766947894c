/** Go's `url.QueryEscape`: the string is taken as its UTF-8 bytes; ASCII
    letters, digits and `-` `_` `.` `~` are kept, a space becomes `+`, and
    every other byte becomes `%` followed by two upper-case hex digits. */
module Escape {

  type Byte = b: int | 0 <= b < 256

  /** Characters `url.QueryEscape` leaves as they are. */
  predicate Unreserved(c: char) {
    || ('A' as int <= c as int <= 'Z' as int)
    || ('a' as int <= c as int <= 'z' as int)
    || ('0' as int <= c as int <= '9' as int)
    || c == '-' || c == '_' || c == '.' || c == '~'
  }

  /** The characters that can appear in an escaped string. */
  predicate EscapedChar(c: char) {
    Unreserved(c) || c == '%' || c == '+'
  }

  /** The UTF-8 encoding of one Unicode scalar value. */
  function Utf8(c: char): (bytes: seq<Byte>)
    ensures 1 <= |bytes| <= 4
    ensures (c as int < 0x80) <==> |bytes| == 1
    ensures |bytes| == 1 ==> bytes[0] == c as int
  {
    var cp := c as int;
    if cp < 0x80 then [cp]
    else if cp < 0x800 then [0xC0 + cp / 0x40, 0x80 + cp % 0x40]
    else if cp < 0x10000 then [0xE0 + cp / 0x1000, 0x80 + (cp / 0x40) % 0x40, 0x80 + cp % 0x40]
    else [0xF0 + cp / 0x40000, 0x80 + (cp / 0x1000) % 0x40, 0x80 + (cp / 0x40) % 0x40, 0x80 + cp % 0x40]
  }

  function HexDigit(d: nat): (c: char)
    requires d < 16
    ensures Unreserved(c)
  {
    "0123456789ABCDEF"[d]
  }

  /** `%XX` for each byte. */
  function PercentEncode(bytes: seq<Byte>): (s: string)
    ensures |s| == 3 * |bytes|
    ensures forall i :: 0 <= i < |s| ==> EscapedChar(s[i])
  {
    if |bytes| == 0 then ""
    else ['%', HexDigit(bytes[0] / 16), HexDigit(bytes[0] % 16)] + PercentEncode(bytes[1..])
  }

  function EscapeChar(c: char): (s: string)
    ensures forall i :: 0 <= i < |s| ==> EscapedChar(s[i])
  {
    if Unreserved(c) then [c]
    else if c == ' ' then "+"
    else PercentEncode(Utf8(c))
  }

  /** `url.QueryEscape(s)`. Its result never contains `&`, `=`, `"`, `,`,
      a space or a newline, which is what lets the joined strings built from
      it be split apart again. */
  function QueryEscape(s: string): (r: string)
    ensures forall i :: 0 <= i < |r| ==> EscapedChar(r[i])
    ensures |r| >= |s|
  {
    if |s| == 0 then ""
    else EscapeChar(s[0]) + QueryEscape(s[1..])
  }

  /** Escaping works character by character, so it distributes over
      concatenation. */
  lemma {:induction false} QueryEscapeConcat(a: string, b: string)
    ensures QueryEscape(a + b) == QueryEscape(a) + QueryEscape(b)
    decreases |a|
  {
    if |a| > 0 {
      assert (a + b)[0] == a[0];
      assert (a + b)[1..] == a[1..] + b;
      QueryEscapeConcat(a[1..], b);
    } else {
      assert a + b == b;
    }
  }

  /** A string of unreserved characters escapes to itself. */
  lemma {:induction false} QueryEscapeUnreserved(s: string)
    requires forall i :: 0 <= i < |s| ==> Unreserved(s[i])
    ensures QueryEscape(s) == s
    decreases |s|
  {
    if |s| > 0 {
      QueryEscapeUnreserved(s[1..]);
      assert s == [s[0]] + s[1..];
    }
  }

  /** The separators used to assemble OAuth strings never survive escaping. */
  lemma QueryEscapeAvoids(s: string)
    ensures '&' !in QueryEscape(s) && '=' !in QueryEscape(s)
    ensures '"' !in QueryEscape(s) && ',' !in QueryEscape(s)
    ensures ' ' !in QueryEscape(s) && '\n' !in QueryEscape(s)
  {
    var r := QueryEscape(s);
    forall i | 0 <= i < |r|
      ensures r[i] != '&' && r[i] != '=' && r[i] != '"' && r[i] != ',' && r[i] != ' ' && r[i] != '\n'
    {
      assert EscapedChar(r[i]);
    }
  }
}
