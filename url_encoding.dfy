/** How the API key is put into a query string: PHP's `urlencode` applied
    to the key's bytes (its UTF-8 encoding), and the form decoding a server
    applies to get the bytes back. */
module UrlEncoding {
  import opened Wrappers

  newtype Byte = x: int | 0 <= x < 256

  /** The UTF-8 encoding of one character. */
  function Utf8Char(c: char): (r: seq<Byte>)
    ensures 1 <= |r| <= 4
    ensures |r| == 1 <==> c as int < 0x80
    ensures |r| == 1 ==> r[0] as int == c as int
    ensures forall i :: 1 <= i < |r| ==> 0x80 <= r[i] < 0xC0
  {
    var n := c as int;
    if n < 0x80 then [n as Byte]
    else if n < 0x800 then [(0xC0 + n / 64) as Byte, (0x80 + n % 64) as Byte]
    else if n < 0x10000 then
      [(0xE0 + n / 4096) as Byte, (0x80 + (n / 64) % 64) as Byte, (0x80 + n % 64) as Byte]
    else
      [(0xF0 + n / 262144) as Byte, (0x80 + (n / 4096) % 64) as Byte,
       (0x80 + (n / 64) % 64) as Byte, (0x80 + n % 64) as Byte]
  }

  /** The bytes of the PHP string holding `s`. */
  function Utf8(s: string): (r: seq<Byte>)
    ensures |r| >= |s|
  {
    if s == [] then [] else Utf8Char(s[0]) + Utf8(s[1..])
  }

  /** The bytes `urlencode` leaves as they are: ASCII letters, digits and
      `-`, `_`, `.`. */
  predicate IsUnreservedChar(c: char) {
    ('a' <= c <= 'z') || ('A' <= c <= 'Z') || ('0' <= c <= '9') || c == '-' || c == '_' || c == '.'
  }

  predicate IsUnreserved(b: Byte) {
    IsUnreservedChar(b as int as char)
  }

  /** The characters an encoded value can contain; none of them ends a query
      parameter ('&'), starts a fragment ('#') or separates a name ('='). */
  predicate IsEncodedChar(c: char) {
    IsUnreservedChar(c) || c == '+' || c == '%'
  }

  function HexDigit(d: int): (c: char)
    requires 0 <= d < 16
    ensures IsUnreservedChar(c)
  {
    "0123456789ABCDEF"[d]
  }

  /** The value of a hexadecimal digit, in either case. */
  function HexValue(c: char): (r: Option<int>)
    ensures r.Some? ==> 0 <= r.value < 16
  {
    if '0' <= c <= '9' then Some(c as int - '0' as int)
    else if 'A' <= c <= 'F' then Some(c as int - 'A' as int + 10)
    else if 'a' <= c <= 'f' then Some(c as int - 'a' as int + 10)
    else None
  }

  lemma HexRoundTrip(d: int)
    requires 0 <= d < 16
    ensures HexValue(HexDigit(d)) == Some(d)
  {
  }

  /** `urlencode` of one byte: kept when unreserved, '+' for a space,
      otherwise '%' and two upper-case hexadecimal digits. */
  function EncodeByte(b: Byte): (r: string)
    ensures 1 <= |r| <= 3
    ensures forall i :: 0 <= i < |r| ==> IsEncodedChar(r[i])
  {
    if IsUnreserved(b) then [b as int as char]
    else if b == 32 then "+"
    else ['%', HexDigit(b as int / 16), HexDigit(b as int % 16)]
  }

  /** PHP `urlencode` on a byte string. */
  function UrlEncode(bs: seq<Byte>): (r: string)
    ensures |r| >= |bs|
    ensures forall i :: 0 <= i < |r| ==> IsEncodedChar(r[i])
  {
    if bs == [] then "" else EncodeByte(bs[0]) + UrlEncode(bs[1..])
  }

  function Prepend(b: Byte, rest: Option<seq<Byte>>): Option<seq<Byte>> {
    if rest.Some? then Some([b] + rest.value) else None
  }

  /** Decoding of a form-encoded value: '+' is a space, '%' with two
      hexadecimal digits is that byte, an unreserved character is itself,
      and anything else makes the value malformed. */
  function FormDecode(s: string): Option<seq<Byte>>
    decreases |s|
  {
    if s == [] then Some([])
    else if s[0] == '+' then Prepend(32, FormDecode(s[1..]))
    else if s[0] == '%' then
      if |s| >= 3 && HexValue(s[1]).Some? && HexValue(s[2]).Some? then
        Prepend((16 * HexValue(s[1]).value + HexValue(s[2]).value) as Byte, FormDecode(s[3..]))
      else None
    else if IsUnreservedChar(s[0]) then Prepend(s[0] as int as Byte, FormDecode(s[1..]))
    else None
  }

  /** Decoding consumes exactly the encoding of one byte and yields that
      byte. */
  lemma DecodeEncodedByte(b: Byte, rest: string)
    ensures FormDecode(EncodeByte(b) + rest) == Prepend(b, FormDecode(rest))
  {
    var s := EncodeByte(b) + rest;
    if IsUnreserved(b) {
      var c := b as int as char;
      assert s == [c] + rest && s[0] == c && s[1..] == rest;
      assert IsUnreservedChar(c) && c != '+' && c != '%';
      assert FormDecode(s) == Prepend(c as int as Byte, FormDecode(rest));
    } else if b == 32 {
      assert s == "+" + rest && s[1..] == rest;
    } else {
      var hi, lo := b as int / 16, b as int % 16;
      HexRoundTrip(hi);
      HexRoundTrip(lo);
      assert s == ['%', HexDigit(hi), HexDigit(lo)] + rest;
      assert s[0] == '%' && s[1] == HexDigit(hi) && s[2] == HexDigit(lo) && s[3..] == rest;
      assert (16 * hi + lo) as Byte == b;
    }
  }

  /** Decoding what `urlencode` produced gives back the original bytes. */
  lemma {:induction false} DecodeEncode(bs: seq<Byte>)
    ensures FormDecode(UrlEncode(bs)) == Some(bs)
  {
    if bs != [] {
      DecodeEncode(bs[1..]);
      DecodeEncodedByte(bs[0], UrlEncode(bs[1..]));
      assert [bs[0]] + bs[1..] == bs;
    }
  }
}
