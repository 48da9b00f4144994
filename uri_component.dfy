/** `encodeURIComponent` (ECMAScript) and the percent-decoding that undoes
    it (URL Standard, "percent-decode"; RFC 3986 section 2.1). */
module UriComponent {
  import Utf8

  /** The characters `encodeURIComponent` leaves as they are: ASCII
      letters, digits and - _ . ! ~ * ' ( ) */
  predicate Unreserved(c: char) {
    || 'A' <= c <= 'Z' || 'a' <= c <= 'z' || '0' <= c <= '9'
    || c == '-' || c == '_' || c == '.' || c == '!' || c == '~'
    || c == '*' || c == '\'' || c == '(' || c == ')'
  }

  predicate IsHexDigit(c: char) {
    '0' <= c <= '9' || 'A' <= c <= 'F' || 'a' <= c <= 'f'
  }

  /** The upper-case hexadecimal digit for 0 <= d < 16 */
  function HexDigit(d: int): (c: char)
    requires 0 <= d < 16
    ensures IsHexDigit(c) && Unreserved(c)
  {
    if d < 10 then ('0' as int + d) as char else ('A' as int + d - 10) as char
  }

  /** The value of a hexadecimal digit of either case */
  function HexValue(c: char): (d: int)
    requires IsHexDigit(c)
    ensures 0 <= d < 16
  {
    if '0' <= c <= '9' then c as int - '0' as int
    else if 'A' <= c <= 'F' then c as int - 'A' as int + 10
    else c as int - 'a' as int + 10
  }

  /** "%XY" for one byte, upper-case digits as RFC 3986 section 2.1 recommends */
  function PercentByte(b: Utf8.Byte): (s: string)
    ensures |s| == 3 && s[0] == '%' && IsHexDigit(s[1]) && IsHexDigit(s[2])
    ensures HexValue(s[1]) * 16 + HexValue(s[2]) == b
  {
    ['%', HexDigit(b / 16), HexDigit(b % 16)]
  }

  function PercentBytes(bytes: seq<Utf8.Byte>): (s: string)
    ensures forall i | 0 <= i < |s| :: Unreserved(s[i]) || s[i] == '%'
    decreases |bytes|
  {
    if bytes == [] then "" else PercentByte(bytes[0]) + PercentBytes(bytes[1..])
  }

  /** `encodeURIComponent(s)`: unreserved characters stay, every other
      character becomes the percent-escapes of its UTF-8 bytes, so the
      result holds nothing but unreserved characters and '%' */
  function EncodeURIComponent(s: string): (r: string)
    ensures forall i | 0 <= i < |r| :: Unreserved(r[i]) || r[i] == '%'
    decreases |s|
  {
    if s == [] then ""
    else
      var head := if Unreserved(s[0]) then [s[0]] else PercentBytes(Utf8.EncodeChar(s[0]));
      var r := head + EncodeURIComponent(s[1..]);
      assert forall i | 0 <= i < |head| :: r[i] == head[i];
      assert forall i | |head| <= i < |r| :: r[i] == EncodeURIComponent(s[1..])[i - |head|];
      r
  }

  /** Text made only of unreserved characters is left as it is */
  lemma {:induction false} EncodeUnreserved(s: string)
    requires forall i | 0 <= i < |s| :: Unreserved(s[i])
    ensures EncodeURIComponent(s) == s
    decreases |s|
  {
    if s != [] {
      assert Unreserved(s[0]);
      EncodeUnreserved(s[1..]);
      assert s == [s[0]] + s[1..];
    }
  }

  /** Percent-decoding of a string: each "%XY" with two hexadecimal digits
      becomes the byte XY; every other character, a '%' without two digits
      after it included, contributes its own UTF-8 bytes.  The URL Standard
      states this on the UTF-8 bytes of the string; since '%' and the digits
      are ASCII and no multi-byte UTF-8 sequence holds an ASCII byte, the
      two agree. */
  function PercentDecode(s: string): seq<Utf8.Byte>
    decreases |s|
  {
    if s == [] then []
    else if s[0] == '%' && |s| >= 3 && IsHexDigit(s[1]) && IsHexDigit(s[2]) then
      [HexValue(s[1]) * 16 + HexValue(s[2])] + PercentDecode(s[3..])
    else Utf8.EncodeChar(s[0]) + PercentDecode(s[1..])
  }

  /** Percent-decode, then UTF-8 decode */
  function DecodeComponent(s: string): string {
    Utf8.Decode(PercentDecode(s))
  }

  lemma {:induction false} PercentBytesDecode(bytes: seq<Utf8.Byte>, rest: string)
    ensures PercentDecode(PercentBytes(bytes) + rest) == bytes + PercentDecode(rest)
    decreases |bytes|
  {
    if bytes == [] {
      assert PercentBytes(bytes) + rest == rest;
    } else {
      var t := PercentBytes(bytes) + rest;
      var p := PercentByte(bytes[0]);
      assert t == p + (PercentBytes(bytes[1..]) + rest);
      assert t[0] == '%' && t[1] == p[1] && t[2] == p[2];
      assert t[3..] == PercentBytes(bytes[1..]) + rest;
      PercentBytesDecode(bytes[1..], rest);
    }
  }

  /** Percent-decoding the encoding of s gives back the UTF-8 bytes of s */
  lemma {:induction false} PercentDecodeEncode(s: string)
    ensures PercentDecode(EncodeURIComponent(s)) == Utf8.Encode(s)
    decreases |s|
  {
    if s != [] {
      var tail := EncodeURIComponent(s[1..]);
      PercentDecodeEncode(s[1..]);
      if Unreserved(s[0]) {
        var t := [s[0]] + tail;
        assert t[1..] == tail;
      } else {
        PercentBytesDecode(Utf8.EncodeChar(s[0]), tail);
      }
    }
  }

  /** `decodeURIComponent`-style round trip: decoding undoes the encoding
      for every string */
  lemma DecodeEncode(s: string)
    ensures DecodeComponent(EncodeURIComponent(s)) == s
  {
    PercentDecodeEncode(s);
    Utf8.DecodeEncode(s);
  }

  /** A string without '%' percent-decodes to its own UTF-8 bytes, so it
      decodes to itself */
  lemma {:induction false} DecodePlain(s: string)
    requires '%' !in s
    ensures PercentDecode(s) == Utf8.Encode(s)
    ensures DecodeComponent(s) == s
    decreases |s|
  {
    if s != [] {
      DecodePlain(s[1..]);
    }
    Utf8.DecodeEncode(s);
  }

  /** The encoding never holds a delimiter of a query string or of a
      fragment path, nor the '+' that form decoding turns into a space */
  lemma EncodedHasNoDelimiters(s: string)
    ensures var r := EncodeURIComponent(s);
      '?' !in r && '&' !in r && '=' !in r && '+' !in r && '#' !in r && '/' !in r
  {
  }
}
