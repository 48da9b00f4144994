/** UTF-8 as the browser uses it on both sides of a query string:
    `encodeURIComponent` encodes each character's UTF-8 bytes, and
    `URLSearchParams` decodes the percent-decoded bytes with the UTF-8
    decoder of the WHATWG Encoding Standard (section 8.1.1), replacing
    every malformed sequence by U+FFFD. */
module Utf8 {

  type Byte = b: int | 0 <= b < 256

  /** U+FFFD REPLACEMENT CHARACTER */
  const Replacement: char := '\U{FFFD}'

  /** The UTF-8 bytes of one Unicode scalar value */
  function EncodeChar(c: char): (bytes: seq<Byte>)
    ensures 1 <= |bytes| <= 4
    ensures |bytes| == 1 <==> (c as int) < 0x80
    ensures |bytes| == 1 ==> bytes[0] == c as int
    ensures forall i | 1 <= i < |bytes| :: 0x80 <= bytes[i] < 0xC0
  {
    var n := c as int;
    if n < 0x80 then [n]
    else if n < 0x800 then [0xC0 + n / 64, 0x80 + n % 64]
    else if n < 0x10000 then [0xE0 + n / 4096, 0x80 + n / 64 % 64, 0x80 + n % 64]
    else [0xF0 + n / 0x40000, 0x80 + n / 4096 % 64, 0x80 + n / 64 % 64, 0x80 + n % 64]
  }

  /** The UTF-8 bytes of a string */
  function Encode(s: string): seq<Byte>
    decreases |s|
  {
    if s == [] then [] else EncodeChar(s[0]) + Encode(s[1..])
  }

  lemma {:induction false} EncodeAppend(s: string, t: string)
    ensures Encode(s + t) == Encode(s) + Encode(t)
    decreases |s|
  {
    if s != [] {
      assert (s + t)[0] == s[0] && (s + t)[1..] == s[1..] + t;
      EncodeAppend(s[1..], t);
      calc {
        Encode(s + t);
        EncodeChar(s[0]) + Encode(s[1..] + t);
        EncodeChar(s[0]) + (Encode(s[1..]) + Encode(t));
      }
    } else {
      assert s + t == t;
    }
  }

  /** The decoder's state: UTF-8 code point, bytes seen, bytes needed,
      lower boundary and upper boundary */
  datatype Decoder = Decoder(codePoint: int, seen: nat, needed: nat, lower: int, upper: int)

  const Initial := Decoder(0, 0, 0, 0x80, 0xBF)

  /** The states the decoder can reach: whatever continuation bytes the
      boundaries still admit, the finished code point is a scalar value */
  ghost predicate Reachable(d: Decoder) {
    && (d.needed == 0 ==> d == Initial)
    && (d.needed == 1 ==>
          d.seen == 0 && 2 <= d.codePoint < 32 && d.lower == 0x80 && d.upper == 0xBF)
    && (d.needed == 2 && d.seen == 0 ==>
          0 <= d.codePoint < 16
          && d.lower == (if d.codePoint == 0 then 0xA0 else 0x80)
          && d.upper == (if d.codePoint == 13 then 0x9F else 0xBF))
    && (d.needed == 2 && d.seen == 1 ==>
          0x20 <= d.codePoint < 0x400 && !(0x360 <= d.codePoint < 0x380)
          && d.lower == 0x80 && d.upper == 0xBF)
    && (d.needed == 3 && d.seen == 0 ==>
          0 <= d.codePoint <= 4
          && d.lower == (if d.codePoint == 0 then 0x90 else 0x80)
          && d.upper == (if d.codePoint == 4 then 0x8F else 0xBF))
    && (d.needed == 3 && d.seen == 1 ==>
          0x10 <= d.codePoint < 0x110 && d.lower == 0x80 && d.upper == 0xBF)
    && (d.needed == 3 && d.seen == 2 ==>
          0x400 <= d.codePoint < 0x4400 && d.lower == 0x80 && d.upper == 0xBF)
    && d.needed <= 3 && (d.needed > 0 ==> d.seen < d.needed)
  }

  /** Feeds the bytes to the decoder in state d; an error emits U+FFFD,
      and a byte outside the boundaries is put back and read again */
  function Run(bytes: seq<Byte>, d: Decoder): string
    requires Reachable(d)
    decreases |bytes|, d.needed
  {
    if |bytes| == 0 then
      if d.needed != 0 then [Replacement] else []
    else
      var b := bytes[0];
      if d.needed == 0 then
        if b <= 0x7F then [b as char] + Run(bytes[1..], Initial)
        else if 0xC2 <= b <= 0xDF then
          Run(bytes[1..], Decoder(b % 0x20, 0, 1, 0x80, 0xBF))
        else if 0xE0 <= b <= 0xEF then
          Run(bytes[1..], Decoder(b % 0x10, 0, 2, if b == 0xE0 then 0xA0 else 0x80, if b == 0xED then 0x9F else 0xBF))
        else if 0xF0 <= b <= 0xF4 then
          Run(bytes[1..], Decoder(b % 8, 0, 3, if b == 0xF0 then 0x90 else 0x80, if b == 0xF4 then 0x8F else 0xBF))
        else [Replacement] + Run(bytes[1..], Initial)
      else if b < d.lower || d.upper < b then
        [Replacement] + Run(bytes, Initial)
      else
        var cp := d.codePoint * 64 + b % 64;
        ContinuationStep(d, b);
        if d.seen + 1 == d.needed then [cp as char] + Run(bytes[1..], Initial)
        else Run(bytes[1..], Decoder(cp, d.seen + 1, d.needed, 0x80, 0xBF))
  }

  /** A byte inside the boundaries either finishes a scalar value or leads
      to another reachable state */
  lemma ContinuationStep(d: Decoder, b: Byte)
    requires Reachable(d) && d.needed > 0 && d.lower <= b <= d.upper
    ensures var cp := d.codePoint * 64 + b % 64;
      if d.seen + 1 == d.needed then 0x80 <= cp < 0xD800 || 0xE000 <= cp < 0x110000
      else Reachable(Decoder(cp, d.seen + 1, d.needed, 0x80, 0xBF))
  {
  }

  /** UTF-8 decode without BOM handling */
  function Decode(bytes: seq<Byte>): string {
    Run(bytes, Initial)
  }

  /** A continuation byte inside the boundaries extends the code point */
  lemma RunContinue(b: Byte, rest: seq<Byte>, d: Decoder)
    requires Reachable(d) && d.needed > 0 && d.lower <= b <= d.upper && d.seen + 1 < d.needed
    ensures Reachable(Decoder(d.codePoint * 64 + b % 64, d.seen + 1, d.needed, 0x80, 0xBF))
    ensures Run([b] + rest, d) == Run(rest, Decoder(d.codePoint * 64 + b % 64, d.seen + 1, d.needed, 0x80, 0xBF))
  {
    assert ([b] + rest)[1..] == rest;
  }

  /** The last continuation byte emits the finished code point */
  lemma RunFinish(b: Byte, rest: seq<Byte>, d: Decoder)
    requires Reachable(d) && d.needed > 0 && d.lower <= b <= d.upper && d.seen + 1 == d.needed
    ensures Run([b] + rest, d) == [(d.codePoint * 64 + b % 64) as char] + Run(rest, Initial)
  {
    assert ([b] + rest)[1..] == rest;
  }

  /** A lead byte sets up the decoder for its continuation bytes */
  lemma RunLead(b: Byte, rest: seq<Byte>)
    requires 0xC2 <= b <= 0xF4
    ensures b <= 0xDF ==> Run([b] + rest, Initial) == Run(rest, Decoder(b % 0x20, 0, 1, 0x80, 0xBF))
    ensures 0xE0 <= b <= 0xEF ==> (Run([b] + rest, Initial) ==
      Run(rest, Decoder(b % 0x10, 0, 2, if b == 0xE0 then 0xA0 else 0x80, if b == 0xED then 0x9F else 0xBF)))
    ensures 0xF0 <= b ==> (Run([b] + rest, Initial) ==
      Run(rest, Decoder(b % 8, 0, 3, if b == 0xF0 then 0x90 else 0x80, if b == 0xF4 then 0x8F else 0xBF)))
  {
    assert ([b] + rest)[1..] == rest;
  }

  lemma DecodeTwo(c: char, rest: seq<Byte>)
    requires 0x80 <= c as int < 0x800
    ensures Run(EncodeChar(c) + rest, Initial) == [c] + Run(rest, Initial)
  {
    var n := c as int;
    var b0, b1 := 0xC0 + n / 64, 0x80 + n % 64;
    assert EncodeChar(c) + rest == [b0] + ([b1] + rest);
    assert b0 % 0x20 == n / 64;
    RunLead(b0, [b1] + rest);
    RunFinish(b1, rest, Decoder(n / 64, 0, 1, 0x80, 0xBF));
    assert (n / 64) * 64 + b1 % 64 == n;
  }

  /** Division by 64 undone */
  lemma Div64(x: int, q: int, r: int)
    requires 0 <= r < 64 && x == 64 * q + r
    ensures x / 64 == q && x % 64 == r
  {
  }

  lemma ThreeByteArithmetic(n: int)
    requires 0x800 <= n < 0x10000 && !(0xD800 <= n < 0xE000)
    ensures (0xE0 + n / 4096) % 0x10 == n / 4096 < 16
    ensures n / 4096 == 0 ==> 0xA0 <= 0x80 + n / 64 % 64
    ensures n / 4096 == 13 ==> 0x80 + n / 64 % 64 <= 0x9F
    ensures n / 4096 * 64 + (0x80 + n / 64 % 64) % 64 == n / 64
    ensures n / 64 * 64 + (0x80 + n % 64) % 64 == n
  {
    var hi, mid, lo := n / 4096, n / 64 % 64, n % 64;
    Div64(n, n / 64, lo);
    Div64(n / 64, hi, mid) by {
      assert n / 64 == 64 * (n / 4096) + n / 64 % 64;
    }
    Div64(0x80 + mid, 2, mid);
    Div64(0x80 + lo, 2, lo);
  }

  lemma DecodeThree(c: char, rest: seq<Byte>)
    requires 0x800 <= c as int < 0x10000
    ensures Run(EncodeChar(c) + rest, Initial) == [c] + Run(rest, Initial)
  {
    var n := c as int;
    var b0, b1, b2 := 0xE0 + n / 4096, 0x80 + n / 64 % 64, 0x80 + n % 64;
    ThreeByteArithmetic(n);
    assert EncodeChar(c) + rest == [b0] + ([b1] + ([b2] + rest));
    var c0, c1 := n / 4096, n / 64;
    var d1 := Decoder(c0, 0, 2, if c0 == 0 then 0xA0 else 0x80, if c0 == 13 then 0x9F else 0xBF);
    RunLead(b0, [b1] + ([b2] + rest));
    RunContinue(b1, [b2] + rest, d1);
    RunFinish(b2, rest, Decoder(c1, 1, 2, 0x80, 0xBF));
  }

  /** The lead byte and first continuation byte of a four-byte sequence */
  lemma RunFourStart(b0: Byte, b1: Byte, tail: seq<Byte>)
    requires 0xF0 <= b0 <= 0xF4 && 0x80 <= b1 < 0xC0
    requires b0 == 0xF0 ==> 0x90 <= b1
    requires b0 == 0xF4 ==> b1 <= 0x8F
    ensures Reachable(Decoder(b0 % 8 * 64 + b1 % 64, 1, 3, 0x80, 0xBF))
    ensures Run([b0] + ([b1] + tail), Initial) == Run(tail, Decoder(b0 % 8 * 64 + b1 % 64, 1, 3, 0x80, 0xBF))
  {
    var c0 := b0 % 8;
    var d1 := Decoder(c0, 0, 3, if c0 == 0 then 0x90 else 0x80, if c0 == 4 then 0x8F else 0xBF);
    assert Reachable(d1);
    RunLead(b0, [b1] + tail);
    RunContinue(b1, tail, d1);
  }

  /** A well-formed four-byte sequence decodes to the code point its
      payload bits spell */
  lemma RunFourBytes(b0: Byte, b1: Byte, b2: Byte, b3: Byte, rest: seq<Byte>)
    requires 0xF0 <= b0 <= 0xF4 && 0x80 <= b1 < 0xC0 && 0x80 <= b2 < 0xC0 && 0x80 <= b3 < 0xC0
    requires b0 == 0xF0 ==> 0x90 <= b1
    requires b0 == 0xF4 ==> b1 <= 0x8F
    ensures 0x10000 <= ((b0 % 8 * 64 + b1 % 64) * 64 + b2 % 64) * 64 + b3 % 64 < 0x110000
    ensures Run([b0] + ([b1] + ([b2] + ([b3] + rest))), Initial) ==
      [(((b0 % 8 * 64 + b1 % 64) * 64 + b2 % 64) * 64 + b3 % 64) as char] + Run(rest, Initial)
  {
    var c1 := b0 % 8 * 64 + b1 % 64;
    var c2 := c1 * 64 + b2 % 64;
    var d2, d3 := Decoder(c1, 1, 3, 0x80, 0xBF), Decoder(c2, 2, 3, 0x80, 0xBF);
    RunFourStart(b0, b1, [b2] + ([b3] + rest));
    RunContinue(b2, [b3] + rest, d2);
    assert Reachable(d3) && 0x400 <= c2 < 0x4400;
    RunFinish(b3, rest, d3);
  }

  lemma DecodeFour(c: char, rest: seq<Byte>)
    requires 0x10000 <= c as int
    ensures Run(EncodeChar(c) + rest, Initial) == [c] + Run(rest, Initial)
  {
    var n := c as int;
    var b0, b1, b2, b3 := 0xF0 + n / 0x40000, 0x80 + n / 4096 % 64, 0x80 + n / 64 % 64, 0x80 + n % 64;
    FourByteArithmetic(n);
    assert EncodeChar(c) + rest == [b0] + ([b1] + ([b2] + ([b3] + rest)));
    RunFourBytes(b0, b1, b2, b3, rest);
  }

  lemma FourByteArithmetic(n: int)
    requires 0x10000 <= n < 0x110000
    ensures (0xF0 + n / 0x40000) % 8 == n / 0x40000 <= 4
    ensures n / 0x40000 == 0 ==> 0x90 <= 0x80 + n / 4096 % 64
    ensures n / 0x40000 == 4 ==> 0x80 + n / 4096 % 64 <= 0x8F
    ensures n / 0x40000 * 64 + n / 4096 % 64 == n / 4096
    ensures n / 4096 * 64 + n / 64 % 64 == n / 64
    ensures n / 64 * 64 + n % 64 == n
    ensures (((0xF0 + n / 0x40000) % 8 * 64 + (0x80 + n / 4096 % 64) % 64) * 64
             + (0x80 + n / 64 % 64) % 64) * 64 + (0x80 + n % 64) % 64 == n
  {
    var top, hi, mid, lo := n / 0x40000, n / 4096 % 64, n / 64 % 64, n % 64;
    Div64(n, n / 64, lo);
    Div64(n / 64, n / 4096, mid) by {
      assert n / 64 == 64 * (n / 4096) + n / 64 % 64;
    }
    Div64(n / 4096, top, hi) by {
      assert n / 4096 == 64 * (n / 0x40000) + n / 4096 % 64;
    }
    Div64(0x80 + hi, 2, hi);
    Div64(0x80 + mid, 2, mid);
    Div64(0x80 + lo, 2, lo);
  }

  /** Decoding one character's encoding yields that character and leaves
      the decoder ready for what follows */
  lemma DecodeChar(c: char, rest: seq<Byte>)
    ensures Run(EncodeChar(c) + rest, Initial) == [c] + Run(rest, Initial)
  {
    var n := c as int;
    if n < 0x80 {
      assert (EncodeChar(c) + rest)[1..] == rest;
    } else if n < 0x800 {
      DecodeTwo(c, rest);
    } else if n < 0x10000 {
      DecodeThree(c, rest);
    } else {
      DecodeFour(c, rest);
    }
  }

  /** Decoding undoes encoding, for every string */
  lemma {:induction false} DecodeEncode(s: string)
    ensures Decode(Encode(s)) == s
    decreases |s|
  {
    if s != [] {
      DecodeEncode(s[1..]);
      DecodeChar(s[0], Encode(s[1..]));
    }
  }
}
