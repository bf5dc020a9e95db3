/** UTF-8 (section 3 of RFC 3629), as Python's `str.encode` writes it, with an inverse. */
module Utf8 {
  import opened Bits
  import opened Prelude

  function EncodeChar(c: char): (b: seq<byte>)
    ensures 1 <= |b| <= 4
  {
    var n := c as nat;
    if n < 0x80 then [n]
    else if n < 0x800 then [0xC0 + n / 64, 0x80 + n % 64]
    else if n < 0x1_0000 then [0xE0 + n / 4096, 0x80 + n / 64 % 64, 0x80 + n % 64]
    else [0xF0 + n / 0x4_0000, 0x80 + n / 4096 % 64, 0x80 + n / 64 % 64, 0x80 + n % 64]
  }

  function Encode(s: string): seq<byte> {
    if s == [] then [] else EncodeChar(s[0]) + Encode(s[1..])
  }

  /** How many bytes a sequence starting with `lead` takes. */
  function LengthFrom(lead: byte): (n: nat)
    ensures 1 <= n <= 4
  {
    if lead < 0xC0 then 1 else if lead < 0xE0 then 2 else if lead < 0xF0 then 3 else 4
  }

  function CodePoint(b: seq<byte>): (n: int)
    requires 1 <= |b| <= 4
  {
    var b0: int := b[0];
    if |b| == 1 then b0
    else
      var b1: int := b[1] as int - 0x80;
      if |b| == 2 then 64 * (b0 - 0xC0) + b1
      else
        var b2: int := b[2] as int - 0x80;
        if |b| == 3 then 4096 * (b0 - 0xE0) + 64 * b1 + b2
        else 0x4_0000 * (b0 - 0xF0) + 4096 * b1 + 64 * b2 + (b[3] as int - 0x80)
  }

  predicate IsScalar(n: int) {
    0 <= n < 0xD800 || 0xE000 <= n < 0x11_0000
  }

  function Decode(b: seq<byte>): Option<string>
    decreases |b|
  {
    if b == [] then Some([])
    else
      var n := LengthFrom(b[0]);
      if |b| < n || !IsScalar(CodePoint(b[..n])) then None
      else
        match Decode(b[n..])
        case None => None
        case Some(rest) => Some([CodePoint(b[..n]) as char] + rest)
  }

  /** A number and its base-64 digits, lowest first. */
  lemma Sextets(n: nat)
    ensures n == 64 * (n / 64) + n % 64
    ensures n / 64 == 64 * (n / 4096) + n / 64 % 64
    ensures n / 4096 == 64 * (n / 0x4_0000) + n / 4096 % 64
  {
    assert n / 4096 == n / 64 / 64 && n / 0x4_0000 == n / 4096 / 64;
  }

  lemma DecodeChar(c: char)
    ensures LengthFrom(EncodeChar(c)[0]) == |EncodeChar(c)| && CodePoint(EncodeChar(c)) == c as int
  {
    var n := c as nat;
    Sextets(n);
    if n < 0x80 {
    } else if n < 0x800 {
    } else if n < 0x1_0000 {
    } else {
    }
  }

  lemma {:induction false} DecodeEncode(s: string)
    ensures Decode(Encode(s)) == Some(s)
  {
    if s != [] {
      var b, rest := EncodeChar(s[0]), Encode(s[1..]);
      DecodeChar(s[0]);
      DecodeEncode(s[1..]);
      assert IsScalar(s[0] as int);
      hide EncodeChar, CodePoint;
      assert (b + rest)[..|b|] == b && (b + rest)[|b|..] == rest;
      assert s == [s[0]] + s[1..];
    }
  }

  /** One character of each length: U+0041, U+00E9, U+20AC and U+1F600. */
  lemma Vectors()
    ensures EncodeChar(0x41 as char) == [0x41] && EncodeChar(0xE9 as char) == [0xC3, 0xA9]
    ensures EncodeChar(0x20AC as char) == [0xE2, 0x82, 0xAC]
    ensures EncodeChar(0x1F600 as char) == [0xF0, 0x9F, 0x98, 0x80]
  {
  }

  /** The first byte tells the length, and all others are continuation bytes; a character
      below 128 is its own byte. */
  lemma Shape(c: char)
    ensures var n, b := c as nat, EncodeChar(c);
            && |b| == (if n < 0x80 then 1 else if n < 0x800 then 2 else if n < 0x1_0000 then 3 else 4)
            && (n < 0x80 ==> b == [n])
            && (|b| == 2 ==> 0xC0 <= b[0] < 0xE0) && (|b| == 3 ==> 0xE0 <= b[0] < 0xF0) && (|b| == 4 ==> 0xF0 <= b[0])
            && forall i | 1 <= i < |b| :: 0x80 <= b[i] < 0xC0
  {
  }
}
