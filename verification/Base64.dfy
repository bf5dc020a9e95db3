/** Base64 (section 4 of RFC 4648), as `base64.b64encode` writes it, with an inverse. */
module Base64 {
  import opened Bits
  import opened Prelude

  type Sextet = n: nat | n < 64

  function ToChar(i: Sextet): char {
    if i < 26 then 'A' + i as char
    else if i < 52 then 'a' + (i - 26) as char
    else if i < 62 then '0' + (i - 52) as char
    else if i == 62 then '+'
    else '/'
  }

  function FromChar(c: char): Option<Sextet> {
    if 'A' <= c <= 'Z' then Some((c - 'A') as nat)
    else if 'a' <= c <= 'z' then Some(26 + (c - 'a') as nat)
    else if '0' <= c <= '9' then Some(52 + (c - '0') as nat)
    else if c == '+' then Some(62)
    else if c == '/' then Some(63)
    else None
  }

  lemma FromToChar(i: Sextet)
    ensures FromChar(ToChar(i)) == Some(i) && ToChar(i) != '=' && ToChar(i) != ':'
    ensures i == 0 ==> ToChar(i) == 'A'
  {
  }

  /** The four sextets of three bytes. */
  function Sextets(a: byte, b: byte, c: byte): (Sextet, Sextet, Sextet, Sextet) {
    (a / 4, a % 4 * 16 + b / 16, b % 16 * 4 + c / 64, c % 64)
  }

  function Bytes(p: Sextet, q: Sextet, r: Sextet, s: Sextet): (byte, byte, byte) {
    (p * 4 + q / 16, q % 16 * 16 + r / 4, r % 4 * 64 + s)
  }

  lemma Nibbles(x: nat, y: nat)
    requires y < 16
    ensures (x * 16 + y) / 16 == x && (x * 16 + y) % 16 == y
  {
  }

  lemma Quarters(x: nat, y: nat)
    requires y < 4
    ensures (x * 4 + y) / 4 == x && (x * 4 + y) % 4 == y
  {
  }

  lemma BytesOfSextets(a: byte, b: byte, c: byte)
    ensures var (p, q, r, s) := Sextets(a, b, c); Bytes(p, q, r, s) == (a, b, c)
    ensures c == 0 ==> Sextets(a, b, c).3 == 0
    ensures b == c == 0 ==> Sextets(a, b, c).2 == 0
  {
    var a1: nat, b1: nat, c1: nat := a, b, c;
    Nibbles(a1 % 4, b1 / 16);
    Quarters(b1 % 16, c1 / 64);
  }

  function Quad(a: byte, b: byte, c: byte): (s: string)
    ensures |s| == 4
  {
    var (p, q, r, t) := Sextets(a, b, c);
    [ToChar(p), ToChar(q), ToChar(r), ToChar(t)]
  }

  /** Up to three bytes as four characters, the missing ones padded with `=`. */
  function EncodeGroup(g: seq<byte>): (s: string)
    requires 1 <= |g| <= 3
    ensures |s| == 4
  {
    var q := Quad(g[0], if |g| > 1 then g[1] else 0, if |g| > 2 then g[2] else 0);
    if |g| == 1 then [q[0], q[1], '=', '='] else if |g| == 2 then [q[0], q[1], q[2], '='] else q
  }

  function Encode(b: seq<byte>): string
    decreases |b|
  {
    if |b| == 0 then []
    else if |b| <= 3 then EncodeGroup(b)
    else EncodeGroup(b[..3]) + Encode(b[3..])
  }

  lemma {:induction false} EncodeLength(b: seq<byte>)
    ensures |Encode(b)| == (|b| + 2) / 3 * 4
    decreases |b|
  {
    hide EncodeGroup;
    if |b| > 3 {
      EncodeLength(b[3..]);
    }
  }

  function DecodeQuad(p: char, q: char, r: char, t: char): Option<(byte, byte, byte)> {
    match (FromChar(p), FromChar(q), FromChar(r), FromChar(t))
    case (Some(a), Some(b), Some(c), Some(d)) => Some(Bytes(a, b, c, d))
    case _ => None
  }

  function DecodeGroup(s: string): Option<seq<byte>>
    requires |s| == 4
  {
    if s[2] == '=' && s[3] == '=' then
      match DecodeQuad(s[0], s[1], 'A', 'A') case Some(t) => Some([t.0]) case None => None
    else if s[3] == '=' then
      match DecodeQuad(s[0], s[1], s[2], 'A') case Some(t) => Some([t.0, t.1]) case None => None
    else
      match DecodeQuad(s[0], s[1], s[2], s[3]) case Some(t) => Some([t.0, t.1, t.2]) case None => None
  }

  /** Groups of four characters; only the last group may be padded. */
  function Decode(s: string): Option<seq<byte>> {
    if |s| == 0 then Some([])
    else if |s| < 4 then None
    else if |s| == 4 then DecodeGroup(s)
    else if s[3] == '=' then None
    else
      match (DecodeGroup(s[..4]), Decode(s[4..]))
      case (Some(g), Some(rest)) => Some(g + rest)
      case _ => None
  }

  lemma DecodeOfQuad(a: byte, b: byte, c: byte)
    ensures var q := Quad(a, b, c);
            && DecodeQuad(q[0], q[1], q[2], q[3]) == Some((a, b, c))
            && (forall i | 0 <= i < 4 :: q[i] != '=' && q[i] != ':')
            && (c == 0 ==> q[3] == 'A') && (b == c == 0 ==> q[2] == 'A')
  {
    hide FromChar, ToChar, Bytes, Sextets;
    var (p, q, r, t) := Sextets(a, b, c);
    FromToChar(p);
    FromToChar(q);
    FromToChar(r);
    FromToChar(t);
    BytesOfSextets(a, b, c);
  }

  lemma DecodeEncodeGroup(g: seq<byte>)
    requires 1 <= |g| <= 3
    ensures DecodeGroup(EncodeGroup(g)) == Some(g)
    ensures ':' !in EncodeGroup(g) && (|g| == 3 ==> EncodeGroup(g)[3] != '=')
  {
    var b, c := if |g| > 1 then g[1] else 0, if |g| > 2 then g[2] else 0;
    DecodeOfQuad(g[0], b, c);
    var q := Quad(g[0], b, c);
    hide Quad, DecodeQuad;
    assert g == if |g| == 1 then [g[0]] else if |g| == 2 then [g[0], g[1]] else [g[0], g[1], g[2]];
    assert EncodeGroup(g) == [q[0], q[1], if |g| > 1 then q[2] else '=', if |g| > 2 then q[3] else '='];
    hide EncodeGroup;
  }

  lemma {:induction false} DecodeEncode(b: seq<byte>)
    ensures Decode(Encode(b)) == Some(b)
    ensures ':' !in Encode(b)
    decreases |b|
  {
    hide EncodeGroup, DecodeGroup;
    if |b| == 0 {
    } else if |b| <= 3 {
      DecodeEncodeGroup(b);
    } else {
      var head, tail := EncodeGroup(b[..3]), Encode(b[3..]);
      DecodeEncodeGroup(b[..3]);
      DecodeEncode(b[3..]);
      assert (head + tail)[..4] == head && (head + tail)[4..] == tail;
      assert b == b[..3] + b[3..];
    }
  }

  // ----- the characters, as the standard has them

  /** Table 1 of the standard, column by column. */
  function Alphabet(i: Sextet): char {
    if i < 16 then "ABCDEFGHIJKLMNOP"[i]
    else if i < 32 then "QRSTUVWXYZabcdef"[i - 16]
    else if i < 48 then "ghijklmnopqrstuv"[i - 32]
    else "wxyz0123456789+/"[i - 48]
  }

  lemma AlphabetTable(i: Sextet)
    ensures ToChar(i) == Alphabet(i)
  {
    if i < 16 {
      var s := "ABCDEFGHIJKLMNOP";
      assert s[i] == ToChar(i);
    } else if i < 32 {
      var s := "QRSTUVWXYZabcdef";
      assert s[i - 16] == ToChar(i);
    } else if i < 48 {
      var s := "ghijklmnopqrstuv";
      assert s[i - 32] == ToChar(i);
    } else {
      var s := "wxyz0123456789+/";
      assert s[i - 48] == ToChar(i);
    }
  }

  /** The 24 bits of a group, its missing bytes zero. */
  function GroupValue(g: seq<byte>): nat
    requires 1 <= |g| <= 3
  {
    var a: nat, b: nat, c: nat := g[0], if |g| > 1 then g[1] else 0, if |g| > 2 then g[2] else 0;
    0x1_0000 * a + 0x100 * b + c
  }

  lemma Digit64(q: nat, r: nat)
    requires r < 64
    ensures (64 * q + r) / 64 == q && (64 * q + r) % 64 == r
  {
  }

  lemma Nested64(n: nat)
    ensures n / 0x1000 == n / 64 / 64 && n / 0x4_0000 == n / 64 / 64 / 64
  {
  }

  lemma SextetsOfValue(a: byte, b: byte, c: byte)
    ensures var n: nat := 0x1_0000 * a + 0x100 * b + c;
            Sextets(a, b, c) == (n / 0x4_0000, n / 0x1000 % 64, n / 64 % 64, n % 64)
  {
    var n: nat := 0x1_0000 * a + 0x100 * b + c;
    var a1: nat, b1: nat, c1: nat := a, b, c;
    var m1, m2 := 1024 * a1 + 4 * b1 + c1 / 64, 16 * a1 + b1 / 16;
    Nested64(n);
    Digit64(m1, c1 % 64);
    assert n == 64 * m1 + c1 % 64;
    Digit64(m2, b1 % 16 * 4 + c1 / 64);
    assert m1 == 64 * m2 + (b1 % 16 * 4 + c1 / 64);
    Digit64(a1 / 4, a1 % 4 * 16 + b1 / 16);
    assert m2 == 64 * (a1 / 4) + (a1 % 4 * 16 + b1 / 16);
  }

  lemma GroupBelow(g: seq<byte>)
    requires 1 <= |g| <= 3
    ensures GroupValue(g) < 0x100_0000
  {
  }

  function Spell(n: nat): string
    requires n < 0x100_0000
  {
    [Alphabet(n / 0x4_0000), Alphabet(n / 0x1000 % 64), Alphabet(n / 64 % 64), Alphabet(n % 64)]
  }

  lemma QuadMeans(a: byte, b: byte, c: byte)
    ensures Quad(a, b, c) == Spell(0x1_0000 * a + 0x100 * b + c)
  {
    SextetsOfValue(a, b, c);
    hide Sextets, ToChar, Alphabet;
    var (p, q, r, t) := Sextets(a, b, c);
    AlphabetTable(p);
    AlphabetTable(q);
    AlphabetTable(r);
    AlphabetTable(t);
  }

  /** A group is written as the alphabet's characters of its bits, six at a time from the
      highest; what no byte reaches is `=`. */
  lemma GroupMeans(g: seq<byte>)
    requires 1 <= |g| <= 3
    ensures GroupValue(g) < 0x100_0000
    ensures EncodeGroup(g)
         == Spell(GroupValue(g))[..|g| + 1] + (if |g| == 1 then "==" else if |g| == 2 then "=" else "")
  {
    GroupBelow(g);
    var a, b, c := g[0], if |g| > 1 then g[1] else 0, if |g| > 2 then g[2] else 0;
    QuadMeans(a, b, c);
    var a1: nat, b1: nat, c1: nat := a, b, c;
    assert GroupValue(g) == 0x1_0000 * a1 + 0x100 * b1 + c1;
    hide Quad, GroupValue, Alphabet;
    var q, s := Quad(a, b, c), Spell(GroupValue(g));
    assert q == s;
    hide Spell;
    assert EncodeGroup(g) == q[..|g| + 1] + (if |g| == 1 then "==" else if |g| == 2 then "=" else "");
  }

  /** Bytes `3 * i` to `3 * i + 3`, as far as there are any. */
  function ByteGroup(b: seq<byte>, i: nat): (g: seq<byte>)
    requires 3 * i < |b|
    ensures 1 <= |g| <= 3
  {
    b[3 * i..if 3 * i + 3 <= |b| then 3 * i + 3 else |b|]
  }

  lemma NextGroup(b: seq<byte>, i: nat)
    requires 3 <= 3 * i < |b|
    ensures ByteGroup(b, i) == ByteGroup(b[3..], i - 1)
  {
    var high := if 3 * i + 3 <= |b| then 3 * i + 3 else |b|;
    var low := 3 * i;
    assert |b[3..]| == |b| - 3 && 3 * (i - 1) == low - 3;
    assert b[3..][low - 3..high - 3] == b[low..high];
  }

  /** Group `i` of the text is group `i` of the bytes. */
  lemma {:induction false} EncodeGroups(b: seq<byte>, i: nat)
    requires 3 * i < |b|
    ensures |Encode(b)| == (|b| + 2) / 3 * 4 >= 4 * i + 4
    ensures Encode(b)[4 * i..4 * i + 4] == EncodeGroup(ByteGroup(b, i))
    decreases i
  {
    hide EncodeGroup;
    EncodeLength(b);
    if i == 0 {
      if |b| <= 3 {
        assert b[0..|b|] == b;
      }
    } else {
      EncodeGroups(b[3..], i - 1);
      NextGroup(b, i);
      var head, tail := EncodeGroup(b[..3]), Encode(b[3..]);
      assert Encode(b) == head + tail;
      hide Encode, ByteGroup;
      assert (head + tail)[4 * i..4 * i + 4] == tail[4 * (i - 1)..4 * (i - 1) + 4];
    }
  }
}
