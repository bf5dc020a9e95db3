/** The X-Stamp header and the time-stamped id inside it, each with a reader that takes
    it apart again. */
module Stamp {
  import opened Bits
  import opened Layers
  import opened Prelude
  import Base64
  import Cfb
  import Cipher
  import Numerals
  import Utf8

  datatype StampError = NotSupported | UnknownRegion | StructError

  const IVS: map<int, string> := map[
    1 := "iv.ccsp.stamp.eu", 2 := "iv.ccsp.stamp.sa", 4 := "iv.ccsp.stamp.us",
    5 := "iv.ccsp.stamp.ca", 9 := "iv.ccsp.stamp.jp"]

  predicate Supported(region: int) {
    region in {1, 2, 9}
  }

  function Ascii(s: string): seq<byte>
    requires forall i | 0 <= i < |s| :: s[i] < 128 as char
  {
    seq(|s|, i requires 0 <= i < |s| => s[i] as nat)
  }

  lemma IvShape(region: int)
    requires region in IVS
    ensures |IVS[region]| == 16 && forall i | 0 <= i < 16 :: IVS[region][i] < 128 as char
  {
  }

  function Iv(region: int): Block
    requires region in IVS
  {
    IvShape(region);
    Ascii(IVS[region])
  }

  // ----- the stamp

  function Payload(tsid: string, epoch: int, user: string): string {
    tsid + ":" + Numerals.PrintInt(epoch) + ":" + user
  }

  /** What `compute_x_stamp` returns for a given id and time. */
  function XStamp(c: Cipher.GspaCipher, region: int, tsid: string, epoch: int, user: string): Result<string, StampError>
    requires Cipher.Valid(c)
  {
    if region in {4, 5} then Err(NotSupported)
    else if region !in IVS then Err(UnknownRegion)
    else Ok(Base64.Encode(Cfb.Encrypt(Cipher.EncryptFn(c), Iv(region), Utf8.Encode(Payload(tsid, epoch, user)))))
  }

  /** `compute_x_stamp`; `newTsid` and `now` stand for `create_tsid()` and the clock. */
  method ComputeXStamp(c: Cipher.GspaCipher, region: int, tsid: Option<string>, epoch: Option<int>, user: string,
                       newTsid: string, now: int) returns (r: Result<string, StampError>)
    requires Cipher.Valid(c)
    ensures r == XStamp(c, region, if tsid.Some? then tsid.value else newTsid,
                        if epoch.Some? then epoch.value else now, user)
  {
    if region in {4, 5} {
      return Err(NotSupported);
    }
    if region !in IVS {
      return Err(UnknownRegion);
    }
    var id := if tsid.Some? then tsid.value else newTsid;
    var seconds := if epoch.Some? then epoch.value else now;
    var ct := Cfb.EncryptCfb(c, Iv(region), Utf8.Encode(Payload(id, seconds, user)));
    return Ok(Base64.Encode(ct.value));
  }

  /** The three vectors in use, byte by byte. */
  lemma IvBytes()
    ensures Iv(1) == [105, 118, 46, 99, 99, 115, 112, 46, 115, 116, 97, 109, 112, 46, 101, 117]
    ensures Iv(2) == [105, 118, 46, 99, 99, 115, 112, 46, 115, 116, 97, 109, 112, 46, 115, 97]
    ensures Iv(9) == [105, 118, 46, 99, 99, 115, 112, 46, 115, 116, 97, 109, 112, 46, 106, 112]
  {
    assert IVS[1] == "iv.ccsp.stamp.eu" && IVS[2] == "iv.ccsp.stamp.sa" && IVS[9] == "iv.ccsp.stamp.jp";
  }

  /** Which regions get a stamp, and which error the others get. */
  lemma RegionsMean(c: Cipher.GspaCipher, region: int, tsid: string, epoch: int, user: string)
    requires Cipher.Valid(c)
    ensures var stamp := XStamp(c, region, tsid, epoch, user);
            && (stamp == Err(NotSupported) <==> region == 4 || region == 5)
            && (stamp == Err(UnknownRegion) <==> region !in {1, 2, 4, 5, 9})
            && (region in {1, 2, 9} ==>
                  stamp == Ok(Base64.Encode(Cfb.Encrypt(
                                Cipher.EncryptFn(c), Iv(region),
                                Utf8.Encode(tsid + ":" + Numerals.PrintInt(epoch) + ":" + user)))))
  {
    hide Base64.Encode, Cfb.Encrypt, Utf8.Encode, Numerals.PrintInt, Cipher.EncryptFn, Cipher.Valid, Iv;
  }

  // ----- reading a stamp back

  /** Position of the first `c`, or the length. */
  function IndexOf(s: string, c: char): (i: nat)
    ensures i <= |s| && c !in s[..i] && (i < |s| ==> s[i] == c)
  {
    if s == [] || s[0] == c then 0 else 1 + IndexOf(s[1..], c)
  }

  lemma {:induction false} IndexOfFirst(a: string, c: char, b: string)
    ensures c !in a ==> IndexOf(a + [c] + b, c) == |a|
    ensures c in a ==> IndexOf(a + [c] + b, c) < |a|
  {
    if a != [] {
      assert (a + [c] + b)[1..] == a[1..] + [c] + b;
      assert a == [a[0]] + a[1..];
      IndexOfFirst(a[1..], c, b);
    }
  }

  function ReadPayload(s: string): Option<(string, int, string)> {
    var i := IndexOf(s, ':');
    if i == |s| then None
    else
      var rest := s[i + 1..];
      var j := IndexOf(rest, ':');
      if j == |rest| then None
      else
        match Numerals.ParseInt(rest[..j], 10)
        case None => None
        case Some(epoch) => Some((s[..i], epoch, rest[j + 1..]))
  }

  /** Base64 inverse, CFB inverse, UTF-8 inverse, and a split at the first two colons. */
  function ReadStamp(c: Cipher.GspaCipher, region: int, stamp: string): Option<(string, int, string)>
    requires Cipher.Valid(c) && region in IVS
  {
    match Base64.Decode(stamp)
    case None => None
    case Some(ct) =>
      match Utf8.Decode(Cfb.Decrypt(Cipher.EncryptFn(c), Iv(region), ct))
      case None => None
      case Some(payload) => ReadPayload(payload)
  }

  lemma SplitAtColon(a: string, b: string)
    requires ':' !in a
    ensures var s := a + [':'] + b;
            IndexOf(s, ':') == |a| < |s| && s[..|a|] == a && s[|a| + 1..] == b
  {
    IndexOfFirst(a, ':', b);
  }

  lemma PayloadParts(tsid: string, epoch: int, user: string)
    ensures Payload(tsid, epoch, user) == tsid + [':'] + (Numerals.PrintInt(epoch) + [':'] + user)
  {
    hide Numerals.PrintInt;
  }

  lemma ColonFreeReadBack(tsid: string, epoch: int, user: string)
    requires ':' !in tsid
    ensures ReadPayload(Payload(tsid, epoch, user)) == Some((tsid, epoch, user))
  {
    hide Numerals.PrintInt, Numerals.ParseInt, IndexOf;
    var digits := Numerals.PrintInt(epoch);
    var rest := digits + [':'] + user;
    PayloadParts(tsid, epoch, user);
    Numerals.ParsePrintInt(epoch);
    SplitAtColon(tsid, rest);
    SplitAtColon(digits, user);
    hide Payload;
  }

  lemma PayloadReadBack(tsid: string, epoch: int, user: string)
    ensures ReadPayload(Payload(tsid, epoch, user)) == Some((tsid, epoch, user)) <==> ':' !in tsid
  {
    if ':' !in tsid {
      ColonFreeReadBack(tsid, epoch, user);
    } else {
      hide Numerals.PrintInt, Numerals.ParseInt, IndexOf;
      var s := Payload(tsid, epoch, user);
      PayloadParts(tsid, epoch, user);
      IndexOfFirst(tsid, ':', Numerals.PrintInt(epoch) + [':'] + user);
      hide Payload;
      assert |s[..IndexOf(s, ':')]| < |tsid|;
    }
  }

  /** A stamp gives back the id, the time and the user it was made from, any sign and any
      colons in the user included, exactly when the id holds no colon. */
  lemma StampReadBackIff(c: Cipher.GspaCipher, region: int, tsid: string, epoch: int, user: string)
    requires Cipher.Valid(c) && Supported(region)
    ensures XStamp(c, region, tsid, epoch, user).Ok?
    ensures ReadStamp(c, region, XStamp(c, region, tsid, epoch, user).value) == Some((tsid, epoch, user))
       <==> ':' !in tsid
  {
    hide Cipher.Valid, Cipher.EncryptFn, Payload, ReadPayload, Base64.Decode, Base64.Encode;
    hide Utf8.Decode, Utf8.Encode, Cfb.Decrypt, Cfb.Encrypt;
    var payload := Payload(tsid, epoch, user);
    var p := Utf8.Encode(payload);
    Base64.DecodeEncode(Cfb.Encrypt(Cipher.EncryptFn(c), Iv(region), p));
    Cfb.DecryptEncrypt(Cipher.EncryptFn(c), Iv(region), p);
    Utf8.DecodeEncode(payload);
    PayloadReadBack(tsid, epoch, user);
  }

  /** Two equal stamps were made from equal inputs. */
  lemma StampDeterminesInputs(c: Cipher.GspaCipher, region: int, tsid: string, epoch: int, user: string,
                              tsid': string, epoch': int, user': string)
    requires Cipher.Valid(c) && Supported(region) && ':' !in tsid && ':' !in tsid'
    requires XStamp(c, region, tsid, epoch, user) == XStamp(c, region, tsid', epoch', user')
    ensures tsid == tsid' && epoch == epoch' && user == user'
  {
    StampReadBackIff(c, region, tsid, epoch, user);
    StampReadBackIff(c, region, tsid', epoch', user');
  }

  /** A colon in the id lets two different inputs share one stamp. */
  lemma ColonsCollide(c: Cipher.GspaCipher, region: int)
    requires Cipher.Valid(c) && Supported(region)
    ensures XStamp(c, region, "a:1", 2, "u") == XStamp(c, region, "a", 1, "2:u")
  {
    assert Numerals.Digits(1, 10) == [1] && Numerals.Digits(2, 10) == [2];
    assert Numerals.PrintInt(1) == ['1'] && Numerals.PrintInt(2) == ['2'];
    assert Payload("a:1", 2, "u") == "a:1:2:u" == Payload("a", 1, "2:u");
  }

  // ----- the id

  const TSID_EPOCH_MS: int := 1577836800000

  /** `struct.pack(">Q", n)[3:]`: the five low bytes, highest first. */
  function LowFive(n: nat): (b: seq<byte>)
    ensures |b| == 5
  {
    [n / 0x1_0000_0000 % 256, n / 0x100_0000 % 256, n / 0x1_0000 % 256, n / 0x100 % 256, n % 256]
  }

  /** The counter's low byte with its nibbles swapped, and bits 1 and 2 set. */
  function LastByte(counter: int): byte {
    var high, low := counter % 16, counter / 16 % 16;
    high * 16 + low / 8 * 8 + 6 + low % 2
  }

  function RStrip(s: string, c: char): string {
    if s != [] && s[|s| - 1] == c then RStrip(s[..|s| - 1], c) else s
  }

  function TsidBytes(nowMs: int, node: seq<byte>, counter: int): seq<byte>
    requires nowMs >= TSID_EPOCH_MS
  {
    LowFive(nowMs - TSID_EPOCH_MS) + node + [LastByte(counter)]
  }

  /** `create_tsid` at a given time; `node` is the decoded device id or eight random bytes. */
  function CreateTsid(nowMs: int, node: seq<byte>, counter: int): Result<string, StampError> {
    if 0 <= nowMs - TSID_EPOCH_MS < 0x1_0000_0000_0000_0000
    then Ok(RStrip(Base64.Encode(TsidBytes(nowMs, node, counter)), '='))
    else Err(StructError)
  }

  /** Padding back to a multiple of four characters. */
  function Pad(s: string): string {
    if |s| % 4 == 0 then s else if |s| % 4 == 3 then s + "=" else if |s| % 4 == 2 then s + "==" else s + "==="
  }

  lemma {:induction false} EncodeEndsInText(b: seq<byte>)
    requires b != []
    ensures var s := Base64.Encode(b); |s| >= 4 && s[|s| - 3] != '=' && (s[|s| - 2] == '=' ==> s[|s| - 1] == '=')
    decreases |b|
  {
    Base64.EncodeLength(b);
    if |b| <= 3 {
      var x, y := if |b| > 1 then b[1] else 0, if |b| > 2 then b[2] else 0;
      Base64.DecodeOfQuad(b[0], x, y);
    } else {
      EncodeEndsInText(b[3..]);
    }
  }

  lemma RStripStep(t: string, c: char, d: char)
    ensures RStrip(t + [d], c) == if d == c then RStrip(t, c) else t + [d]
  {
    assert (t + [d])[..|t|] == t;
  }

  /** Three last characters, the first of them not stripped. */
  lemma PadRStrip(t: string, y: char, z: char)
    requires |t| % 4 == 2 && RStrip(t, '=') == t && (y == '=' ==> z == '=')
    ensures Pad(RStrip((t + [y]) + [z], '=')) == (t + [y]) + [z]
  {
    RStripStep(t, '=', y);
    RStripStep(t + [y], '=', z);
    hide RStrip;
    if y == '=' {
      assert Pad(t) == t + "==" == (t + "=") + "=";
    }
  }

  lemma RStripKeeps(s: string, c: char, d: char)
    requires d !in s
    ensures d !in RStrip(s, c)
  {
  }

  /** Every id is free of colons, and padding and decoding it gives its bytes back. */
  lemma TsidReadBack(nowMs: int, node: seq<byte>, counter: int)
    requires CreateTsid(nowMs, node, counter).Ok?
    ensures ':' !in CreateTsid(nowMs, node, counter).value
    ensures Base64.Decode(Pad(CreateTsid(nowMs, node, counter).value)) == Some(TsidBytes(nowMs, node, counter))
  {
    hide Base64.Decode, Base64.Encode, RStrip, Pad;
    var b := TsidBytes(nowMs, node, counter);
    Base64.DecodeEncode(b);
    Base64.EncodeLength(b);
    EncodeEndsInText(b);
    var s := Base64.Encode(b);
    var n := |s|;
    assert s == (s[..n - 2] + [s[n - 2]]) + [s[n - 1]] && s[..n - 2] == s[..n - 3] + [s[n - 3]];
    RStripStep(s[..n - 3], '=', s[n - 3]);
    PadRStrip(s[..n - 2], s[n - 2], s[n - 1]);
    RStripKeeps(s, '=', ':');
  }

  function FiveValue(b: seq<byte>): nat
    requires |b| == 5
  {
    var b0: nat, b1: nat, b2: nat, b3: nat, b4: nat := b[0], b[1], b[2], b[3], b[4];
    b0 * 0x1_0000_0000 + b1 * 0x100_0000 + b2 * 0x1_0000 + b3 * 0x100 + b4
  }

  lemma LowFiveValue(n: nat)
    ensures FiveValue(LowFive(n)) == n % 0x100_0000_0000
  {
    var n1, n2, n3, n4, n5 := n / 0x100, n / 0x1_0000, n / 0x100_0000, n / 0x1_0000_0000, n / 0x100_0000_0000;
    NestedQuotients(n);
    assert n4 == n3 / 0x100 && n5 == n4 / 0x100;
    assert n == 0x100 * n1 + n % 256 && n1 == 0x100 * n2 + n1 % 256 && n2 == 0x100 * n3 + n2 % 256;
    assert n3 == 0x100 * n4 + n3 % 256 && n4 == 0x100 * n5 + n4 % 256;
  }

  lemma QuotientOf2(q: int, r: nat)
    requires r < 2
    ensures (2 * q + r) / 2 == q && (2 * q + r) % 2 == r
  {
  }

  lemma QuotientOf8(q: int, r: nat)
    requires r < 8
    ensures (8 * q + r) / 8 == q && (8 * q + r) % 8 == r
  {
  }

  lemma QuotientOf32(q: int, r: nat)
    requires r < 32
    ensures (32 * q + r) / 32 == q && (32 * q + r) % 32 == r
  {
  }

  lemma QuotientOf128(q: int, r: nat)
    requires r < 128
    ensures (128 * q + r) / 128 == q && (128 * q + r) % 128 == r
  {
  }

  lemma Nibble(z: int)
    ensures z % 16 % 2 == z % 2 && z % 16 / 8 == z / 8 % 2
  {
    var q, r := z / 16, z % 16;
    var a, b := r / 8, r % 8;
    assert z == 16 * q + r && r == 8 * a + b && 0 <= a < 2;
    QuotientOf8(2 * q + a, b);
    QuotientOf2(q, a);
    QuotientOf2(8 * q + r / 2, r % 2);
  }

  lemma Shifts(x: int)
    ensures x / 16 / 8 == x / 128 && x % 32 == x % 16 + 16 * (x / 16 % 2)
  {
    var q, r := x / 16, x % 16;
    assert x == 16 * q + r;
    QuotientOf128(q / 8, 16 * (q % 8) + r);
    QuotientOf32(q / 2, 16 * (q % 2) + r);
  }

  lemma LastByteParts(x: int)
    ensures LastByte(x) as int == x % 16 * 16 + x / 128 % 2 * 8 + 6 + x / 16 % 2
    ensures x % 32 == x % 16 + 16 * (x / 16 % 2)
  {
    Nibble(x / 16);
    Shifts(x);
  }

  /** The last byte tells two counters apart in bits 0 to 4 and bit 7, and nowhere else. */
  lemma LastByteIff(x: int, y: int)
    ensures LastByte(x) == LastByte(y) <==> x % 32 == y % 32 && x / 128 % 2 == y / 128 % 2
  {
    LastByteParts(x);
    LastByteParts(y);
    hide LastByte;
  }

  predicate HasLayout(b: seq<byte>, ms: int, node: seq<byte>, counter: int) {
    && |b| == 6 + |node|
    && b[0] as int * 0x1_0000_0000 + b[1] as int * 0x100_0000 + b[2] as int * 0x1_0000 + b[3] as int * 0x100
       + b[4] as int == ms % 0x100_0000_0000
    && b[5..5 + |node|] == node
    && var swapped := counter % 16 * 16 + counter / 16 % 16;
       b[5 + |node|] as int == swapped / 8 * 8 + 6 + swapped % 2
  }

  lemma BytesLayout(nowMs: int, node: seq<byte>, counter: int)
    requires nowMs >= TSID_EPOCH_MS
    ensures HasLayout(TsidBytes(nowMs, node, counter), nowMs - TSID_EPOCH_MS, node, counter)
  {
    var b, five := TsidBytes(nowMs, node, counter), LowFive(nowMs - TSID_EPOCH_MS);
    assert b[5..5 + |node|] == node;
    assert forall i | 0 <= i < 5 :: b[i] == five[i];
    LowFiveValue(nowMs - TSID_EPOCH_MS);
    var high, low := counter % 16, counter / 16 % 16;
    assert high * 16 + low == 8 * (2 * high + low / 8) + low % 8;
    QuotientOf8(2 * high + low / 8, low % 8);
    QuotientOf2(8 * high + low / 2, low % 2);
    hide LowFive;
  }

  lemma {:induction false} RStripEnd(s: string, c: char)
    ensures RStrip(s, c) != [] ==> RStrip(s, c)[|RStrip(s, c)| - 1] != c
  {
    if s != [] && s[|s| - 1] == c {
      RStripEnd(s[..|s| - 1], c);
    }
  }

  /** An id, padded and decoded: five bytes of milliseconds since the start of 2020, the
      highest first, then the node, then the counter's low byte with its two nibbles
      exchanged and bits 1 and 2 set. */
  lemma TsidLayout(nowMs: int, node: seq<byte>, counter: int)
    ensures CreateTsid(nowMs, node, counter).Ok? <==> 1577836800000 <= nowMs < 1577836800000 + 0x1_0000_0000_0000_0000
    ensures CreateTsid(nowMs, node, counter).Ok? ==>
              var id := CreateTsid(nowMs, node, counter).value;
              && (id != [] ==> id[|id| - 1] != '=')
              && exists b: seq<byte> ::
                   Base64.Decode(Pad(id)) == Some(b) && HasLayout(b, nowMs - 1577836800000, node, counter)
  {
    if CreateTsid(nowMs, node, counter).Ok? {
      TsidReadBack(nowMs, node, counter);
      RStripEnd(Base64.Encode(TsidBytes(nowMs, node, counter)), '=');
      BytesLayout(nowMs, node, counter);
      assert HasLayout(TsidBytes(nowMs, node, counter), nowMs - 1577836800000, node, counter);
    }
    hide Base64.Decode, Base64.Encode, RStrip, Pad, TsidBytes, HasLayout;
  }

  lemma LowByte(a: byte, p: nat, b: byte, q: nat)
    requires a + 0x100 * p == b + 0x100 * q
    ensures a == b && p == q
  {
  }

  lemma FiveValueInjective(b: seq<byte>, d: seq<byte>)
    requires |b| == |d| == 5 && FiveValue(b) == FiveValue(d)
    ensures b == d
  {
    var b0: nat, b1: nat, b2: nat, b3: nat := b[0], b[1], b[2], b[3];
    var d0: nat, d1: nat, d2: nat, d3: nat := d[0], d[1], d[2], d[3];
    LowByte(b[4], b3 + 0x100 * (b2 + 0x100 * (b1 + 0x100 * b0)), d[4], d3 + 0x100 * (d2 + 0x100 * (d1 + 0x100 * d0)));
    LowByte(b[3], b2 + 0x100 * (b1 + 0x100 * b0), d[3], d2 + 0x100 * (d1 + 0x100 * d0));
    LowByte(b[2], b1 + 0x100 * b0, d[2], d1 + 0x100 * d0);
    LowByte(b[1], b0, d[1], d0);
  }

  /** The five bytes of two times are equal exactly when the times agree modulo 2^40. */
  lemma LowFiveIff(n: nat, m: nat)
    ensures LowFive(n) == LowFive(m) <==> n % 0x100_0000_0000 == m % 0x100_0000_0000
  {
    LowFiveValue(n);
    LowFiveValue(m);
    hide LowFive, FiveValue;
    if n % 0x100_0000_0000 == m % 0x100_0000_0000 {
      FiveValueInjective(LowFive(n), LowFive(m));
    }
  }

  lemma TsidParts(nowMs: int, node: seq<byte>, counter: int, nowMs': int, node': seq<byte>, counter': int)
    requires nowMs >= TSID_EPOCH_MS && nowMs' >= TSID_EPOCH_MS
    ensures TsidBytes(nowMs, node, counter) == TsidBytes(nowMs', node', counter')
       <==> && LowFive(nowMs - TSID_EPOCH_MS) == LowFive(nowMs' - TSID_EPOCH_MS)
            && node == node' && LastByte(counter) == LastByte(counter')
  {
    hide LowFive, LastByte;
    var b, b' := TsidBytes(nowMs, node, counter), TsidBytes(nowMs', node', counter');
    if b == b' {
      assert |b| == 6 + |node| && |b'| == 6 + |node'|;
      assert LowFive(nowMs - TSID_EPOCH_MS) == b[..5] == b'[..5] == LowFive(nowMs' - TSID_EPOCH_MS);
      assert node == b[5..5 + |node|] == b'[5..5 + |node|] == node';
      assert b[|b| - 1] == b'[|b'| - 1];
    }
  }

  lemma AfterEpoch(nowMs: int, node: seq<byte>, counter: int)
    requires CreateTsid(nowMs, node, counter).Ok?
    ensures nowMs >= TSID_EPOCH_MS
  {
    hide TsidBytes, RStrip, Base64.Encode;
  }

  lemma SameBytes(nowMs: int, node: seq<byte>, counter: int, nowMs': int, node': seq<byte>, counter': int)
    requires CreateTsid(nowMs, node, counter).Ok? && CreateTsid(nowMs', node', counter').Ok?
    requires nowMs >= TSID_EPOCH_MS && nowMs' >= TSID_EPOCH_MS
    ensures TsidBytes(nowMs, node, counter) == TsidBytes(nowMs', node', counter')
       ==> CreateTsid(nowMs, node, counter) == CreateTsid(nowMs', node', counter')
  {
    hide TsidBytes, RStrip, Base64.Encode;
  }

  /** Two ids are equal exactly when their times agree modulo 2^40 milliseconds, their nodes
      are the same, and their counters agree in bits 0 to 4 and bit 7. */
  lemma TsidEqualIff(nowMs: int, node: seq<byte>, counter: int, nowMs': int, node': seq<byte>, counter': int)
    requires CreateTsid(nowMs, node, counter).Ok? && CreateTsid(nowMs', node', counter').Ok?
    ensures CreateTsid(nowMs, node, counter) == CreateTsid(nowMs', node', counter')
       <==> && (nowMs - TSID_EPOCH_MS) % 0x100_0000_0000 == (nowMs' - TSID_EPOCH_MS) % 0x100_0000_0000
            && node == node' && counter % 32 == counter' % 32 && counter / 128 % 2 == counter' / 128 % 2
  {
    hide *;
    AfterEpoch(nowMs, node, counter);
    AfterEpoch(nowMs', node', counter');
    TsidReadBack(nowMs, node, counter);
    TsidReadBack(nowMs', node', counter');
    SameBytes(nowMs, node, counter, nowMs', node', counter');
    TsidParts(nowMs, node, counter, nowMs', node', counter');
    LowFiveIff(nowMs - TSID_EPOCH_MS, nowMs' - TSID_EPOCH_MS);
    LastByteIff(counter, counter');
  }
}
