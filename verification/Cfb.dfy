/** CFB-128 (section 6.3 of NIST SP 800-38A) over an arbitrary block function, and the
    loop of `encrypt_cfb`. */
module Cfb {
  import opened Bits
  import opened Layers
  import opened Prelude
  import Cipher

  /** `bytes(a ^ b for a, b in zip(a, b))`: as long as the shorter of the two. */
  function XorSeq(a: seq<byte>, b: seq<byte>): (r: seq<byte>)
    ensures |r| == if |a| <= |b| then |a| else |b|
    ensures forall i | 0 <= i < |r| :: r[i] == XorByte(a[i], b[i])
  {
    seq(if |a| <= |b| then |a| else |b|, i requires 0 <= i < |a| && i < |b| => XorByte(a[i], b[i]))
  }

  /** The ciphertext of `p`: each block is masked with the image of the block before it. */
  function Encrypt(e: Block -> Block, iv: Block, p: seq<byte>): (ct: seq<byte>)
    ensures |ct| == |p|
    decreases |p|
  {
    if |p| <= 16 then XorSeq(e(iv), p)
    else
      var cb: Block := XorSeq(e(iv), p[..16]);
      cb + Encrypt(e, cb, p[16..])
  }

  function Decrypt(e: Block -> Block, iv: Block, ct: seq<byte>): (p: seq<byte>)
    ensures |p| == |ct|
    decreases |ct|
  {
    if |ct| <= 16 then XorSeq(e(iv), ct)
    else XorSeq(e(iv), ct[..16]) + Decrypt(e, ct[..16], ct[16..])
  }

  lemma XorSeqTwice(k: seq<byte>, p: seq<byte>)
    requires |p| <= |k|
    ensures XorSeq(k, XorSeq(k, p)) == p
  {
    forall i | 0 <= i < |p|
      ensures XorSeq(k, XorSeq(k, p))[i] == p[i]
    {
      XorTwice(k[i], p[i]);
    }
  }

  /** Decryption needs only the forward block function and undoes encryption, for every
      length, a partial last block included. */
  lemma {:induction false} DecryptEncrypt(e: Block -> Block, iv: Block, p: seq<byte>)
    ensures Decrypt(e, iv, Encrypt(e, iv, p)) == p
    decreases |p|
  {
    var ct := Encrypt(e, iv, p);
    if |p| <= 16 {
      XorSeqTwice(e(iv), p);
    } else {
      var cb: Block := XorSeq(e(iv), p[..16]);
      assert ct[..16] == cb && ct[16..] == Encrypt(e, cb, p[16..]);
      XorSeqTwice(e(iv), p[..16]);
      DecryptEncrypt(e, cb, p[16..]);
      assert p == p[..16] + p[16..];
    }
  }

  lemma {:induction false} EncryptDecrypt(e: Block -> Block, iv: Block, ct: seq<byte>)
    ensures Encrypt(e, iv, Decrypt(e, iv, ct)) == ct
    decreases |ct|
  {
    var p := Decrypt(e, iv, ct);
    if |ct| <= 16 {
      XorSeqTwice(e(iv), ct);
    } else {
      assert p[..16] == XorSeq(e(iv), ct[..16]) && p[16..] == Decrypt(e, ct[..16], ct[16..]);
      XorSeqTwice(e(iv), ct[..16]);
      EncryptDecrypt(e, ct[..16], ct[16..]);
      assert ct == ct[..16] + ct[16..];
    }
  }

  /** The block that feeds the cipher at block number `j`: the IV, then the ciphertext. */
  function Feedback(iv: Block, ct: seq<byte>, j: nat): Block
    requires 16 * j <= |ct|
  {
    if j == 0 then iv else ct[16 * (j - 1)..16 * j]
  }

  lemma FeedbackShift(iv: Block, cb: Block, rest: seq<byte>, j: nat)
    requires 16 * j <= |rest|
    ensures Feedback(iv, cb + rest, j + 1) == Feedback(cb, rest, j)
  {
    if j > 0 {
      assert (cb + rest)[16 * j..16 * (j + 1)] == rest[16 * (j - 1)..16 * j];
    }
  }

  /** A first whole block comes off alike whether or not more text follows it. */
  lemma FirstBlock(e: Block -> Block, iv: Block, p: seq<byte>)
    requires |p| >= 16
    ensures var cb: Block := XorSeq(e(iv), p[..16]); Encrypt(e, iv, p) == cb + Encrypt(e, cb, p[16..])
  {
    if |p| == 16 {
      assert p[..16] == p && p[16..] == [];
    }
  }

  lemma FirstEquation(e: Block -> Block, iv: Block, p: seq<byte>, k: nat)
    requires k < |p| && k < 16
    ensures Encrypt(e, iv, p)[k] == XorByte(e(iv)[k], p[k])
  {
    hide XorByte;
  }

  /** The standard's equations, byte by byte: C_j = P_j xor CIPH(C_{j-1}), the last block
      cut to its length. */
  lemma {:induction false} EncryptEquations(e: Block -> Block, iv: Block, p: seq<byte>, k: nat)
    requires k < |p|
    ensures Encrypt(e, iv, p)[k] == XorByte(e(Feedback(iv, Encrypt(e, iv, p), k / 16))[k % 16], p[k])
    decreases |p|
  {
    hide Encrypt, XorByte, XorSeq;
    if k < 16 {
      FirstEquation(e, iv, p, k);
    } else {
      hide Feedback;
      var cb: Block := XorSeq(e(iv), p[..16]);
      var rest := Encrypt(e, cb, p[16..]);
      FirstBlock(e, iv, p);
      EncryptEquations(e, cb, p[16..], k - 16);
      FeedbackShift(iv, cb, rest, (k - 16) / 16);
      assert k / 16 == (k - 16) / 16 + 1 && k % 16 == (k - 16) % 16;
      assert (cb + rest)[k] == rest[k - 16] && p[16..][k - 16] == p[k];
    }
  }

  /** The ciphertext of a prefix is the prefix of the ciphertext. */
  lemma {:induction false} EncryptPrefix(e: Block -> Block, iv: Block, p: seq<byte>, n: nat)
    requires n <= |p|
    ensures Encrypt(e, iv, p[..n]) == Encrypt(e, iv, p)[..n]
    decreases |p|
  {
    hide XorSeq;
    if n > 16 {
      var cb: Block := XorSeq(e(iv), p[..16]);
      assert p[..n][..16] == p[..16] && p[..n][16..] == p[16..][..n - 16];
      EncryptPrefix(e, cb, p[16..], n - 16);
    }
  }

  /** Encryption streams over whole blocks: go on with the last ciphertext block as IV. */
  lemma {:induction false} EncryptSplit(e: Block -> Block, iv: Block, p: seq<byte>, q: seq<byte>)
    requires |p| > 0 && |p| % 16 == 0
    ensures var ct := Encrypt(e, iv, p);
            Encrypt(e, iv, p + q) == ct + Encrypt(e, ct[|ct| - 16..], q)
    decreases |p|
  {
    hide Encrypt, XorSeq;
    var cb: Block := XorSeq(e(iv), p[..16]);
    assert (p + q)[..16] == p[..16] && (p + q)[16..] == p[16..] + q;
    FirstBlock(e, iv, p);
    FirstBlock(e, iv, p + q);
    var rest := Encrypt(e, cb, p[16..]);
    if |p| == 16 {
      assert p[16..] + q == q && rest == [];
      assert (cb + rest)[|cb + rest| - 16..] == cb;
    } else {
      EncryptSplit(e, cb, p[16..], q);
      assert (cb + rest)[|cb + rest| - 16..] == rest[|rest| - 16..];
      assert cb + (rest + Encrypt(e, rest[|rest| - 16..], q)) == (cb + rest) + Encrypt(e, rest[|rest| - 16..], q);
    }
  }

  /** Encrypting twice under one IV gives the first block back, and all of a short text. */
  lemma EncryptTwice(e: Block -> Block, iv: Block, p: seq<byte>)
    ensures var n := if |p| <= 16 then |p| else 16;
            Encrypt(e, iv, Encrypt(e, iv, p))[..n] == p[..n]
  {
    var n := if |p| <= 16 then |p| else 16;
    EncryptPrefix(e, iv, p, n);
    EncryptPrefix(e, iv, Encrypt(e, iv, p), n);
    XorSeqTwice(e(iv), p[..n]);
  }

  /** What one turn of the loop leaves to do. */
  lemma NextBlock(e: Block -> Block, feedback: Block, p: seq<byte>, i: nat)
    requires i < |p|
    ensures var block := p[i..if i + 16 <= |p| then i + 16 else |p|];
            var cb := XorSeq(e(feedback), block);
            Encrypt(e, feedback, p[i..]) == if i + 16 < |p| then cb + Encrypt(e, cb, p[i + 16..]) else cb
  {
    if i + 16 < |p| {
      assert p[i..][..16] == p[i..i + 16] && p[i..][16..] == p[i + 16..];
    }
  }

  lemma EncryptEmpty(e: Block -> Block, iv: Block)
    ensures Encrypt(e, iv, []) == []
  {
  }

  /** `encrypt_cfb`: the loop over blocks with a growing ciphertext and a reassigned
      feedback register. The final slice drops nothing. */
  method EncryptCfb(c: Cipher.GspaCipher, iv: seq<byte>, plaintext: seq<byte>)
      returns (r: Result<seq<byte>, Cipher.CipherError>)
    requires Cipher.Valid(c)
    ensures r == if |iv| != 16 then Err(Cipher.ValueError) else Ok(Encrypt(Cipher.EncryptFn(c), iv, plaintext))
  {
    hide Cipher.Encrypt, Cipher.Valid, Encrypt;
    if |iv| != 16 {
      return Err(Cipher.ValueError);
    }
    ghost var e := Cipher.EncryptFn(c);
    var ciphertext: seq<byte>, feedback: seq<byte>, i := [], iv, 0;
    assert plaintext[0..] == plaintext;
    EncryptEmpty(e, iv);
    while i < |plaintext|
      invariant i < |plaintext| ==> |feedback| == 16
      invariant i < |plaintext| ==> Encrypt(e, iv, plaintext) == ciphertext + Encrypt(e, feedback, plaintext[i..])
      invariant i >= |plaintext| ==> Encrypt(e, iv, plaintext) == ciphertext
      decreases |plaintext| - i
    {
      var enc := Cipher.EncryptBlock(c, feedback);
      var block := plaintext[i..if i + 16 <= |plaintext| then i + 16 else |plaintext|];
      var cb := XorSeq(enc.value, block);
      NextBlock(e, feedback, plaintext, i);
      ciphertext := ciphertext + cb;
      feedback := cb;
      i := i + 16;
    }
    assert ciphertext[..|plaintext|] == ciphertext;
    return Ok(ciphertext[..|plaintext|]);
  }

}
