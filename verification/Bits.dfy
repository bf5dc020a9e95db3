/** Python's unbounded non-negative integers as bit strings: exclusive or, and the
    column-matrix product that the GSPA cipher applies to them. */
module Bits {

  type byte = x: nat | x < 256

  const WORD: nat := 0x1_0000_0000  // words of the cipher are below this

  function Pow2(k: nat): (p: nat)
    ensures p >= 1
  {
    if k == 0 then 1 else 2 * Pow2(k - 1)
  }

  /** `x ^ y`, bit by bit from the least significant one. */
  function Xor(x: nat, y: nat): nat
    decreases x + y
  {
    if x == 0 && y == 0 then 0 else (if x % 2 == y % 2 then 0 else 1) + 2 * Xor(x / 2, y / 2)
  }

  predicate AllBelow(s: seq<nat>, n: nat) {
    forall i | 0 <= i < |s| :: s[i] < n
  }

  lemma Pow2Constants()
    ensures Pow2(8) == 256 && Pow2(16) == 0x1_0000 && Pow2(24) == 0x100_0000 && Pow2(32) == WORD
  {
    assert Pow2(4) == 16;
    assert Pow2(8) == 256;
    assert Pow2(12) == 0x1000;
    assert Pow2(16) == 0x1_0000;
    assert Pow2(20) == 0x10_0000;
    assert Pow2(24) == 0x100_0000;
    assert Pow2(28) == 0x1000_0000;
  }

  lemma XorZero(x: nat)
    ensures Xor(x, 0) == x && Xor(0, x) == x
  {
    if x != 0 { XorZero(x / 2); }
  }

  lemma XorSelf(x: nat)
    ensures Xor(x, x) == 0
  {
    if x != 0 { XorSelf(x / 2); }
  }

  lemma XorComm(x: nat, y: nat)
    ensures Xor(x, y) == Xor(y, x)
    decreases x + y
  {
    if x != 0 || y != 0 { XorComm(x / 2, y / 2); }
  }

  /** The lowest bit and the rest of an exclusive or. */
  lemma XorParts(x: nat, y: nat)
    ensures Xor(x, y) % 2 == if x % 2 == y % 2 then 0 else 1
    ensures Xor(x, y) / 2 == Xor(x / 2, y / 2)
  {
  }

  lemma HalvesDecide(x: nat, y: nat)
    requires x / 2 == y / 2 && x % 2 == y % 2
    ensures x == y
  {
  }

  lemma {:induction false} XorAssoc(x: nat, y: nat, z: nat)
    ensures Xor(Xor(x, y), z) == Xor(x, Xor(y, z))
    decreases x + y + z
  {
    if x != 0 || y != 0 || z != 0 {
      XorAssoc(x / 2, y / 2, z / 2);
      var xy, yz := Xor(x, y), Xor(y, z);
      XorParts(x, y);
      XorParts(y, z);
      XorParts(xy, z);
      XorParts(x, yz);
      HalvesDecide(Xor(xy, z), Xor(x, yz));
    }
  }

  /** Adding the same word twice changes nothing. */
  lemma XorTwice(x: nat, y: nat)
    ensures Xor(x, Xor(x, y)) == y
    ensures Xor(Xor(y, x), x) == y
  {
    XorAssoc(x, x, y);
    XorAssoc(y, x, x);
    XorSelf(x);
    XorZero(y);
  }

  lemma XorCancel(k: nat, x: nat, y: nat)
    requires Xor(k, x) == Xor(k, y) || Xor(x, k) == Xor(y, k)
    ensures x == y
  {
    XorTwice(k, x);
    XorTwice(k, y);
  }

  lemma XorInterchange(a: nat, b: nat, c: nat, d: nat)
    ensures Xor(Xor(a, b), Xor(c, d)) == Xor(Xor(a, c), Xor(b, d))
  {
    XorAssoc(a, b, Xor(c, d));
    XorAssoc(b, c, d);
    XorComm(b, c);
    XorAssoc(c, b, d);
    XorAssoc(a, c, Xor(b, d));
  }

  lemma XorBelow(x: nat, y: nat, k: nat)
    requires x < Pow2(k) && y < Pow2(k)
    ensures Xor(x, y) < Pow2(k)
  {
    if k != 0 { XorBelow(x / 2, y / 2, k - 1); }
  }

  /** `a ^ b` on bytes stays a byte. */
  function XorByte(a: byte, b: byte): byte {
    Pow2Constants();
    XorBelow(a, b, 8);
    Xor(a, b)
  }

  /** `a ^ b` on 32-bit words stays below 2^32. */
  function XorWord(a: nat, b: nat): (w: nat)
    requires a < WORD && b < WORD
    ensures w < WORD
  {
    Pow2Constants();
    XorBelow(a, b, 32);
    Xor(a, b)
  }

  // ----- columns over GF(2)

  /** The exclusive or of the columns at the set bits of `x`. */
  function Mat(cols: seq<nat>, x: nat): nat {
    if cols == [] then 0
    else Xor(if x % 2 == 1 then cols[0] else 0, Mat(cols[1..], x / 2))
  }

  lemma MatZero(cols: seq<nat>)
    ensures Mat(cols, 0) == 0
  {
  }

  /** `_mat` and `_lapply`: the same loop over the bits of `x`, lowest first. The
      precondition is what keeps `cols[i]` from raising an IndexError. */
  method ApplyColumns(cols: seq<nat>, x: nat) returns (y: nat)
    requires x < Pow2(|cols|)
    ensures y == Mat(cols, x)
  {
    y := 0;
    var rest: nat, i: nat := x, 0;
    XorZero(Mat(cols, x));
    assert cols[0..] == cols;
    while rest != 0
      invariant i <= |cols| && rest < Pow2(|cols| - i)
      invariant Xor(y, Mat(cols[i..], rest)) == Mat(cols, x)
      decreases rest
    {
      var bit := if rest % 2 == 1 then cols[i] else 0;
      assert cols[i..][1..] == cols[i + 1..];
      XorAssoc(y, bit, Mat(cols[i + 1..], rest / 2));
      XorZero(y);
      if rest % 2 == 1 {
        y := Xor(y, cols[i]);
      }
      rest := rest / 2;
      i := i + 1;
    }
    MatZero(cols[i..]);
    XorZero(y);
  }

  lemma {:induction false} MatBelow(cols: seq<nat>, x: nat, k: nat)
    requires AllBelow(cols, Pow2(k))
    ensures Mat(cols, x) < Pow2(k)
  {
    if cols != [] {
      MatBelow(cols[1..], x / 2, k);
      XorBelow(if x % 2 == 1 then cols[0] else 0, Mat(cols[1..], x / 2), k);
    }
  }

  /** The product is linear over GF(2), for all columns and all arguments. */
  lemma {:induction false} MatLinear(cols: seq<nat>, x: nat, y: nat)
    ensures Mat(cols, Xor(x, y)) == Xor(Mat(cols, x), Mat(cols, y))
  {
    if cols == [] {
    } else {
      var cx, cy := if x % 2 == 1 then cols[0] else 0, if y % 2 == 1 then cols[0] else 0;
      XorParts(x, y);
      MatLinear(cols[1..], x / 2, y / 2);
      XorInterchange(cx, Mat(cols[1..], x / 2), cy, Mat(cols[1..], y / 2));
      XorZero(cols[0]);
      XorSelf(cols[0]);
    }
  }

  /** Column `i` is the image of bit `i`. */
  lemma {:induction false} MatUnit(cols: seq<nat>, i: nat)
    requires i < |cols|
    ensures Mat(cols, Pow2(i)) == cols[i]
  {
    if i == 0 {
      MatZero(cols[1..]);
      XorZero(cols[0]);
    } else {
      MatUnit(cols[1..], i - 1);
      XorZero(cols[i]);
    }
  }

  lemma HalfOfSum(x: nat, p: nat, y: nat)
    ensures (x + 2 * p * y) / 2 == x / 2 + p * y && (x + 2 * p * y) % 2 == x % 2
  {
    var q := p * y;
    assert 2 * p * y == 2 * q;
  }

  /** Putting column lists side by side splits the argument at that bit. */
  lemma {:induction false} MatSplit(a: seq<nat>, b: seq<nat>, x: nat, y: nat)
    requires x < Pow2(|a|)
    ensures Mat(a + b, x + Pow2(|a|) * y) == Xor(Mat(a, x), Mat(b, y))
  {
    if a == [] {
      assert a + b == b;
      XorZero(Mat(b, y));
    } else {
      var z := x + Pow2(|a|) * y;
      assert (a + b)[1..] == a[1..] + b;
      HalfOfSum(x, Pow2(|a| - 1), y);
      MatSplit(a[1..], b, x / 2, y);
      XorAssoc(if x % 2 == 1 then a[0] else 0, Mat(a[1..], x / 2), Mat(b, y));
    }
  }

  /** No argument within the columns' width is sent to zero, except zero. */
  ghost predicate TrivialKernel(cols: seq<nat>) {
    forall x: nat | x < Pow2(|cols|) && Mat(cols, x) == 0 :: x == 0
  }

  ghost predicate InjectiveColumns(cols: seq<nat>) {
    forall x: nat, y: nat | x < Pow2(|cols|) && y < Pow2(|cols|) && Mat(cols, x) == Mat(cols, y) :: x == y
  }

  lemma KernelDecidesInjectivity(cols: seq<nat>)
    ensures TrivialKernel(cols) <==> InjectiveColumns(cols)
  {
    if TrivialKernel(cols) {
      forall x: nat, y: nat | x < Pow2(|cols|) && y < Pow2(|cols|) && Mat(cols, x) == Mat(cols, y)
        ensures x == y
      {
        MatLinear(cols, x, y);
        XorSelf(Mat(cols, x));
        XorBelow(x, y, |cols|);
        assert Xor(x, y) == 0;
        XorTwice(x, y);
        XorZero(x);
      }
    }
    if InjectiveColumns(cols) {
      MatZero(cols);
      assert TrivialKernel(cols);
    }
  }

  // ----- a word and its four bytes, most significant first

  /** The divisor of a right shift by `8 * (3 - j)`. */
  function Scale(j: nat): (s: nat)
    ensures s > 0
  {
    if j == 0 then 0x100_0000 else if j == 1 then 0x1_0000 else if j == 2 then 0x100 else 1
  }

  /** `(w >> (8 * (3 - j))) & 0xFF` */
  function WordByte(w: nat, j: nat): byte {
    w / Scale(j) % 256
  }

  function WordBytes(w: nat): (b: seq<byte>)
    ensures |b| == 4
  {
    [WordByte(w, 0), WordByte(w, 1), WordByte(w, 2), WordByte(w, 3)]
  }

  lemma NestedQuotients(w: nat)
    ensures w / 0x1_0000 == w / 0x100 / 0x100
    ensures w / 0x100_0000 == w / 0x1_0000 / 0x100
  {
  }

  lemma WordIsItsBytes(w: nat)
    requires w < WORD
    ensures w == WordByte(w, 3) + 0x100 * WordByte(w, 2) + 0x1_0000 * WordByte(w, 1) + 0x100_0000 * WordByte(w, 0)
  {
    NestedQuotients(w);
    var w1, w2, w3 := w / 0x100, w / 0x1_0000, w / 0x100_0000;
    assert w == 0x100 * w1 + WordByte(w, 3);
    assert w1 == 0x100 * w2 + WordByte(w, 2);
    assert w2 == 0x100 * w3 + WordByte(w, 1);
    assert w3 == WordByte(w, 0);
  }

  lemma WordBytesInjective(w: nat, v: nat)
    requires w < WORD && v < WORD && WordBytes(w) == WordBytes(v)
    ensures w == v
  {
    WordIsItsBytes(w);
    WordIsItsBytes(v);
    assert forall j | 0 <= j < 4 :: WordBytes(w)[j] == WordBytes(v)[j];
  }
}
