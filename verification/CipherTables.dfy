/** The same question answered on the parameter tables themselves: which ranks of the
    GF(2) column lists make the block function a permutation. */
module CipherTables {
  import opened Bits
  import opened Layers
  import opened Cipher
  import opened CipherInjective
  import opened Prelude
  import Numerals

  // ----- one s-box entry

  predicate SboxPermutes(c: GspaCipher)
    requires Valid(c)
  {
    forall i, j | 0 <= i < 256 && 0 <= j < 256 && c.sbox[i] == c.sbox[j] :: i == j
  }

  ghost predicate FullRank(q: SboxEntry) {
    TrivialKernel(q.m1) && TrivialKernel(q.m2)
  }

  /** Only the low byte of every column. */
  function LowBytes(cols: seq<nat>): (l: seq<nat>)
    ensures |l| == |cols| && forall i | 0 <= i < |l| :: l[i] == cols[i] % 256
  {
    seq(|cols|, i requires 0 <= i < |cols| => cols[i] % 256)
  }

  /** The columns of the identity on `k` bits. */
  function UnitColumns(k: nat): (cols: seq<nat>)
    ensures |cols| == k && forall i | 0 <= i < k :: cols[i] == Pow2(i)
  {
    seq(k, i requires 0 <= i < k => Pow2(i))
  }

  lemma Pow2Grows(i: nat, k: nat)
    requires i < k
    ensures Pow2(i) < Pow2(k)
  {
  }

  lemma UnitColumnsBelow()
    ensures AllBelow(UnitColumns(8), 256)
  {
    Pow2Constants();
    forall i | 0 <= i < 8
      ensures Pow2(i) < 256
    {
      Pow2Grows(i, 8);
    }
  }

  /** The columns that an entry's byte part goes through: its own, or the identity. */
  function OutColumns(q: SboxEntry): (cols: seq<nat>)
    requires ValidSbox(q)
    ensures |cols| == 8 && AllBelow(cols, WORD)
  {
    if q.isByte then
      UnitColumnsBelow();
      UnitColumns(8)
    else q.lcols
  }

  ghost predicate FullRankByte(q: SboxEntry)
    requires ValidSbox(q)
  {
    FullRank(q) && TrivialKernel(LowBytes(OutColumns(q)))
  }

  function MatByte(q: SboxEntry, u: byte): byte
    requires ValidSbox(q)
  {
    Pow2Constants();
    MatBelow(q.m1, u, 8);
    Mat(q.m1, u)
  }

  function SboxByte(c: GspaCipher, x: byte): byte
    requires Valid(c)
  {
    c.sbox[x]
  }

  lemma SboxCoreInjective(c: GspaCipher, q: SboxEntry, x: byte, y: byte)
    requires Valid(c) && SboxPermutes(c) && ValidSbox(q) && FullRank(q)
    requires SboxCore(c, q, x) == SboxCore(c, q, y)
    ensures x == y
  {
    Pow2Constants();
    KernelDecidesInjectivity(q.m1);
    KernelDecidesInjectivity(q.m2);
    MatBelow(q.m1, XorByte(x, q.a), 8);
    MatBelow(q.m1, XorByte(y, q.a), 8);
    var sx, sy := c.sbox[Mat(q.m1, XorByte(x, q.a))], c.sbox[Mat(q.m1, XorByte(y, q.a))];
    XorCancel(q.t2, Mat(q.m2, sx), Mat(q.m2, sy));
    XorCancel(q.a, x, y);
  }

  predicate IsBelow(x: nat, n: nat) {
    x < n
  }

  lemma TwiceProduct(p: nat, y: nat)
    ensures 2 * p * y == 2 * (p * y)
  {
  }

  lemma XorHighStep(low: nat, h: nat, y: nat)
    requires Xor(low / 2 + h, y / 2) == Xor(low / 2, y / 2) + h
    ensures Xor(low + 2 * h, y) == Xor(low, y) + 2 * h
  {
    var x := low + 2 * h;
    XorParts(x, y);
    XorParts(low, y);
    hide Xor;
    assert x / 2 == low / 2 + h && x % 2 == low % 2;
  }

  /** Bits above the `k` lowest come through an exclusive or with a `k`-bit number. */
  lemma {:induction false} XorHigh(low: nat, high: nat, y: nat, k: nat, p: nat)
    requires p == Pow2(k) && low < p && y < p
    ensures Xor(low + p * high, y) == Xor(low, y) + p * high
    decreases k
  {
    hide Xor;
    if k == 0 {
      XorZero(high);
      XorZero(0);
    } else {
      var q := Pow2(k - 1);
      XorHigh(low / 2, high, y / 2, k - 1, q);
      XorHighStep(low, q * high, y);
      assert p * high == 2 * (q * high) by { TwiceProduct(q, high); }
    }
  }

  lemma XorLowByte(w: nat, y: byte)
    ensures Xor(w, y) % 256 == Xor(w % 256, y)
  {
    hide Xor;
    Pow2Constants();
    XorHigh(w % 256, w / 256, y, 8, 256);
    XorBelow(w % 256, y, 8);
  }

  /** An entry is one application of the shared s-box between two affine maps of bytes. */
  lemma SboxBetweenAffineMaps(c: GspaCipher, q: SboxEntry, x: byte)
    requires Valid(c) && ValidSbox(q)
    ensures Xor(Mat(q.m1, x), Mat(q.m1, q.a)) < 256
    ensures SboxCore(c, q, x) == Xor(Mat(q.m2, c.sbox[Xor(Mat(q.m1, x), Mat(q.m1, q.a))]), q.t2)
    ensures SboxLookup(c, q, x) == if q.isByte then Xor(q.c % 256, SboxCore(c, q, x))
                                   else Xor(Xor(q.c, Mat(q.lcols, q.t2)), Mat(q.lcols, Xor(SboxCore(c, q, x), q.t2)))
  {
    Pow2Constants();
    MatBelow(q.m1, XorByte(x, q.a), 8);
    MatLinear(q.m1, x, q.a);
    var y := SboxCore(c, q, x);
    if q.isByte {
      XorLowByte(q.c, y);
      XorBelow(q.c % 256, y, 8);
    } else {
      XorTwice(q.t2, y);
      MatLinear(q.lcols, q.t2, Xor(y, q.t2));
      XorComm(y, q.t2);
      XorAssoc(q.c, Mat(q.lcols, q.t2), Mat(q.lcols, Xor(y, q.t2)));
    }
  }

  ghost function AllBytes(): set<byte> {
    set x: byte | 0 <= x < 256 && IsBelow(x, 256)
  }

  lemma SboxCoreOnto(c: GspaCipher, q: SboxEntry, v: byte) returns (x: byte)
    requires Valid(c) && SboxPermutes(c) && ValidSbox(q) && FullRank(q)
    ensures SboxCore(c, q, x) == v
  {
    var f: byte -> byte := y => SboxCore(c, q, y);
    forall x: byte, y: byte | f(x) == f(y)
      ensures x == y
    {
      SboxCoreInjective(c, q, x, y);
    }
    x := FiniteInjectiveIsOnto(AllBytes(), f, v);
  }

  ghost predicate CoreInjective(c: GspaCipher, q: SboxEntry)
    requires Valid(c) && ValidSbox(q)
  {
    forall x: byte, y: byte | SboxCore(c, q, x) == SboxCore(c, q, y) :: x == y
  }

  lemma CoreOfSame(c: GspaCipher, q: SboxEntry, x: byte, y: byte)
    requires Valid(c) && ValidSbox(q)
    ensures Mat(q.m1, XorByte(x, q.a)) < 256 && Mat(q.m1, XorByte(y, q.a)) < 256
    ensures Mat(q.m1, XorByte(x, q.a)) == Mat(q.m1, XorByte(y, q.a)) ==> SboxCore(c, q, x) == SboxCore(c, q, y)
    ensures Mat(q.m2, c.sbox[Mat(q.m1, XorByte(x, q.a))]) == Mat(q.m2, c.sbox[Mat(q.m1, XorByte(y, q.a))])
       ==> SboxCore(c, q, x) == SboxCore(c, q, y)
  {
    Pow2Constants();
    MatBelow(q.m1, XorByte(x, q.a), 8);
    MatBelow(q.m1, XorByte(y, q.a), 8);
    hide Mat, Xor, Pow2;
  }

  /** The input whose exclusive or with `q.a` is `u`. */
  lemma BeforeKey(q: SboxEntry, u: byte) returns (x: byte)
    requires ValidSbox(q)
    ensures XorByte(x, q.a) == u && forall y: byte | XorByte(y, q.a) == u :: y == x
  {
    x := XorByte(u, q.a);
    XorTwice(q.a, u);
    forall y: byte | XorByte(y, q.a) == u
      ensures y == x
    {
      XorCancel(q.a, x, y);
    }
  }

  /** An injective entry has an injective first matrix: equal products give equal cores. */
  lemma CoreForcesM1(c: GspaCipher, q: SboxEntry)
    requires Valid(c) && ValidSbox(q) && CoreInjective(c, q)
    ensures InjectiveColumns(q.m1)
  {
    Pow2Constants();
    hide Mat, Xor, SboxCore;
    forall u: nat, v: nat | u < Pow2(|q.m1|) && v < Pow2(|q.m1|) && Mat(q.m1, u) == Mat(q.m1, v)
      ensures u == v
    {
      var x := BeforeKey(q, u);
      var y := BeforeKey(q, v);
      CoreOfSame(c, q, x, y);
    }
  }

  /** An input that the first matrix sends to `i`. */
  lemma BeforeSbox(c: GspaCipher, q: SboxEntry, i: byte) returns (x: byte)
    requires Valid(c) && ValidSbox(q) && InjectiveColumns(q.m1)
    ensures Mat(q.m1, XorByte(x, q.a)) == i
  {
    Pow2Constants();
    forall u: byte
      ensures Mat(q.m1, u) < 256
    {
      MatBelow(q.m1, u, 8);
    }
    hide Mat, Xor;
    var u := FiniteInjectiveIsOnto(AllBytes(), v => MatByte(q, v), i);
    x := BeforeKey(q, u);
  }

  /** An injective entry has a shared s-box that permutes the bytes. */
  lemma CoreForcesSbox(c: GspaCipher, q: SboxEntry)
    requires Valid(c) && ValidSbox(q) && CoreInjective(c, q) && InjectiveColumns(q.m1)
    ensures SboxPermutes(c)
  {
    hide Mat, Xor, SboxCore, InjectiveColumns;
    forall i: nat, j: nat | i < 256 && j < 256 && c.sbox[i] == c.sbox[j]
      ensures i == j
    {
      var x := BeforeSbox(c, q, i);
      var y := BeforeSbox(c, q, j);
      CoreOfSame(c, q, x, y);
    }
  }

  lemma SboxReaches(c: GspaCipher, v: byte) returns (i: byte)
    requires Valid(c) && SboxPermutes(c)
    ensures c.sbox[i] == v
  {
    i := FiniteInjectiveIsOnto(AllBytes(), x => SboxByte(c, x), v);
  }

  /** And an injective second matrix. */
  lemma CoreForcesM2(c: GspaCipher, q: SboxEntry)
    requires Valid(c) && ValidSbox(q) && CoreInjective(c, q) && InjectiveColumns(q.m1) && SboxPermutes(c)
    ensures InjectiveColumns(q.m2)
  {
    Pow2Constants();
    hide Mat, Xor, SboxCore;
    forall u: nat, v: nat | u < Pow2(|q.m2|) && v < Pow2(|q.m2|) && Mat(q.m2, u) == Mat(q.m2, v)
      ensures u == v
    {
      var i := SboxReaches(c, u);
      var j := SboxReaches(c, v);
      var x := BeforeSbox(c, q, i);
      var y := BeforeSbox(c, q, j);
      CoreOfSame(c, q, x, y);
    }
  }

  /** The byte part of an entry is injective exactly when the shared s-box permutes the
      bytes and both matrices are of full rank. */
  lemma CoreInjectiveIff(c: GspaCipher, q: SboxEntry)
    requires Valid(c) && ValidSbox(q)
    ensures CoreInjective(c, q) <==> SboxPermutes(c) && FullRank(q)
  {
    KernelDecidesInjectivity(q.m1);
    KernelDecidesInjectivity(q.m2);
    hide TrivialKernel, InjectiveColumns, SboxCore;
    if CoreInjective(c, q) {
      CoreForcesM1(c, q);
      CoreForcesSbox(c, q);
      CoreForcesM2(c, q);
    }
    if SboxPermutes(c) && FullRank(q) {
      forall x: byte, y: byte | SboxCore(c, q, x) == SboxCore(c, q, y)
        ensures x == y
      {
        SboxCoreInjective(c, q, x, y);
      }
    }
  }

  /** The byte branch of `_sbox_lookup` is injective, whatever constant is added. */
  lemma ByteBranchInjective(c: GspaCipher, q: SboxEntry, x: byte, y: byte)
    requires Valid(c) && SboxPermutes(c) && ValidSbox(q) && FullRank(q) && q.isByte
    requires SboxLookup(c, q, x) % 256 == SboxLookup(c, q, y) % 256
    ensures x == y
  {
    hide Mat, Xor;
    XorLowByte(q.c, SboxCore(c, q, x));
    XorLowByte(q.c, SboxCore(c, q, y));
    XorCancel(q.c % 256, SboxCore(c, q, x), SboxCore(c, q, y));
    SboxCoreInjective(c, q, x, y);
  }

  // ----- what leaves an entry, as one affine map of its byte part

  function Doubled(cols: seq<nat>): (d: seq<nat>)
    ensures |d| == |cols| && forall i | 0 <= i < |d| :: d[i] == 2 * cols[i]
  {
    seq(|cols|, i requires 0 <= i < |cols| => 2 * cols[i])
  }

  lemma XorDoubled(x: nat, y: nat)
    ensures Xor(2 * x, 2 * y) == 2 * Xor(x, y)
  {
    XorParts(2 * x, 2 * y);
    hide Xor;
  }

  lemma {:induction false} MatDoubled(cols: seq<nat>, x: nat)
    ensures Mat(Doubled(cols), x) == 2 * Mat(cols, x)
  {
    hide Xor;
    if cols != [] {
      var bit: nat := if x % 2 == 1 then cols[0] else 0;
      var rest := Mat(cols[1..], x / 2);
      MatDoubled(cols[1..], x / 2);
      assert Doubled(cols)[1..] == Doubled(cols[1..]) && Doubled(cols)[0] == 2 * cols[0];
      assert Mat(cols, x) == Xor(bit, rest) && Mat(Doubled(cols), x) == Xor(2 * bit, 2 * rest);
      hide Mat, Doubled;
      XorDoubled(bit, rest);
    }
  }

  lemma BitAndRest(b: nat, h: nat)
    requires b < 2
    ensures Xor(b, 2 * h) == b + 2 * h
  {
    XorParts(b, 2 * h);
    XorZero(h);
  }

  lemma {:induction false} MatOfUnits(k: nat, x: nat)
    requires x < Pow2(k)
    ensures Mat(UnitColumns(k), x) == x
  {
    if k > 0 {
      MatOfUnits(k - 1, x / 2);
      MatDoubled(UnitColumns(k - 1), x / 2);
      assert UnitColumns(k)[1..] == Doubled(UnitColumns(k - 1));
      assert UnitColumns(k)[0] == 1;
      BitAndRest(x % 2, x / 2);
      hide UnitColumns, Doubled, Xor, Pow2;
    }
  }

  lemma LowHalf(x: nat, q: nat)
    requires q >= 1
    ensures x % (2 * q) == x % 2 + 2 * (x / 2 % q)
    ensures x % (2 * q) / 2 == x / 2 % q && x % (2 * q) % 2 == x % 2
  {
    var h := x / 2;
    var m, r := h / q, h % q;
    assert h == q * m + r;
    assert x == (2 * q) * m + (x % 2 + 2 * r);
    Numerals.QuotientUnique(x, 2 * q, m, x % 2 + 2 * r);
  }

  lemma {:induction false} XorLow(x: nat, y: nat, k: nat, p: nat)
    requires p == Pow2(k)
    ensures Xor(x, y) % p == Xor(x % p, y % p)
    decreases k
  {
    if k > 0 {
      var q := Pow2(k - 1);
      XorLow(x / 2, y / 2, k - 1, q);
      LowHalf(x, q);
      LowHalf(y, q);
      LowHalf(Xor(x, y), q);
      XorParts(x, y);
      XorParts(x % p, y % p);
      hide Xor;
    } else {
      XorZero(0);
    }
  }

  lemma {:induction false} MatLow(cols: seq<nat>, x: nat)
    ensures Mat(cols, x) % 256 == Mat(LowBytes(cols), x)
  {
    if cols != [] {
      Pow2Constants();
      MatLow(cols[1..], x / 2);
      assert LowBytes(cols)[1..] == LowBytes(cols[1..]);
      XorLow(if x % 2 == 1 then cols[0] else 0, Mat(cols[1..], x / 2), 8, 256);
    }
  }

  function OutConst(q: SboxEntry): (w: nat)
    requires ValidSbox(q)
    ensures w < WORD
  {
    if q.isByte then q.c % 256 else q.c
  }

  /** Either branch of the lookup is an affine map of the entry's byte part. */
  lemma LookupIsAffine(c: GspaCipher, q: SboxEntry, x: byte)
    requires Valid(c) && ValidSbox(q)
    ensures Mat(OutColumns(q), SboxCore(c, q, x)) < WORD
    ensures SboxLookup(c, q, x) == Xor(OutConst(q), Mat(OutColumns(q), SboxCore(c, q, x)))
  {
    Pow2Constants();
    var y := SboxCore(c, q, x);
    MatBelow(OutColumns(q), y, 32);
    if q.isByte {
      XorLowByte(q.c, y);
      MatOfUnits(8, y);
    }
    hide Mat, Xor, SboxCore;
  }

  // ----- the bytes of the last layer

  lemma FinalByteForm(c: GspaCipher, k: Position, x: byte)
    requires Valid(c)
    ensures var q := c.sboxGroups[c.finalGroup][k];
            FinalByte(c, k, x) == Xor(OutConst(q) % 256, Mat(LowBytes(OutColumns(q)), SboxCore(c, q, x)))
  {
    Pow2Constants();
    var q := c.sboxGroups[c.finalGroup][k];
    var w := Mat(OutColumns(q), SboxCore(c, q, x));
    LookupIsAffine(c, q, x);
    XorLow(OutConst(q), w, 8, 256);
    MatLow(OutColumns(q), SboxCore(c, q, x));
    hide Mat, Xor, SboxCore, SboxLookup;
  }

  /** A byte map of the last layer is injective exactly when the shared s-box permutes the
      bytes, and its two matrices and the low bytes of its columns are of full rank. */
  lemma FinalByteInjectiveIff(c: GspaCipher, k: Position)
    requires Valid(c)
    ensures InjectiveByte(FinalFn(c), k) <==> SboxPermutes(c) && FullRankByte(c.sboxGroups[c.finalGroup][k])
  {
    var q := c.sboxGroups[c.finalGroup][k];
    var low, n := LowBytes(OutColumns(q)), OutConst(q) % 256;
    CoreInjectiveIff(c, q);
    KernelDecidesInjectivity(low);
    Pow2Constants();
    hide TrivialKernel, SboxPermutes, SboxCore, Mat, Xor, FullRank;
    if InjectiveByte(FinalFn(c), k) {
      forall x: byte, y: byte | SboxCore(c, q, x) == SboxCore(c, q, y)
        ensures x == y
      {
        FinalByteForm(c, k, x);
        FinalByteForm(c, k, y);
        assert FinalFn(c)(k, x) == FinalFn(c)(k, y);
      }
      assert CoreInjective(c, q);
      forall u: nat, v: nat | u < Pow2(|low|) && v < Pow2(|low|) && Mat(low, u) == Mat(low, v)
        ensures u == v
      {
        var x := SboxCoreOnto(c, q, u);
        var y := SboxCoreOnto(c, q, v);
        FinalByteForm(c, k, x);
        FinalByteForm(c, k, y);
        assert FinalFn(c)(k, x) == FinalFn(c)(k, y);
      }
    }
    if CoreInjective(c, q) && InjectiveColumns(low) {
      forall x: byte, y: byte | FinalFn(c)(k, x) == FinalFn(c)(k, y)
        ensures x == y
      {
        FinalByteForm(c, k, x);
        FinalByteForm(c, k, y);
        XorCancel(n, Mat(low, SboxCore(c, q, x)), Mat(low, SboxCore(c, q, y)));
      }
    }
  }

  // ----- a column as two affine maps of 32-bit words

  function Entry(c: GspaCipher, ph: Phase, rnd: nat, col: ColIndex, j: nat): (q: SboxEntry)
    requires Valid(c) && ValidPhase(c, ph) && rnd < ph.rounds && j < 4
    ensures ValidSbox(q)
  {
    c.sboxGroups[ph.sboxGroup][rnd * 16 + col * 4 + j]
  }

  function LinearEntry(c: GspaCipher, ph: Phase, rnd: nat, col: ColIndex, j: nat): (q: LinEntry)
    requires Valid(c) && ValidPhase(c, ph) && rnd < ph.rounds && j < 4
    ensures ValidLin(q)
  {
    c.linGroups[ph.linGroup][rnd * 16 + col * 4 + j]
  }

  /** Four bytes as a word, the first one lowest. */
  function Pack(y: Column): (w: nat)
    ensures w < WORD
  {
    var y0: nat, y1: nat, y2: nat, y3: nat := y[0], y[1], y[2], y[3];
    y0 + 256 * (y1 + 256 * (y2 + 256 * y3))
  }

  lemma PackOnto(w: nat) returns (y: Column)
    requires w < WORD
    ensures Pack(y) == w
  {
    WordIsItsBytes(w);
    y := [WordByte(w, 3), WordByte(w, 2), WordByte(w, 1), WordByte(w, 0)];
  }

  lemma LowDigit(a: byte, p: nat, b: byte, q: nat)
    requires a + 256 * p == b + 256 * q
    ensures a == b && p == q
  {
  }

  lemma PackInjective(x: Column, y: Column)
    requires Pack(x) == Pack(y)
    ensures x == y
  {
    var x1: nat, x2: nat, x3: nat := x[1], x[2], x[3];
    var y1: nat, y2: nat, y3: nat := y[1], y[2], y[3];
    LowDigit(x[0], x1 + 256 * (x2 + 256 * x3), y[0], y1 + 256 * (y2 + 256 * y3));
    LowDigit(x[1], x2 + 256 * x3, y[1], y2 + 256 * y3);
    LowDigit(x[2], x3, y[2], y3);
  }

  /** Four lists of eight columns as one list of thirty-two. */
  function Wide(a: seq<nat>, b: seq<nat>, c: seq<nat>, d: seq<nat>): seq<nat> {
    a + (b + (c + d))
  }

  lemma MatSplitByte(a: seq<nat>, b: seq<nat>, x: byte, y: nat)
    requires |a| == 8
    ensures Mat(a + b, x + 256 * y) == Xor(Mat(a, x), Mat(b, y))
  {
    Pow2Constants();
    MatSplit(a, b, x, y);
  }

  lemma WideSplit(a: seq<nat>, b: seq<nat>, c: seq<nat>, d: seq<nat>, y: Column)
    requires |a| == |b| == |c| == |d| == 8
    ensures Mat(Wide(a, b, c, d), Pack(y)) == Xor(Mat(a, y[0]), Xor(Mat(b, y[1]), Xor(Mat(c, y[2]), Mat(d, y[3]))))
  {
    hide Mat, Xor;
    var y1: nat, y2: nat, y3: nat := y[1], y[2], y[3];
    var w2 := y2 + 256 * y3;
    var w1 := y1 + 256 * w2;
    MatSplitByte(c, d, y[2], y3);
    MatSplitByte(b, c + d, y[1], w2);
    MatSplitByte(a, b + (c + d), y[0], w1);
    assert Pack(y) == y[0] + 256 * w1;
  }

  lemma XorFourOfSums(k: seq<nat>, m: seq<nat>, w: seq<nat>)
    requires |k| == |m| == |w| == 4 && AllBelow(k, WORD) && AllBelow(m, WORD) && AllBelow(w, WORD)
    requires forall j | 0 <= j < 4 :: w[j] == Xor(k[j], m[j])
    ensures XorFour(w) == Xor(XorFour(k), Xor(m[0], Xor(m[1], Xor(m[2], m[3]))))
    ensures XorFour(w) == Xor(XorFour(k), Xor(m[3], Xor(m[2], Xor(m[1], m[0]))))
  {
    var m01, m012 := Xor(m[0], m[1]), Xor(Xor(m[0], m[1]), m[2]);
    XorInterchange(k[0], m[0], k[1], m[1]);
    XorInterchange(Xor(k[0], k[1]), m01, k[2], m[2]);
    XorInterchange(Xor(Xor(k[0], k[1]), k[2]), m012, k[3], m[3]);
    XorAssoc(m01, m[2], m[3]);
    XorAssoc(m[0], m[1], Xor(m[2], m[3]));
    XorComm(m012, m[3]);
    XorComm(m01, m[2]);
    XorComm(m[0], m[1]);
  }

  /** The word list of a column's s-box outputs, and of its linear layer. */
  function SboxColumns(c: GspaCipher, ph: Phase, rnd: nat, col: ColIndex): seq<nat>
    requires Valid(c) && ValidPhase(c, ph) && rnd < ph.rounds
  {
    Wide(OutColumns(Entry(c, ph, rnd, col, 0)), OutColumns(Entry(c, ph, rnd, col, 1)),
         OutColumns(Entry(c, ph, rnd, col, 2)), OutColumns(Entry(c, ph, rnd, col, 3)))
  }

  function LinColumns(c: GspaCipher, ph: Phase, rnd: nat, col: ColIndex): seq<nat>
    requires Valid(c) && ValidPhase(c, ph) && rnd < ph.rounds
  {
    Wide(LinearEntry(c, ph, rnd, col, 3).lcols, LinearEntry(c, ph, rnd, col, 2).lcols,
         LinearEntry(c, ph, rnd, col, 1).lcols, LinearEntry(c, ph, rnd, col, 0).lcols)
  }

  function SboxConsts(c: GspaCipher, ph: Phase, rnd: nat, col: ColIndex): (w: seq<nat>)
    requires Valid(c) && ValidPhase(c, ph) && rnd < ph.rounds
    ensures |w| == 4 && AllBelow(w, WORD)
  {
    seq(4, j requires 0 <= j < 4 => OutConst(Entry(c, ph, rnd, col, j)))
  }

  function LinConsts(c: GspaCipher, ph: Phase, rnd: nat, col: ColIndex): (w: seq<nat>)
    requires Valid(c) && ValidPhase(c, ph) && rnd < ph.rounds
    ensures |w| == 4 && AllBelow(w, WORD)
  {
    seq(4, j requires 0 <= j < 4 => LinearEntry(c, ph, rnd, col, j).lconst)
  }

  /** The four s-box cores of a column. */
  function Cores(c: GspaCipher, ph: Phase, rnd: nat, col: ColIndex, b: Column): Column
    requires Valid(c) && ValidPhase(c, ph) && rnd < ph.rounds
  {
    [SboxCore(c, Entry(c, ph, rnd, col, 0), b[0]), SboxCore(c, Entry(c, ph, rnd, col, 1), b[1]),
     SboxCore(c, Entry(c, ph, rnd, col, 2), b[2]), SboxCore(c, Entry(c, ph, rnd, col, 3), b[3])]
  }

  lemma SboxOutAt(c: GspaCipher, ph: Phase, rnd: nat, col: ColIndex, b: Column, j: nat)
    requires Valid(c) && ValidPhase(c, ph) && rnd < ph.rounds && j < 4
    ensures var q, y := Entry(c, ph, rnd, col, j), Cores(c, ph, rnd, col, b)[j];
            Mat(OutColumns(q), y) < WORD && SboxOut(c, ph, rnd, col, b)[j] == Xor(OutConst(q), Mat(OutColumns(q), y))
  {
    hide SboxCore, Mat, Xor, OutColumns, OutConst;
    LookupIsAffine(c, Entry(c, ph, rnd, col, j), b[j]);
    assert Cores(c, ph, rnd, col, b)[j] == SboxCore(c, Entry(c, ph, rnd, col, j), b[j]);
    assert SboxOut(c, ph, rnd, col, b)[j] == SboxLookup(c, Entry(c, ph, rnd, col, j), b[j]);
  }

  /** `inter` is one affine map of the packed byte parts, whichever branch each entry takes. */
  lemma InterIsAffine(c: GspaCipher, ph: Phase, rnd: nat, col: ColIndex, b: Column)
    requires Valid(c) && ValidPhase(c, ph) && rnd < ph.rounds
    ensures XorFour(SboxOut(c, ph, rnd, col, b))
         == Xor(XorFour(SboxConsts(c, ph, rnd, col)),
                Mat(SboxColumns(c, ph, rnd, col), Pack(Cores(c, ph, rnd, col, b))))
  {
    var y := Cores(c, ph, rnd, col, b);
    var m := seq(4, j requires 0 <= j < 4 => Mat(OutColumns(Entry(c, ph, rnd, col, j)), y[j]));
    forall j: nat | j < 4
      ensures m[j] < WORD && SboxOut(c, ph, rnd, col, b)[j] == Xor(SboxConsts(c, ph, rnd, col)[j], m[j])
    {
      SboxOutAt(c, ph, rnd, col, b, j);
    }
    hide Mat, Xor, OutColumns, OutConst, SboxCore, SboxOut, Entry;
    XorFourOfSums(SboxConsts(c, ph, rnd, col), m, SboxOut(c, ph, rnd, col, b));
    WideSplit(OutColumns(Entry(c, ph, rnd, col, 0)), OutColumns(Entry(c, ph, rnd, col, 1)),
              OutColumns(Entry(c, ph, rnd, col, 2)), OutColumns(Entry(c, ph, rnd, col, 3)), y);
  }

  lemma LinOutAt(c: GspaCipher, ph: Phase, rnd: nat, col: ColIndex, inter: nat, j: nat)
    requires Valid(c) && ValidPhase(c, ph) && rnd < ph.rounds && j < 4
    ensures var q, b := LinearEntry(c, ph, rnd, col, j), WordByte(inter, j);
            Mat(q.lcols, b) < WORD && LinOut(c, ph, rnd, col, inter)[j] == Xor(q.lconst, Mat(q.lcols, b))
  {
    Pow2Constants();
    MatBelow(LinearEntry(c, ph, rnd, col, j).lcols, WordByte(inter, j), 32);
    assert LinOut(c, ph, rnd, col, inter)[j] == LinLookup(LinearEntry(c, ph, rnd, col, j), WordByte(inter, j));
  }

  /** The four linear lookups together are one affine map of the 32-bit word `inter`. */
  lemma LinearLayerIsAffine(c: GspaCipher, ph: Phase, rnd: nat, col: ColIndex, inter: nat)
    requires Valid(c) && ValidPhase(c, ph) && rnd < ph.rounds && inter < WORD
    ensures XorFour(LinOut(c, ph, rnd, col, inter))
         == Xor(XorFour(LinConsts(c, ph, rnd, col)), Mat(LinColumns(c, ph, rnd, col), inter))
  {
    var b := WordBytes(inter);
    var m := seq(4, j requires 0 <= j < 4 => Mat(LinearEntry(c, ph, rnd, col, j).lcols, b[j]));
    forall j: nat | j < 4
      ensures m[j] < WORD && LinOut(c, ph, rnd, col, inter)[j] == Xor(LinConsts(c, ph, rnd, col)[j], m[j])
    {
      LinOutAt(c, ph, rnd, col, inter, j);
    }
    XorFourOfSums(LinConsts(c, ph, rnd, col), m, LinOut(c, ph, rnd, col, inter));
    var low: Column := [b[3], b[2], b[1], b[0]];
    WordIsItsBytes(inter);
    assert Pack(low) == inter;
    WideSplit(LinearEntry(c, ph, rnd, col, 3).lcols, LinearEntry(c, ph, rnd, col, 2).lcols,
              LinearEntry(c, ph, rnd, col, 1).lcols, LinearEntry(c, ph, rnd, col, 0).lcols, low);
  }

  // ----- two affine maps in a row

  predicate Columns32(cols: seq<nat>) {
    |cols| == 32 && AllBelow(cols, WORD)
  }

  function Affine(k: nat, cols: seq<nat>, w: nat): (r: nat)
    requires Columns32(cols) && k < WORD
    ensures r < WORD
  {
    Pow2Constants();
    MatBelow(cols, w, 32);
    XorWord(k, Mat(cols, w))
  }

  ghost predicate InjectiveWords(k: nat, cols: seq<nat>)
    requires Columns32(cols) && k < WORD
  {
    forall w: nat, v: nat | w < WORD && v < WORD && Affine(k, cols, w) == Affine(k, cols, v) :: w == v
  }

  ghost function AllWords(): set<nat> {
    set w: nat | 0 <= w < WORD && IsBelow(w, WORD)
  }

  /** An affine map of words is injective exactly when its columns have a trivial kernel. */
  lemma AffineInjectiveIff(k: nat, cols: seq<nat>)
    requires Columns32(cols) && k < WORD
    ensures InjectiveWords(k, cols) <==> TrivialKernel(cols)
  {
    Pow2Constants();
    KernelDecidesInjectivity(cols);
    hide Mat, Xor, Pow2;
    if TrivialKernel(cols) {
      forall w: nat, v: nat | w < WORD && v < WORD && Affine(k, cols, w) == Affine(k, cols, v)
        ensures w == v
      {
        XorCancel(k, Mat(cols, w), Mat(cols, v));
      }
    }
    if InjectiveWords(k, cols) {
      forall w: nat, v: nat | w < WORD && v < WORD && Mat(cols, w) == Mat(cols, v)
        ensures w == v
      {
        assert Affine(k, cols, w) == Affine(k, cols, v);
      }
      assert InjectiveColumns(cols);
    }
  }

  lemma AffineOnto(k: nat, cols: seq<nat>, r: nat) returns (w: nat)
    requires Columns32(cols) && k < WORD && r < WORD
    requires InjectiveWords(k, cols)
    ensures w < WORD && Affine(k, cols, w) == r
  {
    w := FiniteInjectiveIsOnto(AllWords(), v => Affine(k, cols, v), r);
  }

  ghost predicate InjectiveTwice(kl: nat, l: seq<nat>, kn: nat, n: seq<nat>)
    requires Columns32(l) && Columns32(n) && kl < WORD && kn < WORD
  {
    forall w: nat, v: nat
      | w < WORD && v < WORD && Affine(kn, n, Affine(kl, l, w)) == Affine(kn, n, Affine(kl, l, v)) :: w == v
  }

  lemma TwiceInjectiveIff(kl: nat, l: seq<nat>, kn: nat, n: seq<nat>)
    requires Columns32(l) && Columns32(n) && kl < WORD && kn < WORD
    ensures InjectiveTwice(kl, l, kn, n) <==> TrivialKernel(l) && TrivialKernel(n)
  {
    AffineInjectiveIff(kl, l);
    AffineInjectiveIff(kn, n);
    hide Affine, TrivialKernel;
    if InjectiveTwice(kl, l, kn, n) {
      assert InjectiveWords(kl, l);
      forall x: nat, y: nat | x < WORD && y < WORD && Affine(kn, n, x) == Affine(kn, n, y)
        ensures x == y
      {
        var w := AffineOnto(kl, l, x);
        var v := AffineOnto(kl, l, y);
      }
      assert InjectiveWords(kn, n);
    }
    if InjectiveWords(kl, l) && InjectiveWords(kn, n) {
      assert InjectiveTwice(kl, l, kn, n);
    }
  }

  // ----- the tables of one column, and of the whole cipher

  /** Both matrices of all four entries are of full rank. */
  ghost predicate FullRankEntries(c: GspaCipher, ph: Phase, rnd: nat, col: ColIndex)
    requires Valid(c) && ValidPhase(c, ph) && rnd < ph.rounds
  {
    forall j: nat | j < 4 :: FullRank(Entry(c, ph, rnd, col, j))
  }

  ghost predicate Unmasked(c: GspaCipher, globalRound: nat, col: ColIndex)
    requires Valid(c)
  {
    forall b: Column :: MaskWord(c, globalRound, col, b) == 0
  }

  lemma WideColumns(c: GspaCipher, ph: Phase, rnd: nat, col: ColIndex)
    requires Valid(c) && ValidPhase(c, ph) && rnd < ph.rounds
    ensures Columns32(SboxColumns(c, ph, rnd, col)) && Columns32(LinColumns(c, ph, rnd, col))
  {
  }

  function ColumnForm(c: GspaCipher, ph: Phase, rnd: nat, col: ColIndex, w: nat): (r: nat)
    requires Valid(c) && ValidPhase(c, ph) && rnd < ph.rounds
    ensures r < WORD
  {
    WideColumns(c, ph, rnd, col);
    Affine(XorFour(LinConsts(c, ph, rnd, col)), LinColumns(c, ph, rnd, col),
           Affine(XorFour(SboxConsts(c, ph, rnd, col)), SboxColumns(c, ph, rnd, col), w))
  }

  lemma ColumnWordForm(c: GspaCipher, ph: Phase, rnd: nat, globalRound: nat, col: ColIndex, b: Column)
    requires Valid(c) && ValidPhase(c, ph) && rnd < ph.rounds
    requires MaskWord(c, globalRound, col, b) == 0
    ensures ColumnWord(c, ph, rnd, globalRound, col, b) == ColumnForm(c, ph, rnd, col, Pack(Cores(c, ph, rnd, col, b)))
  {
    hide Mat, Xor, MaskWord;
    InterIsAffine(c, ph, rnd, col, b);
    LinearLayerIsAffine(c, ph, rnd, col, XorFour(SboxOut(c, ph, rnd, col, b)));
    XorZero(XorFour(LinOut(c, ph, rnd, col, XorFour(SboxOut(c, ph, rnd, col, b)))));
  }

  lemma CoresInjective(c: GspaCipher, ph: Phase, rnd: nat, col: ColIndex, a: Column, b: Column)
    requires Valid(c) && ValidPhase(c, ph) && rnd < ph.rounds && SboxPermutes(c) && FullRankEntries(c, ph, rnd, col)
    requires Cores(c, ph, rnd, col, a) == Cores(c, ph, rnd, col, b)
    ensures a == b
  {
    hide SboxCore, Entry, FullRank, Valid, SboxPermutes;
    forall j: nat | j < 4
      ensures a[j] == b[j]
    {
      assert FullRank(Entry(c, ph, rnd, col, j));
      assert Cores(c, ph, rnd, col, a)[j] == Cores(c, ph, rnd, col, b)[j];
      SboxCoreInjective(c, Entry(c, ph, rnd, col, j), a[j], b[j]);
    }
  }

  lemma CoresOnto(c: GspaCipher, ph: Phase, rnd: nat, col: ColIndex, w: nat) returns (b: Column)
    requires Valid(c) && ValidPhase(c, ph) && rnd < ph.rounds && SboxPermutes(c) && FullRankEntries(c, ph, rnd, col)
    requires w < WORD
    ensures Pack(Cores(c, ph, rnd, col, b)) == w
  {
    hide SboxCore, Entry, FullRank, Valid, SboxPermutes, Pack;
    var y := PackOnto(w);
    assert forall j: nat | j < 4 :: FullRank(Entry(c, ph, rnd, col, j));
    var b0 := SboxCoreOnto(c, Entry(c, ph, rnd, col, 0), y[0]);
    var b1 := SboxCoreOnto(c, Entry(c, ph, rnd, col, 1), y[1]);
    var b2 := SboxCoreOnto(c, Entry(c, ph, rnd, col, 2), y[2]);
    var b3 := SboxCoreOnto(c, Entry(c, ph, rnd, col, 3), y[3]);
    b := [b0, b1, b2, b3];
    assert Cores(c, ph, rnd, col, b) == y;
  }

  /** Without a mask, two columns are mapped alike exactly when their packed byte parts go
      through the two affine maps alike. */
  lemma ColumnReadsForm(c: GspaCipher, ph: Phase, rnd: nat, globalRound: nat, col: ColIndex, a: Column, b: Column)
    requires Valid(c) && ValidPhase(c, ph) && rnd < ph.rounds && Unmasked(c, globalRound, col)
    ensures ColumnFn(c, ph, rnd, globalRound)(col, a) == ColumnFn(c, ph, rnd, globalRound)(col, b)
       <==> ColumnForm(c, ph, rnd, col, Pack(Cores(c, ph, rnd, col, a)))
            == ColumnForm(c, ph, rnd, col, Pack(Cores(c, ph, rnd, col, b)))
  {
    ColumnWordForm(c, ph, rnd, globalRound, col, a);
    ColumnWordForm(c, ph, rnd, globalRound, col, b);
    if ColumnMap(c, ph, rnd, globalRound, col, a) == ColumnMap(c, ph, rnd, globalRound, col, b) {
      WordBytesInjective(ColumnWord(c, ph, rnd, globalRound, col, a), ColumnWord(c, ph, rnd, globalRound, col, b));
    }
  }

  /** An injective column forces each of its four entries to be injective: two inputs with
      one byte part would be two columns with one image. */
  lemma ColumnForcesEntry(c: GspaCipher, ph: Phase, rnd: nat, globalRound: nat, col: ColIndex, j: nat)
    requires Valid(c) && ValidPhase(c, ph) && rnd < ph.rounds && Unmasked(c, globalRound, col) && j < 4
    requires InjectiveColumn(ColumnFn(c, ph, rnd, globalRound), col)
    ensures CoreInjective(c, Entry(c, ph, rnd, col, j))
  {
    var q := Entry(c, ph, rnd, col, j);
    hide SboxCore, Entry, Unmasked, ColumnFn, ColumnForm, Pack, ValidPhase;
    forall x: byte, y: byte | SboxCore(c, q, x) == SboxCore(c, q, y)
      ensures x == y
    {
      var zero: Column := [0, 0, 0, 0];
      var a: Column, b: Column := zero[j := x], zero[j := y];
      assert Cores(c, ph, rnd, col, a) == Cores(c, ph, rnd, col, b);
      ColumnReadsForm(c, ph, rnd, globalRound, col, a, b);
      assert a == b && a[j] == x && b[j] == y;
    }
  }

  lemma ColumnForcesEntries(c: GspaCipher, ph: Phase, rnd: nat, globalRound: nat, col: ColIndex)
    requires Valid(c) && ValidPhase(c, ph) && rnd < ph.rounds && Unmasked(c, globalRound, col)
    requires InjectiveColumn(ColumnFn(c, ph, rnd, globalRound), col)
    ensures SboxPermutes(c) && FullRankEntries(c, ph, rnd, col)
  {
    hide Entry, FullRank, SboxPermutes, Unmasked, ColumnFn, InjectiveColumn, CoreInjective, Valid, ValidPhase;
    forall j: nat | j < 4
      ensures SboxPermutes(c) && FullRank(Entry(c, ph, rnd, col, j))
    {
      ColumnForcesEntry(c, ph, rnd, globalRound, col, j);
      CoreInjectiveIff(c, Entry(c, ph, rnd, col, j));
    }
    ColumnForcesEntry(c, ph, rnd, globalRound, col, 0);
    CoreInjectiveIff(c, Entry(c, ph, rnd, col, 0));
  }

  lemma SoundColumnIff(c: GspaCipher, ph: Phase, rnd: nat, globalRound: nat, col: ColIndex)
    requires Valid(c) && ValidPhase(c, ph) && rnd < ph.rounds && Unmasked(c, globalRound, col)
    requires SboxPermutes(c) && FullRankEntries(c, ph, rnd, col)
    ensures InjectiveColumn(ColumnFn(c, ph, rnd, globalRound), col)
       <==> TrivialKernel(SboxColumns(c, ph, rnd, col)) && TrivialKernel(LinColumns(c, ph, rnd, col))
  {
    WideColumns(c, ph, rnd, col);
    var kl, l := XorFour(SboxConsts(c, ph, rnd, col)), SboxColumns(c, ph, rnd, col);
    var kn, n := XorFour(LinConsts(c, ph, rnd, col)), LinColumns(c, ph, rnd, col);
    TwiceInjectiveIff(kl, l, kn, n);
    hide TrivialKernel, SboxPermutes, FullRankEntries, Unmasked, Cores, SboxColumns, LinColumns, SboxConsts, LinConsts;
    var f := ColumnFn(c, ph, rnd, globalRound);
    if InjectiveTwice(kl, l, kn, n) {
      forall a: Column, b: Column | f(col, a) == f(col, b)
        ensures a == b
      {
        ColumnReadsForm(c, ph, rnd, globalRound, col, a, b);
        PackInjective(Cores(c, ph, rnd, col, a), Cores(c, ph, rnd, col, b));
        CoresInjective(c, ph, rnd, col, a, b);
      }
    }
    if InjectiveColumn(f, col) {
      forall w: nat, v: nat | w < WORD && v < WORD && Affine(kn, n, Affine(kl, l, w)) == Affine(kn, n, Affine(kl, l, v))
        ensures w == v
      {
        assert ColumnForm(c, ph, rnd, col, w) == ColumnForm(c, ph, rnd, col, v);
        var a := CoresOnto(c, ph, rnd, col, w);
        var b := CoresOnto(c, ph, rnd, col, v);
        ColumnReadsForm(c, ph, rnd, globalRound, col, a, b);
        assert a == b;
      }
      assert InjectiveTwice(kl, l, kn, n);
    }
  }

  /** Without a mask, a column loses nothing exactly when the shared s-box permutes the
      bytes, the matrices of its four entries are of full rank, and so are its thirty-two
      s-box columns and its thirty-two linear columns. */
  lemma ColumnInjectiveIff(c: GspaCipher, ph: Phase, rnd: nat, globalRound: nat, col: ColIndex)
    requires Valid(c) && ValidPhase(c, ph) && rnd < ph.rounds && Unmasked(c, globalRound, col)
    ensures InjectiveColumn(ColumnFn(c, ph, rnd, globalRound), col)
       <==> && SboxPermutes(c) && FullRankEntries(c, ph, rnd, col)
            && TrivialKernel(SboxColumns(c, ph, rnd, col)) && TrivialKernel(LinColumns(c, ph, rnd, col))
  {
    var f := ColumnFn(c, ph, rnd, globalRound);
    if InjectiveColumn(f, col) {
      ColumnForcesEntries(c, ph, rnd, globalRound, col);
    }
    if SboxPermutes(c) && FullRankEntries(c, ph, rnd, col) {
      SoundColumnIff(c, ph, rnd, globalRound, col);
    }
  }

  // ----- the whole block function, read off the tables

  ghost predicate UnmaskedRound(c: GspaCipher, i: nat, rnd: nat)
    requires Valid(c) && i < |c.phases| && rnd < c.phases[i].rounds
  {
    var g := FirstRound(c, i) + rnd;
    forall col: ColIndex :: Unmasked(c, g, col)
  }

  /** No mask word but zero anywhere: no masks, or masks of zeros. */
  ghost predicate NoMasks(c: GspaCipher)
    requires Valid(c)
  {
    forall i: nat, rnd: nat | i < |c.phases| && rnd < c.phases[i].rounds :: UnmaskedRound(c, i, rnd)
  }

  ghost predicate FullRankColumn(c: GspaCipher, i: nat, rnd: nat, col: ColIndex)
    requires Valid(c) && i < |c.phases| && rnd < c.phases[i].rounds
  {
    && FullRankEntries(c, c.phases[i], rnd, col)
    && TrivialKernel(SboxColumns(c, c.phases[i], rnd, col))
    && TrivialKernel(LinColumns(c, c.phases[i], rnd, col))
  }

  ghost predicate FullRankRound(c: GspaCipher, i: nat, rnd: nat)
    requires Valid(c) && i < |c.phases| && rnd < c.phases[i].rounds
  {
    forall col: ColIndex :: FullRankColumn(c, i, rnd, col)
  }

  /** Every column of every round has entries of full rank, and two lists of thirty-two
      columns of full rank. */
  ghost predicate FullRankRounds(c: GspaCipher)
    requires Valid(c)
  {
    forall i: nat, rnd: nat | i < |c.phases| && rnd < c.phases[i].rounds :: FullRankRound(c, i, rnd)
  }

  ghost predicate FullRankFinal(c: GspaCipher)
    requires Valid(c)
  {
    forall k: Position :: FullRankByte(c.sboxGroups[c.finalGroup][k])
  }

  lemma RoundColumnIff(c: GspaCipher, i: nat, rnd: nat, col: ColIndex)
    requires Valid(c) && i < |c.phases| && rnd < c.phases[i].rounds && UnmaskedRound(c, i, rnd)
    ensures InjectiveColumn(ColumnFn(c, c.phases[i], rnd, FirstRound(c, i) + rnd), col)
       <==> SboxPermutes(c) && FullRankColumn(c, i, rnd, col)
  {
    var g := FirstRound(c, i) + rnd;
    assert Unmasked(c, g, col);
    assert ValidPhase(c, c.phases[i]);
    hide FullRankEntries, Unmasked, InjectiveColumn, SboxPermutes, ColumnFn, TrivialKernel, SboxColumns, LinColumns;
    hide Valid, ValidPhase, FirstRound;
    ColumnInjectiveIff(c, c.phases[i], rnd, g, col);
  }

  lemma FourColumns(f: (ColIndex, Column) -> Column)
    ensures AllInjective(f)
       <==> InjectiveColumn(f, 0) && InjectiveColumn(f, 1) && InjectiveColumn(f, 2) && InjectiveColumn(f, 3)
  {
    hide InjectiveColumn;
    if InjectiveColumn(f, 0) && InjectiveColumn(f, 1) && InjectiveColumn(f, 2) && InjectiveColumn(f, 3) {
      forall col: ColIndex
        ensures InjectiveColumn(f, col)
      {
        assert col == 0 || col == 1 || col == 2 || col == 3;
      }
    }
  }

  lemma FourRanks(c: GspaCipher, i: nat, rnd: nat)
    requires Valid(c) && i < |c.phases| && rnd < c.phases[i].rounds
    ensures FullRankRound(c, i, rnd)
       <==> && FullRankColumn(c, i, rnd, 0) && FullRankColumn(c, i, rnd, 1)
            && FullRankColumn(c, i, rnd, 2) && FullRankColumn(c, i, rnd, 3)
  {
    hide FullRankColumn, Valid;
    if && FullRankColumn(c, i, rnd, 0) && FullRankColumn(c, i, rnd, 1)
       && FullRankColumn(c, i, rnd, 2) && FullRankColumn(c, i, rnd, 3) {
      forall col: ColIndex
        ensures FullRankColumn(c, i, rnd, col)
      {
        assert col == 0 || col == 1 || col == 2 || col == 3;
      }
    }
  }

  ghost predicate FourInjective(f: (ColIndex, Column) -> Column) {
    InjectiveColumn(f, 0) && InjectiveColumn(f, 1) && InjectiveColumn(f, 2) && InjectiveColumn(f, 3)
  }

  lemma SoundRoundColumns(c: GspaCipher, i: nat, rnd: nat)
    requires Valid(c) && i < |c.phases| && rnd < c.phases[i].rounds && ValidPhase(c, c.phases[i])
    ensures SoundRound(c, i, rnd) <==> FourInjective(ColumnFn(c, c.phases[i], rnd, FirstRound(c, i) + rnd))
  {
    hide AllInjective, InjectiveColumn, ColumnFn, Valid, ValidPhase, FirstRound;
    FourColumns(ColumnFn(c, c.phases[i], rnd, FirstRound(c, i) + rnd));
  }

  lemma FourRounds(c: GspaCipher, i: nat, rnd: nat)
    requires Valid(c) && i < |c.phases| && rnd < c.phases[i].rounds && ValidPhase(c, c.phases[i])
    requires UnmaskedRound(c, i, rnd)
    ensures FourInjective(ColumnFn(c, c.phases[i], rnd, FirstRound(c, i) + rnd))
       <==> SboxPermutes(c) && FullRankRound(c, i, rnd)
  {
    hide InjectiveColumn, SboxPermutes, ColumnFn, FullRankColumn, FullRankRound, UnmaskedRound;
    hide Valid, ValidPhase, FirstRound;
    FourRanks(c, i, rnd);
    RoundColumnIff(c, i, rnd, 0);
    RoundColumnIff(c, i, rnd, 1);
    RoundColumnIff(c, i, rnd, 2);
    RoundColumnIff(c, i, rnd, 3);
  }

  lemma SoundRoundIff(c: GspaCipher, i: nat, rnd: nat)
    requires Valid(c) && i < |c.phases| && rnd < c.phases[i].rounds && UnmaskedRound(c, i, rnd)
    ensures SoundRound(c, i, rnd) <==> SboxPermutes(c) && FullRankRound(c, i, rnd)
  {
    assert ValidPhase(c, c.phases[i]);
    hide *;
    SoundRoundColumns(c, i, rnd);
    FourRounds(c, i, rnd);
  }

  lemma SoundFinalIff(c: GspaCipher)
    requires Valid(c)
    ensures SoundFinal(c) <==> SboxPermutes(c) && FullRankFinal(c)
  {
    hide InjectiveByte, SboxPermutes, FullRankByte, FinalFn;
    forall k: Position
      ensures InjectiveByte(FinalFn(c), k) <==> SboxPermutes(c) && FullRankByte(c.sboxGroups[c.finalGroup][k])
    {
      FinalByteInjectiveIff(c, k);
    }
    var first: Position := 0;
    assert SoundFinal(c) ==> InjectiveByte(FinalFn(c), first);
  }

  /** Without masks, `encrypt_block` is a permutation of the blocks exactly when the shared
      s-box permutes the bytes and every table of the final group and of every column of
      every round is of full rank. */
  lemma BlockPermutationIff(c: GspaCipher)
    requires Valid(c) && NoMasks(c)
    ensures Injective(EncryptFn(c)) && Surjective(EncryptFn(c))
       <==> SboxPermutes(c) && FullRankFinal(c) && FullRankRounds(c)
  {
    EncryptPermutesIff(c);
    SoundFinalIff(c);
    forall i: nat, rnd: nat | i < |c.phases| && rnd < c.phases[i].rounds
      ensures SoundRound(c, i, rnd) <==> SboxPermutes(c) && FullRankRound(c, i, rnd)
    {
      assert UnmaskedRound(c, i, rnd);
      SoundRoundIff(c, i, rnd);
    }
    hide SoundRound, FullRankRound, SoundFinal, FullRankFinal, SboxPermutes, UnmaskedRound;
    if SboxPermutes(c) && FullRankRounds(c) {
      assert forall i: nat, rnd: nat | i < |c.phases| && rnd < c.phases[i].rounds :: FullRankRound(c, i, rnd);
    }
    if SboxPermutes(c) && SoundPhases(c, 0) {
      forall i: nat, rnd: nat | i < |c.phases| && rnd < c.phases[i].rounds
        ensures FullRankRound(c, i, rnd)
      {
        assert SoundRounds(c, i, 0);
        assert SoundRound(c, i, rnd);
      }
    }
  }

  // ----- masks of zeros

  predicate ZeroMasks(c: GspaCipher)
    requires Valid(c)
  {
    c.masks.Some? ==>
      forall key | key in c.masks.value :: forall j, x | 0 <= j < 4 && 0 <= x < 256 :: c.masks.value[key][j][x] == 0
  }

  function WithoutMasks(c: GspaCipher): (d: GspaCipher)
    requires Valid(c)
    ensures Valid(d) && d.phases == c.phases
    ensures forall ph | ValidPhase(c, ph) :: ValidPhase(d, ph)
  {
    c.(masks := None)
  }

  lemma ZeroMaskWord(c: GspaCipher, globalRound: nat, col: ColIndex, b: Column)
    requires Valid(c) && ZeroMasks(c)
    ensures MaskWord(c, globalRound, col, b) == 0
  {
  }

  /** No mask tables, or mask tables of zeros only, are no masks. */
  lemma ZeroMasksAreNone(c: GspaCipher)
    requires Valid(c) && ZeroMasks(c)
    ensures NoMasks(c)
  {
    hide MaskWord;
    forall g: nat, col: ColIndex
      ensures Unmasked(c, g, col)
    {
      forall b: Column
        ensures MaskWord(c, g, col, b) == 0
      {
        ZeroMaskWord(c, g, col, b);
      }
    }
    hide Unmasked;
  }

  /** The mask is added once, to the word that leaves the linear layer. */
  lemma MaskIsAddedOnce(c: GspaCipher, ph: Phase, rnd: nat, globalRound: nat, col: ColIndex, b: Column)
    requires Valid(c) && ValidPhase(c, ph) && rnd < ph.rounds
    ensures ColumnWord(c, ph, rnd, globalRound, col, b)
         == Xor(ColumnWord(WithoutMasks(c), ph, rnd, globalRound, col, b), MaskWord(c, globalRound, col, b))
  {
    var d := WithoutMasks(c);
    assert SboxOut(c, ph, rnd, col, b) == SboxOut(d, ph, rnd, col, b);
    var inter := XorFour(SboxOut(c, ph, rnd, col, b));
    assert LinOut(c, ph, rnd, col, inter) == LinOut(d, ph, rnd, col, inter);
    XorZero(XorFour(LinOut(d, ph, rnd, col, inter)));
    hide Xor, Mat, SboxLookup, LinLookup;
  }

  /** Two words lists that differ in one place have exclusive ors that differ alike. */
  lemma XorFourChange(p: seq<nat>, q: seq<nat>, j: nat)
    requires |p| == |q| == 4 && AllBelow(p, WORD) && AllBelow(q, WORD) && j < 4
    requires forall i | 0 <= i < 4 && i != j :: p[i] == q[i]
    ensures Xor(XorFour(p), XorFour(q)) == Xor(p[j], q[j])
  {
    hide Xor;
    XorInterchange(Xor(Xor(p[0], p[1]), p[2]), p[3], Xor(Xor(q[0], q[1]), q[2]), q[3]);
    XorInterchange(Xor(p[0], p[1]), p[2], Xor(q[0], q[1]), q[2]);
    XorInterchange(p[0], p[1], q[0], q[1]);
    forall i: nat | i < 4
      ensures Xor(p[i], p[i]) == 0
    {
      XorSelf(p[i]);
    }
    XorZero(Xor(p[j], q[j]));
    XorZero(0);
  }

  /** Where a mask applies, changing one byte of the column changes the mask word by what
      that byte's own table says, and by nothing else. */
  lemma MaskDifference(c: GspaCipher, globalRound: nat, col: ColIndex, b: Column, j: nat, x: byte)
    requires Valid(c) && c.masks.Some? && (globalRound, col) in c.masks.value && j < 4
    ensures ValidMask(c.masks.value[(globalRound, col)])
    ensures var lut := c.masks.value[(globalRound, col)][j];
            Xor(MaskWord(c, globalRound, col, b), MaskWord(c, globalRound, col, b[j := x])) == Xor(lut[b[j]], lut[x])
  {
    var luts := c.masks.value[(globalRound, col)];
    assert ValidMask(luts);
    var d: Column := b[j := x];
    var p, q := seq(4, i requires 0 <= i < 4 => luts[i][b[i]]), seq(4, i requires 0 <= i < 4 => luts[i][d[i]]);
    XorFourChange(p, q, j);
  }

  lemma SameColumn(c: GspaCipher, ph: Phase, rnd: nat, globalRound: nat, col: ColIndex, b: Column)
    requires Valid(c) && ValidPhase(c, ph) && rnd < ph.rounds && ZeroMasks(c)
    ensures ColumnMap(c, ph, rnd, globalRound, col, b) == ColumnMap(WithoutMasks(c), ph, rnd, globalRound, col, b)
  {
    ZeroMaskWord(c, globalRound, col, b);
    assert SboxOut(c, ph, rnd, col, b) == SboxOut(WithoutMasks(c), ph, rnd, col, b);
  }

  lemma SameRound(c: GspaCipher, ph: Phase, rnd: nat, globalRound: nat, s: Block)
    requires Valid(c) && ValidPhase(c, ph) && rnd < ph.rounds && ZeroMasks(c)
    ensures RoundMap(c, ph, rnd, globalRound, s) == RoundMap(WithoutMasks(c), ph, rnd, globalRound, s)
  {
    var d := WithoutMasks(c);
    forall col: ColIndex
      ensures ColumnOf(RoundMap(c, ph, rnd, globalRound, s), col) == ColumnOf(RoundMap(d, ph, rnd, globalRound, s), col)
    {
      var b := ColumnOf(ShiftRows(s), col);
      RoundMapAt(c, ph, rnd, globalRound, s, col);
      RoundMapAt(d, ph, rnd, globalRound, s, col);
      SameColumn(c, ph, rnd, globalRound, col, b);
    }
    ColumnsDecide(RoundMap(c, ph, rnd, globalRound, s), RoundMap(d, ph, rnd, globalRound, s));
  }

  lemma {:induction false} SameRounds(c: GspaCipher, ph: Phase, rnd: nat, globalRound: nat, s: Block)
    requires Valid(c) && ValidPhase(c, ph) && rnd <= ph.rounds && ZeroMasks(c)
    ensures RunRounds(c, ph, rnd, globalRound, s) == RunRounds(WithoutMasks(c), ph, rnd, globalRound, s)
    decreases ph.rounds - rnd
  {
    if rnd < ph.rounds {
      SameRound(c, ph, rnd, globalRound, s);
      hide RoundMap;
      SameRounds(c, ph, rnd + 1, globalRound + 1, RoundMap(c, ph, rnd, globalRound, s));
    }
  }

  lemma {:induction false} SamePhases(c: GspaCipher, i: nat, globalRound: nat, s: Block)
    requires Valid(c) && i <= |c.phases| && ZeroMasks(c)
    ensures RunPhases(c, i, globalRound, s) == RunPhases(WithoutMasks(c), i, globalRound, s)
    decreases |c.phases| - i
  {
    if i < |c.phases| {
      SameRounds(c, c.phases[i], 0, globalRound, s);
      SamePhases(c, i + 1, globalRound + c.phases[i].rounds, RunRounds(c, c.phases[i], 0, globalRound, s));
    }
  }

  /** All-zero mask tables encrypt exactly like no mask tables. */
  lemma ZeroMasksChangeNothing(c: GspaCipher, s: Block)
    requires Valid(c) && ZeroMasks(c)
    ensures Encrypt(c, s) == Encrypt(WithoutMasks(c), s)
  {
    SamePhases(c, 0, 0, s);
    var t := ShiftRows(RunPhases(c, 0, 0, s));
    assert forall k: Position :: FinalByte(c, k, t[k]) == FinalByte(WithoutMasks(c), k, t[k]);
  }
}
