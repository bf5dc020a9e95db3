/** Sixteen-byte states, and the three kinds of layer a block function is made of:
    a permutation of positions, one map per column, one map per byte. */
module Layers {
  import opened Bits

  type Block = b: seq<byte> | |b| == 16 witness seq(16, _ => 0)
  type Column = b: seq<byte> | |b| == 4 witness seq(4, _ => 0)
  type ColIndex = n: nat | n < 4
  type Position = n: nat | n < 16

  const SR_POSITIONS: seq<nat> := [0, 5, 10, 15, 4, 9, 14, 3, 8, 13, 2, 7, 12, 1, 6, 11]

  /** The table in closed form: position `k` reads byte `5 * k mod 16`. */
  function SrPosition(k: Position): Position {
    5 * k % 16
  }

  lemma SrTable(k: Position)
    ensures SR_POSITIONS[k] == SrPosition(k)
  {
    assert SR_POSITIONS == [0, 5, 10, 15, 4, 9, 14, 3, 8, 13, 2, 7, 12, 1, 6, 11];
  }

  function ShiftRows(s: Block): (t: Block)
    ensures forall k | 0 <= k < 16 :: t[k] == s[SrPosition(k)]
  {
    seq(16, k requires 0 <= k < 16 => s[SrPosition(k)])
  }

  lemma SixteenPlus(k: Position, t: int)
    ensures (k + 16 * t) % 16 == k
  {
  }

  /** Every byte is read exactly once: 13 undoes 5 modulo 16. */
  lemma SrReached(k: Position) returns (p: Position)
    ensures SrPosition(p) == k
  {
    var m := 13 * k / 16;
    p := 13 * k - 16 * m;
    assert 5 * p == k + 16 * (4 * k - 5 * m);
    SixteenPlus(k, 4 * k - 5 * m);
  }

  lemma ShiftRowsInjective(s: Block, t: Block)
    requires ShiftRows(s) == ShiftRows(t)
    ensures s == t
  {
    hide SrPosition;
    forall k: nat | k < 16
      ensures s[k] == t[k]
    {
      var p := SrReached(k);
      assert ShiftRows(s)[p] == ShiftRows(t)[p];
    }
  }

  /** Bytes `4 * col .. 4 * col + 4` of a state. */
  function ColumnOf(s: Block, col: ColIndex): (b: Column)
    ensures forall j | 0 <= j < 4 :: b[j] == s[4 * col + j]
  {
    [s[4 * col], s[4 * col + 1], s[4 * col + 2], s[4 * col + 3]]
  }

  lemma ColumnBytes(s: Block, t: Block, col: ColIndex)
    requires ColumnOf(s, col) == ColumnOf(t, col)
    ensures forall k | 4 * col <= k < 4 * col + 4 :: s[k] == t[k]
  {
    forall k | 4 * col <= k < 4 * col + 4
      ensures s[k] == t[k]
    {
      assert s[k] == ColumnOf(s, col)[k - 4 * col];
      assert t[k] == ColumnOf(t, col)[k - 4 * col];
    }
  }

  lemma ColumnsDecide(s: Block, t: Block)
    requires forall col: ColIndex :: ColumnOf(s, col) == ColumnOf(t, col)
    ensures s == t
  {
    ColumnBytes(s, t, 0);
    ColumnBytes(s, t, 1);
    ColumnBytes(s, t, 2);
    ColumnBytes(s, t, 3);
  }

  function MappedByte(f: (ColIndex, Column) -> Column, s: Block, k: Position): byte {
    f(k / 4, ColumnOf(s, k / 4))[k % 4]
  }

  /** All four columns mapped at once, each from the state as it was. */
  function MapColumns(f: (ColIndex, Column) -> Column, s: Block): (t: Block)
    ensures forall k | 0 <= k < 16 :: t[k] == MappedByte(f, s, k)
  {
    seq(16, k requires 0 <= k < 16 => MappedByte(f, s, k))
  }

  lemma MapColumnsAt(f: (ColIndex, Column) -> Column, s: Block, col: ColIndex)
    ensures ColumnOf(MapColumns(f, s), col) == f(col, ColumnOf(s, col))
  {
    var b := f(col, ColumnOf(s, col));
    forall j | 0 <= j < 4
      ensures MapColumns(f, s)[4 * col + j] == b[j]
    {
      assert (4 * col + j) / 4 == col && (4 * col + j) % 4 == j;
    }
  }

  function MapBytes(f: (Position, byte) -> byte, s: Block): (t: Block)
    ensures forall k | 0 <= k < 16 :: t[k] == f(k, s[k])
  {
    seq(16, k requires 0 <= k < 16 => f(k, s[k]))
  }

  ghost predicate InjectiveColumn(f: (ColIndex, Column) -> Column, col: ColIndex) {
    forall a: Column, b: Column | f(col, a) == f(col, b) :: a == b
  }

  ghost predicate InjectiveByte(f: (Position, byte) -> byte, k: Position) {
    forall x: byte, y: byte | f(k, x) == f(k, y) :: x == y
  }

  ghost predicate AllInjective(f: (ColIndex, Column) -> Column) {
    forall col: ColIndex :: InjectiveColumn(f, col)
  }

  // ----- injective maps of blocks

  ghost predicate Injective(f: Block -> Block) {
    forall s: Block, t: Block | f(s) == f(t) :: s == t
  }

  ghost predicate Reaches(f: Block -> Block, t: Block) {
    exists s: Block :: f(s) == t
  }

  ghost predicate Surjective(f: Block -> Block) {
    forall t: Block :: Reaches(f, t)
  }

  function RowsFn(): Block -> Block {
    s => ShiftRows(s)
  }

  function ColumnsFn(f: (ColIndex, Column) -> Column): Block -> Block {
    s => MapColumns(f, s)
  }

  function BytesFn(f: (Position, byte) -> byte): Block -> Block {
    s => MapBytes(f, s)
  }

  /** `col` holds `b`, everything else is zero. */
  function PutColumn(col: ColIndex, b: Column): (s: Block)
    ensures forall k: ColIndex :: ColumnOf(s, k) == if k == col then b else [0, 0, 0, 0]
  {
    seq(16, k requires 0 <= k < 16 => if k / 4 == col then b[k % 4] else 0)
  }

  /** A column layer loses nothing exactly when none of its four column maps does. */
  lemma ColumnsInjectiveIff(f: (ColIndex, Column) -> Column)
    ensures Injective(ColumnsFn(f)) <==> AllInjective(f)
  {
    if AllInjective(f) {
      forall s: Block, t: Block | ColumnsFn(f)(s) == ColumnsFn(f)(t)
        ensures s == t
      {
        forall col: ColIndex
          ensures ColumnOf(s, col) == ColumnOf(t, col)
        {
          MapColumnsAt(f, s, col);
          MapColumnsAt(f, t, col);
          assert InjectiveColumn(f, col);
        }
        ColumnsDecide(s, t);
      }
    }
    if Injective(ColumnsFn(f)) {
      forall col: ColIndex, a: Column, b: Column | f(col, a) == f(col, b)
        ensures a == b
      {
        var s, t := PutColumn(col, a), PutColumn(col, b);
        forall k: ColIndex
          ensures ColumnOf(MapColumns(f, s), k) == ColumnOf(MapColumns(f, t), k)
        {
          MapColumnsAt(f, s, k);
          MapColumnsAt(f, t, k);
        }
        ColumnsDecide(MapColumns(f, s), MapColumns(f, t));
        assert ColumnsFn(f)(s) == ColumnsFn(f)(t);
        assert ColumnOf(s, col) == a && ColumnOf(t, col) == b;
      }
    }
  }

  lemma BytesInjectiveIff(f: (Position, byte) -> byte)
    ensures Injective(BytesFn(f)) <==> forall k: Position :: InjectiveByte(f, k)
  {
    if forall k: Position :: InjectiveByte(f, k) {
      forall s: Block, t: Block | BytesFn(f)(s) == BytesFn(f)(t)
        ensures s == t
      {
        forall k: nat | k < 16
          ensures s[k] == t[k]
        {
          assert MapBytes(f, s)[k] == MapBytes(f, t)[k];
          assert InjectiveByte(f, k);
        }
      }
    }
    if Injective(BytesFn(f)) {
      forall k: Position, x: byte, y: byte | f(k, x) == f(k, y)
        ensures x == y
      {
        var zero: Block := seq(16, _ => 0);
        var s: Block, t: Block := zero[k := x], zero[k := y];
        assert MapBytes(f, s) == MapBytes(f, t);
        assert BytesFn(f)(s) == BytesFn(f)(t);
        assert s[k] == x && t[k] == y;
      }
    }
  }

  lemma RowsInjective()
    ensures Injective(RowsFn())
  {
    forall s: Block, t: Block | RowsFn()(s) == RowsFn()(t)
      ensures s == t
    {
      ShiftRowsInjective(s, t);
    }
  }

  // ----- blocks are finitely many, so an injective map reaches every block

  function Bytes(n: nat): (u: set<seq<byte>>)
    ensures forall s :: s in u ==> |s| == n
  {
    if n == 0 then {[]}
    else set x: byte, t | 0 <= x < 256 && t in Bytes(n - 1) :: [x] + t
  }

  lemma BytesComplete(s: seq<byte>)
    ensures s in Bytes(|s|)
  {
    if s != [] {
      BytesComplete(s[1..]);
      assert s == [s[0]] + s[1..];
    }
  }

  ghost function Image<T, U>(u: set<T>, f: T -> U): set<U> {
    set x | x in u :: f(x)
  }

  lemma ImageSize<T, U>(u: set<T>, f: T -> U)
    requires forall x, y | x in u && y in u && f(x) == f(y) :: x == y
    ensures |Image(u, f)| == |u|
  {
    if u == {} {
      assert Image(u, f) == {};
    } else {
      var a :| a in u;
      ImageSize(u - {a}, f);
      assert Image(u, f) == Image(u - {a}, f) + {f(a)};
      assert f(a) !in Image(u - {a}, f);
    }
  }

  lemma SubsetSize<T>(a: set<T>, b: set<T>)
    requires a <= b
    ensures |a| <= |b|
  {
    if a != {} {
      var x :| x in a;
      SubsetSize(a - {x}, b - {x});
    }
  }

  lemma SubsetOfSameSize<T>(a: set<T>, b: set<T>)
    requires a <= b && |a| == |b|
    ensures a == b
  {
    if x :| x in b && x !in a {
      SubsetSize(a, b - {x});
      assert false;
    }
  }

  lemma ImageWithin<T>(u: set<T>, f: T -> T)
    requires forall x | x in u :: f(x) in u
    ensures Image(u, f) <= u
  {
  }

  lemma FromImage<T>(u: set<T>, f: T -> T, y: T) returns (x: T)
    requires y in Image(u, f)
    ensures x in u && f(x) == y
  {
    x :| x in u && f(x) == y;
  }

  /** On a finite set that a map keeps, injective means onto. */
  lemma FiniteInjectiveIsOnto<T>(u: set<T>, f: T -> T, y: T) returns (x: T)
    requires forall x | x in u :: f(x) in u
    requires forall x, y | x in u && y in u && f(x) == f(y) :: x == y
    requires y in u
    ensures x in u && f(x) == y
  {
    hide Image;
    ImageSize(u, f);
    ImageWithin(u, f);
    SubsetOfSameSize(Image(u, f), u);
    x := FromImage(u, f, y);
  }

  /** Every block, when `n` is the block length. */
  ghost function AllBlocks(n: nat): set<Block> {
    set s: Block | s in Bytes(n)
  }

  lemma InjectiveIsSurjective(f: Block -> Block)
    requires Injective(f)
    ensures Surjective(f)
  {
    hide Bytes;
    var n: nat :| n == 16;
    forall s: Block
      ensures s in AllBlocks(n)
    {
      BytesComplete(s);
    }
    forall t: Block
      ensures Reaches(f, t)
    {
      var s := FiniteInjectiveIsOnto(AllBlocks(n), f, t);
      assert f(s) == t;
    }
  }

  lemma ComposeInjective(first: Block -> Block, second: Block -> Block, both: Block -> Block)
    requires forall s: Block :: both(s) == second(first(s))
    requires Injective(first) && Injective(second)
    ensures Injective(both)
  {
  }

  lemma FirstInjective(first: Block -> Block, second: Block -> Block, both: Block -> Block)
    requires forall s: Block :: both(s) == second(first(s))
    requires Injective(both)
    ensures Injective(first)
  {
    forall s: Block, t: Block | first(s) == first(t)
      ensures s == t
    {
      assert both(s) == both(t);
    }
  }

  lemma SecondInjective(first: Block -> Block, second: Block -> Block, both: Block -> Block)
    requires forall s: Block :: both(s) == second(first(s))
    requires Injective(both)
    ensures Injective(second)
  {
    FirstInjective(first, second, both);
    InjectiveIsSurjective(first);
    forall x: Block, y: Block | second(x) == second(y)
      ensures x == y
    {
      assert Reaches(first, x) && Reaches(first, y);
      var s: Block :| first(s) == x;
      var t: Block :| first(t) == y;
      assert both(s) == both(t);
    }
  }

  /** A composition of block maps is injective exactly when both of them are. */
  lemma ComposeInjectiveIff(first: Block -> Block, second: Block -> Block, both: Block -> Block)
    requires forall s: Block :: both(s) == second(first(s))
    ensures Injective(both) <==> Injective(first) && Injective(second)
  {
    if Injective(both) {
      FirstInjective(first, second, both);
      SecondInjective(first, second, both);
    }
    if Injective(first) && Injective(second) {
      ComposeInjective(first, second, both);
    }
  }
}
