/** The GSPA stamp cipher's block function: table-driven byte and word layers over a
    sixteen-byte state, run through a phase plan. */
module Cipher {
  import opened Bits
  import opened Layers
  import opened Prelude

  datatype SboxEntry = SboxEntry(m1: seq<nat>, a: nat, m2: seq<nat>, t2: nat, lcols: seq<nat>, c: nat, isByte: bool)
  datatype LinEntry = LinEntry(lcols: seq<nat>, lconst: nat)
  datatype Phase = Phase(sboxGroup: string, linGroup: string, rounds: nat)

  /** The parsed parameter tables of one brand and its round plan. */
  datatype GspaCipher = GspaCipher(
    sbox: seq<nat>,
    sboxGroups: map<string, map<nat, SboxEntry>>,
    linGroups: map<string, map<nat, LinEntry>>,
    masks: Option<map<(nat, nat), seq<seq<nat>>>>,
    phases: seq<Phase>,
    finalGroup: string)

  predicate ValidSbox(q: SboxEntry) {
    && |q.m1| == 8 && AllBelow(q.m1, 256) && q.a < 256
    && |q.m2| == 8 && AllBelow(q.m2, 256) && q.t2 < 256
    && |q.lcols| == 8 && AllBelow(q.lcols, WORD) && q.c < WORD
  }

  predicate ValidLin(q: LinEntry) {
    |q.lcols| == 8 && AllBelow(q.lcols, WORD) && q.lconst < WORD
  }

  predicate ValidSboxGroup(c: GspaCipher, g: string, n: nat) {
    && g in c.sboxGroups
    && forall k: nat | k < n :: k in c.sboxGroups[g] && ValidSbox(c.sboxGroups[g][k])
  }

  predicate ValidLinGroup(c: GspaCipher, g: string, n: nat) {
    && g in c.linGroups
    && forall k: nat | k < n :: k in c.linGroups[g] && ValidLin(c.linGroups[g][k])
  }

  predicate ValidMask(luts: seq<seq<nat>>) {
    |luts| == 4 && forall j | 0 <= j < 4 :: |luts[j]| == 256 && AllBelow(luts[j], WORD)
  }

  predicate ValidPhase(c: GspaCipher, ph: Phase) {
    ValidSboxGroup(c, ph.sboxGroup, 16 * ph.rounds) && ValidLinGroup(c, ph.linGroup, 16 * ph.rounds)
  }

  /** The tables' shape: group keys total over sixteen entries a round, bytes below
      256 and words below 2^32. Nothing is said about what the tables contain. */
  predicate Valid(c: GspaCipher) {
    && |c.sbox| == 256 && AllBelow(c.sbox, 256)
    && (forall i | 0 <= i < |c.phases| :: ValidPhase(c, c.phases[i]))
    && ValidSboxGroup(c, c.finalGroup, 16)
    && (c.masks.Some? ==> forall key | key in c.masks.value :: ValidMask(c.masks.value[key]))
  }

  // ----- one byte, one column

  /** The value that leaves the second matrix of an s-box entry. */
  function SboxCore(c: GspaCipher, q: SboxEntry, x: byte): byte
    requires |c.sbox| == 256 && AllBelow(c.sbox, 256) && ValidSbox(q)
  {
    Pow2Constants();
    MatBelow(q.m1, XorByte(x, q.a), 8);
    var a1 := Mat(q.m1, XorByte(x, q.a));
    MatBelow(q.m2, c.sbox[a1], 8);
    XorByte(Mat(q.m2, c.sbox[a1]), q.t2)
  }

  /** `_sbox_lookup` */
  function SboxLookup(c: GspaCipher, q: SboxEntry, x: byte): (w: nat)
    requires |c.sbox| == 256 && AllBelow(c.sbox, 256) && ValidSbox(q)
    ensures w < WORD
  {
    Pow2Constants();
    var a2 := SboxCore(c, q, x);
    MatBelow(q.lcols, a2, 32);
    if q.isByte then Xor(q.c, a2) % 256 else XorWord(q.c, Mat(q.lcols, a2))
  }

  /** `_lin_lookup` */
  function LinLookup(q: LinEntry, b: byte): (w: nat)
    requires ValidLin(q)
    ensures w < WORD
  {
    Pow2Constants();
    MatBelow(q.lcols, b, 32);
    XorWord(q.lconst, Mat(q.lcols, b))
  }

  /** `_mask_byte`: zero when no mask table applies to the round and column. */
  function MaskWord(c: GspaCipher, globalRound: nat, col: ColIndex, b: Column): (w: nat)
    requires Valid(c)
    ensures w < WORD
  {
    if c.masks.None? || (globalRound, col) !in c.masks.value then 0
    else
      var luts := c.masks.value[(globalRound, col)];
      XorWord(XorWord(XorWord(luts[0][b[0]], luts[1][b[1]]), luts[2][b[2]]), luts[3][b[3]])
  }

  function XorFour(w: seq<nat>): (x: nat)
    requires |w| == 4 && AllBelow(w, WORD)
    ensures x < WORD
  {
    XorWord(XorWord(XorWord(w[0], w[1]), w[2]), w[3])
  }

  function SboxOut(c: GspaCipher, ph: Phase, rnd: nat, col: ColIndex, b: Column): (w: seq<nat>)
    requires Valid(c) && ValidPhase(c, ph) && rnd < ph.rounds
    ensures |w| == 4 && AllBelow(w, WORD)
  {
    seq(4, j requires 0 <= j < 4 => SboxLookup(c, c.sboxGroups[ph.sboxGroup][rnd * 16 + col * 4 + j], b[j]))
  }

  function LinOut(c: GspaCipher, ph: Phase, rnd: nat, col: ColIndex, inter: nat): (w: seq<nat>)
    requires Valid(c) && ValidPhase(c, ph) && rnd < ph.rounds
    ensures |w| == 4 && AllBelow(w, WORD)
  {
    seq(4, j requires 0 <= j < 4 => LinLookup(c.linGroups[ph.linGroup][rnd * 16 + col * 4 + j], WordByte(inter, j)))
  }

  /** What one round makes of the four bytes of a column, as a word. */
  function ColumnWord(c: GspaCipher, ph: Phase, rnd: nat, globalRound: nat, col: ColIndex, b: Column): (w: nat)
    requires Valid(c) && ValidPhase(c, ph) && rnd < ph.rounds
    ensures w < WORD
  {
    XorWord(XorFour(LinOut(c, ph, rnd, col, XorFour(SboxOut(c, ph, rnd, col, b)))), MaskWord(c, globalRound, col, b))
  }

  function ColumnMap(c: GspaCipher, ph: Phase, rnd: nat, globalRound: nat, col: ColIndex, b: Column): Column
    requires Valid(c) && ValidPhase(c, ph) && rnd < ph.rounds
  {
    WordBytes(ColumnWord(c, ph, rnd, globalRound, col, b))
  }

  // ----- rounds

  /** The four column maps of one round. */
  function ColumnFn(c: GspaCipher, ph: Phase, rnd: nat, globalRound: nat): (ColIndex, Column) -> Column
    requires Valid(c) && ValidPhase(c, ph) && rnd < ph.rounds
  {
    (col, b) => ColumnMap(c, ph, rnd, globalRound, col, b)
  }

  /** A round, as one simultaneous map of the four columns of the row-shifted state. */
  function RoundMap(c: GspaCipher, ph: Phase, rnd: nat, globalRound: nat, s: Block): (t: Block)
    requires Valid(c) && ValidPhase(c, ph) && rnd < ph.rounds
  {
    MapColumns(ColumnFn(c, ph, rnd, globalRound), ShiftRows(s))
  }

  lemma RoundMapAt(c: GspaCipher, ph: Phase, rnd: nat, globalRound: nat, s: Block, col: ColIndex)
    requires Valid(c) && ValidPhase(c, ph) && rnd < ph.rounds
    ensures ColumnOf(RoundMap(c, ph, rnd, globalRound, s), col)
         == ColumnMap(c, ph, rnd, globalRound, col, ColumnOf(ShiftRows(s), col))
  {
    hide ColumnMap, Valid;
    MapColumnsAt(ColumnFn(c, ph, rnd, globalRound), ShiftRows(s), col);
  }

  method CopyBlock(b: Block) returns (state: array<byte>)
    ensures fresh(state) && state.Length == 16 && state[..] == b
  {
    state := new byte[16](i requires 0 <= i < 16 => b[i]);
  }

  /** One column of `_round`, written in place; the other bytes stay. */
  method WriteColumn(c: GspaCipher, ph: Phase, rnd: nat, globalRound: nat, col: ColIndex, state: array<byte>)
    requires Valid(c) && ValidPhase(c, ph) && rnd < ph.rounds && state.Length == 16
    modifies state
    ensures ColumnOf(state[..], col) == ColumnMap(c, ph, rnd, globalRound, col, ColumnOf(old(state[..]), col))
    ensures forall k | 0 <= k < 16 && !(4 * col <= k < 4 * col + 4) :: state[k] == old(state[k])
  {
    hide SboxOut, LinOut, XorFour, MaskWord, Valid;
    var sbase := 4 * col;
    var b: Column := [state[sbase], state[sbase + 1], state[sbase + 2], state[sbase + 3]];
    assert b == ColumnOf(state[..], col);
    var inter := XorFour(SboxOut(c, ph, rnd, col, b));
    var out := XorWord(XorFour(LinOut(c, ph, rnd, col, inter)), MaskWord(c, globalRound, col, b));
    for j := 0 to 4
      invariant forall k | 0 <= k < 16 && !(sbase <= k < sbase + j) :: state[k] == old(state[k])
      invariant forall i | 0 <= i < j :: state[sbase + i] == WordByte(out, i)
    {
      state[sbase + j] := WordByte(out, j);
    }
    assert ColumnOf(state[..], col) == WordBytes(out);
  }

  /** The state in the middle of `_round`: columns below `col` written, the rest gathered. */
  ghost predicate Between(c: GspaCipher, ph: Phase, rnd: nat, globalRound: nat, s: Block, col: nat, now: Block)
    requires Valid(c) && ValidPhase(c, ph) && rnd < ph.rounds
  {
    && (forall k | 0 <= k < 16 && k < 4 * col :: now[k] == RoundMap(c, ph, rnd, globalRound, s)[k])
    && (forall k | 0 <= k < 16 && k >= 4 * col :: now[k] == ShiftRows(s)[k])
  }

  /** No column reads a byte that another column has written. */
  lemma ColumnStep(c: GspaCipher, ph: Phase, rnd: nat, globalRound: nat, s: Block, col: ColIndex,
                   was: Block, now: Block)
    requires Valid(c) && ValidPhase(c, ph) && rnd < ph.rounds
    requires Between(c, ph, rnd, globalRound, s, col, was)
    requires ColumnOf(now, col) == ColumnMap(c, ph, rnd, globalRound, col, ColumnOf(was, col))
    requires forall k | 0 <= k < 16 && !(4 * col <= k < 4 * col + 4) :: now[k] == was[k]
    ensures Between(c, ph, rnd, globalRound, s, col + 1, now)
  {
    hide ColumnMap, RoundMap, Valid;
    assert ColumnOf(was, col) == ColumnOf(ShiftRows(s), col);
    RoundMapAt(c, ph, rnd, globalRound, s, col);
    ColumnBytes(now, RoundMap(c, ph, rnd, globalRound, s), col);
  }

  /** `_round`: the columns are written in place, one after the other, and still come
      out as if all four had been read first. */
  method Round(c: GspaCipher, ph: Phase, rnd: nat, globalRound: nat, before: array<byte>) returns (state: array<byte>)
    requires Valid(c) && ValidPhase(c, ph) && rnd < ph.rounds
    requires before.Length == 16
    ensures fresh(state) && state.Length == 16
    ensures state[..] == RoundMap(c, ph, rnd, globalRound, before[..])
  {
    hide RoundMap, ColumnMap, Valid;
    var source := before[..];
    state := CopyBlock(ShiftRows(source));
    for col := 0 to 4
      invariant Between(c, ph, rnd, globalRound, source, col, state[..])
    {
      ghost var was := state[..];
      WriteColumn(c, ph, rnd, globalRound, col, state);
      ColumnStep(c, ph, rnd, globalRound, source, col, was, state[..]);
    }
  }

  // ----- the phase plan

  function RunRounds(c: GspaCipher, ph: Phase, rnd: nat, globalRound: nat, s: Block): Block
    requires Valid(c) && ValidPhase(c, ph) && rnd <= ph.rounds
    decreases ph.rounds - rnd
  {
    if rnd == ph.rounds then s
    else RunRounds(c, ph, rnd + 1, globalRound + 1, RoundMap(c, ph, rnd, globalRound, s))
  }

  function RunPhases(c: GspaCipher, i: nat, globalRound: nat, s: Block): Block
    requires Valid(c) && i <= |c.phases|
    decreases |c.phases| - i
  {
    if i == |c.phases| then s
    else RunPhases(c, i + 1, globalRound + c.phases[i].rounds, RunRounds(c, c.phases[i], 0, globalRound, s))
  }

  function FinalByte(c: GspaCipher, k: Position, x: byte): byte
    requires Valid(c)
  {
    SboxLookup(c, c.sboxGroups[c.finalGroup][k], x) % 256
  }

  /** The sixteen byte maps of the last layer. */
  function FinalFn(c: GspaCipher): (Position, byte) -> byte
    requires Valid(c)
  {
    (k, x) => FinalByte(c, k, x)
  }

  function FinalMap(c: GspaCipher, s: Block): (t: Block)
    requires Valid(c)
  {
    MapBytes(FinalFn(c), ShiftRows(s))
  }

  /** The block function that `encrypt_block` computes. */
  function Encrypt(c: GspaCipher, s: Block): Block
    requires Valid(c)
  {
    FinalMap(c, RunPhases(c, 0, 0, s))
  }

  function EncryptFn(c: GspaCipher): Block -> Block
    requires Valid(c)
  {
    s => Encrypt(c, s)
  }

  datatype CipherError = ValueError

  /** `encrypt_block`: the loops over phases and rounds thread the state and the global
      round counter; a block of another length is refused. */
  method EncryptBlock(c: GspaCipher, plaintext: seq<byte>) returns (r: Result<Block, CipherError>)
    requires Valid(c)
    ensures r == if |plaintext| != 16 then Err(ValueError) else Ok(Encrypt(c, plaintext))
  {
    if |plaintext| != 16 {
      return Err(ValueError);
    }
    var state := CopyBlock(plaintext);
    var globalRound := 0;
    for i := 0 to |c.phases|
      invariant fresh(state) && state.Length == 16
      invariant RunPhases(c, i, globalRound, state[..]) == RunPhases(c, 0, 0, plaintext)
    {
      var ph := c.phases[i];
      ghost var start, g := state[..], globalRound;
      for rnd := 0 to ph.rounds
        invariant fresh(state) && state.Length == 16
        invariant globalRound == g + rnd
        invariant RunRounds(c, ph, rnd, globalRound, state[..]) == RunRounds(c, ph, 0, g, start)
      {
        state := Round(c, ph, rnd, globalRound, state);
        globalRound := globalRound + 1;
      }
    }
    return Ok(FinalMap(c, state[..]));
  }
}
