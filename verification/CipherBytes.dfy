/** The block function spelled out byte by byte, with the row-shift table and the shifts as
    literals, and its rounds in the order in which the phase plan runs them. */
module CipherBytes {
  import opened Bits
  import opened Layers
  import opened Cipher
  import CipherInjective

  // ----- one round

  /** Exclusive or of four numbers. */
  function Xor4(a: nat, b: nat, c: nat, d: nat): nat {
    Xor(Xor(Xor(a, b), c), d)
  }

  lemma XorFourOf(w: seq<nat>)
    requires |w| == 4 && AllBelow(w, WORD)
    ensures XorFour(w) == Xor4(w[0], w[1], w[2], w[3])
  {
    hide Xor;
  }

  /** The mask word: one entry of each of the four tables of the round and column, at the
      column's bytes in order; zero without tables. */
  lemma MaskWordMeans(c: GspaCipher, globalRound: nat, col: ColIndex, b: Column)
    requires Valid(c)
    ensures MaskWord(c, globalRound, col, b)
         == if c.masks.None? || (globalRound, col) !in c.masks.value then 0
            else var t := c.masks.value[(globalRound, col)];
                 assert ValidMask(t);
                 Xor4(t[0][b[0]], t[1][b[1]], t[2][b[2]], t[3][b[3]])
  {
    hide Xor;
  }

  /** A column's word: the s-boxes of its four bytes, added; the linear lookups of the
      sum's bytes from the highest to the lowest, added; and the mask. */
  lemma ColumnWordMeans(c: GspaCipher, ph: Phase, rnd: nat, globalRound: nat, col: ColIndex, b: Column)
    requires Valid(c) && ValidPhase(c, ph) && rnd < ph.rounds
    ensures var q, l, n := c.sboxGroups[ph.sboxGroup], c.linGroups[ph.linGroup], 16 * rnd + 4 * col;
            var inter := Xor4(SboxLookup(c, q[n], b[0]), SboxLookup(c, q[n + 1], b[1]),
                              SboxLookup(c, q[n + 2], b[2]), SboxLookup(c, q[n + 3], b[3]));
            var lin := Xor4(LinLookup(l[n], inter / 0x100_0000 % 256), LinLookup(l[n + 1], inter / 0x1_0000 % 256),
                            LinLookup(l[n + 2], inter / 0x100 % 256), LinLookup(l[n + 3], inter % 256));
            ColumnWord(c, ph, rnd, globalRound, col, b) == Xor(lin, MaskWord(c, globalRound, col, b))
  {
    hide Xor, MaskWord, SboxLookup, LinLookup, Mat;
    var s := SboxOut(c, ph, rnd, col, b);
    XorFourOf(s);
    XorFourOf(LinOut(c, ph, rnd, col, XorFour(s)));
  }

  /** The four bytes that a round writes for column `col`: it reads the state through the
      row-shift table and stores the column's word from its highest byte to its lowest. */
  lemma RoundBytes(c: GspaCipher, ph: Phase, rnd: nat, globalRound: nat, s: Block, col: ColIndex)
    requires Valid(c) && ValidPhase(c, ph) && rnd < ph.rounds
    ensures var sr: seq<nat> := [0, 5, 10, 15, 4, 9, 14, 3, 8, 13, 2, 7, 12, 1, 6, 11];
            var b: Column := [s[sr[4 * col]], s[sr[4 * col + 1]], s[sr[4 * col + 2]], s[sr[4 * col + 3]]];
            var t, w := RoundMap(c, ph, rnd, globalRound, s), ColumnWord(c, ph, rnd, globalRound, col, b);
            && t[4 * col] == w / 0x100_0000 % 256 && t[4 * col + 1] == w / 0x1_0000 % 256
            && t[4 * col + 2] == w / 0x100 % 256 && t[4 * col + 3] == w % 256
  {
    hide ColumnWord, Valid, RoundMap;
    RoundMapAt(c, ph, rnd, globalRound, s, col);
    var t := RoundMap(c, ph, rnd, globalRound, s);
    var b := ColumnOf(ShiftRows(s), col);
    var w := WordBytes(ColumnWord(c, ph, rnd, globalRound, col, b));
    assert ColumnOf(t, col) == w;
    assert w[0] == t[4 * col] && w[1] == t[4 * col + 1] && w[2] == t[4 * col + 2] && w[3] == t[4 * col + 3];
    SrTable(4 * col);
    SrTable(4 * col + 1);
    SrTable(4 * col + 2);
    SrTable(4 * col + 3);
    assert SR_POSITIONS == [0, 5, 10, 15, 4, 9, 14, 3, 8, 13, 2, 7, 12, 1, 6, 11];
    hide SrPosition, WordBytes;
    assert b == [s[SR_POSITIONS[4 * col]], s[SR_POSITIONS[4 * col + 1]],
                 s[SR_POSITIONS[4 * col + 2]], s[SR_POSITIONS[4 * col + 3]]];
  }

  // ----- all rounds

  /** The state before round `rnd` of phase `i`: each round is one more step from the state
      before it, under its own number in the phase and in the whole plan. */
  function StateAt(c: GspaCipher, i: nat, rnd: nat, s: Block): Block
    requires Valid(c) && i <= |c.phases| && rnd <= (if i < |c.phases| then c.phases[i].rounds else 0)
    decreases i, rnd
  {
    if rnd > 0 then
      RoundMap(c, c.phases[i], rnd - 1, CipherInjective.FirstRound(c, i) + rnd - 1, StateAt(c, i, rnd - 1, s))
    else if i > 0 then StateAt(c, i - 1, c.phases[i - 1].rounds, s)
    else s
  }

  lemma {:induction false} RoundsFromHere(c: GspaCipher, i: nat, rnd: nat, s: Block)
    requires Valid(c) && i < |c.phases| && rnd <= c.phases[i].rounds
    ensures RunRounds(c, c.phases[i], rnd, CipherInjective.FirstRound(c, i) + rnd, StateAt(c, i, rnd, s))
         == StateAt(c, i, c.phases[i].rounds, s)
    decreases c.phases[i].rounds - rnd
  {
    hide RoundMap;
    if rnd < c.phases[i].rounds {
      RoundsFromHere(c, i, rnd + 1, s);
    }
  }

  lemma {:induction false} PhasesFromHere(c: GspaCipher, i: nat, s: Block)
    requires Valid(c) && i <= |c.phases|
    ensures RunPhases(c, i, CipherInjective.FirstRound(c, i), StateAt(c, i, 0, s)) == StateAt(c, |c.phases|, 0, s)
    decreases |c.phases| - i
  {
    hide RoundMap, RunRounds;
    if i < |c.phases| {
      RoundsFromHere(c, i, 0, s);
      PhasesFromHere(c, i + 1, s);
    }
  }

  lemma StartsWith(c: GspaCipher, s: Block)
    requires Valid(c)
    ensures StateAt(c, 0, 0, s) == s
  {
  }

  /** `encrypt_block`, byte by byte: all rounds of all phases in order, then each byte of
      the last layer from the byte that the row-shift table names. */
  lemma EncryptBytes(c: GspaCipher, s: Block, k: Position)
    requires Valid(c)
    ensures var sr: seq<nat> := [0, 5, 10, 15, 4, 9, 14, 3, 8, 13, 2, 7, 12, 1, 6, 11];
            Encrypt(c, s)[k] == SboxLookup(c, c.sboxGroups[c.finalGroup][k], StateAt(c, |c.phases|, 0, s)[sr[k]]) % 256
  {
    hide RunPhases, StateAt, SboxLookup;
    PhasesFromHere(c, 0, s);
    assert StateAt(c, 0, 0, s) == s by { StartsWith(c, s); }
    SrTable(k);
    assert SR_POSITIONS == [0, 5, 10, 15, 4, 9, 14, 3, 8, 13, 2, 7, 12, 1, 6, 11];
  }

}
