/** When the block function is a permutation of the sixteen-byte blocks: first in terms
    of its column and byte maps, then in terms of the parameter tables. */
module CipherInjective {
  import opened Bits
  import opened Layers
  import opened Cipher

  // ----- the block function, split at every layer

  /** The global round number at which phase `i` begins. */
  function FirstRound(c: GspaCipher, i: nat): nat
    requires i <= |c.phases|
  {
    if i == 0 then 0 else FirstRound(c, i - 1) + c.phases[i - 1].rounds
  }

  /** Every column of round `rnd` of phase `i` keeps its four bytes apart. */
  ghost predicate SoundRound(c: GspaCipher, i: nat, rnd: nat)
    requires Valid(c) && i < |c.phases| && rnd < c.phases[i].rounds
  {
    AllInjective(ColumnFn(c, c.phases[i], rnd, FirstRound(c, i) + rnd))
  }

  ghost predicate SoundRounds(c: GspaCipher, i: nat, rnd: nat)
    requires Valid(c) && i < |c.phases|
  {
    forall r: nat | rnd <= r < c.phases[i].rounds :: SoundRound(c, i, r)
  }

  ghost predicate SoundPhases(c: GspaCipher, i: nat)
    requires Valid(c)
  {
    forall p: nat | i <= p < |c.phases| :: SoundRounds(c, p, 0)
  }

  ghost predicate SoundFinal(c: GspaCipher)
    requires Valid(c)
  {
    forall k: Position :: InjectiveByte(FinalFn(c), k)
  }

  function RoundFn(c: GspaCipher, ph: Phase, rnd: nat, globalRound: nat): Block -> Block
    requires Valid(c) && ValidPhase(c, ph) && rnd < ph.rounds
  {
    s => RoundMap(c, ph, rnd, globalRound, s)
  }

  function RoundsFn(c: GspaCipher, ph: Phase, rnd: nat, globalRound: nat): Block -> Block
    requires Valid(c) && ValidPhase(c, ph) && rnd <= ph.rounds
  {
    s => RunRounds(c, ph, rnd, globalRound, s)
  }

  function PhasesFn(c: GspaCipher, i: nat, globalRound: nat): Block -> Block
    requires Valid(c) && i <= |c.phases|
  {
    s => RunPhases(c, i, globalRound, s)
  }

  function FinalMapFn(c: GspaCipher): Block -> Block
    requires Valid(c)
  {
    s => FinalMap(c, s)
  }

  lemma RoundSplit(c: GspaCipher, ph: Phase, rnd: nat, globalRound: nat)
    requires Valid(c) && ValidPhase(c, ph) && rnd < ph.rounds
    ensures forall s: Block :: RoundFn(c, ph, rnd, globalRound)(s)
                            == ColumnsFn(ColumnFn(c, ph, rnd, globalRound))(RowsFn()(s))
  {
    hide ColumnFn;
  }

  lemma RoundInjectiveIff(c: GspaCipher, i: nat, rnd: nat)
    requires Valid(c) && i < |c.phases| && rnd < c.phases[i].rounds
    ensures Injective(RoundFn(c, c.phases[i], rnd, FirstRound(c, i) + rnd)) <==> SoundRound(c, i, rnd)
  {
    hide AllInjective, ColumnFn, RoundFn, ColumnsFn, RowsFn, Injective;
    var g := FirstRound(c, i) + rnd;
    var f := ColumnFn(c, c.phases[i], rnd, g);
    RoundSplit(c, c.phases[i], rnd, g);
    RowsInjective();
    ColumnsInjectiveIff(f);
    ComposeInjectiveIff(RowsFn(), ColumnsFn(f), RoundFn(c, c.phases[i], rnd, g));
  }

  lemma RoundsStep(c: GspaCipher, ph: Phase, rnd: nat, globalRound: nat)
    requires Valid(c) && ValidPhase(c, ph) && rnd < ph.rounds
    ensures forall s: Block :: RoundsFn(c, ph, rnd, globalRound)(s)
                            == RoundsFn(c, ph, rnd + 1, globalRound + 1)(RoundFn(c, ph, rnd, globalRound)(s))
  {
  }

  lemma SoundRoundsStep(c: GspaCipher, i: nat, rnd: nat)
    requires Valid(c) && i < |c.phases| && rnd < c.phases[i].rounds
    ensures SoundRounds(c, i, rnd) <==> SoundRound(c, i, rnd) && SoundRounds(c, i, rnd + 1)
  {
    hide SoundRound;
  }

  lemma SoundPhasesStep(c: GspaCipher, i: nat)
    requires Valid(c) && i < |c.phases|
    ensures SoundPhases(c, i) <==> SoundRounds(c, i, 0) && SoundPhases(c, i + 1)
  {
    hide SoundRounds;
  }

  lemma NoRoundsInjective(c: GspaCipher, ph: Phase, globalRound: nat)
    requires Valid(c) && ValidPhase(c, ph)
    ensures Injective(RoundsFn(c, ph, ph.rounds, globalRound))
  {
    assert forall s: Block :: RoundsFn(c, ph, ph.rounds, globalRound)(s) == s;
  }

  lemma {:induction false} RoundsInjectiveIff(c: GspaCipher, i: nat, rnd: nat)
    requires Valid(c) && i < |c.phases| && rnd <= c.phases[i].rounds
    ensures Injective(RoundsFn(c, c.phases[i], rnd, FirstRound(c, i) + rnd)) <==> SoundRounds(c, i, rnd)
    decreases c.phases[i].rounds - rnd
  {
    hide RunRounds, RoundMap, RoundFn, RoundsFn, Injective, SoundRound;
    var ph, g := c.phases[i], FirstRound(c, i) + rnd;
    if rnd == ph.rounds {
      NoRoundsInjective(c, ph, g);
    } else {
      RoundInjectiveIff(c, i, rnd);
      RoundsInjectiveIff(c, i, rnd + 1);
      RoundsStep(c, ph, rnd, g);
      SoundRoundsStep(c, i, rnd);
      ComposeInjectiveIff(RoundFn(c, ph, rnd, g), RoundsFn(c, ph, rnd + 1, g + 1), RoundsFn(c, ph, rnd, g));
    }
  }

  lemma PhasesStep(c: GspaCipher, i: nat)
    requires Valid(c) && i < |c.phases|
    ensures var first := RoundsFn(c, c.phases[i], 0, FirstRound(c, i));
            forall s: Block :: PhasesFn(c, i, FirstRound(c, i))(s) == PhasesFn(c, i + 1, FirstRound(c, i + 1))(first(s))
  {
    hide RunRounds;
  }

  lemma {:induction false} PhasesInjectiveIff(c: GspaCipher, i: nat)
    requires Valid(c) && i <= |c.phases|
    ensures Injective(PhasesFn(c, i, FirstRound(c, i))) <==> SoundPhases(c, i)
    decreases |c.phases| - i
  {
    hide RunRounds, RoundsFn, SoundRounds;
    if i == |c.phases| {
      assert forall s: Block :: PhasesFn(c, i, FirstRound(c, i))(s) == s;
    } else {
      hide PhasesFn, RunPhases, Injective;
      RoundsInjectiveIff(c, i, 0);
      PhasesInjectiveIff(c, i + 1);
      PhasesStep(c, i);
      SoundPhasesStep(c, i);
      ComposeInjectiveIff(RoundsFn(c, c.phases[i], 0, FirstRound(c, i)), PhasesFn(c, i + 1, FirstRound(c, i + 1)),
                          PhasesFn(c, i, FirstRound(c, i)));
    }
  }

  lemma FinalInjectiveIff(c: GspaCipher)
    requires Valid(c)
    ensures Injective(FinalMapFn(c)) <==> SoundFinal(c)
  {
    RowsInjective();
    BytesInjectiveIff(FinalFn(c));
    ComposeInjectiveIff(RowsFn(), BytesFn(FinalFn(c)), FinalMapFn(c));
  }

  /** The block function is injective exactly when every column map of every round, masks
      included, and every byte map of the last layer is; and then it is onto as well. */
  lemma EncryptPermutesIff(c: GspaCipher)
    requires Valid(c)
    ensures Injective(EncryptFn(c)) <==> SoundPhases(c, 0) && SoundFinal(c)
    ensures Injective(EncryptFn(c)) ==> Surjective(EncryptFn(c))
  {
    PhasesInjectiveIff(c, 0);
    FinalInjectiveIff(c);
    ComposeInjectiveIff(PhasesFn(c, 0, 0), FinalMapFn(c), EncryptFn(c));
    if Injective(EncryptFn(c)) {
      InjectiveIsSurjective(EncryptFn(c));
    }
  }
}
