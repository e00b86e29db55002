/** The levels new nodes get, from the low bits of the generator's states. */
module HnswLevels {
  import opened HnswGraph
  import opened HnswIndex

  /** One more pair of low bits. */
  function Widened(mask: bv64): bv64 {
    (mask << 2) | 3
  }

  /** The low `pairs` pairs of bits. */
  function Mask(pairs: nat): bv64 {
    if pairs == 0 then 0 else Widened(Mask(pairs - 1))
  }

  predicate Clear(state: bv64, mask: bv64) {
    state & mask == 0
  }

  /** Rotating right by two brings the next pair down: a mask clear of the top
      pair sees the same bits either way. */
  lemma PairBits(state: bv64, mask: bv64)
    requires mask & 0xc000_0000_0000_0000 == 0
    ensures state & ((mask << 2) | 3) == 0 <==> state & 3 == 0 && state.RotateRight(2) & mask == 0
  {
  }

  lemma PairThenRest(state: bv64, mask: bv64)
    requires mask & 0xc000_0000_0000_0000 == 0
    ensures Clear(state, Widened(mask)) <==> LowPairClear(state) && Clear(NextPair(state), mask)
  {
    hide *;
    PairBits(state, mask);
    ClearIs(state, Widened(mask));
    ClearIs(NextPair(state), mask);
    WidenedIs(mask);
    PairIs(state);
  }

  lemma ClearIs(state: bv64, mask: bv64)
    ensures Clear(state, mask) <==> state & mask == 0
  {
  }

  lemma WidenedIs(mask: bv64)
    ensures Widened(mask) == (mask << 2) | 3
  {
  }

  lemma PairIs(state: bv64)
    ensures LowPairClear(state) <==> state & 3 == 0
    ensures NextPair(state) == state.RotateRight(2)
  {
  }

  lemma MasksAreLow()
    ensures Mask(1) == 0x3 && Mask(2) == 0xf && Mask(4) == 0xff && Mask(8) == 0xffff && Mask(16) == 0xffff_ffff
  {
    assert Mask(3) == 0x3f;
    assert Mask(5) == 0x3ff;
    assert Mask(6) == 0xfff;
    assert Mask(7) == 0x3fff;
    assert Mask(9) == 0x3_ffff;
    assert Mask(10) == 0xf_ffff;
    assert Mask(11) == 0x3f_ffff;
    assert Mask(12) == 0xff_ffff;
    assert Mask(13) == 0x3ff_ffff;
    assert Mask(14) == 0xfff_ffff;
    assert Mask(15) == 0x3fff_ffff;
  }

  /** A mask never reaches past its own pairs. */
  lemma {:induction false} MasksUpTo(pairs: nat)
    requires pairs <= 16
    ensures Mask(pairs) <= 0xffff_ffff
    ensures Mask(pairs) & 0xc000_0000_0000_0000 == 0
  {
    MasksAreLow();
    if pairs > 0 {
      MasksUpTo(pairs - 1);
    }
  }

  predicate LowClear(state: bv64, pairs: nat) {
    Clear(state, Mask(pairs))
  }

  lemma ClearStep(state: bv64, pairs: nat)
    requires 0 < pairs <= 16
    ensures LowClear(state, pairs) <==> LowPairClear(state) && LowClear(NextPair(state), pairs - 1)
  {
    MasksUpTo(pairs - 1);
    PairThenRest(state, Mask(pairs - 1));
    hide LowPairClear, NextPair, Widened, Clear;
  }

  /** A node stands at level `pairs` or higher exactly when the low `pairs` pairs
      of bits of the state are clear. */
  lemma {:induction false} LevelFromBits(state: bv64, level: nat, pairs: nat)
    requires level + pairs <= 16
    ensures TrailingPairs(state, level) >= level + pairs <==> LowClear(state, pairs)
    ensures TrailingPairs(state, level) <= 16
    decreases pairs
  {
    hide *;
    PairsStep(state, level);
    if pairs == 0 {
      NoMask(state);
    } else {
      ClearStep(state, pairs);
      if LowPairClear(state) {
        LevelFromBits(NextPair(state), level + 1, pairs - 1);
      }
    }
  }

  lemma PairsStep(state: bv64, level: nat)
    requires level <= 16
    ensures level <= TrailingPairs(state, level) <= 16
    ensures level < 16 ==>
      TrailingPairs(state, level) == if LowPairClear(state) then TrailingPairs(NextPair(state), level + 1) else level
  {
    hide LowPairClear, NextPair;
  }

  lemma NoMask(state: bv64)
    ensures LowClear(state, 0)
  {
  }

  /** The first states after the fixed seed, and the levels they give. */
  lemma FirstStates()
    ensures XorShift(0x9e37_79b9_7f4a_7c15) == 0xdc1b_77ae_0bf3_4dad
    ensures XorShift(0xdc1b_77ae_0bf3_4dad) == 0x64f0_eeb9_026e_6076
    ensures XorShift(0x64f0_eeb9_026e_6076) == 0x7b07_ce91_e590_6136
    ensures XorShift(0x7b07_ce91_e590_6136) == 0x305f_050c_368d_cc74
    ensures TrailingPairs(0x7b07_ce91_e590_6136, 0) == 0 && TrailingPairs(0x305f_050c_368d_cc74, 0) == 1
  {
    MasksAreLow();
    LevelFromBits(0x7b07_ce91_e590_6136, 0, 1);
    LevelFromBits(0x305f_050c_368d_cc74, 0, 1);
    LevelFromBits(0x305f_050c_368d_cc74, 0, 2);
    hide TrailingPairs, Mask;
  }
}
