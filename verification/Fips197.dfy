/** The cipher, the equivalent inverse cipher and the key expansion of FIPS 197, sections 5.1,
    5.3.5 and 5.2, over a schedule w of 32-bit words. */
module Fips197 {
  import opened GaloisField
  import opened Words

  /** The state, column by column; byte j of column i is s[j, i] in the standard. */
  datatype State = State(c0: Column, c1: Column, c2: Column, c3: Column)

  /** The maps the rounds are built from: the S-box and its inverse on bytes, MixColumns and its
      inverse on columns. The cipher and its theorems are stated for any of them. */
  datatype Layers = Layers(box: bv8 -> bv8, invBox: bv8 -> bv8, mix: Column -> Column, invMix: Column -> Column)
  {
    /** What the equivalent inverse cipher needs of the layers (section 5.3.5). */
    ghost predicate Invertible() {
      && (forall x :: invBox(box(x)) == x)
      && (forall c :: invMix(mix(c)) == c)
      && (forall c, k {:trigger invMix(AddColumn(c, k))} :: invMix(AddColumn(c, k)) == AddColumn(invMix(c), invMix(k)))
    }

    function SubColumn(c: Column): Column {
      Column(box(c.b0), box(c.b1), box(c.b2), box(c.b3))
    }

    function InvSubColumn(c: Column): Column {
      Column(invBox(c.b0), invBox(c.b1), invBox(c.b2), invBox(c.b3))
    }

    function SubBytes(s: State): State {
      State(SubColumn(s.c0), SubColumn(s.c1), SubColumn(s.c2), SubColumn(s.c3))
    }

    function InvSubBytes(s: State): State {
      State(InvSubColumn(s.c0), InvSubColumn(s.c1), InvSubColumn(s.c2), InvSubColumn(s.c3))
    }

    function MixColumns(s: State): State {
      State(mix(s.c0), mix(s.c1), mix(s.c2), mix(s.c3))
    }

    function InvMixColumns(s: State): State {
      State(invMix(s.c0), invMix(s.c1), invMix(s.c2), invMix(s.c3))
    }
  }

  // ----- the MixColumns layer of the standard

  /** Equation 5.6. */
  function MixColumn(c: Column): Column {
    Column(Add4(Mul2(c.b0), Mul3(c.b1), c.b2, c.b3),
           Add4(c.b0, Mul2(c.b1), Mul3(c.b2), c.b3),
           Add4(c.b0, c.b1, Mul2(c.b2), Mul3(c.b3)),
           Add4(Mul3(c.b0), c.b1, c.b2, Mul2(c.b3)))
  }

  /** Equation 5.10. */
  function InvMixColumn(c: Column): Column {
    Column(Add4(Mul14(c.b0), Mul11(c.b1), Mul13(c.b2), Mul9(c.b3)),
           Add4(Mul9(c.b0), Mul14(c.b1), Mul11(c.b2), Mul13(c.b3)),
           Add4(Mul13(c.b0), Mul9(c.b1), Mul14(c.b2), Mul11(c.b3)),
           Add4(Mul11(c.b0), Mul13(c.b1), Mul9(c.b2), Mul14(c.b3)))
  }

  /** Row r moves left by r places. */
  function ShiftRows(s: State): State {
    State(Column(s.c0.b0, s.c1.b1, s.c2.b2, s.c3.b3),
          Column(s.c1.b0, s.c2.b1, s.c3.b2, s.c0.b3),
          Column(s.c2.b0, s.c3.b1, s.c0.b2, s.c1.b3),
          Column(s.c3.b0, s.c0.b1, s.c1.b2, s.c2.b3))
  }

  /** Row r moves right by r places. */
  function InvShiftRows(s: State): State {
    State(Column(s.c0.b0, s.c3.b1, s.c2.b2, s.c1.b3),
          Column(s.c1.b0, s.c0.b1, s.c3.b2, s.c2.b3),
          Column(s.c2.b0, s.c1.b1, s.c0.b2, s.c3.b3),
          Column(s.c3.b0, s.c2.b1, s.c1.b2, s.c0.b3))
  }

  function AddRoundKey(s: State, k: State): State {
    State(AddColumn(s.c0, k.c0), AddColumn(s.c1, k.c1), AddColumn(s.c2, k.c2), AddColumn(s.c3, k.c3))
  }

  /** The four words of one round of the key schedule. */
  function RoundKey(w: seq<bv32>, round: nat): State
    requires 4 * round + 4 <= |w|
  {
    State(Bytes(w[4 * round]), Bytes(w[4 * round + 1]), Bytes(w[4 * round + 2]), Bytes(w[4 * round + 3]))
  }

  function RoundKeys(w: seq<bv32>, nr: nat): (keys: seq<State>)
    requires 4 * nr + 4 <= |w|
    ensures |keys| == nr + 1
    ensures forall r: nat | r <= nr :: keys[r] == RoundKey(w, r)
  {
    if nr == 0 then [RoundKey(w, 0)] else RoundKeys(w, nr - 1) + [RoundKey(w, nr)]
  }

  // ----- section 5.1, with Nr = |keys| - 1

  function Round(l: Layers, s: State, k: State): State {
    AddRoundKey(l.MixColumns(ShiftRows(l.SubBytes(s))), k)
  }

  function FinalRound(l: Layers, s: State, k: State): State {
    AddRoundKey(ShiftRows(l.SubBytes(s)), k)
  }

  /** n rounds from start, the i-th one with keys[i]. */
  function Iterate(round: (State, State) -> State, keys: seq<State>, n: nat, start: State): State
    requires n < |keys|
  {
    if n == 0 then start else round(Iterate(round, keys, n - 1, start), keys[n])
  }

  function Forward(l: Layers): (State, State) -> State {
    (s, k) => Round(l, s, k)
  }

  /** The state after the initial AddRoundKey and n full rounds. */
  function Rounds(l: Layers, keys: seq<State>, n: nat, block: State): State
    requires n < |keys|
  {
    Iterate(Forward(l), keys, n, AddRoundKey(block, keys[0]))
  }

  function Cipher(l: Layers, keys: seq<State>, block: State): State
    requires 2 <= |keys|
  {
    FinalRound(l, Rounds(l, keys, |keys| - 2, block), keys[|keys| - 1])
  }

  // ----- section 5.3.5

  function InvRound(l: Layers, s: State, k: State): State {
    AddRoundKey(l.InvMixColumns(InvShiftRows(l.InvSubBytes(s))), k)
  }

  function InvFinalRound(l: Layers, s: State, k: State): State {
    AddRoundKey(InvShiftRows(l.InvSubBytes(s)), k)
  }

  function Backward(l: Layers): (State, State) -> State {
    (s, k) => InvRound(l, s, k)
  }

  function InvRounds(l: Layers, keys: seq<State>, n: nat, block: State): State
    requires n < |keys|
  {
    Iterate(Backward(l), keys, n, AddRoundKey(block, keys[0]))
  }

  function EqInvCipher(l: Layers, keys: seq<State>, block: State): State
    requires 2 <= |keys|
  {
    InvFinalRound(l, InvRounds(l, keys, |keys| - 2, block), keys[|keys| - 1])
  }

  /** The decryption schedule: the round keys in reverse order, all but the first and the last
      passed through InvMixColumns. */
  ghost predicate IsInverseSchedule(l: Layers, inv: seq<State>, keys: seq<State>) {
    && |inv| == |keys|
    && forall r: nat | r < |keys| ::
         inv[r] == if 0 < r < |keys| - 1 then l.InvMixColumns(keys[|keys| - 1 - r]) else keys[|keys| - 1 - r]
  }

  // ----- every step undoes its counterpart

  lemma AddColumnCancels(c: Column, k: Column)
    ensures AddColumn(AddColumn(c, k), k) == c
  {
  }

  lemma AddRoundKeyCancels(s: State, k: State)
    ensures AddRoundKey(AddRoundKey(s, k), k) == s
  {
    AddColumnCancels(s.c0, k.c0);
    AddColumnCancels(s.c1, k.c1);
    AddColumnCancels(s.c2, k.c2);
    AddColumnCancels(s.c3, k.c3);
  }

  lemma InvMixColumnUndoes(c: Column)
    ensures InvMixColumn(MixColumn(c)) == c
  {
    var m := MixColumn(c);
    CyclicRows(c);
    InvCyclicRows(m);
    InvMixRowUndoesMix(c.b0, c.b1, c.b2, c.b3);
    InvMixRowUndoesMix(c.b1, c.b2, c.b3, c.b0);
    InvMixRowUndoesMix(c.b2, c.b3, c.b0, c.b1);
    InvMixRowUndoesMix(c.b3, c.b0, c.b1, c.b2);
  }

  /** Each row of the matrix is the row above rotated by one place. */
  lemma CyclicRows(c: Column)
    ensures MixColumn(c) == Column(MixRow(c.b0, c.b1, c.b2, c.b3), MixRow(c.b1, c.b2, c.b3, c.b0),
                                   MixRow(c.b2, c.b3, c.b0, c.b1), MixRow(c.b3, c.b0, c.b1, c.b2))
  {
    Add4Rotate(c.b0, Mul2(c.b1), Mul3(c.b2), c.b3);
    Add4Rotate(c.b0, c.b1, Mul2(c.b2), Mul3(c.b3));
    Add4Rotate(c.b1, Mul2(c.b2), Mul3(c.b3), c.b0);
    Add4Rotate(Mul2(c.b3), Mul3(c.b0), c.b1, c.b2);
  }

  lemma InvCyclicRows(c: Column)
    ensures InvMixColumn(c) == Column(InvMixRow(c.b0, c.b1, c.b2, c.b3), InvMixRow(c.b1, c.b2, c.b3, c.b0),
                                      InvMixRow(c.b2, c.b3, c.b0, c.b1), InvMixRow(c.b3, c.b0, c.b1, c.b2))
  {
    Add4Rotate(Mul9(c.b0), Mul14(c.b1), Mul11(c.b2), Mul13(c.b3));
    Add4Rotate(Mul13(c.b0), Mul9(c.b1), Mul14(c.b2), Mul11(c.b3));
    Add4Rotate(Mul9(c.b1), Mul14(c.b2), Mul11(c.b3), Mul13(c.b0));
    Add4Rotate(Mul14(c.b3), Mul11(c.b0), Mul13(c.b1), Mul9(c.b2));
  }

  lemma InvMixColumnAdd(c: Column, k: Column)
    ensures InvMixColumn(AddColumn(c, k)) == AddColumn(InvMixColumn(c), InvMixColumn(k))
  {
    InvCyclicRows(c);
    InvCyclicRows(k);
    InvCyclicRows(AddColumn(c, k));
    InvMixRowAdd(c.b0, c.b1, c.b2, c.b3, k.b0, k.b1, k.b2, k.b3);
    InvMixRowAdd(c.b1, c.b2, c.b3, c.b0, k.b1, k.b2, k.b3, k.b0);
    InvMixRowAdd(c.b2, c.b3, c.b0, c.b1, k.b2, k.b3, k.b0, k.b1);
    InvMixRowAdd(c.b3, c.b0, c.b1, c.b2, k.b3, k.b0, k.b1, k.b2);
  }

  // ----- the equivalent inverse cipher undoes the cipher

  lemma InvSubShiftUndoes(l: Layers, s: State)
    requires l.Invertible()
    ensures InvShiftRows(l.InvSubBytes(ShiftRows(l.SubBytes(s)))) == s
  {
  }

  lemma InvRoundUndoesRound(l: Layers, s: State, k: State)
    requires l.Invertible()
    ensures InvRound(l, ShiftRows(l.SubBytes(Round(l, s, k))), l.InvMixColumns(k)) == ShiftRows(l.SubBytes(s))
  {
    var shifted := ShiftRows(l.SubBytes(s));
    InvSubShiftUndoes(l, Round(l, s, k));
    AddRoundKeyCancels(shifted, l.InvMixColumns(k));
  }

  lemma InvFinalRoundUndoesFirst(l: Layers, block: State, k: State)
    requires l.Invertible()
    ensures InvFinalRound(l, ShiftRows(l.SubBytes(AddRoundKey(block, k))), k) == block
  {
    InvSubShiftUndoes(l, AddRoundKey(block, k));
    AddRoundKeyCancels(block, k);
  }

  /** If each backward step undoes a forward step seen through view, then so do j of them: the
      state after i forward steps, seen through view, is what is left after j backward steps. */
  lemma {:induction false} IterateBack(forward: (State, State) -> State, backward: (State, State) -> State,
                                       view: State -> State, turn: State -> State,
                                       keys: seq<State>, inv: seq<State>, start: State, i: nat, j: nat)
    requires |inv| == |keys| && i + j == |keys| - 2
    requires forall s, k :: backward(view(forward(s, k)), turn(k)) == view(s)
    requires forall r: nat | 0 < r < |keys| - 1 :: inv[r] == turn(keys[|keys| - 1 - r])
    ensures Iterate(backward, inv, j, view(Iterate(forward, keys, |keys| - 2, start)))
         == view(Iterate(forward, keys, i, start))
    decreases j
  {
    if j > 0 {
      assert inv[j] == turn(keys[i + 1]);
      IterateBack(forward, backward, view, turn, keys, inv, start, i + 1, j - 1);
    }
  }

  function Shifted(l: Layers): State -> State {
    s => ShiftRows(l.SubBytes(s))
  }

  function Unmixed(l: Layers): State -> State {
    k => l.InvMixColumns(k)
  }

  lemma RoundsUndone(l: Layers)
    requires l.Invertible()
    ensures forall s, k :: Backward(l)(Shifted(l)(Forward(l)(s, k)), Unmixed(l)(k)) == Shifted(l)(s)
  {
    forall s, k
      ensures Backward(l)(Shifted(l)(Forward(l)(s, k)), Unmixed(l)(k)) == Shifted(l)(s)
    {
      InvRoundUndoesRound(l, s, k);
    }
  }

  lemma InvRoundsUndoRounds(l: Layers, inv: seq<State>, keys: seq<State>, start: State)
    requires l.Invertible()
    requires 2 <= |keys| && IsInverseSchedule(l, inv, keys)
    ensures Iterate(Backward(l), inv, |keys| - 2, Shifted(l)(Iterate(Forward(l), keys, |keys| - 2, start))) == Shifted(l)(start)
  {
    RoundsUndone(l);
    IterateBack(Forward(l), Backward(l), Shifted(l), Unmixed(l), keys, inv, start, 0, |keys| - 2);
  }

  lemma FinalRoundUndone(l: Layers, s: State, k: State)
    ensures AddRoundKey(FinalRound(l, s, k), k) == Shifted(l)(s)
  {
    AddRoundKeyCancels(Shifted(l)(s), k);
  }

  lemma EqInvCipherUndoesCipher(l: Layers, inv: seq<State>, keys: seq<State>, block: State)
    requires l.Invertible()
    requires 2 <= |keys| && IsInverseSchedule(l, inv, keys)
    ensures EqInvCipher(l, inv, Cipher(l, keys, block)) == block
  {
    FinalRoundUndone(l, Rounds(l, keys, |keys| - 2, block), keys[|keys| - 1]);
    InvRoundsUndoRounds(l, inv, keys, AddRoundKey(block, keys[0]));
    InvFinalRoundUndoesFirst(l, block, keys[0]);
  }
}
