/** One round of AesEncrypt and of AesDecrypt on four 32-bit words, against the rounds of FIPS 197. */
module AesRounds {
  import opened Words
  import opened Fips197
  import opened Tables

  /** The state held in four words, one column each. */
  function StateOf(s0: bv32, s1: bv32, s2: bv32, s3: bv32): State {
    State(Bytes(s0), Bytes(s1), Bytes(s2), Bytes(s3))
  }

  lemma AddInitialKey(s0: bv32, s1: bv32, s2: bv32, s3: bv32, k0: bv32, k1: bv32, k2: bv32, k3: bv32)
    ensures StateOf(Xor(s0, k0), Xor(s1, k1), Xor(s2, k2), Xor(s3, k3))
         == AddRoundKey(StateOf(s0, s1, s2, s3), StateOf(k0, k1, k2, k3))
  {
    BytesXor(s0, k0);
    BytesXor(s1, k1);
    BytesXor(s2, k2);
    BytesXor(s3, k3);
  }

  lemma EncRoundIsRound(t: Tables, l: Layers, s0: bv32, s1: bv32, s2: bv32, s3: bv32,
                        k0: bv32, k1: bv32, k2: bv32, k3: bv32)
    requires t.FullRoundOk(l)
    ensures StateOf(Xor(t.EncColumn(GetByte3(s0), GetByte2(s1), GetByte1(s2), GetByte0(s3)), k0),
                    Xor(t.EncColumn(GetByte3(s1), GetByte2(s2), GetByte1(s3), GetByte0(s0)), k1),
                    Xor(t.EncColumn(GetByte3(s2), GetByte2(s3), GetByte1(s0), GetByte0(s1)), k2),
                    Xor(t.EncColumn(GetByte3(s3), GetByte2(s0), GetByte1(s1), GetByte0(s2)), k3))
         == Round(l, StateOf(s0, s1, s2, s3), StateOf(k0, k1, k2, k3))
  {
    AddInitialKey(t.EncColumn(GetByte3(s0), GetByte2(s1), GetByte1(s2), GetByte0(s3)),
                  t.EncColumn(GetByte3(s1), GetByte2(s2), GetByte1(s3), GetByte0(s0)),
                  t.EncColumn(GetByte3(s2), GetByte2(s3), GetByte1(s0), GetByte0(s1)),
                  t.EncColumn(GetByte3(s3), GetByte2(s0), GetByte1(s1), GetByte0(s2)), k0, k1, k2, k3);
  }

  lemma EncLastIsFinalRound(t: Tables, l: Layers, s0: bv32, s1: bv32, s2: bv32, s3: bv32,
                            k0: bv32, k1: bv32, k2: bv32, k3: bv32)
    requires t.LastRoundOk(l)
    ensures StateOf(Xor(t.EncLast(GetByte3(s0), GetByte2(s1), GetByte1(s2), GetByte0(s3)), k0),
                    Xor(t.EncLast(GetByte3(s1), GetByte2(s2), GetByte1(s3), GetByte0(s0)), k1),
                    Xor(t.EncLast(GetByte3(s2), GetByte2(s3), GetByte1(s0), GetByte0(s1)), k2),
                    Xor(t.EncLast(GetByte3(s3), GetByte2(s0), GetByte1(s1), GetByte0(s2)), k3))
         == FinalRound(l, StateOf(s0, s1, s2, s3), StateOf(k0, k1, k2, k3))
  {
    AddInitialKey(t.EncLast(GetByte3(s0), GetByte2(s1), GetByte1(s2), GetByte0(s3)),
                  t.EncLast(GetByte3(s1), GetByte2(s2), GetByte1(s3), GetByte0(s0)),
                  t.EncLast(GetByte3(s2), GetByte2(s3), GetByte1(s0), GetByte0(s1)),
                  t.EncLast(GetByte3(s3), GetByte2(s0), GetByte1(s1), GetByte0(s2)), k0, k1, k2, k3);
  }

  lemma DecRoundIsInvRound(t: Tables, l: Layers, s0: bv32, s1: bv32, s2: bv32, s3: bv32,
                           k0: bv32, k1: bv32, k2: bv32, k3: bv32)
    requires t.InvFullRoundOk(l)
    ensures StateOf(Xor(t.DecColumn(GetByte3(s0), GetByte2(s3), GetByte1(s2), GetByte0(s1)), k0),
                    Xor(t.DecColumn(GetByte3(s1), GetByte2(s0), GetByte1(s3), GetByte0(s2)), k1),
                    Xor(t.DecColumn(GetByte3(s2), GetByte2(s1), GetByte1(s0), GetByte0(s3)), k2),
                    Xor(t.DecColumn(GetByte3(s3), GetByte2(s2), GetByte1(s1), GetByte0(s0)), k3))
         == InvRound(l, StateOf(s0, s1, s2, s3), StateOf(k0, k1, k2, k3))
  {
    AddInitialKey(t.DecColumn(GetByte3(s0), GetByte2(s3), GetByte1(s2), GetByte0(s1)),
                  t.DecColumn(GetByte3(s1), GetByte2(s0), GetByte1(s3), GetByte0(s2)),
                  t.DecColumn(GetByte3(s2), GetByte2(s1), GetByte1(s0), GetByte0(s3)),
                  t.DecColumn(GetByte3(s3), GetByte2(s2), GetByte1(s1), GetByte0(s0)), k0, k1, k2, k3);
  }

  lemma DecLastIsInvFinalRound(t: Tables, l: Layers, s0: bv32, s1: bv32, s2: bv32, s3: bv32,
                               k0: bv32, k1: bv32, k2: bv32, k3: bv32)
    requires t.InvLastRoundOk(l)
    ensures StateOf(Xor(t.DecLast(GetByte3(s0), GetByte2(s3), GetByte1(s2), GetByte0(s1)), k0),
                    Xor(t.DecLast(GetByte3(s1), GetByte2(s0), GetByte1(s3), GetByte0(s2)), k1),
                    Xor(t.DecLast(GetByte3(s2), GetByte2(s1), GetByte1(s0), GetByte0(s3)), k2),
                    Xor(t.DecLast(GetByte3(s3), GetByte2(s2), GetByte1(s1), GetByte0(s0)), k3))
         == InvFinalRound(l, StateOf(s0, s1, s2, s3), StateOf(k0, k1, k2, k3))
  {
    AddInitialKey(t.DecLast(GetByte3(s0), GetByte2(s3), GetByte1(s2), GetByte0(s1)),
                  t.DecLast(GetByte3(s1), GetByte2(s0), GetByte1(s3), GetByte0(s2)),
                  t.DecLast(GetByte3(s2), GetByte2(s1), GetByte1(s0), GetByte0(s3)),
                  t.DecLast(GetByte3(s3), GetByte2(s2), GetByte1(s1), GetByte0(s0)), k0, k1, k2, k3);
  }

  // ----- rounds in sequence

  lemma KeyAtOffset(words: seq<bv32>, n: nat, j: nat, o: nat)
    requires 4 * n + 4 <= |words| && j <= n && o == 4 * j
    ensures StateOf(words[o], words[o + 1], words[o + 2], words[o + 3]) == RoundKeys(words, n)[j]
  {
  }

  lemma NextRound(l: Layers, keys: seq<State>, n: nat, block: State, s: State, t: State)
    requires n + 1 < |keys| && s == Rounds(l, keys, n, block) && t == Round(l, s, keys[n + 1])
    ensures t == Rounds(l, keys, n + 1, block)
  {
  }

  lemma NextInvRound(l: Layers, keys: seq<State>, n: nat, block: State, s: State, t: State)
    requires n + 1 < |keys| && s == InvRounds(l, keys, n, block) && t == InvRound(l, s, keys[n + 1])
    ensures t == InvRounds(l, keys, n + 1, block)
  {
  }

  lemma LastRound(l: Layers, keys: seq<State>, n: nat, block: State, s: State, t: State)
    requires n + 2 == |keys| && s == Rounds(l, keys, n, block) && t == FinalRound(l, s, keys[n + 1])
    ensures t == Cipher(l, keys, block)
  {
  }

  lemma LastInvRound(l: Layers, keys: seq<State>, n: nat, block: State, s: State, t: State)
    requires n + 2 == |keys| && s == InvRounds(l, keys, n, block) && t == InvFinalRound(l, s, keys[n + 1])
    ensures t == EqInvCipher(l, keys, block)
  {
  }

  // ----- blocks of sixteen bytes

  /** The state a block is mapped to, section 3.4. */
  function StateAt(b: seq<bv8>, off: nat): State
    requires off + 16 <= |b|
  {
    State(Column(b[off], b[off + 1], b[off + 2], b[off + 3]),
          Column(b[off + 4], b[off + 5], b[off + 6], b[off + 7]),
          Column(b[off + 8], b[off + 9], b[off + 10], b[off + 11]),
          Column(b[off + 12], b[off + 13], b[off + 14], b[off + 15]))
  }

  function BlockOf(s: State): (b: seq<bv8>)
    ensures |b| == 16
  {
    [s.c0.b0, s.c0.b1, s.c0.b2, s.c0.b3, s.c1.b0, s.c1.b1, s.c1.b2, s.c1.b3,
     s.c2.b0, s.c2.b1, s.c2.b2, s.c2.b3, s.c3.b0, s.c3.b1, s.c3.b2, s.c3.b3]
  }

  lemma StateOfBlock(s: State)
    ensures StateAt(BlockOf(s), 0) == s
  {
  }

  lemma BlockOfState(b: seq<bv8>)
    requires |b| == 16
    ensures BlockOf(StateAt(b, 0)) == b
  {
  }

  /** b with the bytes of part written at off. */
  function Splice(b: seq<bv8>, off: nat, part: seq<bv8>): (r: seq<bv8>)
    requires off + |part| <= |b|
    ensures |r| == |b|
  {
    b[..off] + part + b[off + |part|..]
  }

  lemma SpliceTwice(b: seq<bv8>, off: nat, p: seq<bv8>, q: seq<bv8>)
    requires off + |p| + |q| <= |b|
    ensures Splice(Splice(b, off, p), off + |p|, q) == Splice(b, off, p + q)
  {
  }

  function WordBytes(s: bv32): (b: seq<bv8>)
    ensures |b| == 4
  {
    [GetByte3(s), GetByte2(s), GetByte1(s), GetByte0(s)]
  }

  lemma BlockOfWords(s0: bv32, s1: bv32, s2: bv32, s3: bv32)
    ensures BlockOf(StateOf(s0, s1, s2, s3)) == WordBytes(s0) + WordBytes(s1) + WordBytes(s2) + WordBytes(s3)
  {
  }
}
