/** AesSetKey, AesEncrypt and AesDecrypt over the key array of struct Aes. */
module AesCipher {
  import opened Words
  import opened Fips197
  import opened KeyExpansion
  import opened Tables
  import opened AesRounds

  datatype Option<T> = None | Some(value: T)

  const AES_DECRYPTION := 1
  const BAD_FUNC_ARG := -173

  const RCON: seq<bv32> := [0x01000000, 0x02000000, 0x04000000, 0x08000000,
                            0x10000000, 0x20000000, 0x40000000, 0x80000000,
                            0x1B000000, 0x36000000]

  lemma RconEntry(i: nat)
    requires i < 10
    ensures Bytes(RCON[i]) == Rcon(i + 1)
  {
    assert PowerOfX(0) == 1;
    assert PowerOfX(1) == 2;
    assert PowerOfX(2) == 4;
    assert PowerOfX(3) == 8;
    assert PowerOfX(4) == 16;
    assert PowerOfX(5) == 32;
    assert PowerOfX(6) == 64;
    assert PowerOfX(7) == 128;
    assert PowerOfX(8) == 0x1b;
    assert PowerOfX(9) == 0x36;
  }

  /** The first n words hold the bytes of the first n columns. */
  ghost predicate Holds(words: seq<bv32>, w: seq<Column>, n: nat) {
    n <= |words| && n <= |w| && forall j: nat | j < n :: Bytes(words[j]) == w[j]
  }

  /** s and u agree from index n on. */
  ghost predicate SameFrom(s: seq<bv32>, u: seq<bv32>, n: nat) {
    |s| == |u| && forall p: nat | n <= p < |s| :: s[p] == u[p]
  }

  /** The word g(temp) of the expansion: RotWord, SubWord and the round constant. */
  function RotSubWord(t: Tables, temp: bv32): bv32 {
    t.EncLast(GetByte2(temp), GetByte1(temp), GetByte0(temp), GetByte3(temp))
  }

  function PlainSubWord(t: Tables, temp: bv32): bv32 {
    t.EncLast(GetByte3(temp), GetByte2(temp), GetByte1(temp), GetByte0(temp))
  }

  lemma FirstWord(t: Tables, l: Layers, earlier: bv32, temp: bv32, rcon: bv32)
    requires t.LastRoundOk(l)
    ensures Bytes(Xor(Xor(earlier, RotSubWord(t, temp)), rcon))
         == AddColumn(Bytes(earlier), AddColumn(SubWord(l, RotWord(Bytes(temp))), Bytes(rcon)))
  {
    var g := RotSubWord(t, temp);
    BytesXor(earlier, g);
    BytesXor(Xor(earlier, g), rcon);
    AddColumnAssoc(Bytes(earlier), Bytes(g), Bytes(rcon));
  }

  lemma MiddleWord(t: Tables, l: Layers, earlier: bv32, temp: bv32)
    requires t.LastRoundOk(l)
    ensures Bytes(Xor(earlier, PlainSubWord(t, temp))) == AddColumn(Bytes(earlier), SubWord(l, Bytes(temp)))
  {
  }

  /** The four words a..d continue the schedule from index n on. */
  lemma HoldsFour(words: seq<bv32>, w: seq<Column>, n: nat, a: bv32, b: bv32, c: bv32, d: bv32)
    requires Holds(words, w, n) && n + 4 <= |words| && n + 4 <= |w|
    requires Bytes(a) == w[n] && Bytes(b) == w[n + 1] && Bytes(c) == w[n + 2] && Bytes(d) == w[n + 3]
    ensures Holds(words[n := a][n + 1 := b][n + 2 := c][n + 3 := d], w, n + 4)
  {
  }

  lemma HoldsTwo(words: seq<bv32>, w: seq<Column>, n: nat, a: bv32, b: bv32)
    requires Holds(words, w, n) && n + 2 <= |words| && n + 2 <= |w|
    requires Bytes(a) == w[n] && Bytes(b) == w[n + 1]
    ensures Holds(words[n := a][n + 1 := b], w, n + 2)
  {
  }

  /** The first four words of an iteration continue the schedule. */
  lemma FirstFourWords(t: Tables, l: Layers, words: seq<bv32>, w: seq<Column>, n: nat, nk: nat, i: nat)
    requires t.LastRoundOk(l) && 4 <= nk <= n && n + 4 <= |words| && i < 10 && Holds(words, w, n)
    requires StepStart(l, w, nk, n, Rcon(i + 1))
    ensures var a := Xor(Xor(words[n - nk], RotSubWord(t, words[n - 1])), RCON[i]);
            var b := Xor(words[n - nk + 1], a);
            var c := Xor(words[n - nk + 2], b);
            n + 4 <= |w| && Bytes(a) == w[n] && Bytes(b) == w[n + 1] && Bytes(c) == w[n + 2]
            && Bytes(Xor(words[n - nk + 3], c)) == w[n + 3]
  {
    var a := Xor(Xor(words[n - nk], RotSubWord(t, words[n - 1])), RCON[i]);
    var b := Xor(words[n - nk + 1], a);
    RconEntry(i);
    FirstWord(t, l, words[n - nk], words[n - 1], RCON[i]);
    BytesXor(words[n - nk + 1], a);
    BytesXor(words[n - nk + 2], b);
    BytesXor(words[n - nk + 3], Xor(words[n - nk + 2], b));
  }

  /** struct Aes. reg and tmp are kept as the bytes their words occupy. */
  class Aes {
    const tables: Tables
    ghost const layers: Layers
    const key: array<bv32>
    const reg: array<bv8>
    const tmp: array<bv8>
    var rounds: nat

    /** The sizes of the declaration, and that the tables are those the layers call for. */
    ghost predicate Valid() {
      && key.Length == 60 && reg.Length == 16 && tmp.Length == 16 && reg != tmp
      && tables.Implements(layers)
      && layers.Invertible()
    }

    constructor ()
      ensures Valid()
      ensures tables == STATIC_TABLES && layers == AES
      ensures fresh(key) && fresh(reg) && fresh(tmp)
    {
      tables := STATIC_TABLES;
      layers := AES;
      key := new bv32[60];
      reg := new bv8[16];
      tmp := new bv8[16];
      rounds := 0;
      StaticTablesImplementAes();
      AesInvertible();
    }

    /** The words of the schedule, as the cipher reads them. */
    ghost function Keys(n: nat): seq<State>
      requires 4 * n + 4 <= key.Length
      reads key
    {
      RoundKeys(key[..], n)
    }

    // ----- the key expansion

    /** The copy of the user key into the schedule, each word turned to big-endian. */
    method LoadUserKey(userKey: seq<bv8>, ghost w: seq<Column>)
      requires Valid() && IsKeyLength(|userKey|)
      requires |w| == key.Length && w == ExpandedWords(layers, userKey, |w|)
      modifies key
      ensures Holds(key[..], w, |userKey| / 4)
      ensures SameFrom(key[..], old(key[..]), |userKey| / 4)
    {
      for i := 0 to |userKey| / 4
        invariant Holds(key[..], w, i)
        invariant SameFrom(key[..], old(key[..]), |userKey| / 4)
      {
        UserKeyWord(layers, userKey, |w|, i);
        LoadThenReverse(userKey[4 * i], userKey[4 * i + 1], userKey[4 * i + 2], userKey[4 * i + 3]);
        key[i] := ByteReverseWord32(LoadWord(userKey[4 * i], userKey[4 * i + 1], userKey[4 * i + 2], userKey[4 * i + 3]));
      }
    }

    method StoreFour(n: nat, a: bv32, b: bv32, c: bv32, d: bv32)
      requires n + 4 <= key.Length
      modifies key
      ensures key[..] == old(key[..])[n := a][n + 1 := b][n + 2 := c][n + 3 := d]
    {
      key[n], key[n + 1], key[n + 2], key[n + 3] := a, b, c, d;
    }

    /** The first four words of an iteration, the same for the three key lengths; n is the index of
        the first word written. */
    method FirstFour(n: nat, nk: nat, i: nat, ghost w: seq<Column>)
      requires Valid()
      requires 4 <= nk <= n && n + 4 <= key.Length && i < 10 && Holds(key[..], w, n)
      requires StepStart(layers, w, nk, n, Rcon(i + 1))
      modifies key
      ensures Holds(key[..], w, n + 4)
      ensures SameFrom(key[..], old(key[..]), n + 4)
    {
      var temp := key[n - 1];
      var a := Xor(Xor(key[n - nk], RotSubWord(tables, temp)), RCON[i]);
      var b := Xor(key[n - nk + 1], a);
      var c := Xor(key[n - nk + 2], b);
      var d := Xor(key[n - nk + 3], c);
      FirstFourWords(tables, layers, key[..], w, n, nk, i);
      HoldsFour(key[..], w, n, a, b, c, d);
      StoreFour(n, a, b, c, d);
    }

    /** The second four words of an iteration for a 32-byte key. */
    method SecondFour(n: nat, ghost w: seq<Column>)
      requires Valid()
      requires 8 <= n && n + 4 <= key.Length && Holds(key[..], w, n) && StepMiddle(layers, w, n)
      modifies key
      ensures Holds(key[..], w, n + 4)
      ensures SameFrom(key[..], old(key[..]), n + 4)
    {
      var temp := key[n - 1];
      var a := Xor(key[n - 8], PlainSubWord(tables, temp));
      var b := Xor(key[n - 7], a);
      var c := Xor(key[n - 6], b);
      var d := Xor(key[n - 5], c);
      MiddleWord(tables, layers, key[n - 8], temp);
      BytesXor(key[n - 7], a);
      BytesXor(key[n - 6], b);
      BytesXor(key[n - 5], c);
      HoldsFour(key[..], w, n, a, b, c, d);
      StoreFour(n, a, b, c, d);
    }

    /** The last two words of an iteration for a 24-byte key. */
    method LastTwo(n: nat, ghost w: seq<Column>)
      requires 6 <= n && n + 2 <= key.Length && Holds(key[..], w, n) && StepEnd(w, n)
      modifies key
      ensures Holds(key[..], w, n + 2)
      ensures SameFrom(key[..], old(key[..]), n + 2)
    {
      var a := Xor(key[n - 6], key[n - 1]);
      var b := Xor(key[n - 5], a);
      BytesXor(key[n - 6], key[n - 1]);
      BytesXor(key[n - 5], a);
      HoldsTwo(key[..], w, n, a, b);
      StoreTwo(n, a, b);
    }

    method StoreTwo(n: nat, a: bv32, b: bv32)
      requires n + 2 <= key.Length
      modifies key
      ensures key[..] == old(key[..])[n := a][n + 1 := b]
    {
      key[n], key[n + 1] := a, b;
    }

    method Expand16(ghost userKey: seq<bv8>, ghost w: seq<Column>)
      requires Valid() && |userKey| == 16
      requires |w| == key.Length && w == ExpandedWords(layers, userKey, |w|) && Holds(key[..], w, 4)
      modifies key
      ensures Holds(key[..], w, 44)
      ensures SameFrom(key[..], old(key[..]), 44)
    {
      var rk, i := 0, 0;
      while true
        invariant 0 <= i < 10 && rk == 4 * i
        invariant Holds(key[..], w, rk + 4)
        invariant SameFrom(key[..], old(key[..]), 44)
        decreases 10 - i
      {
        StartOfStep(layers, userKey, w, 4, i + 1, rk + 4);
        FirstFour(rk + 4, 4, i, w);
        i := i + 1;
        if i == 10 {
          break;
        }
        rk := rk + 4;
      }
    }

    method Expand24(ghost userKey: seq<bv8>, ghost w: seq<Column>)
      requires Valid() && |userKey| == 24
      requires |w| == key.Length && w == ExpandedWords(layers, userKey, |w|) && Holds(key[..], w, 6)
      modifies key
      ensures Holds(key[..], w, 52)
      ensures SameFrom(key[..], old(key[..]), 52)
    {
      var rk, i := 0, 0;
      while true
        invariant 0 <= i < 8 && rk == 6 * i
        invariant Holds(key[..], w, rk + 6)
        invariant SameFrom(key[..], old(key[..]), 52)
        decreases 8 - i
      {
        StartOfStep(layers, userKey, w, 6, i + 1, rk + 6);
        FirstFour(rk + 6, 6, i, w);
        i := i + 1;
        if i == 8 {
          break;
        }
        EndOfStepOfSix(layers, userKey, w, i, rk + 10);
        LastTwo(rk + 10, w);
        rk := rk + 6;
      }
    }

    method Expand32(ghost userKey: seq<bv8>, ghost w: seq<Column>)
      requires Valid() && |userKey| == 32
      requires |w| == key.Length && w == ExpandedWords(layers, userKey, |w|) && Holds(key[..], w, 8)
      modifies key
      ensures Holds(key[..], w, 60)
      ensures SameFrom(key[..], old(key[..]), 60)
    {
      var rk, i := 0, 0;
      while true
        invariant 0 <= i < 7 && rk == 8 * i
        invariant Holds(key[..], w, rk + 8)
        decreases 7 - i
      {
        StartOfStep(layers, userKey, w, 8, i + 1, rk + 8);
        FirstFour(rk + 8, 8, i, w);
        i := i + 1;
        if i == 7 {
          break;
        }
        MiddleOfStepOfEight(layers, userKey, w, i, rk + 12);
        SecondFour(rk + 12, w);
        rk := rk + 8;
      }
    }

    // ----- the decryption schedule

    method SwapWords(i: nat, j: nat)
      requires i < j < key.Length
      modifies key
      ensures key[..] == old(key[..])[i := old(key[j])][j := old(key[i])]
    {
      var temp := key[i];
      key[i] := key[j];
      key[j] := temp;
    }

    method SwapFour(i: nat, j: nat)
      requires i + 4 <= j && j + 4 <= key.Length
      modifies key
      ensures key[..] == SwappedFour(old(key[..]), i, j)
    {
      SwapWords(i, j);
      SwapWords(i + 1, j + 1);
      SwapWords(i + 2, j + 2);
      SwapWords(i + 3, j + 3);
    }

    /** The loop body of the reversal: one more pair, counted from the outside, is in place. */
    method SwapRoundKeys(i: nat, j: nat, ghost words: seq<bv32>, ghost a: nat)
      requires i < j && i == 4 * a && j == 4 * (rounds - a) && 4 * rounds + 4 <= key.Length
      requires Swapping(key[..], words, a, rounds)
      modifies key
      ensures Swapping(key[..], words, a + 1, rounds)
    {
      SwappingStep(key[..], words, a, rounds, i, j);
      SwapFour(i, j);
    }

    /** The in-place reversal of the order of the round keys. */
    method ReverseRoundKeys()
      requires 4 * rounds + 4 <= key.Length
      modifies key
      ensures Reversed(key[..], old(key[..]), rounds)
      ensures SameFrom(key[..], old(key[..]), 4 * rounds + 4)
    {
      ghost var words := key[..];
      ghost var a := 0;
      var i, j := 0, 4 * rounds;
      while i < j
        invariant i == 4 * a && j == 4 * (rounds - a) && 0 <= 2 * a <= rounds + 1
        invariant Swapping(key[..], words, a, rounds)
      {
        SwapRoundKeys(i, j, words, a);
        i, j := i + 4, j - 4;
        a := a + 1;
      }
      ReversedAtEnd(key[..], words, a, rounds);
    }

    method UnmixFour(n: nat)
      requires n + 4 <= key.Length
      modifies key
      ensures key[..] == MappedFour(tables.UnmixWord, old(key[..]), n)
    {
      key[n] := tables.UnmixWord(key[n]);
      key[n + 1] := tables.UnmixWord(key[n + 1]);
      key[n + 2] := tables.UnmixWord(key[n + 2]);
      key[n + 3] := tables.UnmixWord(key[n + 3]);
    }

    /** InvMixColumns on every round key but the first and the last. */
    method UnmixRoundKeys()
      requires 4 * rounds + 4 <= key.Length
      modifies key
      ensures MappedRange(tables.UnmixWord, key[..], old(key[..]), 4, 4 * rounds)
    {
      ghost var words := key[..];
      var rk := 0;
      var i := 1;
      while i < rounds
        invariant 1 <= i && (i <= rounds || i == 1) && rk == 4 * (i - 1)
        invariant MappedRange(tables.UnmixWord, key[..], words, 4, 4 * i)
      {
        rk := rk + 4;
        MappedStep(tables.UnmixWord, key[..], words, rk);
        UnmixFour(rk);
        i := i + 1;
      }
    }

    method InvertSchedule()
      requires Valid() && 4 * rounds + 4 <= key.Length
      modifies key
      ensures IsInverseSchedule(layers, Keys(rounds), old(Keys(rounds)))
      ensures SameFrom(key[..], old(key[..]), 4 * rounds + 4)
    {
      ghost var forward := key[..];
      ReverseRoundKeys();
      ghost var backward := key[..];
      UnmixRoundKeys();
      InverseSchedule(tables, layers, key[..], backward, forward, rounds);
    }

    method SetIV(iv: Option<seq<bv8>>) returns (code: int)
      requires reg.Length == 16 && (iv.Some? ==> |iv.value| == 16)
      modifies reg
      ensures code == 0
      ensures reg[..] == if iv.Some? then iv.value else old(reg[..])
    {
      if iv.Some? {
        for k := 0 to 16
          invariant reg[..k] == iv.value[..k]
        {
          reg[k] := iv.value[k];
        }
      }
      return 0;
    }

    method ExpandKey(userKey: seq<bv8>, ghost w: seq<Column>)
      requires Valid() && IsKeyLength(|userKey|) && rounds == Nr(userKey)
      requires |w| == key.Length && w == ExpandedWords(layers, userKey, |w|)
      modifies key
      ensures Holds(key[..], w, 4 * rounds + 4)
      ensures SameFrom(key[..], old(key[..]), 4 * rounds + 4)
    {
      LoadUserKey(userKey, w);
      match |userKey| {
        case 16 => Expand16(userKey, w);
        case 24 => Expand24(userKey, w);
        case _ => Expand32(userKey, w);
      }
    }

    /** The schedule array holds what the direction calls for: the key schedule of section 5.2,
        or that of the equivalent inverse cipher. */
    ghost predicate Scheduled(userKey: seq<bv8>, dir: int)
      requires IsKeyLength(|userKey|)
      reads this, key
    {
      && rounds == Nr(userKey)
      && 4 * rounds + 4 <= key.Length
      && if dir == AES_DECRYPTION then IsInverseSchedule(layers, Keys(rounds), KeySchedule(layers, userKey))
         else Keys(rounds) == KeySchedule(layers, userKey)
    }

    /** The copy and the expansion, before the decryption schedule is made from them. */
    method SetForwardSchedule(userKey: seq<bv8>)
      requires Valid() && IsKeyLength(|userKey|)
      modifies this`rounds, key
      ensures rounds == Nr(userKey) && 4 * rounds + 4 <= key.Length
      ensures Keys(rounds) == KeySchedule(layers, userKey)
      ensures SameFrom(key[..], old(key[..]), 4 * rounds + 4)
    {
      ghost var w := ExpandedWords(layers, userKey, key.Length);
      rounds := |userKey| / 4 + 6;
      ExpandKey(userKey, w);
      KeyScheduleOf(layers, userKey, w);
      HoldsKeys(key[..], w, rounds);
    }

    method SetSchedule(userKey: seq<bv8>, dir: int)
      requires Valid() && IsKeyLength(|userKey|)
      modifies this`rounds, key
      ensures Scheduled(userKey, dir)
      ensures SameFrom(key[..], old(key[..]), 4 * rounds + 4)
    {
      SetForwardSchedule(userKey);
      if dir == AES_DECRYPTION {
        InvertSchedule();
      }
    }

    method SetKey(userKey: seq<bv8>, iv: Option<seq<bv8>>, dir: int) returns (code: int)
      requires Valid() && (iv.Some? ==> |iv.value| == 16)
      modifies this`rounds, key, reg
      ensures !IsKeyLength(|userKey|) ==>
                code == -173 && rounds == old(rounds) && key[..] == old(key[..]) && reg[..] == old(reg[..])
      ensures IsKeyLength(|userKey|) ==>
                && code == 0
                && Scheduled(userKey, dir)
                && reg[..] == (if iv.Some? then iv.value else old(reg[..]))
                && SameFrom(key[..], old(key[..]), 4 * rounds + 4)
    {
      if !(|userKey| == 16 || |userKey| == 24 || |userKey| == 32) {
        return BAD_FUNC_ARG;
      }
      SetSchedule(userKey, dir);
      code := SetIV(iv);
    }

    // ----- one block

    method LoadState(b: array<bv8>, off: nat) returns (s0: bv32, s1: bv32, s2: bv32, s3: bv32)
      requires off + 16 <= b.Length
      ensures StateOf(s0, s1, s2, s3) == StateAt(b[..], off)
    {
      s0 := ByteReverseWord32(LoadWord(b[off], b[off + 1], b[off + 2], b[off + 3]));
      s1 := ByteReverseWord32(LoadWord(b[off + 4], b[off + 5], b[off + 6], b[off + 7]));
      s2 := ByteReverseWord32(LoadWord(b[off + 8], b[off + 9], b[off + 10], b[off + 11]));
      s3 := ByteReverseWord32(LoadWord(b[off + 12], b[off + 13], b[off + 14], b[off + 15]));
      LoadThenReverse(b[off], b[off + 1], b[off + 2], b[off + 3]);
      LoadThenReverse(b[off + 4], b[off + 5], b[off + 6], b[off + 7]);
      LoadThenReverse(b[off + 8], b[off + 9], b[off + 10], b[off + 11]);
      LoadThenReverse(b[off + 12], b[off + 13], b[off + 14], b[off + 15]);
    }

    method StoreWord(b: array<bv8>, off: nat, s: bv32)
      requires off + 4 <= b.Length
      modifies b
      ensures b[..] == Splice(old(b[..]), off, WordBytes(s))
    {
      var x := ByteReverseWord32(s);
      ReverseThenStore(s);
      b[off] := GetByte0(x);
      b[off + 1] := GetByte1(x);
      b[off + 2] := GetByte2(x);
      b[off + 3] := GetByte3(x);
    }

    method StoreState(b: array<bv8>, off: nat, s0: bv32, s1: bv32, s2: bv32, s3: bv32)
      requires off + 16 <= b.Length
      modifies b
      ensures b[..] == Splice(old(b[..]), off, BlockOf(StateOf(s0, s1, s2, s3)))
    {
      BlockOfWords(s0, s1, s2, s3);
      SpliceTwice(b[..], off, WordBytes(s0), WordBytes(s1));
      SpliceTwice(b[..], off, WordBytes(s0) + WordBytes(s1), WordBytes(s2));
      SpliceTwice(b[..], off, WordBytes(s0) + WordBytes(s1) + WordBytes(s2), WordBytes(s3));
      StoreWord(b, off, s0);
      StoreWord(b, off + 4, s1);
      StoreWord(b, off + 8, s2);
      StoreWord(b, off + 12, s3);
    }

    /** The number of rounds the cipher loop runs: it takes them in pairs. */
    function RoundsRun(): nat
      reads this
    {
      2 * (rounds / 2)
    }

    /** The guard of AesEncrypt and AesDecrypt against a schedule that was never set. */
    predicate Ready()
      reads this
    {
      1 <= rounds / 2 <= 7
    }

    /** The block AesEncrypt computes under the present schedule. */
    ghost function Encrypted(b: seq<bv8>): (r: seq<bv8>)
      requires key.Length == 60 && Ready() && |b| == 16
      reads this, key
      ensures |r| == 16
    {
      BlockOf(Cipher(layers, Keys(RoundsRun()), StateAt(b, 0)))
    }

    /** The block AesDecrypt computes under the present schedule. */
    ghost function Decrypted(b: seq<bv8>): (r: seq<bv8>)
      requires key.Length == 60 && Ready() && |b| == 16
      reads this, key
      ensures |r| == 16
    {
      BlockOf(EqInvCipher(layers, Keys(RoundsRun()), StateAt(b, 0)))
    }

    method AddFirstKey(i0: bv32, i1: bv32, i2: bv32, i3: bv32, ghost keys: seq<State>)
      returns (s0: bv32, s1: bv32, s2: bv32, s3: bv32)
      requires 1 <= |keys| && 4 * |keys| <= key.Length && keys == Keys(|keys| - 1)
      ensures StateOf(s0, s1, s2, s3) == AddRoundKey(StateOf(i0, i1, i2, i3), keys[0])
    {
      s0 := Xor(i0, key[0]);
      s1 := Xor(i1, key[1]);
      s2 := Xor(i2, key[2]);
      s3 := Xor(i3, key[3]);
      AddInitialKey(i0, i1, i2, i3, key[0], key[1], key[2], key[3]);
      KeyAtOffset(key[..], |keys| - 1, 0, 0);
    }

    /** One full round: the table expressions of the cipher loop. */
    method EncRound(s0: bv32, s1: bv32, s2: bv32, s3: bv32, rk: nat, ghost n: nat, ghost keys: seq<State>, ghost block: State)
      returns (t0: bv32, t1: bv32, t2: bv32, t3: bv32)
      requires tables.FullRoundOk(layers) && n + 1 < |keys| && 4 * |keys| <= key.Length && keys == Keys(|keys| - 1)
      requires rk == 4 * n + 4
      requires StateOf(s0, s1, s2, s3) == Rounds(layers, keys, n, block)
      ensures StateOf(t0, t1, t2, t3) == Rounds(layers, keys, n + 1, block)
    {
      t0 := Xor(tables.EncColumn(GetByte3(s0), GetByte2(s1), GetByte1(s2), GetByte0(s3)), key[rk]);
      t1 := Xor(tables.EncColumn(GetByte3(s1), GetByte2(s2), GetByte1(s3), GetByte0(s0)), key[rk + 1]);
      t2 := Xor(tables.EncColumn(GetByte3(s2), GetByte2(s3), GetByte1(s0), GetByte0(s1)), key[rk + 2]);
      t3 := Xor(tables.EncColumn(GetByte3(s3), GetByte2(s0), GetByte1(s1), GetByte0(s2)), key[rk + 3]);
      EncRoundIsRound(tables, layers, s0, s1, s2, s3, key[rk], key[rk + 1], key[rk + 2], key[rk + 3]);
      KeyAtOffset(key[..], |keys| - 1, n + 1, rk);
      NextRound(layers, keys, n, block, StateOf(s0, s1, s2, s3), StateOf(t0, t1, t2, t3));
    }

    method EncFinalRound(t0: bv32, t1: bv32, t2: bv32, t3: bv32, rk: nat, ghost n: nat, ghost keys: seq<State>, ghost block: State)
      returns (s0: bv32, s1: bv32, s2: bv32, s3: bv32)
      requires tables.LastRoundOk(layers) && n == |keys| - 2 && 4 * |keys| <= key.Length && keys == Keys(|keys| - 1)
      requires rk == 4 * n + 4
      requires StateOf(t0, t1, t2, t3) == Rounds(layers, keys, n, block)
      ensures StateOf(s0, s1, s2, s3) == Cipher(layers, keys, block)
    {
      s0 := Xor(tables.EncLast(GetByte3(t0), GetByte2(t1), GetByte1(t2), GetByte0(t3)), key[rk]);
      s1 := Xor(tables.EncLast(GetByte3(t1), GetByte2(t2), GetByte1(t3), GetByte0(t0)), key[rk + 1]);
      s2 := Xor(tables.EncLast(GetByte3(t2), GetByte2(t3), GetByte1(t0), GetByte0(t1)), key[rk + 2]);
      s3 := Xor(tables.EncLast(GetByte3(t3), GetByte2(t0), GetByte1(t1), GetByte0(t2)), key[rk + 3]);
      EncLastIsFinalRound(tables, layers, t0, t1, t2, t3, key[rk], key[rk + 1], key[rk + 2], key[rk + 3]);
      KeyAtOffset(key[..], |keys| - 1, n + 1, rk);
      LastRound(layers, keys, n, block, StateOf(t0, t1, t2, t3), StateOf(s0, s1, s2, s3));
    }

    /** The cipher loop of AesEncrypt: two rounds in each iteration, left in the middle of the last. */
    method EncLoop(i0: bv32, i1: bv32, i2: bv32, i3: bv32, ghost keys: seq<State>, ghost block: State)
      returns (t0: bv32, t1: bv32, t2: bv32, t3: bv32, rk: nat)
      requires key.Length == 60 && Ready() && tables.FullRoundOk(layers)
      requires |keys| == 2 * (rounds / 2) + 1 && keys == Keys(|keys| - 1)
      requires StateOf(i0, i1, i2, i3) == Rounds(layers, keys, 0, block)
      ensures StateOf(t0, t1, t2, t3) == Rounds(layers, keys, |keys| - 2, block) && rk == 4 * (|keys| - 1)
    {
      var s0, s1, s2, s3 := i0, i1, i2, i3;
      t0, t1, t2, t3, rk := i0, i1, i2, i3, 0;
      var r := rounds / 2;
      ghost var n: nat := 0;
      while true
        invariant 1 <= r && n + 2 * r + 1 == |keys| && rk == 4 * n
        invariant StateOf(s0, s1, s2, s3) == Rounds(layers, keys, n, block)
        decreases r
      {
        t0, t1, t2, t3 := EncRound(s0, s1, s2, s3, rk + 4, n, keys, block);
        rk := rk + 8;
        r := r - 1;
        if r == 0 {
          assert n + 1 == |keys| - 2;
          return;
        }
        s0, s1, s2, s3 := EncRound(t0, t1, t2, t3, rk, n + 1, keys, block);
        n := n + 2;
      }
    }

    method EncryptWords(i0: bv32, i1: bv32, i2: bv32, i3: bv32) returns (s0: bv32, s1: bv32, s2: bv32, s3: bv32)
      requires key.Length == 60 && Ready() && tables.FullRoundOk(layers) && tables.LastRoundOk(layers)
      ensures StateOf(s0, s1, s2, s3) == Cipher(layers, Keys(RoundsRun()), StateOf(i0, i1, i2, i3))
    {
      ghost var keys := Keys(RoundsRun());
      ghost var block := StateOf(i0, i1, i2, i3);
      s0, s1, s2, s3 := AddFirstKey(i0, i1, i2, i3, keys);
      var t0, t1, t2, t3, rk := EncLoop(s0, s1, s2, s3, keys, block);
      s0, s1, s2, s3 := EncFinalRound(t0, t1, t2, t3, rk, |keys| - 2, keys, block);
    }

    method Encrypt(inBlock: array<bv8>, inOff: nat, outBlock: array<bv8>, outOff: nat)
      requires Valid() && inOff + 16 <= inBlock.Length && outOff + 16 <= outBlock.Length
      modifies outBlock
      ensures !Ready() ==> outBlock[..] == old(outBlock[..])
      ensures Ready() ==> outBlock[..] == Splice(old(outBlock[..]), outOff, old(Encrypted(inBlock[inOff..inOff + 16])))
    {
      var r := rounds / 2;
      if r > 7 || r == 0 {
        return;
      }
      ghost var block := inBlock[inOff..inOff + 16];
      assert StateAt(inBlock[..], inOff) == StateAt(block, 0);
      var s0, s1, s2, s3 := LoadState(inBlock, inOff);
      s0, s1, s2, s3 := EncryptWords(s0, s1, s2, s3);
      StoreState(outBlock, outOff, s0, s1, s2, s3);
    }

    /** One full round: the table expressions of the decryption loop. */
    method DecRound(s0: bv32, s1: bv32, s2: bv32, s3: bv32, rk: nat, ghost n: nat, ghost keys: seq<State>, ghost block: State)
      returns (t0: bv32, t1: bv32, t2: bv32, t3: bv32)
      requires tables.InvFullRoundOk(layers) && n + 1 < |keys| && 4 * |keys| <= key.Length && keys == Keys(|keys| - 1)
      requires rk == 4 * n + 4
      requires StateOf(s0, s1, s2, s3) == InvRounds(layers, keys, n, block)
      ensures StateOf(t0, t1, t2, t3) == InvRounds(layers, keys, n + 1, block)
    {
      t0 := Xor(tables.DecColumn(GetByte3(s0), GetByte2(s3), GetByte1(s2), GetByte0(s1)), key[rk]);
      t1 := Xor(tables.DecColumn(GetByte3(s1), GetByte2(s0), GetByte1(s3), GetByte0(s2)), key[rk + 1]);
      t2 := Xor(tables.DecColumn(GetByte3(s2), GetByte2(s1), GetByte1(s0), GetByte0(s3)), key[rk + 2]);
      t3 := Xor(tables.DecColumn(GetByte3(s3), GetByte2(s2), GetByte1(s1), GetByte0(s0)), key[rk + 3]);
      DecRoundIsInvRound(tables, layers, s0, s1, s2, s3, key[rk], key[rk + 1], key[rk + 2], key[rk + 3]);
      KeyAtOffset(key[..], |keys| - 1, n + 1, rk);
      NextInvRound(layers, keys, n, block, StateOf(s0, s1, s2, s3), StateOf(t0, t1, t2, t3));
    }

    method DecFinalRound(t0: bv32, t1: bv32, t2: bv32, t3: bv32, rk: nat, ghost n: nat, ghost keys: seq<State>, ghost block: State)
      returns (s0: bv32, s1: bv32, s2: bv32, s3: bv32)
      requires tables.InvLastRoundOk(layers) && n == |keys| - 2 && 4 * |keys| <= key.Length && keys == Keys(|keys| - 1)
      requires rk == 4 * n + 4
      requires StateOf(t0, t1, t2, t3) == InvRounds(layers, keys, n, block)
      ensures StateOf(s0, s1, s2, s3) == EqInvCipher(layers, keys, block)
    {
      s0 := Xor(tables.DecLast(GetByte3(t0), GetByte2(t3), GetByte1(t2), GetByte0(t1)), key[rk]);
      s1 := Xor(tables.DecLast(GetByte3(t1), GetByte2(t0), GetByte1(t3), GetByte0(t2)), key[rk + 1]);
      s2 := Xor(tables.DecLast(GetByte3(t2), GetByte2(t1), GetByte1(t0), GetByte0(t3)), key[rk + 2]);
      s3 := Xor(tables.DecLast(GetByte3(t3), GetByte2(t2), GetByte1(t1), GetByte0(t0)), key[rk + 3]);
      DecLastIsInvFinalRound(tables, layers, t0, t1, t2, t3, key[rk], key[rk + 1], key[rk + 2], key[rk + 3]);
      KeyAtOffset(key[..], |keys| - 1, n + 1, rk);
      LastInvRound(layers, keys, n, block, StateOf(t0, t1, t2, t3), StateOf(s0, s1, s2, s3));
    }

    /** The cipher loop of AesDecrypt: two rounds in each iteration, left in the middle of the last. */
    method DecLoop(i0: bv32, i1: bv32, i2: bv32, i3: bv32, ghost keys: seq<State>, ghost block: State)
      returns (t0: bv32, t1: bv32, t2: bv32, t3: bv32, rk: nat)
      requires key.Length == 60 && Ready() && tables.InvFullRoundOk(layers)
      requires |keys| == 2 * (rounds / 2) + 1 && keys == Keys(|keys| - 1)
      requires StateOf(i0, i1, i2, i3) == InvRounds(layers, keys, 0, block)
      ensures StateOf(t0, t1, t2, t3) == InvRounds(layers, keys, |keys| - 2, block) && rk == 4 * (|keys| - 1)
    {
      var s0, s1, s2, s3 := i0, i1, i2, i3;
      t0, t1, t2, t3, rk := i0, i1, i2, i3, 0;
      var r := rounds / 2;
      ghost var n: nat := 0;
      while true
        invariant 1 <= r && n + 2 * r + 1 == |keys| && rk == 4 * n
        invariant StateOf(s0, s1, s2, s3) == InvRounds(layers, keys, n, block)
        decreases r
      {
        t0, t1, t2, t3 := DecRound(s0, s1, s2, s3, rk + 4, n, keys, block);
        rk := rk + 8;
        r := r - 1;
        if r == 0 {
          assert n + 1 == |keys| - 2;
          return;
        }
        s0, s1, s2, s3 := DecRound(t0, t1, t2, t3, rk, n + 1, keys, block);
        n := n + 2;
      }
    }

    method DecryptWords(i0: bv32, i1: bv32, i2: bv32, i3: bv32) returns (s0: bv32, s1: bv32, s2: bv32, s3: bv32)
      requires key.Length == 60 && Ready() && tables.InvFullRoundOk(layers) && tables.InvLastRoundOk(layers)
      ensures StateOf(s0, s1, s2, s3) == EqInvCipher(layers, Keys(RoundsRun()), StateOf(i0, i1, i2, i3))
    {
      ghost var keys := Keys(RoundsRun());
      ghost var block := StateOf(i0, i1, i2, i3);
      s0, s1, s2, s3 := AddFirstKey(i0, i1, i2, i3, keys);
      var t0, t1, t2, t3, rk := DecLoop(s0, s1, s2, s3, keys, block);
      s0, s1, s2, s3 := DecFinalRound(t0, t1, t2, t3, rk, |keys| - 2, keys, block);
    }

    method Decrypt(inBlock: array<bv8>, inOff: nat, outBlock: array<bv8>, outOff: nat)
      requires Valid() && inOff + 16 <= inBlock.Length && outOff + 16 <= outBlock.Length
      modifies outBlock
      ensures !Ready() ==> outBlock[..] == old(outBlock[..])
      ensures Ready() ==> outBlock[..] == Splice(old(outBlock[..]), outOff, old(Decrypted(inBlock[inOff..inOff + 16])))
    {
      var r := rounds / 2;
      if r > 7 || r == 0 {
        return;
      }
      ghost var block := inBlock[inOff..inOff + 16];
      assert StateAt(inBlock[..], inOff) == StateAt(block, 0);
      var s0, s1, s2, s3 := LoadState(inBlock, inOff);
      s0, s1, s2, s3 := DecryptWords(s0, s1, s2, s3);
      StoreState(outBlock, outOff, s0, s1, s2, s3);
    }
  }

  /** The headline: what AesEncrypt writes under the encryption schedule of a key, AesDecrypt turns
      back into the block under the decryption schedule of the same key. */
  lemma DecryptUndoesEncrypt(enc: Aes, dec: Aes, userKey: seq<bv8>, dir: int, block: seq<bv8>)
    requires enc.Valid() && dec.Valid() && enc.layers == dec.layers
    requires IsKeyLength(|userKey|) && |block| == 16
    requires dir != AES_DECRYPTION && enc.Scheduled(userKey, dir) && dec.Scheduled(userKey, AES_DECRYPTION)
    ensures enc.Ready() && dec.Ready()
    ensures dec.Decrypted(enc.Encrypted(block)) == block
  {
    var nr := Nr(userKey);
    assert nr == 10 || nr == 12 || nr == 14;
    assert enc.RoundsRun() == nr && dec.RoundsRun() == nr;
    StateOfBlock(Cipher(enc.layers, enc.Keys(nr), StateAt(block, 0)));
    EqInvCipherUndoesCipher(enc.layers, dec.Keys(nr), enc.Keys(nr), StateAt(block, 0));
    BlockOfState(block);
  }

  /** s is u with f applied to the words lo to hi - 1. */
  ghost predicate MappedRange(f: bv32 -> bv32, s: seq<bv32>, u: seq<bv32>, lo: nat, hi: nat) {
    |s| == |u| && forall p: nat | p < |s| :: s[p] == if lo <= p < hi then f(u[p]) else u[p]
  }

  ghost function MappedFour(f: bv32 -> bv32, s: seq<bv32>, n: nat): (s': seq<bv32>)
    requires n + 4 <= |s|
    ensures |s'| == |s|
  {
    s[n := f(s[n])][n + 1 := f(s[n + 1])][n + 2 := f(s[n + 2])][n + 3 := f(s[n + 3])]
  }

  lemma MappedStep(f: bv32 -> bv32, s: seq<bv32>, u: seq<bv32>, n: nat)
    requires 4 <= n && n + 4 <= |s| && MappedRange(f, s, u, 4, n)
    ensures MappedRange(f, MappedFour(f, s, n), u, 4, n + 4)
  {
  }

  lemma HoldsKeys(words: seq<bv32>, w: seq<Column>, n: nat)
    requires 4 * n + 4 <= |words| && Holds(words, w, 4 * n + 4)
    ensures RoundKeys(words, n) == GroupKeys(w, n)
  {
  }

  lemma InverseKey(t: Tables, l: Layers, s: seq<bv32>, backward: seq<bv32>, forward: seq<bv32>, nr: nat, r: nat, m: nat)
    requires t.UnmixOk(l) && 4 * nr + 4 <= |s| && |forward| == |s| && r <= nr && m <= nr
    requires SameKey(backward, r, forward, m) && MappedRange(t.UnmixWord, s, backward, 4, 4 * nr)
    ensures RoundKey(s, r) == if 0 < r < nr then l.InvMixColumns(RoundKey(forward, m)) else RoundKey(forward, m)
  {
  }

  lemma InverseKeyOf(t: Tables, l: Layers, s: seq<bv32>, backward: seq<bv32>, forward: seq<bv32>, nr: nat, r: nat)
    requires t.UnmixOk(l) && 4 * nr + 4 <= |s| && |forward| == |s| && r <= nr
    requires Reversed(backward, forward, nr) && MappedRange(t.UnmixWord, s, backward, 4, 4 * nr)
    ensures RoundKey(s, r) == if 0 < r < nr then l.InvMixColumns(RoundKey(forward, nr - r)) else RoundKey(forward, nr - r)
  {
    assert SameKey(backward, r, forward, Mirror(r, nr));
    InverseKey(t, l, s, backward, forward, nr, r, nr - r);
  }

  lemma InverseSchedule(t: Tables, l: Layers, s: seq<bv32>, backward: seq<bv32>, forward: seq<bv32>, nr: nat)
    requires t.UnmixOk(l) && 4 * nr + 4 <= |s| && |forward| == |s|
    requires Reversed(backward, forward, nr) && MappedRange(t.UnmixWord, s, backward, 4, 4 * nr)
    ensures IsInverseSchedule(l, RoundKeys(s, nr), RoundKeys(forward, nr))
  {
    forall r: nat | r <= nr
      ensures RoundKey(s, r) == if 0 < r < nr then l.InvMixColumns(RoundKey(forward, nr - r)) else RoundKey(forward, nr - r)
    {
      InverseKeyOf(t, l, s, backward, forward, nr, r);
    }
    KeysInverse(l, s, forward, nr);
  }

  lemma KeysInverse(l: Layers, s: seq<bv32>, forward: seq<bv32>, nr: nat)
    requires 4 * nr + 4 <= |s| && |forward| == |s|
    requires forall r: nat | r <= nr ::
               RoundKey(s, r) == if 0 < r < nr then l.InvMixColumns(RoundKey(forward, nr - r)) else RoundKey(forward, nr - r)
    ensures IsInverseSchedule(l, RoundKeys(s, nr), RoundKeys(forward, nr))
  {
  }

  ghost predicate SameKey(s: seq<bv32>, r: nat, u: seq<bv32>, q: nat) {
    && 4 * r + 4 <= |s| && 4 * q + 4 <= |u|
    && s[4 * r] == u[4 * q] && s[4 * r + 1] == u[4 * q + 1] && s[4 * r + 2] == u[4 * q + 2] && s[4 * r + 3] == u[4 * q + 3]
  }

  function Mirror(r: nat, nr: nat): nat
    requires r <= nr
  {
    nr - r
  }

  /** Round keys 0 to nr of s are those of u in reverse order. */
  ghost predicate Reversed(s: seq<bv32>, u: seq<bv32>, nr: nat) {
    forall r: nat | r <= nr :: SameKey(s, r, u, Mirror(r, nr))
  }

  /** The round key of the original schedule that stands at place r once the outermost a pairs
      have been swapped. */
  function Origin(r: nat, a: nat, nr: nat): nat
    requires r <= nr
  {
    if r < a || r > nr - a then nr - r else r
  }

  ghost predicate ReversedUpTo(s: seq<bv32>, u: seq<bv32>, a: nat, nr: nat) {
    forall r: nat | r <= nr :: SameKey(s, r, u, Origin(r, a, nr))
  }

  ghost predicate Swapping(s: seq<bv32>, u: seq<bv32>, a: nat, nr: nat) {
    ReversedUpTo(s, u, a, nr) && SameFrom(s, u, 4 * nr + 4)
  }

  lemma SwappingStep(s: seq<bv32>, u: seq<bv32>, a: nat, nr: nat, i: nat, j: nat)
    requires i < j && i == 4 * a && j == 4 * (nr - a) && 4 * nr + 4 <= |s| && Swapping(s, u, a, nr)
    ensures Swapping(SwappedFour(s, i, j), u, a + 1, nr)
  {
    ReversedStep(s, u, a, nr, i, j);
    SwappedTail(s, u, i, j, 4 * nr + 4);
  }

  ghost function SwappedFour(s: seq<bv32>, i: nat, j: nat): (s': seq<bv32>)
    requires i + 4 <= j && j + 4 <= |s|
    ensures |s'| == |s|
  {
    s[i := s[j]][j := s[i]][i + 1 := s[j + 1]][j + 1 := s[i + 1]]
     [i + 2 := s[j + 2]][j + 2 := s[i + 2]][i + 3 := s[j + 3]][j + 3 := s[i + 3]]
  }

  lemma SwappedTail(s: seq<bv32>, u: seq<bv32>, i: nat, j: nat, n: nat)
    requires i + 4 <= j && j + 4 <= n <= |s| && SameFrom(s, u, n)
    ensures SameFrom(SwappedFour(s, i, j), u, n)
  {
  }

  function Partner(r: nat, a: nat, b: nat): nat {
    if r == a then b else if r == b then a else r
  }

  lemma SwappedKey(s: seq<bv32>, a: nat, b: nat, r: nat)
    requires a < b && 4 * b + 4 <= |s| && 4 * r + 4 <= |s|
    ensures SameKey(SwappedFour(s, 4 * a, 4 * b), r, s, Partner(r, a, b))
  {
  }

  lemma SameKeyTransitive(s: seq<bv32>, r: nat, t: seq<bv32>, q: nat, u: seq<bv32>, p: nat)
    requires SameKey(s, r, t, q) && SameKey(t, q, u, p)
    ensures SameKey(s, r, u, p)
  {
  }

  lemma ReversedStep(s: seq<bv32>, u: seq<bv32>, a: nat, nr: nat, i: nat, j: nat)
    requires i < j && i == 4 * a && j == 4 * (nr - a) && 4 * nr + 4 <= |s| && ReversedUpTo(s, u, a, nr)
    ensures ReversedUpTo(SwappedFour(s, i, j), u, a + 1, nr)
  {
    var swapped, next := SwappedFour(s, i, j), a + 1;
    forall r: nat | r <= nr
      ensures SameKey(swapped, r, u, Origin(r, next, nr))
    {
      KeyInPlace(s, swapped, u, a, nr - a, nr, r);
    }
  }

  lemma KeyInPlace(s: seq<bv32>, swapped: seq<bv32>, u: seq<bv32>, a: nat, b: nat, nr: nat, r: nat)
    requires a < b && b == nr - a && r <= nr && 4 * nr + 4 <= |s| && ReversedUpTo(s, u, a, nr)
    requires swapped == SwappedFour(s, 4 * a, 4 * b)
    ensures SameKey(swapped, r, u, Origin(r, a + 1, nr))
  {
    SwappedKey(s, a, b, r);
    ReversedOneKey(s, swapped, u, a, nr, r);
  }

  lemma ReversedOneKey(s: seq<bv32>, s': seq<bv32>, u: seq<bv32>, a: nat, nr: nat, r: nat)
    requires a < nr - a && r <= nr && ReversedUpTo(s, u, a, nr) && SameKey(s', r, s, Partner(r, a, nr - a))
    ensures SameKey(s', r, u, Origin(r, a + 1, nr))
  {
    var q := Partner(r, a, nr - a);
    assert SameKey(s, q, u, Origin(q, a, nr));
    SameKeyTransitive(s', r, s, q, u, Origin(q, a, nr));
  }

  lemma ReversedAtEnd(s: seq<bv32>, u: seq<bv32>, a: nat, nr: nat)
    requires ReversedUpTo(s, u, a, nr) && nr <= 2 * a <= nr + 1
    ensures Reversed(s, u, nr)
  {
    forall r: nat | r <= nr
      ensures SameKey(s, r, u, Mirror(r, nr))
    {
      assert SameKey(s, r, u, Origin(r, a, nr));
    }
  }
}
