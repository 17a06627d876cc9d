/** The worked example of FIPS 197: the key expansion of appendix A.1 and the cipher of appendix B. */
module AesAnswers {
  import opened Words
  import opened Fips197
  import opened KeyExpansion
  import opened Tables
  import opened AesRounds
  import opened AesCipher
  import opened AesReference

  const KEY: seq<bv8> := [0x2b, 0x7e, 0x15, 0x16, 0x28, 0xae, 0xd2, 0xa6,
                         0xab, 0xf7, 0x15, 0x88, 0x09, 0xcf, 0x4f, 0x3c]
  const PLAINTEXT: seq<bv8> := [0x32, 0x43, 0xf6, 0xa8, 0x88, 0x5a, 0x30, 0x8d,
                               0x31, 0x31, 0x98, 0xa2, 0xe0, 0x37, 0x07, 0x34]
  const CIPHERTEXT: seq<bv8> := [0x39, 0x25, 0x84, 0x1d, 0x02, 0xdc, 0x09, 0xfb,
                                0xdc, 0x11, 0x85, 0x97, 0x19, 0x6a, 0x0b, 0x32]

  // the round keys of appendix A.1

  const K0 := StateOf(0x2b7e1516, 0x28aed2a6, 0xabf71588, 0x09cf4f3c)
  const K1 := StateOf(0xa0fafe17, 0x88542cb1, 0x23a33939, 0x2a6c7605)
  const K2 := StateOf(0xf2c295f2, 0x7a96b943, 0x5935807a, 0x7359f67f)
  const K3 := StateOf(0x3d80477d, 0x4716fe3e, 0x1e237e44, 0x6d7a883b)
  const K4 := StateOf(0xef44a541, 0xa8525b7f, 0xb671253b, 0xdb0bad00)
  const K5 := StateOf(0xd4d1c6f8, 0x7c839d87, 0xcaf2b8bc, 0x11f915bc)
  const K6 := StateOf(0x6d88a37a, 0x110b3efd, 0xdbf98641, 0xca0093fd)
  const K7 := StateOf(0x4e54f70e, 0x5f5fc9f3, 0x84a64fb2, 0x4ea6dc4f)
  const K8 := StateOf(0xead27321, 0xb58dbad2, 0x312bf560, 0x7f8d292f)
  const K9 := StateOf(0xac7766f3, 0x19fadc21, 0x28d12941, 0x575c006e)
  const K10 := StateOf(0xd014f9a8, 0xc9ee2589, 0xe13f0cc8, 0xb6630ca6)

  // appendix B: the state at the start of each round, and after ShiftRows

  const S0 := StateOf(0x193de3be, 0xa0f4e22b, 0x9ac68d2a, 0xe9f84808)
  const S1 := StateOf(0xa49c7ff2, 0x689f352b, 0x6b5bea43, 0x026a5049)
  const S2 := StateOf(0xaa8f5f03, 0x61dde3ef, 0x82d24ad2, 0x6832469a)
  const S3 := StateOf(0x486c4eee, 0x671d9d0d, 0x4de3b138, 0xd65f58e7)
  const S4 := StateOf(0xe0927fe8, 0xc86363c0, 0xd9b13550, 0x85b8be01)
  const S5 := StateOf(0xf1006f55, 0xc1924cef, 0x7cc88b32, 0x5db5d50c)
  const S6 := StateOf(0x260e2e17, 0x3d41b77d, 0xe86472a9, 0xfdd28b25)
  const S7 := StateOf(0x5a4142b1, 0x1949dc1f, 0xa3e01965, 0x7a8c040c)
  const S8 := StateOf(0xea835cf0, 0x0445332d, 0x655d98ad, 0x8596b0c5)
  const S9 := StateOf(0xeb40f21e, 0x592e3884, 0x8ba113e7, 0x1bc342d2)

  const T0 := StateOf(0xd4bf5d30, 0xe0b452ae, 0xb84111f1, 0x1e2798e5)
  const T1 := StateOf(0x49db873b, 0x45395389, 0x7f02d2f1, 0x77de961a)
  const T2 := StateOf(0xacc1d6b8, 0xefb55a7b, 0x1323cfdf, 0x457311b5)
  const T3 := StateOf(0x52a4c894, 0x85116a28, 0xe3cf2fd7, 0xf6505e07)
  const T4 := StateOf(0xe1fb967c, 0xe8c8ae9b, 0x356cd2ba, 0x974ffb53)
  const T5 := StateOf(0xa14f3dfe, 0x78e803fc, 0x10d5a8df, 0x4c632923)
  const T6 := StateOf(0xf783403f, 0x27433df0, 0x9bb531ff, 0x54aba9d3)
  const T7 := StateOf(0xbe3bd4fe, 0xd4e1f2c8, 0x0a642cc0, 0xda83864d)
  const T8 := StateOf(0x876e46a6, 0xf24ce78c, 0x4d904ad8, 0x97ecc395)

  // ----- the key expansion

  /** Round key j of the words w is k. */
  ghost predicate KeyAt(w: seq<Column>, j: nat, k: State) {
    4 * j + 4 <= |w| && State(w[4 * j], w[4 * j + 1], w[4 * j + 2], w[4 * j + 3]) == k
  }

  /** The round key after k. */
  function NextKey(l: Layers, k: State, rcon: bv8): State {
    var a := AddColumn(k.c0, AddColumn(SubWord(l, RotWord(k.c3)), Column(rcon, 0, 0, 0)));
    var b := AddColumn(k.c1, a);
    var c := AddColumn(k.c2, b);
    State(a, b, c, AddColumn(k.c3, c))
  }

  lemma NextFour(l: Layers, w: seq<Column>, j: nat, n: nat, k: State, rcon: bv8)
    requires 1 <= j && n == 4 * j && StepStart(l, w, 4, n, Column(rcon, 0, 0, 0)) && KeyAt(w, j - 1, k)
    ensures KeyAt(w, j, NextKey(l, k, rcon))
  {
  }

  lemma KeyFollows(l: Layers, key: seq<bv8>, w: seq<Column>, j: nat, k: State, next: State)
    requires |key| == 16 && w == ExpandedWords(l, key, |w|) && 1 <= j <= 10 && 4 * j + 4 <= |w|
    requires KeyAt(w, j - 1, k) && NextKey(l, k, POWERS[j - 1]) == next
    ensures KeyAt(w, j, next)
  {
    PowersOfX(j - 1);
    StartOfStep(l, key, w, 4, j, 4 * j);
    NextFour(l, w, j, 4 * j, k, POWERS[j - 1]);
  }

  lemma Key0(w: seq<Column>)
    requires w == ExpandedWords(AES, KEY, 44)
    ensures KeyAt(w, 0, K0)
  {
    UserKeyWord(AES, KEY, 44, 0);
    UserKeyWord(AES, KEY, 44, 1);
    UserKeyWord(AES, KEY, 44, 2);
    UserKeyWord(AES, KEY, 44, 3);
  }

  lemma Key1(w: seq<Column>)
    requires w == ExpandedWords(AES, KEY, 44)
    ensures KeyAt(w, 1, K1)
  {
    Key0(w);
    assert NextKey(AES, K0, 0x01) == K1;
    KeyFollows(AES, KEY, w, 1, K0, K1);
  }

  lemma Key2(w: seq<Column>)
    requires w == ExpandedWords(AES, KEY, 44)
    ensures KeyAt(w, 2, K2)
  {
    Key1(w);
    assert NextKey(AES, K1, 0x02) == K2;
    KeyFollows(AES, KEY, w, 2, K1, K2);
  }

  lemma Key3(w: seq<Column>)
    requires w == ExpandedWords(AES, KEY, 44)
    ensures KeyAt(w, 3, K3)
  {
    Key2(w);
    assert NextKey(AES, K2, 0x04) == K3;
    KeyFollows(AES, KEY, w, 3, K2, K3);
  }

  lemma Key4(w: seq<Column>)
    requires w == ExpandedWords(AES, KEY, 44)
    ensures KeyAt(w, 4, K4)
  {
    Key3(w);
    assert NextKey(AES, K3, 0x08) == K4;
    KeyFollows(AES, KEY, w, 4, K3, K4);
  }

  lemma Key5(w: seq<Column>)
    requires w == ExpandedWords(AES, KEY, 44)
    ensures KeyAt(w, 5, K5)
  {
    Key4(w);
    assert NextKey(AES, K4, 0x10) == K5;
    KeyFollows(AES, KEY, w, 5, K4, K5);
  }

  lemma Key6(w: seq<Column>)
    requires w == ExpandedWords(AES, KEY, 44)
    ensures KeyAt(w, 6, K6)
  {
    Key5(w);
    assert NextKey(AES, K5, 0x20) == K6;
    KeyFollows(AES, KEY, w, 6, K5, K6);
  }

  lemma Key7(w: seq<Column>)
    requires w == ExpandedWords(AES, KEY, 44)
    ensures KeyAt(w, 7, K7)
  {
    Key6(w);
    assert NextKey(AES, K6, 0x40) == K7;
    KeyFollows(AES, KEY, w, 7, K6, K7);
  }

  lemma Key8(w: seq<Column>)
    requires w == ExpandedWords(AES, KEY, 44)
    ensures KeyAt(w, 8, K8)
  {
    Key7(w);
    assert NextKey(AES, K7, 0x80) == K8;
    KeyFollows(AES, KEY, w, 8, K7, K8);
  }

  lemma Key9(w: seq<Column>)
    requires w == ExpandedWords(AES, KEY, 44)
    ensures KeyAt(w, 9, K9)
  {
    Key8(w);
    assert NextKey(AES, K8, 0x1b) == K9;
    KeyFollows(AES, KEY, w, 9, K8, K9);
  }

  lemma Key10(w: seq<Column>)
    requires w == ExpandedWords(AES, KEY, 44)
    ensures KeyAt(w, 10, K10)
  {
    Key9(w);
    assert NextKey(AES, K9, 0x36) == K10;
    KeyFollows(AES, KEY, w, 10, K9, K10);
  }

  // ----- the rounds

  ghost predicate Example(keys: seq<State>) {
    keys == [K0, K1, K2, K3, K4, K5, K6, K7, K8, K9, K10]
  }

  lemma Shifted1()
    ensures ShiftRows(AES.SubBytes(S0)) == T0
  {
  }

  lemma Mixed1()
    ensures AddRoundKey(AES.MixColumns(T0), K1) == S1
  {
  }

  lemma Shifted2()
    ensures ShiftRows(AES.SubBytes(S1)) == T1
  {
  }

  lemma Mixed2()
    ensures AddRoundKey(AES.MixColumns(T1), K2) == S2
  {
  }

  lemma Shifted3()
    ensures ShiftRows(AES.SubBytes(S2)) == T2
  {
  }

  lemma Mixed3()
    ensures AddRoundKey(AES.MixColumns(T2), K3) == S3
  {
  }

  lemma Shifted4()
    ensures ShiftRows(AES.SubBytes(S3)) == T3
  {
  }

  lemma Mixed4()
    ensures AddRoundKey(AES.MixColumns(T3), K4) == S4
  {
  }

  lemma Shifted5()
    ensures ShiftRows(AES.SubBytes(S4)) == T4
  {
  }

  lemma Mixed5()
    ensures AddRoundKey(AES.MixColumns(T4), K5) == S5
  {
  }

  lemma Shifted6()
    ensures ShiftRows(AES.SubBytes(S5)) == T5
  {
  }

  lemma Mixed6()
    ensures AddRoundKey(AES.MixColumns(T5), K6) == S6
  {
  }

  lemma Shifted7()
    ensures ShiftRows(AES.SubBytes(S6)) == T6
  {
  }

  lemma Mixed7()
    ensures AddRoundKey(AES.MixColumns(T6), K7) == S7
  {
  }

  lemma Shifted8()
    ensures ShiftRows(AES.SubBytes(S7)) == T7
  {
  }

  lemma Mixed8()
    ensures AddRoundKey(AES.MixColumns(T7), K8) == S8
  {
  }

  lemma Shifted9()
    ensures ShiftRows(AES.SubBytes(S8)) == T8
  {
  }

  lemma Mixed9()
    ensures AddRoundKey(AES.MixColumns(T8), K9) == S9
  {
  }

  lemma State0(keys: seq<State>)
    requires Example(keys)
    ensures Rounds(AES, keys, 0, StateAt(PLAINTEXT, 0)) == S0
  {
  }

  lemma State1(keys: seq<State>)
    requires Example(keys)
    ensures Rounds(AES, keys, 1, StateAt(PLAINTEXT, 0)) == S1
  {
    State0(keys);
    Shifted1();
    Mixed1();
    NextRound(AES, keys, 0, StateAt(PLAINTEXT, 0), S0, S1);
  }

  lemma State2(keys: seq<State>)
    requires Example(keys)
    ensures Rounds(AES, keys, 2, StateAt(PLAINTEXT, 0)) == S2
  {
    State1(keys);
    Shifted2();
    Mixed2();
    NextRound(AES, keys, 1, StateAt(PLAINTEXT, 0), S1, S2);
  }

  lemma State3(keys: seq<State>)
    requires Example(keys)
    ensures Rounds(AES, keys, 3, StateAt(PLAINTEXT, 0)) == S3
  {
    State2(keys);
    Shifted3();
    Mixed3();
    NextRound(AES, keys, 2, StateAt(PLAINTEXT, 0), S2, S3);
  }

  lemma State4(keys: seq<State>)
    requires Example(keys)
    ensures Rounds(AES, keys, 4, StateAt(PLAINTEXT, 0)) == S4
  {
    State3(keys);
    Shifted4();
    Mixed4();
    NextRound(AES, keys, 3, StateAt(PLAINTEXT, 0), S3, S4);
  }

  lemma State5(keys: seq<State>)
    requires Example(keys)
    ensures Rounds(AES, keys, 5, StateAt(PLAINTEXT, 0)) == S5
  {
    State4(keys);
    Shifted5();
    Mixed5();
    NextRound(AES, keys, 4, StateAt(PLAINTEXT, 0), S4, S5);
  }

  lemma State6(keys: seq<State>)
    requires Example(keys)
    ensures Rounds(AES, keys, 6, StateAt(PLAINTEXT, 0)) == S6
  {
    State5(keys);
    Shifted6();
    Mixed6();
    NextRound(AES, keys, 5, StateAt(PLAINTEXT, 0), S5, S6);
  }

  lemma State7(keys: seq<State>)
    requires Example(keys)
    ensures Rounds(AES, keys, 7, StateAt(PLAINTEXT, 0)) == S7
  {
    State6(keys);
    Shifted7();
    Mixed7();
    NextRound(AES, keys, 6, StateAt(PLAINTEXT, 0), S6, S7);
  }

  lemma State8(keys: seq<State>)
    requires Example(keys)
    ensures Rounds(AES, keys, 8, StateAt(PLAINTEXT, 0)) == S8
  {
    State7(keys);
    Shifted8();
    Mixed8();
    NextRound(AES, keys, 7, StateAt(PLAINTEXT, 0), S7, S8);
  }

  lemma State9(keys: seq<State>)
    requires Example(keys)
    ensures Rounds(AES, keys, 9, StateAt(PLAINTEXT, 0)) == S9
  {
    State8(keys);
    Shifted9();
    Mixed9();
    NextRound(AES, keys, 8, StateAt(PLAINTEXT, 0), S8, S9);
  }

  lemma Final()
    ensures BlockOf(FinalRound(AES, S9, K10)) == CIPHERTEXT
  {
  }

  lemma CipherOfExample(keys: seq<State>)
    requires Example(keys)
    ensures BlockOf(Cipher(AES, keys, StateAt(PLAINTEXT, 0))) == CIPHERTEXT
  {
    State9(keys);
    Final();
    LastRound(AES, keys, 9, StateAt(PLAINTEXT, 0), S9, FinalRound(AES, S9, K10));
  }

  lemma KeysOfExample(w: seq<Column>)
    requires w == ExpandedWords(AES, KEY, 44)
    ensures KeyAt(w, 0, K0) && KeyAt(w, 1, K1) && KeyAt(w, 2, K2) && KeyAt(w, 3, K3) && KeyAt(w, 4, K4)
    ensures KeyAt(w, 5, K5) && KeyAt(w, 6, K6) && KeyAt(w, 7, K7) && KeyAt(w, 8, K8) && KeyAt(w, 9, K9) && KeyAt(w, 10, K10)
  {
    Key0(w);
    Key1(w);
    Key2(w);
    Key3(w);
    Key4(w);
    Key5(w);
    Key6(w);
    Key7(w);
    Key8(w);
    Key9(w);
    Key10(w);
  }

  lemma ElevenKeys(w: seq<Column>, keys: seq<State>, k0: State, k1: State, k2: State, k3: State, k4: State, k5: State,
                   k6: State, k7: State, k8: State, k9: State, k10: State)
    requires |w| == 44 && keys == GroupKeys(w, 10)
    requires KeyAt(w, 0, k0) && KeyAt(w, 1, k1) && KeyAt(w, 2, k2) && KeyAt(w, 3, k3) && KeyAt(w, 4, k4) && KeyAt(w, 5, k5)
    requires KeyAt(w, 6, k6) && KeyAt(w, 7, k7) && KeyAt(w, 8, k8) && KeyAt(w, 9, k9) && KeyAt(w, 10, k10)
    ensures keys == [k0, k1, k2, k3, k4, k5, k6, k7, k8, k9, k10]
  {
  }

  lemma ScheduleOfExample()
    ensures Example(KeySchedule(AES, KEY))
  {
    var w := ExpandedWords(AES, KEY, 44);
    KeysOfExample(w);
    ElevenKeys(w, KeySchedule(AES, KEY), K0, K1, K2, K3, K4, K5, K6, K7, K8, K9, K10);
  }

  /** A structure whose key was set to KEY for anything but decryption encrypts PLAINTEXT to CIPHERTEXT. */
  lemma EncryptionAnswer(aes: Aes, dir: int)
    requires aes.key.Length == 60 && aes.layers == AES && aes.Scheduled(KEY, dir) && dir != 1
    ensures aes.Ready() && aes.Encrypted(PLAINTEXT) == CIPHERTEXT
  {
    ScheduleOfExample();
    CipherOfExample(aes.Keys(10));
    assert aes.RoundsRun() == 10;
  }

  // ----- single words of the array

  lemma SameBytes(x: bv32, y: bv32)
    requires Bytes(x) == Bytes(y)
    ensures x == y
  {
  }

  /** Words 4 and 43 of appendix A.1. */
  lemma WordsAnswer(aes: Aes, dir: int)
    requires aes.key.Length == 60 && aes.layers == AES && aes.Scheduled(KEY, dir) && dir != 1
    ensures aes.key[4] == 0xa0fafe17 && aes.key[43] == 0xb6630ca6
  {
    var w := ExpandedWords(AES, KEY, 44);
    KeysOfExample(w);
    ScheduledWord(aes, KEY, dir, 4);
    ScheduledWord(aes, KEY, dir, 43);
    ExpandedWordsAt(AES, KEY, 44, 4);
    ExpandedWordsAt(AES, KEY, 44, 43);
    SameBytes(aes.key[4], 0xa0fafe17);
    SameBytes(aes.key[43], 0xb6630ca6);
  }
}
