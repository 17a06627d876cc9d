/** FIPS 197 once more, byte by byte: the key expansion and the cipher as formulas for one byte, with
    indices computed where the other modules move words and columns. What a structure under an
    encryption schedule encrypts a block to is what these formulas give. */
module AesReference {
  import opened GaloisField
  import opened Words
  import opened Fips197
  import opened KeyExpansion
  import opened Tables
  import opened AesRounds
  import opened SboxReference
  import opened AesCipher

  // ----- the key expansion

  /** Byte j of a word, counted from the most significant one. */
  function ByteOf(x: bv32, j: nat): bv8
    requires j < 4
  {
    if j == 0 then (x >> 24) as bv8
    else if j == 1 then ((x >> 16) & 0xff) as bv8
    else if j == 2 then ((x >> 8) & 0xff) as bv8
    else (x & 0xff) as bv8
  }

  const POWERS: seq<bv8> := [0x01, 0x02, 0x04, 0x08, 0x10, 0x20, 0x40, 0x80, 0x1b, 0x36]

  function ByteOfColumn(c: Column, j: nat): bv8
    requires j < 4
  {
    if j == 0 then c.b0 else if j == 1 then c.b1 else if j == 2 then c.b2 else c.b3
  }

  lemma ByteOfWord(x: bv32, j: nat)
    requires j < 4
    ensures ByteOf(x, j) == ByteOfColumn(Bytes(x), j)
  {
    if j == 0 {
    } else if j == 1 {
    } else if j == 2 {
    } else {
    }
  }

  lemma WordOfKeys(words: seq<bv32>, w: seq<Column>, nr: nat, i: nat, r: nat)
    requires 4 * nr + 4 <= |words| && 4 * nr + 4 <= |w| && RoundKeys(words, nr) == GroupKeys(w, nr)
    requires r <= nr && 4 * r <= i < 4 * r + 4
    ensures Bytes(words[i]) == w[i]
  {
    assert RoundKey(words, r) == RoundKeys(words, nr)[r];
    assert GroupKeys(w, nr)[r] == State(w[4 * r], w[4 * r + 1], w[4 * r + 2], w[4 * r + 3]);
  }

  lemma ScheduledWord(aes: Aes, userKey: seq<bv8>, dir: int, i: nat)
    requires aes.key.Length == 60 && IsKeyLength(|userKey|) && aes.Scheduled(userKey, dir) && dir != AES_DECRYPTION
    requires i < 4 * Nr(userKey) + 4
    ensures i < 60 && Bytes(aes.key[i]) == ExpandedWord(aes.layers, userKey, i)
  {
    var n := 4 * Nr(userKey) + 4;
    ExpandedWordsAt(aes.layers, userKey, n, i);
    WordOfKeys(aes.key[..], ExpandedWords(aes.layers, userKey, n), Nr(userKey), i, i / 4);
  }

  lemma PowersOfX(n: nat)
    requires n < 10
    ensures PowerOfX(n) == POWERS[n]
  {
    RconEntry(n);
  }

  lemma StepsOfKey(key: seq<bv8>, nk: nat, i: nat)
    requires IsKeyLength(|key|) && nk == |key| / 4 && nk <= i < 4 * Nr(key) + 4
    ensures 1 <= i / nk <= 10
  {
    if nk == 4 {
    } else if nk == 6 {
    } else {
    }
  }

  lemma ByteOfSum(c: Column, d: Column, j: nat)
    requires j < 4
    ensures ByteOfColumn(AddColumn(c, d), j) == Add(ByteOfColumn(c, j), ByteOfColumn(d, j))
  {
    if j == 0 {
    } else if j == 1 {
    } else if j == 2 {
    } else {
    }
  }

  lemma ByteOfRotated(l: Layers, d: Column, j: nat)
    requires j < 4
    ensures ByteOfColumn(SubWord(l, RotWord(d)), j) == l.box(ByteOfColumn(d, (j + 1) % 4))
  {
    if j == 0 {
    } else if j == 1 {
    } else if j == 2 {
    } else {
    }
  }

  lemma ByteOfFirst(l: Layers, c: Column, d: Column, rcon: bv8, j: nat)
    requires j < 4
    ensures ByteOfColumn(AddColumn(c, AddColumn(SubWord(l, RotWord(d)), Column(rcon, 0, 0, 0))), j)
         == Add(ByteOfColumn(c, j), Add(l.box(ByteOfColumn(d, (j + 1) % 4)), if j == 0 then rcon else 0))
  {
    var g, r := SubWord(l, RotWord(d)), Column(rcon, 0, 0, 0);
    ByteOfSum(c, AddColumn(g, r), j);
    ByteOfSum(g, r, j);
    ByteOfRotated(l, d, j);
  }

  lemma FirstByte(l: Layers, key: seq<bv8>, nk: nat, i: nat, j: nat)
    requires IsKeyLength(|key|) && nk == |key| / 4 && nk <= i < 4 * Nr(key) + 4 && i % nk == 0 && j < 4
    requires 1 <= i / nk <= 10
    ensures ByteOfColumn(ExpandedWord(l, key, i), j)
         == Add(ByteOfColumn(ExpandedWord(l, key, i - nk), j),
                Add(l.box(ByteOfColumn(ExpandedWord(l, key, i - 1), (j + 1) % 4)), if j == 0 then POWERS[i / nk - 1] else 0))
  {
    var earlier, temp := ExpandedWord(l, key, i - nk), ExpandedWord(l, key, i - 1);
    RotWordStep(l, key, nk, i);
    PowersOfX(i / nk - 1);
    ByteOfFirst(l, earlier, temp, POWERS[i / nk - 1], j);
  }

  lemma MiddleByte(l: Layers, key: seq<bv8>, i: nat, j: nat)
    requires |key| == 32 && 8 <= i && i % 8 == 4 && j < 4
    ensures ByteOfColumn(ExpandedWord(l, key, i), j)
         == Add(ByteOfColumn(ExpandedWord(l, key, i - 8), j), l.box(ByteOfColumn(ExpandedWord(l, key, i - 1), j)))
  {
    var earlier, temp := ExpandedWord(l, key, i - 8), ExpandedWord(l, key, i - 1);
    SubWordStep(l, key, i);
    ByteOfSum(earlier, SubWord(l, temp), j);
  }

  lemma OtherByte(l: Layers, key: seq<bv8>, nk: nat, i: nat, j: nat)
    requires IsKeyLength(|key|) && nk == |key| / 4 && nk <= i && i % nk != 0 && (nk == 8 ==> i % nk != 4) && j < 4
    ensures ByteOfColumn(ExpandedWord(l, key, i), j)
         == Add(ByteOfColumn(ExpandedWord(l, key, i - nk), j), ByteOfColumn(ExpandedWord(l, key, i - 1), j))
  {
    var earlier, temp := ExpandedWord(l, key, i - nk), ExpandedWord(l, key, i - 1);
    PlainStep(l, key, nk, i);
    ByteOfSum(earlier, temp, j);
  }

  /** The bytes of a sequence of words, in order. */
  function BytesOf(words: seq<bv32>): (b: seq<bv8>)
    ensures |b| == 4 * |words|
  {
    seq(4 * |words|, p requires 0 <= p < 4 * |words| => ByteOf(words[p / 4], p % 4))
  }

  /** Byte j of word i of an expanded key b, from the key and the bytes of earlier words: section 5.2. */
  ghost predicate ByteExpands(box: bv8 -> bv8, b: seq<bv8>, key: seq<bv8>, i: nat, j: nat)
    requires |key| == 16 || |key| == 24 || |key| == 32
    requires 4 * i + 4 <= |b| && j < 4
  {
    var nk, p := |key| / 4, 4 * i + j;
    if i < nk then
      b[p] == key[p]
    else if i % nk == 0 then
      var next := 4 * (i - 1) + (j + 1) % 4;
      i / nk <= 10 && b[p] == Add(b[p - 4 * nk], Add(box(b[next]), if j == 0 then POWERS[i / nk - 1] else 0))
    else if nk == 8 && i % nk == 4 then
      b[p] == Add(b[p - 4 * nk], box(b[p - 4]))
    else
      b[p] == Add(b[p - 4 * nk], b[p - 4])
  }

  /** Byte j of word i of b is that of the schedule. */
  ghost predicate ByteIs(l: Layers, b: seq<bv8>, key: seq<bv8>, i: nat, j: nat)
    requires IsKeyLength(|key|)
  {
    4 * i + 4 <= |b| && j < 4 && b[4 * i + j] == ByteOfColumn(ExpandedWord(l, key, i), j)
  }

  lemma FirstExpands(l: Layers, b: seq<bv8>, key: seq<bv8>, nk: nat, i: nat, j: nat)
    requires IsKeyLength(|key|) && nk == |key| / 4 && nk <= i < 4 * Nr(key) + 4 && i % nk == 0
    requires ByteIs(l, b, key, i, j) && ByteIs(l, b, key, i - nk, j) && ByteIs(l, b, key, i - 1, (j + 1) % 4)
    ensures ByteExpands(l.box, b, key, i, j)
  {
    StepsOfKey(key, nk, i);
    FirstByte(l, key, nk, i, j);
    assert 4 * (i - nk) + j == 4 * i + j - 4 * nk;
  }

  lemma MiddleExpands(l: Layers, b: seq<bv8>, key: seq<bv8>, i: nat, j: nat)
    requires |key| == 32 && 8 <= i && i % 8 == 4
    requires ByteIs(l, b, key, i, j) && ByteIs(l, b, key, i - 8, j) && ByteIs(l, b, key, i - 1, j)
    ensures ByteExpands(l.box, b, key, i, j)
  {
    MiddleByte(l, key, i, j);
    assert 4 * (i - 1) + j == 4 * i + j - 4;
  }

  lemma OtherExpands(l: Layers, b: seq<bv8>, key: seq<bv8>, nk: nat, i: nat, j: nat)
    requires IsKeyLength(|key|) && nk == |key| / 4 && nk <= i && i % nk != 0 && (nk == 8 ==> i % nk != 4)
    requires ByteIs(l, b, key, i, j) && ByteIs(l, b, key, i - nk, j) && ByteIs(l, b, key, i - 1, j)
    ensures ByteExpands(l.box, b, key, i, j)
  {
    OtherByte(l, key, nk, i, j);
    assert 4 * (i - nk) + j == 4 * i + j - 4 * nk;
    assert 4 * (i - 1) + j == 4 * i + j - 4;
  }

  lemma UserKeyExpands(l: Layers, b: seq<bv8>, key: seq<bv8>, i: nat, j: nat)
    requires IsKeyLength(|key|) && i < |key| / 4 && ByteIs(l, b, key, i, j)
    ensures ByteExpands(l.box, b, key, i, j)
  {
  }

  lemma ScheduleExpands(l: Layers, b: seq<bv8>, key: seq<bv8>, i: nat, j: nat)
    requires IsKeyLength(|key|) && i < 4 * Nr(key) + 4 && j < 4
    requires forall m: nat, k: nat | m <= i && k < 4 :: ByteIs(l, b, key, m, k)
    ensures 4 * i + 4 <= |b| && ByteExpands(l.box, b, key, i, j)
  {
    var nk := |key| / 4;
    assert ByteIs(l, b, key, i, j);
    if i < nk {
      UserKeyExpands(l, b, key, i, j);
    } else if i % nk == 0 {
      FirstExpands(l, b, key, nk, i, j);
    } else if nk == 8 && i % nk == 4 {
      MiddleExpands(l, b, key, i, j);
    } else {
      OtherExpands(l, b, key, nk, i, j);
    }
  }

  lemma ScheduledByte(aes: Aes, userKey: seq<bv8>, dir: int, i: nat, j: nat)
    requires aes.key.Length == 60 && IsKeyLength(|userKey|) && aes.Scheduled(userKey, dir) && dir != AES_DECRYPTION
    requires i < 4 * Nr(userKey) + 4 && j < 4
    ensures ByteIs(aes.layers, BytesOf(aes.key[..]), userKey, i, j)
  {
    ScheduledWord(aes, userKey, dir, i);
    ByteOfWord(aes.key[i], j);
    assert (4 * i + j) / 4 == i && (4 * i + j) % 4 == j;
  }

  /** The key expansion on the bytes of the array of a structure whose key was set for anything but
      decryption. */
  lemma KeyIsExpanded(aes: Aes, userKey: seq<bv8>, dir: int, i: nat, j: nat)
    requires aes.key.Length == 60 && aes.layers == AES
    requires IsKeyLength(|userKey|) && aes.Scheduled(userKey, dir) && dir != 1
    requires i < |userKey| + 28 && j < 4
    ensures |userKey| == 16 || |userKey| == 24 || |userKey| == 32
    ensures aes.rounds == |userKey| / 4 + 6 && i < 60
    ensures ByteExpands(Sbox, BytesOf(aes.key[..]), userKey, i, j)
  {
    var b := BytesOf(aes.key[..]);
    forall m: nat, k: nat | m <= i && k < 4
      ensures ByteIs(aes.layers, b, userKey, m, k)
    {
      ScheduledByte(aes, userKey, dir, m, k);
    }
    ScheduleExpands(aes.layers, b, userKey, i, j);
  }

  // ----- the cipher

  /** {02}a + {03}b + c + d, by the product of section 4.2. */
  function Mixed(a: bv8, b: bv8, c: bv8, d: bv8): bv8 {
    Add(Add(Add(Multiply(0x02, a), Multiply(0x03, b)), c), d)
  }

  /** Byte r of column c of the state after the first round key was added to b and n full rounds were
      run under the expanded key w: section 5.1 on one byte. */
  function StateByte(box: bv8 -> bv8, mixed: (bv8, bv8, bv8, bv8) -> bv8, w: seq<bv8>, b: seq<bv8>, n: nat, c: nat, r: nat): bv8
    requires |b| == 16 && 16 * n + 16 <= |w| && c < 4 && r < 4
    decreases n, 1
  {
    if n == 0 then
      Add(b[4 * c + r], w[4 * c + r])
    else
      Add(mixed(MovedByte(box, mixed, w, b, n - 1, c, r), MovedByte(box, mixed, w, b, n - 1, c, (r + 1) % 4),
                MovedByte(box, mixed, w, b, n - 1, c, (r + 2) % 4), MovedByte(box, mixed, w, b, n - 1, c, (r + 3) % 4)),
          w[16 * n + 4 * c + r])
  }

  /** That byte after the substitution and the shift of the rows: row r comes from r columns further on. */
  function MovedByte(box: bv8 -> bv8, mixed: (bv8, bv8, bv8, bv8) -> bv8, w: seq<bv8>, b: seq<bv8>, n: nat, c: nat, r: nat): bv8
    requires |b| == 16 && 16 * n + 16 <= |w| && c < 4 && r < 4
    decreases n, 2
  {
    box(StateByte(box, mixed, w, b, n, (c + r) % 4, r))
  }

  /** The output after nr rounds, the last of which mixes no columns. */
  function CipherByte(box: bv8 -> bv8, mixed: (bv8, bv8, bv8, bv8) -> bv8, w: seq<bv8>, b: seq<bv8>, nr: nat, c: nat, r: nat): bv8
    requires 1 <= nr && |b| == 16 && 16 * nr + 16 <= |w| && c < 4 && r < 4
  {
    Add(MovedByte(box, mixed, w, b, nr - 1, c, r), w[16 * nr + 4 * c + r])
  }

  lemma TimesTwo(a: bv8)
    ensures Multiply(0x02, a) == Mul2(a)
  {
  }

  lemma TimesThree(a: bv8)
    ensures Multiply(0x03, a) == Mul3(a)
  {
  }

  function ColumnAt(s: State, c: nat): Column
    requires c < 4
  {
    if c == 0 then s.c0 else if c == 1 then s.c1 else if c == 2 then s.c2 else s.c3
  }

  lemma BlockAt(s: State, c: nat, r: nat)
    requires c < 4 && r < 4
    ensures BlockOf(s)[4 * c + r] == ByteOfColumn(ColumnAt(s, c), r)
  {
    if c == 0 {
      FourBytes(s.c0, r);
    } else if c == 1 {
      FourBytes(s.c1, r);
    } else if c == 2 {
      FourBytes(s.c2, r);
    } else {
      FourBytes(s.c3, r);
    }
  }

  lemma FourBytes(c: Column, r: nat)
    requires r < 4
    ensures [c.b0, c.b1, c.b2, c.b3][r] == ByteOfColumn(c, r)
  {
    if r == 0 {
    } else if r == 1 {
    } else if r == 2 {
    } else {
    }
  }

  /** Column c of the state when row r has moved left by r places. */
  function MovedColumn(s: State, c: nat): Column
    requires c < 4
  {
    Column(ColumnAt(s, c).b0, ColumnAt(s, (c + 1) % 4).b1, ColumnAt(s, (c + 2) % 4).b2, ColumnAt(s, (c + 3) % 4).b3)
  }

  lemma ColumnOfFour(f: Column -> Column, s: State, t: State, c: nat)
    requires c < 4
    requires t == State(f(Column(s.c0.b0, s.c1.b1, s.c2.b2, s.c3.b3)), f(Column(s.c1.b0, s.c2.b1, s.c3.b2, s.c0.b3)),
                        f(Column(s.c2.b0, s.c3.b1, s.c0.b2, s.c1.b3)), f(Column(s.c3.b0, s.c0.b1, s.c1.b2, s.c2.b3)))
    ensures ColumnAt(t, c) == f(MovedColumn(s, c))
  {
    if c == 0 {
    } else if c == 1 {
    } else if c == 2 {
    } else {
    }
  }

  lemma SubShiftColumn(l: Layers, s: State, c: nat)
    requires c < 4
    ensures ColumnAt(ShiftRows(l.SubBytes(s)), c) == l.SubColumn(MovedColumn(s, c))
  {
    ColumnOfFour((k: Column) => l.SubColumn(k), s, ShiftRows(l.SubBytes(s)), c);
  }

  lemma ByteOfMoved(s: State, c: nat, r: nat)
    requires c < 4 && r < 4
    ensures ByteOfColumn(MovedColumn(s, c), r) == ByteOfColumn(ColumnAt(s, (c + r) % 4), r)
  {
    if r == 0 {
    } else if r == 1 {
    } else if r == 2 {
    } else {
    }
  }

  lemma ByteOfSub(l: Layers, d: Column, r: nat)
    requires r < 4
    ensures ByteOfColumn(l.SubColumn(d), r) == l.box(ByteOfColumn(d, r))
  {
    if r == 0 {
    } else if r == 1 {
    } else if r == 2 {
    } else {
    }
  }

  /** Byte r of column c of the state after the substitution and the shift of the rows. */
  function SubShifted(l: Layers, s: State, c: nat, r: nat): bv8
    requires r < 4
  {
    l.box(ByteOfColumn(ColumnAt(s, (c + r) % 4), r))
  }

  lemma SubShiftByte(l: Layers, s: State, c: nat, r: nat)
    requires c < 4 && r < 4
    ensures ByteOfColumn(l.SubColumn(MovedColumn(s, c)), r) == SubShifted(l, s, c, r)
  {
    ByteOfSub(l, MovedColumn(s, c), r);
    ByteOfMoved(s, c, r);
  }

  lemma MixedRow(a: bv8, b: bv8, c: bv8, d: bv8)
    ensures MixRow(a, b, c, d) == Mixed(a, b, c, d)
  {
    TimesTwo(a);
    TimesThree(b);
  }

  lemma MixedRows(t: Column)
    ensures MixColumn(t) == CyclicColumn(Mixed, t)
  {
    CyclicRows(t);
    MixedRow(t.b0, t.b1, t.b2, t.b3);
    MixedRow(t.b1, t.b2, t.b3, t.b0);
    MixedRow(t.b2, t.b3, t.b0, t.b1);
    MixedRow(t.b3, t.b0, t.b1, t.b2);
  }

  /** Each byte is mixed from itself and the three below, in cyclic order. */
  function CyclicColumn(mixed: (bv8, bv8, bv8, bv8) -> bv8, t: Column): Column {
    Column(mixed(t.b0, t.b1, t.b2, t.b3), mixed(t.b1, t.b2, t.b3, t.b0),
           mixed(t.b2, t.b3, t.b0, t.b1), mixed(t.b3, t.b0, t.b1, t.b2))
  }

  lemma CyclicBytes(mixed: (bv8, bv8, bv8, bv8) -> bv8, t: Column, b0: bv8, b1: bv8, b2: bv8, b3: bv8)
    requires t == Column(b0, b1, b2, b3)
    ensures ByteOfColumn(CyclicColumn(mixed, t), 0) == mixed(b0, b1, b2, b3)
    ensures ByteOfColumn(CyclicColumn(mixed, t), 1) == mixed(b1, b2, b3, b0)
    ensures ByteOfColumn(CyclicColumn(mixed, t), 2) == mixed(b2, b3, b0, b1)
    ensures ByteOfColumn(CyclicColumn(mixed, t), 3) == mixed(b3, b0, b1, b2)
  {
  }

  lemma CyclicByte(mixed: (bv8, bv8, bv8, bv8) -> bv8, t: Column, r: nat)
    requires r < 4
    ensures ByteOfColumn(CyclicColumn(mixed, t), r)
         == mixed(ByteOfColumn(t, r), ByteOfColumn(t, (r + 1) % 4), ByteOfColumn(t, (r + 2) % 4), ByteOfColumn(t, (r + 3) % 4))
  {
    CyclicBytes(mixed, t, ByteOfColumn(t, 0), ByteOfColumn(t, 1), ByteOfColumn(t, 2), ByteOfColumn(t, 3));
    if r == 0 {
    } else if r == 1 {
    } else if r == 2 {
    } else {
    }
  }

  /** The layer mix works as mixed does on the bytes of a column. */
  ghost predicate Mixes(l: Layers, mixed: (bv8, bv8, bv8, bv8) -> bv8) {
    forall t {:trigger l.mix(t)} :: l.mix(t) == CyclicColumn(mixed, t)
  }

  lemma AesMixes()
    ensures Mixes(AES, Mixed)
  {
    forall t
      ensures AES.mix(t) == CyclicColumn(Mixed, t)
    {
      MixedRows(t);
    }
  }

  lemma AddedColumn(s: State, k: State, c: nat)
    requires c < 4
    ensures ColumnAt(AddRoundKey(s, k), c) == AddColumn(ColumnAt(s, c), ColumnAt(k, c))
  {
    if c == 0 {
    } else if c == 1 {
    } else if c == 2 {
    } else {
    }
  }

  lemma AddedByte(s: State, k: State, c: nat, r: nat)
    requires c < 4 && r < 4
    ensures ByteOfColumn(ColumnAt(AddRoundKey(s, k), c), r)
         == Add(ByteOfColumn(ColumnAt(s, c), r), ByteOfColumn(ColumnAt(k, c), r))
  {
    AddedColumn(s, k, c);
    ByteOfSum(ColumnAt(s, c), ColumnAt(k, c), r);
  }

  lemma MixedColumn(l: Layers, s: State, c: nat)
    requires c < 4
    ensures ColumnAt(l.MixColumns(s), c) == l.mix(ColumnAt(s, c))
  {
    if c == 0 {
    } else if c == 1 {
    } else if c == 2 {
    } else {
    }
  }

  lemma RoundByte(l: Layers, mixed: (bv8, bv8, bv8, bv8) -> bv8, s: State, k: State, c: nat, r: nat)
    requires c < 4 && r < 4 && Mixes(l, mixed)
    ensures ByteOfColumn(ColumnAt(Round(l, s, k), c), r)
         == Add(mixed(SubShifted(l, s, c, r), SubShifted(l, s, c, (r + 1) % 4),
                      SubShifted(l, s, c, (r + 2) % 4), SubShifted(l, s, c, (r + 3) % 4)),
                ByteOfColumn(ColumnAt(k, c), r))
  {
    var shifted := ShiftRows(l.SubBytes(s));
    SubShiftColumn(l, s, c);
    SubShiftByte(l, s, c, r);
    SubShiftByte(l, s, c, (r + 1) % 4);
    SubShiftByte(l, s, c, (r + 2) % 4);
    SubShiftByte(l, s, c, (r + 3) % 4);
    MixedColumn(l, shifted, c);
    CyclicByte(mixed, l.SubColumn(MovedColumn(s, c)), r);
    AddedByte(l.MixColumns(shifted), k, c, r);
  }

  lemma FinalByte(l: Layers, s: State, k: State, c: nat, r: nat)
    requires c < 4 && r < 4
    ensures ByteOfColumn(ColumnAt(FinalRound(l, s, k), c), r) == Add(SubShifted(l, s, c, r), ByteOfColumn(ColumnAt(k, c), r))
  {
    SubShiftColumn(l, s, c);
    SubShiftByte(l, s, c, r);
    AddedByte(ShiftRows(l.SubBytes(s)), k, c, r);
  }

  /** k is round key n of the expanded key w. */
  ghost predicate KeyIs(w: seq<bv8>, n: nat, k: State) {
    && 16 * n + 16 <= |w|
    && forall c: nat, r: nat {:trigger ByteOfColumn(ColumnAt(k, c), r)} | c < 4 && r < 4 ::
         ByteOfColumn(ColumnAt(k, c), r) == w[16 * n + 4 * c + r]
  }

  ghost predicate KeysAre(w: seq<bv8>, keys: seq<State>) {
    16 * |keys| <= |w| && forall n: nat | n < |keys| :: KeyIs(w, n, keys[n])
  }

  /** s holds the bytes the formula gives after n rounds. */
  ghost predicate StateIs(box: bv8 -> bv8, mixed: (bv8, bv8, bv8, bv8) -> bv8, w: seq<bv8>, b: seq<bv8>, n: nat, s: State)
    requires |b| == 16 && 16 * n + 16 <= |w|
  {
    forall c: nat, r: nat {:trigger ByteOfColumn(ColumnAt(s, c), r)} | c < 4 && r < 4 ::
      ByteOfColumn(ColumnAt(s, c), r) == StateByte(box, mixed, w, b, n, c, r)
  }

  lemma StartByte(w: seq<bv8>, b: seq<bv8>, k: State, c: nat, r: nat)
    requires |b| == 16 && KeyIs(w, 0, k) && c < 4 && r < 4
    ensures ByteOfColumn(ColumnAt(AddRoundKey(StateAt(b, 0), k), c), r) == Add(b[4 * c + r], w[4 * c + r])
  {
    BlockOfState(b);
    BlockAt(StateAt(b, 0), c, r);
    AddedByte(StateAt(b, 0), k, c, r);
  }

  lemma MovedIs(l: Layers, mixed: (bv8, bv8, bv8, bv8) -> bv8, w: seq<bv8>, b: seq<bv8>, n: nat, s: State, c: nat, r: nat)
    requires |b| == 16 && 16 * n + 16 <= |w| && StateIs(l.box, mixed, w, b, n, s) && c < 4 && r < 4
    ensures SubShifted(l, s, c, r) == MovedByte(l.box, mixed, w, b, n, c, r)
  {
  }

  lemma NextByte(l: Layers, mixed: (bv8, bv8, bv8, bv8) -> bv8, w: seq<bv8>, b: seq<bv8>, n: nat, s: State, k: State, c: nat, r: nat)
    requires Mixes(l, mixed) && |b| == 16 && KeyIs(w, n + 1, k) && StateIs(l.box, mixed, w, b, n, s) && c < 4 && r < 4
    ensures ByteOfColumn(ColumnAt(Round(l, s, k), c), r) == StateByte(l.box, mixed, w, b, n + 1, c, r)
  {
    RoundByte(l, mixed, s, k, c, r);
    MovedIs(l, mixed, w, b, n, s, c, r);
    MovedIs(l, mixed, w, b, n, s, c, (r + 1) % 4);
    MovedIs(l, mixed, w, b, n, s, c, (r + 2) % 4);
    MovedIs(l, mixed, w, b, n, s, c, (r + 3) % 4);
  }

  lemma NextState(l: Layers, mixed: (bv8, bv8, bv8, bv8) -> bv8, w: seq<bv8>, b: seq<bv8>, n: nat, s: State, k: State, t: State)
    requires Mixes(l, mixed) && |b| == 16 && KeyIs(w, n + 1, k) && StateIs(l.box, mixed, w, b, n, s) && t == Round(l, s, k)
    ensures StateIs(l.box, mixed, w, b, n + 1, t)
  {
    forall c: nat, r: nat | c < 4 && r < 4
      ensures ByteOfColumn(ColumnAt(t, c), r) == StateByte(l.box, mixed, w, b, n + 1, c, r)
    {
      NextByte(l, mixed, w, b, n, s, k, c, r);
    }
  }

  lemma StartState(box: bv8 -> bv8, mixed: (bv8, bv8, bv8, bv8) -> bv8, w: seq<bv8>, b: seq<bv8>, k: State, s: State)
    requires |b| == 16 && KeyIs(w, 0, k) && s == AddRoundKey(StateAt(b, 0), k)
    ensures StateIs(box, mixed, w, b, 0, s)
  {
    forall c: nat, r: nat | c < 4 && r < 4
      ensures ByteOfColumn(ColumnAt(s, c), r) == StateByte(box, mixed, w, b, 0, c, r)
    {
      StartByte(w, b, k, c, r);
    }
  }

  lemma OneMoreRound(l: Layers, mixed: (bv8, bv8, bv8, bv8) -> bv8, w: seq<bv8>, keys: seq<State>, n: nat, b: seq<bv8>, s: State)
    requires Mixes(l, mixed) && n + 1 < |keys| && KeyIs(w, n + 1, keys[n + 1]) && |b| == 16
    requires s == Rounds(l, keys, n, StateAt(b, 0)) && StateIs(l.box, mixed, w, b, n, s)
    ensures StateIs(l.box, mixed, w, b, n + 1, Rounds(l, keys, n + 1, StateAt(b, 0)))
  {
    var t := Round(l, s, keys[n + 1]);
    NextState(l, mixed, w, b, n, s, keys[n + 1], t);
    NextRound(l, keys, n, StateAt(b, 0), s, t);
  }

  lemma NoRound(l: Layers, mixed: (bv8, bv8, bv8, bv8) -> bv8, w: seq<bv8>, keys: seq<State>, b: seq<bv8>)
    requires keys != [] && KeyIs(w, 0, keys[0]) && |b| == 16
    ensures StateIs(l.box, mixed, w, b, 0, Rounds(l, keys, 0, StateAt(b, 0)))
  {
    StartState(l.box, mixed, w, b, keys[0], Rounds(l, keys, 0, StateAt(b, 0)));
  }

  lemma {:induction false} RoundsOfBytes(l: Layers, mixed: (bv8, bv8, bv8, bv8) -> bv8, w: seq<bv8>, keys: seq<State>, n: nat,
                                         b: seq<bv8>)
    requires Mixes(l, mixed) && KeysAre(w, keys) && n < |keys| && |b| == 16
    ensures StateIs(l.box, mixed, w, b, n, Rounds(l, keys, n, StateAt(b, 0)))
  {
    assert KeyIs(w, n, keys[n]);
    if n == 0 {
      NoRound(l, mixed, w, keys, b);
    } else {
      RoundsOfBytes(l, mixed, w, keys, n - 1, b);
      OneMoreRound(l, mixed, w, keys, n - 1, b, Rounds(l, keys, n - 1, StateAt(b, 0)));
    }
  }

  lemma LastByte(l: Layers, mixed: (bv8, bv8, bv8, bv8) -> bv8, w: seq<bv8>, b: seq<bv8>, nr: nat, s: State, k: State, c: nat, r: nat)
    requires 1 <= nr && |b| == 16 && KeyIs(w, nr, k) && StateIs(l.box, mixed, w, b, nr - 1, s) && c < 4 && r < 4
    ensures BlockOf(FinalRound(l, s, k))[4 * c + r] == CipherByte(l.box, mixed, w, b, nr, c, r)
  {
    FinalByte(l, s, k, c, r);
    BlockAt(FinalRound(l, s, k), c, r);
  }

  lemma CipherOfBytes(l: Layers, mixed: (bv8, bv8, bv8, bv8) -> bv8, w: seq<bv8>, keys: seq<State>, b: seq<bv8>, c: nat, r: nat)
    requires Mixes(l, mixed) && KeysAre(w, keys) && 2 <= |keys| && |b| == 16 && c < 4 && r < 4
    ensures BlockOf(Cipher(l, keys, StateAt(b, 0)))[4 * c + r] == CipherByte(l.box, mixed, w, b, |keys| - 1, c, r)
  {
    var s, k := Rounds(l, keys, |keys| - 2, StateAt(b, 0)), keys[|keys| - 1];
    assert KeyIs(w, |keys| - 1, k);
    RoundsOfBytes(l, mixed, w, keys, |keys| - 2, b);
    LastByte(l, mixed, w, b, |keys| - 1, s, k, c, r);
  }

  lemma ByteAt(words: seq<bv32>, i: nat, r: nat)
    requires i < |words| && r < 4
    ensures BytesOf(words)[4 * i + r] == ByteOf(words[i], r)
  {
    assert (4 * i + r) / 4 == i && (4 * i + r) % 4 == r;
  }

  lemma KeyColumn(words: seq<bv32>, n: nat, c: nat)
    requires 4 * n + 4 <= |words| && c < 4
    ensures ColumnAt(RoundKey(words, n), c) == Bytes(words[4 * n + c])
  {
  }

  lemma BytesOfKey(words: seq<bv32>, n: nat, k: State)
    requires 4 * n + 4 <= |words| && k == RoundKey(words, n)
    ensures KeyIs(BytesOf(words), n, k)
  {
    forall c: nat, r: nat | c < 4 && r < 4
      ensures ByteOfColumn(ColumnAt(k, c), r) == BytesOf(words)[16 * n + 4 * c + r]
    {
      KeyColumn(words, n, c);
      ByteOfWord(words[4 * n + c], r);
      ByteAt(words, 4 * n + c, r);
    }
  }

  lemma BytesOfKeys(words: seq<bv32>, nr: nat)
    requires 4 * nr + 4 <= |words|
    ensures KeysAre(BytesOf(words), RoundKeys(words, nr))
  {
    forall n: nat | n <= nr
      ensures KeyIs(BytesOf(words), n, RoundKeys(words, nr)[n])
    {
      BytesOfKey(words, n, RoundKeys(words, nr)[n]);
    }
  }

  /** Each byte AesEncrypt computes under the encryption schedule of a key is the one the formula gives
      under the expanded key in the array. */
  lemma EncryptedByte(aes: Aes, userKey: seq<bv8>, dir: int, b: seq<bv8>, c: nat, r: nat)
    requires aes.key.Length == 60 && aes.layers == AES
    requires IsKeyLength(|userKey|) && aes.Scheduled(userKey, dir) && dir != 1 && |b| == 16 && c < 4 && r < 4
    ensures aes.Ready()
    ensures aes.Encrypted(b)[4 * c + r] == CipherByte(Sbox, Mixed, BytesOf(aes.key[..]), b, |userKey| / 4 + 6, c, r)
  {
    var nr := Nr(userKey);
    assert nr == 10 || nr == 12 || nr == 14;
    assert aes.RoundsRun() == nr;
    AesMixes();
    BytesOfKeys(aes.key[..], nr);
    CipherOfBytes(AES, Mixed, BytesOf(aes.key[..]), aes.Keys(nr), b, c, r);
  }
}
