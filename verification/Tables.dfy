/** The lookup tables as one value, what the cipher computes from them, and the proof that with
    the tables of the source this is SubBytes and MixColumns of FIPS 197 and their inverses. */
module Tables {
  import opened GaloisField
  import opened Words
  import opened Fips197
  import opened AesTables

  datatype Tables = Tables(te0: bv8 -> bv32, te1: bv8 -> bv32, te2: bv8 -> bv32, te3: bv8 -> bv32, te4: bv8 -> bv32,
                           td0: bv8 -> bv32, td1: bv8 -> bv32, td2: bv8 -> bv32, td3: bv8 -> bv32, td4: bv8 -> bv32)
  {
    /** One column of a full round of AesEncrypt, without its round key. */
    function EncColumn(a: bv8, b: bv8, c: bv8, d: bv8): bv32 {
      Xor4(te0(a), te1(b), te2(c), te3(d))
    }

    /** One column of the last round of AesEncrypt, without its round key. */
    function EncLast(a: bv8, b: bv8, c: bv8, d: bv8): bv32 {
      SelectBytes(te4(a), te4(b), te4(c), te4(d))
    }

    function DecColumn(a: bv8, b: bv8, c: bv8, d: bv8): bv32 {
      Xor4(td0(a), td1(b), td2(c), td3(d))
    }

    function DecLast(a: bv8, b: bv8, c: bv8, d: bv8): bv32 {
      SelectBytes(td4(a), td4(b), td4(c), td4(d))
    }

    /** The transform the decryption schedule applies to a word: Td[k][Te[4][byte] & 0xff], summed. */
    function UnmixWord(x: bv32): bv32 {
      DecColumn(GetByte0(te4(GetByte3(x))), GetByte0(te4(GetByte2(x))), GetByte0(te4(GetByte1(x))), GetByte0(te4(GetByte0(x))))
    }

    ghost predicate FullRoundOk(l: Layers) {
      forall a, b, c, d {:trigger EncColumn(a, b, c, d)} :: Bytes(EncColumn(a, b, c, d)) == l.mix(l.SubColumn(Column(a, b, c, d)))
    }

    ghost predicate LastRoundOk(l: Layers) {
      forall a, b, c, d {:trigger EncLast(a, b, c, d)} :: Bytes(EncLast(a, b, c, d)) == l.SubColumn(Column(a, b, c, d))
    }

    ghost predicate InvFullRoundOk(l: Layers) {
      forall a, b, c, d {:trigger DecColumn(a, b, c, d)} :: Bytes(DecColumn(a, b, c, d)) == l.invMix(l.InvSubColumn(Column(a, b, c, d)))
    }

    ghost predicate InvLastRoundOk(l: Layers) {
      forall a, b, c, d {:trigger DecLast(a, b, c, d)} :: Bytes(DecLast(a, b, c, d)) == l.InvSubColumn(Column(a, b, c, d))
    }

    ghost predicate UnmixOk(l: Layers) {
      forall x {:trigger UnmixWord(x)} :: Bytes(UnmixWord(x)) == l.invMix(Bytes(x))
    }

    /** Looking up these tables is the same as applying the layers. */
    ghost predicate Implements(l: Layers) {
      FullRoundOk(l) && LastRoundOk(l) && InvFullRoundOk(l) && InvLastRoundOk(l) && UnmixOk(l)
    }
  }

  const STATIC_TABLES := Tables(Te0, Te1, Te2, Te3, Te4, Td0, Td1, Td2, Td3, Td4)

  /** The S-box and the inverse S-box, taken from Te[4] and Td[4]. */
  function Sbox(x: bv8): bv8 {
    GetByte0(Te4(x))
  }

  function InvSbox(x: bv8): bv8 {
    GetByte0(Td4(x))
  }

  const AES := Layers(Sbox, InvSbox, MixColumn, InvMixColumn)

  lemma AesInvertible()
    ensures AES.Invertible()
  {
    forall x
      ensures AES.invBox(AES.box(x)) == x
    {
      InvSboxUndoesSbox(x);
    }
    forall c
      ensures AES.invMix(AES.mix(c)) == c
    {
      InvMixColumnUndoes(c);
    }
    forall c, k
      ensures AES.invMix(AddColumn(c, k)) == AddColumn(AES.invMix(c), AES.invMix(k))
    {
      InvMixColumnAdd(c, k);
    }
  }

  lemma StaticTablesImplementAes()
    ensures STATIC_TABLES.Implements(AES)
  {
    StaticEncColumn();
    StaticEncLast();
    StaticDecColumn();
    StaticDecLast();
    StaticUnmixWord();
  }

  lemma StaticEncColumn()
    ensures STATIC_TABLES.FullRoundOk(AES)
  {
    forall a, b, c, d
      ensures Bytes(STATIC_TABLES.EncColumn(a, b, c, d)) == AES.mix(AES.SubColumn(Column(a, b, c, d)))
    {
      EncColumnIsMixSub(a, b, c, d);
    }
  }

  lemma StaticEncLast()
    ensures STATIC_TABLES.LastRoundOk(AES)
  {
    forall a, b, c, d
      ensures Bytes(STATIC_TABLES.EncLast(a, b, c, d)) == AES.SubColumn(Column(a, b, c, d))
    {
      EncLastIsSub(a, b, c, d);
    }
  }

  lemma StaticDecColumn()
    ensures STATIC_TABLES.InvFullRoundOk(AES)
  {
    forall a, b, c, d
      ensures Bytes(STATIC_TABLES.DecColumn(a, b, c, d)) == AES.invMix(AES.InvSubColumn(Column(a, b, c, d)))
    {
      DecColumnIsInvMixSub(a, b, c, d);
    }
  }

  lemma StaticDecLast()
    ensures STATIC_TABLES.InvLastRoundOk(AES)
  {
    forall a, b, c, d
      ensures Bytes(STATIC_TABLES.DecLast(a, b, c, d)) == AES.InvSubColumn(Column(a, b, c, d))
    {
      DecLastIsInvSub(a, b, c, d);
    }
  }

  lemma StaticUnmixWord()
    ensures STATIC_TABLES.UnmixOk(AES)
  {
    forall x
      ensures Bytes(STATIC_TABLES.UnmixWord(x)) == AES.invMix(Bytes(x))
    {
      UnmixWordIsInvMix(x);
    }
  }

  // ----- one column

  lemma EncColumnBytes(t: Tables, a: bv8, b: bv8, c: bv8, d: bv8)
    ensures Bytes(t.EncColumn(a, b, c, d)) == ColumnSum(Bytes(t.te0(a)), Bytes(t.te1(b)), Bytes(t.te2(c)), Bytes(t.te3(d)))
  {
    XorOfFour(t.te0(a), t.te1(b), t.te2(c), t.te3(d));
  }

  lemma DecColumnBytes(t: Tables, a: bv8, b: bv8, c: bv8, d: bv8)
    ensures Bytes(t.DecColumn(a, b, c, d)) == ColumnSum(Bytes(t.td0(a)), Bytes(t.td1(b)), Bytes(t.td2(c)), Bytes(t.td3(d)))
  {
    XorOfFour(t.td0(a), t.td1(b), t.td2(c), t.td3(d));
  }

  lemma EncLastBytes(t: Tables, a: bv8, b: bv8, c: bv8, d: bv8)
    ensures Bytes(t.EncLast(a, b, c, d))
         == Column(GetByte3(t.te4(a)), GetByte2(t.te4(b)), GetByte1(t.te4(c)), GetByte0(t.te4(d)))
  {
  }

  lemma DecLastBytes(t: Tables, a: bv8, b: bv8, c: bv8, d: bv8)
    ensures Bytes(t.DecLast(a, b, c, d))
         == Column(GetByte3(t.td4(a)), GetByte2(t.td4(b)), GetByte1(t.td4(c)), GetByte0(t.td4(d)))
  {
  }

  lemma EncColumnIsMixSub(a: bv8, b: bv8, c: bv8, d: bv8)
    ensures Bytes(STATIC_TABLES.EncColumn(a, b, c, d)) == MixColumn(Column(Sbox(a), Sbox(b), Sbox(c), Sbox(d)))
  {
    EncColumnBytes(STATIC_TABLES, a, b, c, d);
    Te0Entry(a);
    Te1Entry(b);
    Te2Entry(c);
    Te3Entry(d);
  }

  lemma EncLastIsSub(a: bv8, b: bv8, c: bv8, d: bv8)
    ensures Bytes(STATIC_TABLES.EncLast(a, b, c, d)) == Column(Sbox(a), Sbox(b), Sbox(c), Sbox(d))
  {
    EncLastBytes(STATIC_TABLES, a, b, c, d);
    Te4Entry(a);
    Te4Entry(b);
    Te4Entry(c);
    Te4Entry(d);
  }

  lemma DecColumnIsInvMixSub(a: bv8, b: bv8, c: bv8, d: bv8)
    ensures Bytes(STATIC_TABLES.DecColumn(a, b, c, d)) == InvMixColumn(Column(InvSbox(a), InvSbox(b), InvSbox(c), InvSbox(d)))
  {
    DecColumnBytes(STATIC_TABLES, a, b, c, d);
    Td0Entry(a);
    Td1Entry(b);
    Td2Entry(c);
    Td3Entry(d);
  }

  lemma DecLastIsInvSub(a: bv8, b: bv8, c: bv8, d: bv8)
    ensures Bytes(STATIC_TABLES.DecLast(a, b, c, d)) == Column(InvSbox(a), InvSbox(b), InvSbox(c), InvSbox(d))
  {
    DecLastBytes(STATIC_TABLES, a, b, c, d);
    Td4Entry(a);
    Td4Entry(b);
    Td4Entry(c);
    Td4Entry(d);
  }

  lemma UnmixWordIsInvMix(x: bv32)
    ensures Bytes(STATIC_TABLES.UnmixWord(x)) == InvMixColumn(Bytes(x))
  {
    var a, b, c, d := Sbox(GetByte3(x)), Sbox(GetByte2(x)), Sbox(GetByte1(x)), Sbox(GetByte0(x));
    InvSboxUndoesSbox(GetByte3(x));
    InvSboxUndoesSbox(GetByte2(x));
    InvSboxUndoesSbox(GetByte1(x));
    InvSboxUndoesSbox(GetByte0(x));
    DecColumnIsInvMixSub(a, b, c, d);
  }

  // ----- the entries of the source's tables, each by evaluation over its 256 indices

  lemma InvSboxUndoesSbox(x: bv8)
    ensures InvSbox(Sbox(x)) == x
  {
  }

  lemma Te0Word(x: bv8)
    ensures Te0(x) == Pack(Mul2(Sbox(x)), Sbox(x), Sbox(x), Mul3(Sbox(x)))
  {
  }

  lemma Te1Word(x: bv8)
    ensures Te1(x) == Pack(Mul3(Sbox(x)), Mul2(Sbox(x)), Sbox(x), Sbox(x))
  {
  }

  lemma Te2Word(x: bv8)
    ensures Te2(x) == Pack(Sbox(x), Mul3(Sbox(x)), Mul2(Sbox(x)), Sbox(x))
  {
  }

  lemma Te3Word(x: bv8)
    ensures Te3(x) == Pack(Sbox(x), Sbox(x), Mul3(Sbox(x)), Mul2(Sbox(x)))
  {
  }

  lemma Te4Word(x: bv8)
    ensures Te4(x) == Pack(Sbox(x), Sbox(x), Sbox(x), Sbox(x))
  {
  }

  lemma Td0Word(x: bv8)
    ensures Td0(x) == Pack(Mul14(InvSbox(x)), Mul9(InvSbox(x)), Mul13(InvSbox(x)), Mul11(InvSbox(x)))
  {
  }

  lemma Td1Word(x: bv8)
    ensures Td1(x) == Pack(Mul11(InvSbox(x)), Mul14(InvSbox(x)), Mul9(InvSbox(x)), Mul13(InvSbox(x)))
  {
  }

  lemma Td2Word(x: bv8)
    ensures Td2(x) == Pack(Mul13(InvSbox(x)), Mul11(InvSbox(x)), Mul14(InvSbox(x)), Mul9(InvSbox(x)))
  {
  }

  lemma Td3Word(x: bv8)
    ensures Td3(x) == Pack(Mul9(InvSbox(x)), Mul13(InvSbox(x)), Mul11(InvSbox(x)), Mul14(InvSbox(x)))
  {
  }

  lemma Td4Word(x: bv8)
    ensures Td4(x) == Pack(InvSbox(x), InvSbox(x), InvSbox(x), InvSbox(x))
  {
  }

  lemma Te0Entry(x: bv8)
    ensures Bytes(Te0(x)) == Column(Mul2(Sbox(x)), Sbox(x), Sbox(x), Mul3(Sbox(x)))
  {
    Te0Word(x);
    BytesOfPack(Mul2(Sbox(x)), Sbox(x), Sbox(x), Mul3(Sbox(x)));
  }

  lemma Te1Entry(x: bv8)
    ensures Bytes(Te1(x)) == Column(Mul3(Sbox(x)), Mul2(Sbox(x)), Sbox(x), Sbox(x))
  {
    Te1Word(x);
    BytesOfPack(Mul3(Sbox(x)), Mul2(Sbox(x)), Sbox(x), Sbox(x));
  }

  lemma Te2Entry(x: bv8)
    ensures Bytes(Te2(x)) == Column(Sbox(x), Mul3(Sbox(x)), Mul2(Sbox(x)), Sbox(x))
  {
    Te2Word(x);
    BytesOfPack(Sbox(x), Mul3(Sbox(x)), Mul2(Sbox(x)), Sbox(x));
  }

  lemma Te3Entry(x: bv8)
    ensures Bytes(Te3(x)) == Column(Sbox(x), Sbox(x), Mul3(Sbox(x)), Mul2(Sbox(x)))
  {
    Te3Word(x);
    BytesOfPack(Sbox(x), Sbox(x), Mul3(Sbox(x)), Mul2(Sbox(x)));
  }

  lemma Te4Entry(x: bv8)
    ensures Bytes(Te4(x)) == Column(Sbox(x), Sbox(x), Sbox(x), Sbox(x))
  {
    Te4Word(x);
    BytesOfPack(Sbox(x), Sbox(x), Sbox(x), Sbox(x));
  }

  lemma Td0Entry(x: bv8)
    ensures Bytes(Td0(x)) == Column(Mul14(InvSbox(x)), Mul9(InvSbox(x)), Mul13(InvSbox(x)), Mul11(InvSbox(x)))
  {
    Td0Word(x);
    BytesOfPack(Mul14(InvSbox(x)), Mul9(InvSbox(x)), Mul13(InvSbox(x)), Mul11(InvSbox(x)));
  }

  lemma Td1Entry(x: bv8)
    ensures Bytes(Td1(x)) == Column(Mul11(InvSbox(x)), Mul14(InvSbox(x)), Mul9(InvSbox(x)), Mul13(InvSbox(x)))
  {
    Td1Word(x);
    BytesOfPack(Mul11(InvSbox(x)), Mul14(InvSbox(x)), Mul9(InvSbox(x)), Mul13(InvSbox(x)));
  }

  lemma Td2Entry(x: bv8)
    ensures Bytes(Td2(x)) == Column(Mul13(InvSbox(x)), Mul11(InvSbox(x)), Mul14(InvSbox(x)), Mul9(InvSbox(x)))
  {
    Td2Word(x);
    BytesOfPack(Mul13(InvSbox(x)), Mul11(InvSbox(x)), Mul14(InvSbox(x)), Mul9(InvSbox(x)));
  }

  lemma Td3Entry(x: bv8)
    ensures Bytes(Td3(x)) == Column(Mul9(InvSbox(x)), Mul13(InvSbox(x)), Mul11(InvSbox(x)), Mul14(InvSbox(x)))
  {
    Td3Word(x);
    BytesOfPack(Mul9(InvSbox(x)), Mul13(InvSbox(x)), Mul11(InvSbox(x)), Mul14(InvSbox(x)));
  }

  lemma Td4Entry(x: bv8)
    ensures Bytes(Td4(x)) == Column(InvSbox(x), InvSbox(x), InvSbox(x), InvSbox(x))
  {
    Td4Word(x);
    BytesOfPack(InvSbox(x), InvSbox(x), InvSbox(x), InvSbox(x));
  }
}
