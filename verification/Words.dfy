/** The four bytes of a 32-bit word, and the byte-order helpers of the cipher. */
module Words {
  import opened GaloisField

  /** One column of the cipher state, or one word of the key schedule, most significant byte first. */
  datatype Column = Column(b0: bv8, b1: bv8, b2: bv8, b3: bv8)

  function AddColumn(c: Column, k: Column): Column {
    Column(Add(c.b0, k.b0), Add(c.b1, k.b1), Add(c.b2, k.b2), Add(c.b3, k.b3))
  }

  /** GETBYTE(x, y), one function for each constant y. */
  function GetByte3(x: bv32): bv8 {
    (x >> 24) as bv8
  }

  function GetByte2(x: bv32): bv8 {
    ((x >> 16) & 0xff) as bv8
  }

  function GetByte1(x: bv32): bv8 {
    ((x >> 8) & 0xff) as bv8
  }

  function GetByte0(x: bv32): bv8 {
    (x & 0xff) as bv8
  }

  function Bytes(x: bv32): Column {
    Column(GetByte3(x), GetByte2(x), GetByte1(x), GetByte0(x))
  }

  /** The word with the given bytes; the inverse of Bytes. */
  function Pack(b0: bv8, b1: bv8, b2: bv8, b3: bv8): bv32 {
    (b0 as bv32 << 24) | (b1 as bv32 << 16) | (b2 as bv32 << 8) | b3 as bv32
  }

  function Xor(x: bv32, y: bv32): bv32 {
    x ^ y
  }

  /** The exclusive-or of four table entries. */
  function Xor4(p: bv32, q: bv32, r: bv32, s: bv32): bv32 {
    p ^ q ^ r ^ s
  }

  /** One byte of each word, the others masked off. */
  function SelectBytes(p: bv32, q: bv32, r: bv32, s: bv32): bv32 {
    (p & 0xff000000) ^ (q & 0x00ff0000) ^ (r & 0x0000ff00) ^ (s & 0x000000ff)
  }

  /** The 32-bit value a little-endian machine reads from four consecutive bytes. */
  function LoadWord(b0: bv8, b1: bv8, b2: bv8, b3: bv8): bv32 {
    b0 as bv32 | (b1 as bv32 << 8) | (b2 as bv32 << 16) | (b3 as bv32 << 24)
  }

  function RotateLeft16(x: bv32): bv32 {
    (x << 16) | (x >> 16)
  }

  function ByteReverseWord32(value: bv32): bv32 {
    RotateLeft16(((value & 0xFF00FF00) >> 8) | ((value & 0x00FF00FF) << 8))
  }

  lemma BytesXor(x: bv32, y: bv32)
    ensures Bytes(Xor(x, y)) == AddColumn(Bytes(x), Bytes(y))
  {
  }

  /** Reversing what was read little-endian gives the first byte the highest place. */
  lemma LoadThenReverse(b0: bv8, b1: bv8, b2: bv8, b3: bv8)
    ensures Bytes(ByteReverseWord32(LoadWord(b0, b1, b2, b3))) == Column(b0, b1, b2, b3)
  {
  }

  /** Storing a reversed word little-endian writes its highest byte first. */
  lemma ReverseThenStore(x: bv32)
    ensures GetByte0(ByteReverseWord32(x)) == GetByte3(x)
    ensures GetByte1(ByteReverseWord32(x)) == GetByte2(x)
    ensures GetByte2(ByteReverseWord32(x)) == GetByte1(x)
    ensures GetByte3(ByteReverseWord32(x)) == GetByte0(x)
  {
  }

  lemma BytesOfPack(b0: bv8, b1: bv8, b2: bv8, b3: bv8)
    ensures Bytes(Pack(b0, b1, b2, b3)) == Column(b0, b1, b2, b3)
  {
  }

  lemma Byte3OfXor(p: bv32, q: bv32, r: bv32, s: bv32)
    ensures GetByte3(Xor4(p, q, r, s)) == Add4(GetByte3(p), GetByte3(q), GetByte3(r), GetByte3(s))
  {
  }

  lemma Byte2OfXor(p: bv32, q: bv32, r: bv32, s: bv32)
    ensures GetByte2(Xor4(p, q, r, s)) == Add4(GetByte2(p), GetByte2(q), GetByte2(r), GetByte2(s))
  {
  }

  lemma Byte1OfXor(p: bv32, q: bv32, r: bv32, s: bv32)
    ensures GetByte1(Xor4(p, q, r, s)) == Add4(GetByte1(p), GetByte1(q), GetByte1(r), GetByte1(s))
  {
  }

  lemma Byte0OfXor(p: bv32, q: bv32, r: bv32, s: bv32)
    ensures GetByte0(Xor4(p, q, r, s)) == Add4(GetByte0(p), GetByte0(q), GetByte0(r), GetByte0(s))
  {
  }

  function ColumnSum(p: Column, q: Column, r: Column, s: Column): Column {
    Column(Add4(p.b0, q.b0, r.b0, s.b0), Add4(p.b1, q.b1, r.b1, s.b1),
           Add4(p.b2, q.b2, r.b2, s.b2), Add4(p.b3, q.b3, r.b3, s.b3))
  }

  lemma XorOfFour(p: bv32, q: bv32, r: bv32, s: bv32)
    ensures Bytes(Xor4(p, q, r, s)) == ColumnSum(Bytes(p), Bytes(q), Bytes(r), Bytes(s))
  {
    Byte3OfXor(p, q, r, s);
    Byte2OfXor(p, q, r, s);
    Byte1OfXor(p, q, r, s);
    Byte0OfXor(p, q, r, s);
  }
}
