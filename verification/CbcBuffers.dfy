/** Block after block through byte buffers: what a chaining loop makes of its input, its output and its
    register, also when input and output are parts of one buffer. */
module CbcBuffers {
  import opened AesRounds
  import opened Cbc

  // ----- blocks and bytes

  function BlockAt(b: seq<bv8>, off: nat): Block
    requires off + 16 <= |b|
  {
    b[off..off + 16]
  }

  /** The n blocks of b from off on. */
  function Blocks(b: seq<bv8>, off: nat, n: nat): (s: seq<Block>)
    requires off + 16 * n <= |b|
    ensures |s| == n
  {
    seq(n, i requires 0 <= i < n => BlockAt(b, off + 16 * i))
  }

  lemma BlocksOneMore(b: seq<bv8>, off: nat, k: nat)
    requires off + 16 * k + 16 <= |b|
    ensures Blocks(b, off, k + 1) == Blocks(b, off, k) + [BlockAt(b, off + 16 * k)]
  {
  }

  /** The bytes of blocks, one after the other. */
  function BytesOf(blocks: seq<Block>): (b: seq<bv8>)
    ensures |b| == 16 * |blocks|
  {
    if blocks == [] then []
    else
      var n := |blocks| - 1;
      BytesOf(blocks[..n]) + blocks[n]
  }

  lemma BytesOneMore(blocks: seq<Block>, s: Block)
    ensures BytesOf(blocks + [s]) == BytesOf(blocks) + s
  {
    assert (blocks + [s])[..|blocks|] == blocks;
  }

  lemma {:induction false} BytesOfBlocks(b: seq<bv8>, off: nat, n: nat)
    requires off + 16 * n <= |b|
    ensures BytesOf(Blocks(b, off, n)) == b[off..off + 16 * n]
  {
    if n > 0 {
      BytesOfBlocks(b, off, n - 1);
      BlocksOneMore(b, off, n - 1);
      BytesOneMore(Blocks(b, off, n - 1), BlockAt(b, off + 16 * (n - 1)));
    }
  }

  lemma {:induction false} BlocksOfBytes(blocks: seq<Block>)
    ensures Blocks(BytesOf(blocks), 0, |blocks|) == blocks
  {
    if blocks != [] {
      var k := |blocks| - 1;
      var rest := blocks[..k];
      BlocksOfBytes(rest);
      BlocksOfSum(BytesOf(rest), blocks[k], k);
      assert blocks == rest + [blocks[k]];
    }
  }

  lemma BlocksOfSum(p: seq<bv8>, s: Block, k: nat)
    requires |p| == 16 * k
    ensures Blocks(p + s, 0, k + 1) == Blocks(p, 0, k) + [s]
  {
    BlocksOneMore(p + s, 0, k);
    BlocksOfPrefix(p + s, k, p);
    assert BlockAt(p + s, 16 * k) == s;
  }

  lemma BlocksOfPrefix(b: seq<bv8>, n: nat, p: seq<bv8>)
    requires |p| == 16 * n <= |b| && b[..16 * n] == p
    ensures Blocks(b, 0, n) == Blocks(p, 0, n)
  {
    forall i: nat | i < n
      ensures BlockAt(b, 16 * i) == BlockAt(p, 16 * i)
    {
      assert b[..16 * n][16 * i..16 * i + 16] == b[16 * i..16 * i + 16];
    }
  }

  // ----- the loops as functions of the buffers

  /** Where the blocks lie; input and output may be parts of one shared buffer. */
  datatype Layout = Layout(shared: bool, outOff: nat, inOff: nat)
  {
    /** Writing n blocks in order never overtakes the reading: the output lies in another buffer, does
        not begin behind the start of the input, or begins behind its end. */
    predicate Apart(n: nat) {
      !shared || outOff <= inOff || inOff + 16 * n <= outOff
    }
  }

  /** The contents of both buffers and the register. */
  datatype Buffers = Buffers(input: seq<bv8>, output: seq<bv8>, reg: Block)

  ghost predicate Fits(l: Layout, b: Buffers, n: nat) {
    && l.outOff + 16 * n <= |b.output| && l.inOff + 16 * n <= |b.input|
    && (l.shared ==> b.input == b.output)
  }

  /** These bytes are written at off, and the register is set. */
  ghost function Write(l: Layout, b: Buffers, off: nat, bytes: seq<bv8>, reg: Block): (r: Buffers)
    requires off + |bytes| <= |b.output| && (l.shared ==> b.input == b.output)
    ensures |r.output| == |b.output| && |r.input| == |b.input| && (l.shared ==> r.input == r.output)
  {
    var output := Splice(b.output, off, bytes);
    Buffers(if l.shared then output else b.input, output, reg)
  }

  /** One pass of the loop of AesCbcEncrypt. */
  ghost function EncryptOne(e: Block -> Block, l: Layout, b: Buffers, k: nat): (r: Buffers)
    requires Fits(l, b, k + 1)
  {
    var c := e(XorBytes(b.reg, BlockAt(b.input, l.inOff + 16 * k)));
    Write(l, b, l.outOff + 16 * k, c, c)
  }

  /** The same, from the parts. */
  lemma EncryptOneIs(e: Block -> Block, l: Layout, b: Buffers, k: nat, r: Buffers)
    requires Fits(l, b, k + 1)
    requires r.reg == e(XorBytes(b.reg, BlockAt(b.input, l.inOff + 16 * k)))
    requires r.output == Splice(b.output, l.outOff + 16 * k, r.reg)
    requires r.input == if l.shared then r.output else b.input
    ensures r == EncryptOne(e, l, b, k)
  {
  }

  /** The same for every block and buffers; blocks that do not fit are not written. */
  ghost function EncryptStep(e: Block -> Block, l: Layout): (Buffers, nat) -> Buffers {
    (b: Buffers, k: nat) => if Fits(l, b, k + 1) then EncryptOne(e, l, b, k) else b
  }

  /** The first n passes of a loop. */
  ghost function Passes(step: (Buffers, nat) -> Buffers, b: Buffers, n: nat): Buffers {
    if n == 0 then b else step(Passes(step, b, n - 1), n - 1)
  }

  ghost function EncryptAll(e: Block -> Block, l: Layout, b: Buffers, n: nat): Buffers {
    Passes(EncryptStep(e, l), b, n)
  }

  /** One pass of the loop of AesCbcDecrypt; d gives what deciphering a block leaves where the output held
      stale. */
  ghost function DecryptOne(d: (Block, Block) -> Block, l: Layout, b: Buffers, k: nat): (r: Buffers)
    requires Fits(l, b, k + 1)
  {
    var block, stale := BlockAt(b.input, l.inOff + 16 * k), BlockAt(b.output, l.outOff + 16 * k);
    Write(l, b, l.outOff + 16 * k, XorBytes(d(block, stale), b.reg), block)
  }

  lemma DecryptOneIs(d: (Block, Block) -> Block, l: Layout, b: Buffers, k: nat, r: Buffers)
    requires Fits(l, b, k + 1)
    requires r.reg == BlockAt(b.input, l.inOff + 16 * k)
    requires r.output == Splice(b.output, l.outOff + 16 * k, XorBytes(d(r.reg, BlockAt(b.output, l.outOff + 16 * k)), b.reg))
    requires r.input == if l.shared then r.output else b.input
    ensures r == DecryptOne(d, l, b, k)
  {
  }

  ghost function DecryptStep(d: (Block, Block) -> Block, l: Layout): (Buffers, nat) -> Buffers {
    (b: Buffers, k: nat) => if Fits(l, b, k + 1) then DecryptOne(d, l, b, k) else b
  }

  ghost function DecryptAll(d: (Block, Block) -> Block, l: Layout, b: Buffers, n: nat): Buffers {
    Passes(DecryptStep(d, l), b, n)
  }

  // ----- what they compute as long as writing does not overtake reading

  lemma WriteMore(l: Layout, b: Buffers, off: nat, p: seq<bv8>, q: seq<bv8>, reg: Block, reg': Block)
    requires off + |p| + |q| <= |b.output| && (l.shared ==> b.input == b.output)
    ensures Write(l, Write(l, b, off, p, reg), off + |p|, q, reg') == Write(l, b, off, p + q, reg')
  {
    SpliceTwice(b.output, off, p, q);
  }

  lemma WriteNothing(l: Layout, b: Buffers)
    requires Fits(l, b, 0)
    ensures Write(l, b, l.outOff, [], b.reg) == b
  {
    assert Splice(b.output, l.outOff, []) == b.output;
  }

  /** Bytes elsewhere are not touched. */
  lemma SpliceElsewhere(b: seq<bv8>, off: nat, part: seq<bv8>, p: nat)
    requires off + |part| <= |b| && p + 16 <= |b| && (p + 16 <= off || off + |part| <= p)
    ensures BlockAt(Splice(b, off, part), p) == BlockAt(b, p)
  {
  }

  lemma ReadAfterWrite(l: Layout, b: Buffers, k: nat, bytes: seq<bv8>, reg: Block)
    requires Fits(l, b, k + 1) && l.Apart(k + 1) && |bytes| == 16 * k
    ensures BlockAt(Write(l, b, l.outOff, bytes, reg).input, l.inOff + 16 * k) == BlockAt(b.input, l.inOff + 16 * k)
  {
    if l.shared {
      SpliceElsewhere(b.output, l.outOff, bytes, l.inOff + 16 * k);
    }
  }

  /** The CBC chain of the n blocks of the input. */
  ghost function Chain(e: Block -> Block, l: Layout, b: Buffers, n: nat): (cipher: seq<Block>)
    requires Fits(l, b, n)
    ensures |cipher| == n
  {
    CbcEncrypt(e, b.reg, Blocks(b.input, l.inOff, n))
  }

  lemma ChainOneMore(e: Block -> Block, l: Layout, b: Buffers, k: nat)
    requires Fits(l, b, k + 1)
    ensures var done := Chain(e, l, b, k);
            Chain(e, l, b, k + 1) == done + [e(XorBytes(LastBlock(b.reg, done), BlockAt(b.input, l.inOff + 16 * k)))]
  {
    BlocksOneMore(b.input, l.inOff, k);
    EncryptOneMore(e, b.reg, Blocks(b.input, l.inOff, k), BlockAt(b.input, l.inOff + 16 * k));
  }

  /** The buffers with the chain of the first n blocks written and its last block in the register; nothing
      else is changed. */
  ghost function WithChain(e: Block -> Block, l: Layout, b: Buffers, n: nat): Buffers
    requires Fits(l, b, n)
  {
    var cipher := Chain(e, l, b, n);
    Write(l, b, l.outOff, BytesOf(cipher), LastBlock(b.reg, cipher))
  }

  lemma EncryptBehind(e: Block -> Block, l: Layout, b: Buffers, k: nat, done: seq<bv8>, reg: Block)
    requires Fits(l, b, k + 1) && l.Apart(k + 1) && |done| == 16 * k
    ensures var c := e(XorBytes(reg, BlockAt(b.input, l.inOff + 16 * k)));
            EncryptOne(e, l, Write(l, b, l.outOff, done, reg), k) == Write(l, b, l.outOff, done + c, c)
  {
    ReadAfterWrite(l, b, k, done, reg);
    var c := e(XorBytes(reg, BlockAt(b.input, l.inOff + 16 * k)));
    WriteMore(l, b, l.outOff, done, c, reg, c);
  }

  lemma WithChainNext(e: Block -> Block, l: Layout, b: Buffers, k: nat)
    requires Fits(l, b, k + 1) && l.Apart(k + 1)
    ensures EncryptStep(e, l)(WithChain(e, l, b, k), k) == WithChain(e, l, b, k + 1)
  {
    var cipher := Chain(e, l, b, k);
    EncryptBehind(e, l, b, k, BytesOf(cipher), LastBlock(b.reg, cipher));
    ChainOneMore(e, l, b, k);
    BytesOneMore(cipher, e(XorBytes(LastBlock(b.reg, cipher), BlockAt(b.input, l.inOff + 16 * k))));
  }

  lemma {:induction false} EncryptAllIsCbc(e: Block -> Block, l: Layout, b: Buffers, n: nat)
    requires Fits(l, b, n) && l.Apart(n)
    ensures EncryptAll(e, l, b, n) == WithChain(e, l, b, n)
  {
    if n == 0 {
      WriteNothing(l, b);
    } else {
      EncryptAllIsCbc(e, l, b, n - 1);
      WithChainNext(e, l, b, n - 1);
    }
  }

  /** What deciphering each block of the input leaves in place of the blocks the output held. */
  ghost function DecipheredInto(d: (Block, Block) -> Block, l: Layout, b: Buffers, n: nat): (blocks: seq<Block>)
    requires Fits(l, b, n)
    ensures |blocks| == n
  {
    seq(n, i requires 0 <= i < n => d(BlockAt(b.input, l.inOff + 16 * i), BlockAt(b.output, l.outOff + 16 * i)))
  }

  /** Those blocks with the chaining taken off. */
  ghost function Unchained(d: (Block, Block) -> Block, l: Layout, b: Buffers, n: nat): (plain: seq<Block>)
    requires Fits(l, b, n)
    ensures |plain| == n
  {
    Unchain(b.reg, Blocks(b.input, l.inOff, n), DecipheredInto(d, l, b, n))
  }

  /** The register after n blocks. */
  ghost function LastRead(l: Layout, b: Buffers, n: nat): Block
    requires Fits(l, b, n)
  {
    LastBlock(b.reg, Blocks(b.input, l.inOff, n))
  }

  lemma UnchainedOneMore(d: (Block, Block) -> Block, l: Layout, b: Buffers, k: nat)
    requires Fits(l, b, k + 1)
    ensures var block, stale := BlockAt(b.input, l.inOff + 16 * k), BlockAt(b.output, l.outOff + 16 * k);
            Unchained(d, l, b, k + 1) == Unchained(d, l, b, k) + [XorBytes(d(block, stale), LastRead(l, b, k))]
  {
    var block, stale := BlockAt(b.input, l.inOff + 16 * k), BlockAt(b.output, l.outOff + 16 * k);
    BlocksOneMore(b.input, l.inOff, k);
    assert DecipheredInto(d, l, b, k + 1) == DecipheredInto(d, l, b, k) + [d(block, stale)];
    UnchainOneMore(b.reg, Blocks(b.input, l.inOff, k), DecipheredInto(d, l, b, k), block, d(block, stale));
  }

  /** The buffers with the first n of them written and the last block of the input in the register. */
  ghost function WithUnchained(d: (Block, Block) -> Block, l: Layout, b: Buffers, n: nat): Buffers
    requires Fits(l, b, n)
  {
    Write(l, b, l.outOff, BytesOf(Unchained(d, l, b, n)), LastRead(l, b, n))
  }

  lemma DecryptBehind(d: (Block, Block) -> Block, l: Layout, b: Buffers, k: nat, done: seq<bv8>, reg: Block)
    requires Fits(l, b, k + 1) && l.Apart(k + 1) && |done| == 16 * k
    ensures var block, stale := BlockAt(b.input, l.inOff + 16 * k), BlockAt(b.output, l.outOff + 16 * k);
            DecryptOne(d, l, Write(l, b, l.outOff, done, reg), k)
            == Write(l, b, l.outOff, done + XorBytes(d(block, stale), reg), block)
  {
    var block, stale := BlockAt(b.input, l.inOff + 16 * k), BlockAt(b.output, l.outOff + 16 * k);
    ReadAfterWrite(l, b, k, done, reg);
    SpliceElsewhere(b.output, l.outOff, done, l.outOff + 16 * k);
    WriteMore(l, b, l.outOff, done, XorBytes(d(block, stale), reg), reg, block);
  }

  lemma LastReadNext(l: Layout, b: Buffers, k: nat)
    requires Fits(l, b, k + 1)
    ensures LastRead(l, b, k + 1) == BlockAt(b.input, l.inOff + 16 * k)
  {
    BlocksOneMore(b.input, l.inOff, k);
  }

  lemma WithUnchainedNext(d: (Block, Block) -> Block, l: Layout, b: Buffers, k: nat)
    requires Fits(l, b, k + 1) && l.Apart(k + 1)
    ensures DecryptStep(d, l)(WithUnchained(d, l, b, k), k) == WithUnchained(d, l, b, k + 1)
  {
    var plain, reg := Unchained(d, l, b, k), LastRead(l, b, k);
    var block, stale := BlockAt(b.input, l.inOff + 16 * k), BlockAt(b.output, l.outOff + 16 * k);
    DecryptBehind(d, l, b, k, BytesOf(plain), reg);
    UnchainedOneMore(d, l, b, k);
    LastReadNext(l, b, k);
    BytesOneMore(plain, XorBytes(d(block, stale), reg));
  }

  lemma {:induction false} DecryptAllUnchains(d: (Block, Block) -> Block, l: Layout, b: Buffers, n: nat)
    requires Fits(l, b, n) && l.Apart(n)
    ensures DecryptAll(d, l, b, n) == WithUnchained(d, l, b, n)
  {
    if n == 0 {
      WriteNothing(l, b);
    } else {
      DecryptAllUnchains(d, l, b, n - 1);
      WithUnchainedNext(d, l, b, n - 1);
    }
  }

  lemma SameDeciphered(d: (Block, Block) -> Block, d1: Block -> Block, l: Layout, b: Buffers, n: nat)
    requires Fits(l, b, n) && forall block, stale :: d(block, stale) == d1(block)
    ensures DecipheredInto(d, l, b, n) == Deciphered(d1, Blocks(b.input, l.inOff, n))
  {
  }

  /** When deciphering replaces what was there, that is CBC decryption. */
  lemma UnchainedIsDecrypted(d: (Block, Block) -> Block, d1: Block -> Block, l: Layout, b: Buffers, n: nat)
    requires Fits(l, b, n) && forall block, stale :: d(block, stale) == d1(block)
    ensures Unchained(d, l, b, n) == CbcDecrypt(d1, b.reg, Blocks(b.input, l.inOff, n))
  {
    SameDeciphered(d, d1, l, b, n);
    DecryptIsUnchain(d1, b.reg, Blocks(b.input, l.inOff, n));
  }

  // ----- from the start of one buffer to the start of another

  const FROM_START := Layout(false, 0, 0)

  /** The bytes of the chained blocks of data. */
  ghost function EncryptedBytes(e: Block -> Block, reg: Block, data: seq<bv8>): (cipher: seq<bv8>)
    requires |data| % 16 == 0
    ensures |cipher| == |data|
  {
    BytesOf(CbcEncrypt(e, reg, Blocks(data, 0, |data| / 16)))
  }

  ghost function DecryptedBytes(d: Block -> Block, reg: Block, cipher: seq<bv8>): (data: seq<bv8>)
    requires |cipher| % 16 == 0
    ensures |data| == |cipher|
  {
    BytesOf(CbcDecrypt(d, reg, Blocks(cipher, 0, |cipher| / 16)))
  }

  /** Each block of the ciphertext comes from the block of data at its place and the ciphertext block before. */
  lemma EncryptedBytesBlock(e: Block -> Block, reg: Block, data: seq<bv8>, i: nat)
    requires |data| % 16 == 0 && 16 * i + 16 <= |data|
    ensures var c := EncryptedBytes(e, reg, data);
            BlockAt(c, 16 * i) == e(XorBytes(if i == 0 then reg else BlockAt(c, 16 * (i - 1)), BlockAt(data, 16 * i)))
  {
    var n := |data| / 16;
    var blocks := Blocks(data, 0, n);
    var output := CbcEncrypt(e, reg, blocks);
    BlocksOfBytes(output);
    EncryptedBlock(e, reg, blocks, i);
    SameBlockAt(BytesOf(output), output, i);
    if i > 0 {
      SameBlockAt(BytesOf(output), output, i - 1);
    }
    SameBlockAt(data, blocks, i);
  }

  lemma SameBlockAt(b: seq<bv8>, blocks: seq<Block>, i: nat)
    requires 16 * |blocks| <= |b| && Blocks(b, 0, |blocks|) == blocks && i < |blocks|
    ensures BlockAt(b, 16 * i) == blocks[i]
  {
    assert Blocks(b, 0, |blocks|)[i] == BlockAt(b, 0 + 16 * i);
  }

  lemma DecryptedBytesAreData(e: Block -> Block, d: Block -> Block, reg: Block, data: seq<bv8>)
    requires |data| % 16 == 0 && forall b :: d(e(b)) == b
    ensures DecryptedBytes(d, reg, EncryptedBytes(e, reg, data)) == data
  {
    var n := |data| / 16;
    var blocks := Blocks(data, 0, n);
    BlocksOfBytes(CbcEncrypt(e, reg, blocks));
    DecryptUndoesEncrypt(e, d, reg, blocks);
    BytesOfBlocks(data, 0, n);
  }

  lemma WrittenAtStart(b: Buffers, bytes: seq<bv8>, reg: Block)
    requires |bytes| <= |b.output|
    ensures Write(FROM_START, b, 0, bytes, reg).output == bytes + b.output[|bytes|..]
  {
  }

  lemma EncryptedAtStart(e: Block -> Block, b: Buffers, data: seq<bv8>)
    requires |data| % 16 == 0 && Fits(FROM_START, b, |data| / 16) && b.input[..|data|] == data
    ensures EncryptAll(e, FROM_START, b, |data| / 16).output == EncryptedBytes(e, b.reg, data) + b.output[|data|..]
  {
    var n := |data| / 16;
    BlocksOfPrefix(b.input, n, data);
    EncryptAllIsCbc(e, FROM_START, b, n);
    WrittenAtStart(b, EncryptedBytes(e, b.reg, data), LastBlock(b.reg, Chain(e, FROM_START, b, n)));
  }

  lemma DecryptedAtStart(d: (Block, Block) -> Block, d1: Block -> Block, b: Buffers, cipher: seq<bv8>)
    requires |cipher| % 16 == 0 && Fits(FROM_START, b, |cipher| / 16) && b.input[..|cipher|] == cipher
    requires forall block, stale :: d(block, stale) == d1(block)
    ensures DecryptAll(d, FROM_START, b, |cipher| / 16).output == DecryptedBytes(d1, b.reg, cipher) + b.output[|cipher|..]
  {
    var n := |cipher| / 16;
    BlocksOfPrefix(b.input, n, cipher);
    DecryptAllUnchains(d, FROM_START, b, n);
    UnchainedIsDecrypted(d, d1, FROM_START, b, n);
    WrittenAtStart(b, DecryptedBytes(d1, b.reg, cipher), LastRead(FROM_START, b, n));
  }
}
