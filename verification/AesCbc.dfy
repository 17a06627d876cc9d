/** xorbuf, AesCbcEncrypt and AesCbcDecrypt over struct Aes. */
module AesCbc {
  import opened GaloisField
  import opened Words
  import opened Fips197
  import opened AesRounds
  import opened AesCipher
  import opened KeyExpansion
  import opened CbcBuffers
  import Cbc

  // ----- xorbuf

  lemma StoredXor(a0: bv8, a1: bv8, a2: bv8, a3: bv8, b0: bv8, b1: bv8, b2: bv8, b3: bv8)
    ensures var w := Xor(LoadWord(a0, a1, a2, a3), LoadWord(b0, b1, b2, b3));
            GetByte0(w) == Add(a0, b0) && GetByte1(w) == Add(a1, b1) && GetByte2(w) == Add(a2, b2) && GetByte3(w) == Add(a3, b3)
  {
    BytesXor(LoadWord(a0, a1, a2, a3), LoadWord(b0, b1, b2, b3));
    BytesOfLoad(a0, a1, a2, a3);
    BytesOfLoad(b0, b1, b2, b3);
  }

  lemma BytesOfLoad(b0: bv8, b1: bv8, b2: bv8, b3: bv8)
    ensures Bytes(LoadWord(b0, b1, b2, b3)) == Column(b3, b2, b1, b0)
  {
  }

  /** The first n bytes from off on are xored with the mask, the others are as in was. */
  ghost predicate XoredUpTo(b: seq<bv8>, was: seq<bv8>, off: nat, mask: seq<bv8>, maskOff: nat, n: nat) {
    && |b| == |was| && off + n <= |b| && maskOff + n <= |mask|
    && forall p: nat | p < |b| :: b[p] == if off <= p < off + n then Add(was[p], mask[maskOff + (p - off)]) else was[p]
  }

  lemma XoredAtEnd(b: seq<bv8>, was: seq<bv8>, off: nat, mask: seq<bv8>, maskOff: nat, n: nat)
    requires XoredUpTo(b, was, off, mask, maskOff, n)
    ensures b == Splice(was, off, Cbc.XorBytes(was[off..off + n], mask[maskOff..maskOff + n]))
  {
  }

  /** One word of XorWords. */
  method XorWord(r: array<bv8>, o: nat, a: array<bv8>, p: nat)
    requires r != a && o + 4 <= r.Length && p + 4 <= a.Length
    modifies r
    ensures r[o] == Add(old(r[o]), a[p]) && r[o + 1] == Add(old(r[o + 1]), a[p + 1])
    ensures r[o + 2] == Add(old(r[o + 2]), a[p + 2]) && r[o + 3] == Add(old(r[o + 3]), a[p + 3])
    ensures forall q: nat | q < r.Length && !(o <= q < o + 4) :: r[q] == old(r[q])
  {
    var w := Xor(LoadWord(r[o], r[o + 1], r[o + 2], r[o + 3]), LoadWord(a[p], a[p + 1], a[p + 2], a[p + 3]));
    StoredXor(r[o], r[o + 1], r[o + 2], r[o + 3], a[p], a[p + 1], a[p + 2], a[p + 3]);
    r[o] := GetByte0(w);
    r[o + 1] := GetByte1(w);
    r[o + 2] := GetByte2(w);
    r[o + 3] := GetByte3(w);
  }

  /** XorWords. */
  method XorWords(r: array<bv8>, off: nat, a: array<bv8>, maskOff: nat, n: nat)
    requires r != a && off + 4 * n <= r.Length && maskOff + 4 * n <= a.Length
    modifies r
    ensures XoredUpTo(r[..], old(r[..]), off, a[..], maskOff, 4 * n)
  {
    for i := 0 to n
      invariant XoredUpTo(r[..], old(r[..]), off, a[..], maskOff, 4 * i)
    {
      XorWord(r, off + 4 * i, a, maskOff + 4 * i);
    }
  }

  /** xorbuf. wordAligned says whether both addresses are multiples of the word size; the word loop
      and the byte loop have the same effect. */
  method XorBuf(buf: array<bv8>, off: nat, mask: array<bv8>, maskOff: nat, count: nat, wordAligned: bool)
    requires buf != mask && off + count <= buf.Length && maskOff + count <= mask.Length
    modifies buf
    ensures buf[..] == Splice(old(buf[..]), off, Cbc.XorBytes(old(buf[off..off + count]), mask[maskOff..maskOff + count]))
  {
    ghost var was := buf[..];
    if wordAligned && count % 4 == 0 {
      XorWords(buf, off, mask, maskOff, count / 4);
    } else {
      for i := 0 to count
        invariant XoredUpTo(buf[..], was, off, mask[..], maskOff, i)
      {
        buf[off + i] := Add(buf[off + i], mask[maskOff + i]);
      }
    }
    XoredAtEnd(buf[..], was, off, mask[..], maskOff, count);
    assert mask[..][maskOff..maskOff + count] == mask[maskOff..maskOff + count];
  }

  /** XMEMCPY of one block. */
  method CopyBlock(dst: array<bv8>, dstOff: nat, src: array<bv8>, srcOff: nat)
    requires dst != src && dstOff + 16 <= dst.Length && srcOff + 16 <= src.Length
    modifies dst
    ensures dst[..] == Splice(old(dst[..]), dstOff, src[srcOff..srcOff + 16])
  {
    forall i | 0 <= i < 16 {
      dst[dstOff + i] := src[srcOff + i];
    }
  }

  // ----- chaining

  /** The round keys the cipher uses, or none if the guard of AesEncrypt and AesDecrypt rejects the schedule. */
  datatype Schedule = NoSchedule | RoundKeysOf(l: Layers, keys: seq<State>)

  ghost function ScheduleOf(aes: Aes): (s: Schedule)
    requires aes.key.Length == 60
    reads aes, aes.key
    ensures s.RoundKeysOf? <==> aes.Ready()
    ensures s.RoundKeysOf? ==> 2 <= |s.keys|
  {
    if aes.Ready() then RoundKeysOf(aes.layers, aes.Keys(aes.RoundsRun())) else NoSchedule
  }

  function CipherBy(l: Layers, keys: seq<State>): Cbc.Block -> Cbc.Block
    requires 2 <= |keys|
  {
    (b: Cbc.Block) => BlockOf(Cipher(l, keys, StateAt(b, 0)))
  }

  function InvCipherBy(l: Layers, keys: seq<State>): Cbc.Block -> Cbc.Block
    requires 2 <= |keys|
  {
    (b: Cbc.Block) => BlockOf(EqInvCipher(l, keys, StateAt(b, 0)))
  }

  /** What AesEncrypt makes of a block in place. */
  ghost function Enciphered(s: Schedule, b: Cbc.Block): Cbc.Block {
    if s.RoundKeysOf? && 2 <= |s.keys| then CipherBy(s.l, s.keys)(b) else b
  }

  /** What AesDecrypt of a block leaves where the output held stale. */
  ghost function Deciphered(s: Schedule, block: Cbc.Block, stale: Cbc.Block): Cbc.Block {
    if s.RoundKeysOf? && 2 <= |s.keys| then InvCipherBy(s.l, s.keys)(block) else stale
  }

  ghost function InvCipherOf(s: Schedule): Cbc.Block -> Cbc.Block
    requires s.RoundKeysOf? && 2 <= |s.keys|
  {
    InvCipherBy(s.l, s.keys)
  }

  ghost function CipherOf(s: Schedule): Cbc.Block -> Cbc.Block {
    (b: Cbc.Block) => Enciphered(s, b)
  }

  ghost function DecipherOf(s: Schedule): (Cbc.Block, Cbc.Block) -> Cbc.Block {
    (block: Cbc.Block, stale: Cbc.Block) => Deciphered(s, block, stale)
  }

  ghost function Register(aes: Aes): Cbc.Block
    requires aes.reg.Length == 16
    reads aes.reg
  {
    aes.reg[..]
  }

  /** The buffers and the register at a moment. */
  ghost function Now(aes: Aes, output: array<bv8>, input: array<bv8>): Buffers
    requires aes.reg.Length == 16
    reads aes.reg, output, input
  {
    Buffers(input[..], output[..], Register(aes))
  }

  lemma SpliceWhole(b: seq<bv8>, part: seq<bv8>)
    requires |b| == |part|
    ensures Splice(b, 0, part) == part
  {
  }

  // The methods below take the block function and the step of the loop as parameters, and what these are
  // is said of Through, Through2 and Stepped alone, so that a proof unfolds the cipher only where it asks.

  function Through(e: Cbc.Block -> Cbc.Block, b: Cbc.Block): Cbc.Block {
    e(b)
  }

  function Through2(d: (Cbc.Block, Cbc.Block) -> Cbc.Block, block: Cbc.Block, stale: Cbc.Block): Cbc.Block {
    d(block, stale)
  }

  function Stepped(step: (Buffers, nat) -> Buffers, b: Buffers, k: nat): Buffers {
    step(b, k)
  }

  /** step is f. */
  ghost predicate IsStep(step: (Buffers, nat) -> Buffers, f: (Buffers, nat) -> Buffers) {
    forall b, k {:trigger Stepped(step, b, k)} :: Stepped(step, b, k) == f(b, k)
  }

  /** e is what AesEncrypt computes. */
  ghost predicate Enciphers(s: Schedule, e: Cbc.Block -> Cbc.Block) {
    forall b {:trigger Through(e, b)} :: Through(e, b) == Enciphered(s, b)
  }

  lemma EncryptedIs(aes: Aes, s: Schedule, e: Cbc.Block -> Cbc.Block, b: Cbc.Block)
    requires aes.key.Length == 60 && s == ScheduleOf(aes) && Enciphers(s, e)
    ensures e(b) == if aes.Ready() then aes.Encrypted(b) else b
  {
    assert e(b) == Through(e, b);
  }

  /** AesEncrypt of the register in place: with a schedule e is applied, without one nothing is written. */
  method EncryptInPlace(aes: Aes, ghost s: Schedule, ghost e: Cbc.Block -> Cbc.Block, ghost b: Cbc.Block)
    requires aes.Valid() && s == ScheduleOf(aes) && Enciphers(s, e) && aes.reg[0..16] == b
    modifies aes.reg
    ensures aes.reg[..] == if aes.Ready() then Splice(old(aes.reg[..]), 0, e(b)) else old(aes.reg[..])
    ensures !aes.Ready() ==> e(b) == b
  {
    EncryptedIs(aes, s, e, b);
    aes.Encrypt(aes.reg, 0, aes.reg, 0);
  }

  method EncryptRegister(aes: Aes, ghost s: Schedule, ghost e: Cbc.Block -> Cbc.Block)
    requires aes.Valid() && s == ScheduleOf(aes) && Enciphers(s, e)
    modifies aes.reg
    ensures aes.reg[..] == e(old(aes.reg[..]))
  {
    ghost var b := aes.reg[..];
    assert aes.reg[0..16] == b;
    EncryptInPlace(aes, s, e, b);
    SpliceWhole(b, e(b));
  }

  /** xorbuf of the register with one block of the input. */
  method XorRegister(reg: array<bv8>, input: array<bv8>, off: nat, wordAligned: bool)
    requires reg.Length == 16 && input != reg && off + 16 <= input.Length
    modifies reg
    ensures reg[..] == Cbc.XorBytes(old(reg[..]), BlockAt(input[..], off))
  {
    assert reg[0..16] == reg[..] && BlockAt(input[..], off) == input[off..off + 16];
    SpliceWhole(reg[..], Cbc.XorBytes(reg[..], input[off..off + 16]));
    XorBuf(reg, 0, input, off, 16, wordAligned);
  }

  /** XMEMCPY of the register into the output. */
  method CopyRegister(output: array<bv8>, off: nat, reg: array<bv8>)
    requires reg.Length == 16 && output != reg && off + 16 <= output.Length
    modifies output
    ensures output[..] == Splice(old(output[..]), off, reg[..])
  {
    assert reg[0..16] == reg[..];
    CopyBlock(output, off, reg, 0);
  }

  /** The loop body of AesCbcEncrypt for block k. */
  method EncryptBlock(aes: Aes, output: array<bv8>, input: array<bv8>, l: Layout, k: nat, wordAligned: bool,
                      ghost s: Schedule, ghost e: Cbc.Block -> Cbc.Block)
    requires aes.Valid() && s == ScheduleOf(aes) && Enciphers(s, e)
    requires output != aes.reg && input != aes.reg && l.shared == (output == input)
    requires l.outOff + 16 * k + 16 <= output.Length && l.inOff + 16 * k + 16 <= input.Length
    modifies output, aes.reg
    ensures Now(aes, output, input) == EncryptOne(e, l, old(Now(aes, output, input)), k)
  {
    XorRegister(aes.reg, input, l.inOff + 16 * k, wordAligned);
    EncryptRegister(aes, s, e);
    CopyRegister(output, l.outOff + 16 * k, aes.reg);
    EncryptOneIs(e, l, old(Now(aes, output, input)), k, Now(aes, output, input));
  }

  /** The loop body as one step. */
  method EncryptPass(aes: Aes, output: array<bv8>, input: array<bv8>, l: Layout, k: nat, wordAligned: bool,
                     ghost s: Schedule, ghost e: Cbc.Block -> Cbc.Block, ghost step: (Buffers, nat) -> Buffers)
    requires aes.Valid() && s == ScheduleOf(aes) && Enciphers(s, e) && IsStep(step, EncryptStep(e, l))
    requires output != aes.reg && input != aes.reg && l.shared == (output == input)
    requires l.outOff + 16 * k + 16 <= output.Length && l.inOff + 16 * k + 16 <= input.Length
    modifies output, aes.reg
    ensures Now(aes, output, input) == step(old(Now(aes, output, input)), k)
  {
    ghost var next := Stepped(step, Now(aes, output, input), k);
    EncryptBlock(aes, output, input, l, k, wordAligned, s, e);
  }

  /** XMEMCPY of one block into the register or the saved block. */
  method SaveBlock(dst: array<bv8>, src: array<bv8>, off: nat)
    requires dst != src && dst.Length == 16 && off + 16 <= src.Length
    modifies dst
    ensures dst[..] == BlockAt(src[..], off)
  {
    SpliceWhole(dst[..], src[off..off + 16]);
    CopyBlock(dst, 0, src, off);
  }

  /** d is what AesDecrypt leaves. */
  ghost predicate Deciphers(s: Schedule, d: (Cbc.Block, Cbc.Block) -> Cbc.Block) {
    forall block, stale {:trigger Through2(d, block, stale)} :: Through2(d, block, stale) == Deciphered(s, block, stale)
  }

  lemma DecryptedIs(aes: Aes, s: Schedule, d: (Cbc.Block, Cbc.Block) -> Cbc.Block, b: Cbc.Block, stale: Cbc.Block)
    requires aes.key.Length == 60 && s == ScheduleOf(aes) && Deciphers(s, d)
    ensures d(b, stale) == if aes.Ready() then aes.Decrypted(b) else stale
  {
    assert d(b, stale) == Through2(d, b, stale);
  }

  /** AesDecrypt of the saved block into the output: with a schedule d is applied, without one nothing is
      written. */
  method DecryptSaved(aes: Aes, output: array<bv8>, off: nat, ghost s: Schedule, ghost d: (Cbc.Block, Cbc.Block) -> Cbc.Block,
                      ghost b: Cbc.Block, ghost stale: Cbc.Block)
    requires aes.Valid() && s == ScheduleOf(aes) && Deciphers(s, d) && output != aes.tmp && off + 16 <= output.Length
    requires aes.tmp[0..16] == b
    modifies output
    ensures output[..] == if aes.Ready() then Splice(old(output[..]), off, d(b, stale)) else old(output[..])
    ensures !aes.Ready() ==> d(b, stale) == stale
  {
    DecryptedIs(aes, s, d, b, stale);
    aes.Decrypt(aes.tmp, 0, output, off);
  }

  method DecryptTmp(aes: Aes, output: array<bv8>, off: nat, ghost s: Schedule, ghost d: (Cbc.Block, Cbc.Block) -> Cbc.Block)
    requires aes.Valid() && s == ScheduleOf(aes) && Deciphers(s, d) && output != aes.tmp && off + 16 <= output.Length
    modifies output
    ensures output[..] == Splice(old(output[..]), off, d(aes.tmp[..], BlockAt(old(output[..]), off)))
  {
    assert aes.tmp[0..16] == aes.tmp[..];
    SpliceSame(output[..], off);
    DecryptSaved(aes, output, off, s, d, aes.tmp[..], BlockAt(output[..], off));
  }

  lemma SpliceSame(b: seq<bv8>, off: nat)
    requires off + 16 <= |b|
    ensures Splice(b, off, BlockAt(b, off)) == b
  {
  }

  /** xorbuf of one block of the output with the register. */
  method XorBlock(output: array<bv8>, off: nat, reg: array<bv8>, wordAligned: bool, ghost was: seq<bv8>, ghost s: Cbc.Block)
    requires output != reg && off + 16 <= output.Length && reg.Length == 16 && |was| == output.Length
    requires output[..] == Splice(was, off, s)
    modifies output
    ensures output[..] == Splice(was, off, Cbc.XorBytes(s, reg[..]))
  {
    assert output[off..off + 16] == s && reg[0..16] == reg[..];
    XorBuf(output, off, reg, 0, 16, wordAligned);
    SpliceOver(was, off, s, Cbc.XorBytes(s, reg[..]));
  }

  lemma SpliceOver(b: seq<bv8>, off: nat, p: seq<bv8>, q: seq<bv8>)
    requires |p| == |q| && off + |p| <= |b|
    ensures Splice(Splice(b, off, p), off, q) == Splice(b, off, q)
  {
  }

  /** The loop body of AesCbcDecrypt for block k. */
  method DecryptBlock(aes: Aes, output: array<bv8>, input: array<bv8>, l: Layout, k: nat, wordAligned: bool,
                      ghost s: Schedule, ghost d: (Cbc.Block, Cbc.Block) -> Cbc.Block)
    requires aes.Valid() && s == ScheduleOf(aes) && Deciphers(s, d) && l.shared == (output == input)
    requires output != aes.reg && output != aes.tmp && input != aes.reg && input != aes.tmp
    requires l.outOff + 16 * k + 16 <= output.Length && l.inOff + 16 * k + 16 <= input.Length
    modifies output, aes.reg, aes.tmp
    ensures Now(aes, output, input) == DecryptOne(d, l, old(Now(aes, output, input)), k)
  {
    var off := l.outOff + 16 * k;
    SaveBlock(aes.tmp, input, l.inOff + 16 * k);
    DecryptTmp(aes, output, off, s, d);
    XorBlock(output, off, aes.reg, wordAligned, old(output[..]), d(aes.tmp[..], BlockAt(old(output[..]), off)));
    SaveBlock(aes.reg, aes.tmp, 0);
    assert BlockAt(aes.tmp[..], 0) == aes.tmp[..];
    DecryptOneIs(d, l, old(Now(aes, output, input)), k, Now(aes, output, input));
  }

  /** The loop body as one step. */
  method DecryptPass(aes: Aes, output: array<bv8>, input: array<bv8>, l: Layout, k: nat, wordAligned: bool,
                     ghost s: Schedule, ghost d: (Cbc.Block, Cbc.Block) -> Cbc.Block, ghost step: (Buffers, nat) -> Buffers)
    requires aes.Valid() && s == ScheduleOf(aes) && Deciphers(s, d) && IsStep(step, DecryptStep(d, l)) && l.shared == (output == input)
    requires output != aes.reg && output != aes.tmp && input != aes.reg && input != aes.tmp
    requires l.outOff + 16 * k + 16 <= output.Length && l.inOff + 16 * k + 16 <= input.Length
    modifies output, aes.reg, aes.tmp
    ensures Now(aes, output, input) == step(old(Now(aes, output, input)), k)
  {
    ghost var next := Stepped(step, Now(aes, output, input), k);
    DecryptBlock(aes, output, input, l, k, wordAligned, s, d);
  }

  /** The loop of AesCbcEncrypt. */
  method EncryptBlocks(aes: Aes, output: array<bv8>, input: array<bv8>, l: Layout, blocks: nat, wordAligned: bool,
                       ghost s: Schedule, ghost e: Cbc.Block -> Cbc.Block, ghost step: (Buffers, nat) -> Buffers)
    requires aes.Valid() && s == ScheduleOf(aes) && Enciphers(s, e) && IsStep(step, EncryptStep(e, l))
    requires output != aes.reg && input != aes.reg && l.shared == (output == input)
    requires l.outOff + 16 * blocks <= output.Length && l.inOff + 16 * blocks <= input.Length
    modifies output, aes.reg
    ensures Now(aes, output, input) == Passes(step, old(Now(aes, output, input)), blocks)
  {
    ghost var start := Now(aes, output, input);
    var i := 0;
    while i < blocks
      invariant 0 <= i <= blocks && s == ScheduleOf(aes)
      invariant Now(aes, output, input) == Passes(step, start, i)
    {
      EncryptPass(aes, output, input, l, i, wordAligned, s, e, step);
      i := i + 1;
    }
  }

  /** AesCbcEncrypt: the buffers and the register are those after encrypting block by block, wherever the
      output lies. As long as writing does not overtake reading, the output holds the chained ciphertext of
      the blocks the input held at the call, and the register is left at its last block. Without a schedule
      the blocks are only chained. */
  method CbcEncrypt(aes: Aes, output: array<bv8>, outOff: nat, input: array<bv8>, inOff: nat, sz: nat, wordAligned: bool)
      returns (code: int)
    requires aes.Valid()
    requires output != aes.reg && input != aes.reg
    requires outOff + sz <= output.Length && inOff + sz <= input.Length
    modifies output, aes.reg
    ensures code == 0
    ensures var l, start := Layout(output == input, outOff, inOff), old(Now(aes, output, input));
            var e := CipherOf(old(ScheduleOf(aes)));
            && Now(aes, output, input) == EncryptAll(e, l, start, sz / 16)
            && (l.Apart(sz / 16) ==> Now(aes, output, input) == WithChain(e, l, start, sz / 16))
  {
    var blocks, l := sz / 16, Layout(output == input, outOff, inOff);
    ghost var s, start := ScheduleOf(aes), Now(aes, output, input);
    ghost var e := CipherOf(s);
    EncryptBlocks(aes, output, input, l, blocks, wordAligned, s, e, EncryptStep(e, l));
    if l.Apart(blocks) {
      EncryptAllIsCbc(e, l, start, blocks);
    }
    code := 0;
  }

  /** The loop of AesCbcDecrypt. */
  method DecryptBlocks(aes: Aes, output: array<bv8>, input: array<bv8>, l: Layout, blocks: nat, wordAligned: bool,
                       ghost s: Schedule, ghost d: (Cbc.Block, Cbc.Block) -> Cbc.Block, ghost step: (Buffers, nat) -> Buffers)
    requires aes.Valid() && s == ScheduleOf(aes) && Deciphers(s, d) && IsStep(step, DecryptStep(d, l)) && l.shared == (output == input)
    requires output != aes.reg && output != aes.tmp && input != aes.reg && input != aes.tmp
    requires l.outOff + 16 * blocks <= output.Length && l.inOff + 16 * blocks <= input.Length
    modifies output, aes.reg, aes.tmp
    ensures Now(aes, output, input) == Passes(step, old(Now(aes, output, input)), blocks)
  {
    ghost var start := Now(aes, output, input);
    var i := 0;
    while i < blocks
      invariant 0 <= i <= blocks && s == ScheduleOf(aes)
      invariant Now(aes, output, input) == Passes(step, start, i)
    {
      DecryptPass(aes, output, input, l, i, wordAligned, s, d, step);
      i := i + 1;
    }
  }

  /** AesCbcDecrypt, likewise; without a schedule the chaining is taken off what the output held. */
  method CbcDecrypt(aes: Aes, output: array<bv8>, outOff: nat, input: array<bv8>, inOff: nat, sz: nat, wordAligned: bool)
      returns (code: int)
    requires aes.Valid()
    requires output != aes.reg && output != aes.tmp && input != aes.reg && input != aes.tmp
    requires outOff + sz <= output.Length && inOff + sz <= input.Length
    modifies output, aes.reg, aes.tmp
    ensures code == 0
    ensures var l, start := Layout(output == input, outOff, inOff), old(Now(aes, output, input));
            var d := DecipherOf(old(ScheduleOf(aes)));
            && Now(aes, output, input) == DecryptAll(d, l, start, sz / 16)
            && (l.Apart(sz / 16) ==> Now(aes, output, input) == WithUnchained(d, l, start, sz / 16))
  {
    var blocks, l := sz / 16, Layout(output == input, outOff, inOff);
    ghost var s, start := ScheduleOf(aes), Now(aes, output, input);
    ghost var d := DecipherOf(s);
    DecryptBlocks(aes, output, input, l, blocks, wordAligned, s, d, DecryptStep(d, l));
    if l.Apart(blocks) {
      DecryptAllUnchains(d, l, start, blocks);
    }
    code := 0;
  }

  ghost predicate Inverts(d: Cbc.Block -> Cbc.Block, e: Cbc.Block -> Cbc.Block) {
    forall b :: d(e(b)) == b
  }

  /** The block function of a key: section 5.1 over the schedule of section 5.2. */
  ghost function CipherUnder(l: Layers, userKey: seq<bv8>): Cbc.Block -> Cbc.Block
    requires IsKeyLength(|userKey|)
  {
    CipherOf(RoundKeysOf(l, KeySchedule(l, userKey)))
  }

  lemma ScheduledIsReady(aes: Aes, userKey: seq<bv8>, dir: int)
    requires IsKeyLength(|userKey|) && aes.Scheduled(userKey, dir)
    ensures aes.Ready() && aes.RoundsRun() == aes.rounds
  {
  }

  lemma InverseForAll(l: Layers, inv: seq<State>, keys: seq<State>)
    requires l.Invertible() && 2 <= |keys| && IsInverseSchedule(l, inv, keys)
    ensures Inverts(InvCipherBy(l, inv), CipherOf(RoundKeysOf(l, keys)))
  {
    forall b: Cbc.Block
      ensures InvCipherBy(l, inv)(CipherOf(RoundKeysOf(l, keys))(b)) == b
    {
      StateOfBlock(Cipher(l, keys, StateAt(b, 0)));
      EqInvCipherUndoesCipher(l, inv, keys, StateAt(b, 0));
      BlockOfState(b);
    }
  }

  lemma EncryptorOf(enc: Aes, userKey: seq<bv8>, dir: int)
    requires enc.Valid() && IsKeyLength(|userKey|) && dir != AES_DECRYPTION && enc.Scheduled(userKey, dir)
    ensures CipherOf(ScheduleOf(enc)) == CipherUnder(enc.layers, userKey)
  {
    ScheduledIsReady(enc, userKey, dir);
  }

  lemma DecryptorOf(dec: Aes, userKey: seq<bv8>)
    requires dec.Valid() && IsKeyLength(|userKey|) && dec.Scheduled(userKey, AES_DECRYPTION)
    ensures dec.Ready() && Inverts(InvCipherOf(ScheduleOf(dec)), CipherUnder(dec.layers, userKey))
  {
    ScheduledIsReady(dec, userKey, AES_DECRYPTION);
    InverseForAll(dec.layers, dec.Keys(dec.rounds), KeySchedule(dec.layers, userKey));
  }

  /** Under a usable schedule, what AesCbcDecrypt writes is the CBC decryption of its input. */
  lemma UnchainedUnderSchedule(s: Schedule, l: Layout, b: Buffers, n: nat)
    requires s.RoundKeysOf? && 2 <= |s.keys| && Fits(l, b, n)
    ensures Unchained(DecipherOf(s), l, b, n) == Cbc.CbcDecrypt(InvCipherOf(s), b.reg, Blocks(b.input, l.inOff, n))
  {
    UnchainedIsDecrypted(DecipherOf(s), InvCipherOf(s), l, b, n);
  }

  lemma DecryptedUnderSchedule(s: Schedule, b: Buffers, cipher: seq<bv8>)
    requires s.RoundKeysOf? && 2 <= |s.keys|
    requires |cipher| % 16 == 0 && Fits(FROM_START, b, |cipher| / 16) && b.input[..|cipher|] == cipher
    ensures DecryptAll(DecipherOf(s), FROM_START, b, |cipher| / 16).output
         == DecryptedBytes(InvCipherOf(s), b.reg, cipher) + b.output[|cipher|..]
  {
    DecryptedAtStart(DecipherOf(s), InvCipherOf(s), b, cipher);
  }

  /** For every key, register and message: AesCbcDecrypt after AesCbcEncrypt from the same register gives the
      message back. */
  lemma CbcRoundTrip(enc: Aes, dec: Aes, userKey: seq<bv8>, dir: int, reg: Cbc.Block, message: seq<Cbc.Block>)
    requires enc.Valid() && dec.Valid() && enc.layers == dec.layers && IsKeyLength(|userKey|)
    requires dir != AES_DECRYPTION && enc.Scheduled(userKey, dir) && dec.Scheduled(userKey, AES_DECRYPTION)
    ensures dec.Ready()
    ensures Cbc.CbcDecrypt(InvCipherOf(ScheduleOf(dec)), reg, Cbc.CbcEncrypt(CipherOf(ScheduleOf(enc)), reg, message)) == message
  {
    EncryptorOf(enc, userKey, dir);
    DecryptorOf(dec, userKey);
    Cbc.DecryptUndoesEncrypt(CipherOf(ScheduleOf(enc)), InvCipherOf(ScheduleOf(dec)), reg, message);
  }
}
