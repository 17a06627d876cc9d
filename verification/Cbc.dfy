/** Cipher block chaining, section 6.2 of NIST SP 800-38A, over any function of blocks of 16 bytes. */
module Cbc {
  import opened GaloisField

  type Block = b: seq<bv8> | |b| == 16 witness [0, 0, 0, 0, 0, 0, 0, 0, 0, 0, 0, 0, 0, 0, 0, 0]

  function XorBytes(a: seq<bv8>, b: seq<bv8>): (r: seq<bv8>)
    requires |a| == |b|
    ensures |r| == |a|
  {
    seq(|a|, i requires 0 <= i < |a| => Add(a[i], b[i]))
  }

  lemma XorCancels(a: Block, b: Block)
    ensures XorBytes(XorBytes(a, b), a) == b
  {
    forall i: nat | i < 16
      ensures XorBytes(XorBytes(a, b), a)[i] == b[i]
    {
      AddTwice(a[i], b[i]);
    }
  }

  lemma AddTwice(x: bv8, y: bv8)
    ensures Add(Add(x, y), x) == y
  {
  }

  /** The ciphertext of input under the block function e, chained from reg. */
  function CbcEncrypt(e: Block -> Block, reg: Block, input: seq<Block>): (output: seq<Block>)
    ensures |output| == |input|
  {
    if input == [] then []
    else
      var n := |input| - 1;
      var done := CbcEncrypt(e, reg, input[..n]);
      done + [e(XorBytes(LastBlock(reg, done), input[n]))]
  }

  /** The plaintext of input under the block function d, chained from reg. */
  function CbcDecrypt(d: Block -> Block, reg: Block, input: seq<Block>): (output: seq<Block>)
    ensures |output| == |input|
  {
    if input == [] then []
    else
      var n := |input| - 1;
      CbcDecrypt(d, reg, input[..n]) + [XorBytes(d(input[n]), LastBlock(reg, input[..n]))]
  }

  /** The chaining register after a call that produced, or consumed, the given ciphertext. */
  function LastBlock(reg: Block, ciphertext: seq<Block>): Block {
    if ciphertext == [] then reg else ciphertext[|ciphertext| - 1]
  }

  /** For every message: decryption from the same register gives the message back, and both calls end with
      the last ciphertext block in the register. */
  lemma {:induction false} DecryptUndoesEncrypt(e: Block -> Block, d: Block -> Block, reg: Block, message: seq<Block>)
    requires forall b :: d(e(b)) == b
    ensures CbcDecrypt(d, reg, CbcEncrypt(e, reg, message)) == message
    decreases |message|
  {
    if message != [] {
      var n := |message| - 1;
      var done := CbcEncrypt(e, reg, message[..n]);
      var c := e(XorBytes(LastBlock(reg, done), message[n]));
      DecryptUndoesEncrypt(e, d, reg, message[..n]);
      DecryptOneMore(d, reg, done, c);
      XorCancels(LastBlock(reg, done), message[n]);
      assert message == message[..n] + [message[n]];
    }
  }

  lemma EncryptOneMore(e: Block -> Block, reg: Block, input: seq<Block>, m: Block)
    ensures var done := CbcEncrypt(e, reg, input);
            CbcEncrypt(e, reg, input + [m]) == done + [e(XorBytes(LastBlock(reg, done), m))]
  {
    assert (input + [m])[..|input|] == input;
  }

  lemma DecryptOneMore(d: Block -> Block, reg: Block, input: seq<Block>, c: Block)
    ensures CbcDecrypt(d, reg, input + [c]) == CbcDecrypt(d, reg, input) + [XorBytes(d(c), LastBlock(reg, input))]
  {
    assert (input + [c])[..|input|] == input;
  }

  lemma LastOfSum(reg: Block, a: seq<Block>, b: seq<Block>)
    ensures LastBlock(reg, a + b) == LastBlock(LastBlock(reg, a), b)
  {
  }

  lemma SumOneMore(a: seq<Block>, b: seq<Block>, x: Block)
    ensures a + (b + [x]) == (a + b) + [x]
  {
  }

  lemma WithoutLast(b: seq<Block>)
    requires b != []
    ensures b == b[..|b| - 1] + [b[|b| - 1]]
  {
  }

  /** Encrypting in two calls split at a block boundary is one call, in output and register. */
  lemma {:induction false} EncryptSplit(e: Block -> Block, reg: Block, first: seq<Block>, second: seq<Block>)
    ensures var c := CbcEncrypt(e, reg, first);
            var c' := CbcEncrypt(e, LastBlock(reg, c), second);
            CbcEncrypt(e, reg, first + second) == c + c' && LastBlock(reg, c + c') == LastBlock(LastBlock(reg, c), c')
    decreases |second|
  {
    var c := CbcEncrypt(e, reg, first);
    LastOfSum(reg, c, CbcEncrypt(e, LastBlock(reg, c), second));
    if second == [] {
      assert first + second == first;
    } else {
      var rest, m := second[..|second| - 1], second[|second| - 1];
      WithoutLast(second);
      EncryptSplit(e, reg, first, rest);
      EncryptSplitOneMore(e, reg, first, rest, m);
    }
  }

  lemma EncryptSplitOneMore(e: Block -> Block, reg: Block, first: seq<Block>, rest: seq<Block>, m: Block)
    requires var c := CbcEncrypt(e, reg, first);
             CbcEncrypt(e, reg, first + rest) == c + CbcEncrypt(e, LastBlock(reg, c), rest)
    ensures var c := CbcEncrypt(e, reg, first);
            CbcEncrypt(e, reg, first + (rest + [m])) == c + CbcEncrypt(e, LastBlock(reg, c), rest + [m])
  {
    var c := CbcEncrypt(e, reg, first);
    var c' := CbcEncrypt(e, LastBlock(reg, c), rest);
    SumOneMore(first, rest, m);
    EncryptOneMore(e, reg, first + rest, m);
    EncryptOneMore(e, LastBlock(reg, c), rest, m);
    LastOfSum(reg, c, c');
    SumOneMore(c, c', e(XorBytes(LastBlock(LastBlock(reg, c), c'), m)));
  }

  /** Likewise for decryption. */
  lemma {:induction false} DecryptSplit(d: Block -> Block, reg: Block, first: seq<Block>, second: seq<Block>)
    ensures CbcDecrypt(d, reg, first + second) == CbcDecrypt(d, reg, first) + CbcDecrypt(d, LastBlock(reg, first), second)
    ensures LastBlock(reg, first + second) == LastBlock(LastBlock(reg, first), second)
    decreases |second|
  {
    LastOfSum(reg, first, second);
    if second == [] {
      assert first + second == first;
    } else {
      var rest, c := second[..|second| - 1], second[|second| - 1];
      WithoutLast(second);
      DecryptSplit(d, reg, first, rest);
      DecryptSplitOneMore(d, reg, first, rest, c);
    }
  }

  lemma DecryptSplitOneMore(d: Block -> Block, reg: Block, first: seq<Block>, rest: seq<Block>, c: Block)
    requires CbcDecrypt(d, reg, first + rest) == CbcDecrypt(d, reg, first) + CbcDecrypt(d, LastBlock(reg, first), rest)
    ensures CbcDecrypt(d, reg, first + (rest + [c])) == CbcDecrypt(d, reg, first) + CbcDecrypt(d, LastBlock(reg, first), rest + [c])
  {
    var m, m' := CbcDecrypt(d, reg, first), CbcDecrypt(d, LastBlock(reg, first), rest);
    SumOneMore(first, rest, c);
    DecryptOneMore(d, reg, first + rest, c);
    DecryptOneMore(d, LastBlock(reg, first), rest, c);
    LastOfSum(reg, first, rest);
    SumOneMore(m, m', XorBytes(d(c), LastBlock(LastBlock(reg, first), rest)));
  }

  /** Each ciphertext block is that of the message block added to the ciphertext block before it, the first
      one to the register. */
  lemma {:induction false} EncryptedBlock(e: Block -> Block, reg: Block, input: seq<Block>, i: nat)
    requires i < |input|
    ensures var output := CbcEncrypt(e, reg, input);
            output[i] == e(XorBytes(if i == 0 then reg else output[i - 1], input[i]))
    decreases |input|
  {
    var n := |input| - 1;
    if i < n {
      EncryptedBlock(e, reg, input[..n], i);
    }
  }

  /** Each decrypted block depends only on its own ciphertext block and the one before. */
  lemma {:induction false} DecryptedBlock(d: Block -> Block, reg: Block, input: seq<Block>, i: nat)
    requires i < |input|
    ensures CbcDecrypt(d, reg, input)[i] == XorBytes(d(input[i]), if i == 0 then reg else input[i - 1])
    decreases |input|
  {
    var n := |input| - 1;
    if i < n {
      DecryptedBlock(d, reg, input[..n], i);
    }
  }

  /** Two decryptors with different registers agree from the second block on. */
  lemma RegistersAgreeAfterOneBlock(d: Block -> Block, reg: Block, reg': Block, input: seq<Block>)
    requires input != []
    ensures CbcDecrypt(d, reg, input)[1..] == CbcDecrypt(d, reg', input)[1..]
  {
    forall i: nat | 0 < i < |input|
      ensures CbcDecrypt(d, reg, input)[i] == CbcDecrypt(d, reg', input)[i]
    {
      DecryptedBlock(d, reg, input, i);
      DecryptedBlock(d, reg', input, i);
    }
  }

  /** The deciphered blocks with the chaining taken off: each is added to the ciphertext block before. */
  function Unchain(reg: Block, input: seq<Block>, deciphered: seq<Block>): (output: seq<Block>)
    requires |deciphered| == |input|
    ensures |output| == |input|
  {
    seq(|input|, i requires 0 <= i < |input| => XorBytes(deciphered[i], if i == 0 then reg else input[i - 1]))
  }

  function Deciphered(d: Block -> Block, input: seq<Block>): (deciphered: seq<Block>)
    ensures |deciphered| == |input|
  {
    seq(|input|, i requires 0 <= i < |input| => d(input[i]))
  }

  lemma DecryptIsUnchain(d: Block -> Block, reg: Block, input: seq<Block>)
    ensures CbcDecrypt(d, reg, input) == Unchain(reg, input, Deciphered(d, input))
  {
    forall i: nat | i < |input|
      ensures CbcDecrypt(d, reg, input)[i] == Unchain(reg, input, Deciphered(d, input))[i]
    {
      DecryptedBlock(d, reg, input, i);
    }
  }

  lemma UnchainOneMore(reg: Block, input: seq<Block>, deciphered: seq<Block>, c: Block, m: Block)
    requires |deciphered| == |input|
    ensures Unchain(reg, input + [c], deciphered + [m]) == Unchain(reg, input, deciphered) + [XorBytes(m, LastBlock(reg, input))]
  {
  }
}
