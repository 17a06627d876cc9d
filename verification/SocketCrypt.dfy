/** Encryption and decryption of the secret part of a socket message. */
module SocketCrypt {
  import opened Tables
  import opened AesCipher
  import opened AesRounds
  import opened Fips197
  import opened KeyExpansion
  import opened CbcBuffers
  import opened AesCbc
  import Cbc

  /** The key selected for a message: none is applied (AES_KEY_OPEN), none is known, or these bytes. */
  datatype KeyChoice = Open | Missing | Key(bytes: seq<bv8>)

  const AES_ENCRYPTION := 0

  function Repeat(b: bv8, n: nat): (r: seq<bv8>)
    ensures |r| == n
  {
    seq(n, _ => b)
  }

  function FillLength(n: nat): (k: nat)
    ensures 1 <= k <= 16 && (n + k) % 16 == 0
  {
    16 - n % 16
  }

  /** The message extended to a whole number of blocks by bytes that give their own number. */
  function Pad(message: seq<bv8>): (p: seq<bv8>)
    ensures |p| % 16 == 0 && |message| < |p|
  {
    var k := FillLength(|message|);
    message + Repeat(k as bv8, k)
  }

  /** From 1 to 16 bytes are added, and each of them gives their number. */
  lemma PadBytes(message: seq<bv8>, i: nat)
    requires i < |Pad(message)|
    ensures 1 <= |Pad(message)| - |message| <= 16
    ensures if i < |message| then Pad(message)[i] == message[i] else Pad(message)[i] as nat == |Pad(message)| - |message|
  {
  }

  /** PKCS5PaddingFillData. */
  method PaddingFill(data: array<bv8>, dataLen: nat) returns (newLen: nat)
    requires dataLen + 16 <= data.Length
    modifies data
    ensures newLen <= data.Length && data[..newLen] == Pad(old(data[..dataLen]))
    ensures data[newLen..] == old(data[..])[newLen..]
  {
    var fill := FillLength(dataLen);
    forall i | 0 <= i < fill {
      data[dataLen + i] := fill as bv8;
    }
    newLen := dataLen + fill;
  }

  /** PKCS5PaddingRemoveData. */
  method PaddingRemove(data: array<bv8>, dataLen: nat) returns (newLen: nat)
    requires 0 < dataLen <= data.Length && data[dataLen - 1] as nat <= dataLen
    modifies data
    ensures newLen == dataLen - old(data[dataLen - 1]) as nat
    ensures data[..] == old(data[..newLen]) + Repeat(0, dataLen - newLen) + old(data[dataLen..])
  {
    var remove := data[dataLen - 1] as nat;
    newLen := dataLen - remove;
    forall i | newLen <= i < dataLen {
      data[i] := 0;
    }
  }

  /** The ciphertext of a message under a key, which also serves as the initial register. */
  ghost function Ciphertext(key: seq<bv8>, message: seq<bv8>): (cipher: seq<bv8>)
    requires |key| == 16
    ensures |cipher| == |Pad(message)|
  {
    EncryptedBytes(CipherUnder(AES, key), key, Pad(message))
  }

  /** Each block of the ciphertext is AES under the key of the message block added to the ciphertext block
      before it, the first one to the key itself. */
  lemma CiphertextBlock(key: seq<bv8>, message: seq<bv8>, i: nat)
    requires |key| == 16 && 16 * i + 16 <= |Pad(message)|
    ensures var p, c := Pad(message), Ciphertext(key, message);
            c[16 * i..16 * i + 16]
            == BlockOf(Cipher(AES, KeySchedule(AES, key),
                              StateAt(Cbc.XorBytes(if i == 0 then key else c[16 * i - 16..16 * i], p[16 * i..16 * i + 16]), 0)))
  {
    EncryptedBytesBlock(CipherUnder(AES, key), key, Pad(message), i);
    BlockUnder(key, Cbc.XorBytes(if i == 0 then key else Ciphertext(key, message)[16 * i - 16..16 * i],
                                 Pad(message)[16 * i..16 * i + 16]));
  }

  lemma BlockUnder(key: seq<bv8>, b: Cbc.Block)
    requires |key| == 16
    ensures CipherUnder(AES, key)(b) == BlockOf(Cipher(AES, KeySchedule(AES, key), StateAt(b, 0)))
  {
  }

  /** socketDataAesEncrypt. The message lies in inData, with room for its padding behind it. */
  method SocketDataEncrypt(inData: array<bv8>, outData: array<bv8>, dataLen: nat, choice: KeyChoice, wordAligned: bool)
      returns (ok: bool, newLen: nat)
    requires choice.Key? ==> |choice.bytes| == 16
    requires inData != outData && dataLen + 16 <= inData.Length && dataLen + 16 <= outData.Length
    modifies inData, outData
    ensures ok == !choice.Missing?
    ensures choice.Missing? ==> newLen == dataLen && inData[..] == old(inData[..]) && outData[..] == old(outData[..])
    ensures choice.Open? ==> newLen == dataLen && outData[..] == old(inData[..dataLen]) + old(outData[dataLen..])
    ensures choice.Key? ==>
              var message := old(inData[..dataLen]);
              newLen == |Pad(message)| && outData[..] == Ciphertext(choice.bytes, message) + old(outData[..])[newLen..]
  {
    match choice {
      case Missing =>
        ok, newLen := false, dataLen;
      case Open =>
        CopyBytes(inData, outData, dataLen);
        ok, newLen := true, dataLen;
      case Key(bytes) =>
        newLen := EncryptUnder(inData, outData, dataLen, bytes, wordAligned);
        ok := true;
    }
  }

  method CopyBytes(src: array<bv8>, dst: array<bv8>, n: nat)
    requires src != dst && n <= src.Length && n <= dst.Length
    modifies dst
    ensures dst[..] == src[..n] + old(dst[n..])
  {
    forall i | 0 <= i < n {
      dst[i] := src[i];
    }
  }

  /** setAesKey: a cipher under the key, which is also the first register. */
  method NewCipher(key: seq<bv8>, dir: int) returns (aes: Aes)
    requires |key| == 16
    ensures fresh(aes) && fresh(aes.key) && fresh(aes.reg) && fresh(aes.tmp)
    ensures aes.Valid() && Register(aes) == key
    ensures dir != AES_DECRYPTION ==> CipherOf(ScheduleOf(aes)) == CipherUnder(AES, key)
    ensures dir == AES_DECRYPTION ==> aes.Ready() && Inverts(InvCipherOf(ScheduleOf(aes)), CipherUnder(AES, key))
  {
    aes := new Aes();
    var code := aes.SetKey(key, Some(key), dir);
    if dir == AES_DECRYPTION {
      DecryptorOf(aes, key);
    } else {
      EncryptorOf(aes, key, dir);
    }
  }

  method EncryptUnder(inData: array<bv8>, outData: array<bv8>, dataLen: nat, key: seq<bv8>, wordAligned: bool)
      returns (newLen: nat)
    requires |key| == 16 && inData != outData && dataLen + 16 <= inData.Length && dataLen + 16 <= outData.Length
    modifies inData, outData
    ensures var message := old(inData[..dataLen]);
            newLen == |Pad(message)| && outData[..] == Ciphertext(key, message) + old(outData[..])[newLen..]
  {
    newLen := PaddingFill(inData, dataLen);
    EncryptPadded(inData, outData, newLen, key, wordAligned);
  }

  /** setAesKey and AesCbcEncrypt. */
  method EncryptPadded(inData: array<bv8>, outData: array<bv8>, dataLen: nat, key: seq<bv8>, wordAligned: bool)
    requires inData != outData && dataLen <= inData.Length && dataLen <= outData.Length && |key| == 16 && dataLen % 16 == 0
    modifies outData
    ensures outData[..] == EncryptedBytes(CipherUnder(AES, key), key, inData[..dataLen]) + old(outData[..])[dataLen..]
  {
    var enc := NewCipher(key, AES_ENCRYPTION);
    EncryptWith(enc, inData, outData, dataLen, wordAligned, EncryptedBytes(CipherUnder(AES, key), key, inData[..dataLen]));
  }

  method EncryptWith(enc: Aes, inData: array<bv8>, outData: array<bv8>, dataLen: nat, wordAligned: bool, ghost cipher: seq<bv8>)
    requires enc.Valid() && inData != enc.reg && outData != enc.reg
    requires inData != outData && dataLen <= inData.Length && dataLen <= outData.Length && dataLen % 16 == 0
    requires EncryptedBytes(CipherOf(ScheduleOf(enc)), Register(enc), inData[..dataLen]) == cipher
    modifies outData, enc.reg
    ensures outData[..] == cipher + old(outData[..])[dataLen..]
  {
    EncryptedAtStart(CipherOf(ScheduleOf(enc)), Now(enc, outData, inData), inData[..dataLen]);
    var code := CbcEncrypt(enc, outData, 0, inData, 0, dataLen, wordAligned);
  }

  /** setAesKey and AesCbcDecrypt. */
  method DecryptPadded(inData: array<bv8>, outData: array<bv8>, dataLen: nat, key: seq<bv8>, wordAligned: bool, ghost data: seq<bv8>)
    requires inData != outData && dataLen <= inData.Length && dataLen <= outData.Length && |key| == 16
    requires |data| == dataLen && dataLen % 16 == 0 && inData[..dataLen] == EncryptedBytes(CipherUnder(AES, key), key, data)
    modifies outData
    ensures outData[..] == data + old(outData[..])[dataLen..]
  {
    var dec := NewCipher(key, AES_DECRYPTION);
    DecryptedBytesAreData(CipherUnder(AES, key), InvCipherOf(ScheduleOf(dec)), key, data);
    DecryptWith(dec, inData, outData, dataLen, wordAligned, data);
  }

  method DecryptWith(dec: Aes, inData: array<bv8>, outData: array<bv8>, dataLen: nat, wordAligned: bool, ghost data: seq<bv8>)
    requires dec.Valid() && dec.Ready() && inData != dec.reg && outData != dec.reg && inData != dec.tmp && outData != dec.tmp
    requires inData != outData && dataLen <= inData.Length && dataLen <= outData.Length && dataLen % 16 == 0
    requires DecryptedBytes(InvCipherOf(ScheduleOf(dec)), Register(dec), inData[..dataLen]) == data
    modifies outData, dec.reg, dec.tmp
    ensures outData[..] == data + old(outData[..])[dataLen..]
  {
    DecryptedUnderSchedule(ScheduleOf(dec), Now(dec, outData, inData), inData[..dataLen]);
    var code := CbcDecrypt(dec, outData, 0, inData, 0, dataLen, wordAligned);
  }

  /** socketDataAesDecrypt, of the ciphertext of a message padded under the same key. */
  method SocketDataDecrypt(inData: array<bv8>, outData: array<bv8>, dataLen: nat, choice: KeyChoice, wordAligned: bool, ghost message: seq<bv8>)
      returns (ok: bool, newLen: nat)
    requires inData != outData && dataLen <= inData.Length && dataLen <= outData.Length
    requires choice.Key? ==>
               |choice.bytes| == 16 && dataLen == |Pad(message)|
               && inData[..dataLen] == Ciphertext(choice.bytes, message)
    modifies outData
    ensures ok == !choice.Missing?
    ensures choice.Missing? ==> newLen == dataLen && outData[..] == old(outData[..])
    ensures choice.Open? ==> newLen == dataLen && outData[..] == inData[..dataLen] + old(outData[dataLen..])
    ensures choice.Key? ==> newLen == |message| && newLen <= outData.Length && outData[..newLen] == message
  {
    match choice {
      case Missing =>
        ok, newLen := false, dataLen;
      case Open =>
        CopyBytes(inData, outData, dataLen);
        ok, newLen := true, dataLen;
      case Key(bytes) =>
        newLen := DecryptUnder(inData, outData, dataLen, bytes, wordAligned, message);
        ok := true;
    }
  }

  method DecryptUnder(inData: array<bv8>, outData: array<bv8>, dataLen: nat, key: seq<bv8>, wordAligned: bool, ghost message: seq<bv8>)
      returns (newLen: nat)
    requires inData != outData && dataLen <= inData.Length && dataLen <= outData.Length
    requires |key| == 16 && dataLen == |Pad(message)| && inData[..dataLen] == Ciphertext(key, message)
    modifies outData
    ensures newLen == |message| && newLen <= outData.Length && outData[..newLen] == message
  {
    DecryptPadded(inData, outData, dataLen, key, wordAligned, Pad(message));
    assert outData[..][..dataLen] == outData[..dataLen];
    newLen := RemoveFrom(outData, dataLen, message);
  }

  method RemoveFrom(data: array<bv8>, dataLen: nat, ghost message: seq<bv8>) returns (newLen: nat)
    requires dataLen <= data.Length && data[..dataLen] == Pad(message)
    modifies data
    ensures newLen == |message| && data[..newLen] == message
  {
    PadBytes(message, dataLen - 1);
    assert data[dataLen - 1] == data[..dataLen][dataLen - 1];
    assert data[..|message|] == data[..dataLen][..|message|] == message;
    newLen := PaddingRemove(data, dataLen);
  }
}
