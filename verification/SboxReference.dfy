/** The substitution box read from table Te[4] is the one section 5.1.1 of FIPS 197 defines: the
    multiplicative inverse in GF(2^8), with 0 mapped to itself, followed by an affine map over GF(2). */
module SboxReference {
  import opened GaloisField
  import opened Tables

  /** The affine map, by the equation of section 5.1.1. */
  function Affine(b: bv8): bv8 {
    b ^ ((b << 1) | (b >> 7)) ^ ((b << 2) | (b >> 6)) ^ ((b << 3) | (b >> 5)) ^ ((b << 4) | (b >> 4)) ^ 0x63
  }

  function InvAffine(b: bv8): bv8 {
    ((b << 1) | (b >> 7)) ^ ((b << 3) | (b >> 5)) ^ ((b << 6) | (b >> 2)) ^ 0x05
  }

  function Term(a: bv8, selected: bool): bv8 {
    if selected then a else 0
  }

  /** The product in GF(2^8): the multiples x^i a for the bits i of b, section 4.2.1. */
  function Multiply(a: bv8, b: bv8): bv8 {
    var a1 := Xtime(a);
    var a2 := Xtime(a1);
    var a3 := Xtime(a2);
    var a4 := Xtime(a3);
    var a5 := Xtime(a4);
    var a6 := Xtime(a5);
    var a7 := Xtime(a6);
    Term(a, b & 0x01 != 0) ^ Term(a1, b & 0x02 != 0) ^ Term(a2, b & 0x04 != 0) ^ Term(a3, b & 0x08 != 0)
    ^ Term(a4, b & 0x10 != 0) ^ Term(a5, b & 0x20 != 0) ^ Term(a6, b & 0x40 != 0) ^ Term(a7, b & 0x80 != 0)
  }

  lemma AffineUndoesInvAffine(b: bv8)
    ensures Affine(InvAffine(b)) == b
  {
  }

  lemma InverseOfNonZero(x: bv8)
    requires x != 0
    ensures Multiply(x, InvAffine(Sbox(x))) == 1
  {
  }

  lemma InverseOfZero()
    ensures InvAffine(Sbox(0)) == 0
  {
  }

  ghost predicate IsFieldInverse(x: bv8, y: bv8) {
    if x == 0 then y == 0 else Multiply(x, y) == 1
  }

  /** For every byte. */
  lemma SboxIsAffineOfInverse(x: bv8)
    ensures exists y :: IsFieldInverse(x, y) && Sbox(x) == Affine(y)
  {
    var y := InvAffine(Sbox(x));
    AffineUndoesInvAffine(Sbox(x));
    if x == 0 {
      InverseOfZero();
    } else {
      InverseOfNonZero(x);
    }
    assert IsFieldInverse(x, y);
  }
}
