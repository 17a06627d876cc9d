/** Arithmetic in GF(2^8) as section 4 of FIPS 197 uses it: addition is exclusive-or,
    multiplication is polynomial multiplication modulo x^8 + x^4 + x^3 + x + 1. */
module GaloisField {

  /** Section 4.1. */
  function Add(a: bv8, b: bv8): bv8 {
    a ^ b
  }

  function Add4(a: bv8, b: bv8, c: bv8, d: bv8): bv8 {
    Add(Add(Add(a, b), c), d)
  }

  /** Multiplication by x, section 4.2.1. */
  function Xtime(a: bv8): bv8 {
    if a & 0x80 == 0 then a << 1 else (a << 1) ^ 0x1b
  }

  function Mul2(a: bv8): bv8 {
    Xtime(a)
  }

  function Mul3(a: bv8): bv8 {
    Add(Xtime(a), a)
  }

  function Mul9(a: bv8): bv8 {
    Add(Xtime(Xtime(Xtime(a))), a)
  }

  function Mul11(a: bv8): bv8 {
    Add(Mul9(a), Xtime(a))
  }

  function Mul13(a: bv8): bv8 {
    Add(Mul9(a), Xtime(Xtime(a)))
  }

  function Mul14(a: bv8): bv8 {
    Add(Add(Xtime(Xtime(Xtime(a))), Xtime(Xtime(a))), Xtime(a))
  }

  // ----- addition is an abelian group in which every element is its own inverse

  lemma AddAssoc(a: bv8, b: bv8, c: bv8)
    ensures Add(Add(a, b), c) == Add(a, Add(b, c))
  {
  }

  lemma AddComm(a: bv8, b: bv8)
    ensures Add(a, b) == Add(b, a)
  {
  }

  lemma AddZero(a: bv8)
    ensures Add(a, 0) == a
  {
  }

  lemma AddSwap(a: bv8, b: bv8, c: bv8, d: bv8)
    ensures Add(Add(a, b), Add(c, d)) == Add(Add(a, c), Add(b, d))
  {
    AddAssoc(Add(a, b), c, d);
    AddAssoc(a, b, c);
    AddComm(b, c);
    AddAssoc(a, c, b);
    AddAssoc(Add(a, c), b, d);
  }

  lemma Add4Swap(a: bv8, b: bv8, c: bv8, d: bv8, e: bv8, f: bv8, g: bv8, h: bv8)
    ensures Add(Add4(a, b, c, d), Add4(e, f, g, h)) == Add4(Add(a, e), Add(b, f), Add(c, g), Add(d, h))
  {
    AddSwap(Add(Add(a, b), c), d, Add(Add(e, f), g), h);
    AddSwap(Add(a, b), c, Add(e, f), g);
    AddSwap(a, b, e, f);
  }

  lemma Add4Rotate(a: bv8, b: bv8, c: bv8, d: bv8)
    ensures Add4(a, b, c, d) == Add4(b, c, d, a)
  {
    AddAssoc(a, b, c);
    AddAssoc(a, Add(b, c), d);
    AddComm(a, Add(Add(b, c), d));
  }

  // ----- multiplication by a constant distributes over addition

  lemma XtimeAdd(a: bv8, b: bv8)
    ensures Xtime(Add(a, b)) == Add(Xtime(a), Xtime(b))
  {
    if a & 0x80 == 0 {
      if b & 0x80 == 0 {} else {}
    } else {
      if b & 0x80 == 0 {} else {}
    }
  }

  lemma Xtime3Add(a: bv8, b: bv8)
    ensures Xtime(Xtime(Add(a, b))) == Add(Xtime(Xtime(a)), Xtime(Xtime(b)))
    ensures Xtime(Xtime(Xtime(Add(a, b)))) == Add(Xtime(Xtime(Xtime(a))), Xtime(Xtime(Xtime(b))))
  {
    XtimeAdd(a, b);
    XtimeAdd(Xtime(a), Xtime(b));
    XtimeAdd(Xtime(Xtime(a)), Xtime(Xtime(b)));
  }

  lemma Mul9Add(a: bv8, b: bv8)
    ensures Mul9(Add(a, b)) == Add(Mul9(a), Mul9(b))
  {
    Xtime3Add(a, b);
    AddSwap(Xtime(Xtime(Xtime(a))), Xtime(Xtime(Xtime(b))), a, b);
  }

  lemma Mul11Add(a: bv8, b: bv8)
    ensures Mul11(Add(a, b)) == Add(Mul11(a), Mul11(b))
  {
    Mul9Add(a, b);
    XtimeAdd(a, b);
    AddSwap(Mul9(a), Mul9(b), Xtime(a), Xtime(b));
  }

  lemma Mul13Add(a: bv8, b: bv8)
    ensures Mul13(Add(a, b)) == Add(Mul13(a), Mul13(b))
  {
    Mul9Add(a, b);
    Xtime3Add(a, b);
    AddSwap(Mul9(a), Mul9(b), Xtime(Xtime(a)), Xtime(Xtime(b)));
  }

  lemma Mul14Add(a: bv8, b: bv8)
    ensures Mul14(Add(a, b)) == Add(Mul14(a), Mul14(b))
  {
    XtimeAdd(a, b);
    Xtime3Add(a, b);
    AddSwap(Xtime(Xtime(Xtime(a))), Xtime(Xtime(Xtime(b))), Xtime(Xtime(a)), Xtime(Xtime(b)));
    AddSwap(Add(Xtime(Xtime(Xtime(a))), Xtime(Xtime(a))), Add(Xtime(Xtime(Xtime(b))), Xtime(Xtime(b))), Xtime(a), Xtime(b));
  }

  lemma Mul14Add4(a: bv8, b: bv8, c: bv8, d: bv8)
    ensures Mul14(Add4(a, b, c, d)) == Add4(Mul14(a), Mul14(b), Mul14(c), Mul14(d))
  {
    Mul14Add(Add(Add(a, b), c), d);
    Mul14Add(Add(a, b), c);
    Mul14Add(a, b);
  }

  lemma Mul11Add4(a: bv8, b: bv8, c: bv8, d: bv8)
    ensures Mul11(Add4(a, b, c, d)) == Add4(Mul11(a), Mul11(b), Mul11(c), Mul11(d))
  {
    Mul11Add(Add(Add(a, b), c), d);
    Mul11Add(Add(a, b), c);
    Mul11Add(a, b);
  }

  lemma Mul13Add4(a: bv8, b: bv8, c: bv8, d: bv8)
    ensures Mul13(Add4(a, b, c, d)) == Add4(Mul13(a), Mul13(b), Mul13(c), Mul13(d))
  {
    Mul13Add(Add(Add(a, b), c), d);
    Mul13Add(Add(a, b), c);
    Mul13Add(a, b);
  }

  lemma Mul9Add4(a: bv8, b: bv8, c: bv8, d: bv8)
    ensures Mul9(Add4(a, b, c, d)) == Add4(Mul9(a), Mul9(b), Mul9(c), Mul9(d))
  {
    Mul9Add(Add(Add(a, b), c), d);
    Mul9Add(Add(a, b), c);
    Mul9Add(a, b);
  }

  // ----- the MixColumns matrix and its inverse, one row at a time

  /** {02}a + {03}b + {01}c + {01}d: the first row of the MixColumns matrix, equation 5.6. */
  function MixRow(a: bv8, b: bv8, c: bv8, d: bv8): bv8 {
    Add4(Mul2(a), Mul3(b), c, d)
  }

  /** {0e}a + {0b}b + {0d}c + {09}d: the first row of the InvMixColumns matrix, equation 5.10. */
  function InvMixRow(a: bv8, b: bv8, c: bv8, d: bv8): bv8 {
    Add4(Mul14(a), Mul11(b), Mul13(c), Mul9(d))
  }

  lemma InvMixRowAdd(a: bv8, b: bv8, c: bv8, d: bv8, e: bv8, f: bv8, g: bv8, h: bv8)
    ensures InvMixRow(Add(a, e), Add(b, f), Add(c, g), Add(d, h)) == Add(InvMixRow(a, b, c, d), InvMixRow(e, f, g, h))
  {
    Mul14Add(a, e);
    Mul11Add(b, f);
    Mul13Add(c, g);
    Mul9Add(d, h);
    Add4Swap(Mul14(a), Mul11(b), Mul13(c), Mul9(d), Mul14(e), Mul11(f), Mul13(g), Mul9(h));
  }

  // The first row of the product of the two matrices is (1, 0, 0, 0), one entry a lemma.

  lemma RowTimesColumn0(a: bv8)
    ensures Add4(Mul14(Mul2(a)), Mul11(a), Mul13(a), Mul9(Mul3(a))) == a
  {
  }

  lemma RowTimesColumn1(a: bv8)
    ensures Add4(Mul14(Mul3(a)), Mul11(Mul2(a)), Mul13(a), Mul9(a)) == 0
  {
  }

  lemma RowTimesColumn2(a: bv8)
    ensures Add4(Mul14(a), Mul11(Mul3(a)), Mul13(Mul2(a)), Mul9(a)) == 0
  {
  }

  lemma RowTimesColumn3(a: bv8)
    ensures Add4(Mul14(a), Mul11(a), Mul13(Mul3(a)), Mul9(Mul2(a))) == 0
  {
  }

  lemma Add4Transpose(a: bv8, b: bv8, c: bv8, d: bv8, e: bv8, f: bv8, g: bv8, h: bv8,
                      i: bv8, j: bv8, k: bv8, l: bv8, m: bv8, n: bv8, o: bv8, p: bv8)
    ensures Add4(Add4(a, b, c, d), Add4(e, f, g, h), Add4(i, j, k, l), Add4(m, n, o, p))
         == Add4(Add4(a, e, i, m), Add4(b, f, j, n), Add4(c, g, k, o), Add4(d, h, l, p))
  {
    Add4Swap(a, b, c, d, e, f, g, h);
    Add4Swap(Add(a, e), Add(b, f), Add(c, g), Add(d, h), i, j, k, l);
    Add4Swap(Add(Add(a, e), i), Add(Add(b, f), j), Add(Add(c, g), k), Add(Add(d, h), l), m, n, o, p);
  }

  lemma InvMixRowUndoesMix(a: bv8, b: bv8, c: bv8, d: bv8)
    ensures InvMixRow(MixRow(a, b, c, d), MixRow(b, c, d, a), MixRow(c, d, a, b), MixRow(d, a, b, c)) == a
  {
    // put the four terms of each row in the order a, b, c, d
    Add4Rotate(a, Mul2(b), Mul3(c), d);
    Add4Rotate(a, b, Mul2(c), Mul3(d));
    Add4Rotate(b, Mul2(c), Mul3(d), a);
    Add4Rotate(Mul2(d), Mul3(a), b, c);
    Mul14Add4(Mul2(a), Mul3(b), c, d);
    Mul11Add4(a, Mul2(b), Mul3(c), d);
    Mul13Add4(a, b, Mul2(c), Mul3(d));
    Mul9Add4(Mul3(a), b, c, Mul2(d));
    Add4Transpose(Mul14(Mul2(a)), Mul14(Mul3(b)), Mul14(c), Mul14(d),
                  Mul11(a), Mul11(Mul2(b)), Mul11(Mul3(c)), Mul11(d),
                  Mul13(a), Mul13(b), Mul13(Mul2(c)), Mul13(Mul3(d)),
                  Mul9(Mul3(a)), Mul9(b), Mul9(c), Mul9(Mul2(d)));
    RowTimesColumn0(a);
    RowTimesColumn1(b);
    RowTimesColumn2(c);
    RowTimesColumn3(d);
    AddZero(a);
  }
}
