/** The S-box as FIPS 197, section 5.1.1, defines it: the inverse in the field, then an affine map; and
    known answers of that standard for what is built on it. */
module AesSbox {
  import opened AesTables
  import opened AesField

  /** The affine map: each bit is the sum of five bits of b, and of the bit of 0x63. */
  function Affine(b: bv8): bv8 {
    b ^ ((b << 1) | (b >> 7)) ^ ((b << 2) | (b >> 6)) ^ ((b << 3) | (b >> 5)) ^ ((b << 4) | (b >> 4)) ^ 0x63
  }

  function Part(a: bv8, b: bv8, mask: bv8): bv8 {
    if b & mask != 0 then a else 0
  }

  /** The terms of a product. */
  function Terms(a: bv8, b: bv8): bv8 {
    var a2 := Xt(a);
    var a4 := Xt(a2);
    var a8 := Xt(a4);
    var a16 := Xt(a8);
    var a32 := Xt(a16);
    var a64 := Xt(a32);
    Add(Part(a, b, 1), Add(Part(a2, b, 2), Add(Part(a4, b, 4), Add(Part(a8, b, 8), Add(Part(a16, b, 16),
    Add(Part(a32, b, 32), Add(Part(a64, b, 64), Part(Xt(a64), b, 128))))))))
  }

  lemma OneTerm(a: bv8, b: bv8)
    ensures Mul(a, b) == Add(Part(a, b, 1), Mul(Xt(a), b >> 1))
  {
    hide Xt;
    if b == 0 {
      assert Mul(Xt(a), 0) == 0;
    }
  }

  lemma Shifted(a: bv8, b: bv8)
    ensures Part(a, b >> 1, 1) == Part(a, b, 2) && Part(a, b >> 2, 1) == Part(a, b, 4)
    ensures Part(a, b >> 3, 1) == Part(a, b, 8) && Part(a, b >> 4, 1) == Part(a, b, 16)
    ensures Part(a, b >> 5, 1) == Part(a, b, 32) && Part(a, b >> 6, 1) == Part(a, b, 64)
    ensures Part(a, b >> 7, 1) == Part(a, b, 128)
  {
  }

  lemma MulTerms(a: bv8, b: bv8)
    ensures Mul(a, b) == Terms(a, b)
  {
    hide Mul, Xt, Part, Add;
    var a2 := Xt(a);
    var a4 := Xt(a2);
    var a8 := Xt(a4);
    var a16 := Xt(a8);
    var a32 := Xt(a16);
    var a64 := Xt(a32);
    var a128 := Xt(a64);
    ShiftsOn(b);
    OneTerm(a, b);
    OneTerm(a2, b >> 1);
    OneTerm(a4, b >> 2);
    OneTerm(a8, b >> 3);
    OneTerm(a16, b >> 4);
    OneTerm(a32, b >> 5);
    OneTerm(a64, b >> 6);
    OneTerm(a128, b >> 7);
    LastTerm(a128, b);
    Shifted(a2, b);
    Shifted(a4, b);
    Shifted(a8, b);
    Shifted(a16, b);
    Shifted(a32, b);
    Shifted(a64, b);
  }

  lemma LastTerm(a: bv8, b: bv8)
    ensures Add(Part(a, b >> 7, 1), Mul(Xt(a), 0)) == Part(a, b, 128)
  {
    hide Xt;
    Shifted(a, b);
    assert Mul(Xt(a), 0) == 0;
  }

  /** y is the inverse of x, or both are zero. */
  predicate Inverse(x: bv8, y: bv8) {
    if x == 0 then y == 0 else Mul(x, y) == 1
  }

  /** The inverse, read off the table. */
  function Unmapped(z: bv8): bv8 {
    ((z << 1) | (z >> 7)) ^ ((z << 3) | (z >> 5)) ^ ((z << 6) | (z >> 2)) ^ 0x05
  }

  lemma AffineBack(z: bv8)
    ensures Affine(Unmapped(z)) == z
  {
  }

  predicate TermsRight(x: bv8) {
    var y := Unmapped(Sbox(x));
    if x == 0 then y == 0 else Terms(x, y) == 1
  }

  lemma Quarter0(x: bv8)
    requires x < 0x40
    ensures TermsRight(x)
  {
  }

  lemma Quarter1(x: bv8)
    requires 0x40 <= x < 0x80
    ensures TermsRight(x)
  {
  }

  lemma Quarter2(x: bv8)
    requires 0x80 <= x < 0xc0
    ensures TermsRight(x)
  {
  }

  lemma Quarter3(x: bv8)
    requires 0xc0 <= x
    ensures TermsRight(x)
  {
  }

  /** Every entry of the S-box is the affine map of the inverse of its index. */
  lemma SboxIsAffineInverse(x: bv8)
    ensures exists y :: Inverse(x, y) && Sbox(x) == Affine(y)
  {
    hide Terms, Mul, Sbox, Affine, Unmapped;
    var y := Unmapped(Sbox(x));
    if x < 0x40 {
      Quarter0(x);
    } else if x < 0x80 {
      Quarter1(x);
    } else if x < 0xc0 {
      Quarter2(x);
    } else {
      Quarter3(x);
    }
    MulTerms(x, y);
    AffineBack(Sbox(x));
    assert Inverse(x, y) && Sbox(x) == Affine(y);
  }
}
