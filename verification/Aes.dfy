/** wpa.h: AES-128 (FIPS 197). */
module AesField {
  // ---- arithmetic in GF(2^8) ----

  /** Addition is exclusive or. */
  function Add(a: bv8, b: bv8): bv8 {
    a ^ b
  }

  /** aes_xt: multiplication by x. */
  function Xt(x: bv8): bv8 {
    (x << 1) ^ (if x & 0x80 != 0 then 0x1b else 0)
  }

  /** The loop of aes_mul; `MulIsProduct` says what it computes. */
  function Mul(a: bv8, b: bv8): bv8
    decreases b
  {
    if b == 0 then 0 else Add(if b & 1 != 0 then a else 0, Mul(Xt(a), b >> 1))
  }

  /** aes_mul: the product modulo x^8 + x^4 + x^3 + x + 1. */
  method AesMul(a0: bv8, b0: bv8) returns (r: bv8)
    ensures r == Mul(a0, b0) && Remainder(Times(Wide(a0), b0), r)
  {
    MulIsProduct(a0, b0);
    hide Times, Remainder, Wide;
    var a, b := a0, b0;
    r := 0;
    while b != 0
      invariant Add(r, Mul(a, b)) == Mul(a0, b0)
      decreases b
    {
      Regroup(r, a, Mul(Xt(a), b >> 1));
      if b & 1 != 0 {
        r := r ^ a;
      }
      a := Xt(a);
      b := b >> 1;
    }
  }

  lemma AddComm(a: bv8, b: bv8)
    ensures Add(a, b) == Add(b, a)
  {
  }

  lemma AddAssoc(a: bv8, b: bv8, c: bv8)
    ensures Add(Add(a, b), c) == Add(a, Add(b, c))
  {
  }

  lemma Exchange(a: bv8, b: bv8, c: bv8, d: bv8)
    ensures Add(Add(a, b), Add(c, d)) == Add(Add(a, c), Add(b, d))
  {
    hide Add;
    AddAssoc(a, b, Add(c, d));
    AddAssoc(b, c, d);
    AddComm(b, c);
    AddAssoc(c, b, d);
    AddAssoc(a, c, Add(b, d));
  }

  lemma Regroup(r: bv8, a: bv8, m: bv8)
    ensures Add(r, Add(a, m)) == Add(r ^ a, m) && Add(r, Add(0, m)) == Add(r, m)
  {
  }

  lemma XtAdd(a: bv8, b: bv8)
    ensures Xt(Add(a, b)) == Add(Xt(a), Xt(b))
  {
    if a & 0x80 != 0 {
      if b & 0x80 != 0 {
      }
    } else {
      if b & 0x80 != 0 {
      }
    }
  }

  /** One bit of the second factor. */
  lemma MulBit(a: bv8, b: bv8)
    requires b != 0
    ensures Mul(a, b) == if b & 1 != 0 then Add(a, Mul(Xt(a), b >> 1)) else Mul(Xt(a), b >> 1)
  {
    hide Xt;
    var m := Mul(Xt(a), b >> 1);
    assert Add(0, m) == m;
  }

  // ---- products of polynomials ----

  /** The polynomial of FIPS 197, section 4.2: x^8 + x^4 + x^3 + x + 1. */
  const MODULUS: bv16 := 0x11b

  function Wide(a: bv8): bv16 {
    a as bv16
  }

  function Plus(a: bv16, b: bv16): bv16 {
    a ^ b
  }

  /** Multiplication by x, without reduction. */
  function Up(p: bv16): bv16 {
    p << 1
  }

  /** The product of two polynomials over GF(2) whose degrees together stay below 16: the sum of
      p times x^i over the terms x^i of b. */
  function Times(p: bv16, b: bv8): bv16
    decreases b
  {
    if b == 0 then 0 else Plus(Low(p, b), Times(Up(p), b >> 1))
  }

  function Low(p: bv16, b: bv8): bv16 {
    if b & 1 != 0 then p else 0
  }

  /** r is what division of p by the modulus leaves. */
  ghost predicate Remainder(p: bv16, r: bv8) {
    exists q: bv8 :: p == Plus(Wide(r), Times(MODULUS, q))
  }

  function Quotient(a: bv8, b: bv8): bv8
    decreases b
  {
    if b == 0 then 0 else Add(if a & 0x80 != 0 then b >> 1 else 0, Quotient(Xt(a), b >> 1))
  }

  lemma PlusComm(a: bv16, b: bv16)
    ensures Plus(a, b) == Plus(b, a)
  {
  }

  lemma PlusAssoc(a: bv16, b: bv16, c: bv16)
    ensures Plus(Plus(a, b), c) == Plus(a, Plus(b, c))
  {
  }

  lemma PlusSelf(a: bv16)
    ensures Plus(a, a) == 0 && Plus(a, 0) == a && Plus(0, a) == a
  {
  }

  lemma PlusExchange(a: bv16, b: bv16, c: bv16, d: bv16)
    ensures Plus(Plus(a, b), Plus(c, d)) == Plus(Plus(a, c), Plus(b, d))
  {
    hide Plus;
    PlusAssoc(a, b, Plus(c, d));
    PlusAssoc(b, c, d);
    PlusComm(b, c);
    PlusAssoc(c, b, d);
    PlusAssoc(a, c, Plus(b, d));
  }

  lemma UpAdd(p: bv16, r: bv16)
    ensures Up(Plus(p, r)) == Plus(Up(p), Up(r))
  {
  }

  lemma LowAdd(p: bv16, r: bv16, b: bv8)
    ensures Low(Plus(p, r), b) == Plus(Low(p, b), Low(r, b))
  {
    PlusSelf(0);
  }

  lemma LowSum(p: bv16, b: bv8, c: bv8)
    ensures Low(p, Add(b, c)) == Plus(Low(p, b), Low(p, c))
  {
    hide Plus;
    PlusSelf(p);
    PlusSelf(0);
    assert Add(b, c) & 1 == (b & 1) ^ (c & 1);
    assert b & 1 == 0 || b & 1 == 1;
    assert c & 1 == 0 || c & 1 == 1;
  }

  lemma Halves(b: bv8, c: bv8)
    ensures Add(b, c) >> 1 == Add(b >> 1, c >> 1) && Add(0, 0) == 0
  {
  }

  lemma TimesBit(p: bv16, b: bv8)
    ensures Times(p, b) == Plus(Low(p, b), Times(Up(p), b >> 1))
  {
    if b == 0 {
      PlusSelf(0);
      assert Times(Up(p), 0) == 0;
    }
  }

  lemma {:induction false} TimesAdd(p: bv16, r: bv16, b: bv8)
    ensures Times(Plus(p, r), b) == Plus(Times(p, b), Times(r, b))
    decreases b
  {
    hide Plus, Up, Low;
    if b == 0 {
      PlusSelf(0);
    } else {
      TimesAdd(Up(p), Up(r), b >> 1);
      UpAdd(p, r);
      LowAdd(p, r, b);
      PlusExchange(Low(p, b), Low(r, b), Times(Up(p), b >> 1), Times(Up(r), b >> 1));
    }
  }

  lemma {:induction false} TimesSum(p: bv16, b: bv8, c: bv8)
    ensures Times(p, Add(b, c)) == Plus(Times(p, b), Times(p, c))
    decreases b, c
  {
    hide Plus, Up, Low, Times, Add;
    if b == 0 && c == 0 {
      Halves(0, 0);
      TimesNone(p);
      PlusSelf(0);
    } else {
      TimesSum(Up(p), b >> 1, c >> 1);
      TimesBit(p, b);
      TimesBit(p, c);
      TimesBit(p, Add(b, c));
      Halves(b, c);
      LowSum(p, b, c);
      PlusExchange(Low(p, b), Low(p, c), Times(Up(p), b >> 1), Times(Up(p), c >> 1));
    }
  }

  lemma TimesNone(p: bv16)
    ensures Times(p, 0) == 0
  {
  }

  lemma {:induction false} ZeroTimes(b: bv8)
    ensures Times(0, b) == 0
    decreases b
  {
    if b != 0 {
      ZeroTimes(b >> 1);
      assert Up(0) == 0 && Low(0, b) == 0;
      PlusSelf(0);
    }
  }

  lemma WideXt(a: bv8)
    ensures Up(Wide(a)) == Plus(Wide(Xt(a)), if a & 0x80 != 0 then MODULUS else 0)
  {
  }

  lemma WideAdd(a: bv8, b: bv8)
    ensures Wide(Add(a, b)) == Plus(Wide(a), Wide(b)) && Wide(0) == 0
  {
  }

  lemma {:induction false} Divides(a: bv8, b: bv8)
    ensures Times(Wide(a), b) == Plus(Wide(Mul(a, b)), Times(MODULUS, Quotient(a, b)))
    decreases b
  {
    hide Wide, Plus, Add, Up, Low, Xt;
    if b == 0 {
      TimesNone(MODULUS);
      WideAdd(0, 0);
      PlusSelf(0);
    } else {
      Divides(Xt(a), b >> 1);
      DivideBit(a, b, Mul(Xt(a), b >> 1), Quotient(Xt(a), b >> 1));
    }
  }

  /** One step of the division, for the remainder and the quotient of the step below. */
  lemma DivideBit(a: bv8, b: bv8, m: bv8, q: bv8)
    requires Times(Wide(Xt(a)), b >> 1) == Plus(Wide(m), Times(MODULUS, q))
    ensures Times(Wide(a), b) ==
            Plus(Wide(Add(if b & 1 != 0 then a else 0, m)), Times(MODULUS, Add(if a & 0x80 != 0 then b >> 1 else 0, q)))
  {
    hide Times, Plus, Add, Xt, Wide, Low, Up;
    var low := if b & 1 != 0 then a else 0;
    var half := if a & 0x80 != 0 then b >> 1 else 0;
    TimesBit(Wide(a), b);
    WideXt(a);
    TimesAdd(Wide(Xt(a)), if a & 0x80 != 0 then MODULUS else 0, b >> 1);
    HighTimes(a, b);
    LowIsWide(a, b);
    TimesSum(MODULUS, half, q);
    WideAdd(low, m);
    Combine(Wide(low), Wide(m), Times(MODULUS, q), Times(MODULUS, half));
  }

  lemma HighTimes(a: bv8, b: bv8)
    ensures Times(if a & 0x80 != 0 then MODULUS else 0, b >> 1) == Times(MODULUS, if a & 0x80 != 0 then b >> 1 else 0)
  {
    if a & 0x80 == 0 {
      TimesNone(MODULUS);
      ZeroTimes(b >> 1);
    }
  }

  lemma LowIsWide(a: bv8, b: bv8)
    ensures Low(Wide(a), b) == Wide(if b & 1 != 0 then a else 0)
  {
  }

  lemma Combine(l: bv16, m: bv16, q: bv16, h: bv16)
    ensures Plus(l, Plus(Plus(m, q), h)) == Plus(Plus(l, m), Plus(h, q))
  {
    hide Plus;
    PlusAssoc(m, q, h);
    PlusComm(q, h);
    PlusAssoc(l, m, Plus(h, q));
  }

  /** aes_mul gives the product modulo x^8 + x^4 + x^3 + x + 1: of all polynomials of degree below 8 the
      one that differs from the product by a multiple of the modulus. */
  lemma MulIsProduct(a: bv8, b: bv8)
    ensures forall r: bv8 :: r == Mul(a, b) <==> Remainder(Times(Wide(a), b), r)
  {
    hide Times, Mul, Wide, Plus, Add;
    Divides(a, b);
    var p := Times(Wide(a), b);
    assert Remainder(p, Mul(a, b));
    forall r: bv8 | Remainder(p, r) ensures r == Mul(a, b) {
      var q: bv8 :| p == Plus(Wide(r), Times(MODULUS, q));
      OneRemainder(r, Mul(a, b), q, Quotient(a, b));
    }
  }

  lemma OneRemainder(r: bv8, s: bv8, q: bv8, k: bv8)
    requires Plus(Wide(r), Times(MODULUS, q)) == Plus(Wide(s), Times(MODULUS, k))
    ensures r == s
  {
    hide Times, Plus, Wide, Add;
    TimesSum(MODULUS, q, k);
    WideAdd(r, s);
    Moved(Wide(r), Times(MODULUS, q), Wide(s), Times(MODULUS, k));
    SmallMultiple(Add(r, s), Add(q, k));
    SumZero(r, s);
  }

  lemma Moved(a: bv16, b: bv16, c: bv16, d: bv16)
    requires Plus(a, b) == Plus(c, d)
    ensures Plus(a, c) == Plus(b, d)
  {
    hide Plus;
    PlusExchange(a, b, c, d);
    PlusSelf(Plus(a, b));
    PlusSelf(Plus(b, d));
    PlusAssoc(Plus(a, c), Plus(b, d), Plus(b, d));
    PlusSelf(Plus(a, c));
  }

  lemma SumZero(r: bv8, s: bv8)
    ensures Add(r, s) == 0 ==> r == s
  {
  }

  /** A multiple of the modulus of degree below 8 is zero. */
  lemma SmallMultiple(r: bv8, q: bv8)
    requires Wide(r) == Times(MODULUS, q)
    ensures q == 0 && r == 0
  {
    TimesBit(0x11b, q);
    TimesBit(0x236, q >> 1);
    TimesBit(0x46c, q >> 2);
    TimesBit(0x8d8, q >> 3);
    TimesBit(0x11b0, q >> 4);
    TimesBit(0x2360, q >> 5);
    TimesBit(0x46c0, q >> 6);
    TimesBit(0x8d80, q >> 7);
    TimesNone(0x1b00);
    Multiples();
    ShiftsOn(q);
    hide Times, Up;
    SmallSum(r, q);
  }

  lemma Multiples()
    ensures Up(0x11b) == 0x236 && Up(0x236) == 0x46c && Up(0x46c) == 0x8d8 && Up(0x8d8) == 0x11b0
    ensures Up(0x11b0) == 0x2360 && Up(0x2360) == 0x46c0 && Up(0x46c0) == 0x8d80 && Up(0x8d80) == 0x1b00
  {
  }

  lemma ShiftsOn(q: bv8)
    ensures (q >> 1) >> 1 == q >> 2 && (q >> 2) >> 1 == q >> 3 && (q >> 3) >> 1 == q >> 4
    ensures (q >> 4) >> 1 == q >> 5 && (q >> 5) >> 1 == q >> 6 && (q >> 6) >> 1 == q >> 7 && (q >> 7) >> 1 == 0
  {
  }

  lemma SmallSum(r: bv8, q: bv8)
    requires Wide(r) == Plus(Low(0x11b, q), Plus(Low(0x236, q >> 1), Plus(Low(0x46c, q >> 2), Plus(Low(0x8d8, q >> 3),
                        Plus(Low(0x11b0, q >> 4),
                             Plus(Low(0x2360, q >> 5), Plus(Low(0x46c0, q >> 6), Plus(Low(0x8d80, q >> 7), 0))))))))
    ensures q == 0 && r == 0
  {
  }

  lemma MulOne(a: bv8)
    ensures Mul(a, 1) == a
  {
    hide Xt;
    MulBit(a, 1);
    assert Add(a, 0) == a;
  }

  lemma Times2(a: bv8)
    ensures Mul(a, 2) == Xt(a)
  {
    hide Mul, Xt, Add;
    MulBit(a, 2);
    MulOne(Xt(a));
  }

  lemma Times3(a: bv8)
    ensures Mul(a, 3) == Add(a, Xt(a))
  {
    hide Mul, Xt, Add;
    MulBit(a, 3);
    MulOne(Xt(a));
  }

  lemma Times9(a: bv8)
    ensures Mul(a, 9) == Add(a, Xt(Xt(Xt(a))))
  {
    hide Mul, Xt, Add;
    MulBit(a, 9);
    MulBit(Xt(a), 4);
    Times2(Xt(Xt(a)));
  }

  lemma Times11(a: bv8)
    ensures Mul(a, 11) == Add(a, Add(Xt(a), Xt(Xt(Xt(a)))))
  {
    hide Mul, Xt, Add;
    MulBit(a, 11);
    MulBit(Xt(a), 5);
    Times2(Xt(Xt(a)));
  }

  lemma Times13(a: bv8)
    ensures Mul(a, 13) == Add(a, Add(Xt(Xt(a)), Xt(Xt(Xt(a)))))
  {
    hide Mul, Xt, Add;
    MulBit(a, 13);
    MulBit(Xt(a), 6);
    Times3(Xt(Xt(a)));
  }

  lemma Times14(a: bv8)
    ensures Mul(a, 14) == Add(Xt(a), Add(Xt(Xt(a)), Xt(Xt(Xt(a)))))
  {
    hide Mul, Xt, Add;
    MulBit(a, 14);
    MulBit(Xt(a), 7);
    Times3(Xt(Xt(a)));
  }

  // ---- one column ----

  function Sum4(a: bv8, b: bv8, c: bv8, d: bv8): bv8 {
    Add(Add(Add(a, b), c), d)
  }

  /** The first byte MixColumns makes of a column; the others are the same of the rotated one. */
  function Mix(a0: bv8, a1: bv8, a2: bv8, a3: bv8): bv8 {
    Add(a0, Add(Sum4(a0, a1, a2, a3), Xt(Add(a0, a1))))
  }

  /** The first byte InvMixColumns makes of a column. */
  function Unmix(a0: bv8, a1: bv8, a2: bv8, a3: bv8): bv8 {
    Sum4(Mul(a0, 14), Mul(a1, 11), Mul(a2, 13), Mul(a3, 9))
  }

  /** MixColumns is the matrix product of FIPS 197, section 5.1.3. */
  lemma MixIsProduct(a0: bv8, a1: bv8, a2: bv8, a3: bv8)
    ensures Mix(a0, a1, a2, a3) == Sum4(Mul(a0, 2), Mul(a1, 3), a2, a3)
  {
    hide Mul, Xt, Add, Sum4;
    XtAdd(a0, a1);
    Times2(a0);
    Times3(a1);
    var p0, p1 := Xt(a0), Xt(a1);
    AddFour(a0, Sum4(a0, a1, a2, a3), p0, p1);
    SumFour(a0, a1, a2, a3);
    SumFour(p0, Add(a1, p1), a2, a3);
    AddTwo(a1, p1);
    MixAtoms(a0, a1, a2, a3, p0, p1, Sum4(a0, a1, a2, a3), Add(a1, p1), Sum4(p0, Add(a1, p1), a2, a3));
  }

  lemma AddTwo(a: bv8, b: bv8)
    ensures Add(a, b) == a ^ b
  {
  }

  lemma AddFour(a: bv8, b: bv8, c: bv8, d: bv8)
    ensures Add(a, Add(b, Add(c, d))) == a ^ (b ^ (c ^ d))
  {
  }

  lemma SumFour(a: bv8, b: bv8, c: bv8, d: bv8)
    ensures Sum4(a, b, c, d) == a ^ b ^ c ^ d
  {
  }

  lemma MixAtoms(a0: bv8, a1: bv8, a2: bv8, a3: bv8, p0: bv8, p1: bv8, s: bv8, t: bv8, u: bv8)
    requires s == a0 ^ a1 ^ a2 ^ a3 && t == a1 ^ p1 && u == p0 ^ t ^ a2 ^ a3
    ensures a0 ^ (s ^ (p0 ^ p1)) == u
  {
  }

  /** Multiplying is linear. */
  lemma {:induction false} MulAdd(x: bv8, y: bv8, b: bv8)
    ensures Mul(Add(x, y), b) == Add(Mul(x, b), Mul(y, b))
    decreases b
  {
    if b == 0 {
      assert Add(0, 0) == 0;
    } else {
      MulBit(Add(x, y), b);
      MulBit(x, b);
      MulBit(y, b);
      XtAdd(x, y);
      MulAdd(Xt(x), Xt(y), b >> 1);
      hide Add, Mul, Xt;
      Exchange(x, y, Mul(Xt(x), b >> 1), Mul(Xt(y), b >> 1));
    }
  }

  lemma MulSum4(x0: bv8, x1: bv8, x2: bv8, x3: bv8, b: bv8)
    ensures Mul(Sum4(x0, x1, x2, x3), b) == Sum4(Mul(x0, b), Mul(x1, b), Mul(x2, b), Mul(x3, b))
  {
    hide Add, Mul;
    MulAdd(Add(Add(x0, x1), x2), x3, b);
    MulAdd(Add(x0, x1), x2, b);
    MulAdd(x0, x1, b);
  }

  lemma Sum4Add(a0: bv8, a1: bv8, a2: bv8, a3: bv8, b0: bv8, b1: bv8, b2: bv8, b3: bv8)
    ensures Add(Sum4(a0, a1, a2, a3), Sum4(b0, b1, b2, b3)) ==
            Sum4(Add(a0, b0), Add(a1, b1), Add(a2, b2), Add(a3, b3))
  {
    hide Add;
    Exchange(Add(Add(a0, a1), a2), a3, Add(Add(b0, b1), b2), b3);
    Exchange(Add(a0, a1), a2, Add(b0, b1), b2);
    Exchange(a0, a1, b0, b1);
  }

  lemma Sum4Rotate(a0: bv8, a1: bv8, a2: bv8, a3: bv8)
    ensures Sum4(a0, a1, a2, a3) == Sum4(a3, a0, a1, a2)
  {
    hide Add;
    AddComm(Add(Add(a0, a1), a2), a3);
    AddAssoc(a3, Add(a0, a1), a2);
    AddAssoc(a3, a0, a1);
  }

  /** Row sums of row sums are column sums of column sums. */
  lemma Transpose(a0: bv8, a1: bv8, a2: bv8, a3: bv8, b0: bv8, b1: bv8, b2: bv8, b3: bv8,
                  c0: bv8, c1: bv8, c2: bv8, c3: bv8, d0: bv8, d1: bv8, d2: bv8, d3: bv8)
    ensures Sum4(Sum4(a0, a1, a2, a3), Sum4(b0, b1, b2, b3), Sum4(c0, c1, c2, c3), Sum4(d0, d1, d2, d3)) ==
            Sum4(Sum4(a0, b0, c0, d0), Sum4(a1, b1, c1, d1), Sum4(a2, b2, c2, d2), Sum4(a3, b3, c3, d3))
  {
    hide Add;
    Sum4Add(a0, a1, a2, a3, b0, b1, b2, b3);
    Sum4Add(Add(a0, b0), Add(a1, b1), Add(a2, b2), Add(a3, b3), c0, c1, c2, c3);
    Sum4Add(Add(Add(a0, b0), c0), Add(Add(a1, b1), c1), Add(Add(a2, b2), c2), Add(Add(a3, b3), c3), d0, d1, d2, d3);
  }

  // ---- the coefficients of the product of the two column matrices ----

  /** 2 k a for the inverse factors k. */
  lemma Twice(a: bv8)
    ensures var p, q, r, s := Xt(a), Xt(Xt(a)), Xt(Xt(Xt(a))), Xt(Xt(Xt(Xt(a))));
            && Mul(Mul(a, 2), 9) == Add(p, s) && Mul(Mul(a, 2), 11) == Add(p, Add(q, s))
            && Mul(Mul(a, 2), 13) == Add(p, Add(r, s)) && Mul(Mul(a, 2), 14) == Add(q, Add(r, s))
  {
    hide Xt, Mul, Add;
    Times2(a);
    Times9(Xt(a));
    Times11(Xt(a));
    Times13(Xt(a));
    Times14(Xt(a));
  }

  /** 3 k a for the inverse factors k. */
  lemma Thrice(a: bv8)
    ensures var p, q, r, s := Xt(a), Xt(Xt(a)), Xt(Xt(Xt(a))), Xt(Xt(Xt(Xt(a))));
            && Mul(Mul(a, 3), 9) == Add(Add(a, r), Add(p, s)) && Mul(Mul(a, 3), 11) == Add(Add(a, r), Add(q, s))
            && Mul(Mul(a, 3), 13) == Add(Add(a, p), Add(q, s)) && Mul(Mul(a, 3), 14) == Add(p, s)
  {
    hide Xt, Mul, Add;
    var p, q, r, s := Xt(a), Xt(Xt(a)), Xt(Xt(Xt(a))), Xt(Xt(Xt(Xt(a))));
    Times2(a);
    Times3(a);
    Twice(a);
    MulAdd(a, p, 9);
    MulAdd(a, p, 11);
    MulAdd(a, p, 13);
    MulAdd(a, p, 14);
    Times9(a);
    Times11(a);
    Times13(a);
    Times14(a);
    Cancel11(a, p, q, r, s);
    Cancel13(a, p, q, r, s);
    Cancel14(p, q, r, s);
  }

  lemma Cancel11(a: bv8, p: bv8, q: bv8, r: bv8, s: bv8)
    ensures Add(Add(a, Add(p, r)), Add(p, Add(q, s))) == Add(Add(a, r), Add(q, s))
  {
  }

  lemma Cancel13(a: bv8, p: bv8, q: bv8, r: bv8, s: bv8)
    ensures Add(Add(a, Add(q, r)), Add(p, Add(r, s))) == Add(Add(a, p), Add(q, s))
  {
  }

  lemma Cancel14(p: bv8, q: bv8, r: bv8, s: bv8)
    ensures Add(Add(p, Add(q, r)), Add(q, Add(r, s))) == Add(p, s)
  {
  }

  lemma Cancel0(a: bv8, p: bv8, q: bv8, r: bv8, s: bv8)
    ensures Sum4(Add(q, Add(r, s)), Add(a, Add(p, r)), Add(a, Add(q, r)), Add(Add(a, r), Add(p, s))) == a
  {
  }

  lemma Cancel1(a: bv8, p: bv8, q: bv8, r: bv8, s: bv8)
    ensures Sum4(Add(p, s), Add(p, Add(q, s)), Add(a, Add(q, r)), Add(a, r)) == 0
  {
  }

  lemma Cancel2(a: bv8, p: bv8, q: bv8, r: bv8, s: bv8)
    ensures Sum4(Add(p, Add(q, r)), Add(Add(a, r), Add(q, s)), Add(p, Add(r, s)), Add(a, r)) == 0
  {
  }

  lemma Cancel3(a: bv8, p: bv8, q: bv8, r: bv8, s: bv8)
    ensures Sum4(Add(p, Add(q, r)), Add(a, Add(p, r)), Add(Add(a, p), Add(q, s)), Add(p, s)) == 0
  {
  }

  /** What the four bytes of a mixed column contribute of one original byte: all of it to its own
      place, nothing to the others. */
  lemma Coefficients(a: bv8)
    ensures Sum4(Mul(Mul(a, 2), 14), Mul(a, 11), Mul(a, 13), Mul(Mul(a, 3), 9)) == a
    ensures Sum4(Mul(Mul(a, 3), 14), Mul(Mul(a, 2), 11), Mul(a, 13), Mul(a, 9)) == 0
    ensures Sum4(Mul(a, 14), Mul(Mul(a, 3), 11), Mul(Mul(a, 2), 13), Mul(a, 9)) == 0
    ensures Sum4(Mul(a, 14), Mul(a, 11), Mul(Mul(a, 3), 13), Mul(Mul(a, 2), 9)) == 0
  {
    hide Xt, Mul, Add, Sum4;
    var p, q, r, s := Xt(a), Xt(Xt(a)), Xt(Xt(Xt(a))), Xt(Xt(Xt(Xt(a))));
    Times9(a);
    Times11(a);
    Times13(a);
    Times14(a);
    Twice(a);
    Thrice(a);
    Cancel0(a, p, q, r, s);
    Cancel1(a, p, q, r, s);
    Cancel2(a, p, q, r, s);
    Cancel3(a, p, q, r, s);
  }

  lemma Sum4Zeros(a: bv8)
    ensures Sum4(a, 0, 0, 0) == a && Sum4(0, a, 0, 0) == a && Sum4(0, 0, a, 0) == a && Sum4(0, 0, 0, a) == a
  {
  }

  /** InvMixColumns undoes MixColumns. */
  lemma UnmixMix(a0: bv8, a1: bv8, a2: bv8, a3: bv8)
    ensures Unmix(Mix(a0, a1, a2, a3), Mix(a1, a2, a3, a0), Mix(a2, a3, a0, a1), Mix(a3, a0, a1, a2)) == a0
  {
    hide Xt, Mul, Add, Sum4, Mix;
    MixRows(a0, a1, a2, a3);
    MulSum4(Mul(a0, 2), Mul(a1, 3), a2, a3, 14);
    MulSum4(a0, Mul(a1, 2), Mul(a2, 3), a3, 11);
    MulSum4(a0, a1, Mul(a2, 2), Mul(a3, 3), 13);
    MulSum4(Mul(a0, 3), a1, a2, Mul(a3, 2), 9);
    Transpose(Mul(Mul(a0, 2), 14), Mul(Mul(a1, 3), 14), Mul(a2, 14), Mul(a3, 14),
              Mul(a0, 11), Mul(Mul(a1, 2), 11), Mul(Mul(a2, 3), 11), Mul(a3, 11),
              Mul(a0, 13), Mul(a1, 13), Mul(Mul(a2, 2), 13), Mul(Mul(a3, 3), 13),
              Mul(Mul(a0, 3), 9), Mul(a1, 9), Mul(a2, 9), Mul(Mul(a3, 2), 9));
    Coefficients(a0);
    Coefficients(a1);
    Coefficients(a2);
    Coefficients(a3);
    Sum4Zeros(a0);
  }

  /** The four mixed bytes as rows of the matrix of FIPS 197. */
  lemma MixRows(a0: bv8, a1: bv8, a2: bv8, a3: bv8)
    ensures Mix(a0, a1, a2, a3) == Sum4(Mul(a0, 2), Mul(a1, 3), a2, a3)
    ensures Mix(a1, a2, a3, a0) == Sum4(a0, Mul(a1, 2), Mul(a2, 3), a3)
    ensures Mix(a2, a3, a0, a1) == Sum4(a0, a1, Mul(a2, 2), Mul(a3, 3))
    ensures Mix(a3, a0, a1, a2) == Sum4(Mul(a0, 3), a1, a2, Mul(a3, 2))
  {
    hide Xt, Mul, Add, Sum4, Mix;
    MixIsProduct(a0, a1, a2, a3);
    MixIsProduct(a1, a2, a3, a0);
    MixIsProduct(a2, a3, a0, a1);
    MixIsProduct(a3, a0, a1, a2);
    Sum4Rotate(Mul(a1, 2), Mul(a2, 3), a3, a0);
    Sum4Rotate(Mul(a2, 2), Mul(a3, 3), a0, a1);
    Sum4Rotate(a1, Mul(a2, 2), Mul(a3, 3), a0);
    Sum4Rotate(Mul(a3, 2), Mul(a0, 3), a1, a2);
    Sum4Rotate(a2, Mul(a3, 2), Mul(a0, 3), a1);
    Sum4Rotate(a1, a2, Mul(a3, 2), Mul(a0, 3));
  }

  // ---- and the other way round ----

  /** Factors may be exchanged. */
  lemma {:induction false} MulXt(a: bv8, b: bv8)
    ensures Mul(Xt(a), b) == Xt(Mul(a, b))
    decreases b
  {
    if b == 0 {
      assert Xt(0) == 0;
    } else {
      MulBit(a, b);
      MulBit(Xt(a), b);
      MulXt(Xt(a), b >> 1);
      XtAdd(a, Mul(Xt(a), b >> 1));
    }
  }

  lemma Swapped(a: bv8, b: bv8)
    ensures Mul(Mul(a, b), 2) == Mul(Mul(a, 2), b) && Mul(Mul(a, b), 3) == Mul(Mul(a, 3), b)
  {
    hide Xt, Mul, Add;
    Times2(a);
    Times2(Mul(a, b));
    Times3(a);
    Times3(Mul(a, b));
    MulXt(a, b);
    MulAdd(a, Xt(a), b);
  }

  /** Neighbours may be exchanged. */
  lemma Neighbours(a: bv8, b: bv8, c: bv8, d: bv8)
    ensures Sum4(a, b, c, d) == Sum4(b, a, c, d) == Sum4(a, c, b, d) == Sum4(a, b, d, c)
  {
    hide Add;
    AddComm(a, b);
    AddAssoc(a, b, c);
    AddComm(b, c);
    AddAssoc(a, c, b);
    AddAssoc(Add(a, b), c, d);
    AddComm(c, d);
    AddAssoc(Add(a, b), d, c);
  }

  /** Sum4 in the orders needed below. */
  lemma Sum4Orders(a: bv8, b: bv8, c: bv8, d: bv8)
    ensures Sum4(a, b, c, d) == Sum4(a, d, c, b) == Sum4(b, a, d, c) == Sum4(c, b, a, d) == Sum4(d, c, b, a)
  {
    hide Add, Sum4;
    Neighbours(a, b, c, d);
    Neighbours(a, c, b, d);
    Neighbours(a, c, d, b);
    Neighbours(b, a, c, d);
    Neighbours(b, c, a, d);
    Neighbours(c, b, a, d);
    Neighbours(c, b, d, a);
    Neighbours(c, d, b, a);
  }

  /** The contributions of one byte when a column is unmixed first and mixed then. */
  lemma SwappedCoefficients(a: bv8)
    ensures Sum4(Mul(Mul(a, 14), 2), Mul(Mul(a, 9), 3), Mul(a, 13), Mul(a, 11)) == a
    ensures Sum4(Mul(Mul(a, 11), 2), Mul(Mul(a, 14), 3), Mul(a, 9), Mul(a, 13)) == 0
    ensures Sum4(Mul(Mul(a, 13), 2), Mul(Mul(a, 11), 3), Mul(a, 14), Mul(a, 9)) == 0
    ensures Sum4(Mul(Mul(a, 9), 2), Mul(Mul(a, 13), 3), Mul(a, 11), Mul(a, 14)) == 0
  {
    hide Add, Mul, Sum4;
    Coefficients(a);
    Swapped(a, 9);
    Swapped(a, 11);
    Swapped(a, 13);
    Swapped(a, 14);
    Sum4Orders(Mul(Mul(a, 2), 14), Mul(a, 11), Mul(a, 13), Mul(Mul(a, 3), 9));
    Sum4Orders(Mul(Mul(a, 3), 14), Mul(Mul(a, 2), 11), Mul(a, 13), Mul(a, 9));
    Sum4Orders(Mul(a, 14), Mul(Mul(a, 3), 11), Mul(Mul(a, 2), 13), Mul(a, 9));
    Sum4Orders(Mul(a, 14), Mul(a, 11), Mul(Mul(a, 3), 13), Mul(Mul(a, 2), 9));
    Neighbours(Mul(Mul(a, 2), 14), Mul(Mul(a, 3), 9), Mul(a, 13), Mul(a, 11));
  }

  /** MixColumns undoes InvMixColumns. */
  lemma MixUnmix(a0: bv8, a1: bv8, a2: bv8, a3: bv8)
    ensures Mix(Unmix(a0, a1, a2, a3), Unmix(a1, a2, a3, a0), Unmix(a2, a3, a0, a1), Unmix(a3, a0, a1, a2)) == a0
  {
    hide Xt, Mul, Add, Sum4, Mix;
    UnmixRows(a0, a1, a2, a3);
    MixIsProduct(Unmix(a0, a1, a2, a3), Unmix(a1, a2, a3, a0), Unmix(a2, a3, a0, a1), Unmix(a3, a0, a1, a2));
    MulSum4(Mul(a0, 14), Mul(a1, 11), Mul(a2, 13), Mul(a3, 9), 2);
    MulSum4(Mul(a0, 9), Mul(a1, 14), Mul(a2, 11), Mul(a3, 13), 3);
    Transpose(Mul(Mul(a0, 14), 2), Mul(Mul(a1, 11), 2), Mul(Mul(a2, 13), 2), Mul(Mul(a3, 9), 2),
              Mul(Mul(a0, 9), 3), Mul(Mul(a1, 14), 3), Mul(Mul(a2, 11), 3), Mul(Mul(a3, 13), 3),
              Mul(a0, 13), Mul(a1, 9), Mul(a2, 14), Mul(a3, 11),
              Mul(a0, 11), Mul(a1, 13), Mul(a2, 9), Mul(a3, 14));
    SwappedCoefficients(a0);
    SwappedCoefficients(a1);
    SwappedCoefficients(a2);
    SwappedCoefficients(a3);
    Sum4Zeros(a0);
  }

  lemma UnmixRows(a0: bv8, a1: bv8, a2: bv8, a3: bv8)
    ensures Unmix(a1, a2, a3, a0) == Sum4(Mul(a0, 9), Mul(a1, 14), Mul(a2, 11), Mul(a3, 13))
    ensures Unmix(a2, a3, a0, a1) == Sum4(Mul(a0, 13), Mul(a1, 9), Mul(a2, 14), Mul(a3, 11))
    ensures Unmix(a3, a0, a1, a2) == Sum4(Mul(a0, 11), Mul(a1, 13), Mul(a2, 9), Mul(a3, 14))
  {
    hide Mul, Add, Sum4;
    Sum4Rotate(Mul(a1, 14), Mul(a2, 11), Mul(a3, 13), Mul(a0, 9));
    Sum4Rotate(Mul(a2, 14), Mul(a3, 11), Mul(a0, 13), Mul(a1, 9));
    Sum4Rotate(Mul(a1, 9), Mul(a2, 14), Mul(a3, 11), Mul(a0, 13));
    Sum4Rotate(Mul(a3, 14), Mul(a0, 11), Mul(a1, 13), Mul(a2, 9));
    Sum4Rotate(Mul(a2, 9), Mul(a3, 14), Mul(a0, 11), Mul(a1, 13));
    Sum4Rotate(Mul(a1, 13), Mul(a2, 9), Mul(a3, 14), Mul(a0, 11));
  }
}
