/** The logical functions of SHA-1 on registers: the same as bit by bit, a byte or a word at a time. */
module Sha1Words {
  import opened Machine
  import opened Sha1Spec

  // ---- bit by bit ----

  lemma Powers()
    ensures Pow2(5) == 32 && Pow2(27) == 0x800_0000 && Pow2(30) == 0x4000_0000 && Pow2(31) == 0x8000_0000
    ensures Pow2(2) == 4 && Pow2(32) == M32
  {
    assert Pow2(4) == 16;
    assert Pow2(8) == 0x100;
    assert Pow2(12) == 0x1000;
    assert Pow2(16) == 0x1_0000;
    assert Pow2(20) == 0x10_0000;
    assert Pow2(24) == 0x100_0000;
    assert Pow2(28) == 0x1000_0000;
  }

  lemma {:induction false} XorZero(x: nat, n: nat)
    requires x < Pow2(n)
    ensures Xor(x, 0, n) == Xor(0, x, n) == x
  {
    if n > 0 {
      XorZero(x / 2, n - 1);
    }
  }

  /** One place of the three functions. */
  function Place(t: nat, x: bool, y: bool, z: bool): bool {
    if t < 20 then (if x then y else z)
    else if 40 <= t < 60 then (x && y) || (x && z) || (y && z)
    else (x != y) != z
  }

  function Places(t: nat, x: nat, y: nat, z: nat, n: nat): nat {
    if n == 0 then 0
    else (if Place(t, x % 2 == 1, y % 2 == 1, z % 2 == 1) then 1 else 0) + 2 * Places(t, x / 2, y / 2, z / 2, n - 1)
  }

  lemma Complement(x: nat, p: nat)
    requires x < 2 * p
    ensures (2 * p - 1 - x) / 2 == p - 1 - x / 2 && (2 * p - 1 - x) % 2 == 1 - x % 2
  {
  }

  lemma AndHalves(x: nat, y: nat, n: nat)
    requires n > 0
    ensures And(x, y, n) / 2 == And(x / 2, y / 2, n - 1)
    ensures And(x, y, n) % 2 == 1 <==> x % 2 == 1 && y % 2 == 1
  {
  }

  lemma OrHalves(x: nat, y: nat, n: nat)
    requires n > 0
    ensures Or(x, y, n) / 2 == Or(x / 2, y / 2, n - 1)
    ensures Or(x, y, n) % 2 == 1 <==> x % 2 == 1 || y % 2 == 1
  {
  }

  lemma {:induction false} Choices(t: nat, x: nat, y: nat, z: nat, n: nat)
    requires t < 20 && x < Pow2(n)
    ensures Or(And(x, y, n), And(Pow2(n) - 1 - x, z, n), n) == Places(t, x, y, z, n)
  {
    if n > 0 {
      hide Pow2, And, Or;
      HalfBelow(x, n);
      Twice(n);
      Complement(x, Pow2(n - 1));
      Choices(t, x / 2, y / 2, z / 2, n - 1);
      AndHalves(x, y, n);
      AndHalves(Pow2(n) - 1 - x, z, n);
      OrHalves(And(x, y, n), And(Pow2(n) - 1 - x, z, n), n);
    }
  }

  lemma {:induction false} Majorities(t: nat, x: nat, y: nat, z: nat, n: nat)
    requires 40 <= t < 60
    ensures Or(Or(And(x, y, n), And(x, z, n), n), And(y, z, n), n) == Places(t, x, y, z, n)
  {
    if n > 0 {
      hide And, Or;
      Majorities(t, x / 2, y / 2, z / 2, n - 1);
      AndHalves(x, y, n);
      AndHalves(x, z, n);
      AndHalves(y, z, n);
      OrHalves(And(x, y, n), And(x, z, n), n);
      OrHalves(Or(And(x, y, n), And(x, z, n), n), And(y, z, n), n);
    }
  }

  lemma {:induction false} Parities(t: nat, x: nat, y: nat, z: nat, n: nat)
    requires 20 <= t < 40 || 60 <= t
    ensures Xor(Xor(x, y, n), z, n) == Places(t, x, y, z, n)
  {
    if n > 0 {
      Parities(t, x / 2, y / 2, z / 2, n - 1);
      assert Xor(x, y, n) / 2 == Xor(x / 2, y / 2, n - 1);
    }
  }

  lemma LogicIs(t: nat, x: u32, y: u32, z: u32)
    ensures Logic(t, x, y, z) == Places(t, x, y, z, 32)
  {
    hide Places, Xor, And, Or, Pow2;
    Powers();
    if t < 20 {
      Choices(t, x, y, z, 32);
    } else if 40 <= t < 60 {
      Majorities(t, x, y, z, 32);
    } else {
      Parities(t, x, y, z, 32);
    }
  }

  // ---- a byte at a time ----

  function Xor8(x: bv8, y: bv8): bv8 {
    x ^ y
  }

  /** The three functions on bytes. */
  function OfByte(t: nat, x: bv8, y: bv8, z: bv8): bv8 {
    if t < 20 then (x & y) | (!x & z)
    else if 40 <= t < 60 then (x & y) | (x & z) | (y & z)
    else Xor8(Xor8(x, y), z)
  }

  lemma Halved(x: bv8, h: bv8)
    requires h == x >> 1
    ensures x as nat / 2 == h as nat && (x as nat % 2 == 1 <==> x & 1 == 1)
    ensures x as nat == 2 * (h as nat) + if x & 1 == 1 then 1 else 0
  {
  }

  lemma ChoiceBit(x: bv8, y: bv8, z: bv8)
    ensures ((x & y) | (!x & z)) & 1 == 1 <==> if x & 1 == 1 then y & 1 == 1 else z & 1 == 1
  {
  }

  lemma ChoiceRest(x: bv8, y: bv8, z: bv8, u: bv8, v: bv8, w: bv8)
    requires u == x >> 1 && v == y >> 1 && w == z >> 1
    ensures ((x & y) | (!x & z)) >> 1 == (u & v) | (!u & w)
  {
  }

  lemma MajorityBit(x: bv8, y: bv8, z: bv8)
    ensures var p, q, r := x & 1 == 1, y & 1 == 1, z & 1 == 1;
            ((x & y) | (x & z) | (y & z)) & 1 == 1 <==> (p && q) || (p && r) || (q && r)
  {
  }

  lemma MajorityRest(x: bv8, y: bv8, z: bv8, u: bv8, v: bv8, w: bv8)
    requires u == x >> 1 && v == y >> 1 && w == z >> 1
    ensures ((x & y) | (x & z) | (y & z)) >> 1 == (u & v) | (u & w) | (v & w)
  {
  }

  lemma ParityBit(x: bv8, y: bv8, z: bv8)
    ensures (x ^ y ^ z) & 1 == 1 <==> ((x & 1 == 1) != (y & 1 == 1)) != (z & 1 == 1)
  {
  }

  lemma ParityRest(x: bv8, y: bv8, z: bv8, u: bv8, v: bv8, w: bv8)
    requires u == x >> 1 && v == y >> 1 && w == z >> 1
    ensures (x ^ y ^ z) >> 1 == u ^ v ^ w
  {
  }

  lemma OfBit(t: nat, x: bv8, y: bv8, z: bv8)
    ensures OfByte(t, x, y, z) & 1 == 1 <==> Place(t, x & 1 == 1, y & 1 == 1, z & 1 == 1)
  {
    ChoiceBit(x, y, z);
    MajorityBit(x, y, z);
    ParityBit(x, y, z);
  }

  lemma ChoiceMoves(t: nat, x: bv8, y: bv8, z: bv8, u: bv8, v: bv8, w: bv8)
    requires t < 20 && u == x >> 1 && v == y >> 1 && w == z >> 1
    ensures OfByte(t, x, y, z) >> 1 == OfByte(t, u, v, w)
  {
    ChoiceRest(x, y, z, u, v, w);
  }

  lemma MajorityMoves(t: nat, x: bv8, y: bv8, z: bv8, u: bv8, v: bv8, w: bv8)
    requires 40 <= t < 60 && u == x >> 1 && v == y >> 1 && w == z >> 1
    ensures OfByte(t, x, y, z) >> 1 == OfByte(t, u, v, w)
  {
    MajorityRest(x, y, z, u, v, w);
  }

  lemma ParityMoves(t: nat, x: bv8, y: bv8, z: bv8, u: bv8, v: bv8, w: bv8)
    requires (20 <= t < 40 || 60 <= t) && u == x >> 1 && v == y >> 1 && w == z >> 1
    ensures OfByte(t, x, y, z) >> 1 == OfByte(t, u, v, w)
  {
    ParityRest(x, y, z, u, v, w);
  }

  lemma OfRest(t: nat, x: bv8, y: bv8, z: bv8, u: bv8, v: bv8, w: bv8)
    requires u == x >> 1 && v == y >> 1 && w == z >> 1
    ensures OfByte(t, x, y, z) >> 1 == OfByte(t, u, v, w)
  {
    hide OfByte;
    if t < 20 {
      ChoiceMoves(t, x, y, z, u, v, w);
    } else if 40 <= t < 60 {
      MajorityMoves(t, x, y, z, u, v, w);
    } else {
      ParityMoves(t, x, y, z, u, v, w);
    }
  }

  lemma HalfBelow(x: nat, n: nat)
    requires x < Pow2(n)
    ensures if n == 0 then x == 0 else x / 2 < Pow2(n - 1)
  {
  }

  lemma {:induction false} OfPlaces(t: nat, x: bv8, y: bv8, z: bv8, n: nat)
    requires n <= 8 && x as nat < Pow2(n) && y as nat < Pow2(n) && z as nat < Pow2(n)
    ensures OfByte(t, x, y, z) as nat == Places(t, x as nat, y as nat, z as nat, n)
  {
    hide OfByte, Place, Places, Pow2;
    HalfBelow(x as nat, n);
    HalfBelow(y as nat, n);
    HalfBelow(z as nat, n);
    if n > 0 {
      var u, v, w := x >> 1, y >> 1, z >> 1;
      Halved(x, u);
      Halved(y, v);
      Halved(z, w);
      OfPlaces(t, u, v, w, n - 1);
      OneMore(t, x, y, z, u, v, w, n);
    } else {
      NoPlaces(t);
    }
  }

  lemma OneMore(t: nat, x: bv8, y: bv8, z: bv8, u: bv8, v: bv8, w: bv8, n: nat)
    requires n > 0 && u == x >> 1 && v == y >> 1 && w == z >> 1
    requires OfByte(t, u, v, w) as nat == Places(t, u as nat, v as nat, w as nat, n - 1)
    ensures OfByte(t, x, y, z) as nat == Places(t, x as nat, y as nat, z as nat, n)
  {
    hide OfByte, Place, Places;
    var r, s := OfByte(t, x, y, z), OfByte(t, u, v, w);
    OfBit(t, x, y, z);
    OfRest(t, x, y, z, u, v, w);
    Halved(x, u);
    Halved(y, v);
    Halved(z, w);
    Halved(r, s);
    Step(t, x as nat, y as nat, z as nat, n);
  }

  lemma Step(t: nat, x: nat, y: nat, z: nat, n: nat)
    requires n > 0
    ensures Places(t, x, y, z, n) ==
            (if Place(t, x % 2 == 1, y % 2 == 1, z % 2 == 1) then 1 else 0) + 2 * Places(t, x / 2, y / 2, z / 2, n - 1)
  {
  }

  lemma NoPlaces(t: nat)
    ensures OfByte(t, 0, 0, 0) as nat == Places(t, 0, 0, 0, 0)
  {
  }

  lemma {:induction false} Joined(t: nat, x: nat, y: nat, z: nat, u: nat, v: nat, w: nat, k: nat, n: nat)
    requires x < Pow2(k) && y < Pow2(k) && z < Pow2(k)
    ensures Places(t, x + Pow2(k) * u, y + Pow2(k) * v, z + Pow2(k) * w, k + n) ==
            Places(t, x, y, z, k) + Pow2(k) * Places(t, u, v, w, n)
  {
    hide Place, Places, Pow2;
    HalfBelow(x, k);
    HalfBelow(y, k);
    HalfBelow(z, k);
    if k > 0 {
      Twice(k);
      var p := Pow2(k - 1);
      Doubled(x, p, u);
      Doubled(y, p, v);
      Doubled(z, p, w);
      Doubled(0, p, Places(t, u, v, w, n));
      Joined(t, x / 2, y / 2, z / 2, u, v, w, k - 1, n);
      Step(t, x + 2 * p * u, y + 2 * p * v, z + 2 * p * w, k + n);
      Step(t, x, y, z, k);
    } else {
      NoneLeft(t, x, y, z);
      Twice(k);
    }
  }

  lemma Twice(k: nat)
    ensures Pow2(k) == if k == 0 then 1 else 2 * Pow2(k - 1)
  {
  }

  lemma Doubled(x: nat, p: nat, u: nat)
    ensures 2 * p * u == 2 * (p * u) && (x + 2 * p * u) / 2 == x / 2 + p * u && (x + 2 * p * u) % 2 == x % 2
  {
  }

  // ---- a word at a time ----

  function Xor32(x: bv32, y: bv32): bv32 {
    x ^ y
  }

  /** The three functions on words, as the code has them. */
  function OfWord(t: nat, x: bv32, y: bv32, z: bv32): bv32 {
    if t < 20 then (x & y) | (!x & z)
    else if 40 <= t < 60 then (x & y) | (x & z) | (y & z)
    else Xor32(Xor32(x, y), z)
  }

  function Word(a: bv8, b: bv8, c: bv8, d: bv8): bv32 {
    ((a as bv32) << 24) | ((b as bv32) << 16) | ((c as bv32) << 8) | (d as bv32)
  }

  function Sum(a: bv8, b: bv8, c: bv8, d: bv8): nat {
    a as nat * 0x100_0000 + b as nat * 0x1_0000 + c as nat * 0x100 + d as nat
  }

  lemma WordSum(a: bv8, b: bv8, c: bv8, d: bv8, x: bv32)
    requires x == ((a as bv32) << 24) | ((b as bv32) << 16) | ((c as bv32) << 8) | (d as bv32)
    ensures x as nat == a as nat * 0x100_0000 + b as nat * 0x1_0000 + c as nat * 0x100 + d as nat
  {
  }

  lemma WordIs(a: bv8, b: bv8, c: bv8, d: bv8, x: bv32)
    requires x == Word(a, b, c, d)
    ensures x as nat == Sum(a, b, c, d)
  {
    WordSum(a, b, c, d, x);
  }

  lemma Cut(x: bv32) returns (a: bv8, b: bv8, c: bv8, d: bv8)
    ensures x == Word(a, b, c, d)
  {
    a, b, c, d := ((x >> 24) & 0xff) as bv8, ((x >> 16) & 0xff) as bv8, ((x >> 8) & 0xff) as bv8, (x & 0xff) as bv8;
  }

  lemma WordChoice(t: nat, a: bv8, b: bv8, c: bv8, d: bv8,
                   e: bv8, f: bv8, g: bv8, h: bv8, i: bv8, j: bv8, k: bv8, l: bv8)
    requires t < 20
    ensures OfWord(t, Word(a, b, c, d), Word(e, f, g, h), Word(i, j, k, l)) ==
            Word(OfByte(t, a, e, i), OfByte(t, b, f, j), OfByte(t, c, g, k), OfByte(t, d, h, l))
  {
  }

  lemma WordMajority(t: nat, a: bv8, b: bv8, c: bv8, d: bv8,
                     e: bv8, f: bv8, g: bv8, h: bv8, i: bv8, j: bv8, k: bv8, l: bv8)
    requires 40 <= t < 60
    ensures OfWord(t, Word(a, b, c, d), Word(e, f, g, h), Word(i, j, k, l)) ==
            Word(OfByte(t, a, e, i), OfByte(t, b, f, j), OfByte(t, c, g, k), OfByte(t, d, h, l))
  {
  }

  lemma WordXor(a: bv8, b: bv8, c: bv8, d: bv8, e: bv8, f: bv8, g: bv8, h: bv8)
    ensures Xor32(Word(a, b, c, d), Word(e, f, g, h)) == Word(Xor8(a, e), Xor8(b, f), Xor8(c, g), Xor8(d, h))
  {
  }

  lemma WordParity(t: nat, a: bv8, b: bv8, c: bv8, d: bv8,
                   e: bv8, f: bv8, g: bv8, h: bv8, i: bv8, j: bv8, k: bv8, l: bv8)
    requires 20 <= t < 40 || 60 <= t
    ensures OfWord(t, Word(a, b, c, d), Word(e, f, g, h), Word(i, j, k, l)) ==
            Word(OfByte(t, a, e, i), OfByte(t, b, f, j), OfByte(t, c, g, k), OfByte(t, d, h, l))
  {
    hide Word, Xor8, Xor32;
    WordXor(a, b, c, d, e, f, g, h);
    WordXor(Xor8(a, e), Xor8(b, f), Xor8(c, g), Xor8(d, h), i, j, k, l);
  }

  lemma WordOf(t: nat, a: bv8, b: bv8, c: bv8, d: bv8,
               e: bv8, f: bv8, g: bv8, h: bv8, i: bv8, j: bv8, k: bv8, l: bv8)
    ensures OfWord(t, Word(a, b, c, d), Word(e, f, g, h), Word(i, j, k, l)) ==
            Word(OfByte(t, a, e, i), OfByte(t, b, f, j), OfByte(t, c, g, k), OfByte(t, d, h, l))
  {
    hide OfWord, OfByte, Word;
    if t < 20 {
      WordChoice(t, a, b, c, d, e, f, g, h, i, j, k, l);
    } else if 40 <= t < 60 {
      WordMajority(t, a, b, c, d, e, f, g, h, i, j, k, l);
    } else {
      WordParity(t, a, b, c, d, e, f, g, h, i, j, k, l);
    }
  }

  lemma Joins(t: nat, x: bv8, y: bv8, z: bv8, u: nat, v: nat, w: nat, n: nat)
    ensures Places(t, x as nat + 0x100 * u, y as nat + 0x100 * v, z as nat + 0x100 * w, 8 + n) ==
            OfByte(t, x, y, z) as nat + 0x100 * Places(t, u, v, w, n)
  {
    hide Places, OfByte, Pow2;
    Pow2Of8();
    OfPlaces(t, x, y, z, 8);
    Joined(t, x as nat, y as nat, z as nat, u, v, w, 8, n);
  }

  lemma Pow2Of8()
    ensures Pow2(8) == 0x100
  {
    assert Pow2(4) == 16;
  }

  lemma SumOf(t: nat, a: bv8, b: bv8, c: bv8, d: bv8,
              e: bv8, f: bv8, g: bv8, h: bv8, i: bv8, j: bv8, k: bv8, l: bv8)
    ensures Places(t, Sum(a, b, c, d), Sum(e, f, g, h), Sum(i, j, k, l), 32) ==
            Sum(OfByte(t, a, e, i), OfByte(t, b, f, j), OfByte(t, c, g, k), OfByte(t, d, h, l))
  {
    hide Places, OfByte;
    NoneLeft(t, 0, 0, 0);
    Joins(t, a, e, i, 0, 0, 0, 0);
    Joins(t, b, f, j, a as nat, e as nat, i as nat, 8);
    var p, q, r := b as nat + 0x100 * (a as nat), f as nat + 0x100 * (e as nat), j as nat + 0x100 * (i as nat);
    Joins(t, c, g, k, p, q, r, 16);
    Joins(t, d, h, l, c as nat + 0x100 * p, g as nat + 0x100 * q, k as nat + 0x100 * r, 24);
  }

  /** Both give the same. */
  lemma LogicOf(t: nat, u: u32, v: u32, w: u32, x: bv32, y: bv32, z: bv32, r: bv32)
    requires u == x as nat && v == y as nat && w == z as nat && r == OfWord(t, x, y, z)
    ensures Logic(t, u, v, w) == r as nat
  {
    hide Places, Logic, Word, OfByte, OfWord, Sum;
    var a, b, c, d := Cut(x);
    var e, f, g, h := Cut(y);
    var i, j, k, l := Cut(z);
    WordIs(a, b, c, d, x);
    WordIs(e, f, g, h, y);
    WordIs(i, j, k, l, z);
    WordOf(t, a, b, c, d, e, f, g, h, i, j, k, l);
    WordIs(OfByte(t, a, e, i), OfByte(t, b, f, j), OfByte(t, c, g, k), OfByte(t, d, h, l), r);
    LogicIs(t, u, v, w);
    SumOf(t, a, b, c, d, e, f, g, h, i, j, k, l);
  }

  lemma NoneLeft(t: nat, x: nat, y: nat, z: nat)
    ensures Places(t, x, y, z, 0) == 0
  {
  }

  /** The constants of FIPS 180-4, section 4.2.1, are 2^30 times the roots of 2, 3, 5 and 10, rounded down. */
  lemma ConstantsAreRoots(t: nat)
    ensures var c := if t < 20 then 2 else if t < 40 then 3 else if t < 60 then 5 else 10;
            K(t) * K(t) <= c * 0x1000_0000_0000_0000 < (K(t) + 1) * (K(t) + 1)
  {
  }
}
