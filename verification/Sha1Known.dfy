/** The example of FIPS 180-4 for "abc": the hash of one block, step by step. */
module Sha1Known {
  import opened Machine
  import opened Sha1Spec
  import opened Sha1Words

  // ---- one word of the schedule, one step ----

  /** "abc" padded to a block. */
  const BLOCK: Octets := [0x61, 0x62, 0x63, 0x80] + Zeros(52) + [0, 0, 0, 0, 0, 0, 0, 24]

  lemma FirstWords()
    ensures W(BLOCK, 0) == 0x61626380 && W(BLOCK, 15) == 24 && forall i :: 0 < i < 15 ==> W(BLOCK, i) == 0
  {
    hide Zeros;
    assert BLOCK[0] == 0x61 && BLOCK[1] == 0x62 && BLOCK[2] == 0x63 && BLOCK[3] == 0x80 && BLOCK[63] == 24;
    assert forall i :: 4 <= i < 63 ==> BLOCK[i] == 0;
  }

  /** The number a register holds. */
  function Num(x: bv32): u32 {
    x as nat
  }

  lemma Mixed(p: bv32, q: bv32, r: bv32, s: bv32, v: bv32)
    requires v == Xor32(Xor32(Xor32(p, q), r), s)
    ensures Xor(Xor(Xor(Num(p), Num(q), 32), Num(r), 32), Num(s), 32) == Num(v)
  {
    hide Xor, Pow2, Logic, Xor32;
    Powers();
    var u := Xor32(Xor32(p, q), r);
    ParityOf(p, q, r, u);
    XorNone(v);
    ParityOf(u, s, 0, v);
    XorZero(Xor(Num(u), Num(s), 32), 32);
  }

  lemma XorNone(x: bv32)
    ensures Xor32(x, 0) == x
  {
  }

  lemma ParityOf(p: bv32, q: bv32, r: bv32, v: bv32)
    requires v == Xor32(Xor32(p, q), r)
    ensures Xor(Xor(Num(p), Num(q), 32), Num(r), 32) == Num(v)
  {
    hide Xor, Xor32;
    LogicOf(20, Num(p), Num(q), Num(r), p, q, r, v);
  }

  lemma Rolled(x: u32)
    ensures Rol(x, 1) == Wrap(2 * x + x / 0x8000_0000)
    ensures Rol(x, 5) == Wrap(32 * x + x / 0x800_0000)
    ensures Rol(x, 30) == Wrap(0x4000_0000 * x + x / 4)
  {
    hide Pow2, Wrap;
    Powers();
    PowerOf1();
    WrapSum(2 * x, x / 0x8000_0000);
    WrapSum(32 * x, x / 0x800_0000);
    WrapSum(0x4000_0000 * x, x / 4);
  }

  lemma WrapSum(p: int, q: int)
    ensures Wrap(Wrap(p) + q) == Wrap(p + q)
  {
  }

  lemma PowerOf1()
    ensures Pow2(1) == 2
  {
  }

  lemma NextWord(i: nat, a: bv32, b: bv32, c: bv32, d: bv32, v: bv32, r: u32, k: nat)
    requires i >= 16 && W(BLOCK, i - 3) == Num(a) && W(BLOCK, i - 8) == Num(b)
    requires W(BLOCK, i - 14) == Num(c) && W(BLOCK, i - 16) == Num(d)
    requires v == Xor32(Xor32(Xor32(a, b), c), d)
    requires k < 2 && 2 * Num(v) == r + k * 0xffff_ffff && k * 0x8000_0000 <= Num(v)
    ensures W(BLOCK, i) == r
  {
    hide Rol, Xor, Pow2, Num, W, Wrap, Xor32;
    Unfold(i);
    Mixed(a, b, c, d, v);
    Rolled(Num(v));
    First(Num(v), r, k);
  }

  lemma First(v: u32, r: u32, k: nat)
    requires k < 2 && 2 * v == r + k * 0xffff_ffff && k * 0x8000_0000 <= v
    ensures Wrap(2 * v + v / 0x8000_0000) == r
  {
    assert k == v / 0x8000_0000;
    WrapIs(2 * v + k, r, k);
  }

  lemma Unfold(i: nat)
    requires i >= 16
    ensures W(BLOCK, i) ==
            Rol(Xor(Xor(Xor(W(BLOCK, i - 3), W(BLOCK, i - 8), 32), W(BLOCK, i - 14), 32), W(BLOCK, i - 16), 32), 1)
  {
    hide Rol, Xor, WordAt;
  }

  /** One step; h, k and q are what the two rotations and the sum carry out. */
  lemma Round(n: nat, a: u32, b: bv32, c: bv32, d: bv32, e: u32, w: u32, f: bv32, x: u32, y: u32,
              h: nat, k: nat, q: nat)
    requires Turns(IV, BLOCK, n) == State(a, Num(b), Num(c), Num(d), e) && W(BLOCK, n) == w && f == OfWord(n, b, c, d)
    requires h * 0x800_0000 <= a < (h + 1) * 0x800_0000 && k < 4 && Num(b) + k * 0xffff_ffff == 4 * y
    requires Num(f) + K(n) + 32 * a - h * 0xffff_ffff + e + w == x + q * 0x1_0000_0000
    ensures Turns(IV, BLOCK, n + 1) == State(x, a, y, Num(c), Num(d))
  {
    hide W, Logic, Rol, OfWord, K, Add, Wrap, Turns;
    OneMoreTurn(n);
    LogicOf(n, Num(b), Num(c), Num(d), b, c, d, f);
    Rolled(a);
    Rolled(Num(b));
    Fifth(a, h);
    Thirtieth(Num(b), y, k);
    Sums(Num(f), K(n), Rol(a, 5), e, w, x, q);
  }

  lemma Fifth(a: u32, h: nat)
    requires h * 0x800_0000 <= a < (h + 1) * 0x800_0000
    ensures Wrap(32 * a + a / 0x800_0000) == 32 * a - h * 0xffff_ffff
  {
    assert a / 0x800_0000 == h;
    WrapIs(32 * a + h, 32 * a - h * 0xffff_ffff, h);
  }

  lemma Thirtieth(b: u32, y: u32, k: nat)
    requires k < 4 && b + k * 0xffff_ffff == 4 * y
    ensures Wrap(0x4000_0000 * b + b / 4) == y
  {
    var j := b / 4;
    assert b == 4 * j + k;
    assert y == j + 0x4000_0000 * k;
    WrapIs(0x4000_0000 * b + j, y, j);
  }

  lemma Sums(f: nat, k: nat, r: nat, e: nat, w: nat, x: u32, q: nat)
    requires f + k + r + e + w == x + q * 0x1_0000_0000
    ensures Add(Add(f, k), Add(Add(r, e), w)) == x
  {
    hide Wrap;
    WrapSum(r + e, w);
    WrapSum(f + k, Wrap(r + e + w));
    WrapSum(r + e + w, f + k);
    WrapIs(f + k + r + e + w, x, q);
  }

  lemma WrapIs(z: nat, x: u32, q: nat)
    requires z == x + q * 0x1_0000_0000
    ensures Wrap(z) == x
  {
  }

  lemma OneMoreTurn(n: nat)
    ensures Turns(IV, BLOCK, n + 1) == Turn(Turns(IV, BLOCK, n), n, W(BLOCK, n))
  {
    hide Turn, W;
  }

  // ---- the schedule and the steps ----

  lemma NoTurns()
    ensures Turns(IV, BLOCK, 0) == State(0x67452301, 0xefcdab89, 0x98badcfe, 0x10325476, 0xc3d2e1f0)
  {
  }

  lemma Words24()
    ensures W(BLOCK, 16) == 0xc2c4c700 && W(BLOCK, 17) == 0 && W(BLOCK, 18) == 0x00000030
    ensures W(BLOCK, 19) == 0x85898e01 && W(BLOCK, 20) == 0 && W(BLOCK, 21) == 0x00000060
    ensures W(BLOCK, 22) == 0x0b131c03 && W(BLOCK, 23) == 0x00000030
  {
    hide W, Wrap;
    FirstWords();
    NextWord(16, 0, 0, 0, 0x61626380, 0x61626380, 0xc2c4c700, 0);
    NextWord(17, 0, 0, 0, 0, 0, 0, 0);
    NextWord(18, 0x00000018, 0, 0, 0, 0x00000018, 0x00000030, 0);
    NextWord(19, 0xc2c4c700, 0, 0, 0, 0xc2c4c700, 0x85898e01, 1);
    NextWord(20, 0, 0, 0, 0, 0, 0, 0);
    NextWord(21, 0x00000030, 0, 0, 0, 0x00000030, 0x00000060, 0);
    NextWord(22, 0x85898e01, 0, 0, 0, 0x85898e01, 0x0b131c03, 1);
    NextWord(23, 0, 0x00000018, 0, 0, 0x00000018, 0x00000030, 0);
  }

  lemma Words32()
    ensures W(BLOCK, 24) == 0x85898ec1 && W(BLOCK, 25) == 0x16263806 && W(BLOCK, 26) == 0
    ensures W(BLOCK, 27) == 0x00000180 && W(BLOCK, 28) == 0x2c4c700c && W(BLOCK, 29) == 0x000000f0
    ensures W(BLOCK, 30) == 0x93afb507 && W(BLOCK, 31) == 0x5898e048
  {
    hide W, Wrap;
    FirstWords();
    Words24();
    NextWord(24, 0x00000060, 0xc2c4c700, 0, 0, 0xc2c4c760, 0x85898ec1, 1);
    NextWord(25, 0x0b131c03, 0, 0, 0, 0x0b131c03, 0x16263806, 0);
    NextWord(26, 0x00000030, 0x00000030, 0, 0, 0, 0, 0);
    NextWord(27, 0x85898ec1, 0x85898e01, 0, 0, 0x000000c0, 0x00000180, 0);
    NextWord(28, 0x16263806, 0, 0, 0, 0x16263806, 0x2c4c700c, 0);
    NextWord(29, 0, 0x00000060, 0x00000018, 0, 0x00000078, 0x000000f0, 0);
    NextWord(30, 0x00000180, 0x0b131c03, 0xc2c4c700, 0, 0xc9d7da83, 0x93afb507, 1);
    NextWord(31, 0x2c4c700c, 0x00000030, 0, 0x00000018, 0x2c4c7024, 0x5898e048, 0);
  }

  lemma Words40()
    ensures W(BLOCK, 32) == 0x8e9a9202 && W(BLOCK, 33) == 0x00000600 && W(BLOCK, 34) == 0xb131c0f0
    ensures W(BLOCK, 35) == 0x16263bc6 && W(BLOCK, 36) == 0x4ebed41e && W(BLOCK, 37) == 0x626380a1
    ensures W(BLOCK, 38) == 0x16263806 && W(BLOCK, 39) == 0x000018c0
  {
    hide W, Wrap;
    FirstWords();
    Words24();
    Words32();
    NextWord(32, 0x000000f0, 0x85898ec1, 0x00000030, 0xc2c4c700, 0x474d4901, 0x8e9a9202, 0);
    NextWord(33, 0x93afb507, 0x16263806, 0x85898e01, 0, 0x00000300, 0x00000600, 0);
    NextWord(34, 0x5898e048, 0, 0, 0x00000030, 0x5898e078, 0xb131c0f0, 0);
    NextWord(35, 0x8e9a9202, 0x00000180, 0x00000060, 0x85898e01, 0x0b131de3, 0x16263bc6, 0);
    NextWord(36, 0x00000600, 0x2c4c700c, 0x0b131c03, 0, 0x275f6a0f, 0x4ebed41e, 0);
    NextWord(37, 0xb131c0f0, 0x000000f0, 0x00000030, 0x00000060, 0xb131c050, 0x626380a1, 1);
    NextWord(38, 0x16263bc6, 0x93afb507, 0x85898ec1, 0x0b131c03, 0x0b131c03, 0x16263806, 0);
    NextWord(39, 0x4ebed41e, 0x5898e048, 0x16263806, 0x00000030, 0x00000c60, 0x000018c0, 0);
  }

  lemma Words48()
    ensures W(BLOCK, 40) == 0xd2e138c4 && W(BLOCK, 41) == 0x00000f00 && W(BLOCK, 42) == 0x3afb5079
    ensures W(BLOCK, 43) == 0x898e04e5 && W(BLOCK, 44) == 0xe2ba3c2b && W(BLOCK, 45) == 0x000060c0
    ensures W(BLOCK, 46) == 0x053a37cd && W(BLOCK, 47) == 0x74458547
  {
    hide W, Wrap;
    FirstWords();
    Words32();
    Words40();
    NextWord(40, 0x626380a1, 0x8e9a9202, 0, 0x85898ec1, 0x69709c62, 0xd2e138c4, 0);
    NextWord(41, 0x16263806, 0x00000600, 0x00000180, 0x16263806, 0x00000780, 0x00000f00, 0);
    NextWord(42, 0x000018c0, 0xb131c0f0, 0x2c4c700c, 0, 0x9d7da83c, 0x3afb5079, 1);
    NextWord(43, 0xd2e138c4, 0x16263bc6, 0x000000f0, 0x00000180, 0xc4c70272, 0x898e04e5, 1);
    NextWord(44, 0x00000f00, 0x4ebed41e, 0x93afb507, 0x2c4c700c, 0xf15d1e15, 0xe2ba3c2b, 1);
    NextWord(45, 0x3afb5079, 0x626380a1, 0x5898e048, 0x000000f0, 0x00003060, 0x000060c0, 0);
    NextWord(46, 0x898e04e5, 0x16263806, 0x8e9a9202, 0x93afb507, 0x829d1be6, 0x053a37cd, 1);
    NextWord(47, 0xe2ba3c2b, 0x000018c0, 0x00000600, 0x5898e048, 0xba22c2a3, 0x74458547, 1);
  }

  lemma Words56()
    ensures W(BLOCK, 48) == 0xda9415ed && W(BLOCK, 49) == 0x26380a16 && W(BLOCK, 50) == 0x626383a1
    ensures W(BLOCK, 51) == 0x4ebf54de && W(BLOCK, 52) == 0x3835b44b && W(BLOCK, 53) == 0x0000f600
    ensures W(BLOCK, 54) == 0x1e84c7a3 && W(BLOCK, 55) == 0x98e04d98
  {
    hide W, Wrap;
    FirstWords();
    Words40();
    Words48();
    NextWord(48, 0x000060c0, 0xd2e138c4, 0xb131c0f0, 0x8e9a9202, 0xed4a0af6, 0xda9415ed, 1);
    NextWord(49, 0x053a37cd, 0x00000f00, 0x16263bc6, 0x00000600, 0x131c050b, 0x26380a16, 0);
    NextWord(50, 0x74458547, 0x3afb5079, 0x4ebed41e, 0xb131c0f0, 0xb131c1d0, 0x626383a1, 1);
    NextWord(51, 0xda9415ed, 0x898e04e5, 0x626380a1, 0x16263bc6, 0x275faa6f, 0x4ebf54de, 0);
    NextWord(52, 0x26380a16, 0xe2ba3c2b, 0x16263806, 0x4ebed41e, 0x9c1ada25, 0x3835b44b, 1);
    NextWord(53, 0x626383a1, 0x000060c0, 0x000018c0, 0x626380a1, 0x00007b00, 0x0000f600, 0);
    NextWord(54, 0x4ebf54de, 0x053a37cd, 0xd2e138c4, 0x16263806, 0x8f4263d1, 0x1e84c7a3, 1);
    NextWord(55, 0x3835b44b, 0x74458547, 0x00000f00, 0x000018c0, 0x4c7026cc, 0x98e04d98, 0);
  }

  lemma Words64()
    ensures W(BLOCK, 56) == 0x651d16a0 && W(BLOCK, 57) == 0x62658ca1 && W(BLOCK, 58) == 0x458544d6
    ensures W(BLOCK, 59) == 0x44584cb7 && W(BLOCK, 60) == 0x7ba06619 && W(BLOCK, 61) == 0x6380aea2
    ensures W(BLOCK, 62) == 0x0ae55269 && W(BLOCK, 63) == 0x627b49a1
  {
    hide W, Wrap;
    FirstWords();
    Words48();
    Words56();
    NextWord(56, 0x0000f600, 0xda9415ed, 0x3afb5079, 0xd2e138c4, 0x328e8b50, 0x651d16a0, 0);
    NextWord(57, 0x1e84c7a3, 0x26380a16, 0x898e04e5, 0x00000f00, 0xb132c650, 0x62658ca1, 1);
    NextWord(58, 0x98e04d98, 0x626383a1, 0xe2ba3c2b, 0x3afb5079, 0x22c2a26b, 0x458544d6, 0);
    NextWord(59, 0x651d16a0, 0x4ebf54de, 0x000060c0, 0x898e04e5, 0xa22c265b, 0x44584cb7, 1);
    NextWord(60, 0x62658ca1, 0x3835b44b, 0x053a37cd, 0xe2ba3c2b, 0xbdd0330c, 0x7ba06619, 1);
    NextWord(61, 0x458544d6, 0x0000f600, 0x74458547, 0x000060c0, 0x31c05751, 0x6380aea2, 0);
    NextWord(62, 0x44584cb7, 0x1e84c7a3, 0xda9415ed, 0x053a37cd, 0x8572a934, 0x0ae55269, 1);
    NextWord(63, 0x7ba06619, 0x98e04d98, 0x26380a16, 0x74458547, 0xb13da4d0, 0x627b49a1, 1);
  }

  lemma Words72()
    ensures W(BLOCK, 64) == 0x7cd45c9d && W(BLOCK, 65) == 0x000f0000 && W(BLOCK, 66) == 0xfb50753a
    ensures W(BLOCK, 67) == 0xec6765e8 && W(BLOCK, 68) == 0xba3c2be2 && W(BLOCK, 69) == 0x0060c000
    ensures W(BLOCK, 70) == 0x3a37cd05 && W(BLOCK, 71) == 0x458546f4
  {
    hide W, Wrap;
    FirstWords();
    Words56();
    Words64();
    NextWord(64, 0x6380aea2, 0x651d16a0, 0x626383a1, 0xda9415ed, 0xbe6a2e4e, 0x7cd45c9d, 1);
    NextWord(65, 0x0ae55269, 0x62658ca1, 0x4ebf54de, 0x26380a16, 0x00078000, 0x000f0000, 0);
    NextWord(66, 0x627b49a1, 0x458544d6, 0x3835b44b, 0x626383a1, 0x7da83a9d, 0xfb50753a, 0);
    NextWord(67, 0x7cd45c9d, 0x44584cb7, 0x0000f600, 0x4ebf54de, 0x7633b2f4, 0xec6765e8, 0);
    NextWord(68, 0x000f0000, 0x7ba06619, 0x1e84c7a3, 0x3835b44b, 0x5d1e15f1, 0xba3c2be2, 0);
    NextWord(69, 0xfb50753a, 0x6380aea2, 0x98e04d98, 0x0000f600, 0x00306000, 0x0060c000, 0);
    NextWord(70, 0xec6765e8, 0x0ae55269, 0x651d16a0, 0x1e84c7a3, 0x9d1be682, 0x3a37cd05, 1);
    NextWord(71, 0xba3c2be2, 0x627b49a1, 0x62658ca1, 0x98e04d98, 0x22c2a37a, 0x458546f4, 0);
  }

  lemma Words80()
    ensures W(BLOCK, 72) == 0xb8599dd6 && W(BLOCK, 73) == 0x380a1a26 && W(BLOCK, 74) == 0x01e02203
    ensures W(BLOCK, 75) == 0xe7cc3456 && W(BLOCK, 76) == 0xe6e60b69 && W(BLOCK, 77) == 0x00f60a00
    ensures W(BLOCK, 78) == 0x5795ef4f && W(BLOCK, 79) == 0x822e0879
  {
    hide W, Wrap;
    FirstWords();
    Words64();
    Words72();
    NextWord(72, 0x0060c000, 0x7cd45c9d, 0x458544d6, 0x651d16a0, 0x5c2cceeb, 0xb8599dd6, 0);
    NextWord(73, 0x3a37cd05, 0x000f0000, 0x44584cb7, 0x62658ca1, 0x1c050d13, 0x380a1a26, 0);
    NextWord(74, 0x458546f4, 0xfb50753a, 0x7ba06619, 0x458544d6, 0x80f01101, 0x01e02203, 1);
    NextWord(75, 0xb8599dd6, 0xec6765e8, 0x6380aea2, 0x44584cb7, 0x73e61a2b, 0xe7cc3456, 0);
    NextWord(76, 0x380a1a26, 0xba3c2be2, 0x0ae55269, 0x7ba06619, 0xf37305b4, 0xe6e60b69, 1);
    NextWord(77, 0x01e02203, 0x0060c000, 0x627b49a1, 0x6380aea2, 0x007b0500, 0x00f60a00, 0);
    NextWord(78, 0xe7cc3456, 0x3a37cd05, 0x7cd45c9d, 0x0ae55269, 0xabcaf7a7, 0x5795ef4f, 1);
    NextWord(79, 0xe6e60b69, 0x458546f4, 0x000f0000, 0x627b49a1, 0xc117043c, 0x822e0879, 1);
  }

  lemma Turns8()
    ensures Turns(IV, BLOCK, 8) == State(0x9e8c07d4, 0x993e30c1, 0x0ff1f290, 0xb3f52677, 0xf3763846)
  {
    hide W, Turns, IV;
    NoTurns();
    FirstWords();
    Round(0, 0x67452301, 0xefcdab89, 0x98badcfe, 0x10325476, 0xc3d2e1f0,
          0x61626380, 0x98badcfe, 0x0116fc33, 0x7bf36ae2, 12, 1, 3);
    Round(1, 0x0116fc33, 0x67452301, 0x7bf36ae2, 0x98badcfe, 0x10325476,
          0, 0xfbfbfefe, 0x8990536d, 0x59d148c0, 0, 1, 1);
    Round(2, 0x8990536d, 0x0116fc33, 0x59d148c0, 0x7bf36ae2, 0x98badcfe,
          0, 0x7bf14ac0, 0xa1390f08, 0xc045bf0c, 17, 3, 1);
    Round(3, 0xa1390f08, 0x8990536d, 0xc045bf0c, 0x59d148c0, 0x7bf36ae2,
          0, 0xd0411b8c, 0xcdd8e11b, 0x626414db, 20, 1, 1);
    Round(4, 0xcdd8e11b, 0xa1390f08, 0x626414db, 0xc045bf0c, 0x59d148c0,
          0, 0x6064b40c, 0xcfd499de, 0x284e43c2, 25, 0, 1);
    Round(5, 0xcfd499de, 0xcdd8e11b, 0x284e43c2, 0x626414db, 0xc045bf0c,
          0, 0x2a6c55c2, 0x3fc7ca40, 0xf3763846, 25, 3, 2);
    Round(6, 0x3fc7ca40, 0xcfd499de, 0xf3763846, 0x284e43c2, 0x626414db,
          0, 0xe35e5a46, 0x993e30c1, 0xb3f52677, 7, 2, 2);
    Round(7, 0x993e30c1, 0x3fc7ca40, 0xb3f52677, 0xf3763846, 0x284e43c2,
          0, 0xf3f53246, 0x9e8c07d4, 0x0ff1f290, 19, 0, 1);
  }

  lemma Turns16()
    ensures Turns(IV, BLOCK, 16) == State(0x20bdd62f, 0x196bee77, 0x644a3da5, 0x1181ed99, 0x18c623f9)
  {
    hide W, Turns, IV;
    Turns8();
    FirstWords();
    Round(8, 0x9e8c07d4, 0x993e30c1, 0x0ff1f290, 0xb3f52677, 0xf3763846,
          0, 0x2bf136b6, 0x4b6ae328, 0x664f8c30, 19, 1, 2);
    Round(9, 0x4b6ae328, 0x9e8c07d4, 0x664f8c30, 0x0ff1f290, 0xb3f52677,
          0, 0x077df410, 0x8351f929, 0x27a301f5, 9, 0, 1);
    Round(10, 0x8351f929, 0x4b6ae328, 0x27a301f5, 0x664f8c30, 0x0ff1f290,
          0, 0x27270d30, 0xfbda9e89, 0x12dab8ca, 16, 0, 0);
    Round(11, 0xfbda9e89, 0x8351f929, 0x12dab8ca, 0x27a301f5, 0x664f8c30,
          0, 0x26f2b8dc, 0x63188fe4, 0x60d47e4a, 31, 1, 1);
    Round(12, 0x63188fe4, 0xfbda9e89, 0x60d47e4a, 0x12dab8ca, 0x27a301f5,
          0, 0x60d03e4a, 0x4607b664, 0x7ef6a7a2, 12, 1, 1);
    Round(13, 0x4607b664, 0x63188fe4, 0x7ef6a7a2, 0x60d47e4a, 0x12dab8ca,
          0, 0x62d4f7aa, 0x9128f695, 0x18c623f9, 8, 0, 1);
    Round(14, 0x9128f695, 0x4607b664, 0x18c623f9, 0x7ef6a7a2, 0x60d47e4a,
          0, 0x38f623e2, 0x196bee77, 0x1181ed99, 18, 0, 1);
    Round(15, 0x196bee77, 0x9128f695, 0x1181ed99, 0x18c623f9, 0x7ef6a7a2,
          0x00000018, 0x19c6e5f9, 0x20bdd62f, 0x644a3da5, 3, 1, 1);
  }

  lemma Turns24()
    ensures Turns(IV, BLOCK, 24) == State(0xd541f12d, 0x21283486, 0x0ce88eff, 0x868dec32, 0x7f67875f)
  {
    hide W, Turns, IV;
    Turns16();
    Words24();
    Round(16, 0x20bdd62f, 0x196bee77, 0x644a3da5, 0x1181ed99, 0x18c623f9,
          0xc2c4c700, 0x00ca2dad, 0x4e925823, 0xc65afb9d, 4, 3, 1);
    Round(17, 0x4e925823, 0x20bdd62f, 0xc65afb9d, 0x644a3da5, 0x1181ed99,
          0, 0x445afb8d, 0x82aa6728, 0xc82f758b, 9, 3, 1);
    Round(18, 0x82aa6728, 0x4e925823, 0xc82f758b, 0xc65afb9d, 0x644a3da5,
          0x00000030, 0xc84af39f, 0xdc64901d, 0xd3a49608, 16, 3, 1);
    Round(19, 0xdc64901d, 0x82aa6728, 0xd3a49608, 0xc82f758b, 0xc65afb9d,
          0x85898e01, 0xcaa5168b, 0xfd9e1d7d, 0x20aa99ca, 27, 0, 2);
    Round(20, 0xfd9e1d7d, 0xdc64901d, 0x20aa99ca, 0xd3a49608, 0xc82f758b,
          0, 0x2f6a9fdf, 0x1a37b0ca, 0x77192407, 31, 1, 2);
    Round(21, 0x1a37b0ca, 0xfd9e1d7d, 0x77192407, 0x20aa99ca, 0xd3a49608,
          0x00000060, 0xaa2da0b0, 0x33a23bfc, 0x7f67875f, 3, 1, 2);
    Round(22, 0x33a23bfc, 0x1a37b0ca, 0x7f67875f, 0x77192407, 0x20aa99ca,
          0x0b131c03, 0x12491392, 0x21283486, 0x868dec32, 6, 2, 1);
    Round(23, 0x21283486, 0x33a23bfc, 0x868dec32, 0x7f67875f, 0x77192407,
          0x00000030, 0xca485091, 0xd541f12d, 0x0ce88eff, 4, 0, 1);
  }

  lemma Turns32()
    ensures Turns(IV, BLOCK, 32) == State(0x3b845d33, 0x1267b407, 0x717eebd7, 0xa0dc2d4b, 0xd2aa1365)
  {
    hide W, Turns, IV;
    Turns24();
    Words32();
    Round(24, 0xd541f12d, 0x21283486, 0x0ce88eff, 0x868dec32, 0x7f67875f,
          0x85898ec1, 0xab4d564b, 0xc7567dc6, 0x884a0d21, 26, 2, 2);
    Round(25, 0xc7567dc6, 0xd541f12d, 0x884a0d21, 0x0ce88eff, 0x868dec32,
          0x16263806, 0x51e372f3, 0x48413ba4, 0x75507c4b, 24, 1, 2);
    Round(26, 0x48413ba4, 0xc7567dc6, 0x75507c4b, 0x884a0d21, 0x0ce88eff,
          0, 0x3a4c0cac, 0xbe35fbd5, 0xb1d59f71, 9, 2, 0);
    Round(27, 0xbe35fbd5, 0x48413ba4, 0xb1d59f71, 0x75507c4b, 0x884a0d21,
          0x00000180, 0x8cc4d89e, 0x4aa84d97, 0x12104ee9, 23, 0, 2);
    Round(28, 0x4aa84d97, 0xbe35fbd5, 0x12104ee9, 0xb1d59f71, 0x75507c4b,
          0x2c4c700c, 0x1df02a4d, 0x8370b52e, 0x6f8d7ef5, 9, 1, 1);
    Round(29, 0x8370b52e, 0x4aa84d97, 0x6f8d7ef5, 0x12104ee9, 0xb1d59f71,
          0x000000f0, 0x37357d8b, 0xc5fbaf5d, 0xd2aa1365, 16, 3, 1);
    Round(30, 0xc5fbaf5d, 0x8370b52e, 0xd2aa1365, 0x6f8d7ef5, 0x12104ee9,
          0x93afb507, 0x3e57d8be, 0x1267b407, 0xa0dc2d4b, 24, 2, 2);
    Round(31, 0x1267b407, 0xc5fbaf5d, 0xa0dc2d4b, 0xd2aa1365, 0x6f8d7ef5,
          0x5898e048, 0xb78d9173, 0x3b845d33, 0x717eebd7, 2, 1, 2);
  }

  lemma Turns40()
    ensures Turns(IV, BLOCK, 40) == State(0x32de1cba, 0x4c986405, 0xf718e5cf, 0x03d447f6, 0xf72eec32)
  {
    hide W, Turns, IV;
    Turns32();
    Words40();
    Round(32, 0x3b845d33, 0x1267b407, 0x717eebd7, 0xa0dc2d4b, 0xd2aa1365,
          0x8e9a9202, 0xc3c5729b, 0x046faa0a, 0xc499ed01, 7, 3, 3);
    Round(33, 0x046faa0a, 0x3b845d33, 0xc499ed01, 0x717eebd7, 0xa0dc2d4b,
          0x00000600, 0x8e635be5, 0x2c0ebc11, 0xcee1174c, 0, 3, 2);
    Round(34, 0x2c0ebc11, 0x046faa0a, 0xcee1174c, 0xc499ed01, 0x717eebd7,
          0xb131c0f0, 0x0e175047, 0x21796ad4, 0x811bea82, 5, 2, 2);
    Round(35, 0x21796ad4, 0x2c0ebc11, 0x811bea82, 0xcee1174c, 0xc499ed01,
          0x16263bc6, 0x63f441df, 0xdcbbb0cb, 0x4b03af04, 4, 1, 1);
    Round(36, 0xdcbbb0cb, 0x21796ad4, 0x4b03af04, 0x811bea82, 0xcee1174c,
          0x4ebed41e, 0xeb612f52, 0x0f511fd8, 0x085e5ab5, 27, 0, 3);
    Round(37, 0x0f511fd8, 0xdcbbb0cb, 0x085e5ab5, 0x4b03af04, 0x811bea82,
          0x626380a1, 0x9fe6457a, 0xdc63973f, 0xf72eec32, 1, 3, 2);
    Round(38, 0xdc63973f, 0x0f511fd8, 0xf72eec32, 0x085e5ab5, 0x4b03af04,
          0x16263806, 0xf021a95f, 0x4c986405, 0x03d447f6, 27, 0, 2);
    Round(39, 0x4c986405, 0xdc63973f, 0x03d447f6, 0xf72eec32, 0x085e5ab5,
          0x000018c0, 0x28993cfb, 0x32de1cba, 0xf718e5cf, 9, 3, 1);
  }

  lemma Turns48()
    ensures Turns(IV, BLOCK, 48) == State(0xbead02ca, 0xa01b846c, 0x8714787c, 0x503ca382, 0xfb86c6ab)
  {
    hide W, Turns, IV;
    Turns40();
    Words48();
    Round(40, 0x32de1cba, 0x4c986405, 0xf718e5cf, 0x03d447f6, 0xf72eec32,
          0xd2e138c4, 0x479865c7, 0xfc87dedf, 0x53261901, 6, 1, 2);
    Round(41, 0xfc87dedf, 0x32de1cba, 0x53261901, 0xf718e5cf, 0x03d447f6,
          0x00000f00, 0x731e1d8b, 0x970a0d5c, 0x8cb7872e, 31, 2, 1);
    Round(42, 0x970a0d5c, 0xfc87dedf, 0x8cb7872e, 0x53261901, 0xf718e5cf,
          0x3afb5079, 0xdca79f0f, 0x7f193dc5, 0xff21f7b7, 18, 3, 3);
    Round(43, 0x7f193dc5, 0x970a0d5c, 0xff21f7b7, 0x8cb7872e, 0x53261901,
          0x898e04e5, 0x9f23873e, 0xee1b1aaf, 0x25c28357, 15, 0, 2);
    Round(44, 0xee1b1aaf, 0x7f193dc5, 0x25c28357, 0xff21f7b7, 0x8cb7872e,
          0xe2ba3c2b, 0x7f01b7d7, 0x40f28e09, 0x5fc64f71, 29, 1, 3);
    Round(45, 0x40f28e09, 0xee1b1aaf, 0x5fc64f71, 0x25c28357, 0xff21f7b7,
          0x000060c0, 0x6fc20b77, 0x1c51e1f2, 0xfb86c6ab, 8, 3, 2);
    Round(46, 0x1c51e1f2, 0x40f28e09, 0xfb86c6ab, 0x5fc64f71, 0x25c28357,
          0x053a37cd, 0x5bc6ce29, 0xa01b846c, 0x503ca382, 3, 1, 1);
    Round(47, 0xa01b846c, 0x1c51e1f2, 0x503ca382, 0xfb86c6ab, 0x5fc64f71,
          0x74458547, 0x5814e3a2, 0xbead02ca, 0x8714787c, 20, 2, 1);
  }

  lemma Turns56()
    ensures Turns(IV, BLOCK, 56) == State(0x5e6456af, 0x7b71f76d, 0x09fa7c76, 0x792410db, 0x8e11eb59)
  {
    hide W, Turns, IV;
    Turns48();
    Words56();
    Round(48, 0xbead02ca, 0xa01b846c, 0x8714787c, 0x503ca382, 0xfb86c6ab,
          0xda9415ed, 0x801ca06c, 0xbaf39337, 0x2806e11b, 23, 0, 3);
    Round(49, 0xbaf39337, 0xbead02ca, 0x2806e11b, 0x8714787c, 0x503ca382,
          0x26380a16, 0xae04605a, 0x120731c5, 0xafab40b2, 23, 2, 2);
    Round(50, 0x120731c5, 0xbaf39337, 0xafab40b2, 0x2806e11b, 0x8714787c,
          0x626383a1, 0xaaa3c133, 0x641db2ce, 0xeebce4cd, 2, 3, 2);
    Round(51, 0x641db2ce, 0x120731c5, 0xeebce4cd, 0xafab40b2, 0x2806e11b,
          0x4ebf54de, 0xaeaf60c5, 0x3847ad66, 0x4481cc71, 12, 1, 2);
    Round(52, 0x3847ad66, 0x641db2ce, 0x4481cc71, 0xeebce4cd, 0xafab40b2,
          0x3835b44b, 0x649de4cd, 0xe490436d, 0x99076cb3, 7, 2, 1);
    Round(53, 0xe490436d, 0x3847ad66, 0x99076cb3, 0x4481cc71, 0xeebce4cd,
          0x0000f600, 0x1807ec73, 0x27e9f1d8, 0x8e11eb59, 28, 2, 2);
    Round(54, 0x27e9f1d8, 0xe490436d, 0x8e11eb59, 0x99076cb3, 0x4481cc71,
          0x1e84c7a3, 0x8c116b79, 0x7b71f76d, 0x792410db, 4, 1, 2);
    Round(55, 0x7b71f76d, 0x27e9f1d8, 0x792410db, 0x8e11eb59, 0x99076cb3,
          0x98e04d98, 0x2f21f1d9, 0x5e6456af, 0x09fa7c76, 15, 0, 2);
  }

  lemma Turns64()
    ensures Turns(IV, BLOCK, 64) == State(0x6b61c9e1, 0xb66c020b, 0x9523272c, 0xf5d5b051, 0x8fd4b796)
  {
    hide W, Turns, IV;
    Turns56();
    Words64();
    Round(56, 0x5e6456af, 0x7b71f76d, 0x09fa7c76, 0x792410db, 0x8e11eb59,
          0x651d16a0, 0x7970747f, 0xc846093f, 0x5edc7ddb, 11, 1, 2);
    Round(57, 0xc846093f, 0x5e6456af, 0x5edc7ddb, 0x09fa7c76, 0x792410db,
          0x62658ca1, 0x5efc7cff, 0xd262ff50, 0xd79915ab, 25, 3, 1);
    Round(58, 0xd262ff50, 0xc846093f, 0xd79915ab, 0x5edc7ddb, 0x09fa7c76,
          0x458544d6, 0xdedc1dbb, 0x09d785fd, 0xf211824f, 26, 3, 2);
    Round(59, 0x09d785fd, 0xd262ff50, 0xf211824f, 0xd79915ab, 0x5edc7ddb,
          0x44584cb7, 0xd211974b, 0x3f52de5a, 0x3498bfd4, 1, 0, 2);
    Round(60, 0x3f52de5a, 0x09d785fd, 0x3498bfd4, 0xf211824f, 0xd79915ab,
          0x7ba06619, 0xcf5eb866, 0xd756c147, 0x4275e17f, 7, 1, 3);
    Round(61, 0xd756c147, 0x3f52de5a, 0x4275e17f, 0x3498bfd4, 0xf211824f,
          0x6380aea2, 0x49bf80f1, 0x548c9cb2, 0x8fd4b796, 26, 2, 3);
    Round(62, 0x548c9cb2, 0xd756c147, 0x8fd4b796, 0x4275e17f, 0x3498bfd4,
          0x0ae55269, 0x1af797ae, 0xb66c020b, 0xf5d5b051, 10, 3, 1);
    Round(63, 0xb66c020b, 0x548c9cb2, 0xf5d5b051, 0x8fd4b796, 0x4275e17f,
          0x627b49a1, 0x2e8d9b75, 0x6b61c9e1, 0x9523272c, 22, 2, 2);
  }

  lemma Turns72()
    ensures Turns(IV, BLOCK, 72) == State(0x39859de7, 0xc199f8c7, 0x8fc96230, 0x125c24f0, 0xde37534a)
  {
    hide W, Turns, IV;
    Turns64();
    Words72();
    Round(64, 0x6b61c9e1, 0xb66c020b, 0x9523272c, 0xf5d5b051, 0x8fd4b796,
          0x7cd45c9d, 0xd69a9576, 0x19dfa7ac, 0xed9b0082, 13, 3, 3);
    Round(65, 0x19dfa7ac, 0x6b61c9e1, 0xed9b0082, 0x9523272c, 0xf5d5b051,
          0x000f0000, 0x13d9ee4f, 0x101655f9, 0x5ad87278, 3, 1, 2);
    Round(66, 0x101655f9, 0x19dfa7ac, 0x5ad87278, 0xed9b0082, 0x9523272c,
          0xfb50753a, 0xae9cd556, 0x0c3df2b4, 0x0677e9eb, 2, 0, 3);
    Round(67, 0x0c3df2b4, 0x101655f9, 0x0677e9eb, 0x5ad87278, 0xed9b0082,
          0xec6765e8, 0x4cb9ce6a, 0x78dd4d2b, 0x4405957e, 1, 1, 3);
    Round(68, 0x78dd4d2b, 0x0c3df2b4, 0x4405957e, 0x0677e9eb, 0x5ad87278,
          0xba3c2be2, 0x4e4f8e21, 0x497093c0, 0x030f7cad, 15, 0, 2);
    Round(69, 0x497093c0, 0x78dd4d2b, 0x030f7cad, 0x4405957e, 0x0677e9eb,
          0x0060c000, 0x3fd7a4f8, 0x3f2588c2, 0xde37534a, 9, 3, 1);
    Round(70, 0x3f2588c2, 0x497093c0, 0xde37534a, 0x030f7cad, 0x4405957e,
          0x3a37cd05, 0x9448bc27, 0xc199f8c7, 0x125c24f0, 7, 0, 2);
    Round(71, 0xc199f8c7, 0x3f2588c2, 0x125c24f0, 0xde37534a, 0x030f7cad,
          0x458546f4, 0xf34eff78, 0x39859de7, 0x8fc96230, 24, 2, 2);
  }

  lemma Turns80()
    ensures Turns(IV, BLOCK, 80) == State(0x42541b35, 0x5738d5e1, 0x21834873, 0x681e6df6, 0xd8fdf6ad)
  {
    hide W, Turns, IV;
    Turns72();
    Words80();
    Round(72, 0x39859de7, 0xc199f8c7, 0x8fc96230, 0x125c24f0, 0xde37534a,
          0xb8599dd6, 0x5c0cbe07, 0xedb42de4, 0xf0667e31, 7, 3, 2);
    Round(73, 0xedb42de4, 0x39859de7, 0xf0667e31, 0x8fc96230, 0x125c24f0,
          0x380a1a26, 0x462a81e6, 0x11793f6f, 0xce616779, 29, 3, 2);
    Round(74, 0x11793f6f, 0xedb42de4, 0xce616779, 0xf0667e31, 0x8fc96230,
          0x01e02203, 0xd3b334ac, 0x5ee76897, 0x3b6d0b79, 2, 0, 2);
    Round(75, 0x5ee76897, 0x11793f6f, 0x3b6d0b79, 0xce616779, 0xf0667e31,
          0xe7cc3456, 0xe475536f, 0x63f7dab7, 0xc45e4fdb, 11, 3, 4);
    Round(76, 0x63f7dab7, 0x5ee76897, 0xc45e4fdb, 0x3b6d0b79, 0xce616779,
          0xe6e60b69, 0xa1d42c35, 0xa079b7d9, 0xd7b9da25, 12, 3, 3);
    Round(77, 0xa079b7d9, 0x63f7dab7, 0xd7b9da25, 0xc45e4fdb, 0x3b6d0b79,
          0x00f60a00, 0x70104f49, 0x860d21cc, 0xd8fdf6ad, 20, 3, 1);
    Round(78, 0x860d21cc, 0xa079b7d9, 0xd8fdf6ad, 0xd7b9da25, 0xc45e4fdb,
          0x5795ef4f, 0xaf3d9b51, 0x5738d5e1, 0x681e6df6, 16, 1, 3);
    Round(79, 0x5738d5e1, 0x860d21cc, 0x681e6df6, 0xd8fdf6ad, 0xd7b9da25,
          0x822e0879, 0x36eeba97, 0x42541b35, 0x21834873, 10, 0, 3);
  }

  // ---- the message and its hash ----

  /** What is hashed for "abc", the example of the standard. */
  lemma KnownPadding()
    ensures Padded([0x61, 0x62, 0x63]) == [0x61, 0x62, 0x63, 0x80] + Zeros(52) + [0, 0, 0, 0, 0, 0, 0, 24]
  {
    hide Zeros, BigEndian, Fill;
    FillOfThree();
    Count24();
    assert [0x61, 0x62, 0x63] + [0x80] == [0x61, 0x62, 0x63, 0x80];
  }

  lemma FillOfThree()
    ensures Fill(3) == 52
  {
  }

  lemma Count24()
    ensures BigEndian(24, 8) == [0, 0, 0, 0, 0, 0, 0, 24]
  {
    assert BigEndian(0, 2) == [0, 0];
    assert BigEndian(0, 4) == [0, 0, 0, 0];
    assert BigEndian(0, 6) == [0, 0, 0, 0, 0, 0];
    assert BigEndian(0, 7) == [0, 0, 0, 0, 0, 0, 0];
  }

  lemma OneBlock(p: Octets)
    requires |p| == 64
    ensures Chain(p, 1) == Plus(IV, Turns(IV, p, 80))
  {
    hide Turns, Plus;
    assert p[64 * 1 - 64..64 * 1] == p;
    assert Chain(p, 0) == IV;
  }

  lemma Added()
    ensures Plus(IV, State(0x42541b35, 0x5738d5e1, 0x21834873, 0x681e6df6, 0xd8fdf6ad)) ==
            State(0xa9993e36, 0x4706816a, 0xba3e2571, 0x7850c26c, 0x9cd0d89d)
  {
  }

  lemma Written()
    ensures Bytes(State(0xa9993e36, 0x4706816a, 0xba3e2571, 0x7850c26c, 0x9cd0d89d)) == [
      0xa9, 0x99, 0x3e, 0x36, 0x47, 0x06, 0x81, 0x6a, 0xba, 0x3e,
      0x25, 0x71, 0x78, 0x50, 0xc2, 0x6c, 0x9c, 0xd0, 0xd8, 0x9d]
  {
    assert Be32(0xa9993e36) == [0xa9, 0x99, 0x3e, 0x36];
    assert Be32(0x4706816a) == [0x47, 0x06, 0x81, 0x6a];
    assert Be32(0xba3e2571) == [0xba, 0x3e, 0x25, 0x71];
    assert Be32(0x7850c26c) == [0x78, 0x50, 0xc2, 0x6c];
    assert Be32(0x9cd0d89d) == [0x9c, 0xd0, 0xd8, 0x9d];
  }

  /** The hash of "abc". */
  lemma KnownAnswer()
    ensures Sha1([0x61, 0x62, 0x63]) == [
      0xa9, 0x99, 0x3e, 0x36, 0x47, 0x06, 0x81, 0x6a, 0xba, 0x3e,
      0x25, 0x71, 0x78, 0x50, 0xc2, 0x6c, 0x9c, 0xd0, 0xd8, 0x9d]
  {
    hide Turns, Padded, Be32, W;
    KnownPadding();
    Turns80();
    OneBlock(BLOCK);
    Added();
    Written();
  }
}
