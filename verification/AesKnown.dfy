/** The example of FIPS 197, appendix C.1: what the cipher makes of one block under one key, round by round. */
module AesKnown {
  import opened AesTables
  import opened AesField
  import opened AesRounds
  import opened AesCode

  /** A block by its columns. */
  function Four(a: Word, b: Word, c: Word, d: Word): (r: Block)
    ensures r[0..4] == a && r[4..8] == b && r[8..12] == c && r[12..16] == d
    ensures r[0] == a[0] && r[1] == a[1] && r[2] == a[2] && r[3] == a[3]
    ensures r[4] == b[0] && r[5] == b[1] && r[6] == b[2] && r[7] == b[3]
    ensures r[8] == c[0] && r[9] == c[1] && r[10] == c[2] && r[11] == c[3]
    ensures r[12] == d[0] && r[13] == d[1] && r[14] == d[2] && r[15] == d[3]
  {
    a + b + c + d
  }

  const PLAIN: Block := Four([0x00, 0x11, 0x22, 0x33], [0x44, 0x55, 0x66, 0x77],
                             [0x88, 0x99, 0xaa, 0xbb], [0xcc, 0xdd, 0xee, 0xff])
  const CIPHER: Block := Four([0x69, 0xc4, 0xe0, 0xd8], [0x6a, 0x7b, 0x04, 0x30],
                              [0xd8, 0xcd, 0xb7, 0x80], [0x70, 0xb4, 0xc5, 0x5a])

  /** The round keys, the first of which is the key, and the state at the start of each round. */
  const K0: Block := Four([0x00, 0x01, 0x02, 0x03], [0x04, 0x05, 0x06, 0x07],
                          [0x08, 0x09, 0x0a, 0x0b], [0x0c, 0x0d, 0x0e, 0x0f])
  const K1: Block := Four([0xd6, 0xaa, 0x74, 0xfd], [0xd2, 0xaf, 0x72, 0xfa],
                          [0xda, 0xa6, 0x78, 0xf1], [0xd6, 0xab, 0x76, 0xfe])
  const K2: Block := Four([0xb6, 0x92, 0xcf, 0x0b], [0x64, 0x3d, 0xbd, 0xf1],
                          [0xbe, 0x9b, 0xc5, 0x00], [0x68, 0x30, 0xb3, 0xfe])
  const K3: Block := Four([0xb6, 0xff, 0x74, 0x4e], [0xd2, 0xc2, 0xc9, 0xbf],
                          [0x6c, 0x59, 0x0c, 0xbf], [0x04, 0x69, 0xbf, 0x41])
  const K4: Block := Four([0x47, 0xf7, 0xf7, 0xbc], [0x95, 0x35, 0x3e, 0x03],
                          [0xf9, 0x6c, 0x32, 0xbc], [0xfd, 0x05, 0x8d, 0xfd])
  const K5: Block := Four([0x3c, 0xaa, 0xa3, 0xe8], [0xa9, 0x9f, 0x9d, 0xeb],
                          [0x50, 0xf3, 0xaf, 0x57], [0xad, 0xf6, 0x22, 0xaa])
  const K6: Block := Four([0x5e, 0x39, 0x0f, 0x7d], [0xf7, 0xa6, 0x92, 0x96],
                          [0xa7, 0x55, 0x3d, 0xc1], [0x0a, 0xa3, 0x1f, 0x6b])
  const K7: Block := Four([0x14, 0xf9, 0x70, 0x1a], [0xe3, 0x5f, 0xe2, 0x8c],
                          [0x44, 0x0a, 0xdf, 0x4d], [0x4e, 0xa9, 0xc0, 0x26])
  const K8: Block := Four([0x47, 0x43, 0x87, 0x35], [0xa4, 0x1c, 0x65, 0xb9],
                          [0xe0, 0x16, 0xba, 0xf4], [0xae, 0xbf, 0x7a, 0xd2])
  const K9: Block := Four([0x54, 0x99, 0x32, 0xd1], [0xf0, 0x85, 0x57, 0x68],
                          [0x10, 0x93, 0xed, 0x9c], [0xbe, 0x2c, 0x97, 0x4e])
  const K10: Block := Four([0x13, 0x11, 0x1d, 0x7f], [0xe3, 0x94, 0x4a, 0x17],
                           [0xf3, 0x07, 0xa7, 0x8b], [0x4d, 0x2b, 0x30, 0xc5])
  const S0: Block := Four([0x00, 0x10, 0x20, 0x30], [0x40, 0x50, 0x60, 0x70],
                          [0x80, 0x90, 0xa0, 0xb0], [0xc0, 0xd0, 0xe0, 0xf0])
  const S1: Block := Four([0x89, 0xd8, 0x10, 0xe8], [0x85, 0x5a, 0xce, 0x68],
                          [0x2d, 0x18, 0x43, 0xd8], [0xcb, 0x12, 0x8f, 0xe4])
  const S2: Block := Four([0x49, 0x15, 0x59, 0x8f], [0x55, 0xe5, 0xd7, 0xa0],
                          [0xda, 0xca, 0x94, 0xfa], [0x1f, 0x0a, 0x63, 0xf7])
  const S3: Block := Four([0xfa, 0x63, 0x6a, 0x28], [0x25, 0xb3, 0x39, 0xc9],
                          [0x40, 0x66, 0x8a, 0x31], [0x57, 0x24, 0x4d, 0x17])
  const S4: Block := Four([0x24, 0x72, 0x40, 0x23], [0x69, 0x66, 0xb3, 0xfa],
                          [0x6e, 0xd2, 0x75, 0x32], [0x88, 0x42, 0x5b, 0x6c])
  const S5: Block := Four([0xc8, 0x16, 0x77, 0xbc], [0x9b, 0x7a, 0xc9, 0x3b],
                          [0x25, 0x02, 0x79, 0x92], [0xb0, 0x26, 0x19, 0x96])
  const S6: Block := Four([0xc6, 0x2f, 0xe1, 0x09], [0xf7, 0x5e, 0xed, 0xc3],
                          [0xcc, 0x79, 0x39, 0x5d], [0x84, 0xf9, 0xcf, 0x5d])
  const S7: Block := Four([0xd1, 0x87, 0x6c, 0x0f], [0x79, 0xc4, 0x30, 0x0a],
                          [0xb4, 0x55, 0x94, 0xad], [0xd6, 0x6f, 0xf4, 0x1f])
  const S8: Block := Four([0xfd, 0xe3, 0xba, 0xd2], [0x05, 0xe5, 0xd0, 0xd7],
                          [0x35, 0x47, 0x96, 0x4e], [0xf1, 0xfe, 0x37, 0xf1])
  const S9: Block := Four([0xbd, 0x6e, 0x7c, 0x3d], [0xf2, 0xb5, 0x77, 0x9e],
                          [0x0b, 0x61, 0x21, 0x6e], [0x8b, 0x10, 0xb6, 0x89])

  // ---- the rounds, column by column ----

  /** What a round makes of the four bytes that come together in a column. */
  function Column(a: bv8, b: bv8, c: bv8, d: bv8, k: Word): Word {
    hide Sbox, Mix, Add;
    var p, q, r, s := Sbox(a), Sbox(b), Sbox(c), Sbox(d);
    [Add(Mix(p, q, r, s), k[0]), Add(Mix(q, r, s, p), k[1]), Add(Mix(r, s, p, q), k[2]), Add(Mix(s, p, q, r), k[3])]
  }

  function LastColumn(a: bv8, b: bv8, c: bv8, d: bv8, k: Word): Word {
    [Add(Sbox(a), k[0]), Add(Sbox(b), k[1]), Add(Sbox(c), k[2]), Add(Sbox(d), k[3])]
  }

  /** Row r of the state moves r columns to the left (FIPS 197, section 5.1.2). */
  lemma Shifts()
    ensures Shift(0) == 0 && Shift(1) == 5 && Shift(2) == 10 && Shift(3) == 15
    ensures Shift(4) == 4 && Shift(5) == 9 && Shift(6) == 14 && Shift(7) == 3
    ensures Shift(8) == 8 && Shift(9) == 13 && Shift(10) == 2 && Shift(11) == 7
    ensures Shift(12) == 12 && Shift(13) == 1 && Shift(14) == 6 && Shift(15) == 11
  {
  }

  ghost predicate Joins(b: Block, k: Block, o: Block, last: bool) {
    && o[0..4] == OneColumn(b[0], b[5], b[10], b[15], k[0..4], last)
    && o[4..8] == OneColumn(b[4], b[9], b[14], b[3], k[4..8], last)
    && o[8..12] == OneColumn(b[8], b[13], b[2], b[7], k[8..12], last)
    && o[12..16] == OneColumn(b[12], b[1], b[6], b[11], k[12..16], last)
  }

  function OneColumn(a: bv8, b: bv8, c: bv8, d: bv8, k: Word, last: bool): Word {
    if last then LastColumn(a, b, c, d, k) else Column(a, b, c, d, k)
  }

  lemma Same(s: Block, t: Block)
    requires s[0] == t[0] && s[1] == t[1] && s[2] == t[2] && s[3] == t[3]
    requires s[4] == t[4] && s[5] == t[5] && s[6] == t[6] && s[7] == t[7]
    requires s[8] == t[8] && s[9] == t[9] && s[10] == t[10] && s[11] == t[11]
    requires s[12] == t[12] && s[13] == t[13] && s[14] == t[14] && s[15] == t[15]
    ensures s == t
  {
    assert forall i :: 0 <= i < 16 ==> s[i] == t[i];
  }

  lemma RoundIs(b: Block, rk: RoundKeys, r: nat, k: Block, o: Block)
    requires 1 <= r <= 10 && rk[16 * r..16 * r + 16] == k && Joins(b, k, o, r == 10)
    ensures Round(b, rk, r) == o
  {
    hide Joins, Round, SubShift, Mixed, Add;
    forall i | 0 <= i < 16 ensures Round(b, rk, r)[i] == ByteOf(b, k, r == 10, i) {
      RoundByte(b, rk, r, k, i);
    }
    if r == 10 {
      JoinLast(b, k, o);
    } else {
      JoinMixed(b, k, o);
    }
    Same(Round(b, rk, r), o);
  }

  /** Byte i of a round. */
  function ByteOf(b: Block, k: Block, last: bool, i: nat): bv8
    requires i < 16
  {
    var t := SubShift(b);
    Add(if last then t[i] else Mixed(t)[i], k[i])
  }

  lemma RoundByte(b: Block, rk: RoundKeys, r: nat, k: Block, i: nat)
    requires 1 <= r <= 10 && rk[16 * r..16 * r + 16] == k && i < 16
    ensures Round(b, rk, r)[i] == ByteOf(b, k, r == 10, i)
  {
    hide SubShift, Add, Mixed;
    assert rk[16 * r + i] == rk[16 * r..16 * r + 16][i];
  }

  lemma JoinLast(b: Block, k: Block, o: Block)
    requires Joins(b, k, o, true)
    ensures var t := SubShift(b);
            && o[0] == Add(t[0], k[0]) && o[1] == Add(t[1], k[1]) && o[2] == Add(t[2], k[2]) && o[3] == Add(t[3], k[3])
            && o[4] == Add(t[4], k[4]) && o[5] == Add(t[5], k[5]) && o[6] == Add(t[6], k[6]) && o[7] == Add(t[7], k[7])
            && o[8] == Add(t[8], k[8]) && o[9] == Add(t[9], k[9])
            && o[10] == Add(t[10], k[10]) && o[11] == Add(t[11], k[11])
            && o[12] == Add(t[12], k[12]) && o[13] == Add(t[13], k[13])
            && o[14] == Add(t[14], k[14]) && o[15] == Add(t[15], k[15])
  {
    hide Sbox, Add, SubShift;
    SubShiftIs(b);
    Slices(o);
    Slices(k);
  }

  lemma JoinMixed(b: Block, k: Block, o: Block)
    requires Joins(b, k, o, false)
    ensures var t := Mixed(SubShift(b));
            && o[0] == Add(t[0], k[0]) && o[1] == Add(t[1], k[1]) && o[2] == Add(t[2], k[2]) && o[3] == Add(t[3], k[3])
            && o[4] == Add(t[4], k[4]) && o[5] == Add(t[5], k[5]) && o[6] == Add(t[6], k[6]) && o[7] == Add(t[7], k[7])
            && o[8] == Add(t[8], k[8]) && o[9] == Add(t[9], k[9])
            && o[10] == Add(t[10], k[10]) && o[11] == Add(t[11], k[11])
            && o[12] == Add(t[12], k[12]) && o[13] == Add(t[13], k[13])
            && o[14] == Add(t[14], k[14]) && o[15] == Add(t[15], k[15])
  {
    hide Sbox, Mix, Add, SubShift, Mixed;
    SubShiftIs(b);
    MixedIs(SubShift(b));
    Slices(o);
    Slices(k);
  }

  lemma Slices(s: Block)
    ensures s[0..4] == [s[0], s[1], s[2], s[3]] && s[4..8] == [s[4], s[5], s[6], s[7]]
    ensures s[8..12] == [s[8], s[9], s[10], s[11]] && s[12..16] == [s[12], s[13], s[14], s[15]]
  {
  }

  lemma SubShiftIs(b: Block)
    ensures var t := SubShift(b);
            && t[0] == Sbox(b[0]) && t[1] == Sbox(b[5]) && t[2] == Sbox(b[10]) && t[3] == Sbox(b[15])
            && t[4] == Sbox(b[4]) && t[5] == Sbox(b[9]) && t[6] == Sbox(b[14]) && t[7] == Sbox(b[3])
            && t[8] == Sbox(b[8]) && t[9] == Sbox(b[13]) && t[10] == Sbox(b[2]) && t[11] == Sbox(b[7])
            && t[12] == Sbox(b[12]) && t[13] == Sbox(b[1]) && t[14] == Sbox(b[6]) && t[15] == Sbox(b[11])
  {
    hide Sbox, Shift;
    Shifts();
  }

  lemma MixedIs(t: Block)
    ensures var m := Mixed(t);
            && m[0] == Mix(t[0], t[1], t[2], t[3]) && m[1] == Mix(t[1], t[2], t[3], t[0])
            && m[2] == Mix(t[2], t[3], t[0], t[1]) && m[3] == Mix(t[3], t[0], t[1], t[2])
            && m[4] == Mix(t[4], t[5], t[6], t[7]) && m[5] == Mix(t[5], t[6], t[7], t[4])
            && m[6] == Mix(t[6], t[7], t[4], t[5]) && m[7] == Mix(t[7], t[4], t[5], t[6])
            && m[8] == Mix(t[8], t[9], t[10], t[11]) && m[9] == Mix(t[9], t[10], t[11], t[8])
            && m[10] == Mix(t[10], t[11], t[8], t[9]) && m[11] == Mix(t[11], t[8], t[9], t[10])
            && m[12] == Mix(t[12], t[13], t[14], t[15]) && m[13] == Mix(t[13], t[14], t[15], t[12])
            && m[14] == Mix(t[14], t[15], t[12], t[13]) && m[15] == Mix(t[15], t[12], t[13], t[14])
  {
    hide Mix;
  }

  lemma Columns1a()
    ensures Column(0x00, 0x50, 0xa0, 0xf0, [0xd6, 0xaa, 0x74, 0xfd]) == [0x89, 0xd8, 0x10, 0xe8]
    ensures Column(0x40, 0x90, 0xe0, 0x30, [0xd2, 0xaf, 0x72, 0xfa]) == [0x85, 0x5a, 0xce, 0x68]
  {
  }

  lemma Columns1b()
    ensures Column(0x80, 0xd0, 0x20, 0x70, [0xda, 0xa6, 0x78, 0xf1]) == [0x2d, 0x18, 0x43, 0xd8]
    ensures Column(0xc0, 0x10, 0x60, 0xb0, [0xd6, 0xab, 0x76, 0xfe]) == [0xcb, 0x12, 0x8f, 0xe4]
  {
  }

  lemma Columns2a()
    ensures Column(0x89, 0x5a, 0x43, 0xe4, [0xb6, 0x92, 0xcf, 0x0b]) == [0x49, 0x15, 0x59, 0x8f]
    ensures Column(0x85, 0x18, 0x8f, 0xe8, [0x64, 0x3d, 0xbd, 0xf1]) == [0x55, 0xe5, 0xd7, 0xa0]
  {
  }

  lemma Columns2b()
    ensures Column(0x2d, 0x12, 0x10, 0x68, [0xbe, 0x9b, 0xc5, 0x00]) == [0xda, 0xca, 0x94, 0xfa]
    ensures Column(0xcb, 0xd8, 0xce, 0xd8, [0x68, 0x30, 0xb3, 0xfe]) == [0x1f, 0x0a, 0x63, 0xf7]
  {
  }

  lemma Columns3a()
    ensures Column(0x49, 0xe5, 0x94, 0xf7, [0xb6, 0xff, 0x74, 0x4e]) == [0xfa, 0x63, 0x6a, 0x28]
    ensures Column(0x55, 0xca, 0x63, 0x8f, [0xd2, 0xc2, 0xc9, 0xbf]) == [0x25, 0xb3, 0x39, 0xc9]
  {
  }

  lemma Columns3b()
    ensures Column(0xda, 0x0a, 0x59, 0xa0, [0x6c, 0x59, 0x0c, 0xbf]) == [0x40, 0x66, 0x8a, 0x31]
    ensures Column(0x1f, 0x15, 0xd7, 0xfa, [0x04, 0x69, 0xbf, 0x41]) == [0x57, 0x24, 0x4d, 0x17]
  {
  }

  lemma Columns4a()
    ensures Column(0xfa, 0xb3, 0x8a, 0x17, [0x47, 0xf7, 0xf7, 0xbc]) == [0x24, 0x72, 0x40, 0x23]
    ensures Column(0x25, 0x66, 0x4d, 0x28, [0x95, 0x35, 0x3e, 0x03]) == [0x69, 0x66, 0xb3, 0xfa]
  {
  }

  lemma Columns4b()
    ensures Column(0x40, 0x24, 0x6a, 0xc9, [0xf9, 0x6c, 0x32, 0xbc]) == [0x6e, 0xd2, 0x75, 0x32]
    ensures Column(0x57, 0x63, 0x39, 0x31, [0xfd, 0x05, 0x8d, 0xfd]) == [0x88, 0x42, 0x5b, 0x6c]
  {
  }

  lemma Columns5a()
    ensures Column(0x24, 0x66, 0x75, 0x6c, [0x3c, 0xaa, 0xa3, 0xe8]) == [0xc8, 0x16, 0x77, 0xbc]
    ensures Column(0x69, 0xd2, 0x5b, 0x23, [0xa9, 0x9f, 0x9d, 0xeb]) == [0x9b, 0x7a, 0xc9, 0x3b]
  {
  }

  lemma Columns5b()
    ensures Column(0x6e, 0x42, 0x40, 0xfa, [0x50, 0xf3, 0xaf, 0x57]) == [0x25, 0x02, 0x79, 0x92]
    ensures Column(0x88, 0x72, 0xb3, 0x32, [0xad, 0xf6, 0x22, 0xaa]) == [0xb0, 0x26, 0x19, 0x96]
  {
  }

  lemma Columns6a()
    ensures Column(0xc8, 0x7a, 0x79, 0x96, [0x5e, 0x39, 0x0f, 0x7d]) == [0xc6, 0x2f, 0xe1, 0x09]
    ensures Column(0x9b, 0x02, 0x19, 0xbc, [0xf7, 0xa6, 0x92, 0x96]) == [0xf7, 0x5e, 0xed, 0xc3]
  {
  }

  lemma Columns6b()
    ensures Column(0x25, 0x26, 0x77, 0x3b, [0xa7, 0x55, 0x3d, 0xc1]) == [0xcc, 0x79, 0x39, 0x5d]
    ensures Column(0xb0, 0x16, 0xc9, 0x92, [0x0a, 0xa3, 0x1f, 0x6b]) == [0x84, 0xf9, 0xcf, 0x5d]
  {
  }

  lemma Columns7a()
    ensures Column(0xc6, 0x5e, 0x39, 0x5d, [0x14, 0xf9, 0x70, 0x1a]) == [0xd1, 0x87, 0x6c, 0x0f]
    ensures Column(0xf7, 0x79, 0xcf, 0x09, [0xe3, 0x5f, 0xe2, 0x8c]) == [0x79, 0xc4, 0x30, 0x0a]
  {
  }

  lemma Columns7b()
    ensures Column(0xcc, 0xf9, 0xe1, 0xc3, [0x44, 0x0a, 0xdf, 0x4d]) == [0xb4, 0x55, 0x94, 0xad]
    ensures Column(0x84, 0x2f, 0xed, 0x5d, [0x4e, 0xa9, 0xc0, 0x26]) == [0xd6, 0x6f, 0xf4, 0x1f]
  {
  }

  lemma Columns8a()
    ensures Column(0xd1, 0xc4, 0x94, 0x1f, [0x47, 0x43, 0x87, 0x35]) == [0xfd, 0xe3, 0xba, 0xd2]
    ensures Column(0x79, 0x55, 0xf4, 0x0f, [0xa4, 0x1c, 0x65, 0xb9]) == [0x05, 0xe5, 0xd0, 0xd7]
  {
  }

  lemma Columns8b()
    ensures Column(0xb4, 0x6f, 0x6c, 0x0a, [0xe0, 0x16, 0xba, 0xf4]) == [0x35, 0x47, 0x96, 0x4e]
    ensures Column(0xd6, 0x87, 0x30, 0xad, [0xae, 0xbf, 0x7a, 0xd2]) == [0xf1, 0xfe, 0x37, 0xf1]
  {
  }

  lemma Columns9a()
    ensures Column(0xfd, 0xe5, 0x96, 0xf1, [0x54, 0x99, 0x32, 0xd1]) == [0xbd, 0x6e, 0x7c, 0x3d]
    ensures Column(0x05, 0x47, 0x37, 0xd2, [0xf0, 0x85, 0x57, 0x68]) == [0xf2, 0xb5, 0x77, 0x9e]
  {
  }

  lemma Columns9b()
    ensures Column(0x35, 0xfe, 0xba, 0xd7, [0x10, 0x93, 0xed, 0x9c]) == [0x0b, 0x61, 0x21, 0x6e]
    ensures Column(0xf1, 0xe3, 0xd0, 0x4e, [0xbe, 0x2c, 0x97, 0x4e]) == [0x8b, 0x10, 0xb6, 0x89]
  {
  }

  lemma Columns10a()
    ensures LastColumn(0xbd, 0xb5, 0x21, 0x89, [0x13, 0x11, 0x1d, 0x7f]) == [0x69, 0xc4, 0xe0, 0xd8]
    ensures LastColumn(0xf2, 0x61, 0xb6, 0x3d, [0xe3, 0x94, 0x4a, 0x17]) == [0x6a, 0x7b, 0x04, 0x30]
  {
  }

  lemma Columns10b()
    ensures LastColumn(0x0b, 0x10, 0x7c, 0x9e, [0xf3, 0x07, 0xa7, 0x8b]) == [0xd8, 0xcd, 0xb7, 0x80]
    ensures LastColumn(0x8b, 0x6e, 0x77, 0x6e, [0x4d, 0x2b, 0x30, 0xc5]) == [0x70, 0xb4, 0xc5, 0x5a]
  {
  }

  // ---- the key schedule ----

  lemma RconIs()
    ensures Rcon(1) == 0x01 && Rcon(2) == 0x02 && Rcon(3) == 0x04 && Rcon(4) == 0x08 && Rcon(5) == 0x10
    ensures Rcon(6) == 0x20 && Rcon(7) == 0x40 && Rcon(8) == 0x80 && Rcon(9) == 0x1b && Rcon(10) == 0x36
  {
    assert Rcon(1) == 0x01;
    assert Rcon(2) == 0x02;
    assert Rcon(3) == 0x04;
    assert Rcon(4) == 0x08;
    assert Rcon(5) == 0x10;
    assert Rcon(6) == 0x20;
    assert Rcon(7) == 0x40;
    assert Rcon(8) == 0x80;
    assert Rcon(9) == 0x1b;
    assert Rcon(10) == 0x36;
  }

  lemma Words1()
    ensures AddWord([0x00, 0x01, 0x02, 0x03], SubRotWord([0x0c, 0x0d, 0x0e, 0x0f], 0x01)) == [0xd6, 0xaa, 0x74, 0xfd]
    ensures AddWord([0x04, 0x05, 0x06, 0x07], [0xd6, 0xaa, 0x74, 0xfd]) == [0xd2, 0xaf, 0x72, 0xfa]
    ensures AddWord([0x08, 0x09, 0x0a, 0x0b], [0xd2, 0xaf, 0x72, 0xfa]) == [0xda, 0xa6, 0x78, 0xf1]
    ensures AddWord([0x0c, 0x0d, 0x0e, 0x0f], [0xda, 0xa6, 0x78, 0xf1]) == [0xd6, 0xab, 0x76, 0xfe]
  {
  }

  lemma Words2()
    ensures AddWord([0xd6, 0xaa, 0x74, 0xfd], SubRotWord([0xd6, 0xab, 0x76, 0xfe], 0x02)) == [0xb6, 0x92, 0xcf, 0x0b]
    ensures AddWord([0xd2, 0xaf, 0x72, 0xfa], [0xb6, 0x92, 0xcf, 0x0b]) == [0x64, 0x3d, 0xbd, 0xf1]
    ensures AddWord([0xda, 0xa6, 0x78, 0xf1], [0x64, 0x3d, 0xbd, 0xf1]) == [0xbe, 0x9b, 0xc5, 0x00]
    ensures AddWord([0xd6, 0xab, 0x76, 0xfe], [0xbe, 0x9b, 0xc5, 0x00]) == [0x68, 0x30, 0xb3, 0xfe]
  {
  }

  lemma Words3()
    ensures AddWord([0xb6, 0x92, 0xcf, 0x0b], SubRotWord([0x68, 0x30, 0xb3, 0xfe], 0x04)) == [0xb6, 0xff, 0x74, 0x4e]
    ensures AddWord([0x64, 0x3d, 0xbd, 0xf1], [0xb6, 0xff, 0x74, 0x4e]) == [0xd2, 0xc2, 0xc9, 0xbf]
    ensures AddWord([0xbe, 0x9b, 0xc5, 0x00], [0xd2, 0xc2, 0xc9, 0xbf]) == [0x6c, 0x59, 0x0c, 0xbf]
    ensures AddWord([0x68, 0x30, 0xb3, 0xfe], [0x6c, 0x59, 0x0c, 0xbf]) == [0x04, 0x69, 0xbf, 0x41]
  {
  }

  lemma Words4()
    ensures AddWord([0xb6, 0xff, 0x74, 0x4e], SubRotWord([0x04, 0x69, 0xbf, 0x41], 0x08)) == [0x47, 0xf7, 0xf7, 0xbc]
    ensures AddWord([0xd2, 0xc2, 0xc9, 0xbf], [0x47, 0xf7, 0xf7, 0xbc]) == [0x95, 0x35, 0x3e, 0x03]
    ensures AddWord([0x6c, 0x59, 0x0c, 0xbf], [0x95, 0x35, 0x3e, 0x03]) == [0xf9, 0x6c, 0x32, 0xbc]
    ensures AddWord([0x04, 0x69, 0xbf, 0x41], [0xf9, 0x6c, 0x32, 0xbc]) == [0xfd, 0x05, 0x8d, 0xfd]
  {
  }

  lemma Words5()
    ensures AddWord([0x47, 0xf7, 0xf7, 0xbc], SubRotWord([0xfd, 0x05, 0x8d, 0xfd], 0x10)) == [0x3c, 0xaa, 0xa3, 0xe8]
    ensures AddWord([0x95, 0x35, 0x3e, 0x03], [0x3c, 0xaa, 0xa3, 0xe8]) == [0xa9, 0x9f, 0x9d, 0xeb]
    ensures AddWord([0xf9, 0x6c, 0x32, 0xbc], [0xa9, 0x9f, 0x9d, 0xeb]) == [0x50, 0xf3, 0xaf, 0x57]
    ensures AddWord([0xfd, 0x05, 0x8d, 0xfd], [0x50, 0xf3, 0xaf, 0x57]) == [0xad, 0xf6, 0x22, 0xaa]
  {
  }

  lemma Words6()
    ensures AddWord([0x3c, 0xaa, 0xa3, 0xe8], SubRotWord([0xad, 0xf6, 0x22, 0xaa], 0x20)) == [0x5e, 0x39, 0x0f, 0x7d]
    ensures AddWord([0xa9, 0x9f, 0x9d, 0xeb], [0x5e, 0x39, 0x0f, 0x7d]) == [0xf7, 0xa6, 0x92, 0x96]
    ensures AddWord([0x50, 0xf3, 0xaf, 0x57], [0xf7, 0xa6, 0x92, 0x96]) == [0xa7, 0x55, 0x3d, 0xc1]
    ensures AddWord([0xad, 0xf6, 0x22, 0xaa], [0xa7, 0x55, 0x3d, 0xc1]) == [0x0a, 0xa3, 0x1f, 0x6b]
  {
  }

  lemma Words7()
    ensures AddWord([0x5e, 0x39, 0x0f, 0x7d], SubRotWord([0x0a, 0xa3, 0x1f, 0x6b], 0x40)) == [0x14, 0xf9, 0x70, 0x1a]
    ensures AddWord([0xf7, 0xa6, 0x92, 0x96], [0x14, 0xf9, 0x70, 0x1a]) == [0xe3, 0x5f, 0xe2, 0x8c]
    ensures AddWord([0xa7, 0x55, 0x3d, 0xc1], [0xe3, 0x5f, 0xe2, 0x8c]) == [0x44, 0x0a, 0xdf, 0x4d]
    ensures AddWord([0x0a, 0xa3, 0x1f, 0x6b], [0x44, 0x0a, 0xdf, 0x4d]) == [0x4e, 0xa9, 0xc0, 0x26]
  {
  }

  lemma Words8()
    ensures AddWord([0x14, 0xf9, 0x70, 0x1a], SubRotWord([0x4e, 0xa9, 0xc0, 0x26], 0x80)) == [0x47, 0x43, 0x87, 0x35]
    ensures AddWord([0xe3, 0x5f, 0xe2, 0x8c], [0x47, 0x43, 0x87, 0x35]) == [0xa4, 0x1c, 0x65, 0xb9]
    ensures AddWord([0x44, 0x0a, 0xdf, 0x4d], [0xa4, 0x1c, 0x65, 0xb9]) == [0xe0, 0x16, 0xba, 0xf4]
    ensures AddWord([0x4e, 0xa9, 0xc0, 0x26], [0xe0, 0x16, 0xba, 0xf4]) == [0xae, 0xbf, 0x7a, 0xd2]
  {
  }

  lemma Words9()
    ensures AddWord([0x47, 0x43, 0x87, 0x35], SubRotWord([0xae, 0xbf, 0x7a, 0xd2], 0x1b)) == [0x54, 0x99, 0x32, 0xd1]
    ensures AddWord([0xa4, 0x1c, 0x65, 0xb9], [0x54, 0x99, 0x32, 0xd1]) == [0xf0, 0x85, 0x57, 0x68]
    ensures AddWord([0xe0, 0x16, 0xba, 0xf4], [0xf0, 0x85, 0x57, 0x68]) == [0x10, 0x93, 0xed, 0x9c]
    ensures AddWord([0xae, 0xbf, 0x7a, 0xd2], [0x10, 0x93, 0xed, 0x9c]) == [0xbe, 0x2c, 0x97, 0x4e]
  {
  }

  lemma Words10()
    ensures AddWord([0x54, 0x99, 0x32, 0xd1], SubRotWord([0xbe, 0x2c, 0x97, 0x4e], 0x36)) == [0x13, 0x11, 0x1d, 0x7f]
    ensures AddWord([0xf0, 0x85, 0x57, 0x68], [0x13, 0x11, 0x1d, 0x7f]) == [0xe3, 0x94, 0x4a, 0x17]
    ensures AddWord([0x10, 0x93, 0xed, 0x9c], [0xe3, 0x94, 0x4a, 0x17]) == [0xf3, 0x07, 0xa7, 0x8b]
    ensures AddWord([0xbe, 0x2c, 0x97, 0x4e], [0xf3, 0x07, 0xa7, 0x8b]) == [0x4d, 0x2b, 0x30, 0xc5]
  {
  }

  /** The words of one round key follow from those of the one before. */
  lemma NextKey(r: nat, k: Block, n: Block, rcon: bv8)
    requires 1 <= r <= 10 && Rcon(r) == rcon && KeyIs(r - 1, k)
    requires AddWord(k[0..4], SubRotWord(k[12..16], rcon)) == n[0..4] && AddWord(k[4..8], n[0..4]) == n[4..8]
    requires AddWord(k[8..12], n[4..8]) == n[8..12] && AddWord(k[12..16], n[8..12]) == n[12..16]
    ensures KeyIs(r, n)
  {
    hide ScheduleWord, AddWord, SubRotWord, Rcon;
    ScheduleNext(K0, 4 * r);
    ScheduleNext(K0, 4 * r + 1);
    ScheduleNext(K0, 4 * r + 2);
    ScheduleNext(K0, 4 * r + 3);
  }

  ghost predicate KeyIs(r: nat, k: Block) {
    && ScheduleWord(K0, 4 * r) == k[0..4] && ScheduleWord(K0, 4 * r + 1) == k[4..8]
    && ScheduleWord(K0, 4 * r + 2) == k[8..12] && ScheduleWord(K0, 4 * r + 3) == k[12..16]
  }

  lemma KeyAt(r: nat, k: Block)
    requires r <= 10 && KeyIs(r, k)
    ensures Schedule(K0)[16 * r..16 * r + 16] == k
  {
    hide ScheduleWord, Words;
    WordsPrefix(K0, 44, 4 * r);
    WordsPrefix(K0, 44, 4 * r + 1);
    WordsPrefix(K0, 44, 4 * r + 2);
    WordsPrefix(K0, 44, 4 * r + 3);
    Joined(Schedule(K0), 16 * r);
    Joined(k, 0);
  }

  lemma Joined(s: seq<bv8>, i: nat)
    requires i + 16 <= |s|
    ensures s[i..i + 16] == s[i..i + 4] + s[i + 4..i + 8] + s[i + 8..i + 12] + s[i + 12..i + 16]
  {
  }

  lemma Round1()
    requires KeyIs(0, K0)
    ensures KeyIs(1, K1) && Round(S0, Schedule(K0), 1) == S1
  {
    hide ScheduleWord, Rcon, KeyIs, Round, Schedule, AddWord, SubRotWord, Column, LastColumn;
    RconIs();
    Words1();
    NextKey(1, K0, K1, 0x01);
    KeyAt(1, K1);
    Columns1a();
    Columns1b();
    RoundIs(S0, Schedule(K0), 1, K1, S1);
  }

  lemma Round2()
    requires KeyIs(1, K1)
    ensures KeyIs(2, K2) && Round(S1, Schedule(K0), 2) == S2
  {
    hide ScheduleWord, Rcon, KeyIs, Round, Schedule, AddWord, SubRotWord, Column, LastColumn;
    RconIs();
    Words2();
    NextKey(2, K1, K2, 0x02);
    KeyAt(2, K2);
    Columns2a();
    Columns2b();
    RoundIs(S1, Schedule(K0), 2, K2, S2);
  }

  lemma Round3()
    requires KeyIs(2, K2)
    ensures KeyIs(3, K3) && Round(S2, Schedule(K0), 3) == S3
  {
    hide ScheduleWord, Rcon, KeyIs, Round, Schedule, AddWord, SubRotWord, Column, LastColumn;
    RconIs();
    Words3();
    NextKey(3, K2, K3, 0x04);
    KeyAt(3, K3);
    Columns3a();
    Columns3b();
    RoundIs(S2, Schedule(K0), 3, K3, S3);
  }

  lemma Round4()
    requires KeyIs(3, K3)
    ensures KeyIs(4, K4) && Round(S3, Schedule(K0), 4) == S4
  {
    hide ScheduleWord, Rcon, KeyIs, Round, Schedule, AddWord, SubRotWord, Column, LastColumn;
    RconIs();
    Words4();
    NextKey(4, K3, K4, 0x08);
    KeyAt(4, K4);
    Columns4a();
    Columns4b();
    RoundIs(S3, Schedule(K0), 4, K4, S4);
  }

  lemma Round5()
    requires KeyIs(4, K4)
    ensures KeyIs(5, K5) && Round(S4, Schedule(K0), 5) == S5
  {
    hide ScheduleWord, Rcon, KeyIs, Round, Schedule, AddWord, SubRotWord, Column, LastColumn;
    RconIs();
    Words5();
    NextKey(5, K4, K5, 0x10);
    KeyAt(5, K5);
    Columns5a();
    Columns5b();
    RoundIs(S4, Schedule(K0), 5, K5, S5);
  }

  lemma Round6()
    requires KeyIs(5, K5)
    ensures KeyIs(6, K6) && Round(S5, Schedule(K0), 6) == S6
  {
    hide ScheduleWord, Rcon, KeyIs, Round, Schedule, AddWord, SubRotWord, Column, LastColumn;
    RconIs();
    Words6();
    NextKey(6, K5, K6, 0x20);
    KeyAt(6, K6);
    Columns6a();
    Columns6b();
    RoundIs(S5, Schedule(K0), 6, K6, S6);
  }

  lemma Round7()
    requires KeyIs(6, K6)
    ensures KeyIs(7, K7) && Round(S6, Schedule(K0), 7) == S7
  {
    hide ScheduleWord, Rcon, KeyIs, Round, Schedule, AddWord, SubRotWord, Column, LastColumn;
    RconIs();
    Words7();
    NextKey(7, K6, K7, 0x40);
    KeyAt(7, K7);
    Columns7a();
    Columns7b();
    RoundIs(S6, Schedule(K0), 7, K7, S7);
  }

  lemma Round8()
    requires KeyIs(7, K7)
    ensures KeyIs(8, K8) && Round(S7, Schedule(K0), 8) == S8
  {
    hide ScheduleWord, Rcon, KeyIs, Round, Schedule, AddWord, SubRotWord, Column, LastColumn;
    RconIs();
    Words8();
    NextKey(8, K7, K8, 0x80);
    KeyAt(8, K8);
    Columns8a();
    Columns8b();
    RoundIs(S7, Schedule(K0), 8, K8, S8);
  }

  lemma Round9()
    requires KeyIs(8, K8)
    ensures KeyIs(9, K9) && Round(S8, Schedule(K0), 9) == S9
  {
    hide ScheduleWord, Rcon, KeyIs, Round, Schedule, AddWord, SubRotWord, Column, LastColumn;
    RconIs();
    Words9();
    NextKey(9, K8, K9, 0x1b);
    KeyAt(9, K9);
    Columns9a();
    Columns9b();
    RoundIs(S8, Schedule(K0), 9, K9, S9);
  }

  lemma Round10()
    requires KeyIs(9, K9)
    ensures KeyIs(10, K10) && Round(S9, Schedule(K0), 10) == CIPHER
  {
    hide ScheduleWord, Rcon, KeyIs, Round, Schedule, AddWord, SubRotWord, Column, LastColumn;
    RconIs();
    Words10();
    NextKey(10, K9, K10, 0x36);
    KeyAt(10, K10);
    Columns10a();
    Columns10b();
    RoundIs(S9, Schedule(K0), 10, K10, CIPHER);
  }

  lemma Start()
    ensures KeyIs(0, K0) && AddKey(PLAIN, Schedule(K0), 0) == S0
  {
    hide Schedule;
    FirstWords0();
    KeyAt(0, K0);
    assert AddWord(PLAIN[0..4], K0[0..4]) == S0[0..4] && AddWord(PLAIN[4..8], K0[4..8]) == S0[4..8];
    assert AddWord(PLAIN[8..12], K0[8..12]) == S0[8..12] && AddWord(PLAIN[12..16], K0[12..16]) == S0[12..16];
    ByWords(PLAIN, Schedule(K0), K0, S0);
  }

  lemma FirstWords0()
    ensures KeyIs(0, K0)
  {
    hide K0;
  }

  lemma ByWords(b: Block, rk: RoundKeys, k: Block, o: Block)
    requires rk[0..16] == k
    requires AddWord(b[0..4], k[0..4]) == o[0..4] && AddWord(b[4..8], k[4..8]) == o[4..8]
    requires AddWord(b[8..12], k[8..12]) == o[8..12] && AddWord(b[12..16], k[12..16]) == o[12..16]
    ensures AddKey(b, rk, 0) == o
  {
    hide Add;
    Slices(b);
    Slices(k);
    Slices(o);
    forall i | 0 <= i < 16 ensures AddKey(b, rk, 0)[i] == Add(b[i], k[i]) {
      assert rk[i] == rk[0..16][i];
    }
    Same(AddKey(b, rk, 0), o);
  }

  /** The cipher gives the published block. */
  lemma KnownAnswer()
    ensures Encrypted(Schedule(K0), PLAIN) == CIPHER
  {
    hide Round, AddKey, Schedule, KeyIs;
    Start();
    Round1();
    Round2();
    Round3();
    Round4();
    Round5();
    Round6();
    Round7();
    Round8();
    Round9();
    Round10();
    Unrolled(S0, Schedule(K0));
  }

  lemma Unrolled(b: Block, rk: RoundKeys)
    ensures RoundsFrom(b, rk, 1) == FiveFrom(FiveFrom(b, rk, 1), rk, 6)
  {
    hide Round;
    RoundsFive(b, rk, 1);
    RoundsFive(FiveFrom(b, rk, 1), rk, 6);
  }

  function FiveFrom(b: Block, rk: RoundKeys, r: nat): Block
    requires 1 <= r <= 6
  {
    Round(Round(Round(Round(Round(b, rk, r), rk, r + 1), rk, r + 2), rk, r + 3), rk, r + 4)
  }

  lemma RoundsFive(b: Block, rk: RoundKeys, r: nat)
    requires 1 <= r <= 6
    ensures RoundsFrom(b, rk, r) == RoundsFrom(FiveFrom(b, rk, r), rk, r + 5)
  {
    hide Round;
    var c := Round(Round(b, rk, r), rk, r + 1);
    assert RoundsFrom(b, rk, r) == RoundsFrom(Round(b, rk, r), rk, r + 1) == RoundsFrom(c, rk, r + 2);
    var d := Round(Round(c, rk, r + 2), rk, r + 3);
    assert RoundsFrom(c, rk, r + 2) == RoundsFrom(Round(c, rk, r + 2), rk, r + 3) == RoundsFrom(d, rk, r + 4);
  }
}
