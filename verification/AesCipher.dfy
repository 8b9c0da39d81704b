/** wpa.h: the AES-128 block cipher and the RFC 3394 key unwrap on top of it. */
module AesRounds {
  import opened AesTables
  import opened AesField

  type Bytes = seq<bv8>
  type Block = b: seq<bv8> | |b| == 16 witness seq(16, _ => 0)

  /** Eleven round keys of 16 bytes. */
  type RoundKeys = rk: seq<bv8> | |rk| == 176 witness seq(176, _ => 0)

  function AddKey(b: Block, rk: RoundKeys, r: nat): Block
    requires r <= 10
  {
    seq(16, i requires 0 <= i < 16 => Add(b[i], rk[16 * r + i]))
  }

  /** Where ShiftRows takes byte i from: row i % 4, as many columns further. */
  function Shift(i: nat): (k: nat)
    ensures k < 16
  {
    (i + 4 * (i % 4)) % 16
  }

  function Unshift(i: nat): (k: nat)
    ensures k < 16
  {
    (i + 12 * (i % 4)) % 16
  }

  lemma ShiftInverse(i: nat)
    requires i < 16
    ensures Shift(Unshift(i)) == i && Unshift(Shift(i)) == i
  {
    ShiftForm(i);
    ShiftForm(Shift(i));
    ShiftForm(Unshift(i));
  }

  /** Four columns are a full turn; the row stays. */
  lemma ShiftForm(i: nat)
    requires i < 16
    ensures var r := i % 4;
            && Shift(i) == (if i + 4 * r < 16 then i + 4 * r else i + 4 * r - 16)
            && Unshift(i) == (if i < 4 * r then i - 4 * r + 16 else i - 4 * r)
            && Shift(i) % 4 == r && Unshift(i) % 4 == r
  {
    var r := i % 4;
    assert i + 12 * r == 16 * r + (i - 4 * r);
  }

  /** SubBytes and ShiftRows of FIPS 197, sections 5.1.1 and 5.1.2. */
  function SubShift(b: Block): Block {
    seq(16, i requires 0 <= i < 16 => Sbox(b[Shift(i)]))
  }

  function UnsubShift(t: Block): Block {
    seq(16, i requires 0 <= i < 16 => InvSbox(t[Unshift(i)]))
  }

  /** The byte j places further down the column of byte i. */
  function Below(t: Block, i: nat, j: nat): bv8
    requires i < 16 && j < 4
  {
    t[Down(i, j)]
  }

  function Down(i: nat, j: nat): (k: nat)
    requires j < 4
    ensures i < 16 ==> k < 16
  {
    if i % 4 + j < 4 then i + j else i + j - 4
  }

  /** j + k places, around the column. */
  function Turn(j: nat, k: nat): nat {
    if j + k < 4 then j + k else j + k - 4
  }

  lemma DownTwice(i: nat, j: nat, k: nat)
    requires i < 16 && j < 4 && k < 4
    ensures Down(Down(i, j), k) == Down(i, Turn(j, k)) && Down(i, 0) == i
  {
  }

  function Mixed(t: Block): Block {
    seq(16, i requires 0 <= i < 16 => Mix(Below(t, i, 0), Below(t, i, 1), Below(t, i, 2), Below(t, i, 3)))
  }

  function Unmixed(t: Block): Block {
    seq(16, i requires 0 <= i < 16 => Unmix(Below(t, i, 0), Below(t, i, 1), Below(t, i, 2), Below(t, i, 3)))
  }

  /** Round r; the last one does not mix. */
  function Round(b: Block, rk: RoundKeys, r: nat): Block
    requires 1 <= r <= 10
  {
    AddKey(if r == 10 then SubShift(b) else Mixed(SubShift(b)), rk, r)
  }

  function Unround(b: Block, rk: RoundKeys, r: nat): Block
    requires 1 <= r <= 10
  {
    var t := AddKey(b, rk, r);
    UnsubShift(if r == 10 then t else Unmixed(t))
  }

  function RoundsFrom(b: Block, rk: RoundKeys, r: nat): Block
    requires 1 <= r <= 11
    decreases 11 - r
  {
    if r == 11 then b else RoundsFrom(Round(b, rk, r), rk, r + 1)
  }

  function UnroundsFrom(b: Block, rk: RoundKeys, r: nat): Block
    requires r <= 10
    decreases r
  {
    if r == 0 then b else UnroundsFrom(Unround(b, rk, r), rk, r - 1)
  }

  function Encrypted(rk: RoundKeys, b: Block): Block {
    RoundsFrom(AddKey(b, rk, 0), rk, 1)
  }

  function Decrypted(rk: RoundKeys, b: Block): Block {
    AddKey(UnroundsFrom(b, rk, 10), rk, 0)
  }

  // ---- every step is undone by its counterpart ----

  lemma AddKeyTwice(b: Block, rk: RoundKeys, r: nat)
    requires r <= 10
    ensures AddKey(AddKey(b, rk, r), rk, r) == b
  {
    forall i | 0 <= i < 16
      ensures AddKey(AddKey(b, rk, r), rk, r)[i] == b[i]
    {
      AddSame(b[i], rk[16 * r + i]);
    }
  }

  lemma AddSame(a: bv8, k: bv8)
    ensures Add(Add(a, k), k) == a
  {
  }

  lemma SubShiftUndone(b: Block)
    ensures UnsubShift(SubShift(b)) == b && SubShift(UnsubShift(b)) == b
  {
    hide Sbox, InvSbox, Shift, Unshift;
    forall i | 0 <= i < 16
      ensures UnsubShift(SubShift(b))[i] == b[i] && SubShift(UnsubShift(b))[i] == b[i]
    {
      ShiftInverse(i);
      SboxInverse(b[i]);
    }
  }

  lemma MixedUndone(t: Block)
    ensures Unmixed(Mixed(t)) == t && Mixed(Unmixed(t)) == t
  {
    hide Mix, Unmix;
    forall i | 0 <= i < 16
      ensures Unmixed(Mixed(t))[i] == t[i] && Mixed(Unmixed(t))[i] == t[i]
    {
      var a0, a1, a2, a3 := Below(t, i, 0), Below(t, i, 1), Below(t, i, 2), Below(t, i, 3);
      UnmixMix(a0, a1, a2, a3);
      MixUnmix(a0, a1, a2, a3);
      Columns(t, i);
    }
  }

  lemma Columns(t: Block, i: nat)
    requires i < 16
    ensures var a0, a1, a2, a3 := Below(t, i, 0), Below(t, i, 1), Below(t, i, 2), Below(t, i, 3);
            var m, u := Mixed(t), Unmixed(t);
            && a0 == t[i]
            && Below(m, i, 0) == Mix(a0, a1, a2, a3) && Below(m, i, 1) == Mix(a1, a2, a3, a0)
            && Below(m, i, 2) == Mix(a2, a3, a0, a1) && Below(m, i, 3) == Mix(a3, a0, a1, a2)
            && Below(u, i, 0) == Unmix(a0, a1, a2, a3) && Below(u, i, 1) == Unmix(a1, a2, a3, a0)
            && Below(u, i, 2) == Unmix(a2, a3, a0, a1) && Below(u, i, 3) == Unmix(a3, a0, a1, a2)
  {
    hide Mix, Unmix, Down, Mixed, Unmixed;
    DownTwice(i, 0, 0);
    ColumnByte(t, i, 0);
    ColumnByte(t, i, 1);
    ColumnByte(t, i, 2);
    ColumnByte(t, i, 3);
  }

  lemma ColumnByte(t: Block, i: nat, j: nat)
    requires i < 16 && j < 4
    ensures Below(Mixed(t), i, j) ==
            Mix(Below(t, i, j), Below(t, i, Turn(j, 1)), Below(t, i, Turn(j, 2)), Below(t, i, Turn(j, 3)))
    ensures Below(Unmixed(t), i, j) ==
            Unmix(Below(t, i, j), Below(t, i, Turn(j, 1)), Below(t, i, Turn(j, 2)), Below(t, i, Turn(j, 3)))
  {
    hide Mix, Unmix, Down;
    DownTwice(i, j, 0);
    DownTwice(i, j, 1);
    DownTwice(i, j, 2);
    DownTwice(i, j, 3);
  }

  // ---- the whole cipher ----

  lemma RoundUndone(b: Block, rk: RoundKeys, r: nat)
    requires 1 <= r <= 10
    ensures Unround(Round(b, rk, r), rk, r) == b
    ensures Round(Unround(b, rk, r), rk, r) == b
  {
    hide AddKey, SubShift, UnsubShift, Mixed, Unmixed;
    var s, t := SubShift(b), AddKey(b, rk, r);
    AddKeyTwice(if r == 10 then s else Mixed(s), rk, r);
    AddKeyTwice(b, rk, r);
    MixedUndone(s);
    MixedUndone(t);
    SubShiftUndone(b);
    SubShiftUndone(if r == 10 then t else Unmixed(t));
  }

  lemma {:induction false} RoundsUndone(b: Block, rk: RoundKeys, r: nat)
    requires 1 <= r <= 11
    ensures UnroundsFrom(RoundsFrom(b, rk, r), rk, 10) == UnroundsFrom(b, rk, r - 1)
    decreases 11 - r
  {
    hide Round, Unround;
    if r < 11 {
      RoundsUndone(Round(b, rk, r), rk, r + 1);
      RoundUndone(b, rk, r);
    }
  }

  lemma {:induction false} UnroundsUndone(b: Block, rk: RoundKeys, r: nat)
    requires r <= 10
    ensures RoundsFrom(UnroundsFrom(b, rk, r), rk, 1) == RoundsFrom(b, rk, r + 1)
    decreases r
  {
    hide Round, Unround;
    if r > 0 {
      UnroundsUndone(Unround(b, rk, r), rk, r - 1);
      RoundUndone(b, rk, r);
    }
  }

  /** aes128_decrypt undoes aes128_encrypt, and the other way round, for any 176 bytes of round
      keys, so for the schedule of every key. */
  lemma CipherInverse(rk: RoundKeys, b: Block)
    ensures Decrypted(rk, Encrypted(rk, b)) == b
    ensures Encrypted(rk, Decrypted(rk, b)) == b
  {
    hide AddKey, Round, Unround;
    var k := AddKey(b, rk, 0);
    RoundsUndone(k, rk, 1);
    AddKeyTwice(b, rk, 0);
    var u := UnroundsFrom(b, rk, 10);
    AddKeyTwice(u, rk, 0);
    UnroundsUndone(b, rk, 10);
  }
}

/** The code of wpa.h, in place on 16-byte arrays. */
module AesCode {
  import opened AesTables
  import opened AesField
  import opened AesRounds

  // ---- key expansion (FIPS 197, section 5.2) ----

  type Key = k: seq<bv8> | |k| == 16 witness seq(16, _ => 0)
  type Word = w: seq<bv8> | |w| == 4 witness [0, 0, 0, 0]

  function Rcon(k: nat): bv8 {
    if k <= 1 then 1 else Xt(Rcon(k - 1))
  }

  function AddWord(a: Word, b: Word): Word {
    [Add(a[0], b[0]), Add(a[1], b[1]), Add(a[2], b[2]), Add(a[3], b[3])]
  }

  function SubRotWord(w: Word, rcon: bv8): Word {
    [Add(Sbox(w[1]), rcon), Sbox(w[2]), Sbox(w[3]), Sbox(w[0])]
  }

  function ScheduleWord(key: Key, i: nat): Word
    decreases i
  {
    if i < 4 then key[4 * i..4 * i + 4]
    else
      var t := ScheduleWord(key, i - 1);
      AddWord(ScheduleWord(key, i - 4), if i % 4 == 0 then SubRotWord(t, Rcon(i / 4)) else t)
  }

  /** The first n words of the schedule, one after the other. */
  function Words(key: Key, n: nat): (s: seq<bv8>)
    ensures |s| == 4 * n
  {
    if n == 0 then [] else Words(key, n - 1) + ScheduleWord(key, n - 1)
  }

  function Schedule(key: Key): RoundKeys {
    Words(key, 44)
  }

  lemma {:induction false} WordsPrefix(key: Key, n: nat, k: nat)
    requires k < n
    ensures Words(key, n)[4 * k..4 * k + 4] == ScheduleWord(key, k)
  {
    var s := Words(key, n - 1) + ScheduleWord(key, n - 1);
    if k < n - 1 {
      WordsPrefix(key, n - 1, k);
      assert s[4 * k..4 * k + 4] == Words(key, n - 1)[4 * k..4 * k + 4];
    } else {
      assert s[4 * k..4 * k + 4] == ScheduleWord(key, k);
    }
  }

  lemma FirstWords(key: Key)
    ensures Words(key, 4) == key
  {
    assert Words(key, 1) == key[0..4];
    assert Words(key, 2) == key[0..4] + key[4..8];
    assert Words(key, 3) == key[0..4] + key[4..8] + key[8..12];
    assert Words(key, 4) == key[0..4] + key[4..8] + key[8..12] + key[12..16];
  }

  /** aes128_key */
  method ExpandKey(key: Key, rk: array<bv8>)
    requires rk.Length == 176
    modifies rk
    ensures rk[..] == Schedule(key)
  {
    var rcon: bv8 := 1;
    for i := 0 to 16
      invariant rk[..i] == key[..i]
    {
      rk[i] := key[i];
    }
    FirstWords(key);
    var w := 4;
    while w < 44
      invariant 4 <= w <= 44 && rcon == RconAt(w)
      invariant rk[..4 * w] == Words(key, w)
    {
      hide Words, RconAt;
      rcon := NextWord(key, rk, w, rcon);
      w := w + 1;
    }
  }

  /** The round constant the code holds before word w. */
  function RconAt(w: nat): bv8 {
    Rcon(if w % 4 == 0 then w / 4 else w / 4 + 1)
  }

  lemma RconStep(w: nat)
    requires w >= 4
    ensures RconAt(w + 1) == if w % 4 == 0 then Xt(RconAt(w)) else RconAt(w)
  {
    hide Xt;
    assert (w + 1) / 4 == if w % 4 == 3 then w / 4 + 1 else w / 4;
  }

  /** The next word is made of the fourth last and the last one. */
  lemma WordStep(key: Key, w: nat)
    requires w >= 4
    ensures var s := Words(key, w);
            Words(key, w + 1) ==
            s + NextOf(s[4 * (w - 4)..4 * (w - 4) + 4], s[4 * (w - 1)..4 * (w - 1) + 4], w, RconAt(w))
  {
    hide Words, ScheduleWord, NextOf, RconAt;
    WordsPrefix(key, w, w - 1);
    WordsPrefix(key, w, w - 4);
    WordsNext(key, w);
    ScheduleNext(key, w);
  }

  lemma WordsNext(key: Key, w: nat)
    ensures Words(key, w + 1) == Words(key, w) + ScheduleWord(key, w)
  {
    hide ScheduleWord;
  }

  lemma ScheduleNext(key: Key, w: nat)
    requires w >= 4
    ensures ScheduleWord(key, w) == NextOf(ScheduleWord(key, w - 4), ScheduleWord(key, w - 1), w, RconAt(w))
  {
    hide Rcon, AddWord, SubRotWord;
  }

  function NextOf(w4: Word, w1: Word, w: nat, rcon: bv8): Word {
    AddWord(w4, if w % 4 == 0 then SubRotWord(w1, rcon) else w1)
  }

  /** One turn of the second loop of aes128_key. */
  method NextWord(key: Key, rk: array<bv8>, w: nat, rcon0: bv8) returns (rcon: bv8)
    requires rk.Length == 176 && 4 <= w < 44 && rcon0 == RconAt(w) && rk[..4 * w] == Words(key, w)
    modifies rk
    ensures rcon == RconAt(w + 1) && rk[..4 * (w + 1)] == Words(key, w + 1)
  {
    hide Sbox, Xt, Add, RconAt, Words, AddWord, SubRotWord;
    rcon := rcon0;
    WordStep(key, w);
    RconStep(w);
    var t: Word := rk[4 * w - 4..4 * w];
    var t4: Word := rk[4 * w - 16..4 * w - 12];
    assert t == rk[..4 * w][4 * (w - 1)..4 * (w - 1) + 4] && t4 == rk[..4 * w][4 * (w - 4)..4 * (w - 4) + 4];
    if w % 4 == 0 {
      t := SubRotWord(t, rcon);
      rcon := Xt(rcon);
    }
    Store(rk, 4 * w, AddWord(t4, t));
  }

  method Store(rk: array<bv8>, at: nat, w: Word)
    requires at + 4 <= rk.Length
    modifies rk
    ensures rk[..at + 4] == old(rk[..at]) + w
  {
    for j := 0 to 4
      invariant rk[..at + j] == old(rk[..at]) + w[..j]
    {
      rk[at + j] := w[j];
    }
  }

  // ---- the rounds, in place ----

  method XorKey(rk: RoundKeys, r: nat, b: array<bv8>)
    requires b.Length == 16 && r <= 10
    modifies b
    ensures b[..] == AddKey(old(b[..]), rk, r)
  {
    for i := 0 to 16
      invariant forall k :: 0 <= k < i ==> b[k] == old(b[k]) ^ rk[16 * r + k]
      invariant forall k :: i <= k < 16 ==> b[k] == old(b[k])
    {
      b[i] := b[i] ^ rk[16 * r + i];
    }
  }

  method SubShiftInto(b: array<bv8>, t: array<bv8>)
    requires b.Length == 16 == t.Length && b != t
    modifies t
    ensures t[..] == SubShift(b[..])
  {
    hide Sbox;
    for i := 0 to 16
      invariant forall k :: 0 <= k < i ==> t[k] == SubShift(b[..])[k]
    {
      t[i] := Sbox(b[(i + 4 * (i % 4)) % 16]);
    }
  }

  /** What wpa.h computes for one column; its x is the sum of the column. */
  function MixWord(a: Word): Word {
    var x := Sum4(a[0], a[1], a[2], a[3]);
    [Add(a[0], Add(x, Xt(Add(a[0], a[1])))), Add(a[1], Add(x, Xt(Add(a[1], a[2])))),
     Add(a[2], Add(x, Xt(Add(a[2], a[3])))), Add(a[3], Add(x, Xt(Add(a[3], a[0]))))]
  }

  function UnmixWord(a: Word): Word {
    [Sum4(Mul(a[0], 14), Mul(a[1], 11), Mul(a[2], 13), Mul(a[3], 9)),
     Sum4(Mul(a[0], 9), Mul(a[1], 14), Mul(a[2], 11), Mul(a[3], 13)),
     Sum4(Mul(a[0], 13), Mul(a[1], 9), Mul(a[2], 14), Mul(a[3], 11)),
     Sum4(Mul(a[0], 11), Mul(a[1], 13), Mul(a[2], 9), Mul(a[3], 14))]
  }

  lemma MixWordBytes(a0: bv8, a1: bv8, a2: bv8, a3: bv8)
    ensures MixWord([a0, a1, a2, a3]) ==
            [Mix(a0, a1, a2, a3), Mix(a1, a2, a3, a0), Mix(a2, a3, a0, a1), Mix(a3, a0, a1, a2)]
    ensures UnmixWord([a0, a1, a2, a3]) ==
            [Unmix(a0, a1, a2, a3), Unmix(a1, a2, a3, a0), Unmix(a2, a3, a0, a1), Unmix(a3, a0, a1, a2)]
  {
    Sum4Rotate(a3, a0, a1, a2);
    Sum4Rotate(a2, a3, a0, a1);
    Sum4Rotate(a1, a2, a3, a0);
    UnmixRows(a0, a1, a2, a3);
    hide Xt, Add, Sum4, Mul;
  }

  /** Column by column is byte by byte. */
  lemma MixedColumn(t: Block, c: nat)
    requires c in {0, 4, 8, 12}
    ensures Mixed(t)[c..c + 4] == MixWord(t[c..c + 4]) && Unmixed(t)[c..c + 4] == UnmixWord(t[c..c + 4])
  {
    MixedAt(t, c);
    MixWordBytes(t[c], t[c + 1], t[c + 2], t[c + 3]);
    hide MixWord, UnmixWord, Mix, Unmix, Mixed, Unmixed;
    FourBytes(t, c);
    FourBytes(Mixed(t), c);
    FourBytes(Unmixed(t), c);
  }

  lemma FourBytes(s: seq<bv8>, c: nat)
    requires c + 4 <= |s|
    ensures s[c..c + 4] == [s[c], s[c + 1], s[c + 2], s[c + 3]]
  {
  }

  lemma MixedAt(t: Block, c: nat)
    requires c in {0, 4, 8, 12}
    ensures var a0, a1, a2, a3 := t[c], t[c + 1], t[c + 2], t[c + 3];
            && Mixed(t)[c] == Mix(a0, a1, a2, a3) && Mixed(t)[c + 1] == Mix(a1, a2, a3, a0)
            && Mixed(t)[c + 2] == Mix(a2, a3, a0, a1) && Mixed(t)[c + 3] == Mix(a3, a0, a1, a2)
            && Unmixed(t)[c] == Unmix(a0, a1, a2, a3) && Unmixed(t)[c + 1] == Unmix(a1, a2, a3, a0)
            && Unmixed(t)[c + 2] == Unmix(a2, a3, a0, a1) && Unmixed(t)[c + 3] == Unmix(a3, a0, a1, a2)
  {
    hide Mix, Unmix;
  }

  lemma SameSlice(s: seq<bv8>, s0: seq<bv8>, c: nat)
    requires c + 4 <= |s| == |s0| && forall k :: c <= k < |s| ==> s[k] == s0[k]
    ensures s[c..c + 4] == s0[c..c + 4]
  {
  }

  method MixColumns(t: array<bv8>)
    requires t.Length == 16
    modifies t
    ensures t[..] == Mixed(old(t[..]))
  {
    hide MixWord, Mixed;
    ghost var t0 := t[..];
    var c := 0;
    while c < 16
      invariant c in {0, 4, 8, 12, 16} && t[..c] == Mixed(t0)[..c] && forall k :: c <= k < 16 ==> t[k] == t0[k]
      decreases 16 - c
    {
      MixedColumn(t0, c);
      SameSlice(t[..], t0, c);
      Replace(t, c, MixWord(t[..][c..c + 4]));
      c := c + 4;
    }
  }

  method UnmixColumns(t: array<bv8>)
    requires t.Length == 16
    modifies t
    ensures t[..] == Unmixed(old(t[..]))
  {
    hide UnmixWord, Unmixed;
    ghost var t0 := t[..];
    var c := 0;
    while c < 16
      invariant c in {0, 4, 8, 12, 16} && t[..c] == Unmixed(t0)[..c] && forall k :: c <= k < 16 ==> t[k] == t0[k]
      decreases 16 - c
    {
      MixedColumn(t0, c);
      SameSlice(t[..], t0, c);
      Replace(t, c, UnmixWord(t[..][c..c + 4]));
      c := c + 4;
    }
  }

  method Replace(t: array<bv8>, c: nat, w: Word)
    requires c + 4 <= t.Length
    modifies t
    ensures t[..c + 4] == old(t[..c]) + w && forall k :: c + 4 <= k < t.Length ==> t[k] == old(t[k])
  {
    t[c], t[c + 1], t[c + 2], t[c + 3] := w[0], w[1], w[2], w[3];
  }

  /** aes128_encrypt */
  method Encrypt(rk: RoundKeys, b: array<bv8>)
    requires b.Length == 16
    modifies b
    ensures b[..] == Encrypted(rk, old(b[..]))
  {
    hide AddKey, Round;
    var t := new bv8[16];
    XorKey(rk, 0, b);
    for r := 1 to 11
      invariant RoundsFrom(b[..], rk, r) == Encrypted(rk, old(b[..]))
    {
      DoRound(rk, r, b, t);
    }
  }

  method DoRound(rk: RoundKeys, r: nat, b: array<bv8>, t: array<bv8>)
    requires b.Length == 16 == t.Length && b != t && 1 <= r <= 10
    modifies b, t
    ensures b[..] == Round(old(b[..]), rk, r)
  {
    hide AddKey, SubShift, Mixed;
    SubShiftInto(b, t);
    if r != 10 {
      MixColumns(t);
    }
    XorKey(rk, r, t);
    Copy(t, b);
  }

  method Copy(t: array<bv8>, b: array<bv8>)
    requires b.Length == 16 == t.Length && b != t
    modifies b
    ensures b[..] == t[..]
  {
    forall i | 0 <= i < 16 {
      b[i] := t[i];
    }
  }

  /** The table aes_inv_sbox, and aes128_decrypt, which fills it on its first call. */
  class InverseTable {
    var inv: bv8 -> bv8

    /** All zero so far (only entry 0 is looked at), or the inverse of the S-box. */
    ghost predicate Valid()
      reads this
    {
      inv(0) != 0 ==> Filled()
    }

    ghost predicate Filled()
      reads this
    {
      forall x: bv8 :: inv(x) == InvSbox(x)
    }

    constructor ()
      ensures Valid()
    {
      inv := x => 0;
    }

    /** The lazy fill: afterwards the table is right, and its entry 0 says so. */
    method Fill()
      requires Valid()
      modifies this
      ensures Filled() && Valid()
    {
      if inv(0) == 0 {
        FillAll();
      }
    }

    method FillAll()
      modifies this
      ensures Filled()
    {
      hide Sbox, InvSbox;
      forall j: bv8
        ensures InvSbox(Sbox(j)) == j && Sbox(InvSbox(j)) == j
      {
        SboxInverse(j);
      }
      var i: bv8 := 0;
      while true
        invariant forall j: bv8 :: j < i ==> inv(Sbox(j)) == j
        decreases 255 - i
      {
        var key, f := Sbox(i), inv;
        inv := x => if x == key then i else f(x);
        if i == 255 {
          break;
        }
        i := i + 1;
      }
      assert forall j: bv8 :: inv(Sbox(j)) == j;
      assert forall x: bv8 :: inv(Sbox(InvSbox(x))) == InvSbox(x);
    }

    method UnsubShiftInto(t: array<bv8>, b: array<bv8>)
      requires Filled() && b.Length == 16 == t.Length && b != t
      modifies b
      ensures b[..] == UnsubShift(t[..])
    {
      hide InvSbox, Shift, Unshift;
      for i := 0 to 16
        invariant forall k :: 0 <= k < i ==> b[Shift(k)] == InvSbox(t[k])
      {
        forall k | 0 <= k < i
          ensures Shift(k) != Shift(i)
        {
          ShiftInverse(k);
          ShiftInverse(i);
        }
        b[Shift(i)] := inv(t[i]);
      }
      forall k | 0 <= k < 16
        ensures b[k] == UnsubShift(t[..])[k]
      {
        ShiftInverse(k);
      }
    }

    /** aes128_decrypt */
    method Decrypt(rk: RoundKeys, b: array<bv8>)
      requires Valid() && b.Length == 16
      modifies this, b
      ensures Valid() && b[..] == Decrypted(rk, old(b[..]))
    {
      hide AddKey, Unround, InvSbox;
      Fill();
      var t := new bv8[16];
      var r := 10;
      while r >= 1
        invariant 0 <= r <= 10 && Valid() && Filled()
        invariant UnroundsFrom(b[..], rk, r) == UnroundsFrom(old(b[..]), rk, 10)
      {
        UndoRound(rk, r, b, t);
        r := r - 1;
      }
      XorKey(rk, 0, b);
    }

    method UndoRound(rk: RoundKeys, r: nat, b: array<bv8>, t: array<bv8>)
      requires Filled() && b.Length == 16 == t.Length && b != t && 1 <= r <= 10
      modifies b, t
      ensures b[..] == Unround(old(b[..]), rk, r)
    {
      hide AddKey, UnsubShift, Unmixed, InvSbox;
      Copy(b, t);
      XorKey(rk, r, t);
      if r != 10 {
        UnmixColumns(t);
      }
      UnsubShiftInto(t, b);
    }
  }
}
