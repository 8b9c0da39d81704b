/** wpa.h: the AES key unwrap of RFC 3394, against the wrap of its section 2.2.1. */
module KeyWrap {
  import opened Arith
  import opened Machine
  import opened AesField
  import opened AesRounds
  import opened AesCode

  /** The integrity register A and the n semiblocks R[1..n], eight bytes each. */
  datatype Registers = Registers(a: seq<bv8>, r: seq<bv8>) {
    ghost predicate Valid(n: nat) {
      |a| == 8 && |r| == 8 * n
    }
  }

  /** The default initial value of section 2.2.3.1. */
  const INITIAL: seq<bv8> := [0xa6, 0xa6, 0xa6, 0xa6, 0xa6, 0xa6, 0xa6, 0xa6]

  /** Byte k of the 64-bit, most significant byte first step counter. */
  function CounterByte(t: nat, k: nat): bv8
    requires k < 8
  {
    (t / Pow256(7 - k) % 256) as bv8
  }

  function XorCounter(a: seq<bv8>, t: nat): (r: seq<bv8>)
    requires |a| == 8
    ensures |r| == 8
  {
    seq(8, k requires 0 <= k < 8 => Add(a[k], CounterByte(t, k)))
  }

  function Get(r: seq<bv8>, i: nat): (w: seq<bv8>)
    requires 8 * i + 8 <= |r|
    ensures |w| == 8
  {
    r[8 * i..8 * i + 8]
  }

  function Put(r: seq<bv8>, i: nat, w: seq<bv8>): (r': seq<bv8>)
    requires 8 * i + 8 <= |r| && |w| == 8
    ensures |r'| == |r|
  {
    r[..8 * i] + w + r[8 * i + 8..]
  }

  /** The semiblock step t works on; t counts from 1 to 6n. */
  function Index(n: nat, t: nat): (i: nat)
    requires n > 0 && t > 0
    ensures i < n
  {
    (t - 1) % n
  }

  /** Step t of section 2.2.1: B = AES(K, A | R[i]), A = MSB(B) ^ t, R[i] = LSB(B). */
  function WrapStep(rk: RoundKeys, s: Registers, n: nat, t: nat): (s': Registers)
    requires s.Valid(n) && n > 0 && t > 0
    ensures s'.Valid(n)
  {
    var i := Index(n, t);
    assert 8 * i + 8 <= 8 * n;
    var b := Encrypted(rk, s.a + Get(s.r, i));
    Registers(XorCounter(b[..8], t), Put(s.r, i, b[8..]))
  }

  /** Step t of section 2.2.2: B = AES-1(K, (A ^ t) | R[i]), A = MSB(B), R[i] = LSB(B). */
  function UnwrapStep(rk: RoundKeys, s: Registers, n: nat, t: nat): (s': Registers)
    requires s.Valid(n) && n > 0 && t > 0
    ensures s'.Valid(n)
  {
    var i := Index(n, t);
    assert 8 * i + 8 <= 8 * n;
    var b := Decrypted(rk, XorCounter(s.a, t) + Get(s.r, i));
    Registers(b[..8], Put(s.r, i, b[8..]))
  }

  function WrapSteps(rk: RoundKeys, s: Registers, n: nat, t: nat): (s': Registers)
    requires s.Valid(n) && (n > 0 || t == 0)
    ensures s'.Valid(n)
    decreases t
  {
    if t == 0 then s else WrapStep(rk, WrapSteps(rk, s, n, t - 1), n, t)
  }

  function UnwrapSteps(rk: RoundKeys, s: Registers, n: nat, t: nat): (s': Registers)
    requires s.Valid(n) && (n > 0 || t == 0)
    ensures s'.Valid(n)
    decreases t
  {
    if t == 0 then s else UnwrapSteps(rk, UnwrapStep(rk, s, n, t), n, t - 1)
  }

  /** The wrap of n semiblocks of key data. */
  function Wrap3394(kek: Key, data: seq<bv8>, n: nat): (c: seq<bv8>)
    requires |data| == 8 * n
    ensures |c| == 8 * n + 8
  {
    var s := WrapSteps(Schedule(kek), Registers(INITIAL, data), n, 6 * n);
    s.a + s.r
  }

  function Unwrap3394(kek: Key, c: seq<bv8>, n: nat): (s: Registers)
    requires |c| == 8 * n + 8
    ensures s.Valid(n)
  {
    UnwrapSteps(Schedule(kek), Registers(c[..8], c[8..]), n, 6 * n)
  }

  /** The first steps of a wrap: the semiblocks in turn, the left half of each block going on with the
      count of the step added to its last byte, and the right half taking the place of the semiblock. */
  lemma FirstSteps(rk: RoundKeys, a: seq<bv8>, r1: seq<bv8>, r2: seq<bv8>)
    requires |a| == |r1| == |r2| == 8
    ensures var b1 := Encrypted(rk, a + r1);
            var b2 := Encrypted(rk, Stamped(b1, 1) + r2);
            WrapSteps(rk, Registers(a, r1 + r2), 2, 2) == Registers(Stamped(b2, 2), b1[8..] + b2[8..])
  {
    hide Encrypted, Add, XorCounter, WrapStep, WrapSteps, Stamped;
    var b1 := Encrypted(rk, a + r1);
    StepOne(rk, a, r1, r2);
    Counted(b1, 1);
    StepTwo(rk, Stamped(b1, 1), b1[8..], r2);
    Counted(Encrypted(rk, Stamped(b1, 1) + r2), 2);
    TwoWraps(rk, Registers(a, r1 + r2));
  }

  /** The left half of a block, with a step added to its last byte. */
  function Stamped(b: Block, t: bv8): (r: seq<bv8>)
    ensures |r| == 8
  {
    b[..7] + [Add(b[7], t)]
  }

  lemma TwoWraps(rk: RoundKeys, s: Registers)
    requires s.Valid(2)
    ensures WrapSteps(rk, s, 2, 2) == WrapStep(rk, WrapStep(rk, s, 2, 1), 2, 2)
  {
    hide WrapStep;
    assert WrapSteps(rk, s, 2, 1) == WrapStep(rk, WrapSteps(rk, s, 2, 0), 2, 1);
  }

  lemma Counted(b: Block, t: nat)
    requires 1 <= t <= 2
    ensures XorCounter(b[..8], t) == Stamped(b, if t == 1 then 1 else 2)
  {
    hide XorCounter, Add;
    LowCount(b[..8], t);
    assert b[..8][..7] == b[..7];
  }

  lemma StepOne(rk: RoundKeys, a: seq<bv8>, r1: seq<bv8>, r2: seq<bv8>)
    requires |a| == |r1| == |r2| == 8
    ensures var b := Encrypted(rk, a + r1);
            WrapStep(rk, Registers(a, r1 + r2), 2, 1) == Registers(XorCounter(b[..8], 1), b[8..] + r2)
  {
    hide Encrypted, XorCounter, Index;
    Indices();
    assert (r1 + r2)[0..8] == r1 && (r1 + r2)[..0] == [] && (r1 + r2)[8..] == r2;
  }

  lemma StepTwo(rk: RoundKeys, a: seq<bv8>, r1: seq<bv8>, r2: seq<bv8>)
    requires |a| == |r1| == |r2| == 8
    ensures var b := Encrypted(rk, a + r2);
            WrapStep(rk, Registers(a, r1 + r2), 2, 2) == Registers(XorCounter(b[..8], 2), r1 + b[8..])
  {
    hide Encrypted, XorCounter, Index;
    Indices();
    assert (r1 + r2)[8..16] == r2 && (r1 + r2)[..8] == r1 && (r1 + r2)[16..] == [];
  }

  lemma Indices()
    ensures Index(2, 1) == 0 && Index(2, 2) == 1
  {
  }

  lemma LowCount(a: seq<bv8>, t: nat)
    requires |a| == 8 && 1 <= t <= 2
    ensures XorCounter(a, t) == a[..7] + [Add(a[7], if t == 1 then 1 else 2)]
  {
    hide Add;
    forall k | 0 <= k < 7 ensures XorCounter(a, t)[k] == a[k] {
      hide CounterByte;
      HighCount(t, k);
      NothingAdded(a[k]);
    }
    LastCount(t);
  }

  lemma LastCount(t: nat)
    requires 1 <= t <= 2
    ensures CounterByte(t, 7) == if t == 1 then 1 else 2
  {
    assert Pow256(0) == 1;
    hide Pow256;
    assert t / Pow256(7 - 7) % 256 == t;
    if t == 1 {
    }
  }

  lemma HighCount(t: nat, k: nat)
    requires k < 7 && 1 <= t <= 2
    ensures CounterByte(t, k) == 0
  {
    MorePower(6 - k);
    DivUnique(t, Pow256(7 - k), 0);
    hide Pow256;
    assert t / Pow256(7 - k) % 256 == 0;
  }

  lemma {:induction false} MorePower(k: nat)
    ensures Pow256(k + 1) >= 256
  {
    if k > 0 {
      MorePower(k - 1);
    }
  }

  lemma NothingAdded(a: bv8)
    ensures Add(a, 0) == a
  {
  }

  // ---- the two directions ----

  lemma XorTwice(a: seq<bv8>, t: nat)
    requires |a| == 8
    ensures XorCounter(XorCounter(a, t), t) == a
  {
    hide CounterByte;
    forall k | 0 <= k < 8
      ensures XorCounter(XorCounter(a, t), t)[k] == a[k]
    {
      AddSame(a[k], CounterByte(t, k));
    }
  }

  lemma PutGet(r: seq<bv8>, i: nat, w: seq<bv8>)
    requires 8 * i + 8 <= |r| && |w| == 8
    ensures Get(Put(r, i, w), i) == w && Put(Put(r, i, w), i, Get(r, i)) == r
  {
  }

  lemma StepUndone(rk: RoundKeys, s: Registers, n: nat, t: nat)
    requires s.Valid(n) && n > 0 && t > 0
    ensures UnwrapStep(rk, WrapStep(rk, s, n, t), n, t) == s
    ensures WrapStep(rk, UnwrapStep(rk, s, n, t), n, t) == s
  {
    hide Encrypted, Decrypted, XorCounter, Get, Put, Index;
    var i := Index(n, t);
    assert 8 * i + 8 <= 8 * n;
    var w := Get(s.r, i);
    var e := Encrypted(rk, s.a + w);
    CipherInverse(rk, s.a + w);
    XorTwice(e[..8], t);
    PutGet(s.r, i, e[8..]);
    assert e[..8] + e[8..] == e && (s.a + w)[..8] == s.a && (s.a + w)[8..] == w;
    var x := XorCounter(s.a, t);
    var d := Decrypted(rk, x + w);
    CipherInverse(rk, x + w);
    XorTwice(s.a, t);
    PutGet(s.r, i, d[8..]);
    assert d[..8] + d[8..] == d && (x + w)[..8] == x && (x + w)[8..] == w;
  }

  lemma {:induction false} StepsUndone(rk: RoundKeys, s: Registers, n: nat, t: nat)
    requires s.Valid(n) && (n > 0 || t == 0)
    ensures UnwrapSteps(rk, WrapSteps(rk, s, n, t), n, t) == s
    ensures WrapSteps(rk, UnwrapSteps(rk, s, n, t), n, t) == s
    decreases t
  {
    hide WrapStep, UnwrapStep;
    if t > 0 {
      StepUndone(rk, WrapSteps(rk, s, n, t - 1), n, t);
      StepsUndone(rk, s, n, t - 1);
      StepsUndone(rk, UnwrapStep(rk, s, n, t), n, t - 1);
      StepUndone(rk, s, n, t);
    }
  }

  /** Unwrapping a wrap gives the key data back and passes the integrity check. */
  lemma UnwrapOfWrap(kek: Key, data: seq<bv8>, n: nat)
    requires |data| == 8 * n
    ensures Unwrap3394(kek, Wrap3394(kek, data, n), n) == Registers(INITIAL, data)
  {
    hide WrapSteps, UnwrapSteps, Schedule;
    var s := WrapSteps(Schedule(kek), Registers(INITIAL, data), n, 6 * n);
    StepsUndone(Schedule(kek), Registers(INITIAL, data), n, 6 * n);
    assert (s.a + s.r)[..8] == s.a && (s.a + s.r)[8..] == s.r;
  }

  /** Only wraps pass the check: what is accepted is the wrap of what comes out. */
  lemma AcceptedIsWrap(kek: Key, c: seq<bv8>, n: nat)
    requires |c| == 8 * n + 8
    ensures var s := Unwrap3394(kek, c, n);
            s.a == INITIAL <==> exists data :: |data| == 8 * n && c == Wrap3394(kek, data, n)
    ensures var s := Unwrap3394(kek, c, n);
            s.a == INITIAL ==> c == Wrap3394(kek, s.r, n)
  {
    hide WrapSteps, UnwrapSteps, Schedule;
    var s := Unwrap3394(kek, c, n);
    if s.a == INITIAL {
      StepsUndone(Schedule(kek), Registers(c[..8], c[8..]), n, 6 * n);
      assert s == Registers(INITIAL, s.r) && c == c[..8] + c[8..];
      assert c == Wrap3394(kek, s.r, n);
    }
    forall data | |data| == 8 * n && c == Wrap3394(kek, data, n)
      ensures s.a == INITIAL
    {
      UnwrapOfWrap(kek, data, n);
    }
  }

  // ---- the code ----

  /** wpa.h keeps the counter in 32 bits and leaves the upper four bytes alone; below 2^32 that
      is the 64-bit counter. */
  function ShortCounterByte(t: nat, k: nat): bv8
    requires k < 8
  {
    if k >= 4 then (t / Pow256(7 - k) % 256) as bv8 else 0
  }

  lemma ShortCounter(t: nat, k: nat)
    requires k < 8 && t < 0x1_0000_0000
    ensures ShortCounterByte(t, k) == CounterByte(t, k)
  {
    if k < 4 {
      PowFour();
      PowGrows(4, 7 - k);
      SmallQuotient(t, Pow256(7 - k));
      hide Pow256;
      assert (t / Pow256(7 - k) % 256) == 0;
    }
  }

  lemma PowFour()
    ensures Pow256(4) == 0x1_0000_0000
  {
    assert Pow256(1) == 256 && Pow256(2) == 256 * Pow256(1);
    assert Pow256(3) == 256 * Pow256(2) && Pow256(4) == 256 * Pow256(3);
  }

  lemma SmallQuotient(t: nat, p: nat)
    requires t < p
    ensures t / p == 0
  {
  }

  lemma {:induction false} PowGrows(a: nat, b: nat)
    requires a <= b
    ensures Pow256(a) <= Pow256(b)
    decreases b
  {
    if a < b {
      PowGrows(a, b - 1);
    }
  }

  /** Nothing changed from position `from` on. */
  ghost predicate Kept(s: seq<bv8>, s0: seq<bv8>, from: nat) {
    |s| == |s0| && forall m :: from <= m < |s| ==> s[m] == s0[m]
  }

  /** The remaining steps lead to `goal`. */
  ghost predicate UnwrapsTo(rk: RoundKeys, s: Registers, n: nat, t: int, goal: Registers)
    requires s.Valid(n)
  {
    t >= 0 && (n > 0 || t == 0) && UnwrapSteps(rk, s, n, t) == goal
  }

  lemma LastStep(rk: RoundKeys, s: Registers, n: nat)
    requires s.Valid(n)
    ensures UnwrapSteps(rk, s, n, 0) == s
  {
  }

  lemma CounterRange(n: nat, j: nat)
    requires j <= 5 && 8 * n < 0x1_0000_0000
    ensures n * (j + 1) == n * j + n && 0 <= n * j && n * j + n < 0x1_0000_0000
  {
    MulLe(j, 5, n);
    MulLe(0, j, n);
    assert n * j == j * n;
  }

  class Unwrapper {
    const table: InverseTable
    const rk: array<bv8>
    const a: array<bv8>
    const b: array<bv8>

    ghost predicate Valid()
      reads this, table
    {
      && table.Valid() && rk.Length == 176 && a.Length == 8 && b.Length == 16
      && rk != a && rk != b && a != b
    }

    constructor (t: InverseTable)
      requires t.Valid()
      ensures Valid() && table == t && fresh(rk) && fresh(a) && fresh(b)
    {
      table := t;
      rk, a, b := new bv8[176], new bv8[8], new bv8[16];
    }

    /** One turn of the inner loop of aes_unwrap, for t = n * j + i. */
    method Step(n: nat, t: nat, i: nat, out: array<bv8>)
      requires Valid() && 0 < t < 0x1_0000_0000 && n > 0 && i == Index(n, t)
      requires out.Length >= 8 * n && out != a && out != b && out != rk
      modifies table, a, b, out
      ensures Valid()
      ensures Registers(a[..], out[..8 * n]) ==
              UnwrapStep(rk[..], Registers(old(a[..]), old(out[..8 * n])), n, t)
      ensures Kept(out[..], old(out[..]), 8 * n)
    {
      hide Get, Put, Decrypted, XorCounter, Index;
      ghost var a0, r0 := a[..], out[..8 * n];
      assert 8 * i + 8 <= 8 * n;
      LoadBlock(t, i, out);
      assert out[8 * i..8 * i + 8] == r0[8 * i..8 * i + 8] == Get(r0, i) by {
        GetIs(r0, i);
      }
      assert b[..] == b[..8] + b[8..];
      table.Decrypt(rk[..], b);
      CopyBack(i, out);
      PutIs(r0, i, b[8..], out[..8 * n]);
    }

    /** aes_unwrap: 0 and the key data, or -1, as section 2.2.2 of RFC 3394 says. The buffers of
        a 32-bit machine bound n. */
    method Unwrap(kek: Key, inp: seq<bv8>, n: nat, out: array<bv8>) returns (r: int)
      requires Valid() && |inp| == 8 * n + 8 && 8 * n < 0x1_0000_0000
      requires out.Length >= 8 * n && out != a && out != b && out != rk
      modifies table, rk, a, b, out
      ensures Valid()
      ensures var s := Unwrap3394(kek, inp, n);
              out[..8 * n] == s.r && r == if s.a == INITIAL then 0 else -1
      ensures Kept(out[..], old(out[..]), 8 * n)
    {
      hide Schedule, UnwrapSteps;
      ExpandKey(kek, rk);
      Load(inp, n, out);
      assert n * 6 == 6 * n;
      var j := 6;
      while j > 0
        invariant 0 <= j <= 6 && Valid() && rk[..] == Schedule(kek) && Kept(out[..], old(out[..]), 8 * n)
        invariant UnwrapsTo(rk[..], Regs(out, n), n, n * j, Unwrap3394(kek, inp, n))
      {
        j := j - 1;
        Pass(n, j, out, Unwrap3394(kek, inp, n));
      }
      assert n * 0 == 0;
      LastStep(rk[..], Regs(out, n), n);
      return if a[..] == INITIAL then 0 else -1;
    }

    /** The registers as they stand in the two buffers. */
    ghost function Regs(out: array<bv8>, n: nat): (s: Registers)
      requires a.Length == 8 && out.Length >= 8 * n
      reads a, out
      ensures s.Valid(n)
    {
      Registers(a[..], out[..8 * n])
    }

    /** The inner loop of aes_unwrap. */
    method Pass(n: nat, j: nat, out: array<bv8>, ghost goal: Registers)
      requires Valid() && j <= 5 && 8 * n < 0x1_0000_0000
      requires out.Length >= 8 * n && out != a && out != b && out != rk
      requires UnwrapsTo(rk[..], Regs(out, n), n, n * (j + 1), goal)
      modifies table, a, b, out
      ensures Valid() && Kept(out[..], old(out[..]), 8 * n)
      ensures UnwrapsTo(rk[..], Regs(out, n), n, n * j, goal)
    {
      hide UnwrapStep, WrapStep;
      CounterRange(n, j);
      var i := n;
      while i > 0
        invariant 0 <= i <= n && Valid() && Kept(out[..], old(out[..]), 8 * n)
        invariant UnwrapsTo(rk[..], Regs(out, n), n, n * j + i, goal)
      {
        StepIndex(n, j, i);
        Step(n, n * j + i, i - 1, out);
        i := i - 1;
      }
    }

    method Load(inp: seq<bv8>, n: nat, out: array<bv8>)
      requires a.Length == 8 && out != a && |inp| == 8 * n + 8 && out.Length >= 8 * n
      modifies a, out
      ensures a[..] == inp[..8] && out[..8 * n] == inp[8..] && Kept(out[..], old(out[..]), 8 * n)
    {
      for k := 0 to 8
        invariant a[..k] == inp[..k] && out[..] == old(out[..])
      {
        a[k] := inp[k];
      }
      for i := 0 to 8 * n
        invariant a[..] == inp[..8] && out[..i] == inp[8..8 + i] && Kept(out[..], old(out[..]), 8 * n)
      {
        out[i] := inp[8 + i];
      }
    }

    method LoadBlock(t: nat, i: nat, out: array<bv8>)
      requires t < 0x1_0000_0000 && a.Length == 8 && b.Length == 16 && a != b && out != b && 8 * i + 8 <= out.Length
      modifies b
      ensures b[..8] == XorCounter(a[..], t) && b[8..] == out[8 * i..8 * i + 8]
    {
      hide CounterByte, ShortCounterByte;
      ghost var x := XorCounter(a[..], t);
      for k := 0 to 8
        invariant b[..k] == x[..k] && b[8..8 + k] == out[8 * i..8 * i + k]
      {
        ShortCounter(t, k);
        b[k] := Add(a[k], ShortCounterByte(t, k));
        b[8 + k] := out[8 * i + k];
      }
    }

    method CopyBack(i: nat, out: array<bv8>)
      requires a.Length == 8 && b.Length == 16 && a != b && out != a && out != b && 8 * i + 8 <= out.Length
      modifies a, out
      ensures a[..] == b[..8]
      ensures out[..] == old(out[..8 * i]) + b[8..] + old(out[8 * i + 8..])
    {
      for k := 0 to 8
        invariant a[..k] == b[..k]
        invariant out[..] == old(out[..8 * i]) + b[8..8 + k] + old(out[8 * i + k..])
      {
        a[k] := b[k];
        out[8 * i + k] := b[8 + k];
      }
    }
  }

  /** The counter of RFC 3394 names the semiblock. */
  lemma StepIndex(n: nat, j: nat, i: nat)
    requires 0 < i <= n
    ensures 0 <= n * j && Index(n, n * j + i) == i - 1
  {
    assert n * j == j * n;
    MulLe(0, j, n);
    DivUnique(n * j + i - 1, n, j);
  }

  lemma GetIs(r: seq<bv8>, i: nat)
    requires 8 * i + 8 <= |r|
    ensures Get(r, i) == r[8 * i..8 * i + 8]
  {
  }

  lemma PutIs(r: seq<bv8>, i: nat, w: seq<bv8>, r': seq<bv8>)
    requires 8 * i + 8 <= |r| == |r'| && |w| == 8
    requires r' == r[..8 * i] + w + r[8 * i + 8..]
    ensures r' == Put(r, i, w)
  {
  }
}
