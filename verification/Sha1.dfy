/** wpa.h: SHA-1 as FIPS 180-4 defines it, and as the code computes it piece by piece. */
module Sha1Spec {
  import opened Machine

  datatype State = State(a: u32, b: u32, c: u32, d: u32, e: u32)

  const IV := State(0x67452301, 0xefcdab89, 0x98badcfe, 0x10325476, 0xc3d2e1f0)

  // ---- words, bit by bit ----

  function Xor(x: nat, y: nat, n: nat): (r: nat)
    ensures r < Pow2(n)
  {
    if n == 0 then 0 else (if x % 2 != y % 2 then 1 else 0) + 2 * Xor(x / 2, y / 2, n - 1)
  }

  function And(x: nat, y: nat, n: nat): nat {
    if n == 0 then 0 else (if x % 2 == 1 && y % 2 == 1 then 1 else 0) + 2 * And(x / 2, y / 2, n - 1)
  }

  function Or(x: nat, y: nat, n: nat): nat {
    if n == 0 then 0 else (if x % 2 == 1 || y % 2 == 1 then 1 else 0) + 2 * Or(x / 2, y / 2, n - 1)
  }

  /** Addition of 32-bit words. */
  function Add(x: nat, y: nat): u32 {
    Wrap(x + y)
  }

  function Rol(x: nat, n: nat): u32
    requires n <= 32
  {
    Wrap(Wrap(x * Pow2(n)) + x / Pow2(32 - n))
  }

  function WordAt(p: Octets, i: nat): nat
    requires 4 * i + 4 <= |p|
  {
    p[4 * i] as nat * 0x100_0000 + p[4 * i + 1] as nat * 0x1_0000 + p[4 * i + 2] as nat * 0x100 + p[4 * i + 3]
  }

  /** The message schedule. */
  function W(p: Octets, i: nat): nat
    requires |p| == 64
  {
    if i < 16 then WordAt(p, i)
    else Rol(Xor(Xor(Xor(W(p, i - 3), W(p, i - 8), 32), W(p, i - 14), 32), W(p, i - 16), 32), 1)
  }

  /** The functions and the constants of sections 4.1.1 and 4.2.1. */
  function Logic(i: nat, b: u32, c: u32, d: u32): nat {
    if i < 20 then Or(And(b, c, 32), And(M32 - 1 - b, d, 32), 32)
    else if 40 <= i < 60 then Or(Or(And(b, c, 32), And(b, d, 32), 32), And(c, d, 32), 32)
    else Xor(Xor(b, c, 32), d, 32)
  }

  function K(i: nat): u32 {
    if i < 20 then 0x5a827999 else if i < 40 then 0x6ed9eba1 else if i < 60 then 0x8f1bbcdc else 0xca62c1d6
  }

  function F(i: nat, b: u32, c: u32, d: u32): u32 {
    Add(Logic(i, b, c, d), K(i))
  }

  function Turn(s: State, i: nat, w: nat): State {
    State(Add(F(i, s.b, s.c, s.d), Add(Add(Rol(s.a, 5), s.e), w)), s.a, Rol(s.b, 30), s.c, s.d)
  }

  function Turns(h: State, p: Octets, n: nat): State
    requires |p| == 64
  {
    if n == 0 then h else Turn(Turns(h, p, n - 1), n - 1, W(p, n - 1))
  }

  function Plus(x: State, y: State): State {
    State(Add(x.a, y.a), Add(x.b, y.b), Add(x.c, y.c), Add(x.d, y.d), Add(x.e, y.e))
  }

  function Compress(h: State, p: Octets): State
    requires |p| == 64
  {
    Plus(h, Turns(h, p, 80))
  }

  /** The state after the first k blocks of a message. */
  function Chain(m: Octets, k: nat): State
    requires 64 * k <= |m|
  {
    if k == 0 then IV else Compress(Chain(m, k - 1), m[64 * k - 64..64 * k])
  }

  lemma {:induction false} ChainPrefix(m: Octets, n: Octets, k: nat)
    requires 64 * k <= |m|
    ensures Chain(m + n, k) == Chain(m, k)
  {
    if k > 0 {
      ChainPrefix(m, n, k - 1);
      assert (m + n)[64 * k - 64..64 * k] == m[64 * k - 64..64 * k];
    }
  }

  function Zeros(n: nat): (r: Octets)
    ensures |r| == n && forall i :: 0 <= i < n ==> r[i] == 0
  {
    if n == 0 then [] else Zeros(n - 1) + [0]
  }

  /** The n bytes of x, high byte first. */
  function BigEndian(x: nat, n: nat): (r: Octets)
    ensures |r| == n
  {
    if n == 0 then [] else BigEndian(x / 256, n - 1) + [x % 256]
  }

  /** How many zeros bring a message and the byte after it to 56 bytes of a block. */
  function Fill(len: nat): (z: nat)
    ensures z < 64 && (len + 1 + z) % 64 == 56
  {
    (119 - len % 64) % 64
  }

  /** Padding of section 5.1.1 of FIPS 180-4. */
  function Padded(m: Octets): Octets {
    m + [0x80] + Zeros(Fill(|m|)) + BigEndian(8 * |m|, 8)
  }

  /** Padding as the code does it: the bit count is a 32-bit number. */
  function PaddedBy32(m: Octets): Octets {
    m + [0x80] + Zeros(Fill(|m|)) + BigEndian(Wrap(8 * |m|), 8)
  }

  function Bytes(s: State): (r: Octets)
    ensures |r| == 20
  {
    Be32(s.a) + Be32(s.b) + Be32(s.c) + Be32(s.d) + Be32(s.e)
  }

  function Sha1(m: Octets): (r: Octets)
    ensures |r| == 20
  {
    var p := Padded(m);
    Bytes(Chain(p, |p| / 64))
  }

  function Sha1By32(m: Octets): (r: Octets)
    ensures |r| == 20
  {
    var p := PaddedBy32(m);
    Bytes(Chain(p, |p| / 64))
  }

  /** n bytes tell the numbers below 256 to the n apart. */
  lemma {:induction false} BigEndianTells(x: nat, y: nat, n: nat)
    requires x < Pow256(n) && y < Pow256(n) && BigEndian(x, n) == BigEndian(y, n)
    ensures x == y
  {
    if n > 0 {
      var s, t := BigEndian(x, n), BigEndian(y, n);
      assert s[..n - 1] == BigEndian(x / 256, n - 1) && t[..n - 1] == BigEndian(y / 256, n - 1);
      assert s[n - 1] == x % 256 && t[n - 1] == y % 256;
      BigEndianTells(x / 256, y / 256, n - 1);
    }
  }

  lemma Small(x: nat)
    ensures Wrap(x) == x <==> x < M32
    ensures Wrap(x) < M32
  {
  }

  /** The 32-bit count pads as the standard does exactly for messages below 512 MB. */
  lemma PaddingExact(m: Octets)
    requires |m| < 0x2000_0000_0000_0000
    ensures PaddedBy32(m) == Padded(m) <==> |m| < 0x2000_0000
  {
    hide Fill, Zeros, BigEndian, Wrap;
    var front := m + [0x80] + Zeros(Fill(|m|));
    assert Padded(m)[|front|..] == BigEndian(8 * |m|, 8);
    assert PaddedBy32(m)[|front|..] == BigEndian(Wrap(8 * |m|), 8);
    assert Pow256(4) == 0x1_0000_0000;
    assert Pow256(8) == 0x1_0000_0000_0000_0000;
    Small(8 * |m|);
    if PaddedBy32(m) == Padded(m) {
      BigEndianTells(8 * |m|, Wrap(8 * |m|), 8);
    }
  }
}

/** The streaming code. */
module Sha1Stream {
  import opened Arith
  import opened Machine
  import opened Sha1Spec

  /** sha1_block */
  method Sha1Block(h: array<u32>, p: Octets)
    requires h.Length == 5 && |p| == 64
    modifies h
    ensures Words(h[..]) == Compress(old(Words(h[..])), p)
  {
    hide Turns, Add;
    var w := Schedule(p);
    var s := Mix(Words(h[..]), w, p);
    h[0], h[1], h[2], h[3], h[4] := Add(h[0], s.a), Add(h[1], s.b), Add(h[2], s.c), Add(h[3], s.d), Add(h[4], s.e);
  }

  /** The 80 rounds. */
  method Mix(start: State, w: seq<nat>, ghost p: Octets) returns (s: State)
    requires |p| == 64 && |w| == 80 && forall i :: 0 <= i < 80 ==> w[i] == W(p, i)
    ensures s == Turns(start, p, 80)
  {
    hide F, Rol, W, Add;
    var a, b, c, d, e := start.a, start.b, start.c, start.d, start.e;
    var i := 0;
    while i < 80
      invariant 0 <= i <= 80
      invariant State(a, b, c, d, e) == Turns(start, p, i)
    {
      var t := F(i, b, c, d);
      t := Add(t, Add(Add(Rol(a, 5), e), w[i]));
      e, d, c, b, a := d, c, Rol(b, 30), a, t;
      i := i + 1;
    }
    s := State(a, b, c, d, e);
  }

  method Schedule(p: Octets) returns (w: seq<nat>)
    requires |p| == 64
    ensures |w| == 80 && forall i :: 0 <= i < 80 ==> w[i] == W(p, i)
  {
    hide WordAt, Rol, Xor, W;
    w := [];
    var i := 0;
    while i < 80
      invariant |w| == i <= 80 && forall j :: 0 <= j < i ==> w[j] == W(p, j)
    {
      WStep(p, i);
      w := w + [if i < 16 then WordAt(p, i)
                else Rol(Xor(Xor(Xor(w[i - 3], w[i - 8], 32), w[i - 14], 32), w[i - 16], 32), 1)];
      i := i + 1;
    }
  }

  lemma WStep(p: Octets, i: nat)
    requires |p| == 64
    ensures W(p, i) ==
            if i < 16 then WordAt(p, i)
            else Rol(Xor(Xor(Xor(W(p, i - 3), W(p, i - 8), 32), W(p, i - 14), 32), W(p, i - 16), 32), 1)
  {
    hide WordAt, Rol, Xor;
  }

  function Words(h: seq<u32>): State
    requires |h| == 5
  {
    State(h[0], h[1], h[2], h[3], h[4])
  }

  class Sha1State {
    const h: array<u32>
    const buf: array<Byte>
    var len: u32
    /** The message so far, and its whole blocks. */
    ghost var msg: Octets
    ghost var blocks: nat

    ghost predicate Valid()
      reads this, h, buf
    {
      Held() && |msg| < 64 * blocks + 64
    }

    /** The hash state is that of the blocks, and the rest, at most a block, is in the buffer. */
    ghost predicate Held()
      reads this, h, buf
    {
      && h.Length == 5 && buf.Length == 64
      && len == Wrap(|msg|) && 64 * blocks <= |msg| <= 64 * blocks + 64
      && Words(h[..]) == Chain(msg, blocks)
      && buf[..|msg| - 64 * blocks] == msg[64 * blocks..]
    }

    /** sha1_init */
    constructor ()
      ensures Valid() && msg == [] && fresh(h) && fresh(buf)
    {
      h := new u32[5](_ => 0);
      buf := new Byte[64](_ => 0);
      len, msg, blocks := 0, [], 0;
      new;
      h[0], h[1], h[2], h[3], h[4] := 0x67452301, 0xefcdab89, 0x98badcfe, 0x10325476, 0xc3d2e1f0;
    }

    /** A structure copied by assignment. */
    constructor Copy(s: Sha1State)
      requires s.Valid()
      ensures Valid() && msg == s.msg && fresh(h) && fresh(buf)
    {
      var g, b := new u32[5](i requires 0 <= i < 5 reads s.h => s.h[i]),
                  new Byte[64](i requires 0 <= i < 64 reads s.buf => s.buf[i]);
      h, buf, len, msg, blocks := g, b, s.len, s.msg, s.blocks;
      new;
      assert h[..] == s.h[..] && buf[..] == s.buf[..];
    }

    /** The body of the loop of sha1_update. */
    method Feed(b: Byte)
      requires Valid()
      modifies this`len, this`msg, this`blocks, h, buf
      ensures Valid() && msg == old(msg) + [b]
    {
      hide Chain;
      Low6(|msg|, blocks);
      Store(b);
      if |msg| < 64 * blocks + 64 {
        Low6(|msg|, blocks);
      } else {
        Low6(|msg|, blocks + 1);
      }
      if len % 64 == 0 {
        EndBlock();
      }
    }

    method Store(b: Byte)
      requires Valid() && len % 64 == |msg| - 64 * blocks
      modifies this`len, this`msg, buf
      ensures Held() && msg == old(msg) + [b]
    {
      hide Chain;
      buf[len % 64] := b;
      Wrapped(|msg|);
      len := Wrap(len + 1);
      ChainPrefix(msg, [b], blocks);
      msg := msg + [b];
    }

    method EndBlock()
      requires Held() && |msg| == 64 * blocks + 64
      modifies this`blocks, h
      ensures Valid() && msg == old(msg)
    {
      hide Compress;
      ghost var block := buf[..];
      assert block == msg[64 * blocks..64 * blocks + 64];
      assert Chain(msg, blocks + 1) == Compress(Chain(msg, blocks), block);
      Sha1Block(h, buf[..]);
      blocks := blocks + 1;
    }

    /** sha1_update */
    method Update(p: Octets)
      requires Valid()
      modifies this`len, this`msg, this`blocks, h, buf
      ensures Valid() && msg == old(msg) + p
    {
      hide Chain, Held;
      var i := 0;
      while i < |p|
        invariant 0 <= i <= |p| && Valid() && msg == old(msg) + p[..i]
      {
        Feed(p[i]);
        i := i + 1;
      }
    }

    /** sha1_final: the hash of all bytes given, in whatever pieces; that of the standard below 512 MB. */
    method Final() returns (out: Octets)
      requires Valid()
      modifies this`len, this`msg, this`blocks, h, buf
      ensures out == Sha1By32(old(msg))
      ensures |old(msg)| < 0x2000_0000 ==> out == Sha1(old(msg))
    {
      hide Compress, Padded, BigEndian, Fill, Zeros;
      ghost var m := msg;
      var bits := Wrap(len * 8);
      Update([0x80]);
      NoZeros();
      ghost var z := 0;
      Low6(|msg|, blocks);
      while len % 64 != 56
        invariant Valid() && 0 <= z <= Fill(|m|) && msg == m + [0x80] + Zeros(z)
        invariant len % 64 == |msg| - 64 * blocks
        decreases Fill(|m|) - z
      {
        FillFirst(|m|, z, |msg|, blocks);
        Update([0]);
        MoreZeros(z);
        assert msg == m + [0x80] + (Zeros(z) + [0]);
        z := z + 1;
        Low6(|msg|, blocks);
      }
      FillFirst(|m|, z, |msg|, blocks);
      CountBytes(|m|);
      var lenb := [0, 0, 0, 0] + BigEndian(bits, 4);
      Update(lenb);
      LastBlock(m, msg, blocks);
      out := Bytes(Words(h[..]));
      if |m| < 0x2000_0000 {
        PaddingExact(m);
      }
    }
  }

  lemma NoZeros()
    ensures Zeros(0) == []
  {
  }

  lemma MoreZeros(z: nat)
    ensures Zeros(z + 1) == Zeros(z) + [0]
  {
  }

  /** The loop of sha1_final stops where the padding says. */
  lemma FillFirst(n: nat, z: nat, len: nat, blocks: nat)
    requires z <= Fill(n) && len == n + 1 + z && 64 * blocks <= len < 64 * blocks + 64
    ensures len - 64 * blocks == 56 <==> z == Fill(n)
  {
    var more := Fill(n) - z;
    var r := len - 64 * blocks;
    assert (len + more) % 64 == 56;
    assert len + more == 64 * blocks + (r + more);
    AddMultiple(r + more, blocks, 64);
  }

  /** The eight bytes of the bit count. */
  lemma CountBytes(n: nat)
    ensures BigEndian(Wrap(8 * n), 8) == [0, 0, 0, 0] + BigEndian(Wrap(Wrap(n) * 8), 4)
  {
    Times8(n);
    assert Pow256(4) == M32;
    ShortNumber(Wrap(8 * n), 4);
  }

  lemma Times8(n: nat)
    ensures Wrap(Wrap(n) * 8) == Wrap(8 * n)
  {
    DivBounds(n, M32);
    AddMultiple(Wrap(n) * 8, n / M32 * 8, M32);
  }

  lemma {:induction false} ShortNumber(x: nat, n: nat)
    requires x < Pow256(n)
    ensures BigEndian(x, n + 4) == [0, 0, 0, 0] + BigEndian(x, n)
  {
    if n == 0 {
      assert BigEndian(0, 2) == [0, 0];
    } else {
      ShortNumber(x / 256, n - 1);
    }
  }

  /** The padded message is whole blocks. */
  lemma LastBlock(m: Octets, msg: Octets, blocks: nat)
    requires msg == PaddedBy32(m) && 64 * blocks <= |msg| < 64 * blocks + 64
    ensures |msg| / 64 == blocks
  {
  }

  lemma Low6(n: nat, k: nat)
    requires 64 * k <= n < 64 * k + 64
    ensures Wrap(n) % 64 == n - 64 * k
  {
  }

  lemma Wrapped(n: nat)
    ensures Wrap(Wrap(n) + 1) == Wrap(n + 1)
  {
  }
}
