/** Machine integers of the MIPS box: bytes and 32-bit words are ranges of `int`,
    and every wrap-around is written out with `Wrap`. */
module Machine {
  const M32: int := 0x1_0000_0000

  type Byte = b: int | 0 <= b < 256
  type u32 = x: int | 0 <= x < M32
  type Octets = seq<Byte>

  datatype Option<T> = None | Some(value: T)

  /** What a 32-bit unsigned register keeps of an integer. */
  function Wrap(x: int): (r: u32) {
    x % M32
  }

  /** What a 32-bit signed register keeps of an integer. */
  function Signed32(x: int): int {
    var u := Wrap(x);
    if u < 0x8000_0000 then u else u - M32
  }

  function Pow2(n: nat): (r: nat)
    ensures r > 0
  {
    if n == 0 then 1 else 2 * Pow2(n - 1)
  }

  function Pow256(n: nat): (r: nat)
    ensures r > 0
  {
    if n == 0 then 1 else 256 * Pow256(n - 1)
  }

  /** A 32-bit word, most significant byte first. */
  function Be32(v: u32): (r: Octets)
    ensures |r| == 4
  {
    [v / 0x100_0000, v / 0x1_0000 % 0x100, v / 0x100 % 0x100, v % 0x100]
  }

  function Total(pieces: seq<nat>): nat {
    if pieces == [] then 0 else Total(pieces[..|pieces| - 1]) + pieces[|pieces| - 1]
  }

  function Min(a: int, b: int): int {
    if a < b then a else b
  }
}

/** Facts about products, quotients and sizes that the solver does not find unaided. */
module Arith {
  lemma MulLe(a: int, b: int, c: nat)
    requires a <= b
    ensures a * c <= b * c
  {
  }

  lemma MulSucc(a: int, c: nat)
    ensures (a + 1) * c == a * c + c
  {
  }

  lemma DivBounds(p: nat, d: nat)
    requires d > 0
    ensures p / d * d <= p < p / d * d + d
    ensures p % d == p - p / d * d
    ensures p / d >= 0
  {
  }

  lemma DivUnique(p: nat, d: nat, q: nat)
    requires d > 0 && q * d <= p < q * d + d
    ensures p / d == q && p % d == p - q * d
  {
    DivBounds(p, d);
    if p / d < q {
      MulLe(p / d + 1, q, d);
    } else if p / d > q {
      MulLe(q + 1, p / d, d);
    }
  }

  /** Multiples of the divisor come out of a quotient. */
  lemma AddMultiple(p: nat, k: nat, d: nat)
    requires d > 0
    ensures (k * d + p) / d == k + p / d && (k * d + p) % d == p % d
  {
    DivBounds(p, d);
    assert (k + p / d) * d == k * d + p / d * d;
    DivUnique(k * d + p, d, k + p / d);
  }

  lemma {:induction false} SubsetSize<T>(a: set<T>, b: set<T>)
    requires a <= b
    ensures |a| <= |b|
  {
    if a != {} {
      var x :| x in a;
      SubsetSize(a - {x}, b - {x});
    }
  }
}

/** Numbers bit by bit, low bit first. */
module Bits {
  import opened Machine

  function Bit(x: nat, b: nat): nat {
    if b == 0 then x % 2 else Bit(x / 2, b - 1)
  }

  lemma {:induction false} SameBits(x: nat, y: nat, n: nat)
    requires x < Pow2(n) && y < Pow2(n)
    requires forall b :: 0 <= b < n ==> Bit(x, b) == Bit(y, b)
    ensures x == y
  {
    if n > 0 {
      assert Bit(x, 0) == Bit(y, 0);
      forall b | 0 <= b < n - 1 ensures Bit(x / 2, b) == Bit(y / 2, b) {
        assert Bit(x, b + 1) == Bit(y, b + 1);
      }
      SameBits(x / 2, y / 2, n - 1);
    }
  }

  lemma {:induction false} BitIsBit(x: nat, b: nat)
    ensures Bit(x, b) == 0 || Bit(x, b) == 1
  {
    if b > 0 {
      BitIsBit(x / 2, b - 1);
    }
  }
}
