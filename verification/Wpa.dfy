/** HMAC (RFC 2104), PBKDF2 (RFC 8018) and the 802.11 PRF as their standards define them. With `std` the
    hash is that of FIPS 180-4; without it, the hash with a 32-bit bit count that wpa.h computes. */
module WpaSpec {
  import opened Machine
  import opened Sha1Spec

  function Hash(std: bool, m: Octets): (r: Octets)
    ensures |r| == 20
  {
    if std then Sha1(m) else Sha1By32(m)
  }

  /** The key block: a long key is hashed, a short one filled up with zeros. */
  function KeyBlock(std: bool, key: Octets): (r: Octets)
    ensures |r| == 64
  {
    var k := if |key| > 64 then Hash(std, key) else key;
    k + Zeros(64 - |k|)
  }

  function XorByte(a: Byte, b: Byte): Byte {
    assert Pow2(4) == 16 && Pow2(8) == 256;
    Xor(a, b, 8)
  }

  function XorAll(k: Octets, c: Byte): (r: Octets)
    ensures |r| == |k| && forall i :: 0 <= i < |k| ==> r[i] == XorByte(k[i], c)
  {
    if k == [] then [] else [XorByte(k[0], c)] + XorAll(k[1..], c)
  }

  function XorSeq(a: Octets, b: Octets): (r: Octets)
    requires |a| == |b|
    ensures |r| == |a| && forall i :: 0 <= i < |a| ==> r[i] == XorByte(a[i], b[i])
  {
    if a == [] then [] else [XorByte(a[0], b[0])] + XorSeq(a[1..], b[1..])
  }

  const IPAD: Byte := 0x36
  const OPAD: Byte := 0x5c

  function Hmac(std: bool, key: Octets, m: Octets): (r: Octets)
    ensures |r| == 20
  {
    var k := KeyBlock(std, key);
    Hash(std, XorAll(k, OPAD) + Hash(std, XorAll(k, IPAD) + m))
  }

  /** U_j of PBKDF2, for block i. */
  function U(std: bool, key: Octets, salt: Octets, i: nat, j: nat): (r: Octets)
    requires j >= 1
    ensures |r| == 20
    decreases j
  {
    Hmac(std, key, if j == 1 then salt + BigEndian(i, 4) else U(std, key, salt, i, j - 1))
  }

  /** U_1 ^ ... ^ U_c. */
  function T(std: bool, key: Octets, salt: Octets, i: nat, c: nat): (r: Octets)
    requires c >= 1
    ensures |r| == 20
    decreases c
  {
    if c == 1 then U(std, key, salt, i, 1) else XorSeq(T(std, key, salt, i, c - 1), U(std, key, salt, i, c))
  }

  /** T_1 || ... || T_n. */
  function Ts(std: bool, key: Octets, salt: Octets, c: nat, n: nat): (r: Octets)
    requires c >= 1
    ensures |r| == 20 * n
  {
    if n == 0 then [] else Ts(std, key, salt, c, n - 1) + T(std, key, salt, n, c)
  }

  function Pbkdf2(std: bool, key: Octets, salt: Octets, c: nat, len: nat): (r: Octets)
    requires c >= 1
    ensures |r| == len
  {
    Ts(std, key, salt, c, (len + 19) / 20)[..len]
  }

  /** What an unsigned char keeps, as the counter of the PRF. */
  function Low8(n: nat): Byte {
    n % 256
  }

  /** The MACs of name || 0 || data || i for i = 0, 1, ... n - 1; i is one byte. */
  function PrfMacs(std: bool, key: Octets, name: Octets, data: Octets, n: nat): (r: Octets)
    ensures |r| == 20 * n
  {
    if n == 0 then []
    else PrfMacs(std, key, name, data, n - 1) + Hmac(std, key, name + [0] + data + [Low8(n - 1)])
  }

  function Prf(std: bool, key: Octets, name: Octets, data: Octets, len: nat): (r: Octets)
    ensures |r| == len
  {
    PrfMacs(std, key, name, data, (len + 19) / 20)[..len]
  }

  // ---- the definitions at work ----

  /** A key of up to 64 bytes stands at the front of its block as it is, a longer one as its hash; zeros fill
      the rest (RFC 2104, section 2). */
  lemma KeyBlockIs(std: bool, key: Octets)
    ensures var front := if |key| > 64 then Hash(std, key) else key;
            && |front| <= 64 && KeyBlock(std, key)[..|front|] == front
            && forall i :: |front| <= i < 64 ==> KeyBlock(std, key)[i] == 0
  {
  }

  function Times64(b: Byte): (r: Octets)
    ensures |r| == 64 && forall i :: 0 <= i < 64 ==> r[i] == b
  {
    seq(64, _ => b)
  }

  lemma {:induction false} XorWithZero(x: nat, n: nat)
    requires x < Pow2(n)
    ensures Xor(0, x, n) == x
  {
    if n > 0 {
      XorWithZero(x / 2, n - 1);
    }
  }

  /** With the empty key the two hashes run over 64 bytes 0x36 and 64 bytes 0x5c. */
  lemma EmptyKey(std: bool, m: Octets)
    ensures Hmac(std, [], m) == Hash(std, Times64(0x5c) + Hash(std, Times64(0x36) + m))
  {
    assert Pow2(4) == 16 && Pow2(8) == 256;
    XorWithZero(0x36, 8);
    XorWithZero(0x5c, 8);
    hide Hash, Xor;
    var k := KeyBlock(std, []);
    assert XorAll(k, 0x36) == Times64(0x36) && XorAll(k, 0x5c) == Times64(0x5c);
  }

  /** PBKDF2 counts blocks from 1, high byte first (RFC 8018, section 5.2). */
  lemma FirstBlocks(std: bool, key: Octets, salt: Octets)
    ensures Pbkdf2(std, key, salt, 1, 40) == Hmac(std, key, salt + [0, 0, 0, 1]) + Hmac(std, key, salt + [0, 0, 0, 2])
  {
    hide Hmac, XorSeq;
    CountBytes();
    assert U(std, key, salt, 1, 1) == Hmac(std, key, salt + [0, 0, 0, 1]);
    assert U(std, key, salt, 2, 1) == Hmac(std, key, salt + [0, 0, 0, 2]);
    assert Ts(std, key, salt, 1, 1) == [] + T(std, key, salt, 1, 1);
  }

  /** And adds up its iterations, each the MAC of the one before. */
  lemma FirstIterations(std: bool, key: Octets, salt: Octets)
    ensures var u := Hmac(std, key, salt + [0, 0, 0, 1]);
            var w := Hmac(std, key, u);
            Pbkdf2(std, key, salt, 3, 20) == XorSeq(XorSeq(u, w), Hmac(std, key, w))
  {
    hide Hmac, XorSeq;
    CountBytes();
    var u := Hmac(std, key, salt + [0, 0, 0, 1]);
    assert U(std, key, salt, 1, 1) == u && U(std, key, salt, 1, 2) == Hmac(std, key, u);
    assert T(std, key, salt, 1, 2) == XorSeq(u, Hmac(std, key, u));
    assert Ts(std, key, salt, 3, 1) == [] + T(std, key, salt, 1, 3);
  }

  lemma CountBytes()
    ensures BigEndian(1, 4) == [0, 0, 0, 1] && BigEndian(2, 4) == [0, 0, 0, 2]
  {
    assert BigEndian(0, 3) == [0, 0, 0];
  }

  /** The MACs of the PRF count from 0 in one byte (IEEE 802.11, section 12.7.1.2). */
  lemma FirstMacs(std: bool, key: Octets, name: Octets, data: Octets)
    ensures Prf(std, key, name, data, 40) ==
            Hmac(std, key, name + [0] + data + [0]) + Hmac(std, key, name + [0] + data + [1])
  {
    hide Hmac;
    assert PrfMacs(std, key, name, data, 1) == [] + Hmac(std, key, name + [0] + data + [0]);
  }

  // ---- below 512 MB both hashes are the same ----

  lemma HashStandard(m: Octets)
    requires |m| < 0x2000_0000
    ensures Hash(false, m) == Hash(true, m)
  {
    PaddingExact(m);
  }

  lemma HmacStandard(key: Octets, m: Octets)
    requires |key| < 0x2000_0000 && |m| + 64 < 0x2000_0000
    ensures Hmac(false, key, m) == Hmac(true, key, m)
  {
    hide Hash, XorAll;
    HashStandard(key);
    var k := KeyBlock(true, key);
    assert KeyBlock(false, key) == k;
    HashStandard(XorAll(k, IPAD) + m);
    HashStandard(XorAll(k, OPAD) + Hash(true, XorAll(k, IPAD) + m));
  }

  lemma {:induction false} TStandard(key: Octets, salt: Octets, i: nat, c: nat)
    requires |key| < 0x2000_0000 && |salt| + 68 < 0x2000_0000 && c >= 1
    ensures T(false, key, salt, i, c) == T(true, key, salt, i, c)
            && U(false, key, salt, i, c) == U(true, key, salt, i, c)
    decreases c
  {
    hide Hmac;
    if c == 1 {
      HmacStandard(key, salt + BigEndian(i, 4));
    } else {
      TStandard(key, salt, i, c - 1);
      HmacStandard(key, U(true, key, salt, i, c - 1));
    }
  }

  lemma {:induction false} TsStandard(key: Octets, salt: Octets, c: nat, n: nat)
    requires |key| < 0x2000_0000 && |salt| + 68 < 0x2000_0000 && c >= 1
    ensures Ts(false, key, salt, c, n) == Ts(true, key, salt, c, n)
  {
    hide T, U, Hmac, XorSeq, BigEndian;
    if n > 0 {
      TsStandard(key, salt, c, n - 1);
      TStandard(key, salt, n, c);
    }
  }

  lemma {:induction false} MacsStandard(key: Octets, name: Octets, data: Octets, n: nat)
    requires |key| < 0x2000_0000 && |name| + |data| + 66 < 0x2000_0000
    ensures PrfMacs(false, key, name, data, n) == PrfMacs(true, key, name, data, n)
  {
    hide Hmac;
    if n > 0 {
      MacsStandard(key, name, data, n - 1);
      HmacStandard(key, name + [0] + data + [Low8(n - 1)]);
    }
  }

  /** With a password and a salt below 512 MB, as every one is, the code's PBKDF2 is that of the standard. */
  lemma Pbkdf2Standard(key: Octets, salt: Octets, c: nat, len: nat)
    requires |key| < 0x2000_0000 && |salt| + 68 < 0x2000_0000 && c >= 1
    ensures Pbkdf2(false, key, salt, c, len) == Pbkdf2(true, key, salt, c, len)
  {
    hide Ts;
    TsStandard(key, salt, c, (len + 19) / 20);
  }

  lemma PrfStandard(key: Octets, name: Octets, data: Octets, len: nat)
    requires |key| < 0x2000_0000 && |name| + |data| + 66 < 0x2000_0000
    ensures Prf(false, key, name, data, len) == Prf(true, key, name, data, len)
  {
    hide PrfMacs;
    MacsStandard(key, name, data, (len + 19) / 20);
  }

  /** What one pad made of a byte, the other pad makes of it with both constants. */
  lemma {:induction false} XorTwice(x: nat, a: nat, b: nat, n: nat)
    ensures Xor(Xor(x, a, n), Xor(a, b, n), n) == Xor(x, b, n)
  {
    if n > 0 {
      XorTwice(x / 2, a / 2, b / 2, n - 1);
      XorHalf(x, a, n);
      XorHalf(a, b, n);
    }
  }

  lemma XorHalf(x: nat, y: nat, n: nat)
    requires n > 0
    ensures Xor(x, y, n) / 2 == Xor(x / 2, y / 2, n - 1)
    ensures Xor(x, y, n) % 2 == if x % 2 != y % 2 then 1 else 0
  {
  }
}

/** wpa.h: HMAC, PBKDF2 and the PRF over the streaming hash. */
module Wpa {
  import opened Machine
  import opened Sha1Spec
  import opened Sha1Stream
  import opened WpaSpec

  /** One hash of one piece. */
  method HashOf(m: Octets) returns (out: Octets)
    ensures out == Hash(false, m)
  {
    var s := new Sha1State();
    s.Update(m);
    assert [] + m == m;
    out := s.Final();
  }

  class HmacSha1 {
    const inner: Sha1State
    const outer: Sha1State
    ghost const key: Octets

    ghost predicate Valid()
      reads this, inner, inner.h, inner.buf, outer, outer.h, outer.buf
    {
      && inner.Valid() && outer.Valid()
      && inner.msg == XorAll(KeyBlock(false, key), IPAD)
      && outer.msg == XorAll(KeyBlock(false, key), OPAD)
    }

    /** hmac_sha1_init */
    constructor (secret: Octets)
      ensures Valid() && key == secret && fresh(inner) && fresh(outer)
    {
      hide Hash, XorAll, Zeros, Sha1State.Held;
      var k := secret;
      if |secret| > 64 {
        k := HashOf(secret);
      }
      var pad := Padded64(k, IPAD);
      var i := new Sha1State();
      i.Update(pad);
      var pad2 := Switch(pad, XorByte(IPAD, OPAD));
      var o := new Sha1State();
      o.Update(pad2);
      inner, outer, key := i, o, secret;
      new;
      PadsSwitch(KeyBlock(false, secret), pad, pad2);
      assert [] + pad == pad && [] + pad2 == pad2;
    }

    /** hmac_sha1_run: the MAC of the pieces, taken together; a missing piece is an empty one. The
        prepared states stay as they are. */
    method Run(d0: Octets, d1: Octets, d2: Octets, d3: Octets) returns (mac: Octets)
      requires Valid()
      ensures mac == Hmac(false, key, d0 + d1 + d2 + d3)
    {
      hide Sha1By32, Sha1, XorAll, KeyBlock, Sha1State.Held;
      var s := new Sha1State.Copy(inner);
      s.Update(d0);
      s.Update(d1);
      s.Update(d2);
      s.Update(d3);
      Pieces(inner.msg, d0, d1, d2, d3);
      var ih := s.Final();
      s := new Sha1State.Copy(outer);
      s.Update(ih);
      mac := s.Final();
    }
  }

  lemma Pieces(a: Octets, b: Octets, c: Octets, d: Octets, e: Octets)
    ensures a + b + c + d + e == a + (b + c + d + e)
  {
  }

  /** The first loop of hmac_sha1_init. */
  method Padded64(k: Octets, c: Byte) returns (pad: Octets)
    requires |k| <= 64
    ensures pad == XorAll(k + Zeros(64 - |k|), c)
  {
    hide XorByte;
    pad := [];
    var i := 0;
    while i < 64
      invariant 0 <= i == |pad| <= 64
      invariant forall j :: 0 <= j < i ==> pad[j] == XorByte((k + Zeros(64 - |k|))[j], c)
    {
      pad := pad + [XorByte(if i < |k| then k[i] else 0, c)];
      i := i + 1;
    }
  }

  /** The second: every byte changed by a constant. */
  method Switch(pad: Octets, c: Byte) returns (r: Octets)
    ensures r == XorAll(pad, c)
  {
    hide XorByte;
    r := [];
    var i := 0;
    while i < |pad|
      invariant 0 <= i == |r| <= |pad|
      invariant forall j :: 0 <= j < i ==> r[j] == XorByte(pad[j], c)
    {
      r := r + [XorByte(pad[i], c)];
      i := i + 1;
    }
  }

  lemma PadsSwitch(k: Octets, pad: Octets, pad2: Octets)
    requires pad == XorAll(k, IPAD) && pad2 == XorAll(pad, XorByte(IPAD, OPAD))
    ensures pad2 == XorAll(k, OPAD)
  {
    hide Xor;
    forall i | 0 <= i < |k| ensures pad2[i] == XorAll(k, OPAD)[i] {
      XorTwice(k[i], IPAD, OPAD, 8);
    }
  }

  /** A C string in memory, up to its terminator. */
  function Text(s: Octets): (r: Octets)
    ensures |r| <= |s|
  {
    if s == [] || s[0] == 0 then [] else [s[0]] + Text(s[1..])
  }

  method TextOf(s: Octets) returns (r: Octets)
    requires 0 in s
    ensures r == Text(s)
  {
    r := [];
    var n := 0;
    assert s[0..] == s && [] + Text(s) == Text(s);
    while s[n] != 0
      decreases |s| - n
      invariant 0 <= n < |s| && 0 in s[n..]
      invariant r + Text(s[n..]) == Text(s)
    {
      r := r + [s[n]];
      n := n + 1;
    }
    assert r + [] == r;
  }

  /** wpa_pmk: the first 32 bytes of PBKDF2 with 4096 iterations. */
  method WpaPmk(pass: Octets, ssid: Octets) returns (pmk: Octets)
    requires 0 in pass
    ensures pmk == Pbkdf2(false, Text(pass), ssid, 4096, 32)
  {
    hide Hmac, T;
    var key := TextOf(pass);
    var m := new HmacSha1(key);
    var t1 := PmkBlock(m, ssid, 1);
    var t2 := PmkBlock(m, ssid, 2);
    pmk := t1 + t2[..12];
    TwoBlocks(key, ssid, 4096, t1, t2);
  }

  lemma TwoBlocks(key: Octets, salt: Octets, c: nat, t1: Octets, t2: Octets)
    requires c >= 1 && t1 == T(false, key, salt, 1, c) && t2 == T(false, key, salt, 2, c)
    ensures Pbkdf2(false, key, salt, c, 32) == t1 + t2[..12]
  {
    hide T;
    assert Ts(false, key, salt, c, 1) == [] + t1;
    assert Ts(false, key, salt, c, 2) == t1 + t2;
  }

  /** One pass of the outer loop. */
  method PmkBlock(m: HmacSha1, ssid: Octets, blk: Byte) returns (t: Octets)
    requires m.Valid() && blk >= 1
    ensures t == T(false, m.key, ssid, blk, 4096)
  {
    hide Hmac, XorSeq, U, T, BigEndian;
    CountByte(blk);
    FirstU(m.key, ssid, blk);
    var u := m.Run(ssid, [0, 0, 0, blk], [], []);
    assert ssid + [0, 0, 0, blk] + [] + [] == ssid + [0, 0, 0, blk];
    t := u;
    var i := 1;
    while i < 4096
      invariant 1 <= i <= 4096
      invariant u == U(false, m.key, ssid, blk, i) && t == T(false, m.key, ssid, blk, i)
    {
      assert u + [] + [] + [] == u;
      NextU(m.key, ssid, blk, i + 1);
      u := m.Run(u, [], [], []);
      i := i + 1;
      t := XorInto(t, u);
    }
  }

  lemma FirstU(key: Octets, salt: Octets, i: nat)
    ensures U(false, key, salt, i, 1) == Hmac(false, key, salt + BigEndian(i, 4)) == T(false, key, salt, i, 1)
  {
    hide Hmac;
  }

  lemma NextU(key: Octets, salt: Octets, i: nat, j: nat)
    requires j > 1
    ensures U(false, key, salt, i, j) == Hmac(false, key, U(false, key, salt, i, j - 1))
    ensures T(false, key, salt, i, j) == XorSeq(T(false, key, salt, i, j - 1), U(false, key, salt, i, j))
  {
    hide Hmac;
  }

  lemma CountByte(b: Byte)
    ensures BigEndian(b, 4) == [0, 0, 0, b]
  {
    assert BigEndian(0, 2) == [0, 0];
    assert BigEndian(0, 3) == [0, 0, 0];
  }

  method XorInto(t: Octets, u: Octets) returns (r: Octets)
    requires |t| == |u|
    ensures r == XorSeq(t, u)
  {
    hide XorByte;
    r := [];
    var j := 0;
    while j < |t|
      invariant 0 <= j == |r| <= |t|
      invariant forall k :: 0 <= k < j ==> r[k] == XorByte(t[k], u[k])
    {
      r := r + [XorByte(t[j], u[j])];
      j := j + 1;
    }
  }

  /** wpa_prf: the first olen bytes of the MACs. */
  method WpaPrf(key: Octets, name: Octets, data: Octets, olen: u32) returns (out: Octets)
    requires 0 in name
    ensures out == Prf(false, key, Text(name), data, olen)
  {
    hide PrfMacs, Hmac, SoFar, Low8, Text, Prf, HmacSha1.Valid;
    var text := TextOf(name);
    var m := new HmacSha1(key);
    out := [];
    var i: Byte := 0;
    ghost var n := 0;
    NextCounter(0);
    NoMacs(key, text, data, olen);
    SoFarBounds(PrfMacs(false, key, text, data, n), n, out, olen);
    while |out| < olen
      invariant i == Low8(n) && m.Valid() && m.key == key
      invariant SoFar(PrfMacs(false, key, text, data, n), n, out, olen) && |out| <= olen
      decreases olen - |out|
    {
      var mac := m.Run(text, [0], data, [i]);
      NextMac(key, text, data, n, mac);
      MoreOut(PrfMacs(false, key, text, data, n), n, mac, out, olen);
      out := out + mac[..Min(20, olen - |out|)];
      NextCounter(n);
      i := Low8(i + 1);
      n := n + 1;
      SoFarBounds(PrfMacs(false, key, text, data, n), n, out, olen);
    }
    FullOut(key, text, data, n, out, olen);
  }

  lemma NextCounter(n: nat)
    ensures Low8(n + 1) == Low8(Low8(n) + 1) && Low8(0) == 0
  {
  }

  lemma SoFarBounds(macs: Octets, n: nat, out: Octets, olen: nat)
    requires SoFar(macs, n, out, olen)
    ensures |out| <= olen
  {
  }

  lemma FullOut(key: Octets, name: Octets, data: Octets, n: nat, out: Octets, olen: nat)
    requires SoFar(PrfMacs(false, key, name, data, n), n, out, olen) && |out| == olen
    ensures out == Prf(false, key, name, data, olen)
  {
  }

  /** The output is a prefix of the MACs: all of them, until it is full. */
  ghost predicate SoFar(macs: Octets, n: nat, out: Octets, olen: nat) {
    |out| <= olen && if |out| < olen then out == macs && |out| == 20 * n else out <= macs && n == (olen + 19) / 20
  }

  lemma MoreOut(macs: Octets, n: nat, mac: Octets, out: Octets, olen: nat)
    requires SoFar(macs, n, out, olen) && |out| < olen && |mac| == 20
    ensures |out + mac[..Min(20, olen - |out|)]| > |out|
    ensures SoFar(macs + mac, n + 1, out + mac[..Min(20, olen - |out|)], olen)
  {
    assert macs + mac[..20] == macs + mac;
  }

  lemma NoMacs(key: Octets, name: Octets, data: Octets, olen: nat)
    ensures SoFar(PrfMacs(false, key, name, data, 0), 0, [], olen)
  {
  }

  lemma NextMac(key: Octets, name: Octets, data: Octets, n: nat, mac: Octets)
    requires mac == Hmac(false, key, name + [0] + data + [Low8(n)])
    ensures PrfMacs(false, key, name, data, n + 1) == PrfMacs(false, key, name, data, n) + mac
  {
  }
}
