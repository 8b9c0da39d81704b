/** netstack.h: the Internet checksum (RFC 1071), and the IPv4 headers that carry it. */
module Checksum {
  import opened Arith
  import opened Machine

  /** The 16-bit words of a message, high byte first, added up; an odd last byte is a high byte. */
  function WordSum(p: Octets): nat {
    if |p| == 0 then 0
    else if |p| == 1 then p[0] as nat * 256
    else p[0] as nat * 256 + p[1] + WordSum(p[2..])
  }

  /** One's complement reduction to 16 bits: the carries go round until there are none. */
  function Fold(x: nat): (r: nat)
    ensures r < 0x1_0000
  {
    if x == 0 then 0 else (x - 1) % 0xffff + 1
  }

  lemma FoldOnce(x: nat)
    ensures Fold(x % 0x1_0000 + x / 0x1_0000) == Fold(x)
  {
    var q := x / 0x1_0000;
    var r := x % 0x1_0000;
    assert x == 0x1_0000 * q + r;
    if x > 0 {
      assert x - 1 == q * 0xffff + (q + r - 1);
      AddMultiple(q + r - 1, q, 0xffff);
    }
  }

  lemma FoldSmall(x: nat)
    requires x < 0x1_0000
    ensures Fold(x) == x
  {
  }

  /** net_csum */
  method NetCsum(p: Octets, start: u32) returns (sum: u32)
    ensures sum == Fold(Wrap(start + WordSum(p)))
  {
    hide WordSum, Wrap, Fold;
    sum := start;
    var i := 0;
    assert p[0..] == p;
    while |p| - i > 1
      invariant 0 <= i <= |p|
      invariant Wrap(sum + WordSum(p[i..])) == Wrap(start + WordSum(p))
    {
      var w := p[i] as nat * 256 + p[i + 1];
      WordSumNext(p, i);
      WrapPlus(sum + w, WordSum(p[i + 2..]));
      sum := Wrap(sum + w);
      i := i + 2;
    }
    WordSumEnd(p, i, sum);
    if |p| - i == 1 {
      sum := Wrap(sum + p[i] as nat * 256);
    }
    while sum / 0x1_0000 > 0
      invariant Fold(sum) == Fold(Wrap(start + WordSum(p)))
      decreases sum
    {
      FoldOnce(sum);
      sum := sum % 0x1_0000 + sum / 0x1_0000;
    }
    FoldSmall(sum);
  }

  lemma WordSumNext(p: Octets, i: nat)
    requires i + 2 <= |p|
    ensures WordSum(p[i..]) == p[i] as nat * 256 + p[i + 1] + WordSum(p[i + 2..])
  {
    assert p[i..][2..] == p[i + 2..];
  }

  /** An odd last byte counts as the high half of a word. */
  lemma WordSumEnd(p: Octets, i: nat, sum: u32)
    requires i <= |p| <= i + 1
    ensures Wrap(sum + WordSum(p[i..])) == if |p| == i then sum else Wrap(sum + p[i] as nat * 256)
  {
  }

  lemma WrapPlus(x: nat, y: nat)
    ensures Wrap(Wrap(x) + y) == Wrap(x + y)
  {
    DivBounds(x, M32);
    AddMultiple(Wrap(x) + y, x / M32, M32);
  }

  /** The sum does not overflow for packets up to 128 KB. */
  lemma {:induction false} WordSumBound(p: Octets)
    ensures WordSum(p) <= (|p| + 1) / 2 * 0xffff
  {
    if |p| >= 2 {
      WordSumBound(p[2..]);
    }
  }

  // ---- chaining ----

  lemma {:induction false} WordSumSplit(a: Octets, b: Octets)
    requires |a| % 2 == 0
    ensures WordSum(a + b) == WordSum(a) + WordSum(b)
  {
    if a == [] {
      assert a + b == b;
    } else {
      assert (a + b)[2..] == a[2..] + b;
      WordSumSplit(a[2..], b);
    }
  }

  lemma FoldPlus(x: nat, y: nat)
    ensures Fold(Fold(x) + y) == Fold(x + y)
  {
    if x > 0 {
      var q := (x - 1) / 0xffff;
      assert x - 1 == q * 0xffff + (Fold(x) - 1);
      AddMultiple(Fold(x) - 1 + y, q, 0xffff);
    }
  }

  /** Carrying the sum of an even-length prefix on is the same as one sum over the whole, exactly when
      the whole sum fits 32 bits, given that each part does. */
  lemma ChainExact(a: Octets, b: Octets, start: u32)
    requires |a| % 2 == 0 && start + WordSum(a) < M32 && 0xffff + WordSum(b) < M32
    ensures Fold(Wrap(Fold(Wrap(start + WordSum(a))) + WordSum(b))) == Fold(Wrap(start + WordSum(a + b)))
            <==> start + WordSum(a + b) < M32
  {
    WordSumSplit(a, b);
    var x, y := start + WordSum(a), WordSum(b);
    hide WordSum;
    Within(x);
    Within(Fold(x) + y);
    FoldPlus(x, y);
    if x + y < M32 {
      Within(x + y);
    } else {
      Carried(x + y);
    }
  }

  lemma Within(x: nat)
    requires x < M32
    ensures Wrap(x) == x
  {
  }

  /** A carry out of 32 bits is lost, and the folded sum is one less than it should be. */
  lemma Carried(t: nat)
    requires M32 <= t < 2 * M32
    ensures Fold(Wrap(t)) != Fold(t)
  {
    assert Wrap(t) == t - M32;
    assert M32 == 65537 * 0xffff + 1;
    var s := t - M32;
    assert t - 1 == 65537 * 0xffff + s;
    AddMultiple(s, 65537, 0xffff);
    if s > 0 {
      DivBounds(s - 1, 0xffff);
      var q, r := (s - 1) / 0xffff, (s - 1) % 0xffff;
      AddMultiple(r + 1, q, 0xffff);
    }
  }

  // ---- a message with its checksum ----

  /** A 16-bit number, high byte first. */
  function Be16(v: nat): (r: Octets)
    ensures |r| == 2
  {
    [v / 256 % 256, v % 256]
  }

  function Read16(p: Octets, i: nat): nat
    requires i + 2 <= |p|
  {
    p[i] as nat * 256 + p[i + 1]
  }

  /** The message with 16 bits stored at i. */
  function Stored(p: Octets, i: nat, v: nat): (r: Octets)
    requires i + 2 <= |p|
    ensures |r| == |p|
  {
    p[..i] + Be16(v) + p[i + 2..]
  }

  lemma StoredSum(p: Octets, i: nat, v: nat)
    requires i + 2 <= |p| && i % 2 == 0 && v < 0x1_0000
    ensures WordSum(Stored(p, i, v)) + Read16(p, i) == WordSum(p) + v
  {
    var rest := p[i + 2..];
    assert Stored(p, i, v) == p[..i] + (Be16(v) + rest);
    Around(p, i);
    WordSumSplit(p[..i], Be16(v) + rest);
    WordSumSplit(p[..i], p[i..i + 2] + rest);
    FirstWord(Be16(v), rest);
    FirstWord(p[i..i + 2], rest);
    Be16Back(v);
    assert Read16(p[i..i + 2], 0) == Read16(p, i);
    hide WordSum, Be16, Read16;
  }

  lemma Be16Back(v: nat)
    requires v < 0x1_0000
    ensures Read16(Be16(v), 0) == v
  {
  }

  lemma Around(p: Octets, i: nat)
    requires i + 2 <= |p|
    ensures p == p[..i] + (p[i..i + 2] + p[i + 2..])
  {
    assert p[i..] == p[i..i + 2] + p[i + 2..];
  }

  lemma FirstWord(w: Octets, rest: Octets)
    requires |w| == 2
    ensures WordSum(w + rest) == Read16(w, 0) + WordSum(rest)
  {
    assert (w + rest)[2..] == rest;
  }

  /** A receiver's test: the sum over everything is all ones. */
  predicate Checks(p: Octets, start: nat) {
    Fold(start + WordSum(p)) == 0xffff
  }

  /** With the complement of the sum stored where a zero was, the message checks. */
  lemma ChecksumChecks(p: Octets, i: nat, start: nat)
    requires i + 2 <= |p| && i % 2 == 0 && Read16(p, i) == 0
    ensures Checks(Stored(p, i, 0xffff - Fold(start + WordSum(p))), start)
  {
    hide WordSum, Stored, Fold, Read16;
    var x := start + WordSum(p);
    var c := 0xffff - Fold(x);
    StoredSum(p, i, c);
    Complement(x);
    assert start + WordSum(Stored(p, i, c)) == x + c;
  }

  lemma Complement(x: nat)
    ensures Fold(x + (0xffff - Fold(x))) == 0xffff
  {
    if x > 0 {
      var q := (x - 1) / 0xffff;
      assert x - 1 == q * 0xffff + (Fold(x) - 1);
      AddMultiple(0xfffe, q, 0xffff);
    }
  }

  /** A changed word is noticed, exactly unless it changed between all zeros and all ones. */
  lemma ChangeNoticed(p: Octets, i: nat, v: nat, start: nat)
    requires i + 2 <= |p| && i % 2 == 0 && v < 0x1_0000 && Checks(p, start)
    requires start + WordSum(Stored(p, i, v)) > 0
    ensures Checks(Stored(p, i, v), start) <==>
            v == Read16(p, i) || (v == 0 && Read16(p, i) == 0xffff) || (v == 0xffff && Read16(p, i) == 0)
  {
    hide WordSum, Stored, Read16, Fold;
    var w := Read16(p, i);
    Below16(p, i);
    StoredSum(p, i, v);
    var x, y := start + WordSum(p), start + WordSum(Stored(p, i, v));
    assert x + v == y + w;
    AllOnes(x);
    AllOnes(y);
    SameMultiples(x, y, v, w);
  }

  lemma Below16(p: Octets, i: nat)
    requires i + 2 <= |p|
    ensures Read16(p, i) < 0x1_0000
  {
  }

  lemma AllOnes(x: nat)
    ensures Fold(x) == 0xffff <==> x > 0 && x % 0xffff == 0
  {
    if x > 0 {
      var q, r := (x - 1) / 0xffff, (x - 1) % 0xffff;
      assert x - 1 == q * 0xffff + r;
      AddMultiple(r + 1, q, 0xffff);
    }
  }

  lemma SameMultiples(x: nat, y: nat, v: nat, w: nat)
    requires x + v == y + w && v < 0x1_0000 && w < 0x1_0000 && x % 0xffff == 0
    ensures y % 0xffff == 0 <==> v == w || (v == 0 && w == 0xffff) || (v == 0xffff && w == 0)
  {
    var a, b := x / 0xffff, y / 0xffff;
    DivBounds(x, 0xffff);
    DivBounds(y, 0xffff);
    if y % 0xffff == 0 {
      assert w - v == (a - b) * 0xffff;
    }
    if v == w {
    } else if v == 0 && w == 0xffff {
      DivUnique(y, 0xffff, a - 1);
    } else if v == 0xffff && w == 0 {
      DivUnique(y, 0xffff, a + 1);
    }
  }

  // ---- IPv4 ----

  function Read32(p: Octets, i: nat): nat
    requires i + 4 <= |p|
  {
    p[i] as nat * 0x100_0000 + p[i + 1] as nat * 0x1_0000 + p[i + 2] as nat * 0x100 + p[i + 3]
  }

  lemma Read32Back(v: u32)
    ensures Read32(Be32(v), 0) == v
  {
    DivBounds(v, 0x100);
    var a := v / 0x100;
    DivBounds(a, 0x100);
    var b := a / 0x100;
    DivBounds(b, 0x100);
    assert v / 0x1_0000 == b && v / 0x100_0000 == b / 0x100;
  }

  /** What net_rx takes out of a packet before it looks at addresses. */
  datatype Datagram = Datagram(proto: Byte, src: nat, dst: nat, payload: Octets)

  function Parse(p: Octets): Option<Datagram> {
    if |p| < 20 || p[0] / 16 != 4 then None
    else
      var ihl := p[0] as nat % 16 * 4;
      var tot := Read16(p, 2);
      if ihl < 20 || tot < ihl || tot > |p| || Fold(Wrap(0 + WordSum(p[..ihl]))) != 0xffff then None
      else if Read16(p, 6) % 0x4000 != 0 then None
      else Some(Datagram(p[9], Read32(p, 12), Read32(p, 16), p[ihl..tot]))
  }

  /** The first half of net_rx. */
  method NetRx(p: Octets) returns (d: Option<Datagram>)
    ensures d == Parse(p)
  {
    hide WordSum, Wrap, Fold;
    if |p| < 20 || p[0] / 16 != 4 {
      return None;
    }
    var ihl := p[0] as nat % 16 * 4;
    var tot := Read16(p, 2);
    if ihl < 20 || tot < ihl || tot > |p| {
      return None;
    }
    var sum := NetCsum(p[..ihl], 0);
    if sum % 0x1_0000 != 0xffff {
      return None;
    }
    if Read16(p, 6) % 0x4000 != 0 {
      return None;
    }
    d := Some(Datagram(p[9], Read32(p, 12), Read32(p, 16), p[ihl..tot]));
  }

  /** The header of ip_send with a checksum. */
  function Header(id: u32, len: nat, proto: Byte, src: u32, dst: u32, sum: nat): (h: Octets)
    ensures |h| == 20
  {
    [0x45, 0] + Be16(20 + len) + Be16(id) + [0, 0, 64, proto] + Be16(sum) + Be32(src) + Be32(dst)
  }

  // ---- packets of any sender ----

  /** The example of RFC 1071, section 3; an odd last byte is the high half of a word. */
  lemma KnownSum()
    ensures WordSum([0x00, 0x01, 0xf2, 0x03, 0xf4, 0xf5, 0xf6, 0xf7]) == 0x2ddf0 && Fold(0x2ddf0) == 0xddf2
    ensures WordSum([0x12, 0x34, 0x56]) == 0x1234 + 0x5600
  {
    FirstWord([0xf6, 0xf7], []);
    FirstWord([0xf4, 0xf5], [0xf6, 0xf7]);
    FirstWord([0xf2, 0x03], [0xf4, 0xf5, 0xf6, 0xf7]);
    FirstWord([0x00, 0x01], [0xf2, 0x03, 0xf4, 0xf5, 0xf6, 0xf7]);
    FirstWord([0x12, 0x34], [0x56]);
    assert [0xf6, 0xf7] + [] == [0xf6, 0xf7];
  }

  /** The header of RFC 791, section 3.1, with three bits of flags, 13 of fragment offset and options. */
  function Wire(tos: Byte, total: nat, id: nat, flags: nat, frag: nat, ttl: Byte, proto: Byte, sum: nat,
                src: u32, dst: u32, options: Octets): (h: Octets)
    requires |options| <= 40 && |options| % 4 == 0
    ensures |h| == 20 + |options|
  {
    var n, i, f, c := Be16(total), Be16(id), Be16(flags * 0x2000 + frag), Be16(sum);
    var s, d := Be32(src), Be32(dst);
    [0x40 + (20 + |options|) / 4, tos, n[0], n[1], i[0], i[1], f[0], f[1], ttl, proto, c[0], c[1],
     s[0], s[1], s[2], s[3], d[0], d[1], d[2], d[3]] + options
  }

  /** A packet of any sender comes apart into protocol, addresses and payload, whatever its options, its
      service, lifetime and identification, the flag against fragmenting, and padding of the frame; unless
      it is a fragment, and then it is dropped. */
  lemma AnyPacket(tos: Byte, id: nat, flags: nat, frag: nat, ttl: Byte, proto: Byte, src: u32, dst: u32,
                  options: Octets, payload: Octets, padding: Octets)
    requires |options| <= 40 && |options| % 4 == 0 && flags < 8 && frag < 0x2000
    requires 20 + |options| + |payload| < 0x1_0000
    ensures var total := 20 + |options| + |payload|;
            var h := Wire(tos, total, id, flags, frag, ttl, proto, 0, src, dst, options);
            var s := Stored(h, 10, 0xffff - Fold(WordSum(h)));
            Parse(s + payload + padding) ==
            if flags % 2 == 1 || frag > 0 then None else Some(Datagram(proto, src, dst, payload))
  {
    var total := 20 + |options| + |payload|;
    var h := Wire(tos, total, id, flags, frag, ttl, proto, 0, src, dst, options);
    var sum := 0xffff - Fold(WordSum(h));
    var s := Stored(h, 10, sum);
    var p := s + payload + padding;
    WireFields(tos, total, id, flags, frag, ttl, proto, src, dst, options, sum, payload + padding);
    hide WordSum, Wrap, Fold, Stored, Wire;
    assert p == s + (payload + padding);
    WordSumBound(s);
    Within(WordSum(s));
    ChecksumChecks(h, 10, 0);
    assert p[..|s|] == s && p[|s|..total] == payload;
    FlagBits(flags, frag);
  }

  /** A packet with one word of its header damaged, behind the first, is dropped, unless the word was all
      zeros and is all ones or the other way round. */
  lemma DamageDropped(p: Octets, i: nat, v: nat)
    requires Parse(p).Some? && 2 <= i && i % 2 == 0 && i + 2 <= p[0] as nat % 16 * 4 && v < 0x1_0000
    requires v != Read16(p, i) && !(v == 0 && Read16(p, i) == 0xffff) && !(v == 0xffff && Read16(p, i) == 0)
    ensures Parse(Stored(p, i, v)) == None
  {
    var ihl := p[0] as nat % 16 * 4;
    var h := p[..ihl];
    var s := Stored(h, i, v);
    hide WordSum, Wrap, Fold;
    assert Stored(p, i, v)[..ihl] == s && Read16(h, i) == Read16(p, i);
    WordSumBound(h);
    WordSumBound(s);
    Within(WordSum(h));
    Within(WordSum(s));
    NotZero(s);
    ChangeNoticed(h, i, v, 0);
  }

  lemma NotZero(p: Octets)
    requires |p| >= 2 && p[0] > 0
    ensures WordSum(p) > 0
  {
  }

  lemma FlagBits(flags: nat, frag: nat)
    requires flags < 8 && frag < 0x2000
    ensures (flags * 0x2000 + frag) % 0x4000 == 0 <==> flags % 2 == 0 && frag == 0
  {
  }

  lemma WireFields(tos: Byte, total: nat, id: nat, flags: nat, frag: nat, ttl: Byte, proto: Byte, src: u32,
                   dst: u32, options: Octets, sum: nat, rest: Octets)
    requires |options| <= 40 && |options| % 4 == 0 && flags < 8 && frag < 0x2000 && total < 0x1_0000 && sum < 0x1_0000
    ensures var h := Wire(tos, total, id, flags, frag, ttl, proto, 0, src, dst, options);
            var p := Stored(h, 10, sum) + rest;
            && Read16(h, 10) == 0 && |p| == 20 + |options| + |rest|
            && p[0] / 16 == 4 && p[0] as nat % 16 * 4 == 20 + |options|
            && Read16(p, 2) == total && Read16(p, 6) == flags * 0x2000 + frag && p[9] == proto
            && Read32(p, 12) == src && Read32(p, 16) == dst
  {
    var h := Wire(tos, total, id, flags, frag, ttl, proto, 0, src, dst, options);
    var p := Stored(h, 10, sum) + rest;
    Be16Back(total);
    Be16Back(flags * 0x2000 + frag);
    Be16Back(0);
    Read32Back(src);
    Read32Back(dst);
    hide Be16, Be32, Stored;
    Kept(h, sum, rest);
    FirstNibbles(|options|);
  }

  lemma FirstNibbles(n: nat)
    requires n <= 40 && n % 4 == 0
    ensures var b := 0x40 + (20 + n) / 4; b / 16 == 4 && b % 16 * 4 == 20 + n
  {
  }

  /** Storing a checksum leaves the rest of a header alone. */
  lemma Kept(h: Octets, sum: nat, rest: Octets)
    requires |h| >= 20
    ensures var p := Stored(h, 10, sum) + rest;
            |p| == |h| + |rest| && forall i :: 0 <= i < 20 && i != 10 && i != 11 ==> p[i] == h[i]
  {
  }

  class Sender {
    const pkt: array<Byte>
    var ipId: u32
    var netIp: u32

    constructor ()
      ensures pkt.Length == 1500 && fresh(pkt)
    {
      pkt := new Byte[1500](_ => 0);
      ipId, netIp := 0, 0;
    }

    method Put16(i: nat, v: nat)
      requires i + 2 <= pkt.Length
      modifies pkt
      ensures pkt[..] == old(pkt[..i]) + Be16(v) + old(pkt[i + 2..])
    {
      pkt[i], pkt[i + 1] := v / 256 % 256, v % 256;
    }

    method Put32(i: nat, v: u32)
      requires i + 4 <= pkt.Length
      modifies pkt
      ensures pkt[..] == old(pkt[..i]) + Be32(v) + old(pkt[i + 4..])
    {
      pkt[i], pkt[i + 1], pkt[i + 2], pkt[i + 3] := v / 0x100_0000, v / 0x1_0000 % 0x100, v / 0x100 % 0x100, v % 0x100;
    }

    /** The header of ip_send, without a checksum yet. */
    method Fill(dst: u32, proto: Byte, len: nat)
      requires pkt.Length == 1500 && len <= 1480
      modifies pkt, this`ipId
      ensures pkt[..20] == Header(old(ipId), len, proto, netIp, dst, 0)
      ensures ipId == Wrap(old(ipId) + 1)
    {
      pkt[0] := 0x45;
      pkt[1] := 0;
      Put16(2, 20 + len);
      assert pkt[..4] == [0x45, 0] + Be16(20 + len);
      Put16(4, ipId);
      ghost var id := ipId;
      ipId := Wrap(ipId + 1);
      assert pkt[..6] == [0x45, 0] + Be16(20 + len) + Be16(id);
      Put16(6, 0);
      pkt[8] := 64;
      pkt[9] := proto;
      pkt[10], pkt[11] := 0, 0;
      assert pkt[..12] == [0x45, 0] + Be16(20 + len) + Be16(id) + [0, 0, 64, proto] + Be16(0);
      Put32(12, netIp);
      assert pkt[..16] == [0x45, 0] + Be16(20 + len) + Be16(id) + [0, 0, 64, proto] + Be16(0) + Be32(netIp);
      Put32(16, dst);
    }

    /** ip_send, once the hardware address of the next hop is known. Every packet it builds, net_rx takes
        apart into what was sent. */
    method IpSend(dst: u32, proto: Byte, payload: Octets) returns (sent: bool, frame: Octets)
      requires pkt.Length == 1500
      modifies pkt, this`ipId
      ensures sent <==> |payload| <= 1480
      ensures sent ==> Parse(frame) == Some(Datagram(proto, netIp, dst, payload))
    {
      if |payload| > 1480 {
        return false, [];
      }
      Fill(dst, proto, |payload|);
      ghost var h := pkt[..20];
      var sum := NetCsum(pkt[..20], 0);
      Put16(10, 0xffff - sum);
      assert pkt[..20] == Stored(h, 10, 0xffff - sum);
      var i := 0;
      while i < |payload|
        invariant 0 <= i <= |payload|
        invariant pkt[..20] == Stored(h, 10, 0xffff - sum) && pkt[20..20 + i] == payload[..i]
      {
        pkt[20 + i] := payload[i];
        i := i + 1;
      }
      sent, frame := true, pkt[..20 + |payload|];
      assert frame == Stored(h, 10, 0xffff - sum) + payload;
      ParseBack(old(ipId), proto, netIp, dst, payload, sum);
    }
  }

  /** A packet with the header of ip_send passes all the tests of net_rx and comes apart again. */
  lemma ParseBack(id: u32, proto: Byte, src: u32, dst: u32, payload: Octets, sum: u32)
    requires |payload| <= 1480
    requires sum == Fold(Wrap(0 + WordSum(Header(id, |payload|, proto, src, dst, 0))))
    ensures var h := Header(id, |payload|, proto, src, dst, 0);
            Parse(Stored(h, 10, 0xffff - sum) + payload) == Some(Datagram(proto, src, dst, payload))
  {
    hide WordSum, Wrap, Fold, Stored, Header, Be16, Be32;
    var h := Header(id, |payload|, proto, src, dst, 0);
    var s := Stored(h, 10, 0xffff - sum);
    var p := s + payload;
    HeaderBytes(id, |payload|, proto, src, dst);
    HeaderSum(h);
    HeaderSum(s);
    ChecksumChecks(h, 10, 0);
    assert p[..20] == s && p[20..20 + |payload|] == payload;
    HeaderFields(id, |payload|, proto, src, dst, 0xffff - sum, payload);
    assert p[0] as nat % 16 * 4 == 20;
    assert Fold(Wrap(0 + WordSum(p[..20]))) == 0xffff;
  }

  lemma HeaderSum(h: Octets)
    requires |h| == 20
    ensures Wrap(0 + WordSum(h)) == WordSum(h)
  {
    WordSumBound(h);
  }

  lemma HeaderFields(id: u32, len: nat, proto: Byte, src: u32, dst: u32, sum: nat, payload: Octets)
    requires len == |payload| <= 1480 && sum < 0x1_0000
    ensures var p := Stored(Header(id, len, proto, src, dst, 0), 10, sum) + payload;
            && p[0] == 0x45 && Read16(p, 2) == 20 + len && Read16(p, 6) == 0 && p[9] == proto
            && Read32(p, 12) == src && Read32(p, 16) == dst
  {
    var h := Header(id, len, proto, src, dst, 0);
    var p := Stored(h, 10, sum) + payload;
    Read32Back(src);
    Read32Back(dst);
    Be16Back(20 + len);
    HeaderBytes(id, len, proto, src, dst);
    hide Be16, Be32, Header, Stored;
    Kept(h, sum, payload);
  }

  lemma Zero16()
    ensures Be16(0) == [0, 0]
  {
  }

  lemma HeaderBytes(id: u32, len: nat, proto: Byte, src: u32, dst: u32)
    ensures var h := Header(id, len, proto, src, dst, 0);
            var n, s, d := Be16(20 + len), Be32(src), Be32(dst);
            && h[0] == 0x45 && h[2] == n[0] && h[3] == n[1] && h[6] == h[7] == h[10] == h[11] == 0 && h[9] == proto
            && h[12] == s[0] && h[13] == s[1] && h[14] == s[2] && h[15] == s[3]
            && h[16] == d[0] && h[17] == d[1] && h[18] == d[2] && h[19] == d[3]
  {
    hide Be16, Be32;
    Zero16();
  }
}
