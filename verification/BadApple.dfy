/** The 1-bit video format: what mkbadapple.py writes, what badapple.c makes of any stream, and that
    the second gives back what the first was given. */
module RunCode {
  import opened Machine
  import opened Arith

  // ---- LEB128 ----

  /** 7 bits per byte, low first, bit 7 set on all but the last. */
  function Leb(v: nat): (s: seq<Byte>)
    ensures |s| >= 1
  {
    if v < 0x80 then [v] else [v % 0x80 + 0x80] + Leb(v / 0x80)
  }

  /** Bitwise or. */
  function Or(a: nat, b: nat): nat
    decreases a + b
  {
    if a == 0 && b == 0 then 0 else (if a % 2 == 1 || b % 2 == 1 then 1 else 0) + 2 * Or(a / 2, b / 2)
  }

  /** `x << shift` of 32-bit registers, which use the low five bits of the shift. */
  function Shl(x: u32, shift: nat): u32 {
    Wrap(x * Pow2(shift % 32))
  }

  datatype Taken = Taken(v: nat, rest: seq<Byte>)

  /** The next byte of a stream; 0 for ever at its end. */
  function TakeByte(s: seq<Byte>): Taken {
    if s == [] then Taken(0, s) else Taken(s[0], s[1..])
  }

  /** The number at the start of any stream, as the box reads it: at most six bytes. */
  function TakeVarint(s: seq<Byte>, v: nat, shift: nat): Taken
    requires shift <= 35
    decreases 35 - shift
  {
    var b := TakeByte(s);
    var w := Or(v, Shl(b.v % 0x80, shift));
    if b.v < 0x80 || shift > 28 then Taken(w, b.rest) else TakeVarint(b.rest, w, shift + 7)
  }

  lemma VarintStep(s: seq<Byte>, v: nat, shift: nat)
    requires shift <= 35
    ensures var b := TakeByte(s);
            var w := Or(v, Shl(b.v % 0x80, shift));
            TakeVarint(s, v, shift) ==
            if b.v < 0x80 || shift > 28 then Taken(w, b.rest) else TakeVarint(b.rest, w, shift + 7)
  {
  }

  /** The or of two 32-bit numbers is one. */
  lemma {:induction false} OrBelow(a: nat, b: nat, k: nat)
    requires a < Pow2(k) && b < Pow2(k)
    ensures Or(a, b) < Pow2(k)
    decreases k
  {
    if k > 0 {
      OrBelow(a / 2, b / 2, k - 1);
    }
  }

  lemma OrWord(a: u32, b: u32)
    ensures Or(a, b) < M32
  {
    Units();
    assert Pow2(30) == 0x4000_0000;
    assert Pow2(32) == M32;
    OrBelow(a, b, 32);
  }

  lemma {:induction false} OrZero(b: nat)
    ensures Or(0, b) == b
  {
    if b > 0 {
      OrZero(b / 2);
    }
  }

  /** Where the bits of two numbers do not meet, or is plus. */
  lemma {:induction false} OrIsSum(a: nat, y: nat, k: nat)
    requires a < Pow2(k)
    ensures Or(a, y * Pow2(k)) == a + y * Pow2(k)
    decreases k
  {
    if k == 0 {
      OrZero(y);
    } else {
      var p := Pow2(k - 1);
      assert y * Pow2(k) == 2 * (y * p);
      OrIsSum(a / 2, y, k - 1);
      if a == 0 && y * Pow2(k) == 0 {
      } else {
        assert (2 * (y * p)) % 2 == 0 && (2 * (y * p)) / 2 == y * p;
      }
    }
  }

  lemma Units()
    ensures Pow2(0) == 1 && Pow2(7) == 0x80 && Pow2(14) == 0x4000 && Pow2(21) == 0x20_0000 && Pow2(28) == 0x1000_0000
  {
    assert Pow2(3) == 8;
    assert Pow2(10) == 1024;
    assert Pow2(17) == 0x2_0000;
    assert Pow2(24) == 0x100_0000;
  }

  predicate IsShift(shift: nat) {
    shift == 0 || shift == 7 || shift == 14 || shift == 21 || shift == 28
  }

  /** The number with the digits of v below a shift and those of x from it on. */
  function Joined(v: nat, x: nat, shift: nat): nat {
    v + x * Pow2(shift)
  }

  predicate Fits(v: nat, x: nat, shift: nat) {
    IsShift(shift) && v < Pow2(shift) && Joined(v, x, shift) < M32
  }

  /** One digit more. */
  lemma Digit(v: nat, x: nat, shift: nat)
    requires Fits(v, x, shift)
    ensures Or(v, Shl(x % 0x80, shift)) == Joined(v, x % 0x80, shift)
  {
    hide Or, Pow2, Shl, Wrap;
    LowDigit(x);
    MulLe(x % 0x80, x, Pow2(shift));
    ShlFits(x % 0x80, shift);
    OrIsSum(v, x % 0x80, shift);
  }

  lemma LowDigit(x: nat)
    ensures x % 0x80 <= x
  {
  }

  lemma ShlFits(y: u32, shift: nat)
    requires IsShift(shift) && y * Pow2(shift) < M32
    ensures Shl(y, shift) == y * Pow2(shift)
  {
    hide Pow2;
    assert shift % 32 == shift;
  }

  /** The rest of a number of more than one digit. */
  lemma Rest(v: nat, x: nat, shift: nat)
    requires Fits(v, x, shift) && x >= 0x80
    ensures shift <= 21 && Fits(Joined(v, x % 0x80, shift), x / 0x80, shift + 7)
    ensures Joined(Joined(v, x % 0x80, shift), x / 0x80, shift + 7) == Joined(v, x, shift)
  {
    Units();
    var u := Pow2(shift);
    hide Pow2;
    MulLe(0x80, x, u);
    assert shift <= 21;
    MulLe(x % 0x80, 0x7f, u);
    assert Pow2(shift + 7) == 0x80 * u;
    NextDigit(x, u);
  }

  lemma NextDigit(x: nat, u: nat)
    ensures x % 0x80 * u + x / 0x80 * (0x80 * u) == x * u
  {
    assert x == x / 0x80 * 0x80 + x % 0x80;
    assert x / 0x80 * (0x80 * u) == x / 0x80 * 0x80 * u;
  }

  /** Reading undoes writing, for every 32-bit number. */
  lemma {:induction false} VarintBack(v: nat, x: nat, rest: seq<Byte>, shift: nat)
    requires Fits(v, x, shift)
    ensures TakeVarint(Leb(x) + rest, v, shift) == Taken(Joined(v, x, shift), rest)
    decreases x
  {
    Digit(v, x, shift);
    LebHead(x, rest);
    hide Or, Shl, Joined, Wrap, Pow2, Leb, TakeByte;
    if x >= 0x80 {
      Rest(v, x, shift);
      VarintBack(Joined(v, x % 0x80, shift), x / 0x80, rest, shift + 7);
    }
  }

  lemma LebHead(x: nat, rest: seq<Byte>)
    ensures TakeByte(Leb(x) + rest) ==
            if x < 0x80 then Taken(x, rest) else Taken(x % 0x80 + 0x80, Leb(x / 0x80) + rest)
    ensures x < 0x80 ==> x % 0x80 == x
    ensures (x % 0x80 + 0x80) % 0x80 == x % 0x80
  {
    if x < 0x80 {
      HeadTail(x, [], rest);
      assert Leb(x) == [x] + [] && [] + rest == rest;
    } else {
      HeadTail(x % 0x80 + 0x80, Leb(x / 0x80), rest);
    }
    hide Leb;
  }

  lemma HeadTail(b: Byte, s: seq<Byte>, rest: seq<Byte>)
    ensures TakeByte([b] + s + rest) == Taken(b, s + rest)
  {
    assert ([b] + s + rest)[1..] == s + rest;
  }

  /** A 32-bit number at the start of a stream is read back. */
  lemma NumberBack(x: u32, rest: seq<Byte>)
    ensures TakeVarint(Leb(x) + rest, 0, 0) == Taken(x, rest)
  {
    Units();
    hide TakeVarint;
    VarintBack(0, x, rest, 0);
  }

  // ---- runs ----

  function Sum(runs: seq<nat>): nat {
    if runs == [] then 0 else Sum(runs[..|runs| - 1]) + runs[|runs| - 1]
  }

  /** Whether runs, alternately unchanged and toggled, toggle pixel k. */
  predicate Painted(runs: seq<nat>, k: nat) {
    runs != [] &&
    var m := |runs| - 1;
    if Sum(runs[..m]) <= k < Sum(runs) then m % 2 == 1 else Painted(runs[..m], k)
  }

  lemma {:induction false} PaintedWithin(runs: seq<nat>, k: nat)
    requires Painted(runs, k)
    ensures k < Sum(runs)
  {
    var m := |runs| - 1;
    if !(Sum(runs[..m]) <= k < Sum(runs)) {
      PaintedWithin(runs[..m], k);
    }
  }

  /** A frame in the file. */
  function RunBytes(runs: seq<nat>): seq<Byte> {
    if runs == [] then [] else RunBytes(runs[..|runs| - 1]) + Leb(runs[|runs| - 1])
  }

  function FrameBytes(runs: seq<nat>): seq<Byte> {
    Leb(|runs|) + RunBytes(runs)
  }

  // ---- the decoder on any stream ----

  /** Pixels pos to end - 1 flipped. */
  function Flip(bits: seq<bool>, pos: nat, end: nat): (r: seq<bool>)
    ensures |r| == |bits|
    ensures forall k :: 0 <= k < |bits| ==> r[k] == if pos <= k < end then !bits[k] else bits[k]
  {
    if bits == [] then []
    else var m := |bits| - 1;
         Flip(bits[..m], pos, end) + [if pos <= m < end then !bits[m] else bits[m]]
  }

  datatype Decoded = Decoded(rest: seq<Byte>, bits: seq<bool>)

  /** Runs i to n - 1 from pixel pos on, in 32-bit arithmetic. */
  function TakeRuns(s: seq<Byte>, bits: seq<bool>, i: nat, n: nat, pos: u32): (d: Decoded)
    ensures |d.bits| == |bits|
    decreases n - i
  {
    if i >= n then Decoded(s, bits)
    else
      var t := TakeVarint(s, 0, 0);
      TakeRuns(t.rest, if i % 2 == 1 then Flip(bits, pos, Wrap(pos + t.v)) else bits, i + 1, n, Wrap(pos + t.v))
  }

  function TakeFrame(s: seq<Byte>, bits: seq<bool>): (d: Decoded)
    ensures |d.bits| == |bits|
  {
    var t := TakeVarint(s, 0, 0);
    TakeRuns(t.rest, bits, 0, t.v, 0)
  }

  /** The bits with the toggles of the runs applied. */
  predicate Toggled(was: seq<bool>, runs: seq<nat>, bits: seq<bool>) {
    |bits| == |was| && forall k :: 0 <= k < |was| ==> bits[k] == (was[k] != Painted(runs, k))
  }

  lemma {:induction false} SumUp(runs: seq<nat>, i: nat)
    requires i <= |runs|
    ensures Sum(runs[..i]) <= Sum(runs)
    decreases |runs|
  {
    if i == |runs| {
      assert runs[..i] == runs;
    } else {
      assert runs[..|runs| - 1][..i] == runs[..i];
      SumUp(runs[..|runs| - 1], i);
    }
  }

  lemma {:induction false} BytesSplit(runs: seq<nat>, i: nat)
    requires i < |runs|
    ensures RunBytes(runs[i..]) == Leb(runs[i]) + RunBytes(runs[i + 1..])
    decreases |runs|
  {
    if i + 1 == |runs| {
      assert runs[i..] == [runs[i]] && runs[i + 1..] == [] && [runs[i]][..0] == [];
      assert RunBytes([]) == [];
    } else {
      var m := |runs| - 1;
      var front := runs[..m];
      BytesSplit(front, i);
      assert front[i..] == runs[i..][..|runs| - i - 1] && front[i + 1..] == runs[i + 1..][..|runs| - i - 2];
      assert RunBytes(runs[i..]) == RunBytes(front[i..]) + Leb(runs[m]);
      assert RunBytes(runs[i + 1..]) == RunBytes(front[i + 1..]) + Leb(runs[m]);
    }
  }

  lemma NoBytes(rest: seq<Byte>)
    ensures RunBytes([]) + rest == rest
  {
  }

  lemma BytesAhead(runs: seq<nat>, i: nat, rest: seq<Byte>)
    requires i < |runs|
    ensures RunBytes(runs[i..]) + rest == Leb(runs[i]) + (RunBytes(runs[i + 1..]) + rest)
  {
    BytesSplit(runs, i);
    hide RunBytes, Leb;
    assert Leb(runs[i]) + RunBytes(runs[i + 1..]) + rest == Leb(runs[i]) + (RunBytes(runs[i + 1..]) + rest);
  }

  lemma OneRun(was: seq<bool>, runs: seq<nat>, i: nat, bits: seq<bool>)
    requires i < |runs| && Toggled(was, runs[..i], bits)
    ensures Toggled(was, runs[..i + 1],
                    if i % 2 == 1 then Flip(bits, Sum(runs[..i]), Sum(runs[..i + 1])) else bits)
  {
    assert runs[..i + 1][..i] == runs[..i];
    forall k | 0 <= k < |was| && Painted(runs[..i], k) ensures k < Sum(runs[..i]) {
      PaintedWithin(runs[..i], k);
    }
  }

  /** The decoder applies exactly the toggles that a well-formed frame stands for, and stops after it. */
  lemma {:induction false} RunsBack(runs: seq<nat>, rest: seq<Byte>, was: seq<bool>, bits: seq<bool>, i: nat)
    requires i <= |runs| && Sum(runs) < M32 && Toggled(was, runs[..i], bits)
    ensures Sum(runs[..i]) < M32
    ensures var d := TakeRuns(RunBytes(runs[i..]) + rest, bits, i, |runs|, Sum(runs[..i]));
            d.rest == rest && Toggled(was, runs, d.bits)
    decreases |runs| - i
  {
    hide TakeVarint, Leb, Painted, Toggled, Flip, RunBytes;
    SumUp(runs, i);
    if i == |runs| {
      assert runs[..i] == runs && runs[i..] == [];
      NoBytes(rest);
    } else {
      SumUp(runs, i + 1);
      assert runs[..i + 1][..i] == runs[..i];
      var tail := RunBytes(runs[i + 1..]) + rest;
      BytesAhead(runs, i, rest);
      assert runs[i] < M32;
      NumberBack(runs[i], tail);
      OneRun(was, runs, i, bits);
      var pos := Sum(runs[..i]);
      assert Wrap(pos + runs[i]) == Sum(runs[..i + 1]);
      RunsBack(runs, rest, was, if i % 2 == 1 then Flip(bits, pos, Sum(runs[..i + 1])) else bits, i + 1);
    }
  }

  lemma FrameBack(runs: seq<nat>, rest: seq<Byte>, was: seq<bool>)
    requires |runs| < M32 && Sum(runs) < M32
    ensures var d := TakeFrame(FrameBytes(runs) + rest, was); d.rest == rest && Toggled(was, runs, d.bits)
  {
    hide TakeVarint, Leb, TakeRuns;
    assert FrameBytes(runs) + rest == Leb(|runs|) + (RunBytes(runs) + rest);
    NumberBack(|runs|, RunBytes(runs) + rest);
    assert runs[0..] == runs && runs[..0] == [];
    RunsBack(runs, rest, was, was, 0);
  }

  /** The example of DWARF 5, section 7.6. */
  lemma KnownLeb()
    ensures Leb(624485) == [0xe5, 0x8e, 0x26] && Leb(127) == [127] && Leb(128) == [0x80, 1]
  {
    assert Leb(38) == [38];
    assert Leb(4878) == [0x8e] + Leb(38);
    assert Leb(624485) == [0xe5] + Leb(4878);
    assert Leb(1) == [1];
  }

  /** The bytes 2, 2, 3 are two runs: two pixels stay and three change. */
  lemma KnownFrame(bits: seq<bool>, rest: seq<Byte>)
    requires 5 <= |bits| < M32
    ensures TakeFrame([2, 2, 3] + rest, bits) == Decoded(rest, Flip(bits, 2, 5))
  {
    hide TakeFrame, Flip, Painted, Leb;
    FrameBack([2, 3], rest, bits);
    TwoRuns();
    TwoPainted();
    var d := TakeFrame([2, 2, 3] + rest, bits);
    FlippedIs(bits, d.bits);
  }

  lemma FlippedIs(was: seq<bool>, now: seq<bool>)
    requires |now| == |was| && forall k :: 0 <= k < |was| ==> now[k] == (was[k] != (2 <= k < 5))
    ensures now == Flip(was, 2, 5)
  {
  }

  lemma TwoRuns()
    ensures FrameBytes([2, 3]) == [2, 2, 3] && Sum([2, 3]) == 5
  {
    assert Leb(2) == [2] && Leb(3) == [3];
    hide Leb;
    assert [2, 3][..1] == [2] && [2][..0] == [];
    assert RunBytes([2]) == [] + Leb(2) && RunBytes([2, 3]) == RunBytes([2]) + Leb(3);
    assert Sum([2]) == 2;
  }

  lemma TwoPainted()
    ensures forall k: nat :: Painted([2, 3], k) <==> 2 <= k < 5
  {
    assert [2, 3][..1] == [2] && [2][..0] == [];
    assert Sum([2]) == 2 && Sum([2, 3]) == 5;
    forall k: nat ensures Painted([2, 3], k) <==> 2 <= k < 5 {
      assert !Painted([2], k);
    }
  }
}

/** mkbadapple.py */
module VideoWriter {
  import opened Machine
  import opened RunCode

  /** Where the last run of equal values starts. */
  function LastStart(d: seq<bool>): (k: nat)
    requires d != []
    ensures k < |d| && (forall i :: k <= i < |d| ==> d[i] == d[|d| - 1]) && (k > 0 ==> d[k - 1] != d[k])
  {
    var m := |d| - 1;
    if m == 0 || d[m - 1] != d[m] then m else LastStart(d[..m])
  }

  /** The lengths of the runs of equal values. */
  function Lengths(d: seq<bool>): seq<nat> {
    if d == [] then [] else Lengths(d[..LastStart(d)]) + [|d| - LastStart(d)]
  }

  /** With an empty unchanged run in front if the first pixel toggles. */
  function Led(d: seq<bool>): seq<nat> {
    if d != [] && d[0] then [0] + Lengths(d) else Lengths(d)
  }

  /** And without an unchanged run at the end: the runs of a frame. */
  function RunsOf(d: seq<bool>): seq<nat> {
    if true !in d then [] else if |Led(d)| % 2 == 1 then Led(d)[..|Led(d)| - 1] else Led(d)
  }

  /** varint */
  method Varint(value: nat, out: seq<Byte>) returns (r: seq<Byte>)
    ensures r == out + Leb(value)
  {
    var v := value;
    r := out;
    while v >= 0x80
      invariant r + Leb(v) == out + Leb(value)
    {
      r := r + [v % 0x80 + 0x80];
      v := v / 0x80;
    }
    r := r + [v];
  }

  lemma LastStartStep(d: seq<bool>, i: nat)
    requires 1 <= i < |d|
    ensures LastStart(d[..i + 1]) == if d[i] != d[i - 1] then i else LastStart(d[..i])
  {
    assert d[..i + 1][..i] == d[..i];
  }

  lemma LengthsStep(d: seq<bool>, bound: nat, i: nat)
    requires bound < i <= |d| && LastStart(d[..i]) == bound
    ensures Lengths(d[..i]) == Lengths(d[..bound]) + [i - bound]
  {
    assert d[..i][..bound] == d[..bound];
  }

  /** The edges and lengths of encode_frame, in one pass. */
  method Measure(d: seq<bool>) returns (lengths: seq<nat>)
    requires d != []
    ensures lengths == Lengths(d)
  {
    lengths := [];
    var bound := 0;
    var i := 1;
    assert Lengths(d[..0]) == [];
    assert LastStart(d[..1]) == 0;
    hide Lengths, LastStart;
    while i < |d|
      invariant 1 <= i <= |d| && 0 <= bound < i
      invariant lengths == Lengths(d[..bound])
      invariant LastStart(d[..i]) == bound
    {
      LastStartStep(d, i);
      if d[i] != d[i - 1] {
        LengthsStep(d, bound, i);
        lengths := lengths + [i - bound];
        bound := i;
      }
      i := i + 1;
    }
    LengthsStep(d, bound, |d|);
    assert d[..|d|] == d;
    lengths := lengths + [|d| - bound];
  }

  /** encode_frame */
  method EncodeFrame(d: seq<bool>, out: seq<Byte>) returns (r: seq<Byte>)
    requires d != []
    ensures r == out + FrameBytes(RunsOf(d))
  {
    var runs: seq<nat> := [];
    if true in d {
      var lengths := Measure(d);
      if d[0] {
        runs := [0];
      }
      runs := runs + lengths;
      if |runs| % 2 == 1 {
        runs := runs[..|runs| - 1];
      }
    }
    assert runs == RunsOf(d);
    r := WriteRuns(runs, out);
  }

  method WriteRuns(runs: seq<nat>, out: seq<Byte>) returns (r: seq<Byte>)
    ensures r == out + FrameBytes(runs)
  {
    hide Leb;
    r := Varint(|runs|, out);
    ghost var at := r;
    var j := 0;
    while j < |runs|
      invariant 0 <= j <= |runs|
      invariant r == at + RunBytes(runs[..j])
    {
      assert runs[..j + 1][..j] == runs[..j];
      r := Varint(runs[j], r);
      j := j + 1;
    }
    assert runs[..|runs|] == runs;
  }

  /** The runs tile the pixels and toggle exactly those set. */
  ghost predicate Codes(runs: seq<nat>, d: seq<bool>) {
    Sum(runs) == |d| && |runs| <= |d| + 1 && forall k :: 0 <= k < |d| ==> Painted(runs, k) == d[k]
  }

  lemma NoPixels()
    ensures Codes([], []) && Codes([0], [])
  {
    assert [0][..0] == [];
  }

  /** One more run, of the value whose turn it is. */
  lemma OneMoreRun(runs: seq<nat>, front: seq<bool>, d: seq<bool>)
    requires Codes(runs, front) && |front| < |d| && d[..|front|] == front
    requires forall k :: |front| <= k < |d| ==> d[k] == (|runs| % 2 == 1)
    ensures Codes(runs + [|d| - |front|], d)
  {
    var more := runs + [|d| - |front|];
    assert more[..|runs|] == runs;
    forall k | 0 <= k < |d| ensures Painted(more, k) == d[k] {
      if k < |front| {
        assert front[k] == d[k];
      }
    }
  }

  lemma {:induction false} LedRight(d: seq<bool>)
    requires d != []
    ensures Codes(Led(d), d) && Led(d) != [] && d[|d| - 1] == (|Led(d)| % 2 == 0)
    decreases |d|
  {
    hide Codes, Painted, Sum;
    var s := LastStart(d);
    var front := d[..s];
    if s == 0 {
      NoPixels();
      assert front == [] && Lengths(front) == [] && Lengths(d) == [|d|];
      OneMoreRun(if d[0] then [0] else [], [], d);
      assert Led(d) == (if d[0] then [0] else []) + [|d| - 0];
    } else {
      LedRight(front);
      assert front[s - 1] == d[s - 1];
      OneMoreRun(Led(front), front, d);
      assert Led(d) == Led(front) + [|d| - s];
    }
  }

  lemma RunsRight(d: seq<bool>)
    ensures Sum(RunsOf(d)) <= |d| && |RunsOf(d)| <= |d| + 1
    ensures forall k :: 0 <= k < |d| ==> Painted(RunsOf(d), k) == d[k]
  {
    if true !in d {
      assert forall k :: 0 <= k < |d| ==> d[k] in d;
    } else {
      LedRight(d);
      var led := Led(d);
      hide Led;
      if |led| % 2 == 1 {
        var runs := led[..|led| - 1];
        forall k | 0 <= k < |d| ensures Painted(runs, k) == d[k] {
          assert Painted(led, k) == d[k];
          if Sum(runs) <= k && Painted(runs, k) {
            PaintedWithin(runs, k);
          }
        }
      }
    }
  }

  // ---- the whole video ----

  function Black(n: nat): (r: seq<bool>)
    ensures |r| == n && forall k :: 0 <= k < n ==> !r[k]
  {
    if n == 0 then [] else [false] + Black(n - 1)
  }

  /** cur ^ prev */
  function Xor(a: seq<bool>, b: seq<bool>): (r: seq<bool>)
    requires |a| == |b|
    ensures |r| == |a| && forall k :: 0 <= k < |a| ==> r[k] == (a[k] != b[k])
  {
    if a == [] then [] else [a[0] != b[0]] + Xor(a[1..], b[1..])
  }

  /** Frames of n pixels. */
  predicate Video(frames: seq<seq<bool>>, n: nat) {
    forall i :: 0 <= i < |frames| ==> |frames[i]| == n
  }

  function Shown(frames: seq<seq<bool>>, n: nat): (f: seq<bool>)
    requires Video(frames, n)
    ensures |f| == n
  {
    if frames == [] then Black(n) else frames[|frames| - 1]
  }

  /** The bytes of the frames from the i-th on, each coded against the one before. */
  function Stream(frames: seq<seq<bool>>, i: nat, n: nat): seq<Byte>
    requires Video(frames, n) && i <= |frames|
    decreases |frames| - i
  {
    if i == |frames| then []
    else FrameBytes(RunsOf(Xor(frames[i], Shown(frames[..i], n)))) + Stream(frames, i + 1, n)
  }

  lemma StreamStep(frames: seq<seq<bool>>, i: nat, n: nat)
    requires Video(frames, n) && i < |frames|
    ensures Stream(frames, i, n) ==
            FrameBytes(RunsOf(Xor(frames[i], Shown(frames[..i], n)))) + Stream(frames, i + 1, n)
    ensures Shown(frames[..i + 1], n) == frames[i]
  {
  }

  lemma Associative(a: seq<Byte>, b: seq<Byte>, c: seq<Byte>)
    ensures a + (b + c) == a + b + c
  {
  }

  /** The loop of main. */
  method EncodeVideo(frames: seq<seq<bool>>, n: nat) returns (video: seq<Byte>)
    requires n > 0 && Video(frames, n)
    ensures video == Stream(frames, 0, n)
  {
    video := [];
    var prev := Black(n);
    assert frames[..0] == [] && Stream(frames, |frames|, n) == [];
    hide FrameBytes, RunsOf, Stream, Shown, Xor;
    var i := 0;
    while i < |frames|
      invariant 0 <= i <= |frames| && prev == Shown(frames[..i], n)
      invariant video + Stream(frames, i, n) == Stream(frames, 0, n)
    {
      StreamStep(frames, i, n);
      var cur := frames[i];
      Associative(video, FrameBytes(RunsOf(Xor(cur, prev))), Stream(frames, i + 1, n));
      video := EncodeFrame(Xor(cur, prev), video);
      prev := cur;
      i := i + 1;
    }
    assert video + [] == video;
  }

  /** Decoding the next frame from the one before gives the frame, and leaves the rest of the stream. */
  lemma NextFrameBack(frames: seq<seq<bool>>, i: nat, n: nat)
    requires Video(frames, n) && i < |frames| && n + 1 < M32
    ensures TakeFrame(Stream(frames, i, n), Shown(frames[..i], n)) == Decoded(Stream(frames, i + 1, n), frames[i])
    ensures |Stream(frames, i, n)| > |Stream(frames, i + 1, n)|
  {
    hide TakeFrame, RunsOf, Painted;
    var was := Shown(frames[..i], n);
    var diff := Xor(frames[i], was);
    RunsRight(diff);
    FrameBack(RunsOf(diff), Stream(frames, i + 1, n), was);
    var d := TakeFrame(Stream(frames, i, n), was);
    assert d.bits == frames[i];
  }
}

/** badapple.c */
module VideoPlayer {
  import opened Arith
  import opened Machine
  import opened RunCode
  import opened VideoWriter

  const VBUF_SIZE: nat := 16384

  class Player {
    /** The bytes at hand are data[vptr..vend]: the stream buffer in USB mode, the whole file in RAM. */
    const data: array<Byte>
    var vptr: nat
    var vend: nat
    const fromUsb: bool
    /** What the stick has still to give, and how much it gives at each coming read (then all asked for). */
    var file: seq<Byte>
    var cuts: seq<nat>
    var vleft: nat
    const vidW: nat
    const vidH: nat
    const bitmap: array<bool>

    ghost predicate Valid()
      reads this, data
    {
      && 1 <= vidW <= 640 && 1 <= vidH <= 360 && bitmap.Length == vidW * vidH
      && vptr <= vend <= data.Length && vleft == |file|
      && (fromUsb ==> data.Length == VBUF_SIZE) && (!fromUsb ==> file == [])
    }

    /** The part of the stream not yet decoded. */
    ghost function Ahead(): seq<Byte>
      reads this, data
      requires vptr <= vend <= data.Length
    {
      data[vptr..vend] + file
    }

    /** Streaming from USB. */
    constructor Usb(video: seq<Byte>, amounts: seq<nat>, w: nat, h: nat)
      requires 1 <= w <= 640 && 1 <= h <= 360
      ensures Valid() && Ahead() == video && fromUsb && fresh(data) && fresh(bitmap)
      ensures bitmap[..] == Black(w * h) && vidW == w && vidH == h
    {
      var b := new Byte[VBUF_SIZE](_ => 0);
      var m := new bool[w * h](_ => false);
      data, bitmap, vidW, vidH, fromUsb := b, m, w, h, true;
      vptr, vend, file, vleft, cuts := 0, 0, video, |video|, amounts;
    }

    /** From RAM. */
    constructor Ram(video: array<Byte>, w: nat, h: nat)
      requires 1 <= w <= 640 && 1 <= h <= 360
      ensures Valid() && Ahead() == video[..] && !fromUsb && data == video && fresh(bitmap)
      ensures bitmap[..] == Black(w * h) && vidW == w && vidH == h
    {
      var m := new bool[w * h](_ => false);
      data, bitmap, vidW, vidH, fromUsb := video, m, w, h, false;
      vptr, vend, file, vleft, cuts := 0, video.Length, [], 0, [];
    }

    /** ufs_read of the video file: some of what was asked for, at least a byte. */
    method ReadFile(most: nat) returns (n: nat)
      requires Valid() && fromUsb && 1 <= most <= VBUF_SIZE && most <= |file|
      modifies this`file, this`cuts, data
      ensures 1 <= n <= most && file == old(file)[n..]
      ensures data[..n] == old(file)[..n]
    {
      n := most;
      if cuts != [] {
        n := if 1 <= cuts[0] <= most then cuts[0] else most;
        cuts := cuts[1..];
      }
      var i := 0;
      while i < n
        invariant 0 <= i <= n
        invariant data[..i] == file[..i]
        modifies data
      {
        data[i] := file[i];
        i := i + 1;
      }
      file := file[n..];
    }

    /** video_refill, when the buffer is used up: nothing of the stream is lost. */
    method Refill() returns (more: bool)
      requires Valid() && vptr == vend
      modifies this`vptr, this`vend, this`file, this`cuts, this`vleft, data
      ensures Valid() && Ahead() == old(Ahead())
      ensures more ==> vptr < vend
      ensures !more ==> Ahead() == [] && vptr == vend
    {
      if !fromUsb || vleft == 0 {
        return false;
      }
      var n := ReadFile(if vleft < VBUF_SIZE then vleft else VBUF_SIZE);
      vleft := vleft - n;
      vptr := 0;
      vend := n;
      more := n > 0;
    }

    /** vbyte */
    method VByte() returns (b: Byte)
      requires Valid()
      modifies this`vptr, this`vend, this`file, this`cuts, this`vleft, data
      ensures Valid() && Taken(b, Ahead()) == TakeByte(old(Ahead()))
    {
      if vptr >= vend {
        var more := Refill();
        if !more {
          return 0;
        }
      }
      b := data[vptr];
      vptr := vptr + 1;
    }

    /** varint */
    method VarintValue() returns (v: u32)
      requires Valid()
      modifies this`vptr, this`vend, this`file, this`cuts, this`vleft, data
      ensures Valid() && Taken(v, Ahead()) == TakeVarint(old(Ahead()), 0, 0)
    {
      hide TakeVarint, TakeByte, Or, Shl, Wrap;
      v := 0;
      var shift := 0;
      while true
        invariant Valid() && 0 <= shift <= 35
        invariant TakeVarint(Ahead(), v, shift) == TakeVarint(old(Ahead()), 0, 0)
        decreases 35 - shift
      {
        VarintStep(Ahead(), v, shift);
        var b := VByte();
        OrWord(v, Shl(b % 0x80, shift));
        v := Or(v, Shl(b % 0x80, shift));
        if b < 0x80 || shift > 28 {
          return;
        }
        shift := shift + 7;
      }
    }

    /** toggle_run, row by row; the part of the run past the last pixel is ignored. */
    method ToggleRun(start: u32, len: u32)
      requires Valid()
      modifies bitmap
      ensures bitmap[..] == Flip(old(bitmap[..]), start, Wrap(start + len))
    {
      var end := Wrap(start + len);
      FlipWhole(bitmap[..], start, end);
      if end > vidW * vidH {
        end := vidW * vidH;
      }
      if start < end {
        DivBounds(start, vidW);
        ToggleRows(start, end, start / vidW * vidW);
      }
    }

    /** The outer loop, from the row that begins at pixel `row` on. */
    method ToggleRows(start: nat, end: nat, row: nat)
      requires start < end <= bitmap.Length && row <= start < row + vidW
      modifies bitmap
      ensures bitmap[..] == Flip(old(bitmap[..]), start, end)
    {
      hide Flip;
      ghost var was := bitmap[..];
      var pos, at, x := start, row, start - row;
      FlipNone(was, start, start);
      while pos < end
        invariant at >= 0 && start <= pos <= end && (pos < end ==> pos == at + x && 0 <= x < vidW)
        invariant bitmap[..] == Flip(was, start, pos)
        decreases end - pos
      {
        pos := ToggleRow(start, at, x, pos, end, was);
        x := 0;
        at := at + vidW;
      }
    }

    /** The inner loop: up to the end of the row or of the run. */
    method ToggleRow(start: nat, row: nat, column: nat, from: nat, end: nat, ghost was: seq<bool>) returns (pos: nat)
      requires start <= from < end <= bitmap.Length && from == row + column && column < vidW
      requires |was| == bitmap.Length && bitmap[..] == Flip(was, start, from)
      modifies bitmap
      ensures from < pos <= end && (pos == end || pos == row + vidW)
      ensures bitmap[..] == Flip(was, start, pos)
    {
      hide Flip;
      pos := from;
      var x := column;
      while x < vidW && pos < end
        invariant from <= pos <= end && pos == row + x && column <= x <= vidW
        invariant bitmap[..] == Flip(was, start, pos)
      {
        FlipOne(was, start, pos);
        bitmap[row + x] := !bitmap[row + x];
        x := x + 1;
        pos := pos + 1;
      }
    }

    /** next_video_frame */
    method NextVideoFrame() returns (ok: bool)
      requires Valid()
      modifies this`vptr, this`vend, this`file, this`cuts, this`vleft, data, bitmap
      ensures Valid()
      ensures ok <==> old(Ahead()) != []
      ensures !ok ==> Ahead() == [] && bitmap[..] == old(bitmap[..])
      ensures ok ==> Decoded(Ahead(), bitmap[..]) == TakeFrame(old(Ahead()), old(bitmap[..]))
    {
      if vptr >= vend {
        var more := Refill();
        if !more {
          return false;
        }
      }
      hide TakeFrame, TakeRuns, TakeVarint, Flip, Wrap;
      FrameStep(Ahead(), bitmap[..]);
      var runs := VarintValue();
      RunLoop(runs);
      ok := true;
    }

    method RunLoop(runs: u32)
      requires Valid()
      modifies this`vptr, this`vend, this`file, this`cuts, this`vleft, data, bitmap
      ensures Valid() && Decoded(Ahead(), bitmap[..]) == TakeRuns(old(Ahead()), old(bitmap[..]), 0, runs, 0)
    {
      hide TakeRuns, TakeVarint, Flip, Wrap;
      var pos: u32 := 0;
      var i := 0;
      while i < runs
        invariant Valid() && 0 <= i <= runs
        invariant TakeRuns(Ahead(), bitmap[..], i, runs, pos) == TakeRuns(old(Ahead()), old(bitmap[..]), 0, runs, 0)
      {
        RunsStep(Ahead(), bitmap[..], i, runs, pos);
        var len := VarintValue();
        if i % 2 == 1 {
          ToggleRun(pos, len);
        }
        pos := Wrap(pos + len);
        i := i + 1;
      }
      RunsEnd(Ahead(), bitmap[..], i, runs, pos);
    }
  }

  lemma FlipNone(bits: seq<bool>, pos: nat, end: nat)
    requires end <= pos
    ensures Flip(bits, pos, end) == bits
  {
  }

  lemma FlipOne(was: seq<bool>, start: nat, pos: nat)
    requires start <= pos < |was|
    ensures var bits := Flip(was, start, pos); bits[pos := !bits[pos]] == Flip(was, start, pos + 1)
  {
  }

  /** Pixels past the last one do not count. */
  lemma FlipWhole(was: seq<bool>, start: nat, end: nat)
    ensures Flip(was, start, end) == if start < Min(end, |was|) then Flip(was, start, Min(end, |was|)) else was
  {
  }

  lemma FrameStep(s: seq<Byte>, bits: seq<bool>)
    ensures var t := TakeVarint(s, 0, 0); TakeFrame(s, bits) == TakeRuns(t.rest, bits, 0, t.v, 0)
  {
  }

  lemma RunsStep(s: seq<Byte>, bits: seq<bool>, i: nat, n: nat, pos: u32)
    requires i < n
    ensures var t := TakeVarint(s, 0, 0);
            TakeRuns(s, bits, i, n, pos) ==
            TakeRuns(t.rest, if i % 2 == 1 then Flip(bits, pos, Wrap(pos + t.v)) else bits, i + 1, n, Wrap(pos + t.v))
  {
  }

  lemma RunsEnd(s: seq<Byte>, bits: seq<bool>, i: nat, n: nat, pos: u32)
    requires i >= n
    ensures TakeRuns(s, bits, i, n, pos) == Decoded(s, bits)
  {
  }

  lemma PlayStart(frames: seq<seq<bool>>, n: nat)
    requires Video(frames, n)
    ensures frames[..0] == [] && frames[..|frames|] == frames
    ensures Shown(frames[..0], n) == Black(n) && Stream(frames, |frames|, n) == []
  {
  }

  /** A video written by mkbadapple.py and played by badapple.c: every call shows the next frame exactly,
      wherever the reads from the stick cut the stream, and the call after the last finds the end. */
  method Play(frames: seq<seq<bool>>, w: nat, h: nat, amounts: seq<nat>) returns (shown: seq<seq<bool>>, more: bool)
    requires 1 <= w <= 640 && 1 <= h <= 360 && Video(frames, w * h)
    ensures shown == frames && !more
  {
    hide TakeFrame, Stream, Black;
    MulLe(w, 640, h);
    MulLe(h, 360, 640);
    MulLe(1, w, h);
    assert w * h < M32 - 1;
    PlayStart(frames, w * h);
    var video := EncodeVideo(frames, w * h);
    var player := new Player.Usb(video, amounts, w, h);
    shown := [];
    var i := 0;
    while i < |frames|
      invariant 0 <= i <= |frames| && player.Valid() && player.vidW == w && player.vidH == h
      invariant shown == frames[..i] && player.bitmap[..] == Shown(frames[..i], w * h)
      invariant player.Ahead() == Stream(frames, i, w * h)
    {
      NextFrameBack(frames, i, w * h);
      more := player.NextVideoFrame();
      shown := shown + [player.bitmap[..]];
      i := i + 1;
    }
    more := player.NextVideoFrame();
  }
}
