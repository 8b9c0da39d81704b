/** bench/ref_sf2.c: mixing one SoundFont voice into a block. */
module VoiceModel {
  import opened Arith
  import opened Machine

  const BLOCK: int := 32
  const ONE: int := 65536           // a whole sample step, 16.16

  /** What one call of mix_voice sees of a voice: the sample data up to its end, the loop, the
      step and the gains. `data` ends where the voice does, so every read is inside it. */
  datatype Voice = Voice(data: seq<int>, step: u32, loopStart: nat, loopEnd: nat, looping: bool, gl: int, gr: int) {
    ghost predicate Valid() {
      && 1 <= |data| < 0x8000_0000
      && step + ONE <= M32                                   // frac + step does not wrap
      && (looping ==> loopStart < loopEnd <= |data|)
    }

    /** The linear interpolation and gain of one output sample. */
    function Mixed(pos: nat, frac: nat, gain: int): int
      requires pos + 1 < |data|
    {
      var a, b := data[pos], data[pos + 1];
      (a + (b - a) * frac / ONE) * gain / 0x8000
    }

    function LoopLength(): int { loopEnd - loopStart }

    /** One look at the loop end. */
    function Wrapped(pos: nat): nat
      requires Valid()
    {
      if looping && pos >= loopEnd then pos - LoopLength() else pos
    }

    function Next(at: At): At {
      At(at.pos + (at.frac + step) / ONE, (at.frac + step) % ONE)
    }

    /** The plain meaning: before every sample look at the loop end once and stop at the end
        of the data; after the last one look at the loop end once more. */
    function Play(at: At, n: nat): Result
      requires Valid()
      decreases n
    {
      if n == 0 then Result([], [], At(Wrapped(at.pos), at.frac), true)
      else
        var here := At(Wrapped(at.pos), at.frac);
        if here.pos + 1 >= |data| then Result(Zeros(n), Zeros(n), here, false)
        else
          Prepend([Mixed(here.pos, here.frac, gl)], [Mixed(here.pos, here.frac, gr)], Play(Next(here), n - 1))
    }

    /** Nothing is checked before this position. */
    function Bound(): int {
      if looping && loopEnd < |data| - 1 then loopEnd else |data| - 1
    }

    /** The position after i unchecked samples. */
    function After(at: At, i: nat): At {
      At(at.pos + (at.frac + i * step) / ONE, (at.frac + i * step) % ONE)
    }

    /** How many samples mix_voice runs without a check, from a position below the bound. */
    function RunLength(at: At, n: nat): nat
      requires at.pos < Bound() && at.frac < ONE
    {
      var dist := Bound() - at.pos;
      if dist > 0xffff || step > 0x400_0000 then
        if step > 0x400_0000 then 1 else n
      else
        (dist * ONE - at.frac - 1) / (if step == 0 then 1 else step) + 1
    }
  }

  function Zeros(n: nat): (s: seq<int>)
    ensures |s| == n && forall i :: 0 <= i < n ==> s[i] == 0
  {
    seq(n, _ => 0)
  }

  /** 16.16 position in the data. */
  datatype At = At(pos: nat, frac: nat)

  /** What a call adds to the two buffers, where the voice stands, and whether it goes on. */
  datatype Result = Result(left: seq<int>, right: seq<int>, at: At, active: bool)

  function Prepend(left: seq<int>, right: seq<int>, r: Result): Result {
    r.(left := left + r.left, right := right + r.right)
  }

  lemma PrependNothing(r: Result)
    ensures Prepend([], [], r) == r
  {
    assert [] + r.left == r.left && [] + r.right == r.right;
  }

  lemma PrependTwice(l1: seq<int>, r1: seq<int>, l2: seq<int>, r2: seq<int>, r: Result)
    ensures Prepend(l1, r1, Prepend(l2, r2, r)) == Prepend(l1 + l2, r1 + r2, r)
  {
    assert l1 + (l2 + r.left) == (l1 + l2) + r.left;
    assert r1 + (r2 + r.right) == (r1 + r2) + r.right;
  }

  lemma {:induction false} PlayLength(v: Voice, at: At, n: nat)
    requires v.Valid()
    ensures |v.Play(at, n).left| == n == |v.Play(at, n).right|
    decreases n
  {
    if n > 0 {
      PlayLength(v, v.Next(At(v.Wrapped(at.pos), at.frac)), n - 1);
    }
  }

  lemma AfterStep(v: Voice, at: At, i: nat)
    requires at.frac < ONE
    ensures v.After(at, i + 1) == v.Next(v.After(at, i))
    ensures v.After(at, 0) == at
  {
    assert (i + 1) * v.step == i * v.step + v.step;
  }

  /** The closed form for the run length is right: every sample of the run starts below the
      bound, for blocks of up to 64 samples. */
  lemma RunStaysBelow(v: Voice, at: At, n: nat, i: nat)
    requires v.Valid() && at.pos < v.Bound() && at.frac < ONE && n <= 64
    requires i < Min(v.RunLength(at, n), n)
    ensures v.After(at, i).pos < v.Bound()
  {
    var dist := v.Bound() - at.pos;
    if v.step > 0x400_0000 {
      assert i * v.step == 0;
    } else if dist > 0xffff {
      MulLe(i, 63, v.step);
    } else if v.step == 0 {
    } else {
      DivBounds(dist * ONE - at.frac - 1, v.step);
      MulLe(i, v.RunLength(at, n) - 1, v.step);
    }
  }

  lemma AfterShift(v: Voice, at: At, i: nat)
    requires at.frac < ONE
    ensures v.After(v.Next(at), i) == v.After(at, i + 1)
  {
    var x, y := at.frac + v.step, i * v.step;
    assert (i + 1) * v.step == y + v.step;
    assert (x % ONE + y) / ONE + x / ONE == (x + y) / ONE;
    assert (x % ONE + y) % ONE == (x + y) % ONE;
  }

  /** m samples that all start below the bound. */
  ghost predicate Below(v: Voice, at: At, m: nat)
    decreases m
  {
    m > 0 ==> at.pos < v.Bound() && Below(v, v.Next(at), m - 1)
  }

  /** The run length of mix_voice never steps over the bound. */
  lemma {:induction false} RunIsBelow(v: Voice, at: At, from: nat, m: nat)
    requires v.Valid() && at.frac < ONE
    requires forall i: nat {:trigger v.After(at, i)} :: i < from + m ==> v.After(at, i).pos < v.Bound()
    ensures Below(v, v.After(at, from), m)
    decreases m
  {
    if m > 0 {
      AfterStep(v, at, from);
      RunIsBelow(v, at, from + 1, m - 1);
    }
  }

  lemma BelowRun(v: Voice, at: At, n: nat, k: nat)
    requires v.Valid() && at.pos < v.Bound() && at.frac < ONE && n <= 64 && k == v.RunLength(at, n)
    ensures Below(v, at, Min(k, n))
  {
    var m := Min(k, n);
    forall i: nat {:trigger v.After(at, i)} | i < m
      ensures v.After(at, i).pos < v.Bound()
    {
      RunStaysBelow(v, at, n, i);
    }
    AfterStep(v, at, 0);
    RunIsBelow(v, at, 0, m);
  }

  /** Below the bound the checks of sample-by-sample playing do nothing. */
  lemma OneBelow(v: Voice, at: At, n: nat)
    requires v.Valid() && at.pos < v.Bound() && n > 0
    ensures v.Play(at, n) ==
            Prepend([v.Mixed(at.pos, at.frac, v.gl)], [v.Mixed(at.pos, at.frac, v.gr)], v.Play(v.Next(at), n - 1))
  {
  }

  /** m unchecked samples on one side. */
  function Run(v: Voice, at: At, m: nat, gain: int): (r: seq<int>)
    requires Readable(v, at, m)
    ensures |r| == m
    decreases m
  {
    if m == 0 then [] else [v.Mixed(at.pos, at.frac, gain)] + Run(v, v.Next(at), m - 1, gain)
  }

  ghost predicate Readable(v: Voice, at: At, m: nat)
    decreases m
  {
    m > 0 ==> at.pos + 1 < |v.data| && Readable(v, v.Next(at), m - 1)
  }

  lemma {:induction false} BelowReadable(v: Voice, at: At, m: nat)
    requires Below(v, at, m)
    ensures Readable(v, at, m)
    decreases m
  {
    if m > 0 {
      BelowReadable(v, v.Next(at), m - 1);
    }
  }

  /** A run below the bound is what sample-by-sample checking plays. */
  lemma {:induction false} RunPlays(v: Voice, at: At, m: nat, n: nat)
    requires v.Valid() && at.frac < ONE && m <= n && Below(v, at, m) && Readable(v, at, m)
    ensures v.Play(at, n) == Prepend(Run(v, at, m, v.gl), Run(v, at, m, v.gr), v.Play(v.After(at, m), n - m))
    decreases m
  {
    if m == 0 {
      AfterStep(v, at, 0);
      PrependNothing(v.Play(at, n));
    } else {
      OneBelow(v, at, n);
      AfterShift(v, at, m - 1);
      RunPlays(v, v.Next(at), m - 1, n - 1);
      OneAndRun(v, at, m, n);
    }
  }

  lemma OneAndRun(v: Voice, at: At, m: nat, n: nat)
    requires v.Valid() && 0 < m <= n && Readable(v, at, m)
    requires v.Play(at, n) ==
             Prepend([v.Mixed(at.pos, at.frac, v.gl)], [v.Mixed(at.pos, at.frac, v.gr)], v.Play(v.Next(at), n - 1))
    requires v.Play(v.Next(at), n - 1) ==
             Prepend(Run(v, v.Next(at), m - 1, v.gl), Run(v, v.Next(at), m - 1, v.gr), v.Play(v.After(at, m), n - m))
    ensures v.Play(at, n) == Prepend(Run(v, at, m, v.gl), Run(v, at, m, v.gr), v.Play(v.After(at, m), n - m))
  {
    hide Voice.Play, Voice.After, Voice.Next, Voice.Mixed;
    var next := v.Next(at);
    PrependTwice([v.Mixed(at.pos, at.frac, v.gl)], [v.Mixed(at.pos, at.frac, v.gr)],
                 Run(v, next, m - 1, v.gl), Run(v, next, m - 1, v.gr), v.Play(v.After(at, m), n - m));
  }

  /** Without gain a run adds nothing: only the position moves. */
  lemma {:induction false} SilentRun(v: Voice, at: At, m: nat)
    requires Readable(v, at, m)
    ensures Run(v, at, m, 0) == Zeros(m)
    decreases m
  {
    if m > 0 {
      SilentRun(v, v.Next(at), m - 1);
    }
  }

  /** A run ends less than one whole block of 65536 samples past the data. */
  lemma {:induction false} RunEnd(v: Voice, at: At, m: nat)
    requires v.Valid() && at.frac < ONE && m > 0 && Readable(v, at, m)
    ensures v.After(at, m).pos < |v.data| + ONE - 1
    decreases m
  {
    AfterStep(v, at, 0);
    AfterStep(v, at, m - 1);
    AfterShift(v, at, m - 1);
    if m > 1 {
      RunEnd(v, v.Next(at), m - 1);
    }
  }

  /** The loop end, looked at once before a sample. */
  lemma LookOnce(v: Voice, at: At, n: nat)
    requires v.Valid() && n > 0
    ensures var h := At(v.Wrapped(at.pos), at.frac);
            if h.pos + 1 >= |v.data| then v.Play(at, n) == Result(Zeros(n), Zeros(n), h, false)
            else
              && v.Play(at, n) == Prepend(Run(v, h, 1, v.gl), Run(v, h, 1, v.gr), v.Play(v.Next(h), n - 1))
              && (h.pos < v.Bound() ==> v.Play(at, n) == v.Play(h, n))
  {
    hide Voice.Mixed, Voice.Next;
    var h := At(v.Wrapped(at.pos), at.frac);
    if h.pos + 1 < |v.data| {
      assert Run(v, h, 1, v.gl) == [v.Mixed(h.pos, h.frac, v.gl)] + [];
      assert Run(v, h, 1, v.gr) == [v.Mixed(h.pos, h.frac, v.gr)] + [];
    }
  }

  /** A turn of mix_voice's loop plays what sample-by-sample checking plays. */
  lemma TurnPlays(v: Voice, at0: At, at: At, m: nat, n: nat)
    requires v.Valid() && at.frac < ONE && 0 < m <= n && Readable(v, at, m)
    requires at == At(v.Wrapped(at0.pos), at0.frac) && at.pos + 1 < |v.data|
    requires if at.pos < v.Bound() then Below(v, at, m) else m == 1
    ensures v.Play(at0, n) == Prepend(Run(v, at, m, v.gl), Run(v, at, m, v.gr), v.Play(v.After(at, m), n - m))
  {
    LookOnce(v, at0, n);
    AfterStep(v, at, 0);
    hide Voice.Play, Voice.After, Voice.Next;
    if at.pos < v.Bound() {
      RunPlays(v, at, m, n);
    }
  }

  // ---- what is heard ----

  /** At full gain: the sample itself on a whole position, and between two samples never outside them. */
  lemma MixedBetween(v: Voice, pos: nat, frac: nat)
    requires pos + 1 < |v.data| && frac < ONE
    ensures v.Mixed(pos, 0, 0x8000) == v.data[pos]
    ensures var a, b := v.data[pos], v.data[pos + 1];
            Min(a, b) <= v.Mixed(pos, frac, 0x8000) <= a + b - Min(a, b)
    ensures v.Mixed(pos, frac, 0) == 0
  {
    var a, b := v.data[pos], v.data[pos + 1];
    if b >= a {
      MulLe(0, b - a, frac);
      Part(b - a, frac);
    } else {
      Part(a - b, frac);
      assert (b - a) * frac == 0 - (a - b) * frac;
    }
    Whole(a + (b - a) * frac / ONE);
    Whole(a);
    assert (b - a) * 0 == 0;
  }

  lemma Part(d: nat, frac: nat)
    requires frac < ONE
    ensures 0 <= d * frac / ONE <= d && 0 - d <= (0 - d * frac) / ONE <= 0
  {
    assert 0 <= d * frac <= d * ONE;
  }

  lemma Whole(x: int)
    ensures x * 0x8000 / 0x8000 == x
  {
  }

  /** The left gain is heard on the left only, and the right one on the right: a voice panned to one side
      is silent on the other. */
  lemma {:induction false} Panned(v: Voice, at: At, n: nat)
    requires v.Valid()
    ensures v.gl == 0 ==> v.Play(at, n).left == Zeros(n)
    ensures v.gr == 0 ==> v.Play(at, n).right == Zeros(n)
    decreases n
  {
    var here := At(v.Wrapped(at.pos), at.frac);
    if n > 0 && here.pos + 1 < |v.data| {
      Panned(v, v.Next(here), n - 1);
    }
  }

  /** At the loop end a voice is back at the loop's start. */
  lemma LoopsBack(v: Voice)
    requires v.Valid() && v.looping
    ensures v.Wrapped(v.loopEnd) == v.loopStart && forall p: nat :: p < v.loopEnd ==> v.Wrapped(p) == p
  {
  }

  /** A voice that does not loop never goes back, and is at its end exactly when the last of the samples
      would start behind the data. */
  lemma {:induction false} PlaysOut(v: Voice, at: At, n: nat)
    requires v.Valid() && !v.looping && at.frac < ONE
    ensures v.Play(at, n).at.pos >= at.pos
    ensures v.Play(at, n).active <==> n == 0 || at.pos * ONE + at.frac + (n - 1) * v.step < (|v.data| - 1) * ONE
    decreases n
  {
    if n > 0 && at.pos + 1 < |v.data| {
      PlaysOut(v, v.Next(at), n - 1);
      if n > 1 {
        MulSucc(n - 2, v.step);
      }
    } else if n > 0 {
      MulLe(0, n - 1, v.step);
    }
  }

  // ---- playing in blocks ----

  /** Not so far past the loop end that one look leaves it there. */
  predicate Near(v: Voice, at: At) {
    v.looping ==> at.pos < v.loopEnd + v.LoopLength()
  }

  /** How far past the last position that still plays before the loop end one look reaches back:
      the loop, and one sample more if the loop ends with the data. */
  function Reach(v: Voice): int {
    v.LoopLength() + (if v.loopEnd < |v.data| then 0 else 1)
  }

  /** A step no longer than that. A single sample never plays. */
  predicate ShortStep(v: Voice) {
    v.looping && |v.data| >= 2 ==> v.step <= Reach(v) * ONE
  }

  lemma StaysNear(v: Voice, at: At)
    requires v.Valid() && at.frac < ONE && ShortStep(v) && Near(v, at)
    ensures v.Wrapped(at.pos) + 1 < |v.data| ==> Near(v, v.Next(At(v.Wrapped(at.pos), at.frac)))
    ensures v.Next(at).frac < ONE
  {
    if v.looping && |v.data| >= 2 {
      StepBound(at.frac, v.step, Reach(v));
    }
  }

  lemma StepBound(f: nat, step: nat, len: nat)
    requires f < ONE
    ensures step <= len * ONE ==> (f + step) / ONE <= len
    ensures step > len * ONE && f == ONE - 1 ==> (f + step) / ONE > len
  {
  }

  /** From the last position that plays before the loop end, a longer step lands where one look
      does not reach: cut after that sample, the next block looks again and starts elsewhere. */
  lemma LongStepCut(v: Voice)
    requires v.Valid() && !ShortStep(v)
    ensures exists at: At :: at.frac < ONE && Near(v, at) && !InBlocks(v, at, 1, 0)
  {
    var at := At(v.loopEnd - (if v.loopEnd < |v.data| then 1 else 2), ONE - 1);
    StepBound(at.frac, v.step, Reach(v));
    var next := v.Next(at);
    assert v.Wrapped(at.pos) == at.pos && at.pos + 1 < |v.data|;
    assert next.pos >= v.loopEnd + v.LoopLength();
    var a := v.Play(at, 1);
    assert v.Play(next, 0).at == At(v.Wrapped(next.pos), next.frac);
    assert a.active && a.at == At(v.Wrapped(next.pos), next.frac);
    assert v.Play(a.at, 0).at.pos == v.Wrapped(a.at.pos) != a.at.pos;
    assert Near(v, at) && !InBlocks(v, at, 1, 0);
  }

  /** From positions near the loop end or before it, cutting blocks anywhere changes nothing exactly for
      steps no longer than the look reaches. */
  lemma BlocksExact(v: Voice)
    requires v.Valid()
    ensures ShortStep(v) <==>
            forall at: At, n1: nat, n2: nat :: at.frac < ONE && Near(v, at) ==> InBlocks(v, at, n1, n2)
  {
    if ShortStep(v) {
      forall at: At, n1: nat, n2: nat | at.frac < ONE && Near(v, at) ensures InBlocks(v, at, n1, n2) {
        PlayInBlocks(v, at, n1, n2);
      }
    } else {
      LongStepCut(v);
    }
  }

  /** The final look at the loop end takes nothing away from the next block: cutting a block
      anywhere changes neither the samples nor where the voice ends up. */
  lemma {:induction false} PlayInBlocks(v: Voice, at: At, n1: nat, n2: nat)
    requires v.Valid() && at.frac < ONE && ShortStep(v) && Near(v, at)
    ensures InBlocks(v, at, n1, n2)
    decreases n1
  {
    var here := At(v.Wrapped(at.pos), at.frac);
    if n1 == 0 {
      PrependNothing(v.Play(here, n2));
      if n2 > 0 {
        assert v.Wrapped(here.pos) == here.pos;
      }
    } else if here.pos + 1 >= |v.data| {
      assert Zeros(n1) + Zeros(n2) == Zeros(n1 + n2);
    } else {
      StaysNear(v, at);
      PlayInBlocks(v, v.Next(here), n1 - 1, n2);
      CutLater(v, here, n1 - 1, n2);
    }
  }

  /** With such a step, cutting blocks anywhere changes nothing exactly from positions near the loop end or
      before it: further past it, two looks lead elsewhere than one. */
  lemma NearExact(v: Voice, at: At)
    requires v.Valid() && at.frac < ONE && ShortStep(v)
    ensures Near(v, at) <==> forall n1: nat, n2: nat :: InBlocks(v, at, n1, n2)
  {
    if Near(v, at) {
      forall n1: nat, n2: nat ensures InBlocks(v, at, n1, n2) {
        PlayInBlocks(v, at, n1, n2);
      }
    } else {
      var a := v.Play(at, 0);
      assert a.at.pos == v.Wrapped(at.pos) && v.Play(a.at, 0).at.pos == v.Wrapped(a.at.pos) != a.at.pos;
      assert !InBlocks(v, at, 0, 0);
    }
  }

  /** A voice near the loop end stays there: what one call leaves is fit for the next. */
  lemma {:induction false} PlayStaysNear(v: Voice, at: At, n: nat)
    requires v.Valid() && at.frac < ONE && ShortStep(v) && Near(v, at)
    ensures v.Play(at, n).at.frac < ONE && (v.Play(at, n).active ==> Near(v, v.Play(at, n).at))
    decreases n
  {
    var here := At(v.Wrapped(at.pos), at.frac);
    if n > 0 && here.pos + 1 < |v.data| {
      StaysNear(v, at);
      PlayStaysNear(v, v.Next(here), n - 1);
    }
  }

  lemma CutLater(v: Voice, here: At, n1: nat, n2: nat)
    requires v.Valid() && here.pos + 1 < |v.data| && InBlocks(v, v.Next(here), n1, n2)
    ensures var l, r := [v.Mixed(here.pos, here.frac, v.gl)], [v.Mixed(here.pos, here.frac, v.gr)];
            var a := Prepend(l, r, v.Play(v.Next(here), n1));
            Prepend(l, r, v.Play(v.Next(here), n1 + n2)) ==
            if a.active then Prepend(a.left, a.right, v.Play(a.at, n2))
            else Result(a.left + Zeros(n2), a.right + Zeros(n2), a.at, false)
  {
    hide Voice.Play, Voice.Next, Voice.Mixed;
    var l, r := [v.Mixed(here.pos, here.frac, v.gl)], [v.Mixed(here.pos, here.frac, v.gr)];
    var a := v.Play(v.Next(here), n1);
    PrependTwice(l, r, a.left, a.right, v.Play(a.at, n2));
    assert l + (a.left + Zeros(n2)) == (l + a.left) + Zeros(n2);
    assert r + (a.right + Zeros(n2)) == (r + a.right) + Zeros(n2);
  }

  /** Playing n1 + n2 samples at once or in two blocks is the same. */
  ghost predicate InBlocks(v: Voice, at: At, n1: nat, n2: nat)
    requires v.Valid()
  {
    var a := v.Play(at, n1);
    v.Play(at, n1 + n2) ==
    if a.active then Prepend(a.left, a.right, v.Play(a.at, n2))
    else Result(a.left + Zeros(n2), a.right + Zeros(n2), a.at, false)
  }

  /** With a step longer than the loop the cut can be heard as well: the block ends with one look at the loop
      end and the next one starts with a second. */
  lemma CutShows()
    ensures var v := Voice([0, 1, 2, 3, 4, 5, 6, 7], 3 * ONE, 0, 1, true, 0x8000, 0x8000);
            && v.Valid() && !ShortStep(v)
            && v.Play(At(0, 0), 1).at == At(2, 0)
            && v.Play(At(2, 0), 1).left != v.Play(At(0, 0), 2).left[1..]
  {
    var v := Voice([0, 1, 2, 3, 4, 5, 6, 7], 3 * ONE, 0, 1, true, 0x8000, 0x8000);
    assert v.Mixed(1, 0, 0x8000) == 1 && v.Mixed(2, 0, 0x8000) == 2;
    assert v.Play(At(2, 0), 1).left[0] == 1 && v.Play(At(0, 0), 2).left[1] == 2;
  }

  /** So it can with a step of one sample, for a voice whose sample starts further past the loop end than
      the loop is long: in one block its second sample is 4, after a cut it is 3. */
  lemma FarStartShows()
    ensures var v := Voice([0, 1, 2, 3, 4, 5, 6, 7], ONE, 0, 1, true, 0x8000, 0x8000);
            && v.Valid() && ShortStep(v) && !Near(v, At(5, 0))
            && v.Play(At(5, 0), 1).at == At(4, 0)
            && v.Play(At(5, 0), 2).left == [4, 4] && v.Play(At(4, 0), 1).left == [3]
  {
    hide Voice.Play, Voice.Next, Prepend;
    var v := Voice([0, 1, 2, 3, 4, 5, 6, 7], ONE, 0, 1, true, 0x8000, 0x8000);
    assert v.Mixed(4, 0, 0x8000) == 4 && v.Mixed(3, 0, 0x8000) == 3;
    FarCut(v);
  }

  lemma FarCut(v: Voice)
    requires v.Valid() && v.step == ONE && v.looping && v.loopStart == 0 && v.loopEnd == 1 && |v.data| == 8
    ensures v.Play(At(5, 0), 1).at == At(4, 0) && v.Play(At(4, 0), 1).left == [v.Mixed(3, 0, v.gl)]
    ensures v.Play(At(5, 0), 2).left == [v.Mixed(4, 0, v.gl), v.Mixed(4, 0, v.gl)]
  {
    hide Voice.Play, Voice.Mixed;
    Sample(v, At(5, 0), 2);
    Sample(v, At(5, 0), 1);
    Sample(v, At(4, 0), 1);
    assert v.Next(At(4, 0)) == At(5, 0) && v.Next(At(3, 0)) == At(4, 0);
    NoSample(v, At(5, 0));
    NoSample(v, At(4, 0));
  }

  lemma Sample(v: Voice, at: At, n: nat)
    requires v.Valid() && n > 0 && v.Wrapped(at.pos) + 1 < |v.data|
    ensures var h := At(v.Wrapped(at.pos), at.frac);
            && v.Play(at, n).left == [v.Mixed(h.pos, h.frac, v.gl)] + v.Play(v.Next(h), n - 1).left
            && v.Play(at, n).at == v.Play(v.Next(h), n - 1).at
  {
  }

  lemma NoSample(v: Voice, at: At)
    requires v.Valid()
    ensures v.Play(at, 0).left == [] && v.Play(at, 0).at == At(v.Wrapped(at.pos), at.frac)
  {
  }

  /** A second look changes nothing exactly near the loop end. */
  lemma SecondLook(v: Voice, at: At)
    requires v.Valid()
    ensures v.Wrapped(v.Wrapped(at.pos)) == v.Wrapped(at.pos) <==> Near(v, at)
  {
  }
}

module VoiceMixer {
  import opened Arith
  import opened Machine
  import opened VoiceModel

  /** struct voice, as far as mixing goes. */
  class MixerVoice {
    var active: bool
    var samples: seq<int>
    var pos: u32
    var frac: u32
    var step: u32
    var end: u32
    var loopStart: u32
    var loopEnd: u32
    var loopMode: int
    var released: bool
    var gainL: int
    var gainR: int

    ghost predicate Valid()
      reads this
    {
      && 1 <= end <= |samples| && V().Valid()
      && frac < ONE && pos < end + ONE
    }

    ghost function V(): Voice
      requires end <= |samples|
      reads this
    {
      Voice(samples[..end], step, loopStart, loopEnd, loopMode != 0 && (loopMode == 1 || !released), gainL, gainR)
    }

    ghost function Here(): At
      reads this
    {
      At(pos, frac)
    }

    constructor () {
      active := false;
    }

    /** The bounds start_voice gives a voice: the end is clipped to the sample memory and a
        loop that does not fit is switched off, so every started voice can be mixed. */
    method Start(smpl: seq<int>, start: u32, e: u32, ls: u32, le: u32, modes: nat, newStep: u32) returns (ok: bool)
      requires |smpl| < 0x8000_0000 && newStep + ONE <= M32
      modifies this
      ensures ok <==> start < Min(e, |smpl|)
      ensures ok ==> Valid() && active && !released && pos == start && frac == 0 && end == Min(e, |smpl|)
      ensures ok ==> V().looping == (modes % 4 in {1, 3} && ls < le <= end)
      ensures ok ==> (Near(V(), Here()) <==> (V().looping ==> start < le + (le - ls)))
      ensures !ok ==> active == old(active)
    {
      var clipped: u32 := if e > |smpl| then |smpl| else e;
      if start >= clipped {
        return false;
      }
      active, released := true, false;
      samples, pos, frac, step := smpl, start, 0, newStep;
      end, loopStart, loopEnd := clipped, ls, le;
      loopMode := modes % 4;
      if loopMode == 2 || le <= ls || le > clipped {
        loopMode := 0;
      }
      return true;
    }

    /** release_voice, as far as mixing goes: from now on only a voice of mode 1 loops. `delayed` says that
        it has not begun to sound. */
    method Release(delayed: bool)
      requires Valid()
      modifies `released, `active
      ensures Valid() && V() == old(V()).(looping := old(V()).looping && loopMode == 1)
      ensures active == (old(active) && (old(released) || !delayed)) && released
    {
      if released {
        return;
      }
      released := true;
      if delayed {
        active := false;
      }
    }

    /** One turn of the inner loop: a sample is mixed and the position moves on. */
    method MixSample(left: array<int>, right: array<int>, k: nat, p: u32, f: u32) returns (p': u32, f': u32)
      requires Valid() && f < ONE && p + 1 < end
      requires k < left.Length && k < right.Length && left != right
      modifies left, right
      ensures At(p', f') == V().Next(At(p, f)) && f' < ONE
      ensures left[..] == old(left[..])[k := old(left[k]) + V().Mixed(p, f, gainL)]
      ensures right[..] == old(right[..])[k := old(right[k]) + V().Mixed(p, f, gainR)]
    {
      var a, b := samples[p], samples[p + 1];
      var s := a + (b - a) * f / ONE;
      left[k] := left[k] + s * gainL / 0x8000;
      right[k] := right[k] + s * gainR / 0x8000;
      f' := f + step;
      p' := p + f' / ONE;
      f' := f' % ONE;
    }

    /** The inner loop of mix_voice: no check, no access to the voice. */
    method MixLoud(left: array<int>, right: array<int>, off: nat, p: u32, f: u32, m: nat) returns (p': u32, f': u32)
      requires Valid() && f < ONE && Readable(V(), At(p, f), m)
      requires off + m <= left.Length && off + m <= right.Length && left != right
      modifies left, right
      ensures At(p', f') == V().After(At(p, f), m) && f' < ONE
      ensures Added(left[..], old(left[..]), off, Run(V(), At(p, f), m, gainL))
      ensures Added(right[..], old(right[..]), off, Run(V(), At(p, f), m, gainR))
    {
      ghost var v, here := V(), At(p, f);
      ghost var l, r := Run(v, here, m, gainL), Run(v, here, m, gainR);
      p', f' := p, f;
      AfterStep(v, here, 0);
      for i := 0 to m
        invariant f' < ONE && MidRun(v, here, m, At(p', f'), i, l, r)
        invariant Added(left[..], old(left[..]), off, l[..i])
        invariant Added(right[..], old(right[..]), off, r[..i])
      {
        ghost var l0, r0 := left[..], right[..];
        MidStep(v, here, m, At(p', f'), i, l, r);
        hide Voice.Next, Voice.Mixed, Added, MidRun;
        p', f' := MixSample(left, right, off + i, p', f');
        AddedOne(left[..], l0, old(left[..]), off, l, i);
        AddedOne(right[..], r0, old(right[..]), off, r, i);
      }
      assert l[..m] == l && r[..m] == r;
    }

    /** A silent voice only moves its position, computed in 64 bits. */
    method SkipSilent(p: u32, f: u32, m: nat) returns (p': u32, f': u32)
      requires Valid() && f < ONE && m <= 64 && p <= 0x8001_0000
      ensures At(p', f') == V().After(At(p, f), m) && f' < ONE
    {
      MulLe(m, 64, step);
      MulLe(0, m, step);
      var g := f + m * step;
      Narrow(g, p);
      p' := Wrap(p + Wrap(g / ONE));
      f' := Wrap(g) % ONE;
    }

    /** How many samples fit before the bound, in 32-bit words. */
    method Fit(p: u32, f: u32, bound: u32, n: nat) returns (k: nat)
      requires Valid() && f < ONE && p < bound && bound == V().Bound() && n <= 64
      ensures k == V().RunLength(At(p, f), n) && (n > 0 ==> k > 0)
      ensures Below(V(), At(p, f), Min(k, n))
    {
      hide Voice.Bound, Voice.After;
      var dist := bound - p;
      FitWord(dist, f);
      if dist > 0xffff || step > 0x400_0000 {
        k := if step > 0x400_0000 then 1 else n;
      } else {
        k := Wrap(Wrap(dist * ONE) - f - 1) / (if step == 0 then 1 else step) + 1;
      }
      assert k == V().RunLength(At(p, f), n);
      hide Voice.RunLength;
      BelowRun(V(), At(p, f), n, k);
    }

    /** The unchecked part of one turn of mix_voice's loop. */
    method Mix(left: array<int>, right: array<int>, off: nat, p: u32, f: u32, m: nat) returns (p': u32, f': u32)
      requires Valid() && f < ONE && 0 < m <= 64 && Readable(V(), At(p, f), m)
      requires off + m <= left.Length && off + m <= right.Length && left != right
      modifies left, right
      ensures At(p', f') == V().After(At(p, f), m) && f' < ONE && p' < end + ONE
      ensures Added(left[..], old(left[..]), off, Run(V(), At(p, f), m, gainL))
      ensures Added(right[..], old(right[..]), off, Run(V(), At(p, f), m, gainR))
    {
      RunEnd(V(), At(p, f), m);
      hide Voice.After;
      if gainL != 0 || gainR != 0 {
        p', f' := MixLoud(left, right, off, p, f, m);
      } else {
        SilentRun(V(), At(p, f), m);
        p', f' := SkipSilent(p, f, m);
      }
    }

    /** The run from a checked position: up to the bound, or one sample at or past it. */
    method MixFrom(left: array<int>, right: array<int>, off: nat, p: u32, f: u32, bound: u32, n: nat)
      returns (m: nat, p': u32, f': u32)
      requires Valid() && f < ONE && p + 1 < end && bound == V().Bound() && 0 < n <= BLOCK
      requires off + n <= left.Length && off + n <= right.Length && left != right
      modifies left, right
      ensures 0 < m <= n && f' < ONE && p' < end + ONE && At(p', f') == V().After(At(p, f), m)
      ensures Readable(V(), At(p, f), m) && (if p < bound then Below(V(), At(p, f), m) else m == 1)
      ensures Added(left[..], old(left[..]), off, Run(V(), At(p, f), m, gainL))
      ensures Added(right[..], old(right[..]), off, Run(V(), At(p, f), m, gainR))
    {
      hide Voice.After, Voice.Next, Voice.RunLength;
      if p >= bound {
        m := 1;
      } else {
        var k := Fit(p, f, bound, n);
        m := Min(k, n);
        BelowReadable(V(), At(p, f), m);
      }
      p', f' := Mix(left, right, off, p, f, m);
    }

    /** One turn of mix_voice's loop: the boundary checks, then a run. */
    method Turn(left: array<int>, right: array<int>, off: nat, p0: u32, f: u32, n: nat)
      returns (stop: bool, m: nat, p': u32, f': u32, ghost l: seq<int>, ghost r: seq<int>)
      requires Valid() && f < ONE && p0 < end + ONE && 0 < n <= BLOCK
      requires off + n <= left.Length && off + n <= right.Length && left != right
      modifies left, right
      ensures |l| == m == |r| && 0 < m <= n && (stop ==> m == n) && f' < ONE && p' < end + ONE
      ensures Added(left[..], old(left[..]), off, l) && Added(right[..], old(right[..]), off, r)
      ensures Played(V(), At(p0, f), n, stop, l, r, At(p', f'), m)
    {
      var bound, p;
      bound, stop, p := Look(p0);
      if stop {
        LookOnce(V(), At(p0, f), n);
        return true, n, p, f, Zeros(n), Zeros(n);
      }
      hide Voice.Play, Voice.Next, Voice.After, Voice.Mixed;
      m, p', f' := MixFrom(left, right, off, p, f, bound, n);
      l, r := Run(V(), At(p, f), m, gainL), Run(V(), At(p, f), m, gainR);
      TurnPlays(V(), At(p0, f), At(p, f), m, n);
    }

    /** The boundary checks at the top of mix_voice's loop. */
    method Look(p0: u32) returns (bound: u32, stop: bool, p: u32)
      requires Valid() && p0 < end + ONE
      ensures bound == V().Bound() && p == V().Wrapped(p0) && p < end + ONE
      ensures stop <==> p + 1 >= end
    {
      var looping := loopMode != 0 && (loopMode == 1 || !released);
      bound := end - 1;
      if looping && loopEnd < bound {
        bound := loopEnd;
      }
      p, stop := p0, false;
      if p >= bound {
        if looping && p >= loopEnd {
          p := p - (loopEnd - loopStart);
        }
        stop := p + 1 >= end;
      }
    }

    /** mix_voice adds to both buffers what sample-by-sample checking adds, and leaves the voice
        where it leaves it. */
    method MixVoice(left: array<int>, right: array<int>, off: nat, n: nat)
      requires Valid() && active && n <= BLOCK
      requires off + n <= left.Length && off + n <= right.Length && left != right
      modifies `active, `pos, `frac, left, right
      ensures Valid() && V() == old(V())
      ensures ShortStep(V()) && Near(V(), old(Here())) && active ==> Near(V(), Here())
      ensures var r := V().Play(old(Here()), n);
              && Here() == r.at && active == r.active
              && |r.left| == n == |r.right|
              && Added(left[..], old(left[..]), off, r.left)
              && Added(right[..], old(right[..]), off, r.right)
    {
      PlayLength(V(), Here(), n);
      if ShortStep(V()) && Near(V(), Here()) {
        PlayStaysNear(V(), Here(), n);
      }
      hide ShortStep, Near;
      var stop, p, f := MixTurns(left, right, off, n);
      var looping := loopMode != 0 && (loopMode == 1 || !released);
      active := !stop;
      if active && looping && p >= loopEnd {
        p := p - (loopEnd - loopStart);
      }
      pos, frac := p, f;
    }

    /** The loop of mix_voice. */
    method MixTurns(left: array<int>, right: array<int>, off: nat, n: nat) returns (stop: bool, p: u32, f: u32)
      requires Valid() && n <= BLOCK
      requires off + n <= left.Length && off + n <= right.Length && left != right
      modifies left, right
      ensures f < ONE && p < end + ONE
      ensures var r := V().Play(Here(), n);
              && r.active == !stop && r.at == (if stop then At(p, f) else At(V().Wrapped(p), f))
              && off + |r.left| <= left.Length && off + |r.right| <= right.Length
              && Added(left[..], old(left[..]), off, r.left)
              && Added(right[..], old(right[..]), off, r.right)
    {
      hide Voice.Play, Added, Played, Voice.Wrapped;
      ghost var v, here := V(), Here();
      ghost var l: seq<int>, r: seq<int> := [], [];
      var done: nat := 0;
      p, f, stop := pos, frac, false;
      PlayedStart(v, here, n);
      AddedNone(left[..], off);
      AddedNone(right[..], off);
      while done < n && !stop
        invariant done <= n && |l| == done == |r| && (stop ==> done == n) && f < ONE && p < end + ONE
        invariant Played(v, here, n, stop, l, r, At(p, f), done)
        invariant Added(left[..], old(left[..]), off, l) && Added(right[..], old(right[..]), off, r)
        decreases n - done
      {
        var m: nat;
        ghost var l0, r0, dl, dr, at := left[..], right[..], [], [], At(p, f);
        stop, m, p, f, dl, dr := Turn(left, right, off + done, p, f, n - done);
        AddedTwice(left[..], l0, old(left[..]), off, l, dl);
        AddedTwice(right[..], r0, old(right[..]), off, r, dr);
        PlayedMore(v, here, n, l, r, at, done, stop, dl, dr, At(p, f));
        l, r, done := l + dl, r + dr, done + m;
      }
      PlayedEnd(v, here, n, stop, l, r, At(p, f));
      AddedFits(left[..], old(left[..]), off, l);
      AddedFits(right[..], old(right[..]), off, r);
    }
  }

  /** After `done` samples, which added l and r, this is what is left to play. */
  ghost predicate Played(v: Voice, here: At, n: nat, stop: bool, l: seq<int>, r: seq<int>, at: At, done: nat)
    requires v.Valid()
  {
    && done <= n && |l| == done == |r| && (stop ==> done == n)
    && v.Play(here, n) == if stop then Result(l, r, at, false) else Prepend(l, r, v.Play(at, n - done))
  }

  lemma PlayedStart(v: Voice, here: At, n: nat)
    requires v.Valid()
    ensures Played(v, here, n, false, [], [], here, 0)
  {
    PrependNothing(v.Play(here, n));
  }

  lemma PlayedEnd(v: Voice, here: At, n: nat, stop: bool, l: seq<int>, r: seq<int>, at: At)
    requires v.Valid() && Played(v, here, n, stop, l, r, at, n)
    ensures v.Play(here, n) == Result(l, r, if stop then at else At(v.Wrapped(at.pos), at.frac), !stop)
  {
    assert l + [] == l && r + [] == r;
  }

  lemma PlayedMore(v: Voice, here: At, n: nat, l: seq<int>, r: seq<int>, at: At, done: nat,
                   stop: bool, dl: seq<int>, dr: seq<int>, at': At)
    requires v.Valid() && Played(v, here, n, false, l, r, at, done)
    requires Played(v, at, n - done, stop, dl, dr, at', |dl|)
    ensures Played(v, here, n, stop, l + dl, r + dr, at', done + |dl|)
  {
    hide Voice.Play;
    if !stop {
      PrependTwice(l, r, dl, dr, v.Play(at', n - done - |dl|));
    }
  }

  lemma AddedOne(s2: seq<int>, s1: seq<int>, s0: seq<int>, off: nat, l: seq<int>, i: nat)
    requires i < |l| && off + |l| <= |s0| && Added(s1, s0, off, l[..i])
    requires s2 == s1[off + i := s1[off + i] + l[i]]
    ensures Added(s2, s0, off, l[..i + 1])
  {
  }

  /** i samples into a run of m samples, which adds l and r. */
  ghost predicate MidRun(v: Voice, here: At, m: nat, at: At, i: nat, l: seq<int>, r: seq<int>) {
    && i <= m == |l| == |r| && at == v.After(here, i) && Readable(v, at, m - i)
    && l[i..] == Run(v, at, m - i, v.gl) && r[i..] == Run(v, at, m - i, v.gr)
  }

  lemma MidStep(v: Voice, here: At, m: nat, at: At, i: nat, l: seq<int>, r: seq<int>)
    requires here.frac < ONE && i < m && MidRun(v, here, m, at, i, l, r)
    ensures at.pos + 1 < |v.data| && |l| == |r| == m
    ensures l[i] == v.Mixed(at.pos, at.frac, v.gl) && r[i] == v.Mixed(at.pos, at.frac, v.gr)
    ensures MidRun(v, here, m, v.Next(at), i + 1, l, r)
  {
    AfterStep(v, here, i);
    hide Voice.Mixed, Voice.Next, Voice.After;
    assert l[i] == l[i..][0] && r[i] == r[i..][0];
    assert l[i + 1..] == l[i..][1..] && r[i + 1..] == r[i..][1..];
  }

  lemma FitWord(dist: nat, f: nat)
    requires 0 < dist && f < ONE
    ensures dist <= 0xffff ==> Wrap(Wrap(dist * ONE) - f - 1) == dist * ONE - f - 1 >= 0
  {
  }

  lemma AddedTwice(s2: seq<int>, s1: seq<int>, s0: seq<int>, off: nat, l: seq<int>, dl: seq<int>)
    requires Added(s1, s0, off, l) && Added(s2, s1, off + |l|, dl)
    ensures Added(s2, s0, off, l + dl)
  {
  }

  lemma AddedNone(s: seq<int>, off: nat)
    requires off <= |s|
    ensures Added(s, s, off, [])
  {
  }

  lemma AddedFits(s: seq<int>, s0: seq<int>, off: nat, what: seq<int>)
    requires Added(s, s0, off, what)
    ensures off + |what| <= |s|
  {
  }

  lemma Narrow(g: nat, p: u32)
    requires g < 64 * M32 && p <= 0x8001_0000
    ensures Wrap(p + Wrap(g / ONE)) == p + g / ONE && Wrap(g) % ONE == g % ONE
  {
    assert g / ONE < 0x40_0000;
    assert g == g / M32 * M32 + g % M32;
    assert M32 == 0x1_0000 * ONE;
  }

  /** s is s0 with `what` added from position off on. */
  ghost predicate Added(s: seq<int>, s0: seq<int>, off: nat, what: seq<int>) {
    && |s| == |s0| && off + |what| <= |s|
    && (forall i :: 0 <= i < |s| && !(off <= i < off + |what|) ==> s[i] == s0[i])
    && (forall i :: off <= i < off + |what| ==> s[i] == s0[i] + what[i - off])
  }
}
