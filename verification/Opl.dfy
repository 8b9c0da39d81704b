/** sdk/opl.c: operators, envelopes and voices of the FM synthesizer, sample by sample. The tables that
    opl_init fills with sines and powers are constants of which only bounds are used. */
module OplModel {
  import opened Arith
  import opened Machine

  const ENV_MAX: nat := 511 * 65536
  const CHANNELS: nat := 18

  datatype Stage = Off | Attack | Decay | Sustain | Release

  datatype Op = Op(phase: u32, step: u32, env: int, state: Stage, tl: nat,
                   ar: nat, dr: nat, sl: nat, rr: nat, egt: bool, mult: nat, wave: nat, out: int, prev: int) {
    predicate Valid() {
      && 0 <= env <= ENV_MAX && tl <= 252 && ar < 16 && dr < 16 && sl <= ENV_MAX && rr < 16 && mult < 16 && wave < 4
      && -4095 <= out <= 4095 && -4095 <= prev <= 4095
    }
  }

  datatype Chan = Chan(fnum: nat, block: nat, key: bool, fb: nat, conn: bool) {
    predicate Valid() {
      fnum < 0x400 && block < 8 && fb < 8
    }
  }

  datatype Tables = Tables(wave: seq<seq<int>>, gain: seq<nat>, attack: seq<nat>, decay: seq<nat>, stepK: u32) {
    ghost predicate Valid() {
      && |wave| == 4 && (forall w :: 0 <= w < 4 ==> |wave[w]| == 1024)
      && (forall w, i :: 0 <= w < 4 && 0 <= i < 1024 ==> -4095 <= wave[w][i] <= 4095)
      && |gain| == 1024 && (forall i :: 0 <= i < 1024 ==> gain[i] <= 4096)
      && |attack| == 16 && (forall i :: 0 <= i < 16 ==> attack[i] <= ENV_MAX)
      && |decay| == 16 && (forall i :: 0 <= i < 16 ==> decay[i] <= ENV_MAX)
    }
  }

  // ---- one operator ----

  /** The end of env_step: a full attenuation ends every stage but the attack. */
  function Capped(op: Op): Op {
    if op.env < ENV_MAX then op
    else op.(env := ENV_MAX, state := if op.state == Attack then Attack else Off)
  }

  /** env_step */
  function EnvStep(t: Tables, op: Op): (r: Op)
    requires t.Valid() && op.Valid()
    ensures r.Valid() && r == op.(env := r.env, state := r.state)
  {
    Capped(
      match op.state
      case Off => op
      case Attack =>
        var e := op.env - t.attack[op.ar];
        if e <= 0 then op.(env := 0, state := Decay) else op.(env := e)
      case Decay =>
        var e := op.env + t.decay[op.dr];
        if e >= op.sl then op.(env := op.sl, state := Sustain) else op.(env := e)
      case Sustain => if op.egt then op else op.(env := op.env + t.decay[op.rr])
      case Release => op.(env := op.env + t.decay[op.rr]))
  }

  /** The attenuation and the table index of op_calc; both lie in their tables. */
  function Attenuation(op: Op): (a: nat)
    requires op.Valid()
    ensures a < 1024
  {
    Min(op.env / 65536 + op.tl, 1023)
  }

  function Index(op: Op, mod: int): (i: nat)
    ensures i < 1024
  {
    (op.phase / 0x40_0000 + mod) % 1024
  }

  /** The sample of op_calc. */
  function Tone(t: Tables, op: Op, wave: nat, mod: int): (out: int)
    requires t.Valid() && op.Valid() && wave < 4
    ensures -4095 <= out <= 4095
  {
    var w, g := t.wave[wave][Index(op, mod)], t.gain[Attenuation(op)];
    GainBound(w, g);
    w * g / 4096
  }

  lemma GainBound(w: int, g: nat)
    requires -4095 <= w <= 4095 && g <= 4096
    ensures -4095 <= w * g / 4096 <= 4095
  {
    MulLe(w, 4095, g);
    MulLe(-4095, w, g);
    Quarter(w * g, g);
  }

  lemma Quarter(p: int, g: nat)
    requires -4095 * g <= p <= 4095 * g && g <= 4096
    ensures -4095 <= p / 4096 <= 4095
  {
  }

  /** The operator after op_calc. */
  function Moved(t: Tables, op: Op): (r: Op)
    requires t.Valid() && op.Valid()
    ensures r.Valid()
  {
    EnvStep(t, op.(phase := Wrap(op.phase + op.step)))
  }

  // ---- one voice ----

  function Shift(x: int, bits: nat): int {
    if bits == 0 then x else Shift(x, bits - 1) / 2
  }

  /** The modulator and the carrier after some samples, and the samples. */
  datatype Voice = Voice(m: Op, k: Op, outs: seq<int>)

  predicate VoiceOk(v: Voice) {
    v.m.Valid() && v.k.Valid()
  }

  /** One sample of the loop of opl_render. */
  function NextSample(t: Tables, v: Voice, c: Chan, wm: nat, wk: nat): (r: Voice)
    requires t.Valid() && VoiceOk(v) && wm < 4 && wk < 4 && c.Valid()
    ensures VoiceOk(r) && |r.outs| == |v.outs| + 1 && r.outs[..|v.outs|] == v.outs
    ensures -8190 <= r.outs[|v.outs|] <= 8190
  {
    var fb := if c.fb > 0 then Shift(v.m.out + v.m.prev, 9 - c.fb) else 0;
    var mo := Tone(t, v.m, wm, fb);
    var ko := Tone(t, v.k, wk, if c.conn then 0 else mo);
    Voice(Moved(t, v.m).(prev := v.m.out, out := mo), Moved(t, v.k), v.outs + [if c.conn then mo + ko else ko])
  }

  function Sounded(t: Tables, v: Voice, c: Chan, wm: nat, wk: nat, n: nat): (r: Voice)
    requires t.Valid() && VoiceOk(v) && wm < 4 && wk < 4 && c.Valid()
    ensures VoiceOk(r) && |r.outs| == |v.outs| + n
  {
    if n == 0 then v else NextSample(t, Sounded(t, v, c, wm, wk, n - 1), c, wm, wk)
  }

  /** The samples added to a buffer with a gain. */
  function Mixed(buf: seq<int>, outs: seq<int>, gain: int): (r: seq<int>)
    requires |outs| <= |buf|
    ensures |r| == |buf|
    ensures forall i :: 0 <= i < |buf| ==> r[i] == if i < |outs| then buf[i] + outs[i] * gain / 256 else buf[i]
  {
    if outs == [] then buf
    else var n := |outs| - 1;
         var r := Mixed(buf, outs[..n], gain);
         r[n := r[n] + outs[n] * gain / 256]
  }

  predicate Skipped(m: Op, k: Op, c: Chan) {
    k.state == Off && (!c.conn || m.state == Off)
  }

  function WaveOf(op: Op, select: bool): nat {
    if select then op.wave else 0
  }

  // ---- what is heard ----

  /** Connected in a row, a muted carrier is silence; side by side, the modulator is heard alone. A muted
      modulator leaves the carrier's own tone in both. */
  lemma Heard(t: Tables, v: Voice, c: Chan, wm: nat, wk: nat)
    requires t.Valid() && VoiceOk(v) && wm < 4 && wk < 4 && c.Valid()
    ensures var fb := if c.fb > 0 then (v.m.out + v.m.prev) / Pow2(9 - c.fb) else 0;
            var out := NextSample(t, v, c, wm, wk).outs[|v.outs|];
            && (t.gain[Attenuation(v.k)] == 0 ==> out == if c.conn then Tone(t, v.m, wm, fb) else 0)
            && (t.gain[Attenuation(v.m)] == 0 ==> out == Tone(t, v.k, wk, 0))
  {
    ShiftIs(v.m.out + v.m.prev, 9 - c.fb);
    hide Moved, Shift, Index;
    Muted(t, v.k, wk);
    Muted(t, v.m, wm);
  }

  lemma Muted(t: Tables, op: Op, wave: nat)
    requires t.Valid() && op.Valid() && wave < 4
    ensures t.gain[Attenuation(op)] == 0 ==> forall mod :: Tone(t, op, wave, mod) == 0
  {
    hide Index, Attenuation;
    forall mod | t.gain[Attenuation(op)] == 0 ensures Tone(t, op, wave, mod) == 0 {
      assert t.wave[wave][Index(op, mod)] * 0 == 0;
    }
  }

  /** At full gain a tone is the entry of its wave. */
  lemma FullGain(t: Tables, op: Op, wave: nat, mod: int)
    requires t.Valid() && op.Valid() && wave < 4 && t.gain[Attenuation(op)] == 4096
    ensures Tone(t, op, wave, mod) == t.wave[wave][Index(op, mod)]
  {
    hide Index, Attenuation;
  }

  /** Both phases move on by their steps with every sample. */
  lemma {:induction false} PhasesRun(t: Tables, v: Voice, c: Chan, wm: nat, wk: nat, n: nat)
    requires t.Valid() && VoiceOk(v) && wm < 4 && wk < 4 && c.Valid()
    ensures var r := Sounded(t, v, c, wm, wk, n);
            && r.m.phase == Wrap(v.m.phase + n * v.m.step) && r.k.phase == Wrap(v.k.phase + n * v.k.step)
            && r.m.step == v.m.step && r.k.step == v.k.step
  {
    hide NextSample, Sounded, Op.Valid, Chan.Valid, Tables.Valid, Wrap;
    SoundedIs(t, v, c, wm, wk, n);
    if n > 0 {
      PhasesRun(t, v, c, wm, wk, n - 1);
      PhasesStep(t, Sounded(t, v, c, wm, wk, n - 1), c, wm, wk);
      WrapStep(v.m.phase, v.m.step, n);
      WrapStep(v.k.phase, v.k.step, n);
    } else {
      NoStep(v.m.phase, v.m.step);
      NoStep(v.k.phase, v.k.step);
    }
  }

  lemma SoundedIs(t: Tables, v: Voice, c: Chan, wm: nat, wk: nat, n: nat)
    requires t.Valid() && VoiceOk(v) && wm < 4 && wk < 4 && c.Valid()
    ensures Sounded(t, v, c, wm, wk, n) ==
            if n == 0 then v else NextSample(t, Sounded(t, v, c, wm, wk, n - 1), c, wm, wk)
  {
    hide NextSample;
  }

  lemma NoStep(p: u32, step: nat)
    ensures Wrap(p + 0 * step) == p
  {
  }

  lemma PhasesStep(t: Tables, v: Voice, c: Chan, wm: nat, wk: nat)
    requires t.Valid() && VoiceOk(v) && wm < 4 && wk < 4 && c.Valid()
    ensures var r := NextSample(t, v, c, wm, wk);
            && r.m.phase == Wrap(v.m.phase + v.m.step) && r.k.phase == Wrap(v.k.phase + v.k.step)
            && r.m.step == v.m.step && r.k.step == v.k.step
  {
    hide Tone, Shift, Wrap;
  }

  lemma WrapStep(p: nat, step: nat, n: nat)
    requires n > 0
    ensures Wrap(Wrap(p + (n - 1) * step) + step) == Wrap(p + n * step)
  {
    MulSucc(n - 1, step);
    var x := p + (n - 1) * step;
    assert Wrap(Wrap(x) + step) == Wrap(x + step);
  }

  /** The feedback comes from the modulator's last two tones: with a muted carrier, those that are heard. */
  lemma FeedsBack(t: Tables, v: Voice, c: Chan, wm: nat, wk: nat)
    requires t.Valid() && VoiceOk(v) && wm < 4 && wk < 4 && c.Valid() && c.conn && t.gain[Attenuation(v.k)] == 0
    ensures var r := NextSample(t, v, c, wm, wk); r.m.out == r.outs[|v.outs|] && r.m.prev == v.m.out
  {
    hide Tone, Shift, Index;
    Muted(t, v.k, wk);
  }

  /** An arithmetic shift rounds down. */
  lemma {:induction false} ShiftIs(x: int, bits: nat)
    ensures Shift(x, bits) == x / Pow2(bits)
  {
    if bits > 0 {
      ShiftIs(x, bits - 1);
      HalfOf(x, Pow2(bits - 1));
    }
  }

  lemma HalfOf(x: int, d: nat)
    requires d > 0
    ensures x / d / 2 == x / (2 * d)
  {
    var q := x / d;
    var r := x - q * d;
    assert 0 <= r < d;
    assert x == (q / 2) * (2 * d) + (q % 2 * d + r);
    assert 0 <= q % 2 * d + r < 2 * d;
    Quotient(x, 2 * d, q / 2, q % 2 * d + r);
  }

  lemma Quotient(x: int, d: nat, q: int, r: nat)
    requires x == q * d + r && r < d
    ensures x / d == q
  {
    var p := x / d;
    assert p * d <= x < p * d + d;
    if p < q {
      MulLe(p + 1, q, d);
    } else if p > q {
      MulLe(q + 1, p, d);
    }
  }

  /** The phase runs through the 1024 entries of a wave once in 2^32, and modulation shifts it by entries. */
  lemma OneTurn(op: Op, k: nat, mod: int)
    ensures Index(op.(phase := Wrap(op.phase + k * 0x40_0000)), mod) == Index(op, mod + k)
    ensures Index(op, mod + k) == (Index(op, mod) + k) % 1024
    ensures Index(op.(phase := 0), 0) == 0
  {
    hide Wrap;
    Entries(op.phase, k);
    ModTwice(op.phase / 0x40_0000, k, mod);
  }

  lemma ModTwice(i: nat, k: nat, mod: int)
    ensures ((i + k) % 1024 + mod) % 1024 == (i + (mod + k)) % 1024 == ((i + mod) % 1024 + k) % 1024
  {
  }

  lemma Entries(phase: u32, k: nat)
    ensures Wrap(phase + k * 0x40_0000) / 0x40_0000 == (phase / 0x40_0000 + k) % 1024
  {
    var i := phase / 0x40_0000;
    var x := phase + k * 0x40_0000;
    DivBounds(x, M32);
    var turns := x / M32;
    assert Wrap(x) == 0x40_0000 * (i + k - 1024 * turns) + phase % 0x40_0000;
  }

  /** No attenuation at the top of the envelope, and all of it adds up to at most 1023. */
  lemma AttenuationIs(op: Op)
    requires op.Valid()
    ensures op.env == 0 ==> Attenuation(op) == op.tl
    ensures op.env == ENV_MAX && op.tl == 0 ==> Attenuation(op) == 511
  {
  }

  /** The course of an envelope: it rises in the attack until it is at the top, falls to the sustain level,
      stays there if it is held, and falls to the end after release. */
  lemma Course(t: Tables, op: Op)
    requires t.Valid() && op.Valid()
    ensures var n := EnvStep(t, op);
            match op.state
            case Off => n.env == op.env && n.state == Off
            case Attack =>
              n.env <= op.env && (n.state == Decay ==> n.env == 0) &&
              (op.env > 0 && t.attack[op.ar] > 0 && n.state == Attack ==> n.env < op.env)
            case Decay => (n.state == Sustain ==> n.env == op.sl) && (n.state == Decay ==> op.env <= n.env < op.sl)
            case Sustain => (op.egt && op.env < ENV_MAX ==> n == op) && n.env >= op.env
            case Release => n.env >= op.env && (n.state == Off <==> n.env == ENV_MAX)
  {
  }

  // ---- all channels ----

  datatype Mix = Mix(ops: seq<Op>, left: seq<int>, right: seq<int>)

  ghost predicate MixOk(x: Mix, n: nat) {
    |x.ops| == 2 * CHANNELS && (forall i :: 0 <= i < |x.ops| ==> x.ops[i].Valid()) && n <= |x.left| && n <= |x.right|
  }

  /** Channel c rendered: n samples of its voice added to both sides, unless it is silent. */
  ghost function OneChannel(t: Tables, x: Mix, ch: Chan, c: nat, select: bool, gl: int, gr: int, n: nat): (r: Mix)
    requires t.Valid() && MixOk(x, n) && c < CHANNELS && ch.Valid()
    ensures MixOk(r, n) && |r.left| == |x.left| && |r.right| == |x.right|
  {
    var m, k := x.ops[2 * c], x.ops[2 * c + 1];
    if Skipped(m, k, ch) then x
    else
      var v := Sounded(t, Voice(m, k, []), ch, WaveOf(m, select), WaveOf(k, select), n);
      Mix(x.ops[2 * c := v.m][2 * c + 1 := v.k], Mixed(x.left, v.outs, gl), Mixed(x.right, v.outs, gr))
  }

  /** The first c channels rendered. */
  ghost function Rendered(t: Tables, x: Mix, chans: seq<Chan>, c: nat, select: bool, panL: seq<int>, panR: seq<int>,
                          n: nat): (r: Mix)
    requires t.Valid() && MixOk(x, n) && c <= CHANNELS && |chans| == |panL| == |panR| == CHANNELS
    requires forall i :: 0 <= i < CHANNELS ==> chans[i].Valid()
    ensures MixOk(r, n) && |r.left| == |x.left| && |r.right| == |x.right|
  {
    if c == 0 then x
    else OneChannel(t, Rendered(t, x, chans, c - 1, select, panL, panR, n), chans[c - 1], c - 1, select,
                    panL[c - 1], panR[c - 1], n)
  }

  // ---- release ----

  function EnvSteps(t: Tables, op: Op, n: nat): (r: Op)
    requires t.Valid() && op.Valid()
    ensures r.Valid()
  {
    if n == 0 then op else EnvStep(t, EnvSteps(t, op, n - 1))
  }

  /** A released operator fades at its rate, and is off exactly when the fading reaches the end. */
  lemma {:induction false} ReleaseEnds(t: Tables, op: Op, n: nat)
    requires t.Valid() && op.Valid() && op.state == Release && n >= 1
    ensures var r := EnvSteps(t, op, n);
            var e := op.env + n * t.decay[op.rr];
            if e >= ENV_MAX then r == op.(env := ENV_MAX, state := Off) else r == op.(env := e)
  {
    var d := t.decay[op.rr];
    MulSucc(n - 1, d);
    if n > 1 {
      ReleaseEnds(t, op, n - 1);
    } else {
      assert EnvSteps(t, op, 0) == op;
    }
  }

  predicate SameEnvelope(a: Op, b: Op) {
    a.env == b.env && a.state == b.state && a.ar == b.ar && a.dr == b.dr && a.sl == b.sl && a.rr == b.rr
    && a.egt == b.egt
  }

  lemma MovedSame(t: Tables, a: Op, b: Op)
    requires t.Valid() && a.Valid() && b.Valid() && SameEnvelope(a, b)
    ensures SameEnvelope(Moved(t, a), EnvStep(t, b))
  {
  }

  /** In a rendered voice both envelopes move one step a sample, whatever the tones. */
  lemma {:induction false} VoiceEnvelopes(t: Tables, v: Voice, c: Chan, wm: nat, wk: nat, n: nat)
    requires t.Valid() && VoiceOk(v) && wm < 4 && wk < 4 && c.Valid()
    ensures var r := Sounded(t, v, c, wm, wk, n);
            SameEnvelope(r.m, EnvSteps(t, v.m, n)) && SameEnvelope(r.k, EnvSteps(t, v.k, n))
  {
    hide Tone, Shift, Moved, EnvStep, Op.Valid, Tables.Valid;
    if n > 0 {
      VoiceEnvelopes(t, v, c, wm, wk, n - 1);
      var s := Sounded(t, v, c, wm, wk, n - 1);
      MovedSame(t, s.m, EnvSteps(t, v.m, n - 1));
      MovedSame(t, s.k, EnvSteps(t, v.k, n - 1));
    }
  }

  lemma {:induction false} StepsSame(t: Tables, a: Op, b: Op, n: nat)
    requires t.Valid() && a.Valid() && b.Valid() && SameEnvelope(a, b)
    ensures SameEnvelope(EnvSteps(t, a, n), EnvSteps(t, b, n))
  {
    hide Op.Valid, Tables.Valid;
    if n > 0 {
      StepsSame(t, a, b, n - 1);
      StepSame(t, EnvSteps(t, a, n - 1), EnvSteps(t, b, n - 1));
    }
  }

  lemma StepSame(t: Tables, a: Op, b: Op)
    requires t.Valid() && a.Valid() && b.Valid() && SameEnvelope(a, b)
    ensures SameEnvelope(EnvStep(t, a), EnvStep(t, b))
  {
  }

  lemma {:induction false} StepsAdd(t: Tables, op: Op, a: nat, b: nat)
    requires t.Valid() && op.Valid()
    ensures EnvSteps(t, EnvSteps(t, op, a), b) == EnvSteps(t, op, a + b)
  {
    hide EnvStep, Op.Valid, Tables.Valid;
    if b > 0 {
      StepsAdd(t, op, a, b - 1);
    }
  }

  lemma {:induction false} OffStays(t: Tables, op: Op, n: nat)
    requires t.Valid() && op.Valid() && op.state == Off
    ensures EnvSteps(t, op, n) == op
  {
    if n > 0 {
      OffStays(t, op, n - 1);
    }
  }

  /** The operators of a channel after a call of the renderer. */
  function ChannelOps(t: Tables, m: Op, k: Op, c: Chan, select: bool, n: nat): (r: (Op, Op))
    requires t.Valid() && m.Valid() && k.Valid() && c.Valid()
    ensures r.0.Valid() && r.1.Valid()
  {
    if Skipped(m, k, c) then (m, k)
    else var v := Sounded(t, Voice(m, k, []), c, WaveOf(m, select), WaveOf(k, select), n); (v.m, v.k)
  }

  /** A side on which no channel is panned stays as it is, and a channel alone with gain 1.0 on a side adds its
      samples to that side. */
  lemma {:induction false} Sides(t: Tables, x: Mix, chans: seq<Chan>, c: nat, select: bool, panL: seq<int>,
                                 panR: seq<int>, n: nat)
    requires t.Valid() && MixOk(x, n) && c <= CHANNELS && |chans| == |panL| == |panR| == CHANNELS
    requires forall i :: 0 <= i < CHANNELS ==> chans[i].Valid()
    ensures var r := Rendered(t, x, chans, c, select, panL, panR, n);
            && ((forall i :: 0 <= i < c ==> panL[i] == 0) ==> r.left == x.left)
            && ((forall i :: 0 <= i < c ==> panR[i] == 0) ==> r.right == x.right)
  {
    if c > 0 {
      hide Chan.Valid, Op.Valid, Tables.Valid, OneChannel;
      Sides(t, x, chans, c - 1, select, panL, panR, n);
      var r := Rendered(t, x, chans, c - 1, select, panL, panR, n);
      OneSide(t, r, chans[c - 1], c - 1, select, panL[c - 1], panR[c - 1], n);
    }
  }

  lemma OneSide(t: Tables, x: Mix, ch: Chan, c: nat, select: bool, gl: int, gr: int, n: nat)
    requires t.Valid() && MixOk(x, n) && c < CHANNELS && ch.Valid()
    ensures var r := OneChannel(t, x, ch, c, select, gl, gr, n);
            && (gl == 0 ==> r.left == x.left) && (gr == 0 ==> r.right == x.right)
            && var m, k := x.ops[2 * c], x.ops[2 * c + 1];
               !Skipped(m, k, ch) ==>
                 var outs := Sounded(t, Voice(m, k, []), ch, WaveOf(m, select), WaveOf(k, select), n).outs;
                 && (gl == 256 ==> forall i :: 0 <= i < n ==> r.left[i] == x.left[i] + outs[i])
                 && (gr == 256 ==> forall i :: 0 <= i < n ==> r.right[i] == x.right[i] + outs[i])
  {
    hide Sounded, Chan.Valid, Op.Valid, Tables.Valid;
  }

  lemma {:induction false} RenderedOps(t: Tables, x: Mix, chans: seq<Chan>, upTo: nat, select: bool, panL: seq<int>,
                                       panR: seq<int>, n: nat, c: nat)
    requires t.Valid() && MixOk(x, n) && upTo <= CHANNELS && |chans| == |panL| == |panR| == CHANNELS && c < CHANNELS
    requires forall i :: 0 <= i < CHANNELS ==> chans[i].Valid()
    ensures var r := Rendered(t, x, chans, upTo, select, panL, panR, n);
            (r.ops[2 * c], r.ops[2 * c + 1]) ==
            if c < upTo then ChannelOps(t, x.ops[2 * c], x.ops[2 * c + 1], chans[c], select, n)
            else (x.ops[2 * c], x.ops[2 * c + 1])
  {
    hide OneChannel, ChannelOps, Chan.Valid, Op.Valid, Tables.Valid;
    if upTo > 0 {
      RenderedOps(t, x, chans, upTo - 1, select, panL, panR, n, c);
      OneChannelOps(t, Rendered(t, x, chans, upTo - 1, select, panL, panR, n), chans[upTo - 1], upTo - 1, select,
                    panL[upTo - 1], panR[upTo - 1], n, c);
    }
  }

  lemma OneChannelOps(t: Tables, x: Mix, ch: Chan, at: nat, select: bool, gl: int, gr: int, n: nat, c: nat)
    requires t.Valid() && MixOk(x, n) && at < CHANNELS && ch.Valid() && c < CHANNELS
    ensures var r := OneChannel(t, x, ch, at, select, gl, gr, n);
            (r.ops[2 * c], r.ops[2 * c + 1]) ==
            if c == at then ChannelOps(t, x.ops[2 * c], x.ops[2 * c + 1], ch, select, n)
            else (x.ops[2 * c], x.ops[2 * c + 1])
  {
    hide Sounded, Mixed, Skipped, Chan.Valid, Tables.Valid;
  }

  /** After n samples, in any number of calls, the carrier's envelope has moved n steps; the modulator's
      as well, unless the channel fell silent before because its carrier alone is heard. */
  ghost predicate Faded(t: Tables, m0: Op, k0: Op, m: Op, k: Op, conn: bool, n: nat)
    requires t.Valid() && m0.Valid() && k0.Valid()
  {
    && SameEnvelope(k, EnvSteps(t, k0, n))
    && (SameEnvelope(m, EnvSteps(t, m0, n)) ||
        (!conn && k.state == Off && exists j: nat :: j <= n && SameEnvelope(m, EnvSteps(t, m0, j))))
  }

  lemma FadedNone(t: Tables, m: Op, k: Op, conn: bool)
    requires t.Valid() && m.Valid() && k.Valid()
    ensures Faded(t, m, k, m, k, conn, 0)
  {
    hide Op.Valid, Tables.Valid;
  }

  /** One more call. */
  lemma FadedMore(t: Tables, m0: Op, k0: Op, m: Op, k: Op, c: Chan, select: bool, n: nat, more: nat)
    requires t.Valid() && m0.Valid() && k0.Valid() && m.Valid() && k.Valid() && c.Valid()
    requires Faded(t, m0, k0, m, k, c.conn, n)
    ensures var r := ChannelOps(t, m, k, c, select, more); Faded(t, m0, k0, r.0, r.1, c.conn, n + more)
  {
    hide EnvSteps, Sounded, Op.Valid, Tables.Valid, Chan.Valid;
    var r := ChannelOps(t, m, k, c, select, more);
    Onward(t, k0, k, n, more);
    if Skipped(m, k, c) {
      OffStays(t, k, more);
      if c.conn {
        OffStays(t, m, more);
        Onward(t, m0, m, n, more);
      } else if SameEnvelope(m, EnvSteps(t, m0, n)) {
        assert n <= n + more;
      }
    } else {
      WaveBelow(m, select);
      WaveBelow(k, select);
      VoiceEnvelopes(t, Voice(m, k, []), c, WaveOf(m, select), WaveOf(k, select), more);
      if SameEnvelope(m, EnvSteps(t, m0, n)) {
        Onward(t, m0, m, n, more);
      }
    }
  }

  lemma WaveBelow(op: Op, select: bool)
    requires op.Valid()
    ensures WaveOf(op, select) < 4
  {
  }

  lemma Onward(t: Tables, op0: Op, op: Op, n: nat, more: nat)
    requires t.Valid() && op0.Valid() && op.Valid()
    ensures SameEnvelope(op, EnvSteps(t, op0, n)) ==> SameEnvelope(EnvSteps(t, op, more), EnvSteps(t, op0, n + more))
  {
    hide EnvSteps, Op.Valid, Tables.Valid;
    if SameEnvelope(op, EnvSteps(t, op0, n)) {
      StepsAdd(t, op0, n, more);
      StepsSame(t, op, EnvSteps(t, op0, n), more);
    }
  }

  /** The samples a release takes at most, wherever it begins. */
  function ReleaseTime(d: nat): int
    requires d > 0
  {
    (ENV_MAX + d - 1) / d
  }

  lemma EnoughSteps(t: Tables, op: Op, n: nat)
    requires t.Valid() && op.Valid() && op.state == Release && t.decay[op.rr] > 0
    requires n >= ReleaseTime(t.decay[op.rr])
    ensures EnvSteps(t, op, n).state == Off
  {
    var d := t.decay[op.rr];
    var q := ReleaseTime(d);
    DivBounds(ENV_MAX + d - 1, d);
    MulLe(q, n, d);
    if q <= 0 {
      MulLe(q, 0, d);
    }
    ReleaseEnds(t, op, n);
  }

  /** A released operator is off once ENV_MAX / decay samples, rounded up, were rendered, in any number of
      calls: always for a carrier, and for a modulator unless its channel is silent already. */
  lemma ReleaseBound(t: Tables, m0: Op, k0: Op, m: Op, k: Op, conn: bool, n: nat)
    requires t.Valid() && m0.Valid() && k0.Valid() && Faded(t, m0, k0, m, k, conn, n)
    ensures k0.state == Release && t.decay[k0.rr] > 0 && n >= ReleaseTime(t.decay[k0.rr]) ==> k.state == Off
    ensures m0.state == Release && t.decay[m0.rr] > 0 && n >= ReleaseTime(t.decay[m0.rr]) ==>
              m.state == Off || (!conn && k.state == Off)
  {
    hide EnvSteps, ReleaseTime;
    if k0.state == Release && t.decay[k0.rr] > 0 && n >= ReleaseTime(t.decay[k0.rr]) {
      EnoughSteps(t, k0, n);
    }
    if m0.state == Release && t.decay[m0.rr] > 0 && n >= ReleaseTime(t.decay[m0.rr]) {
      EnoughSteps(t, m0, n);
    }
  }
}

/** The chip: opl_write, the renderer of sdk/opl.c and the reference of bench/ref_opl.c. */
module OplChip {
  import Arith
  import opened Machine
  import opened OplModel

  const MULT_X2: seq<nat> := [1, 2, 4, 6, 8, 10, 12, 14, 16, 18, 20, 20, 24, 24, 30, 30]

  function MultX2(mult: nat): nat {
    if mult < 16 then MULT_X2[mult] else 0
  }

  /** The multiples of the chip: a half, 1 to 10, and 10, 12, 12, 15, 15; twice as much each here. */
  lemma Multiples(mult: nat)
    ensures MultX2(0) == 1 && (1 <= mult <= 10 ==> MultX2(mult) == 2 * mult)
    ensures MultX2(11) == 20 && MultX2(12) == 24 && MultX2(13) == 24 && MultX2(14) == 30 && MultX2(15) == 30
  {
  }

  /** A block is an octave: the step doubles, but for what is rounded off. */
  lemma Octave(t: Tables, fnum: nat, block: nat, mult: nat)
    requires fnum < 0x400 && block < 7 && fnum * Pow2(block + 1) * Wrap(MultX2(mult) * t.stepK) / 1024 < M32
    ensures var s, u := StepOf(t, fnum, block, mult), StepOf(t, fnum, block + 1, mult); 2 * s <= u <= 2 * s + 1
  {
    hide Wrap, MultX2;
    var f, k := fnum * Pow2(block), Wrap(MultX2(mult) * t.stepK);
    TwiceBy(fnum, Pow2(block), k);
    Doubled(f * k);
  }

  lemma TwiceBy(a: nat, b: nat, c: nat)
    ensures a * (2 * b) * c == 2 * (a * b * c)
  {
    assert a * (2 * b) == 2 * (a * b);
  }

  lemma Doubled(x: nat)
    requires 2 * x / 1024 < M32
    ensures 2 * Wrap(x / 1024) <= Wrap(2 * x / 1024) <= 2 * Wrap(x / 1024) + 1
  {
  }

  /** The register offsets of the operators: 0, 1, 2, 8, 9, 10, 16, 17 and 18 for the modulators of the nine
      channels of a bank, and three more for their carriers. */
  lemma OperatorOffsets(bank: nat, row: nat, col: nat)
    requires bank < 2 && row < 3 && col < 3
    ensures OpOf(bank, 8 * row + col) == 2 * (9 * bank + 3 * row + col)
    ensures OpOf(bank, 8 * row + col + 3) == 2 * (9 * bank + 3 * row + col) + 1
    ensures OpOf(bank, 8 * row + 6) == OpOf(bank, 8 * row + 7) == OpOf(bank, 24 + row) == -1
  {
    hide OpOf;
    Offset(bank, row, col, 0);
    Offset(bank, row, col, 1);
    NoOperator(bank, row);
  }

  lemma Offset(bank: nat, row: nat, col: nat, o: nat)
    requires bank < 2 && row < 3 && col < 3 && o < 2
    ensures OpOf(bank, 8 * row + col + 3 * o) == 2 * (9 * bank + 3 * row + col) + o
  {
    Arith.DivUnique(8 * row + col + 3 * o, 8, row);
    Arith.DivUnique(6 * row + col + 3 * o, 6, row);
    Arith.DivUnique(col + 3 * o, 3, o);
  }

  lemma NoOperator(bank: nat, row: nat)
    requires bank < 2 && row < 3
    ensures OpOf(bank, 8 * row + 6) == OpOf(bank, 8 * row + 7) == OpOf(bank, 24 + row) == -1
  {
    Arith.DivUnique(8 * row + 6, 8, row);
    Arith.DivUnique(8 * row + 7, 8, row);
  }

  /** The registers of the chip, by their bits. */
  lemma KnownWrites(op: Op, c: Chan)
    ensures PatchedOp(op, 1, 0x2e) == op.(egt := true, mult := 14)
    ensures PatchedOp(op, 2, 0xff) == op.(tl := 252) && PatchedOp(op, 3, 0xa5) == op.(ar := 10, dr := 5)
    ensures PatchedOp(op, 4, 0x37) == op.(sl := 48 * 65536, rr := 7)
    ensures PatchedOp(op, 4, 0xf0) == op.(sl := ENV_MAX, rr := 0) && PatchedOp(op, 7, 0x06) == op.(wave := 2)
    ensures PatchedChan(PatchedChan(c, 0xa3, 0x98), 0xb3, 0x31) == c.(fnum := 0x198, block := 4, key := true)
    ensures PatchedChan(c, 0xc8, 0x0b) == c.(fb := 5, conn := true)
  {
  }

  /** op_of_off: the index of an operator from its register offset, -1 for none. */
  function OpOf(bank: nat, off: nat): (i: int)
    requires bank < 2
    ensures -1 <= i < 2 * CHANNELS
  {
    if off >= 0x16 || off % 8 >= 6 then -1
    else var s := off / 8 * 6 + off % 8;
         var k := s % 6;
         2 * (bank * 9 + s / 6 * 3 + k % 3) + k / 3
  }

  /** The channel register r of a bank belongs to, -1 for none. */
  function Target(bank: nat, r: nat): (c: int)
    requires bank < 2
    ensures -1 <= c < CHANNELS
  {
    if r / 32 == 1 || r / 32 == 2 || r / 32 == 3 || r / 32 == 4 || r / 32 == 7 then
      var i := OpOf(bank, r % 32);
      if i < 0 then -1 else i / 2
    else if 0xa0 <= r <= 0xa8 || 0xb0 <= r <= 0xb8 || 0xc0 <= r <= 0xc8 then bank * 9 + r % 16
    else -1
  }

  predicate IsKeyReg(r: nat) {
    0xb0 <= r <= 0xb8
  }

  function Keyed(op: Op): Op {
    if op.ar == 15 then op.(phase := 0, env := 0, state := Decay) else op.(phase := 0, state := Attack)
  }

  function Released(op: Op): Op {
    if op.state == Off then op else op.(state := Release)
  }

  /** What a write does to an envelope. */
  function KeyChange(op: Op, keyReg: bool, was: bool, now: bool): Op {
    if keyReg && now && !was then Keyed(op) else if keyReg && !now && was then Released(op) else op
  }

  /** The phase step of set_step, in 32 bits. */
  function StepOf(t: Tables, fnum: nat, block: nat, mult: nat): u32 {
    Wrap(fnum * Pow2(block) * Wrap(MultX2(mult) * t.stepK) / 1024)
  }

  /** The fields an operator register sets. */
  function PatchedOp(op: Op, group: nat, v: nat): Op {
    if group == 1 then op.(egt := v / 32 % 2 == 1, mult := v % 16)
    else if group == 2 then op.(tl := v % 64 * 4)
    else if group == 3 then op.(ar := v / 16, dr := v % 16)
    else if group == 4 then op.(sl := (if v / 16 == 15 then 511 else v / 16 * 16) * 65536, rr := v % 16)
    else if group == 7 then op.(wave := v % 4)
    else op
  }

  /** The fields a channel register sets. */
  function PatchedChan(c: Chan, r: nat, v: nat): Chan {
    if 0xa0 <= r <= 0xa8 then c.(fnum := c.fnum / 256 % 4 * 256 + v)
    else if 0xb0 <= r <= 0xb8 then c.(fnum := c.fnum % 256 + v % 4 * 256, block := v / 4 % 8, key := v / 32 % 2 == 1)
    else if 0xc0 <= r <= 0xc8 then c.(fb := v / 2 % 8, conn := v % 2 == 1)
    else c
  }

  /** Operator i of the channel after a write of v to register r. */
  function After(t: Tables, op: Op, i: int, was: Chan, now: Chan, bank: nat, r: nat, v: nat): Op
    requires bank < 2
  {
    if 0xa0 <= r <= 0xa8 || 0xb0 <= r <= 0xb8 then
      KeyChange(op, IsKeyReg(r), was.key, now.key).(step := StepOf(t, now.fnum, now.block, op.mult))
    else if i == OpOf(bank, r % 32) then PatchedOp(op, r / 32, v) else op
  }

  /** The whole effect of a write: it reaches one channel at most. */
  ghost predicate Reached(t: Tables, ops: seq<Op>, chans: seq<Chan>, newOps: seq<Op>, newChans: seq<Chan>, bank: nat,
                          r: nat, v: nat)
    requires |ops| == |newOps| == 2 * CHANNELS && |chans| == |newChans| == CHANNELS && bank < 2
  {
    var c := Target(bank, r);
    && OthersSame(ops, newOps, c)
    && (forall k :: 0 <= k < CHANNELS && k != c ==> newChans[k] == chans[k])
    && (c >= 0 ==>
          && newChans[c] == PatchedChan(chans[c], r, v)
          && newOps[2 * c] == After(t, ops[2 * c], 2 * c, chans[c], newChans[c], bank, r, v)
          && newOps[2 * c + 1] == After(t, ops[2 * c + 1], 2 * c + 1, chans[c], newChans[c], bank, r, v))
  }

  lemma StepBesideKey(op: Op, step: u32, was: bool, now: bool)
    ensures KeyChange(op.(step := step), true, was, now) == KeyChange(op, true, was, now).(step := step)
  {
  }

  /** An envelope moves by a write only when a key goes down, which starts it, or up, which releases it. */
  lemma WriteEnvelope(t: Tables, op: Op, i: int, was: Chan, bank: nat, r: nat, v: nat)
    requires op.Valid() && bank < 2
    ensures var n := After(t, op, i, was, PatchedChan(was, r, v), bank, r, v);
            var k := KeyChange(op, IsKeyReg(r), was.key, v / 32 % 2 == 1);
            n.env == k.env && n.state == k.state && n.out == op.out && n.prev == op.prev
  {
  }

  predicate OthersSame(was: seq<Op>, now: seq<Op>, c: int) {
    |now| == |was| && forall i :: 0 <= i < |was| && i != 2 * c && i != 2 * c + 1 ==> now[i] == was[i]
  }

  class Chip {
    const t: Tables
    const op: array<Op>
    const ch: array<Chan>
    var waveSelect: bool

    ghost predicate Valid()
      reads this, op, ch
    {
      && t.Valid() && op.Length == 2 * CHANNELS && ch.Length == CHANNELS
      && (forall i :: 0 <= i < op.Length ==> op[i].Valid()) && (forall i :: 0 <= i < ch.Length ==> ch[i].Valid())
    }

    /** opl_reset: everything zero, and full attenuation. */
    constructor (tables: Tables)
      requires tables.Valid()
      ensures Valid() && t == tables && fresh(op) && fresh(ch)
      ensures forall i :: 0 <= i < op.Length ==> op[i].state == Off && op[i].env == ENV_MAX
    {
      t := tables;
      op := new Op[2 * CHANNELS](_ => Op(0, 0, ENV_MAX, Off, 0, 0, 0, 0, 0, false, 0, 0, 0, 0));
      ch := new Chan[CHANNELS](_ => Chan(0, 0, false, 0, false));
      waveSelect := false;
    }

    /** set_step */
    method SetStep(c: nat)
      requires Valid() && c < CHANNELS
      modifies op
      ensures Valid() && OthersSame(old(op[..]), op[..], c)
      ensures forall o :: 2 * c <= o < 2 * c + 2 ==>
              op[o] == old(op[o]).(step := StepOf(t, ch[c].fnum, ch[c].block, old(op[o]).mult))
    {
      var f := ch[c].fnum * Pow2(ch[c].block);
      var o := 0;
      while o < 2
        invariant 0 <= o <= 2 && Valid() && OthersSame(old(op[..]), op[..], c)
        invariant forall i :: 2 * c <= i < 2 * c + 2 ==>
                    op[i] == if i < 2 * c + o
                             then old(op[i]).(step := StepOf(t, ch[c].fnum, ch[c].block, old(op[i]).mult))
                             else old(op[i])
      {
        op[2 * c + o] := op[2 * c + o].(step := Wrap(f * Wrap(MULT_X2[op[2 * c + o].mult] * t.stepK) / 1024));
        o := o + 1;
      }
    }

    /** key_on and key_off of one operator. */
    method KeyOn(i: nat)
      requires Valid() && i < op.Length
      modifies op
      ensures Valid() && op[..] == old(op[..])[i := Keyed(old(op[i]))]
    {
      op[i] := op[i].(phase := 0);
      if op[i].ar == 15 {
        op[i] := op[i].(env := 0, state := Decay);
      } else {
        op[i] := op[i].(state := Attack);
      }
    }

    method KeyOff(i: nat)
      requires Valid() && i < op.Length
      modifies op
      ensures Valid() && op[..] == old(op[..])[i := Released(old(op[i]))]
    {
      if op[i].state != Off {
        op[i] := op[i].(state := Release);
      }
    }

    /** opl_write. A write reaches one channel at most. A key going down starts both its operators, a key
        going up releases those that sound, and otherwise no envelope changes; so operators and channels
        stay in their bounds whatever is written. */
    method Write(reg: nat, val: nat)
      requires Valid()
      modifies this`waveSelect, op, ch
      ensures Valid()
      ensures Reached(t, old(op[..]), old(ch[..]), op[..], ch[..], reg / 256 % 2, reg % 256, val % 256)
      ensures waveSelect == if reg % 512 == 1 then val % 256 / 32 % 2 == 1 else old(waveSelect)
    {
      hide Reached;
      Register(reg);
      WriteBank(reg / 256 % 2, reg % 256, val % 256);
    }

    lemma Register(reg: nat)
      ensures reg % 512 == 1 <==> reg % 256 == 1 && reg / 256 % 2 == 0
    {
      Arith.DivBounds(reg, 256);
    }

    method WriteBank(bank: nat, r: nat, v: nat)
      requires Valid() && bank < 2 && r < 256 && v < 256
      modifies this`waveSelect, op, ch
      ensures Valid()
      ensures Reached(t, old(op[..]), old(ch[..]), op[..], ch[..], bank, r, v)
      ensures waveSelect == if r == 1 && bank == 0 then v / 32 % 2 == 1 else old(waveSelect)
    {
      hide Reached, OpOf;
      if r == 0x01 && bank == 0 {
        waveSelect := v / 32 % 2 != 0;
        Untouched(bank, r, v);
        return;
      }
      var group := r / 32;
      if group == 1 || group == 2 || group == 3 || group == 4 || group == 7 {
        var at := OpOf(bank, r % 32);
        if at >= 0 {
          WriteOp(bank, r, at, v);
        } else {
          Untouched(bank, r, v);
        }
      } else if 0xa0 <= r <= 0xa8 {
        WriteFnum(bank, r, bank * 9 + r - 0xa0, v);
      } else if 0xb0 <= r <= 0xb8 {
        WriteKey(bank, r, bank * 9 + r - 0xb0, v);
      } else if 0xc0 <= r <= 0xc8 {
        WriteFeedback(bank, r, bank * 9 + r - 0xc0, v);
      } else {
        Untouched(bank, r, v);
      }
    }

    lemma Untouched(bank: nat, r: nat, v: nat)
      requires Valid() && bank < 2 && Target(bank, r) < 0
      ensures Reached(t, op[..], ch[..], op[..], ch[..], bank, r, v)
    {
    }

    /** The cases of the operator registers. */
    method WriteOp(bank: nat, r: nat, at: nat, v: nat)
      requires Valid() && bank < 2 && r < 256 && v < 256 && at == OpOf(bank, r % 32)
      requires r / 32 == 1 || r / 32 == 2 || r / 32 == 3 || r / 32 == 4 || r / 32 == 7
      modifies op
      ensures Valid() && Reached(t, old(op[..]), ch[..], op[..], ch[..], bank, r, v)
    {
      hide OpOf;
      var group := r / 32;
      if group == 1 {
        op[at] := op[at].(egt := v / 32 % 2 == 1, mult := v % 16);
      } else if group == 2 {
        op[at] := op[at].(tl := v % 64 * 4);
      } else if group == 3 {
        op[at] := op[at].(ar := v / 16, dr := v % 16);
      } else if group == 4 {
        op[at] := op[at].(sl := (if v / 16 == 15 then 511 else v / 16 * 16) * 65536, rr := v % 16);
      } else if group == 7 {
        op[at] := op[at].(wave := v % 4);
      }
    }

    method WriteFnum(bank: nat, r: nat, c: nat, v: nat)
      requires Valid() && bank < 2 && 0xa0 <= r <= 0xa8 && c == bank * 9 + r - 0xa0 && v < 256
      modifies op, ch
      ensures Valid() && Reached(t, old(op[..]), old(ch[..]), op[..], ch[..], bank, r, v)
    {
      hide OpOf, StepOf;
      ch[c] := ch[c].(fnum := ch[c].fnum / 256 % 4 * 256 + v);
      SetStep(c);
    }

    method WriteFeedback(bank: nat, r: nat, c: nat, v: nat)
      requires Valid() && bank < 2 && 0xc0 <= r <= 0xc8 && c == bank * 9 + r - 0xc0 && v < 256
      modifies ch
      ensures Valid() && Reached(t, op[..], old(ch[..]), op[..], ch[..], bank, r, v)
    {
      hide StepOf;
      ch[c] := ch[c].(fb := v / 2 % 8, conn := v % 2 == 1);
    }

    /** The case of the key registers. */
    method WriteKey(bank: nat, r: nat, c: nat, v: nat)
      requires Valid() && bank < 2 && 0xb0 <= r <= 0xb8 && c == bank * 9 + r - 0xb0 && v < 256
      modifies op, ch
      ensures Valid() && Reached(t, old(op[..]), old(ch[..]), op[..], ch[..], bank, r, v)
    {
      hide OpOf, StepOf, KeyChange;
      ch[c] := ch[c].(fnum := ch[c].fnum % 256 + v % 4 * 256);
      ch[c] := ch[c].(block := v / 4 % 8);
      SetStep(c);
      var key := v / 32 % 2 == 1;
      StepBesideKey(old(op[2 * c]), op[2 * c].step, ch[c].key, key);
      StepBesideKey(old(op[2 * c + 1]), op[2 * c + 1].step, ch[c].key, key);
      SwitchKey(c, key);
    }

    method SwitchKey(c: nat, key: bool)
      requires Valid() && c < CHANNELS
      modifies op, ch
      ensures Valid() && ch[..] == old(ch[..])[c := old(ch[c]).(key := key)]
      ensures op[..] == old(op[..])[2 * c := KeyChange(old(op[2 * c]), true, old(ch[c]).key, key)]
                                   [2 * c + 1 := KeyChange(old(op[2 * c + 1]), true, old(ch[c]).key, key)]
    {
      if key && !ch[c].key {
        KeyOn(2 * c);
        KeyOn(2 * c + 1);
      } else if !key && ch[c].key {
        KeyOff(2 * c);
        KeyOff(2 * c + 1);
      }
      ch[c] := ch[c].(key := key);
    }

    /** env_step on an operator in place. */
    method EnvStepAt(i: nat)
      requires t.Valid() && i < op.Length && op[i].Valid()
      modifies op
      ensures op[..] == old(op[..])[i := EnvStep(t, old(op[i]))]
    {
      match op[i].state {
        case Off =>
        case Attack =>
          op[i] := op[i].(env := op[i].env - t.attack[op[i].ar]);
          if op[i].env <= 0 {
            op[i] := op[i].(env := 0, state := Decay);
          }
        case Decay =>
          op[i] := op[i].(env := op[i].env + t.decay[op[i].dr]);
          if op[i].env >= op[i].sl {
            op[i] := op[i].(env := op[i].sl, state := Sustain);
          }
        case Sustain =>
          if !op[i].egt {
            op[i] := op[i].(env := op[i].env + t.decay[op[i].rr]);
          }
        case Release =>
          op[i] := op[i].(env := op[i].env + t.decay[op[i].rr]);
      }
      if op[i].env >= ENV_MAX {
        op[i] := op[i].(env := ENV_MAX);
        if op[i].state != Attack {
          op[i] := op[i].(state := Off);
        }
      }
    }

    /** op_calc on an operator in place; every table index is in range. */
    method OpCalcAt(i: nat, wave: nat, mod: int) returns (out: int)
      requires t.Valid() && i < op.Length && op[i].Valid() && wave < 4
      modifies op
      ensures out == Tone(t, old(op[i]), wave, mod)
      ensures op[..] == old(op[..])[i := Moved(t, old(op[i]))]
    {
      hide EnvStep;
      var att := op[i].env / 65536 + op[i].tl;
      var idx := (op[i].phase / 0x40_0000 + mod) % 1024;
      if att > 1023 {
        att := 1023;
      }
      out := t.wave[wave][idx] * t.gain[att] / 4096;
      op[i] := op[i].(phase := Wrap(op[i].phase + op[i].step));
      EnvStepAt(i);
    }

    ghost function Now(left: array<int>, right: array<int>): Mix
      reads this, op, left, right
    {
      Mix(op[..], left[..], right[..])
    }

    /** One sample of the loop of bench/ref_opl.c: every field is updated in place. */
    method RefSample(c: nat, i: nat, left: array<int>, right: array<int>, gl: int, gr: int) returns (out: int)
      requires Valid() && c < CHANNELS && i < left.Length && i < right.Length && left != right
      modifies op, left, right
      ensures var m, k := old(op[2 * c]), old(op[2 * c + 1]);
              var v := NextSample(t, Voice(m, k, []), ch[c], WaveOf(m, waveSelect), WaveOf(k, waveSelect));
              && op[..] == old(op[..])[2 * c := v.m][2 * c + 1 := v.k] && out == v.outs[0]
      ensures left[..] == old(left[..])[i := old(left[i]) + out * gl / 256]
      ensures right[..] == old(right[..])[i := old(right[i]) + out * gr / 256]
    {
      hide Moved, Tone, Shift;
      ghost var v := NextSample(t, Voice(op[2 * c], op[2 * c + 1], []), ch[c], WaveOf(op[2 * c], waveSelect),
                                WaveOf(op[2 * c + 1], waveSelect));
      var fb := if ch[c].fb > 0 then Shift(op[2 * c].out + op[2 * c].prev, 9 - ch[c].fb) else 0;
      var mo := OpCalcAt(2 * c, WaveOf(op[2 * c], waveSelect), fb);
      MovedKeeps(t, old(op[2 * c]));
      op[2 * c] := op[2 * c].(prev := op[2 * c].out);
      op[2 * c] := op[2 * c].(out := mo);
      var ko := OpCalcAt(2 * c + 1, WaveOf(op[2 * c + 1], waveSelect), if ch[c].conn then 0 else mo);
      out := if ch[c].conn then mo + ko else ko;
      left[i] := left[i] + out * gl / 256;
      right[i] := right[i] + out * gr / 256;
    }

    /** i samples into a channel whose operators and buffers were those of x. */
    ghost predicate Mid(x: Mix, c: nat, i: nat, left: array<int>, right: array<int>, gl: int, gr: int)
      requires t.Valid() && MixOk(x, i) && c < CHANNELS && ch.Length == CHANNELS && ch[c].Valid()
      reads this, op, ch, left, right
    {
      var v := Sounded(t, Voice(x.ops[2 * c], x.ops[2 * c + 1], []), ch[c], WaveOf(x.ops[2 * c], waveSelect),
                       WaveOf(x.ops[2 * c + 1], waveSelect), i);
      && op[..] == x.ops[2 * c := v.m][2 * c + 1 := v.k]
      && left[..] == Mixed(x.left, v.outs, gl) && right[..] == Mixed(x.right, v.outs, gr)
    }

    /** The loop over the samples of a channel. */
    method RefChannel(c: nat, left: array<int>, right: array<int>, n: nat, gl: int, gr: int)
      requires Valid() && c < CHANNELS && n <= left.Length && n <= right.Length && left != right
      requires !Skipped(op[2 * c], op[2 * c + 1], ch[c])
      modifies op, left, right
      ensures Valid() && Now(left, right) == OneChannel(t, old(Now(left, right)), ch[c], c, waveSelect, gl, gr, n)
    {
      hide Sounded, NextSample, Mixed, Skipped;
      RefLoop(c, left, right, n, gl, gr);
    }

    method RefLoop(c: nat, left: array<int>, right: array<int>, n: nat, gl: int, gr: int)
      requires Valid() && c < CHANNELS && n <= left.Length && n <= right.Length && left != right
      modifies op, left, right
      ensures Valid() && Mid(old(Now(left, right)), c, n, left, right, gl, gr)
    {
      hide Mid;
      ghost var x := Now(left, right);
      MidStart(c, left, right, gl, gr);
      var i := 0;
      while i < n
        invariant 0 <= i <= n && Valid() && MixOk(x, n)
        invariant Mid(x, c, i, left, right, gl, gr)
      {
        RefTurn(x, c, i, left, right, gl, gr);
        i := i + 1;
      }
    }

    lemma MidStart(c: nat, left: array<int>, right: array<int>, gl: int, gr: int)
      requires Valid() && c < CHANNELS
      ensures Mid(Now(left, right), c, 0, left, right, gl, gr)
    {
      var x := Now(left, right);
      SoundedNone(t, Voice(x.ops[2 * c], x.ops[2 * c + 1], []), ch[c], WaveOf(x.ops[2 * c], waveSelect),
                  WaveOf(x.ops[2 * c + 1], waveSelect), left[..], right[..], gl, gr);
    }

    method RefTurn(ghost x: Mix, c: nat, i: nat, left: array<int>, right: array<int>, gl: int, gr: int)
      requires Valid() && c < CHANNELS && i < left.Length && i < right.Length && left != right
      requires MixOk(x, i + 1) && Mid(x, c, i, left, right, gl, gr)
      modifies op, left, right
      ensures Valid() && Mid(x, c, i + 1, left, right, gl, gr)
    {
      hide Sounded, NextSample, Mixed;
      ghost var start := Voice(x.ops[2 * c], x.ops[2 * c + 1], []);
      ghost var wm, wk := WaveOf(start.m, waveSelect), WaveOf(start.k, waveSelect);
      SoundedMore(t, start, ch[c], wm, wk, i, x.left, gl);
      SoundedMore(t, start, ch[c], wm, wk, i, x.right, gr);
      SoundedWaves(t, start, ch[c], wm, wk, i);
      var _ := RefSample(c, i, left, right, gl, gr);
    }

    /** bench/ref_opl.c */
    method RefRender(left: array<int>, right: array<int>, n: nat, panL: seq<int>, panR: seq<int>)
      requires Valid() && n <= left.Length && n <= right.Length && left != right && |panL| == |panR| == CHANNELS
      modifies op, left, right
      ensures Valid()
      ensures Now(left, right) == Rendered(t, old(Now(left, right)), ch[..], CHANNELS, waveSelect, panL, panR, n)
    {
      hide OneChannel;
      var c := 0;
      while c < CHANNELS
        invariant 0 <= c <= CHANNELS && Valid()
        invariant Now(left, right) == Rendered(t, old(Now(left, right)), ch[..], c, waveSelect, panL, panR, n)
      {
        if Skipped(op[2 * c], op[2 * c + 1], ch[c]) {
          SilentChannel(t, Now(left, right), ch[c], c, waveSelect, panL[c], panR[c], n);
        } else {
          RefChannel(c, left, right, n, panL[c], panR[c]);
        }
        c := c + 1;
      }
    }

    /** The loop of sdk/opl.c over the samples of a channel: both operators are copied to locals and
        written back after it, and what does not change is worked out before it. */
    method FastChannel(c: nat, left: array<int>, right: array<int>, n: nat, gl: int, gr: int)
      requires Valid() && c < CHANNELS && n <= left.Length && n <= right.Length && left != right
      requires !Skipped(op[2 * c], op[2 * c + 1], ch[c])
      modifies op, left, right
      ensures Valid() && Now(left, right) == OneChannel(t, old(Now(left, right)), ch[c], c, waveSelect, gl, gr, n)
    {
      hide Sounded, NextSample, Mixed;
      ghost var x := Now(left, right);
      var m, k := op[2 * c], op[2 * c + 1];
      m, k := FastLoop(m, k, ch[c], WaveOf(m, waveSelect), WaveOf(k, waveSelect), left, right, n, gl, gr);
      op[2 * c] := m;
      op[2 * c + 1] := k;
    }

    method FastLoop(m0: Op, k0: Op, c: Chan, wm: nat, wk: nat, left: array<int>, right: array<int>, n: nat, gl: int,
                    gr: int)
      returns (m: Op, k: Op)
      requires t.Valid() && m0.Valid() && k0.Valid() && c.Valid() && wm < 4 && wk < 4
      requires n <= left.Length && n <= right.Length && left != right
      modifies left, right
      ensures var v := Sounded(t, Voice(m0, k0, []), c, wm, wk, n);
              && m == v.m && k == v.k
              && left[..] == Mixed(old(left[..]), v.outs, gl) && right[..] == Mixed(old(right[..]), v.outs, gr)
    {
      hide Sounded, NextSample, Mixed, Tables.Valid;
      var fbs, conn := if c.fb > 0 then 9 - c.fb else 0, c.conn;
      m, k := m0, k0;
      ghost var start := Voice(m, k, []);
      SoundedNone(t, start, c, wm, wk, left[..], right[..], gl, gr);
      var i := 0;
      while i < n
        invariant 0 <= i <= n
        invariant var v := Sounded(t, start, c, wm, wk, i);
                  && m == v.m && k == v.k
                  && left[..] == Mixed(old(left[..]), v.outs, gl) && right[..] == Mixed(old(right[..]), v.outs, gr)
      {
        SoundedMore(t, start, c, wm, wk, i, old(left[..]), gl);
        SoundedMore(t, start, c, wm, wk, i, old(right[..]), gr);
        var out;
        m, k, out := FastSample(m, k, c, wm, wk, fbs, conn);
        left[i] := left[i] + out * gl / 256;
        right[i] := right[i] + out * gr / 256;
        i := i + 1;
      }
    }

    method FastSample(m0: Op, k0: Op, ghost c: Chan, wm: nat, wk: nat, fbs: nat, conn: bool)
      returns (m: Op, k: Op, out: int)
      requires t.Valid() && m0.Valid() && k0.Valid() && wm < 4 && wk < 4 && c.Valid()
      requires conn == c.conn && fbs == if c.fb > 0 then 9 - c.fb else 0
      ensures Voice(m, k, [out]) == NextSample(t, Voice(m0, k0, []), c, wm, wk)
    {
      hide Tone, Shift, Moved;
      var fb := if fbs > 0 then Shift(m0.out + m0.prev, fbs) else 0;
      var mo := Tone(t, m0, wm, fb);
      MovedKeeps(t, m0);
      m := Moved(t, m0);
      m := m.(prev := m.out);
      m := m.(out := mo);
      var ko := Tone(t, k0, wk, if conn then 0 else mo);
      k := Moved(t, k0);
      out := if conn then mo + ko else ko;
    }

    /** Any number of calls of opl_render with no write in between: how the samples are split over them
        does not matter to any envelope, and released operators end in time. */
    method RenderRun(left: array<int>, right: array<int>, pieces: seq<nat>, panL: seq<int>, panR: seq<int>)
      requires Valid() && left != right && |panL| == |panR| == CHANNELS
      requires forall i :: 0 <= i < |pieces| ==> pieces[i] <= left.Length && pieces[i] <= right.Length
      modifies op, left, right
      ensures Valid()
      ensures forall c :: 0 <= c < CHANNELS ==>
                Faded(t, old(op[2 * c]), old(op[2 * c + 1]), op[2 * c], op[2 * c + 1], ch[c].conn, Total(pieces))
    {
      hide Faded, Rendered;
      ghost var ops := op[..];
      var i := 0;
      forall c | 0 <= c < CHANNELS
        ensures Faded(t, ops[2 * c], ops[2 * c + 1], op[2 * c], op[2 * c + 1], ch[c].conn, 0)
      {
        FadedNone(t, ops[2 * c], ops[2 * c + 1], ch[c].conn);
      }
      while i < |pieces|
        invariant 0 <= i <= |pieces| && Valid()
        invariant forall c :: 0 <= c < CHANNELS ==>
                    Faded(t, ops[2 * c], ops[2 * c + 1], op[2 * c], op[2 * c + 1], ch[c].conn, Total(pieces[..i]))
      {
        assert pieces[..i + 1][..i] == pieces[..i];
        RenderPiece(ops, left, right, Total(pieces[..i]), pieces[i], panL, panR);
        i := i + 1;
      }
      assert pieces[..|pieces|] == pieces;
    }

    method RenderPiece(ghost ops: seq<Op>, left: array<int>, right: array<int>, done: nat, n: nat, panL: seq<int>,
                       panR: seq<int>)
      requires Valid() && n <= left.Length && n <= right.Length && left != right && |panL| == |panR| == CHANNELS
      requires |ops| == op.Length && forall i :: 0 <= i < |ops| ==> ops[i].Valid()
      requires forall c :: 0 <= c < CHANNELS ==>
               Faded(t, ops[2 * c], ops[2 * c + 1], op[2 * c], op[2 * c + 1], ch[c].conn, done)
      modifies op, left, right
      ensures Valid()
      ensures forall c :: 0 <= c < CHANNELS ==>
              Faded(t, ops[2 * c], ops[2 * c + 1], op[2 * c], op[2 * c + 1], ch[c].conn, done + n)
    {
      hide Faded, Rendered, ChannelOps;
      ghost var x := Now(left, right);
      Render(left, right, n, panL, panR);
      forall c | 0 <= c < CHANNELS
        ensures Faded(t, ops[2 * c], ops[2 * c + 1], op[2 * c], op[2 * c + 1], ch[c].conn, done + n)
      {
        RenderedOps(t, x, ch[..], CHANNELS, waveSelect, panL, panR, n, c);
        FadedMore(t, ops[2 * c], ops[2 * c + 1], x.ops[2 * c], x.ops[2 * c + 1], ch[c], waveSelect, done, n);
      }
    }

    /** opl_render of sdk/opl.c: exactly what the reference does. */
    method Render(left: array<int>, right: array<int>, n: nat, panL: seq<int>, panR: seq<int>)
      requires Valid() && n <= left.Length && n <= right.Length && left != right && |panL| == |panR| == CHANNELS
      modifies op, left, right
      ensures Valid()
      ensures Now(left, right) == Rendered(t, old(Now(left, right)), ch[..], CHANNELS, waveSelect, panL, panR, n)
    {
      hide OneChannel;
      var c := 0;
      while c < CHANNELS
        invariant 0 <= c <= CHANNELS && Valid()
        invariant Now(left, right) == Rendered(t, old(Now(left, right)), ch[..], c, waveSelect, panL, panR, n)
      {
        if Skipped(op[2 * c], op[2 * c + 1], ch[c]) {
          SilentChannel(t, Now(left, right), ch[c], c, waveSelect, panL[c], panR[c], n);
        } else {
          FastChannel(c, left, right, n, panL[c], panR[c]);
        }
        c := c + 1;
      }
    }
  }

  lemma SilentChannel(t: Tables, x: Mix, ch: Chan, c: nat, select: bool, gl: int, gr: int, n: nat)
    requires t.Valid() && MixOk(x, n) && c < CHANNELS && ch.Valid() && Skipped(x.ops[2 * c], x.ops[2 * c + 1], ch)
    ensures OneChannel(t, x, ch, c, select, gl, gr, n) == x
  {
  }

  lemma MovedKeeps(t: Tables, op: Op)
    requires t.Valid() && op.Valid()
    ensures var r := Moved(t, op); r.out == op.out && r.prev == op.prev && r.wave == op.wave
  {
  }

  lemma SoundedNone(t: Tables, v: Voice, c: Chan, wm: nat, wk: nat, l: seq<int>, r: seq<int>, gl: int, gr: int)
    requires t.Valid() && VoiceOk(v) && wm < 4 && wk < 4 && c.Valid() && v.outs == []
    ensures Sounded(t, v, c, wm, wk, 0) == v && Mixed(l, v.outs, gl) == l && Mixed(r, v.outs, gr) == r
  {
  }

  /** One sample more of a voice: the next sample depends on the operators only, and is added at its place. */
  lemma SoundedMore(t: Tables, v: Voice, c: Chan, wm: nat, wk: nat, i: nat, buf: seq<int>, gain: int)
    requires t.Valid() && VoiceOk(v) && wm < 4 && wk < 4 && c.Valid() && v.outs == [] && i < |buf|
    ensures var s := Sounded(t, v, c, wm, wk, i);
            var x := NextSample(t, Voice(s.m, s.k, []), c, wm, wk);
            && Sounded(t, v, c, wm, wk, i + 1) == Voice(x.m, x.k, s.outs + x.outs)
            && Mixed(buf, s.outs + x.outs, gain) ==
               Mixed(buf, s.outs, gain)[i := Mixed(buf, s.outs, gain)[i] + x.outs[0] * gain / 256]
  {
    hide NextSample, Mixed;
    var s := Sounded(t, v, c, wm, wk, i);
    NextAlone(t, s, c, wm, wk);
    MixedMore(buf, s.outs, NextSample(t, Voice(s.m, s.k, []), c, wm, wk).outs, gain);
  }

  lemma NextAlone(t: Tables, s: Voice, c: Chan, wm: nat, wk: nat)
    requires t.Valid() && VoiceOk(s) && wm < 4 && wk < 4 && c.Valid()
    ensures var x := NextSample(t, Voice(s.m, s.k, []), c, wm, wk);
            |x.outs| == 1 && NextSample(t, s, c, wm, wk) == Voice(x.m, x.k, s.outs + x.outs)
  {
    hide Tone, Shift, Moved;
  }

  lemma MixedMore(buf: seq<int>, outs: seq<int>, one: seq<int>, gain: int)
    requires |outs| < |buf| && |one| == 1
    ensures Mixed(buf, outs + one, gain) ==
            Mixed(buf, outs, gain)[|outs| := Mixed(buf, outs, gain)[|outs|] + one[0] * gain / 256]
  {
    assert (outs + one)[..|outs|] == outs;
  }

  lemma {:induction false} SoundedWaves(t: Tables, v: Voice, c: Chan, wm: nat, wk: nat, n: nat)
    requires t.Valid() && VoiceOk(v) && wm < 4 && wk < 4 && c.Valid()
    ensures Sounded(t, v, c, wm, wk, n).m.wave == v.m.wave && Sounded(t, v, c, wm, wk, n).k.wave == v.k.wave
  {
    hide Tone, Shift, Moved;
    if n > 0 {
      SoundedWaves(t, v, c, wm, wk, n - 1);
      MovedKeeps(t, Sounded(t, v, c, wm, wk, n - 1).m);
      MovedKeeps(t, Sounded(t, v, c, wm, wk, n - 1).k);
    }
  }
}
