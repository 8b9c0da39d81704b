/** The 48 kHz resampler as one loop over a whole decoded stream. */
module FlatPlayer {
  import opened Arith
  import opened Machine

  /** Two 16-bit samples: left and right where they are decoded, right and left in the output words. */
  datatype Pair = Pair(first: int, second: int)

  /** What a signed register of `bits` bits keeps of an integer. */
  function Signed(x: int, half: nat): int
    requires half > 0
  {
    (x + half) % (2 * half) - half
  }

  const I32: nat := 0x8000_0000
  const I16: nat := 0x8000

  /** One channel between two samples, at 16 bits of fraction and 8 bits of volume; `>>` is arithmetic. */
  function Between(a: int, b: int, frac: nat, vol: nat): int {
    var x := Signed(a + Signed((b - a) * frac, I32) / 65536, I32);
    Signed(Signed(x * vol, I32) / 256, I16)
  }

  function Mixed(a: Pair, b: Pair, frac: nat, vol: nat): Pair {
    Pair(Between(a.second, b.second, frac, vol), Between(a.first, b.first, frac, vol))
  }

  /** rate * 65536 / 48000 in 16.16, in 32 bits. */
  function StepOf(rate: u32): nat {
    Wrap(rate * 4096) / 3000
  }

  /** A place in the stream: a sample and the fraction of the way to the next one. */
  datatype Cursor = Cursor(src: nat, frac: nat) {
    function Next(step: nat): Cursor {
      Cursor(src + (frac + step) / 65536, (frac + step) % 65536)
    }
  }

  /** At most n output pairs from a cursor on, while there is a next sample to interpolate to.
      Sample i has the step steps[i] of the rate it was recorded at; the step taken is that of the
      sample ahead. */
  function Play(s: seq<Pair>, steps: seq<nat>, vol: nat, c: Cursor, n: nat): seq<Pair>
    requires |steps| == |s|
    decreases n
  {
    if n == 0 || c.src + 1 >= |s| then []
    else [Mixed(s[c.src], s[c.src + 1], c.frac, vol)] + Play(s, steps, vol, c.Next(steps[c.src + 1]), n - 1)
  }

  /** The cursor those pairs leave. */
  function After(s: seq<Pair>, steps: seq<nat>, c: Cursor, n: nat): Cursor
    requires |steps| == |s|
    decreases n
  {
    if n == 0 || c.src + 1 >= |s| then c
    else After(s, steps, c.Next(steps[c.src + 1]), n - 1)
  }

  lemma {:induction false} PlaySplit(s: seq<Pair>, steps: seq<nat>, vol: nat, c: Cursor, n: nat, m: nat)
    requires |steps| == |s|
    ensures Play(s, steps, vol, c, n + m) == Play(s, steps, vol, c, n) + Play(s, steps, vol, After(s, steps, c, n), m)
    ensures After(s, steps, c, n + m) == After(s, steps, After(s, steps, c, n), m)
    decreases n
  {
    hide Mixed, Cursor.Next;
    if n > 0 && c.src + 1 < |s| {
      PlaySplit(s, steps, vol, c.Next(steps[c.src + 1]), n - 1, m);
    }
  }

  /** Fewer pairs than asked for means the stream is used up, and then no more will come. */
  lemma {:induction false} PlayLength(s: seq<Pair>, steps: seq<nat>, vol: nat, c: Cursor, n: nat)
    requires |steps| == |s|
    ensures |Play(s, steps, vol, c, n)| <= n
    ensures |Play(s, steps, vol, c, n)| < n ==> After(s, steps, c, n).src + 1 >= |s|
    ensures After(s, steps, c, n).src + 1 < |s| ==> |Play(s, steps, vol, c, n)| == n
    decreases n
  {
    hide Mixed, Cursor.Next;
    if n > 0 && c.src + 1 < |s| {
      PlayLength(s, steps, vol, c.Next(steps[c.src + 1]), n - 1);
    }
  }

  lemma PlayOne(s: seq<Pair>, steps: seq<nat>, vol: nat, c: Cursor)
    requires |steps| == |s| && c.src + 1 < |s|
    ensures Play(s, steps, vol, c, 1) == [Mixed(s[c.src], s[c.src + 1], c.frac, vol)]
    ensures After(s, steps, c, 1) == c.Next(steps[c.src + 1])
  {
    assert Play(s, steps, vol, c.Next(steps[c.src + 1]), 0) == [];
  }

  // ---- what is heard ----

  /** The step is the rate over 48 kHz in 16.16, rounded down, for rates up to 1 MHz; 1.0 for 48 kHz. */
  lemma StepIs(rate: u32)
    requires rate < 0x10_0000
    ensures StepOf(rate) * 48000 <= rate * 65536 < (StepOf(rate) + 1) * 48000
    ensures StepOf(48000) == 0x1_0000
  {
  }

  predicate Fits16(x: int) {
    -0x8000 <= x < 0x8000
  }

  lemma SignedIs(x: int, half: nat)
    requires half > 0 && 0 - half <= x < half
    ensures Signed(x, half) == x
  {
    DivUnique(x + half, 2 * half, 0);
  }

  /** Within their ranges the registers cut nothing off. */
  lemma NothingCut(a: int, b: int, frac: nat, vol: nat)
    requires var d := (b - a) * frac; var x := a + d / 65536;
             && -0x8000_0000 <= d < 0x8000_0000 && -0x8000_0000 <= x < 0x8000_0000
             && -0x8000_0000 <= x * vol < 0x8000_0000 && Fits16(x * vol / 256)
    ensures Between(a, b, frac, vol) == (a + (b - a) * frac / 65536) * vol / 256
  {
    hide Signed;
    var d := (b - a) * frac;
    var x := a + d / 65536;
    SignedIs(d, I32);
    SignedIs(x, I32);
    SignedIs(x * vol, I32);
    SignedIs(x * vol / 256, I16);
  }

  /** At full volume a sample comes out as it is on a whole position, and between two samples less than
      2^15 apart nothing outside them does. */
  lemma BetweenIs(a: int, b: int, frac: nat)
    requires Fits16(a) && Fits16(b) && frac < 65536
    ensures Between(a, b, 0, 256) == a
    ensures -0x8000 < b - a < 0x8000 ==> Min(a, b) <= Between(a, b, frac, 256) <= a + b - Min(a, b)
  {
    hide Between;
    assert (b - a) * 0 == 0;
    NothingCut(a, b, 0, 256);
    if -0x8000 < b - a < 0x8000 {
      Portion(b - a, frac);
      NothingCut(a, b, frac, 256);
    }
  }

  lemma Portion(d: int, frac: nat)
    requires -0x8000 < d < 0x8000 && frac < 65536
    ensures if d >= 0 then 0 <= d * frac / 65536 <= d else d <= d * frac / 65536 <= 0
    ensures -0x8000_0000 <= d * frac < 0x8000_0000
  {
    if d >= 0 {
      MulLe(0, d, frac);
      MulLe(frac, 65535, d);
    } else {
      MulLe(frac, 65535, -d);
      assert d * frac == -(-d * frac) && -d * frac >= 0;
    }
  }

  /** The volume is in 256ths. */
  lemma Louder(a: int, vol: nat)
    requires Fits16(a) && vol <= 256
    ensures Between(a, a, 0, vol) == a * vol / 256 && -0x8000 <= a * vol / 256 < 0x8000
  {
    hide Between;
    assert (a - a) * 0 == 0;
    VolumeBound(a, vol);
    NothingCut(a, a, 0, vol);
  }

  lemma VolumeBound(a: int, vol: nat)
    requires Fits16(a) && vol <= 256
    ensures -0x80_0000 <= a * vol <= 0x7f_ff00
  {
    if a >= 0 {
      MulLe(0, a, vol);
      MulLe(vol, 256, a);
    } else {
      MulLe(0, -a, vol);
      MulLe(vol, 256, -a);
      assert a * vol == 0 - (-a) * vol;
    }
  }

  /** The two halves of each sample, in the order of the output words. */
  function Swapped(s: seq<Pair>): (r: seq<Pair>)
    ensures |r| == |s| && forall i :: 0 <= i < |s| ==> r[i] == Pair(s[i].second, s[i].first)
  {
    if s == [] then [] else [Pair(s[0].second, s[0].first)] + Swapped(s[1..])
  }

  /** What is at 48 kHz already comes out sample for sample, but for the last. */
  lemma {:induction false} PlayedAsIs(s: seq<Pair>, from: nat, n: nat)
    requires from + n < |s| && forall i :: 0 <= i < |s| ==> Fits16(s[i].first) && Fits16(s[i].second)
    ensures Play(s, Repeated(StepOf(48000), |s|), 256, Cursor(from, 0), n) == Swapped(s[from..from + n])
    decreases n
  {
    hide Between, StepOf, Repeated, Swapped;
    StepIs(48000);
    if n > 0 {
      OnePlayed(s, from, n);
      BetweenIs(s[from].first, s[from + 1].first, 0);
      BetweenIs(s[from].second, s[from + 1].second, 0);
      PlayedAsIs(s, from + 1, n - 1);
      assert s[from..from + n][1..] == s[from + 1..from + n];
      SwappedOne(s[from..from + n]);
    } else {
      assert Swapped(s[from..from]) == [];
    }
  }

  lemma SwappedOne(s: seq<Pair>)
    requires s != []
    ensures Swapped(s) == [Pair(s[0].second, s[0].first)] + Swapped(s[1..])
  {
  }

  lemma OnePlayed(s: seq<Pair>, from: nat, n: nat)
    requires from + 1 < |s| && n > 0 && StepOf(48000) == 0x1_0000
    ensures var steps := Repeated(StepOf(48000), |s|);
            Play(s, steps, 256, Cursor(from, 0), n) ==
            [Mixed(s[from], s[from + 1], 0, 256)] + Play(s, steps, 256, Cursor(from + 1, 0), n - 1)
  {
    hide Mixed, StepOf;
  }

  /** What a run of grants of at most `most` pairs each lets through. */
  function Granted(spaces: seq<nat>, most: nat): nat {
    if |spaces| == 0 then 0 else Granted(spaces[..|spaces| - 1], most) + Min(spaces[|spaces| - 1], most)
  }

  function Repeated(x: nat, n: nat): (r: seq<nat>)
    ensures |r| == n && forall i :: 0 <= i < n ==> r[i] == x
  {
    if n == 0 then [] else [x] + Repeated(x, n - 1)
  }

  // ---- wavplay.c: the samples are all in memory ----

  /** The samples of a WAV file as pairs; a mono sample is both. */
  function Stereo(data: seq<int>, chans: nat): (r: seq<Pair>)
    requires chans == 1 || chans == 2
    ensures |r| == |data| / chans
    ensures forall i :: 0 <= i < |r| ==>
              i * chans + chans <= |data| && r[i] == Pair(data[i * chans], data[i * chans + chans - 1])
    decreases |data|
  {
    if |data| < chans then []
    else Stereo(data[..|data| / chans * chans - chans], chans)
         + [Pair(data[|data| / chans * chans - chans], data[|data| / chans * chans - 1])]
  }

  const CHUNK: nat := 512

  /** The playing loop of wavplay.c, for the room the audio ring shows on each pass; the pairs written. */
  method PlayWav(data: seq<int>, chans: nat, rate: u32, vol: nat, spaces: seq<nat>)
    returns (out: seq<Pair>)
    requires chans == 1 || chans == 2
    requires 8000 <= rate <= 96000
    ensures var s := Stereo(data, chans);
            out == Play(s, Repeated(StepOf(rate), |s|), vol, Cursor(0, 0), Granted(spaces, CHUNK))
  {
    hide Play, After, Stereo, Repeated;
    ghost var s := Stereo(data, chans);
    ghost var steps := Repeated(StepOf(rate), |s|);
    ghost var start := Cursor(0, 0);
    var frames := |data| / chans;
    var src, frac := 0, 0;
    PlayNone(s, steps, vol, start);
    out := [];
    var i := 0;
    while src + 1 < frames && i < |spaces|
      invariant 0 <= i <= |spaces|
      invariant out == Play(s, steps, vol, start, Granted(spaces[..i], CHUNK))
      invariant src >= 0 && frac >= 0 && Cursor(src, frac) == After(s, steps, start, Granted(spaces[..i], CHUNK))
      decreases |spaces| - i
    {
      assert spaces[..i + 1][..i] == spaces[..i];
      var g: nat := Min(spaces[i], CHUNK);
      PlaySplit(s, steps, vol, start, Granted(spaces[..i], CHUNK), g);
      var more;
      more, src, frac := WavChunk(data, chans, StepOf(rate), vol, src, frac, g);
      out := out + more;
      i := i + 1;
    }
    GrantedMore(spaces, i, CHUNK);
    assert spaces[..|spaces|] == spaces;
    Stopped(s, steps, vol, start, Granted(spaces[..i], CHUNK), Granted(spaces, CHUNK) - Granted(spaces[..i], CHUNK));
  }

  /** The inner loop: at most n pairs. */
  method WavChunk(data: seq<int>, chans: nat, step: nat, vol: nat, src0: nat, frac0: nat, n: nat)
    returns (pcm: seq<Pair>, src: nat, frac: nat)
    requires chans == 1 || chans == 2
    ensures var s := Stereo(data, chans);
            var steps := Repeated(step, |s|);
            && pcm == Play(s, steps, vol, Cursor(src0, frac0), n)
            && Cursor(src, frac) == After(s, steps, Cursor(src0, frac0), n)
  {
    hide Play, After, Stereo, Repeated, Between;
    ghost var s := Stereo(data, chans);
    ghost var steps := Repeated(step, |s|);
    ghost var start := Cursor(src0, frac0);
    var frames := |data| / chans;
    PlayNone(s, steps, vol, start);
    pcm, src, frac := [], src0, frac0;
    var k := 0;
    while k < n && src + 1 < frames
      invariant 0 <= k <= n
      invariant pcm == Play(s, steps, vol, start, k)
      invariant Cursor(src, frac) == After(s, steps, start, k)
    {
      PlaySplit(s, steps, vol, start, k, 1);
      PlayOne(s, steps, vol, Cursor(src, frac));
      var a, b := src * chans, src * chans + chans;
      assert s[src + 1] == Pair(data[(src + 1) * chans], data[(src + 1) * chans + chans - 1]);
      var l := Between(data[a], data[b], frac, vol);
      var r := if chans == 2 then Between(data[a + 1], data[b + 1], frac, vol) else l;
      pcm := pcm + [Pair(r, l)];
      k := k + 1;
      frac := frac + step;
      src := src + frac / 65536;
      frac := frac % 65536;
    }
    Stopped(s, steps, vol, start, k, n - k);
  }

  lemma PlayNone(s: seq<Pair>, steps: seq<nat>, vol: nat, c: Cursor)
    requires |steps| == |s|
    ensures Play(s, steps, vol, c, 0) == [] && After(s, steps, c, 0) == c
  {
  }

  /** Once nothing is ahead, a larger grant changes nothing. */
  lemma Stopped(s: seq<Pair>, steps: seq<nat>, vol: nat, c: Cursor, n: nat, m: nat)
    requires |steps| == |s|
    requires m == 0 || After(s, steps, c, n).src + 1 >= |s|
    ensures Play(s, steps, vol, c, n + m) == Play(s, steps, vol, c, n)
    ensures After(s, steps, c, n + m) == After(s, steps, c, n)
  {
    PlaySplit(s, steps, vol, c, n, m);
  }

  lemma {:induction false} GrantedMore(spaces: seq<nat>, i: nat, most: nat)
    requires i <= |spaces|
    ensures Granted(spaces[..i], most) <= Granted(spaces, most)
    decreases |spaces|
  {
    if i == |spaces| {
      assert spaces[..i] == spaces;
    } else {
      var front := spaces[..|spaces| - 1];
      assert front[..i] == spaces[..i];
      GrantedMore(front, i, most);
    }
  }
}

/** mp3stream.h: the same resampler when the samples come one MP3 frame at a time. */
module Mp3Stream {
  import opened Machine
  import opened FlatPlayer

  /** A decoded MP3 frame, mono already doubled. */
  datatype Frame = Frame(samples: seq<Pair>, rate: u32) {
    predicate Valid() {
      1 <= |samples| <= 1152 && StepOf(rate) <= 0x20000
    }
  }

  ghost predicate AllValid(fs: seq<Frame>) {
    forall i :: 0 <= i < |fs| ==> fs[i].Valid()
  }

  lemma AllValidRest(fs: seq<Frame>)
    requires AllValid(fs) && fs != []
    ensures fs[0].Valid() && AllValid(fs[1..])
  {
  }

  /** The first n elements of the buffer are the n of the stream from `at` on. */
  ghost predicate Window(s: seq<Pair>, at: nat, buf: seq<Pair>, n: nat) {
    at + n <= |s| && n <= |buf| && s[at..at + n] == buf[..n]
  }

  lemma WindowGrows(s: seq<Pair>, at: nat, was: seq<Pair>, buf: seq<Pair>, n: nat, more: nat)
    requires Window(s, at, was, n) && n + more <= |buf| && at + n + more <= |s|
    requires buf[..n] == was[..n] && buf[n..n + more] == s[at + n..at + n + more]
    ensures Window(s, at, buf, n + more)
  {
    assert s[at..at + n + more] == s[at..at + n] + s[at + n..at + n + more];
    assert buf[..n + more] == buf[..n] + buf[n..n + more];
  }

  lemma WindowMoves(s: seq<Pair>, at: nat, was: seq<Pair>, buf: seq<Pair>, n: nat, k: nat)
    requires Window(s, at, was, n) && k <= n && n - k <= |buf| && buf[..n - k] == was[k..n]
    ensures Window(s, at + k, buf, n - k)
  {
    assert s[at + k..at + n] == s[at..at + n][k..];
  }

  lemma WindowAt(s: seq<Pair>, at: nat, buf: seq<Pair>, n: nat, i: nat)
    requires Window(s, at, buf, n) && i < n
    ensures s[at + i] == buf[i]
  {
    assert s[at..at + n][i] == buf[..n][i];
  }

  /** All samples of the frames, and for each the step of its frame. */
  function Samples(fs: seq<Frame>): seq<Pair> {
    if |fs| == 0 then [] else fs[0].samples + Samples(fs[1..])
  }

  function Steps(fs: seq<Frame>): (r: seq<nat>)
    ensures |r| == |Samples(fs)|
  {
    if |fs| == 0 then [] else Repeated(StepOf(fs[0].rate), |fs[0].samples|) + Steps(fs[1..])
  }

  /** With one rate throughout, the steps are those of the flat player. */
  lemma {:induction false} OneRate(fs: seq<Frame>, rate: u32)
    requires forall i :: 0 <= i < |fs| ==> fs[i].rate == rate
    ensures Steps(fs) == Repeated(StepOf(rate), |Samples(fs)|)
  {
    if |fs| > 0 {
      OneRate(fs[1..], rate);
    }
  }

  /** The samples mp3s_pump moves to the front of its buffer, in its 32-bit words. */
  function Keep(have: nat, pos: nat): u32 {
    Wrap(have - pos)
  }

  /** Where the position goes after a sample. */
  function Moved(pos: nat, frac: nat, step: nat): nat {
    pos + (frac + step) / 65536
  }

  /** If a sample taken there is the last before a seam, then at most one sample is kept: the position
      has not passed the decoded part, and the count of the copy does not wrap. */
  predicate KeepsOne(have: nat, pos: nat, frac: nat, step: nat) {
    var p := Moved(pos, frac, step);
    p + 1 >= have ==> p <= have && Keep(have, p) <= 1
  }

  /** That holds for a sample anywhere in the buffer exactly for steps up to 2.0, rates of up to
      96 kHz; MP3 has at most 48 kHz. */
  lemma CloseSteps(step: nat)
    ensures step <= 0x20000 <==>
            forall have: nat, pos: nat, frac: nat :: pos + 1 < have <= 1153 && frac < 65536 ==>
                KeepsOne(have, pos, frac, step)
  {
    if step > 0x20000 {
      assert Moved(0, 65535, step) >= 3;
      assert !KeepsOne(2, 0, 65535, step);
    } else {
      forall have: nat, pos: nat, frac: nat | pos + 1 < have <= 1153 && frac < 65536
        ensures KeepsOne(have, pos, frac, step)
      {
        assert (frac + step) / 65536 <= 2;
      }
    }
  }

  class Stream {
    const input: array<Pair>
    const pcm: array<Pair>
    var have: nat
    var pos: nat
    var frac: nat
    var step: nat
    var rate: u32
    var vol: nat
    /** The frames the decoder has still to give. */
    var pending: seq<Frame>
    /** All that audio_write was given. */
    var sent: seq<Pair>

    /** Every sample of the stream with its step, and the place of the input buffer in it. */
    ghost var whole: seq<Pair>
    ghost var steps: seq<nat>
    ghost var base: nat

    ghost predicate Valid()
      reads this, input, pcm
    {
      && input.Length == 1160 && pcm.Length == CHUNK && input != pcm
      && |steps| == |whole| && pos <= have <= 1153 && base + have <= |whole|
      && frac < 65536
      && step == StepOf(rate)
      && AllValid(pending)
      && Ahead(base + have, pending)
      && Window(whole, base, input[..], have)
      && Recent()
    }

    /** The frames fs are the stream from sample `at` on. */
    ghost predicate Ahead(at: nat, fs: seq<Frame>)
      reads this`whole, this`steps
    {
      |steps| == |whole| && at <= |whole| && whole[at..] == Samples(fs) && steps[at..] == Steps(fs)
    }

    /** The samples ahead of the position are of the last frame decoded. */
    ghost predicate Recent()
      reads this
      requires |steps| == |whole| && base + have <= |whole|
    {
      step <= 0x20000 &&
      forall i :: base + pos < i < base + have ==> steps[i] == step
    }

    ghost function Place(): Cursor
      reads this
    {
      Cursor(base + pos, frac)
    }

    constructor (fs: seq<Frame>)
      requires AllValid(fs)
      ensures Valid() && fresh(input) && fresh(pcm)
      ensures whole == Samples(fs) && steps == Steps(fs) && Place() == Cursor(0, 0) && sent == []
      ensures have == 0 && pending == fs && vol == 256
    {
      var b, p := new Pair[1160](_ => Pair(0, 0)), new Pair[CHUNK](_ => Pair(0, 0));
      input, pcm := b, p;
      have, pos, frac, step, rate, vol := 0, 0, 0, 0, 0, 256;
      pending, sent := fs, [];
      whole, steps, base := Samples(fs), Steps(fs), 0;
    }

    /** mp3s_decode_frame after `at` samples: the next frame, or nothing at the end of the data. */
    method Decode(at: nat) returns (got: nat, samprate: u32)
      requires at <= 1 && input.Length == 1160
      requires AllValid(pending)
      modifies input, this`pending
      ensures input[..at] == old(input[..at])
      ensures old(pending) == [] ==> got == 0 && pending == []
      ensures old(pending) != [] ==> pending == old(pending)[1..] && got == |old(pending)[0].samples|
                                     && samprate == old(pending)[0].rate && at + got <= 1160
                                     && input[at..at + got] == old(pending)[0].samples
    {
      if pending == [] {
        return 0, 0;
      }
      var f := pending[0];
      var i := 0;
      while i < |f.samples|
        invariant 0 <= i <= |f.samples|
        invariant input[..at] == old(input[..at])
        invariant input[at..at + i] == f.samples[..i]
        modifies input
      {
        input[at + i] := f.samples[i];
        i := i + 1;
      }
      pending := pending[1..];
      return |f.samples|, f.rate;
    }

    /** The end of the buffer is reached: its last sample moves to the front and a frame is
        appended. The place in the stream stays; nothing is got exactly when nothing is left. */
    method NextFrame() returns (got: nat)
      requires Valid() && pos + 1 >= have
      modifies this`have, this`pos, this`step, this`rate, this`pending, this`base, input
      ensures Valid() && Place() == old(Place())
      ensures got == 0 <==> old(pending) == []
      ensures got == 0 ==> base + have == |whole| && base + pos + 1 >= |whole| && pending == []
      ensures got > 0 ==> |pending| == |old(pending)| - 1
    {
      Shift();
      got := Append();
    }

    /** The next frame goes after the sample kept. */
    method Append() returns (got: nat)
      requires Valid() && pos == 0 && have <= 1
      modifies this`have, this`step, this`rate, this`pending, input
      ensures Valid() && Place() == old(Place())
      ensures got == 0 <==> old(pending) == []
      ensures got == 0 ==> base + have == |whole| && have <= 1 && pending == []
      ensures got > 0 ==> |pending| == |old(pending)| - 1
    {
      hide Samples, Steps, StepOf, Ahead, Window, AllValid;
      if pending == [] {
        Nothing(base + have);
      } else {
        AllValidRest(pending);
      }
      var samprate;
      got, samprate := Decode(have);
      if got > 0 {
        Appended(old(pending), base + have);
        WindowGrows(whole, base, old(input[..]), input[..], have, got);
        have := have + got;
        if samprate != rate {
          rate := samprate;
          step := StepOf(samprate);
        }
        assert Recent();
      } else {
        WindowMoves(whole, base, old(input[..]), input[..], have, 0);
      }
    }

    lemma Nothing(at: nat)
      requires Ahead(at, [])
      ensures at == |whole|
    {
    }

    /** What is left of the buffer, at most one sample, moves to its front. */
    method Shift()
      requires Valid() && pos + 1 >= have
      modifies this`have, this`pos, this`base, input
      ensures Valid() && Place() == old(Place()) && base + have == old(base + have)
      ensures pos == 0 && have <= 1
    {
      hide Samples, Steps, StepOf, Ahead, Window, AllValid;
      var keep := Keep(have, pos);
      var i := 0;
      while i < keep
        invariant 0 <= i <= keep <= 1
        invariant input[..i] == old(input[pos..pos + i])
        invariant i == 0 ==> input[..] == old(input[..])
        modifies input
      {
        input[i] := input[pos + i];
        i := i + 1;
      }
      WindowMoves(whole, base, old(input[..]), input[..], have, pos);
      base := base + pos;
      have := keep;
      pos := 0;
    }

    /** The first frame pending is the next part of the stream. */
    lemma Appended(fs: seq<Frame>, at: nat)
      requires fs != [] && Ahead(at, fs)
      ensures var n := |fs[0].samples|;
              && Ahead(at + n, fs[1..]) && whole[at..at + n] == fs[0].samples
              && forall i :: at <= i < at + n ==> steps[i] == StepOf(fs[0].rate)
    {
      var n := |fs[0].samples|;
      assert Samples(fs)[..n] == fs[0].samples && Samples(fs)[n..] == Samples(fs[1..]);
      assert Steps(fs)[n..] == Steps(fs[1..]);
      assert |Samples(fs)| >= n;
      assert whole[at..at + n] == whole[at..][..n];
      assert whole[at + n..] == whole[at..][n..];
      assert steps[at + n..] == steps[at..][n..];
      forall i | at <= i < at + n ensures steps[i] == StepOf(fs[0].rate) {
        assert steps[i] == steps[at..][i - at] == Repeated(StepOf(fs[0].rate), n)[i - at];
      }
    }

    /** mp3s_pump for the room `space` in the audio ring: it writes the next pairs of the flat player,
        as many as there is room for or until the stream ends. */
    method Pump(space: nat) returns (more: bool)
      requires Valid()
      modifies this`have, this`pos, this`frac, this`step, this`rate, this`pending, this`sent, this`base, input, pcm
      ensures Valid()
      ensures sent == old(sent) + Play(whole, steps, vol, old(Place()), Min(space, CHUNK))
      ensures Place() == After(whole, steps, old(Place()), Min(space, CHUNK))
      ensures !more ==> Place().src + 1 >= |whole|
      ensures more ==> |sent| == |old(sent)| + Min(space, CHUNK)
    {
      hide Play, After, Samples, Steps, StepOf, Ahead, Window, AllValid;
      var n := Min(space, CHUNK);
      var k := 0;
      more := true;
      ghost var start := Place();
      PlayNone(whole, steps, vol, start);
      while k < n
        invariant Valid() && 0 <= k <= n <= CHUNK && more
        invariant sent == old(sent)
        invariant pcm[..k] == Play(whole, steps, vol, start, k)
        invariant Place() == After(whole, steps, start, k)
        decreases |pending|, n - k
      {
        if pos + 1 >= have {
          var got := NextFrame();
          if got == 0 {
            more := false;
            break;
          }
        } else {
          k := OneSample(start, k);
        }
      }
      Stopped(whole, steps, vol, start, k, n - k);
      sent := sent + pcm[..k];
    }

    /** One pass of the loop that finds two samples to interpolate. */
    method OneSample(ghost start: Cursor, k: nat) returns (next: nat)
      requires Valid() && pos + 1 < have && k < CHUNK
      requires pcm[..k] == Play(whole, steps, vol, start, k)
      requires Place() == After(whole, steps, start, k)
      modifies this`frac, this`pos, pcm
      ensures Valid() && next == k + 1
      ensures pcm[..next] == Play(whole, steps, vol, start, next)
      ensures Place() == After(whole, steps, start, next)
    {
      hide Play, After, Samples, Steps, Between, StepOf, Ahead, Window, AllValid;
      PlaySplit(whole, steps, vol, start, k, 1);
      PlayOne(whole, steps, vol, Place());
      var a, b := input[pos], input[pos + 1];
      WindowAt(whole, base, input[..], have, pos);
      WindowAt(whole, base, input[..], have, pos + 1);
      pcm[k] := Pair(Between(a.second, b.second, frac, vol), Between(a.first, b.first, frac, vol));
      next := k + 1;
      CloseSteps(step);
      assert KeepsOne(have, pos, frac, step);
      frac := frac + step;
      pos := pos + frac / 65536;
      frac := frac % 65536;
    }

    /** Whatever room each call finds and wherever the frames end, what has been written is what the
        flat player writes for the same amount of room: no sample at a seam is lost, repeated or
        interpolated from a wrong neighbour. */
    method PumpRun(spaces: seq<nat>)
      requires Valid()
      modifies this`have, this`pos, this`frac, this`step, this`rate, this`pending, this`sent, this`base, input, pcm
      ensures Valid()
      ensures sent == old(sent) + Play(whole, steps, vol, old(Place()), Granted(spaces, CHUNK))
      ensures Place() == After(whole, steps, old(Place()), Granted(spaces, CHUNK))
    {
      hide Play, After, Samples, Steps, StepOf, Ahead, Window, AllValid;
      ghost var start := Place();
      PlayNone(whole, steps, vol, start);
      var i := 0;
      while i < |spaces|
        invariant Valid() && 0 <= i <= |spaces|
        invariant sent == old(sent) + Play(whole, steps, vol, start, Granted(spaces[..i], CHUNK))
        invariant Place() == After(whole, steps, start, Granted(spaces[..i], CHUNK))
      {
        assert spaces[..i + 1][..i] == spaces[..i];
        PlaySplit(whole, steps, vol, start, Granted(spaces[..i], CHUNK), Min(spaces[i], CHUNK));
        var _ := Pump(spaces[i]);
        i := i + 1;
      }
      assert spaces[..|spaces|] == spaces;
    }

    /** mp3s_open: the first frame is decoded at once; the stream still starts at its first sample. */
    method Open() returns (ok: bool)
      requires Valid() && have == 0 && pos == 0 && frac == 0
      modifies this`have, this`step, this`rate, this`pending, input
      ensures Valid() && Place() == old(Place())
      ensures ok <==> old(pending) != []
    {
      var got, samprate := Decode(0);
      ok := got > 0;
      if ok {
        Appended(old(pending), base);
        have := got;
        rate := samprate;
        step := StepOf(samprate);
      }
    }

    /** mp3s_restart after a seek: the frames found from there are a stream of their own. */
    method Restart(fs: seq<Frame>)
      requires Valid() && AllValid(fs)
      modifies this`have, this`pos, this`frac, this`pending, this`whole, this`steps, this`base
      ensures Valid() && Place() == Cursor(0, 0) && whole == Samples(fs) && steps == Steps(fs)
    {
      have, pos, frac := 0, 0, 0;
      pending := fs;
      whole, steps, base := Samples(fs), Steps(fs), 0;
    }
  }

  /** An MP3 of one rate, opened and pumped in any way, sounds like the same samples in a WAV file. */
  method SameAsWav(fs: seq<Frame>, data: seq<int>, rate: u32, spaces: seq<nat>) returns (mp3: seq<Pair>, wav: seq<Pair>)
    requires forall i :: 0 <= i < |fs| ==> fs[i].Valid() && fs[i].rate == rate
    requires 8000 <= rate <= 96000 && Stereo(data, 2) == Samples(fs)
    ensures mp3 == wav
    ensures wav == Play(Samples(fs), Repeated(StepOf(rate), |Samples(fs)|), 256, Cursor(0, 0), Granted(spaces, CHUNK))
  {
    hide Play, After, Stereo, StepOf, Samples, Steps, Granted, Repeated;
    OneRate(fs, rate);
    var stream := new Stream(fs);
    var _ := stream.Open();
    stream.PumpRun(spaces);
    mp3 := stream.sent;
    wav := PlayWav(data, 2, rate, 256, spaces);
  }
}
