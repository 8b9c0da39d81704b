/** doom/dg_music.c: the score of a MUS file, and the clock of 140 ticks a second it runs on. */
module MusScore {
  import opened Machine

  /** What an event asks of the synthesizer. */
  datatype Event =
    | NoteOff(chan: nat, note: nat)
    | NoteOn(chan: nat, note: nat, velocity: nat)
    | Bend(chan: nat, value: nat)
    | System(chan: nat, what: nat)
    | Control(chan: nat, what: nat, value: nat)
    | Silence
    | Reset

  /** Place in the score, ticks until the next event, the last velocity of each channel, and all
      events so far. */
  datatype Song = Song(pos: nat, delay: int, playing: bool, vel: seq<nat>, log: seq<Event>)

  const LOUD: seq<nat> := [127, 127, 127, 127, 127, 127, 127, 127, 127, 127, 127, 127, 127, 127, 127, 127]

  /** next_byte: zeros past the end. */
  function ByteAt(s: Octets, pos: nat): Byte {
    if pos < |s| then s[pos] else 0
  }

  function Past(s: Octets, pos: nat): nat {
    if pos < |s| then pos + 1 else pos
  }

  predicate Valid(s: Octets, m: Song) {
    m.pos <= |s| && |m.vel| == 16
  }

  /** An event byte with its data; the delay, if any, comes after. None at the end of the score. */
  function Play(s: Octets, m: Song): (r: Song)
    requires Valid(s, m) && m.pos < |s|
    ensures Valid(s, r) && r.pos > m.pos && r.delay == m.delay && r.playing == m.playing
  {
    var ev := s[m.pos];
    var kind, chan := ev / 16 % 8, ev % 16;
    var p := m.pos + 1;
    var b := ByteAt(s, p);
    var q := Past(s, p);
    var c := ByteAt(s, q);
    if kind == 0 then m.(pos := q, log := m.log + [NoteOff(chan, b % 0x80)])
    else if kind == 1 then
      if b >= 0x80 then m.(pos := Past(s, q), vel := m.vel[chan := c % 0x80],
                           log := m.log + [NoteOn(chan, b % 0x80, c % 0x80)])
      else m.(pos := q, log := m.log + [NoteOn(chan, b % 0x80, m.vel[chan])])
    else if kind == 2 then m.(pos := q, log := m.log + [Bend(chan, b)])
    else if kind == 3 then m.(pos := q, log := m.log + [System(chan, b)])
    else if kind == 4 then m.(pos := Past(s, q), log := m.log + [Control(chan, b, c % 0x80)])
    else m.(pos := p)
  }

  /** The delay after an event: seven bits a byte, high first. */
  function Delay(s: Octets, pos: nat, d: int): (r: (nat, int))
    requires pos <= |s|
    ensures pos <= r.0 <= |s|
    decreases |s| - pos
  {
    var b := ByteAt(s, pos);
    var e := Signed32(d * 0x80) + b % 0x80;
    var p := Past(s, pos);
    if b >= 0x80 && p < |s| then Delay(s, p, e) else (p, e)
  }

  /** run_events: up to the next delay, or to the end. */
  function RunEvents(s: Octets, m: Song): (r: (Song, bool))
    requires Valid(s, m)
    ensures Valid(s, r.0) && r.0.playing == m.playing
    ensures r.1 ==> r.0.delay > 0
    ensures !r.1 ==> r.0.delay == m.delay
    decreases |s| - m.pos
  {
    if m.pos >= |s| then (m, false)
    else
      var ev := s[m.pos];
      var n := Play(s, m);
      if ev / 16 % 8 == 6 then (n, false)
      else if ev >= 0x80 then
        var d := Delay(s, n.pos, 0);
        if d.1 > 0 then (n.(pos := d.0, delay := d.1), true) else RunEvents(s, n.(pos := d.0))
      else RunEvents(s, n)
  }

  /** music_tick, while the song plays and is not paused. */
  function Tick(s: Octets, looping: bool, m: Song): (r: Song)
    requires Valid(s, m) && m.playing && m.delay >= 0
    ensures Valid(s, r) && (r.playing ==> r.delay > 0)
  {
    if m.delay > 1 then m.(delay := m.delay - 1)
    else
      var a := RunEvents(s, m.(delay := 0));
      if a.1 then a.0
      else
        var e := a.0.(log := a.0.log + [Silence]);
        if !looping then e.(playing := false)
        else
          var b := RunEvents(s, Restarted(e));
          if b.1 then b.0 else b.0.(log := b.0.log + [Silence], playing := false)
  }

  function Restarted(m: Song): Song {
    m.(pos := 0, delay := 0, vel := LOUD, log := m.log + [Reset])
  }

  /** music_tick; between ticks a playing song always has a delay pending. */
  function Ticked(s: Octets, looping: bool, paused: bool, m: Song): (r: Song)
    requires Valid(s, m) && m.delay >= 0
    ensures Valid(s, r) && (r.playing && !paused ==> r.delay > 0) && (!m.playing || paused ==> r == m)
    ensures r.delay >= 0
  {
    if !m.playing || paused then m else Tick(s, looping, m)
  }

  function Ticks(s: Octets, looping: bool, paused: bool, m: Song, n: nat): (r: Song)
    requires Valid(s, m) && m.delay >= 0
    ensures Valid(s, r) && r.delay >= 0
  {
    if n == 0 then m else Ticked(s, looping, paused, Ticks(s, looping, paused, m, n - 1))
  }

  lemma {:induction false} TicksAdd(s: Octets, looping: bool, paused: bool, m: Song, a: nat, b: nat)
    requires Valid(s, m) && m.delay >= 0
    ensures Ticks(s, looping, paused, Ticks(s, looping, paused, m, a), b) == Ticks(s, looping, paused, m, a + b)
    decreases b
  {
    hide Ticked;
    if b > 0 {
      TicksAdd(s, looping, paused, m, a, b - 1);
    }
  }
}

/** A writer of scores, and what the player's reader makes of what it writes. */
module MusWriter {
  import opened Arith
  import opened Machine
  import opened MusScore

  /** The events of a score, with the values a MUS file can hold. */
  predicate Written(e: Event) {
    match e
    case NoteOff(ch, n) => ch < 16 && n < 0x80
    case NoteOn(ch, n, v) => ch < 16 && n < 0x80 && v < 0x80
    case Bend(ch, v) => ch < 16 && v < 0x100
    case System(ch, w) => ch < 16 && w < 0x100
    case Control(ch, w, v) => ch < 16 && w < 0x100 && v < 0x80
    case _ => false
  }

  /** An event; bit 7 of its first byte says that a delay follows. */
  function Bytes(e: Event, last: bool): (s: Octets)
    requires Written(e)
    ensures |s| > 0
  {
    var bit := if last then 0x80 else 0;
    match e
    case NoteOff(ch, n) => [bit + ch, n]
    case NoteOn(ch, n, v) => [bit + 0x10 + ch, 0x80 + n, v]
    case Bend(ch, v) => [bit + 0x20 + ch, v]
    case System(ch, w) => [bit + 0x30 + ch, w]
    case Control(ch, w, v) => [bit + 0x40 + ch, w, v]
  }

  /** The first digits, seven bits a byte, of a number of which more come. */
  function HighDigits(d: nat): (s: Octets) {
    if d == 0 then [] else HighDigits(d / 0x80) + [0x80 + d % 0x80]
  }

  function Digits(d: nat): (s: Octets)
    ensures |s| > 0
  {
    HighDigits(d / 0x80) + [d % 0x80]
  }

  /** Events at one time, and the delay after them. */
  function Group(es: seq<Event>, d: nat): Octets
    requires es != [] && forall e :: e in es ==> Written(e)
  {
    assert es[0] in es;
    if |es| == 1 then Bytes(es[0], true) + Digits(d) else Bytes(es[0], false) + Group(es[1..], d)
  }

  /** The velocities after an event. */
  function Velocities(vel: seq<nat>, e: Event): (r: seq<nat>)
    requires |vel| == 16 && Written(e)
    ensures |r| == 16
  {
    match e
    case NoteOn(ch, _, v) => vel[ch := v]
    case _ => vel
  }

  function VelocitiesAll(vel: seq<nat>, es: seq<Event>): (r: seq<nat>)
    requires |vel| == 16 && forall e :: e in es ==> Written(e)
    ensures |r| == 16
    decreases |es|
  {
    if es == [] then vel else
    assert es[0] in es;
    VelocitiesAll(Velocities(vel, es[0]), es[1..])
  }

  ghost predicate StandsAt(s: Octets, pos: nat, w: Octets) {
    pos + |w| <= |s| && forall i :: 0 <= i < |w| ==> s[pos + i] == w[i]
  }

  lemma OneEvent(s: Octets, m: Song, e: Event, last: bool)
    requires Valid(s, m) && Written(e) && StandsAt(s, m.pos, Bytes(e, last))
    ensures Play(s, m) == m.(pos := m.pos + |Bytes(e, last)|, vel := Velocities(m.vel, e), log := m.log + [e])
    ensures s[m.pos] / 16 % 8 != 6 && (s[m.pos] >= 0x80 <==> last)
  {
    var w := Bytes(e, last);
    assert s[m.pos] == w[0] && s[m.pos + 1] == w[1];
    if |w| == 3 {
      assert s[m.pos + 2] == w[2];
    }
    EventByte(last, Kind(e), e.chan);
  }

  function Kind(e: Event): nat
    requires Written(e)
  {
    if e.NoteOff? then 0 else if e.NoteOn? then 1 else if e.Bend? then 2 else if e.System? then 3 else 4
  }

  lemma EventByte(last: bool, kind: nat, ch: nat)
    requires kind < 5 && ch < 16
    ensures var b := (if last then 0x80 else 0) + 0x10 * kind + ch;
            b / 16 % 8 == kind && b % 16 == ch && (b >= 0x80 <==> last)
  {
  }

  lemma Cut(s: Octets, pos: nat, a: Octets, b: Octets)
    requires StandsAt(s, pos, a + b)
    ensures StandsAt(s, pos, a) && StandsAt(s, pos + |a|, b)
  {
    assert forall i :: 0 <= i < |a| ==> (a + b)[i] == a[i];
    assert forall i :: 0 <= i < |b| ==> (a + b)[|a| + i] == b[i];
  }

  lemma OneDigit(s: Octets, pos: nat, d: nat)
    requires pos < |s| && d < 0x100_0000
    ensures var e := d * 0x80 + s[pos] % 0x80;
            Delay(s, pos, d) == if s[pos] >= 0x80 && pos + 1 < |s| then Delay(s, pos + 1, e) else (pos + 1, e)
  {
    Positive32(d * 0x80);
    hide Signed32;
  }

  lemma Positive32(x: nat)
    requires x < 0x8000_0000
    ensures Signed32(x) == x
  {
  }

  lemma {:induction false} ReadHigh(s: Octets, pos: nat, d: nat)
    requires d < 0x100_0000 && StandsAt(s, pos, HighDigits(d)) && pos + |HighDigits(d)| < |s|
    ensures Delay(s, pos, 0) == Delay(s, pos + |HighDigits(d)|, d)
  {
    hide Delay;
    if d > 0 {
      var high := HighDigits(d / 0x80);
      Cut(s, pos, high, [0x80 + d % 0x80]);
      ReadHigh(s, pos, d / 0x80);
      LastByte(s, pos + |high|, 0x80 + d % 0x80);
      OneDigit(s, pos + |high|, d / 0x80);
    }
  }

  lemma LastByte(s: Octets, pos: nat, b: Byte)
    requires StandsAt(s, pos, [b])
    ensures pos < |s| && s[pos] == b
  {
    assert s[pos + 0] == [b][0];
  }

  /** A delay of up to 31 bits is read back. */
  lemma ReadDigits(s: Octets, pos: nat, d: nat)
    requires d < 0x8000_0000 && StandsAt(s, pos, Digits(d))
    ensures Delay(s, pos, 0) == (pos + |Digits(d)|, d)
  {
    hide Delay;
    var high := HighDigits(d / 0x80);
    Cut(s, pos, high, [d % 0x80]);
    LastByte(s, pos + |high|, d % 0x80);
    ReadHigh(s, pos, d / 0x80);
    OneDigit(s, pos + |high|, d / 0x80);
  }

  lemma ReadLast(s: Octets, m: Song, e: Event, d: nat)
    requires Valid(s, m) && Written(e) && 0 < d < 0x8000_0000 && StandsAt(s, m.pos, Bytes(e, true) + Digits(d))
    ensures RunEvents(s, m) == (m.(pos := m.pos + |Bytes(e, true) + Digits(d)|, delay := d,
                                   vel := Velocities(m.vel, e), log := m.log + [e]), true)
  {
    hide Play, Bytes, Digits, Delay, Valid, StandsAt, RunEvents, Velocities, Written;
    Cut(s, m.pos, Bytes(e, true), Digits(d));
    Bounds(s, m, Bytes(e, true));
    OneEvent(s, m, e, true);
    OneRun(s, m);
    ReadDigits(s, m.pos + |Bytes(e, true)|, d);
  }

  lemma ReadOne(s: Octets, m: Song, e: Event, rest: Octets)
    requires Valid(s, m) && Written(e) && StandsAt(s, m.pos, Bytes(e, false) + rest)
    ensures var n := m.(pos := m.pos + |Bytes(e, false)|, vel := Velocities(m.vel, e), log := m.log + [e]);
            Valid(s, n) && StandsAt(s, n.pos, rest) && RunEvents(s, m) == RunEvents(s, n)
  {
    hide Play, Bytes, Valid, StandsAt, RunEvents, Velocities, Written;
    Cut(s, m.pos, Bytes(e, false), rest);
    Bounds(s, m, Bytes(e, false));
    OneEvent(s, m, e, false);
    OneRun(s, m);
  }

  /** The events of a group come back in order, and then its delay, wherever it stands in a score. */
  lemma {:induction false} ReadGroup(s: Octets, m: Song, es: seq<Event>, d: nat)
    requires Valid(s, m) && es != [] && (forall e :: e in es ==> Written(e)) && 0 < d < 0x8000_0000
    requires StandsAt(s, m.pos, Group(es, d))
    ensures RunEvents(s, m) ==
            (m.(pos := m.pos + |Group(es, d)|, delay := d, vel := VelocitiesAll(m.vel, es), log := m.log + es), true)
    decreases |es|
  {
    hide Bytes, Digits, Valid, StandsAt, RunEvents, Velocities, Written;
    assert es[0] in es;
    SixteenKept(s, m);
    if |es| == 1 {
      ReadLast(s, m, es[0], d);
      assert es == [es[0]] && es[1..] == [];
      assert VelocitiesAll(Velocities(m.vel, es[0]), []) == Velocities(m.vel, es[0]);
    } else {
      ReadOne(s, m, es[0], Group(es[1..], d));
      var n := m.(pos := m.pos + |Bytes(es[0], false)|, vel := Velocities(m.vel, es[0]), log := m.log + [es[0]]);
      ReadGroup(s, n, es[1..], d);
      assert m.log + [es[0]] + es[1..] == m.log + es;
    }
  }

  // ---- a whole song ----

  /** A score of one group, and the end mark. */
  function Score(es: seq<Event>, d: nat): Octets
    requires es != [] && forall e :: e in es ==> Written(e)
  {
    Group(es, d) + [0x60]
  }

  /** The song stands behind its group, with the whole delay to come. */
  ghost predicate Waiting(m: Song, es: seq<Event>, d: nat)
    requires es != [] && forall e :: e in es ==> Written(e)
  {
    m.pos == |Group(es, d)| && m.delay == d && m.playing && |m.vel| == 16
  }

  lemma GroupAtFront(es: seq<Event>, d: nat)
    requires es != [] && forall e :: e in es ==> Written(e)
    ensures StandsAt(Score(es, d), 0, Group(es, d))
  {
  }

  /** From its start a song plays its group at the first tick. */
  lemma PlaysFirst(es: seq<Event>, d: nat, looping: bool, m: Song)
    requires es != [] && (forall e :: e in es ==> Written(e)) && 0 < d < 0x8000_0000
    requires m.pos == 0 && m.delay == 0 && m.playing && |m.vel| == 16
    ensures var r := Ticked(Score(es, d), looping, false, m); Waiting(r, es, d) && r.log == m.log + es
  {
    GroupAtFront(es, d);
    ReadGroup(Score(es, d), m, es, d);
    hide Group, RunEvents;
    assert m.(delay := 0) == m;
  }

  lemma {:induction false} CountsDown(s: Octets, looping: bool, m: Song, n: nat)
    requires Valid(s, m) && m.playing && n < m.delay
    ensures Ticks(s, looping, false, m, n) == m.(delay := m.delay - n)
  {
    hide RunEvents;
    if n > 0 {
      CountsDown(s, looping, m, n - 1);
    }
  }

  /** The end mark ends the events. */
  lemma AtEnd(es: seq<Event>, d: nat, m: Song)
    requires es != [] && (forall e :: e in es ==> Written(e)) && Waiting(m, es, d)
    ensures var s := Score(es, d);
            Valid(s, m.(delay := 0)) && RunEvents(s, m.(delay := 0)) == (m.(delay := 0, pos := m.pos + 1), false)
  {
    hide Group;
    var s := Score(es, d);
    assert s[m.pos] == 0x60;
  }

  /** A delay later a song that loops plays its group again, after silence and a reset; any other stops. */
  lemma PlaysAgain(es: seq<Event>, d: nat, looping: bool, m: Song)
    requires es != [] && (forall e :: e in es ==> Written(e)) && 0 < d < 0x8000_0000 && Waiting(m, es, d)
    ensures var s := Score(es, d);
            Valid(s, m) &&
            var r := Ticks(s, looping, false, m, d);
            if looping then Waiting(r, es, d) && r.log == m.log + ([Silence, Reset] + es)
            else !r.playing && r.log == m.log + [Silence]
  {
    hide Group, RunEvents, Tick;
    var s := Score(es, d);
    AtEnd(es, d, m);
    CountsDown(s, looping, m, d - 1);
    var last := m.(delay := 1);
    EndTick(es, d, looping, last, m);
  }

  lemma EndTick(es: seq<Event>, d: nat, looping: bool, last: Song, m: Song)
    requires es != [] && (forall e :: e in es ==> Written(e)) && 0 < d < 0x8000_0000
    requires Waiting(m, es, d) && last == m.(delay := 1)
    ensures var s := Score(es, d);
            Valid(s, last) &&
            var r := Tick(s, looping, last);
            if looping then Waiting(r, es, d) && r.log == m.log + ([Silence, Reset] + es)
            else !r.playing && r.log == m.log + [Silence]
  {
    hide Group, RunEvents, Tick, Score, Waiting;
    var s := Score(es, d);
    AtEnd(es, d, m);
    WaitingIs(es, d, m);
    var e := m.(delay := 0, pos := m.pos + 1, log := m.log + [Silence]);
    EndOfScore(s, looping, last);
    if looping {
      var b := Restarted(e);
      GroupAtFront(es, d);
      ReadGroup(s, b, es, d);
      WaitingNow(es, d, RunEvents(s, b).0);
      assert m.log + [Silence] + [Reset] + es == m.log + ([Silence, Reset] + es);
    }
  }

  lemma WaitingIs(es: seq<Event>, d: nat, m: Song)
    requires es != [] && (forall e :: e in es ==> Written(e)) && Waiting(m, es, d)
    ensures m.pos == |Group(es, d)| && m.playing && |m.vel| == 16
    ensures m.pos < |Score(es, d)|
  {
  }

  lemma WaitingNow(es: seq<Event>, d: nat, m: Song)
    requires es != [] && forall e :: e in es ==> Written(e)
    requires m.pos == |Group(es, d)| && m.delay == d && m.playing && |m.vel| == 16
    ensures Waiting(m, es, d)
  {
  }

  lemma EndOfScore(s: Octets, looping: bool, m: Song)
    requires Valid(s, m) && m.playing && 0 <= m.delay <= 1 && !RunEvents(s, m.(delay := 0)).1
    ensures var a := RunEvents(s, m.(delay := 0)).0;
            var e := a.(log := a.log + [Silence]);
            Tick(s, looping, m) ==
            if !looping then e.(playing := false)
            else
              var b := RunEvents(s, Restarted(e));
              if b.1 then b.0 else b.0.(log := b.0.log + [Silence], playing := false)
  {
    hide RunEvents;
  }

  function Encores(es: seq<Event>, k: nat): seq<Event> {
    if k == 0 then [] else Encores(es, k - 1) + ([Silence, Reset] + es)
  }

  /** A song that loops goes on for ever: after k delays its group has come k more times. */
  lemma {:induction false} LoopsForever(es: seq<Event>, d: nat, m: Song, k: nat)
    requires es != [] && (forall e :: e in es ==> Written(e)) && 0 < d < 0x8000_0000
    requires m.pos == 0 && m.delay == 0 && m.playing && |m.vel| == 16
    ensures var r := Ticks(Score(es, d), true, false, m, 1 + k * d);
            Waiting(r, es, d) && r.log == m.log + es + Encores(es, k)
  {
    hide Group, RunEvents, Ticked, Score;
    var s := Score(es, d);
    if k == 0 {
      PlaysFirst(es, d, true, m);
      assert Ticks(s, true, false, m, 0) == m;
      assert m.log + es + [] == m.log + es;
    } else {
      LoopsForever(es, d, m, k - 1);
      var r := Ticks(s, true, false, m, 1 + (k - 1) * d);
      PlaysAgain(es, d, true, r);
      TicksAdd(s, true, false, m, 1 + (k - 1) * d, d);
      assert 1 + (k - 1) * d + d == 1 + k * d;
      assert m.log + es + Encores(es, k - 1) + ([Silence, Reset] + es) == m.log + es + Encores(es, k);
    }
  }

  lemma SixteenKept(s: Octets, m: Song)
    requires Valid(s, m)
    ensures |m.vel| == 16
  {
  }

  lemma OneRun(s: Octets, m: Song)
    requires Valid(s, m) && m.pos < |s| && s[m.pos] / 16 % 8 != 6
    ensures var n := Play(s, m);
            RunEvents(s, m) ==
            if s[m.pos] < 0x80 then RunEvents(s, n)
            else
              var d := Delay(s, n.pos, 0);
              if d.1 > 0 then (n.(pos := d.0, delay := d.1), true) else RunEvents(s, n.(pos := d.0))
  {
    hide Play, Delay;
  }

  lemma Bounds(s: Octets, m: Song, w: Octets)
    requires Valid(s, m) && StandsAt(s, m.pos, w) && |w| > 0
    ensures m.pos < |s| && |m.vel| == 16
  {
  }
}

/** The player: one tick every 48000 / 140 samples, however the samples are asked for. */
module MusClock {
  import opened Arith
  import opened Machine
  import opened MusScore

  const RATE: nat := 48000
  const TICK_HZ: nat := 140

  /** The ticks due after n samples, and the sample the k-th tick (from 0) comes at. */
  function Due(n: nat): nat {
    n * TICK_HZ / RATE
  }

  function TickAt(k: nat): nat {
    ((k + 1) * RATE + TICK_HZ - 1) / TICK_HZ
  }

  /** 140 ticks in every second of 48000 samples. */
  lemma EverySecond(seconds: nat)
    ensures Due(48000 * seconds) == 140 * seconds
  {
  }

  lemma TickAtIsFirst(k: nat)
    ensures TickAt(k) > 0 && Due(TickAt(k)) == k + 1 && Due(TickAt(k) - 1) == k
  {
    var t := TickAt(k);
    assert t * TICK_HZ >= (k + 1) * RATE && t * TICK_HZ < (k + 1) * RATE + TICK_HZ;
    DivUnique(t * TICK_HZ, RATE, k + 1);
    DivUnique((t - 1) * TICK_HZ, RATE, k);
  }

  class Player {
    const score: Octets
    var pos: nat
    var delay: int
    var playing: bool
    var paused: bool
    var looping: bool
    var vel: seq<nat>
    var log: seq<Event>
    var tickAcc: nat
    /** Samples since mus_play, and the samples at which ticks came. */
    ghost var samples: nat
    ghost var when: seq<nat>

    ghost function Now(): Song
      reads this
    {
      Song(pos, delay, playing, vel, log)
    }

    ghost predicate Valid()
      reads this
    {
      && MusScore.Valid(score, Now()) && delay >= 0
      && tickAcc < RATE && samples * TICK_HZ == |when| * RATE + tickAcc
      && forall k :: 0 <= k < |when| ==> when[k] == TickAt(k)
    }

    /** mus_play */
    constructor (bytes: Octets, loop: bool)
      ensures Valid() && score == bytes && looping == loop && !paused && playing
      ensures samples == 0 && when == [] && Now() == Song(0, 0, true, LOUD, [Silence, Reset])
    {
      score, looping, paused, playing := bytes, loop, false, true;
      pos, delay, vel, log := 0, 0, LOUD, [Silence, Reset];
      tickAcc, samples, when := 0, 0, [];
    }

    method NextByte() returns (b: Byte)
      requires pos <= |score|
      modifies this`pos
      ensures b == ByteAt(score, old(pos)) && pos == Past(score, old(pos))
    {
      if pos < |score| {
        b := score[pos];
        pos := pos + 1;
      } else {
        b := 0;
      }
    }

    /** The switch of run_events on an event byte; false for the end of the score. */
    method Dispatch(ev: Byte) returns (more: bool)
      requires 0 < pos <= |score| && |vel| == 16 && score[pos - 1] == ev
      modifies this`pos, this`vel, this`log
      ensures Now() == Play(score, old(Now()).(pos := old(pos) - 1))
      ensures more <==> ev / 16 % 8 != 6
    {
      var kind, chan := ev / 16 % 8, ev % 16;
      more := true;
      if kind == 0 {
        var b := NextByte();
        log := log + [NoteOff(chan, b % 0x80)];
      } else if kind == 1 {
        var b := NextByte();
        if b >= 0x80 {
          var v := NextByte();
          vel := vel[chan := v % 0x80];
        }
        log := log + [NoteOn(chan, b % 0x80, vel[chan])];
      } else if kind == 2 {
        var b := NextByte();
        log := log + [Bend(chan, b)];
      } else if kind == 3 {
        var b := NextByte();
        log := log + [System(chan, b)];
      } else if kind == 4 {
        var b := NextByte();
        var val := NextByte();
        log := log + [Control(chan, b, val % 0x80)];
      } else if kind == 6 {
        more := false;
      }
    }

    /** The do-while of run_events. */
    method ReadDelay() returns (d: int)
      requires pos <= |score|
      modifies this`pos
      ensures (pos, d) == Delay(score, old(pos), 0)
    {
      d := 0;
      var b := NextByte();
      d := Signed32(d * 0x80) + b % 0x80;
      while b >= 0x80 && pos < |score|
        invariant pos <= |score|
        invariant (if b >= 0x80 && pos < |score| then Delay(score, pos, d) else (pos, d)) == Delay(score, old(pos), 0)
        decreases |score| - pos
      {
        b := NextByte();
        d := Signed32(d * 0x80) + b % 0x80;
      }
    }

    /** run_events; it ends, because every event takes at least a byte. */
    method RunTheEvents() returns (more: bool)
      requires MusScore.Valid(score, Now())
      modifies this`pos, this`delay, this`vel, this`log
      ensures (Now(), more) == RunEvents(score, old(Now()))
    {
      while true
        invariant MusScore.Valid(score, Now())
        invariant RunEvents(score, Now()) == RunEvents(score, old(Now()))
        decreases |score| - pos
      {
        if pos >= |score| {
          return false;
        }
        var ev := NextByte();
        var on := Dispatch(ev);
        if !on {
          return false;
        }
        if ev >= 0x80 {
          var d := ReadDelay();
          if d > 0 {
            delay := d;
            return true;
          }
        }
      }
    }

    /** music_tick; at most one restart. */
    method MusicTick()
      requires MusScore.Valid(score, Now()) && delay >= 0
      modifies this`pos, this`delay, this`vel, this`log, this`playing
      ensures Now() == Ticked(score, looping, paused, old(Now()))
    {
      hide RunEvents;
      var restarts := 0;
      if !playing || paused {
        return;
      }
      if delay > 0 {
        delay := delay - 1;
        if delay > 0 {
          return;
        }
      }
      ghost var start := Now();
      while delay == 0
        invariant MusScore.Valid(score, Now()) && delay >= 0 && playing && !paused
        invariant restarts == 0 || (restarts == 1 && looping)
        invariant restarts == 0 ==> delay == 0 && Now() == start
        invariant restarts == 1 ==>
                    var (end, more) := RunEvents(score, start);
                    !more && Now() == Restarted(end.(log := end.log + [Silence]))
        decreases 1 - restarts
      {
        var more := RunTheEvents();
        if more {
          return;
        }
        log := log + [Silence];
        if looping && restarts == 0 {
          restarts := restarts + 1;
          pos, delay, vel, log := 0, 0, LOUD, log + [Reset];
          continue;
        }
        playing := false;
        return;
      }
    }

    /** The clock of dg_music_render: n more samples. Ticks come at their samples, whatever the split. */
    method Render(n: nat)
      requires Valid()
      modifies this
      ensures Valid() && samples == old(samples) + n
      ensures |when| == Due(samples) && |when| >= |old(when)|
      ensures looping == old(looping) && paused == old(paused)
      ensures Now() == Ticks(score, looping, paused, old(Now()), |when| - |old(when)|)
    {
      hide Ticked, TickAt;
      var left := n;
      while left > 0
        invariant Valid() && 0 <= left <= n && samples == old(samples) + (n - left)
        invariant |when| >= |old(when)| && looping == old(looping) && paused == old(paused)
        invariant Now() == Ticks(score, looping, paused, old(Now()), |when| - |old(when)|)
      {
        var seg := (RATE - tickAcc + TICK_HZ - 1) / TICK_HZ;
        if seg > left {
          seg := left;
        }
        Segment(tickAcc, seg, left);
        left := left - seg;
        samples := samples + seg;
        tickAcc := tickAcc + seg * TICK_HZ;
        if tickAcc >= RATE {
          TickHere(samples, |when|, tickAcc);
          tickAcc := tickAcc - RATE;
          when := when + [samples];
          MusicTick();
        }
      }
      DivUnique(samples * TICK_HZ, RATE, |when|);
    }
  }

  lemma Segment(acc: nat, seg: nat, left: nat)
    requires acc < RATE && left > 0 && seg == Min((RATE - acc + TICK_HZ - 1) / TICK_HZ, left)
    ensures 1 <= seg && acc + seg * TICK_HZ < RATE + TICK_HZ
  {
  }

  lemma TickHere(samples: nat, k: nat, acc: nat)
    requires samples * TICK_HZ == k * RATE + acc && RATE <= acc < RATE + TICK_HZ
    ensures samples == TickAt(k)
  {
    DivUnique((k + 1) * RATE + TICK_HZ - 1, TICK_HZ, samples);
  }

  /** However the samples of a stretch are split over calls, the song and the ticks end up the same. */
  method PlayInPieces(p: Player, pieces: seq<nat>)
    requires p.Valid()
    modifies p
    ensures p.Valid() && p.samples == old(p.samples) + Total(pieces)
    ensures p.looping == old(p.looping) && p.paused == old(p.paused)
    ensures p.Now() == Ticks(p.score, p.looping, p.paused, old(p.Now()), Due(p.samples) - Due(old(p.samples)))
  {
    hide Ticks, Due, TickAt;
    var i := 0;
    DueNow(p);
    TicksNone(p.score, p.looping, p.paused, p.Now());
    while i < |pieces|
      invariant 0 <= i <= |pieces| && p.Valid() && p.samples == old(p.samples) + Total(pieces[..i])
      invariant p.looping == old(p.looping) && p.paused == old(p.paused)
      invariant |p.when| == Due(p.samples) >= Due(old(p.samples))
      invariant p.Now() == Ticks(p.score, p.looping, p.paused, old(p.Now()), Due(p.samples) - Due(old(p.samples)))
    {
      assert pieces[..i + 1][..i] == pieces[..i];
      ghost var was := Due(p.samples);
      p.Render(pieces[i]);
      TicksAdd(p.score, p.looping, p.paused, old(p.Now()), was - Due(old(p.samples)), Due(p.samples) - was);
      i := i + 1;
    }
    assert pieces[..|pieces|] == pieces;
  }

  lemma TicksNone(s: Octets, looping: bool, paused: bool, m: Song)
    requires MusScore.Valid(s, m) && m.delay >= 0
    ensures Ticks(s, looping, paused, m, 0) == m
  {
  }

  lemma DueNow(p: Player)
    requires p.Valid()
    ensures |p.when| == Due(p.samples)
  {
    DivUnique(p.samples * TICK_HZ, RATE, |p.when|);
  }
}
