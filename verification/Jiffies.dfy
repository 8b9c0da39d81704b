/** sdk/runtime.c: U-Boot's millisecond clock, and the one that replaces it while a scheduler owns
    CP0 Compare. Time is an unbounded count; the code sees its low 32 bits. */
module Jiffies {
  import opened Arith
  import opened Machine

  /** The jiffies finished at a time, counted from an origin. */
  function Elapsed(now: nat, origin: nat, jiffy: nat): nat
    requires origin <= now && jiffy > 0
  {
    (now - origin) / jiffy
  }

  class Clock {
    const jiffy: u32
    /** U-Boot's get_timer counts on while Count is fewer than this past Compare. Its code is not in the
        repository, so the window is whatever it is. */
    const window: nat
    /** tm_code: whether get_timer is redirected. */
    var owned: bool
    var tmMs: u32
    var tmCount: u32
    /** U-Boot's state: CP0 Compare and its static timestamp. */
    var compare: u32
    var stamp: u32

    /** The last jiffy boundary counted, and how many there were since the origin. */
    ghost var edge: nat
    ghost var counted: nat
    ghost const origin: nat

    ghost predicate Valid()
      reads this
    {
      && jiffy > 0 && jiffy + window <= M32 && edge == origin + counted * jiffy
      && if owned then tmCount == Wrap(edge) && tmMs == Wrap(counted)
         else compare == Wrap(edge + jiffy) && stamp == Wrap(counted)
    }

    /** A call at a time the clock in charge can still tell: fewer than 2^32 counts past the last
        boundary, or inside U-Boot's window past the next one. */
    ghost predicate InTime(now: nat)
      reads this
    {
      edge <= now < edge + Range(owned, jiffy, window)
    }

    /** U-Boot has just started to count. */
    constructor (now: nat, j: u32, w: nat)
      requires j > 0 && j + w <= M32
      ensures Valid() && !owned && origin == now && edge == now && counted == 0 && jiffy == j && window == w
    {
      jiffy, window, owned, tmMs, tmCount := j, w, false, 0, 0;
      compare, stamp := Wrap(now + j), 0;
      edge, counted, origin := now, 0, now;
    }

    /** U-Boot's get_timer(0): Compare is moved past Count one jiffy at a time. */
    method UbGetTimer(now: nat) returns (ms: u32)
      requires Valid() && !owned && InTime(now)
      modifies this`compare, this`stamp, this`edge, this`counted
      ensures Valid() && edge <= now < edge + jiffy && counted >= old(counted)
      ensures ms == stamp
    {
      hide Wrap;
      var count := Wrap(now);
      Distance(now, edge, jiffy, window);
      while Wrap(count - compare) < window
        invariant Valid() && InTime(now) && counted >= old(counted)
        invariant Wrap(count - compare) < window <==> now - edge >= jiffy
        decreases now - edge
      {
        MulSucc(counted, jiffy);
        NextEdge(edge, jiffy);
        compare := Wrap(compare + jiffy);
        stamp := Wrap(stamp + 1);
        NextCount(counted);
        edge, counted := edge + jiffy, counted + 1;
        Distance(now, edge, jiffy, window);
      }
      ms := stamp;
    }

    /** tm_now, interrupts off. */
    method TmNow(now: nat) returns (ms: u32)
      requires Valid() && owned && InTime(now)
      modifies this`tmMs, this`tmCount, this`edge, this`counted
      ensures Valid() && edge <= now < edge + jiffy && counted >= old(counted)
      ensures ms == tmMs
    {
      hide Wrap;
      Difference(now, edge);
      ghost var q := (now - edge) / jiffy;
      var n := Wrap(Wrap(now) - tmCount) / jiffy;
      DivBounds(now - edge, jiffy);
      tmMs := Wrap(tmMs + n);
      tmCount := Wrap(tmCount + Wrap(n * jiffy));
      Advance(edge, q * jiffy);
      Advance(counted, q);
      Together(counted, q, jiffy);
      edge, counted := edge + q * jiffy, counted + q;
      ms := tmMs;
    }

    /** What a client reads, through whichever clock is in charge: the jiffies since the origin. */
    method GetTimer(now: nat) returns (ms: u32)
      requires Valid() && InTime(now)
      modifies this`tmMs, this`tmCount, this`compare, this`stamp, this`edge, this`counted
      ensures Valid() && edge <= now < edge + jiffy && counted >= old(counted)
      ensures now >= origin && ms == Wrap(Elapsed(now, origin, jiffy))
    {
      if owned {
        ms := TmNow(now);
      } else {
        ms := UbGetTimer(now);
      }
      Whole(now - origin, counted, jiffy);
    }

    /** sdk_timer_own: the milliseconds and the last boundary are taken over from U-Boot. */
    method Own(now: nat)
      requires Valid() && InTime(now)
      modifies this`owned, this`tmMs, this`tmCount, this`compare, this`stamp, this`edge, this`counted
      ensures Valid() && owned && InTime(now) && counted >= old(counted)
      ensures if old(owned) then edge == old(edge) else now < edge + jiffy
    {
      if owned {
        return;
      }
      tmMs := UbGetTimer(now);
      tmCount := Wrap(compare - jiffy);
      Back(edge, jiffy);
      owned := true;
    }

    /** sdk_timer_tick */
    method Tick(now: nat)
      requires Valid() && InTime(now)
      modifies this`tmMs, this`tmCount, this`edge, this`counted
      ensures Valid() && InTime(now) && counted >= old(counted)
      ensures if old(owned) then now < edge + jiffy else edge == old(edge)
    {
      if owned {
        var _ := TmNow(now);
      }
    }

    /** sdk_timer_release: U-Boot carries on from our milliseconds and our next boundary. */
    method Release(now: nat)
      requires Valid() && InTime(now)
      modifies this`owned, this`tmMs, this`tmCount, this`compare, this`stamp, this`edge, this`counted
      ensures Valid() && !owned && InTime(now) && counted >= old(counted)
      ensures if old(owned) then now < edge + jiffy else edge == old(edge)
    {
      if !owned {
        return;
      }
      stamp := TmNow(now);
      compare := Wrap(tmCount + jiffy);
      Advance(edge, jiffy);
      owned := false;
    }

    /** One call of a schedule. */
    method Serve(c: Call) returns (ms: u32)
      requires Valid() && InTime(c.at)
      modifies this
      ensures Valid() && owned == Owned(c.what, old(owned))
      ensures edge == EdgeAfter(c, old(owned), old(edge), jiffy)
      ensures c.what == Read ==> c.at >= origin && ms == Wrap(Elapsed(c.at, origin, jiffy))
    {
      hide Wrap;
      ms := 0;
      match c.what {
        case Read => ms := GetTimer(c.at);
        case TakeOver => Own(c.at);
        case TickHook => Tick(c.at);
        case HandBack => Release(c.at);
      }
      if Counts(c.what, old(owned)) {
        SameGrid(c.at, origin, old(counted), counted, jiffy);
      }
    }

    /** Any schedule of readings, hand-overs and ticks each of which comes in time: every reading is
        the number of jiffies since the origin, none lost and none counted twice. */
    method Run(calls: seq<Call>) returns (read: seq<u32>)
      requires Valid() && Paced(calls, owned, edge, jiffy, window)
      modifies this
      ensures Valid() && |read| == |calls|
      ensures forall i :: 0 <= i < |calls| && calls[i].what == Read ==>
                calls[i].at >= origin && read[i] == Wrap(Elapsed(calls[i].at, origin, jiffy))
    {
      read := [];
      var i := 0;
      assert calls[0..] == calls;
      while i < |calls|
        invariant 0 <= i <= |calls| && Valid() && |read| == i
        invariant Paced(calls[i..], owned, edge, jiffy, window)
        invariant forall k :: 0 <= k < i && calls[k].what == Read ==>
                    calls[k].at >= origin && read[k] == Wrap(Elapsed(calls[k].at, origin, jiffy))
      {
        assert calls[i..][1..] == calls[i + 1..];
        var ms := Serve(calls[i]);
        read := read + [ms];
        i := i + 1;
      }
    }
  }

  /** How far past the last boundary counted the clock in charge still tells the time. */
  function Range(owned: bool, jiffy: nat, window: nat): nat {
    if owned then M32 else jiffy + window
  }

  datatype What = Read | TakeOver | TickHook | HandBack

  datatype Call = Call(at: nat, what: What)

  /** Whether a call brings the clock up to date, and who owns Compare after it. */
  predicate Counts(what: What, owned: bool) {
    match what
    case Read => true
    case TakeOver => !owned
    case TickHook => owned
    case HandBack => owned
  }

  predicate Owned(what: What, owned: bool) {
    match what
    case TakeOver => true
    case HandBack => false
    case _ => owned
  }

  /** The last boundary after a call: the last one not past it, if it counts. */
  function EdgeAfter(c: Call, owned: bool, edge: nat, jiffy: nat): nat
    requires jiffy > 0 && edge <= c.at
  {
    if Counts(c.what, owned) then edge + (c.at - edge) / jiffy * jiffy else edge
  }

  /** Every call comes in the range of the clock in charge, from the last boundary counted on. */
  predicate Paced(calls: seq<Call>, owned: bool, edge: nat, jiffy: nat, window: nat)
    requires jiffy > 0
  {
    calls == [] ||
    var c := calls[0];
    && edge <= c.at < edge + Range(owned, jiffy, window)
    && Paced(calls[1..], Owned(c.what, owned), EdgeAfter(c, owned, edge, jiffy), jiffy, window)
  }

  lemma SameGrid(at: nat, origin: nat, was: nat, counted: nat, j: nat)
    requires j > 0 && was <= counted && origin + was * j <= at
    requires origin + counted * j <= at < origin + counted * j + j
    ensures origin + counted * j == origin + was * j + (at - (origin + was * j)) / j * j
  {
    Together(was, counted - was, j);
    DivUnique(at - (origin + was * j), j, counted - was);
  }

  /** A look after `gap` counts, however many, shows the jiffies of all of them exactly if the gap is
      less than 2^32 counts past a multiple of 2^32 jiffies. */
  lemma LookExact(gap: nat, jiffy: nat)
    requires 1 <= jiffy < M32
    ensures Wrap(Wrap(gap) / jiffy) == Wrap(gap / jiffy) <==> gap % (jiffy * M32) < M32
  {
    var turn := jiffy * M32;
    DivBounds(gap, turn);
    var q, g := gap / turn, gap % turn;
    hide Wrap;
    WholeTurns(q, g, jiffy);
    ShortLook(g, jiffy);
  }

  /** Whole multiples of 2^32 jiffies change neither side. */
  lemma WholeTurns(q: nat, g: nat, jiffy: nat)
    requires 1 <= jiffy < M32
    ensures var gap := q * (jiffy * M32) + g; Wrap(gap) == Wrap(g) && Wrap(gap / jiffy) == Wrap(g / jiffy)
  {
    var gap := q * (jiffy * M32) + g;
    assert gap == (q * jiffy) * M32 + g == (q * M32) * jiffy + g;
    AddMultiple(g, q * jiffy, M32);
    AddMultiple(g, q * M32, jiffy);
    DivBounds(g, jiffy);
    AddMultiple(g / jiffy, q, M32);
  }

  lemma ShortLook(g: nat, jiffy: nat)
    requires 1 <= jiffy < M32 && g < jiffy * M32
    ensures Wrap(Wrap(g) / jiffy) == Wrap(g / jiffy) <==> g < M32
  {
    DivBounds(g, M32);
    DivBounds(g, jiffy);
    if g / jiffy >= M32 {
      MulLe(M32, g / jiffy, jiffy);
    }
    Below(Wrap(g), jiffy);
    if g >= M32 {
      Fewer(Wrap(g), g, jiffy);
    }
  }

  lemma Fewer(x: nat, y: nat, d: nat)
    requires d > 0 && x + d <= y
    ensures x / d < y / d
  {
    DivBounds(x, d);
    DivBounds(y, d);
    if x / d >= y / d {
      MulLe(y / d, x / d, d);
    }
  }

  lemma Below(x: u32, d: nat)
    requires d > 0
    ensures Wrap(x / d) == x / d
  {
    DivBounds(x, d);
    MulLe(1, d, x / d);
  }

  lemma Distance(now: nat, edge: nat, j: nat, w: nat)
    requires edge <= now < edge + j + w && j + w <= M32
    ensures Wrap(Wrap(now) - Wrap(edge + j)) < w <==> now - edge >= j
  {
    DivBounds(now, M32);
    DivBounds(edge + j, M32);
    var k := (edge + j) / M32 - now / M32;
    if now >= edge + j {
      Modulo(now - edge - j, k);
    } else {
      Modulo(now - edge - j + M32, k - 1);
    }
  }

  lemma Difference(now: nat, edge: nat)
    requires edge <= now < edge + M32
    ensures Wrap(Wrap(now) - Wrap(edge)) == now - edge
  {
    DivBounds(now, M32);
    DivBounds(edge, M32);
    Modulo(now - edge, edge / M32 - now / M32);
  }

  lemma Modulo(x: nat, k: int)
    requires x < M32
    ensures Wrap(x + k * M32) == x
  {
    assert (x + k * M32) / M32 == k;
  }

  lemma Together(c: nat, q: nat, j: nat)
    ensures (c + q) * j == c * j + q * j
  {
  }

  lemma Whole(x: nat, q: nat, j: nat)
    requires j > 0 && q * j <= x < q * j + j
    ensures x / j == q
  {
    DivUnique(x, j, q);
  }

  lemma Back(edge: nat, j: nat)
    ensures Wrap(Wrap(edge + j) - j) == Wrap(edge)
  {
    DivBounds(edge + j, M32);
    DivBounds(edge, M32);
    Modulo(Wrap(edge), edge / M32 - (edge + j) / M32);
  }

  lemma NextEdge(edge: nat, j: nat)
    ensures Wrap(Wrap(edge + j) + j) == Wrap(edge + j + j)
  {
    Advance(edge + j, j);
  }

  lemma NextCount(c: nat)
    ensures Wrap(Wrap(c) + 1) == Wrap(c + 1)
  {
    Advance(c, 1);
  }

  lemma Advance(x: nat, y: nat)
    ensures Wrap(Wrap(x) + y) == Wrap(x + y)
    ensures Wrap(Wrap(x) + Wrap(y)) == Wrap(x + y)
  {
    DivBounds(x, M32);
    DivBounds(y, M32);
    AddMultiple(Wrap(x) + y, x / M32, M32);
    AddMultiple(Wrap(x) + Wrap(y), x / M32 + y / M32, M32);
  }
}
