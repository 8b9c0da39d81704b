/** ehci.h, the ring of receive descriptors: what the driver writes, what the controller does between
    any two writes (EHCI specification, section 4.10), and what both keep. */
module RxModel {
  import opened Machine
  import opened Arith

  /** A descriptor: its link, the status bits of its token (`error` is any error bit but Halted)
      and the bytes not yet received. */
  datatype Td = Td(next: nat, active: bool, halted: bool, error: bool, left: nat)

  type Packet = seq<Byte>

  /** What one visit of the controller to the queue does. A Glitch is a completed transfer that keeps
      the transaction-error bit of a retry. */
  datatype Step =
    | Fetch
    | Deliver(p: Packet)
    | Fail(junk: Packet)
    | Glitch(p: Packet)

  function Next(i: nat, n: nat): nat {
    if i + 1 == n then 0 else i + 1
  }

  /** How far slot i is after slot head. */
  function Dist(head: nat, i: nat, n: nat): int {
    if i >= head then i - head else i + n - head
  }

  /** The slot c places after head. */
  function Slot(head: nat, c: nat, n: nat): int {
    if head + c < n then head + c else head + c - n
  }

  /** Descriptors, their buffers, the queue head's overlay (`next` is -1 with the terminate bit), all
      packets received so far, and how many of them were glitches. */
  datatype Ring = Ring(td: seq<Td>, buf: seq<Packet>, size: nat,
                       next: int, active: bool, halted: bool, cur: nat, arrived: seq<Packet>, glitched: nat) {
    ghost predicate Shape() {
      && 2 <= |td| <= 16 && |buf| == |td| && cur < |td| && -1 <= next < |td|
      && (forall i :: 0 <= i < |buf| ==> |buf[i]| == size)
      && (forall i :: 0 <= i < |td| ==> td[i].next == Next(i, |td|) && td[i].left <= size)
    }

    /** One step of the controller; a step that is not enabled changes nothing. */
    function Do(step: Step): (r: Ring)
      requires Shape()
      ensures r.Shape() && |r.td| == |td| && r.size == size && r.glitched >= glitched
    {
      match step
      case Fetch =>
        if !active && !halted && next >= 0 && td[next].active
        then this.(cur := next, active := true, next := td[next].next) else this
      case Deliver(p) =>
        if active && |p| <= size
        then Retire(p, false, false).(arrived := arrived + [p]) else this
      case Glitch(p) =>
        if active && |p| <= size
        then Retire(p, false, true).(arrived := arrived + [p], glitched := glitched + 1) else this
      case Fail(junk) =>
        if active && |junk| <= size
        then Retire(junk, true, true).(halted := true) else this
    }

    /** The current descriptor is written back. */
    function Retire(p: Packet, halt: bool, err: bool): (r: Ring)
      requires Shape() && |p| <= size
      ensures r.Shape() && |r.td| == |td| && r.size == size && r.glitched >= glitched
    {
      this.(td := td[cur := td[cur].(active := false, halted := halt, error := err, left := size - |p|)],
            buf := buf[cur := p + buf[cur][|p|..]], active := false)
    }

    function Let(steps: seq<Step>): (r: Ring)
      requires Shape()
      ensures r.Shape() && |r.td| == |td| && r.size == size && r.glitched >= glitched
    {
      if steps == [] then this else Let(steps[..|steps| - 1]).Do(steps[|steps| - 1])
    }

    // ---- single writes of the driver ----

    function Clear(i: nat): (r: Ring)
      requires Shape() && i < |td|
      ensures r.Shape() && |r.td| == |td| && r.size == size && r.glitched >= glitched
    {
      this.(td := td[i := td[i].(active := false, halted := false, error := false, left := 0)])
    }

    function Activate(i: nat): (r: Ring)
      requires Shape() && i < |td|
      ensures r.Shape() && |r.td| == |td| && r.size == size && r.glitched >= glitched
    {
      this.(td := td[i := Td(td[i].next, true, false, false, size)])
    }

    /** ehci_rx_arm: the token is cleared, the rest filled, the token set. Links never change. */
    function Arm(i: nat, g: Gaps): (r: Ring)
      requires Shape() && i < |td|
      ensures r.Shape() && |r.td| == |td| && r.size == size && r.glitched >= glitched
    {
      Clear(i).Let(g.filling).Activate(i)
    }

    /** ehci_qh_start: the overlay's link, then its token. */
    function Start(i: nat, gap: seq<Step>): (r: Ring)
      requires Shape() && i < |td|
      ensures r.Shape() && |r.td| == |td| && r.size == size && r.glitched >= glitched
    {
      this.(next := i).Let(gap).(active := false, halted := false)
    }

    // ---- ehci_rx_get and ehci_rx_put ----

    predicate Done(i: nat)
      requires Shape() && i < |td|
    {
      !td[i].active && !td[i].halted && !td[i].error
    }

    function Get(i: nat, g: Gaps): (r: Ring)
      requires Shape() && i < |td|
      ensures r.Shape() && |r.td| == |td| && r.size == size && r.glitched >= glitched
    {
      if td[i].active || Done(i) then this
      else Arm(i, g).Let(g.armed).Start(i, g.starting)
    }

    function Put(i: nat, g: Gaps): (r: Ring)
      requires Shape() && i < |td|
      ensures r.Shape() && |r.td| == |td| && r.size == size && r.glitched >= glitched
    {
      var r := Arm(i, g).Let(g.armed);
      if r.next < 0 && !r.active then r.Start(i, g.starting) else r
    }

    /** What the buffer of a completed descriptor holds. */
    function Held(i: nat): Packet
      requires Shape() && i < |td|
    {
      buf[i][..size - td[i].left]
    }
  }

  /** The controller's steps between the writes of one driver call. */
  datatype Gaps = Gaps(filling: seq<Step>, armed: seq<Step>, starting: seq<Step>)

  // ---- what is kept ----

  /** The m packets in the slots from head on. */
  function Window(r: Ring, head: nat, m: nat): seq<Packet>
    requires r.Shape() && head < |r.td| && m <= |r.td|
  {
    if m == 0 then [] else Window(r, head, m - 1) + [r.Held(Slot(head, m - 1, |r.td|))]
  }

  /** How many slots hold good packets: all completed ones but a last one the queue halted on. */
  function Goods(r: Ring, c: nat): int {
    if r.halted then c - 1 else c
  }

  /** The c slots from head on are completed and the rest belong to the controller, except a slot the
      driver is filling (-1 for none); the controller is at the first slot after them; and what has
      arrived is what was handed out and what waits in the window, in order. */
  ghost predicate Inv(r: Ring, head: nat, c: nat, out: seq<Packet>, filling: int) {
    && r.Shape() && head < |r.td| && c <= |r.td| && r.next >= 0
    && (0 <= filling < |r.td| ==> Next(filling, |r.td|) == head && c < |r.td|)
    && Turns(r, head, c, filling)
    && Position(r, head, c, filling)
    && Clean(r, head, Goods(r, c))
    && r.arrived == out + Window(r, head, Goods(r, c))
  }

  /** Where the queue stands: halted on the last completed slot, filling the slot after it, or waiting to. */
  ghost predicate Position(r: Ring, head: nat, c: nat, filling: int)
    requires r.Shape() && head < |r.td| && c <= |r.td|
  {
    if r.halted then !r.active && c >= 1 && r.td[Slot(head, c - 1, |r.td|)].halted
    else if r.active then
      c < |r.td| && r.cur == Slot(head, c, |r.td|) && r.cur != filling && r.next == Next(r.cur, |r.td|)
    else r.next == Slot(head, c, |r.td|)
  }

  ghost predicate Turns(r: Ring, head: nat, c: nat, filling: int) {
    forall i :: 0 <= i < |r.td| ==> (r.td[i].active <==> Dist(head, i, |r.td|) >= c && i != filling)
  }

  ghost predicate Clean(r: Ring, head: nat, g: int) {
    forall i :: 0 <= i < |r.td| && Dist(head, i, |r.td|) < g ==> !r.td[i].halted && !r.td[i].error
  }

  lemma {:induction false} WindowSame(r: Ring, s: Ring, head: nat, m: nat)
    requires r.Shape() && s.Shape() && |s.td| == |r.td| && s.size == r.size && head < |r.td| && m <= |r.td|
    requires forall i :: 0 <= i < |r.td| && Dist(head, i, |r.td|) < m ==> s.Held(i) == r.Held(i)
    ensures Window(s, head, m) == Window(r, head, m)
  {
    if m > 0 {
      WindowSame(r, s, head, m - 1);
      assert Dist(head, Slot(head, m - 1, |r.td|), |r.td|) == m - 1;
    }
  }

  /** The window without its first slot. */
  lemma {:induction false} WindowRest(r: Ring, head: nat, m: nat)
    requires r.Shape() && head < |r.td| && 1 <= m <= |r.td|
    ensures Window(r, head, m) == [r.Held(head)] + Window(r, Next(head, |r.td|), m - 1)
  {
    if m > 1 {
      WindowRest(r, head, m - 1);
      assert Slot(head, m - 1, |r.td|) == Slot(Next(head, |r.td|), m - 2, |r.td|);
    } else {
      assert Window(r, head, 0) == [] && Window(r, Next(head, |r.td|), 0) == [];
    }
  }

  /** The completed slots of a ring are those of another, with the same contents. */
  ghost predicate Keeps(r: Ring, s: Ring, head: nat, c: nat) {
    |s.td| == |r.td| && s.size == r.size && |r.buf| == |r.td| && |s.buf| == |s.td| &&
    forall i :: 0 <= i < |r.td| && Dist(head, i, |r.td|) < c ==> s.td[i] == r.td[i] && s.buf[i] == r.buf[i]
  }

  /** A step of the controller keeps everything, and leaves the completed slots alone. */
  lemma DoKeeps(r: Ring, head: nat, c: nat, out: seq<Packet>, filling: int, step: Step) returns (d: nat)
    requires Inv(r, head, c, out, filling) && r.Do(step).glitched == r.glitched
    ensures c <= d && Inv(r.Do(step), head, d, out, filling) && Keeps(r, r.Do(step), head, c)
  {
    hide Turns, Clean, Keeps, Window, Ring.Shape;
    d := c;
    if step.Deliver? && r.active && |step.p| <= r.size {
      d := c + 1;
      DeliverKeeps(r, head, c, out, filling, step.p);
    } else if step.Fail? && r.active && |step.junk| <= r.size {
      d := c + 1;
      FailKeeps(r, head, c, out, filling, step.junk);
    } else {
      FetchKeeps(r, head, c, out, filling);
      KeepsSelf(r, head, c);
    }
  }

  lemma DeliverKeeps(r: Ring, head: nat, c: nat, out: seq<Packet>, filling: int, p: Packet)
    requires Inv(r, head, c, out, filling) && r.active && |p| <= r.size
    ensures var s := r.Do(Deliver(p)); Inv(s, head, c + 1, out, filling) && Keeps(r, s, head, c)
  {
    hide Ring.Retire, Window;
    RetireKeeps(r, head, c, filling, p, false, false);
    RetireWindow(r, head, c, p);
    NextSlot(head, c, |r.td|);
  }

  lemma RetireWindow(r: Ring, head: nat, c: nat, p: Packet)
    requires r.Shape() && head < |r.td| && c < |r.td| && |p| <= r.size && r.cur == Slot(head, c, |r.td|) && r.active
    ensures var s := r.Do(Deliver(p));
            && Window(s, head, c + 1) == Window(r, head, c) + [p] && s.arrived == r.arrived + [p]
            && s.next == r.next && !s.active && s.halted == r.halted
  {
    var s := r.Do(Deliver(p));
    assert Dist(head, r.cur, |r.td|) == c;
    WindowSame(r, s, head, c);
    assert s.Held(r.cur) == p;
  }

  lemma FailKeeps(r: Ring, head: nat, c: nat, out: seq<Packet>, filling: int, junk: Packet)
    requires Inv(r, head, c, out, filling) && r.active && |junk| <= r.size
    ensures var s := r.Do(Fail(junk)); Inv(s, head, c + 1, out, filling) && Keeps(r, s, head, c)
  {
    var s := r.Do(Fail(junk));
    RetireKeeps(r, head, c, filling, junk, true, true);
    WindowSame(r, s, head, c);
    hide Turns, Clean, Keeps, Window;
    NextSlot(head, c, |r.td|);
  }

  lemma FetchKeeps(r: Ring, head: nat, c: nat, out: seq<Packet>, filling: int)
    requires Inv(r, head, c, out, filling)
    ensures Inv(r.Do(Fetch), head, c, out, filling) && Keeps(r, r.Do(Fetch), head, c)
  {
    var s := r.Do(Fetch);
    WindowSame(r, s, head, Goods(r, c));
    if s != r {
      assert s.cur == r.next == Slot(head, c, |r.td|);
      assert r.td[s.cur].active;
    }
  }

  lemma KeepsSelf(r: Ring, head: nat, c: nat)
    requires r.Shape()
    ensures Keeps(r, r, head, c)
  {
  }

  lemma NextSlot(head: nat, c: nat, n: nat)
    requires head < n && c < n
    ensures Next(Slot(head, c, n), n) == Slot(head, c + 1, n) && Dist(head, Slot(head, c, n), n) == c
  {
  }

  lemma RetireKeeps(r: Ring, head: nat, c: nat, filling: int, p: Packet, halt: bool, err: bool)
    requires r.Shape() && head < |r.td| && c < |r.td| && |p| <= r.size
    requires r.cur == Slot(head, c, |r.td|) && r.cur != filling && Turns(r, head, c, filling) && Clean(r, head, c)
    ensures var s := r.Retire(p, halt, err);
            && Turns(s, head, c + 1, filling) && Keeps(r, s, head, c)
            && (!halt && !err ==> Clean(s, head, c + 1)) && Clean(s, head, c)
  {
    assert Dist(head, r.cur, |r.td|) == c;
  }

  lemma {:induction false} LetKeeps(r: Ring, head: nat, c: nat, out: seq<Packet>, filling: int, steps: seq<Step>)
    returns (d: nat)
    requires Inv(r, head, c, out, filling) && r.Let(steps).glitched == r.glitched
    ensures c <= d && Inv(r.Let(steps), head, d, out, filling) && Keeps(r, r.Let(steps), head, c)
    decreases |steps|
  {
    d := c;
    if steps != [] {
      d := LetKeeps(r, head, c, out, filling, steps[..|steps| - 1]);
      d := DoKeeps(r.Let(steps[..|steps| - 1]), head, d, out, filling, steps[|steps| - 1]);
    }
  }

  // ---- the driver's calls ----

  /** A halted queue waits for the driver. */
  lemma {:induction false} Stopped(r: Ring, steps: seq<Step>)
    requires r.Shape() && r.halted && !r.active
    ensures r.Let(steps) == r
    decreases |steps|
  {
    if steps != [] {
      Stopped(r, steps[..|steps| - 1]);
    }
  }

  /** ehci_rx_get on a descriptor with an error: the queue has stopped there, and starts there again. */
  lemma GetKeeps(r: Ring, head: nat, c: nat, out: seq<Packet>, g: Gaps)
    requires Inv(r, head, c, out, -1) && !r.td[head].active && !r.Done(head)
    ensures c == 1 && r.halted && Inv(r.Get(head, g), head, 0, out, -1)
  {
    assert Dist(head, head, |r.td|) == 0 && c >= 1 && Goods(r, c) == 0;
    Stopped(r.Clear(head), g.filling);
    var armed := r.Arm(head, g);
    Stopped(armed, g.armed);
    Stopped(armed.(next := head), g.starting);
    var s := r.Get(head, g);
    assert s == armed.(next := head, active := false, halted := false);
    assert Window(s, head, 0) == [] == Window(r, head, 0);
  }

  /** The first write of ehci_rx_put: the slot leaves the window, and its packet is handed out. */
  lemma ClearKeeps(r: Ring, head: nat, c: nat, out: seq<Packet>)
    requires Inv(r, head, c, out, -1) && r.Done(head)
    ensures c >= 1 && Inv(r.Clear(head), Next(head, |r.td|), c - 1, out + [r.Held(head)], head)
  {
    FirstIsGood(r, head, c, out);
    ClearTurns(r, head, c);
    ClearWindow(r, head, Goods(r, c));
    ClearPosition(r, head, c);
    hide Turns, Clean, Window, Position, Ring.Held, Ring.Done;
  }

  lemma FirstIsGood(r: Ring, head: nat, c: nat, out: seq<Packet>)
    requires Inv(r, head, c, out, -1) && r.Done(head)
    ensures c >= 1 && Goods(r, c) >= 1
  {
    assert Dist(head, head, |r.td|) == 0 && Slot(head, 0, |r.td|) == head;
  }

  lemma ClearPosition(r: Ring, head: nat, c: nat)
    requires r.Shape() && head < |r.td| && 1 <= c <= |r.td| && Goods(r, c) >= 1 && Position(r, head, c, -1)
    ensures Position(r.Clear(head), Next(head, |r.td|), c - 1, head)
  {
    assert Slot(Next(head, |r.td|), c - 1, |r.td|) == Slot(head, c, |r.td|);
    if c >= 2 {
      assert Slot(Next(head, |r.td|), c - 2, |r.td|) == Slot(head, c - 1, |r.td|) != head;
    }
  }

  lemma ClearTurns(r: Ring, head: nat, c: nat)
    requires r.Shape() && head < |r.td| && c >= 1 && Turns(r, head, c, -1) && Clean(r, head, Goods(r, c))
    ensures Turns(r.Clear(head), Next(head, |r.td|), c - 1, head)
    ensures Clean(r.Clear(head), Next(head, |r.td|), Goods(r, c) - 1)
  {
    assert forall i :: 0 <= i < |r.td| && i != head ==>
           Dist(Next(head, |r.td|), i, |r.td|) == Dist(head, i, |r.td|) - 1;
  }

  lemma ClearWindow(r: Ring, head: nat, m: nat)
    requires r.Shape() && head < |r.td| && 1 <= m <= |r.td|
    ensures Window(r, head, m) == [r.Held(head)] + Window(r.Clear(head), Next(head, |r.td|), m - 1)
  {
    WindowRest(r, head, m);
    assert Dist(Next(head, |r.td|), head, |r.td|) == |r.td| - 1;
    WindowSame(r, r.Clear(head), Next(head, |r.td|), m - 1);
  }

  /** The last write of ehci_rx_arm: the slot belongs to the controller again. */
  lemma ActivateKeeps(r: Ring, head: nat, c: nat, out: seq<Packet>, i: nat)
    requires Inv(r, head, c, out, i) && i < |r.td| && Next(i, |r.td|) == head
    ensures c < |r.td| && Inv(r.Activate(i), head, c, out, -1)
  {
    var n := |r.td|;
    assert Dist(head, i, n) == n - 1;
    WindowSame(r, r.Activate(i), head, Goods(r, c));
  }

  lemma Linked(r: Ring, head: nat, c: nat, out: seq<Packet>, filling: int)
    requires Inv(r, head, c, out, filling)
    ensures r.Shape() && head < |r.td| && r.next >= 0
  {
  }

  /** ehci_rx_put gives the slot back; the restart it keeps for a terminated overlay is never taken. */
  lemma PutKeeps(r: Ring, head: nat, c: nat, out: seq<Packet>, g: Gaps) returns (d: nat)
    requires Inv(r, head, c, out, -1) && r.Done(head) && r.Put(head, g).glitched == r.glitched
    ensures Inv(r.Put(head, g), Next(head, |r.td|), d, out + [r.Held(head)], -1)
  {
    hide Inv, Ring.Clear, Ring.Let, Ring.Activate, Ring.Done, Ring.Held, Ring.Start;
    Linked(r, head, c, out, -1);
    var h := Next(head, |r.td|);
    var o := out + [r.Held(head)];
    ClearKeeps(r, head, c, out);
    d := LetKeeps(r.Clear(head), h, c - 1, o, head, g.filling);
    ActivateKeeps(r.Clear(head).Let(g.filling), h, d, o, head);
    d := LetKeeps(r.Arm(head, g), h, d, o, -1, g.armed);
    Linked(r.Arm(head, g).Let(g.armed), h, d, o, -1);
  }

  // ---- whole runs ----

  /** One round of the client: controller steps, ehci_rx_get, and if there was a packet, controller
      steps while it is read, and ehci_rx_put. */
  datatype Round = Round(before: seq<Step>, get: Gaps, reading: seq<Step>, put: Gaps)

  /** The ring, the driver's index and the packets read. */
  datatype After = After(ring: Ring, head: nat, out: seq<Packet>)

  /** The packet is read from the buffer after the steps of `reading`: it is the client's until the put. */
  function Receive(r: Ring, i: nat, t: Round): (a: After)
    requires r.Shape() && i < |r.td|
    ensures a.ring.Shape() && |a.ring.td| == |r.td| && a.head < |r.td| && a.ring.glitched >= r.glitched
  {
    var s := r.Let(t.before);
    if s.Done(i) then
      var u := s.Let(t.reading);
      After(u.Put(i, t.put), Next(i, |r.td|), [u.buf[i][..|s.Held(i)|]])
    else After(s.Get(i, t.get), i, [])
  }

  function Run(r: Ring, i: nat, rounds: seq<Round>): (a: After)
    requires r.Shape() && i < |r.td|
    ensures a.ring.Shape() && |a.ring.td| == |r.td| && a.head < |r.td| && a.ring.glitched >= r.glitched
  {
    if rounds == [] then After(r, i, [])
    else
      var a := Run(r, i, rounds[..|rounds| - 1]);
      var b := Receive(a.ring, a.head, rounds[|rounds| - 1]);
      After(b.ring, b.head, a.out + b.out)
  }

  lemma ReceiveKeeps(r: Ring, i: nat, c: nat, out: seq<Packet>, t: Round) returns (d: nat)
    requires Inv(r, i, c, out, -1) && Receive(r, i, t).ring.glitched == r.glitched
    ensures var a := Receive(r, i, t); Inv(a.ring, a.head, d, out + a.out, -1)
  {
    hide Turns, Clean, Window, Position;
    d := LetKeeps(r, i, c, out, -1, t.before);
    var s := r.Let(t.before);
    if s.Done(i) {
      FirstIsGood(s, i, d, out);
      var e := LetKeeps(s, i, d, out, -1, t.reading);
      var u := s.Let(t.reading);
      FirstKept(s, u, i, d);
      d := PutKeeps(u, i, e, out, t.put);
    } else if !s.td[i].active {
      GetKeeps(s, i, d, out, t.get);
      d := 0;
      assert out + [] == out;
    } else {
      assert out + [] == out;
    }
  }

  lemma FirstKept(s: Ring, u: Ring, i: nat, d: nat)
    requires s.Shape() && u.Shape() && i < |s.td| && d >= 1 && Keeps(s, u, i, d) && s.Done(i)
    ensures u.Done(i) && u.Held(i) == s.Held(i) == u.buf[i][..|s.Held(i)|]
  {
    assert Dist(i, i, |s.td|) == 0;
  }

  lemma Associative(a: seq<Packet>, b: seq<Packet>, c: seq<Packet>)
    ensures a + b + c == a + (b + c)
  {
  }

  /** In every run, under every interleaving, what the client has read and what waits in the window
      are together exactly what has arrived, in order. */
  lemma {:induction false} EveryRun(r: Ring, i: nat, c: nat, out: seq<Packet>, rounds: seq<Round>) returns (d: nat)
    requires r.Shape() && i < |r.td| && Inv(r, i, c, out, -1) && Run(r, i, rounds).ring.glitched == r.glitched
    ensures var a := Run(r, i, rounds); Inv(a.ring, a.head, d, out + a.out, -1)
    decreases |rounds|
  {
    hide Inv, Receive, Ring.Shape;
    if rounds == [] {
      d := c;
      assert out + [] == out;
    } else {
      var front := rounds[..|rounds| - 1];
      var e := EveryRun(r, i, c, out, front);
      var a := Run(r, i, front);
      d := ReceiveKeeps(a.ring, a.head, e, out + a.out, rounds[|rounds| - 1]);
      Associative(out, a.out, Receive(a.ring, a.head, rounds[|rounds| - 1]).out);
    }
  }

  // ---- ehci_rx_start ----

  function FreshTds(n: nat, k: nat, size: nat): (s: seq<Td>)
    requires k <= n
    ensures |s| == k && forall i :: 0 <= i < k ==> s[i] == Td(Next(i, n), true, false, false, size)
  {
    if k == 0 then [] else FreshTds(n, k - 1, size) + [Td(Next(k - 1, n), true, false, false, size)]
  }

  /** All descriptors armed, and a queue head that links to nothing. */
  function Armed(bufs: seq<Packet>, size: nat): (r: Ring)
    requires 2 <= |bufs| <= 16 && forall i :: 0 <= i < |bufs| ==> |bufs[i]| == size
    ensures r.Shape() && |r.td| == |bufs|
  {
    Ring(FreshTds(|bufs|, |bufs|, size), bufs, size, -1, false, false, 0, [], 0)
  }

  /** ehci_qh_start writes the link before it clears the token. The ring comes up in its invariant
      exactly when no packet was glitched in between and the controller is not in the middle of a
      transfer, or halted, at the second write. */
  lemma StartExact(bufs: seq<Packet>, size: nat, gap: seq<Step>)
    requires 2 <= |bufs| <= 16 && (forall i :: 0 <= i < |bufs| ==> |bufs[i]| == size)
    ensures var r := Armed(bufs, size);
            var at := r.(next := 0).Let(gap);
            (exists c :: Inv(r.Start(0, gap), 0, c, [], -1)) <==> !at.active && !at.halted && at.glitched == 0
  {
    var r := Armed(bufs, size).(next := 0);
    var at := r.Let(gap);
    var s := Armed(bufs, size).Start(0, gap);
    assert s == at.(active := false, halted := false);
    ArmedCount(r);
    LetCounts(r, -1, gap);
    if at.glitched > 0 {
      forall c ensures !Inv(s, 0, c, [], -1) {
        if Inv(s, 0, c, [], -1) {
          InvCount(s, 0, c, []);
        }
      }
    } else {
      CleanStart(r, at, s, gap);
    }
  }

  lemma CleanStart(r: Ring, at: Ring, s: Ring, gap: seq<Step>)
    requires r.Shape() && r.next == 0 && !r.active && !r.halted && r.arrived == []
    requires forall i :: 0 <= i < |r.td| ==> r.td[i].active
    requires at == r.Let(gap) && at.glitched == r.glitched && s == at.(active := false, halted := false)
    ensures (exists c :: Inv(s, 0, c, [], -1)) <==> !at.active && !at.halted
  {
    assert r.arrived == [] + Window(r, 0, 0);
    assert Inv(r, 0, 0, [], -1);
    var d := LetKeeps(r, 0, 0, [], -1, gap);
    if !at.active && !at.halted {
      assert s == at;
    } else if c :| Inv(s, 0, c, [], -1) {
      SameTurns(at, s, d, c);
      BusyStart(at, s, d);
    }
  }

  lemma SameTurns(r: Ring, s: Ring, c: nat, d: nat)
    requires r.Shape() && s.Shape() && r.td == s.td && c <= |r.td| && d <= |r.td|
    requires Turns(r, 0, c, -1) && Turns(s, 0, d, -1)
    ensures c == d
  {
    if c < |r.td| {
      TurnAt(r, c, c);
      TurnAt(s, d, c);
    }
    if d < |r.td| {
      TurnAt(r, c, d);
      TurnAt(s, d, d);
    }
  }

  lemma TurnAt(r: Ring, c: nat, k: nat)
    requires Turns(r, 0, c, -1) && k < |r.td|
    ensures r.td[k].active <==> k >= c
  {
  }

  lemma BusyStart(at: Ring, s: Ring, d: nat)
    requires Inv(at, 0, d, [], -1) && (at.active || at.halted) && s == at.(active := false, halted := false)
    ensures !Inv(s, 0, d, [], -1)
  {
    if at.halted {
      assert Dist(0, Slot(0, d - 1, |s.td|), |s.td|) == d - 1;
    }
  }

  /** With no visit of the controller between the two writes the ring starts right. */
  lemma StartQuiet(bufs: seq<Packet>, size: nat)
    requires 2 <= |bufs| <= 16 && forall i :: 0 <= i < |bufs| ==> |bufs[i]| == size
    ensures Inv(Armed(bufs, size).Start(0, []), 0, 0, [], -1)
  {
    var s := Armed(bufs, size).Start(0, []);
    assert s == Armed(bufs, size).(next := 0, active := false, halted := false);
    assert s.arrived == [] + Window(s, 0, 0);
  }

  const QUIET := Gaps([], [], [])

  lemma Steps2(r: Ring, a: Step, b: Step)
    requires r.Shape()
    ensures r.Let([a, b]) == r.Do(a).Do(b)
  {
    assert [a, b][..1] == [a] && [a][..0] == [];
    assert r.Let([]) == r && r.Let([a]) == r.Do(a);
  }

  /** A controller that visits the queue between the two writes of ehci_qh_start makes the driver read
      the second packet first. */
  lemma StartRace(bufs: seq<Packet>, size: nat, p: Packet, q: Packet)
    requires |bufs| == 2 && |bufs[0]| == |bufs[1]| == size && |p| <= size && |q| <= size
    ensures var r := Armed(bufs, size).Start(0, [Fetch]);
            var a := Receive(r, 0, Round([Fetch, Deliver(p), Fetch, Deliver(q)], QUIET, [], QUIET));
            a.ring.arrived == [p, q] && a.out == [q]
  {
    var r0 := Armed(bufs, size).(next := 0);
    assert [Fetch][..0] == [] && r0.Let([]) == r0 && r0.Let([Fetch]) == r0.Do(Fetch);
    var r := Armed(bufs, size).Start(0, [Fetch]);
    assert r == Armed(bufs, size).(next := 1, cur := 0);
    RaceSteps(r, p, q);
    var s := r.Let([Fetch, Deliver(p), Fetch, Deliver(q)]);
    assert s.Let([]) == s;
    QuietPut(s, 0);
  }

  lemma RaceSteps(r: Ring, p: Packet, q: Packet)
    requires r.Shape() && |r.td| == 2 && r.next == 1 && !r.active && !r.halted && r.arrived == []
    requires r.td[0].active && r.td[1].active && |p| <= r.size && |q| <= r.size
    ensures var s := r.Let([Fetch, Deliver(p), Fetch, Deliver(q)]);
            s.Done(0) && s.Held(0) == q && s.arrived == [p, q] && s.next >= 0
  {
    hide Ring.Let;
    var first, second := [Fetch, Deliver(p)], [Fetch, Deliver(q)];
    assert [Fetch, Deliver(p), Fetch, Deliver(q)] == first + second;
    LetSplit(r, first, second);
    Passes(r, p);
    Passes(r.Let(first), q);
  }

  /** A queue of two descriptors takes one packet into the slot it links to. */
  lemma Passes(r: Ring, p: Packet)
    requires r.Shape() && |r.td| == 2 && r.next >= 0 && !r.active && !r.halted && r.td[r.next].active && |p| <= r.size
    ensures var s := r.Let([Fetch, Deliver(p)]);
            && s.td[1 - r.next] == r.td[1 - r.next] && s.next == 1 - r.next && !s.active && !s.halted
            && s.Done(r.next) && s.Held(r.next) == p && s.arrived == r.arrived + [p]
  {
    Steps2(r, Fetch, Deliver(p));
    hide Ring.Let;
    assert r.td[r.next].next == Next(r.next, 2);
    var u := r.Do(Fetch);
    assert u == r.(cur := r.next, active := true, next := 1 - r.next);
  }

  lemma QuietPut(s: Ring, i: nat)
    requires s.Shape() && i < |s.td| && s.next >= 0
    ensures s.Put(i, QUIET).arrived == s.arrived
  {
    var a := s.Clear(i);
    assert a.Let([]) == a;
    var b := a.Activate(i);
    assert b.Let([]) == b;
  }

  lemma {:induction false} LetSplit(r: Ring, a: seq<Step>, b: seq<Step>)
    requires r.Shape()
    ensures r.Let(a + b) == r.Let(a).Let(b)
    decreases |b|
  {
    if b == [] {
      assert a + b == a;
    } else {
      assert (a + b)[..|a + b| - 1] == a + b[..|b| - 1];
      LetSplit(r, a, b[..|b| - 1]);
    }
  }

  /** A good packet whose descriptor keeps an error bit without a halt is gone after the next
      ehci_rx_get: the ring is as if it had never come. */
  lemma GlitchVanishes(r: Ring, head: nat, out: seq<Packet>, p: Packet)
    requires Inv(r, head, 0, out, -1) && r.active && |p| <= r.size
    ensures var s := r.Do(Glitch(p)).Get(head, QUIET);
            && s.arrived == r.arrived + [p]
            && Inv(s.(arrived := r.arrived), head, 0, out, -1)
            && forall c :: !Inv(s, head, c, out, -1)
  {
    var n := |r.td|;
    var u := r.Do(Glitch(p));
    assert r.cur == head && !u.td[head].active && u.td[head].error;
    var a := u.Clear(head);
    assert a.Let([]) == a;
    var b := a.Activate(head);
    assert b.Let([]) == b;
    var d := b.(next := head);
    assert d.Let([]) == d;
    var s := u.Get(head, QUIET);
    assert s == d.(active := false, halted := false);
    var t := s.(arrived := r.arrived);
    assert Window(t, head, 0) == [] == Window(r, head, 0);
    assert Inv(t, head, 0, out, -1);
    forall c ensures !Inv(s, head, c, out, -1) {
      AllActive(s, head, c, out);
    }
  }

  lemma AllActive(s: Ring, head: nat, c: nat, out: seq<Packet>)
    requires s.Shape() && head < |s.td| && s.td[head].active && s.arrived != out
    ensures !Inv(s, head, c, out, -1)
  {
    assert Dist(head, head, |s.td|) == 0;
    if c == 0 && !s.halted {
      assert Window(s, head, 0) == [];
      assert out + [] == out;
    }
  }

  // ---- every packet is accounted for ----

  /** The slots whose packets ehci_rx_get would hand out, but one that the driver is filling. */
  function Idle(td: seq<Td>, filling: int): set<int> {
    set i | 0 <= i < |td| && i != filling && !td[i].active && !td[i].halted && !td[i].error
  }

  function Waiting(r: Ring, filling: int): set<int>
    requires r.Shape()
  {
    Idle(r.td, filling)
  }

  lemma IdleSet(td: seq<Td>, k: nat, v: Td, filling: int)
    requires k < |td|
    ensures Idle(td[k := v], filling) ==
            if k != filling && !v.active && !v.halted && !v.error then Idle(td, filling) + {k}
            else Idle(td, filling) - {k}
    ensures k in Idle(td, filling) <==> k != filling && !td[k].active && !td[k].halted && !td[k].error
  {
  }

  /** The overlay is busy with an armed descriptor only, and the one being filled is not armed. */
  predicate Sound(r: Ring, filling: int)
    requires r.Shape()
  {
    (r.active ==> r.td[r.cur].active) && (0 <= filling < |r.td| ==> !r.td[filling].active)
  }

  /** Packets that arrived and neither wait nor were glitched. */
  function Gone(r: Ring, filling: int): int
    requires r.Shape()
  {
    |r.arrived| - r.glitched - |Idle(r.td, filling)|
  }

  lemma DoCounts(r: Ring, filling: int, step: Step)
    requires r.Shape() && Sound(r, filling)
    ensures var s := r.Do(step); Sound(s, filling) && Gone(s, filling) == Gone(r, filling)
  {
    hide Idle, Ring.Retire;
    match step
    case Fetch =>
    case Deliver(p) =>
      if r.active && |p| <= r.size {
        RetireCounts(r, filling, p, false, false);
      }
    case Glitch(p) =>
      if r.active && |p| <= r.size {
        RetireCounts(r, filling, p, false, true);
      }
    case Fail(junk) =>
      if r.active && |junk| <= r.size {
        RetireCounts(r, filling, junk, true, true);
      }
  }

  lemma RetireCounts(r: Ring, filling: int, p: Packet, halt: bool, err: bool)
    requires r.Shape() && Sound(r, filling) && r.active && |p| <= r.size
    ensures var s := r.Retire(p, halt, err);
            && Sound(s, filling) && s.arrived == r.arrived && s.glitched == r.glitched
            && |Idle(s.td, filling)| == |Idle(r.td, filling)| + (if halt || err then 0 else 1)
  {
    hide Idle;
    IdleSet(r.td, r.cur, r.td[r.cur].(active := false, halted := halt, error := err, left := r.size - |p|), filling);
  }

  lemma {:induction false} LetCounts(r: Ring, filling: int, steps: seq<Step>)
    requires r.Shape() && Sound(r, filling)
    ensures var s := r.Let(steps); Sound(s, filling) && Gone(s, filling) == Gone(r, filling)
    decreases |steps|
  {
    if steps != [] {
      LetCounts(r, filling, steps[..|steps| - 1]);
      DoCounts(r.Let(steps[..|steps| - 1]), filling, steps[|steps| - 1]);
    }
  }

  lemma ArmCounts(r: Ring, i: nat, g: Gaps)
    requires r.Shape() && i < |r.td| && Sound(r, -1) && !r.td[i].active
    ensures var s := r.Arm(i, g).Let(g.armed);
            Sound(s, -1) && Gone(s, -1) == Gone(r, -1) + (if r.Done(i) then 1 else 0)
  {
    hide Idle, Ring.Let, Ring.Clear, Ring.Activate, Sound, Gone;
    ClearCounts(r, i);
    LetCounts(r.Clear(i), i, g.filling);
    ActivateCounts(r.Clear(i).Let(g.filling), i);
    LetCounts(r.Arm(i, g), -1, g.armed);
  }

  lemma ClearCounts(r: Ring, i: nat)
    requires r.Shape() && i < |r.td| && Sound(r, -1) && !r.td[i].active
    ensures Sound(r.Clear(i), i) && Gone(r.Clear(i), i) == Gone(r, -1) + (if r.Done(i) then 1 else 0)
  {
    var s := r.Clear(i);
    IdleBut(r.td, i);
    IdleSet(r.td, i, s.td[i], i);
    IdleSet(r.td, i, s.td[i], -1);
    assert s.td == r.td[i := s.td[i]];
  }

  lemma IdleBut(td: seq<Td>, i: nat)
    requires i < |td|
    ensures Idle(td, i) == Idle(td, -1) - {i}
  {
  }

  lemma ActivateCounts(r: Ring, i: nat)
    requires r.Shape() && i < |r.td| && Sound(r, i)
    ensures Sound(r.Activate(i), -1) && Gone(r.Activate(i), -1) == Gone(r, i)
  {
    var s := r.Activate(i);
    IdleSet(r.td, i, s.td[i], -1);
    IdleBut(r.td, i);
  }

  lemma StartCounts(r: Ring, i: nat, gap: seq<Step>)
    requires r.Shape() && i < |r.td| && Sound(r, -1)
    ensures Sound(r.Start(i, gap), -1) && Gone(r.Start(i, gap), -1) == Gone(r, -1)
  {
    hide Idle, Ring.Let;
    LetCounts(r.(next := i), -1, gap);
  }

  lemma ReceiveCounts(r: Ring, i: nat, t: Round)
    requires r.Shape() && i < |r.td| && Sound(r, -1)
    ensures var a := Receive(r, i, t); Sound(a.ring, -1) && Gone(a.ring, -1) == Gone(r, -1) + |a.out|
  {
    hide Sound, Gone, Ring.Let, Ring.Arm, Ring.Start;
    LetCounts(r, -1, t.before);
    var s := r.Let(t.before);
    if s.Done(i) {
      LetCounts(s, -1, t.reading);
      StaysDone(s, i, t.reading);
      var u := s.Let(t.reading);
      ArmCounts(u, i, t.put);
      var v := u.Arm(i, t.put).Let(t.put.armed);
      if v.next < 0 && !v.active {
        StartCounts(v, i, t.put.starting);
      }
    } else if !s.td[i].active {
      ArmCounts(s, i, t.get);
      StartCounts(s.Arm(i, t.get).Let(t.get.armed), i, t.get.starting);
    }
  }

  /** The controller never touches a descriptor that is not armed. */
  lemma {:induction false} StaysDone(r: Ring, i: nat, steps: seq<Step>)
    requires r.Shape() && i < |r.td| && Sound(r, -1) && r.Done(i)
    ensures r.Let(steps).Done(i)
    decreases |steps|
  {
    if steps != [] {
      hide Sound, Ring.Done, Ring.Do;
      StaysDone(r, i, steps[..|steps| - 1]);
      LetCounts(r, -1, steps[..|steps| - 1]);
      StepsOver(r.Let(steps[..|steps| - 1]), i, steps[|steps| - 1]);
    }
  }

  lemma StepsOver(r: Ring, i: nat, step: Step)
    requires r.Shape() && i < |r.td| && Sound(r, -1) && r.Done(i)
    ensures r.Do(step).Done(i)
  {
  }

  lemma {:induction false} RunCounts(r: Ring, i: nat, rounds: seq<Round>)
    requires r.Shape() && i < |r.td| && Sound(r, -1)
    ensures var a := Run(r, i, rounds); Sound(a.ring, -1) && Gone(a.ring, -1) == Gone(r, -1) + |a.out|
    decreases |rounds|
  {
    hide Sound, Gone, Receive;
    if rounds != [] {
      RunCounts(r, i, rounds[..|rounds| - 1]);
      var a := Run(r, i, rounds[..|rounds| - 1]);
      ReceiveCounts(a.ring, a.head, rounds[|rounds| - 1]);
    }
  }

  lemma ArmedCount(r: Ring)
    requires r.Shape() && !r.active && r.arrived == [] && r.glitched == 0
    requires forall i :: 0 <= i < |r.td| ==> r.td[i].active
    ensures Sound(r, -1) && Gone(r, -1) == 0
  {
    assert Idle(r.td, -1) == {};
  }

  /** The slots of the window. */
  function Slots(head: nat, m: nat, n: nat): (s: set<int>)
    requires head < n && m <= n
    ensures |s| == m && forall i :: i in s ==> 0 <= i < n && Dist(head, i, n) < m
  {
    if m == 0 then {}
    else assert Dist(head, Slot(head, m - 1, n), n) == m - 1;
         Slots(head, m - 1, n) + {Slot(head, m - 1, n)}
  }

  /** In its invariant the ring has lost no packet. */
  lemma InvCount(r: Ring, head: nat, c: nat, out: seq<Packet>)
    requires Inv(r, head, c, out, -1)
    ensures Gone(r, -1) + r.glitched <= |out|
  {
    var g := Goods(r, c);
    WindowLength(r, head, g);
    var s := Slots(head, g, |r.td|);
    forall i | i in s ensures i in Waiting(r, -1) {
      assert r.Done(i);
    }
    SubsetSize(s, Waiting(r, -1));
  }

  lemma {:induction false} WindowLength(r: Ring, head: nat, m: nat)
    requires r.Shape() && head < |r.td| && m <= |r.td|
    ensures |Window(r, head, m)| == m
  {
    if m > 0 {
      WindowLength(r, head, m - 1);
    }
  }

  /** The ring never stalls: unless it is full, halted or busy already, the controller goes on. */
  lemma GoesOn(r: Ring, head: nat, c: nat, out: seq<Packet>)
    requires Inv(r, head, c, out, -1) && c < |r.td| && !r.halted && !r.active
    ensures r.Do(Fetch).active && r.Do(Fetch).cur == Slot(head, c, |r.td|)
  {
    assert Dist(head, Slot(head, c, |r.td|), |r.td|) == c;
  }

  // ---- what waits is read ----

  /** A packet that waits is what the next round reads, whatever the controller does meanwhile. */
  lemma ReadsNext(r: Ring, i: nat, c: nat, out: seq<Packet>, t: Round)
    requires Inv(r, i, c, out, -1) && Goods(r, c) >= 1 && Receive(r, i, t).ring.glitched == r.glitched
    ensures Receive(r, i, t).out == [r.Held(i)]
  {
    FirstWaits(r, i, c, out);
    var s := r.Let(t.before);
    var d := LetKeeps(r, i, c, out, -1, t.before);
    FirstKept(r, s, i, c);
    var u := s.Let(t.reading);
    var e := LetKeeps(s, i, d, out, -1, t.reading);
    FirstIsGood(s, i, d, out);
    FirstKept(s, u, i, d);
    hide Inv, Ring.Done, Ring.Held, Ring.Let, Ring.Put;
  }

  lemma FirstWaits(r: Ring, i: nat, c: nat, out: seq<Packet>)
    requires Inv(r, i, c, out, -1) && Goods(r, c) >= 1
    ensures r.Done(i) && c >= 1
  {
    assert Dist(i, i, |r.td|) == 0;
  }

  const PAUSE := Round([], QUIET, [], QUIET)

  function Pauses(k: nat): (s: seq<Round>)
    ensures |s| == k
  {
    if k == 0 then [] else Pauses(k - 1) + [PAUSE]
  }

  /** With the controller at rest, each round reads one packet until all that arrived are read. */
  lemma {:induction false} Drains(r: Ring, i: nat, c: nat, out: seq<Packet>, k: nat) returns (d: nat)
    requires Inv(r, i, c, out, -1) && k <= Goods(r, c)
    ensures var a := Run(r, i, Pauses(k));
            && Inv(a.ring, a.head, d, out + a.out, -1) && Goods(a.ring, d) == Goods(r, c) - k
            && a.ring.arrived == r.arrived && |a.out| == k && a.ring.glitched == r.glitched
            && (k == Goods(r, c) ==> out + a.out == r.arrived)
    decreases k
  {
    hide Inv, Receive, Goods;
    Linked(r, i, c, out, -1);
    if k == 0 {
      d := c;
      assert out + [] == out;
      AllRead(r, i, c, out);
    } else {
      var e := Drains(r, i, c, out, k - 1);
      var a := Run(r, i, Pauses(k - 1));
      assert Pauses(k)[..k - 1] == Pauses(k - 1);
      d := DrainsOne(a.ring, a.head, e, out + a.out);
      Associative(out, a.out, Receive(a.ring, a.head, PAUSE).out);
      AllRead(Run(r, i, Pauses(k)).ring, Run(r, i, Pauses(k)).head, d, out + Run(r, i, Pauses(k)).out);
    }
  }

  lemma AllRead(r: Ring, i: nat, c: nat, out: seq<Packet>)
    requires Inv(r, i, c, out, -1)
    ensures Goods(r, c) == 0 ==> out == r.arrived
    ensures |r.arrived| == |out| + Goods(r, c) && Goods(r, c) >= 0
  {
    if r.halted {
      assert c >= 1;
    }
    WindowLength(r, i, Goods(r, c));
  }

  lemma DrainsOne(r: Ring, i: nat, c: nat, out: seq<Packet>) returns (d: nat)
    requires Inv(r, i, c, out, -1) && Goods(r, c) >= 1
    ensures var a := Receive(r, i, PAUSE);
            && Inv(a.ring, a.head, d, out + a.out, -1) && Goods(a.ring, d) == Goods(r, c) - 1
            && a.ring.arrived == r.arrived && |a.out| == 1 && a.ring.glitched == r.glitched
  {
    hide Inv, Goods;
    FirstWaits(r, i, c, out);
    Linked(r, i, c, out, -1);
    PauseIs(r, i);
    var a := Receive(r, i, PAUSE);
    d := ReceiveKeeps(r, i, c, out, PAUSE);
    AllRead(r, i, c, out);
    AllRead(a.ring, a.head, d, out + a.out);
  }

  lemma PauseIs(r: Ring, i: nat)
    requires r.Shape() && i < |r.td| && r.next >= 0 && r.Done(i)
    ensures var a := Receive(r, i, PAUSE);
            a.ring.arrived == r.arrived && a.ring.glitched == r.glitched && |a.out| == 1
  {
    assert r.Let([]) == r;
    var b := r.Clear(i);
    assert b.Let([]) == b;
    var c := b.Activate(i);
    assert c.Let([]) == c;
  }

  /** The run left the ring in order. */
  ghost predicate InOrder(a: After) {
    exists c :: Inv(a.ring, a.head, c, a.out, -1)
  }

  /** After any run of a ring that was started undisturbed, every packet that arrived was read, waits to
      be read or was glitched; and the ring is in order exactly when none was glitched. */
  lemma InOrderExactly(bufs: seq<Packet>, size: nat, rounds: seq<Round>)
    requires 2 <= |bufs| <= 16 && forall i :: 0 <= i < |bufs| ==> |bufs[i]| == size
    ensures var a := Run(Armed(bufs, size).Start(0, []), 0, rounds);
            && |a.ring.arrived| == |a.out| + |Waiting(a.ring, -1)| + a.ring.glitched
            && (InOrder(a) <==> a.ring.glitched == 0)
  {
    var r := Armed(bufs, size).Start(0, []);
    StartQuiet(bufs, size);
    assert r == Armed(bufs, size).(next := 0, active := false, halted := false);
    ArmedCount(r);
    RunCounts(r, 0, rounds);
    hide Inv, Run, Armed, Ring.Start, Waiting;
    var a := Run(r, 0, rounds);
    if a.ring.glitched == 0 {
      var d := EveryRun(r, 0, 0, [], rounds);
      assert [] + a.out == a.out;
    } else {
      forall c ensures !Inv(a.ring, a.head, c, a.out, -1) {
        if Inv(a.ring, a.head, c, a.out, -1) {
          InvCount(a.ring, a.head, c, a.out);
        }
      }
    }
  }
}

/** The ring itself: descriptors, buffers and overlay as words that the driver and the controller write. */
module RxQueue {
  import opened Machine
  import opened RxModel

  class Queue {
    const td: array<Td>
    const buf: array<Packet>
    const size: nat
    var next: int
    var active: bool
    var halted: bool
    var cur: nat
    var rxNext: nat
    var rxErrors: u32
    ghost var arrived: seq<Packet>
    ghost var glitched: nat

    ghost function Now(): Ring
      reads this, td, buf
    {
      Ring(td[..], buf[..], size, next, active, halted, cur, arrived, glitched)
    }

    ghost predicate Valid()
      reads this, td, buf
    {
      Now().Shape() && rxNext < td.Length
    }

    /** ehci_rx_start, while the queue head links to nothing: all descriptors are armed over the
        caller's memory, and the queue is started at the first. */
    constructor (bufs: seq<Packet>, bytes: nat, gap: seq<Step>)
      requires 2 <= |bufs| <= 16 && forall i :: 0 <= i < |bufs| ==> |bufs[i]| == bytes
      ensures Valid() && rxNext == 0 && fresh(td) && fresh(buf)
      ensures Now() == Armed(bufs, bytes).Start(0, gap)
    {
      hide Ring.Let, Ring.Start;
      var n := |bufs|;
      var d := ArmAll(n, bytes);
      var b := new Packet[n](i requires 0 <= i < n => bufs[i]);
      td, buf, size := d, b, bytes;
      next, active, halted, cur, rxNext, rxErrors := -1, false, false, 0, 0, 0;
      arrived, glitched := [], 0;
      new;
      assert buf[..] == bufs;
      QhStart(0, gap);
    }

    static method ArmAll(n: nat, bytes: nat) returns (d: array<Td>)
      requires n >= 1
      ensures fresh(d) && d[..] == FreshTds(n, n, bytes)
    {
      d := new Td[n](_ => Td(0, false, false, false, 0));
      for i := 0 to n
        invariant d[..i] == FreshTds(n, i, bytes)
      {
        NextIsMod(i, n);
        d[i] := Td((i + 1) % n, true, false, false, bytes);
      }
    }

    /** What the controller does on its own. */
    method Controller(steps: seq<Step>)
      requires Valid()
      modifies this`next, this`active, this`halted, this`cur, this`arrived, this`glitched, td, buf
      ensures Valid() && Now() == old(Now()).Let(steps)
    {
      var k := 0;
      assert steps[..0] == [];
      while k < |steps|
        invariant 0 <= k <= |steps| && Valid() && Now() == old(Now()).Let(steps[..k])
      {
        assert steps[..k + 1][..k] == steps[..k];
        OneStep(steps[k]);
        k := k + 1;
      }
      assert steps[..|steps|] == steps;
    }

    method OneStep(step: Step)
      requires Valid()
      modifies this`next, this`active, this`halted, this`cur, this`arrived, this`glitched, td, buf
      ensures Valid() && Now() == old(Now()).Do(step)
    {
      match step
      case Fetch =>
        if !active && !halted && next >= 0 && td[next].active {
          cur, active, next := next, true, td[next].next;
        }
      case Deliver(p) =>
        if active && |p| <= size {
          Retire(p, false, false);
          arrived := arrived + [p];
        }
      case Glitch(p) =>
        if active && |p| <= size {
          Retire(p, false, true);
          arrived, glitched := arrived + [p], glitched + 1;
        }
      case Fail(junk) =>
        if active && |junk| <= size {
          Retire(junk, true, true);
          halted := true;
        }
    }

    method Retire(p: Packet, halt: bool, err: bool)
      requires Valid() && |p| <= size
      modifies this`active, td, buf
      ensures Valid() && Now() == old(Now()).Retire(p, halt, err)
    {
      td[cur] := td[cur].(active := false, halted := halt, error := err, left := size - |p|);
      buf[cur] := p + buf[cur][|p|..];
      active := false;
    }

    /** ehci_rx_arm */
    method RxArm(i: nat, g: Gaps)
      requires Valid() && i < td.Length
      modifies this`next, this`active, this`halted, this`cur, this`arrived, this`glitched, td, buf
      ensures Valid() && Now() == old(Now()).Arm(i, g)
    {
      hide Ring.Let;
      ClearToken(i);
      Controller(g.filling);
      FillAndActivate(i);
    }

    method ClearToken(i: nat)
      requires Valid() && i < td.Length
      modifies td
      ensures Valid() && Now() == old(Now()).Clear(i)
    {
      td[i] := td[i].(active := false, halted := false, error := false, left := 0);
    }

    method FillAndActivate(i: nat)
      requires Valid() && i < td.Length
      modifies td
      ensures Valid() && Now() == old(Now()).Activate(i)
    {
      NextIsMod(i, td.Length);
      td[i] := td[i].(next := (i + 1) % td.Length);
      td[i] := td[i].(active := true, halted := false, error := false, left := size);
    }

    /** ehci_qh_start */
    method QhStart(i: nat, gap: seq<Step>)
      requires Valid() && i < td.Length
      modifies this`next, this`active, this`halted, this`cur, this`arrived, this`glitched, td, buf
      ensures Valid() && Now() == old(Now()).Start(i, gap)
    {
      hide Ring.Let;
      next := i;
      Controller(gap);
      active, halted := false, false;
    }

    /** ehci_rx_get */
    method RxGet(g: Gaps) returns (got: bool, packet: Packet)
      requires Valid()
      modifies this`next, this`active, this`halted, this`cur, this`arrived, this`glitched, this`rxErrors, td, buf
      ensures Valid() && Now() == old(Now()).Get(rxNext, g)
      ensures got <==> old(Now()).Done(rxNext)
      ensures got ==> packet == old(Now()).Held(rxNext)
    {
      var tok := td[rxNext];
      got, packet := false, [];
      if tok.active {
        return;
      }
      if tok.halted || tok.error {
        rxErrors := Wrap(rxErrors + 1);
        RxArm(rxNext, g);
        Controller(g.armed);
        QhStart(rxNext, g.starting);
        return;
      }
      got, packet := true, buf[rxNext][..size - tok.left];
    }

    /** ehci_rx_put */
    method RxPut(g: Gaps)
      requires Valid()
      modifies this`next, this`active, this`halted, this`cur, this`arrived, this`glitched, this`rxNext, td, buf
      ensures Valid() && Now() == old(Now()).Put(old(rxNext), g) && rxNext == Next(old(rxNext), td.Length)
    {
      hide Ring.Let, Ring.Arm, Ring.Start, Ring.Shape;
      var i := rxNext;
      NextIsMod(i, td.Length);
      RxArm(i, g);
      rxNext := (i + 1) % td.Length;
      Controller(g.armed);
      if next < 0 && !active {
        QhStart(i, g.starting);
      }
    }

    /** The client's loop, for any number of rounds and any schedule of the controller. Once the ring has
        started in order, what the client has read and what still waits is exactly what arrived. */
    method Client(rounds: seq<Round>) returns (out: seq<Packet>)
      requires Valid()
      modifies this, td, buf
      ensures Valid()
      ensures var a := Run(old(Now()), old(rxNext), rounds); Now() == a.ring && rxNext == a.head && out == a.out
    {
      hide Run, Receive, Ring.Let, Ring.Get, Ring.Put;
      out := [];
      var k := 0;
      RunNone(Now(), rxNext);
      assert rounds[..0] == [];
      while k < |rounds|
        invariant 0 <= k <= |rounds| && Valid()
        invariant var a := Run(old(Now()), old(rxNext), rounds[..k]);
                  Now() == a.ring && rxNext == a.head && out == a.out
      {
        RunMore(old(Now()), old(rxNext), rounds, k);
        var more := OneRound(rounds[k]);
        out := out + more;
        k := k + 1;
      }
      assert rounds[..|rounds|] == rounds;
    }

    method OneRound(t: Round) returns (out: seq<Packet>)
      requires Valid()
      modifies this, td, buf
      ensures Valid()
      ensures var a := Receive(old(Now()), old(rxNext), t); Now() == a.ring && rxNext == a.head && out == a.out
    {
      hide Ring.Let, Ring.Get, Ring.Put;
      Controller(t.before);
      out := [];
      ghost var s := Now();
      var got, packet := RxGet(t.get);
      if got {
        GetDone(s, rxNext, t.get);
        Controller(t.reading);
        out := [buf[rxNext][..|packet|]];
        RxPut(t.put);
      }
    }
  }

  lemma NextIsMod(i: nat, n: nat)
    requires i < n
    ensures (i + 1) % n == Next(i, n)
  {
    if i + 1 == n {
      assert n % n == 0;
    }
  }

  lemma GetDone(s: Ring, i: nat, g: Gaps)
    requires s.Shape() && i < |s.td| && s.Done(i)
    ensures s.Get(i, g) == s
  {
  }

  lemma RunNone(r: Ring, i: nat)
    requires r.Shape() && i < |r.td|
    ensures Run(r, i, []) == After(r, i, [])
  {
  }

  lemma RunMore(r: Ring, i: nat, rounds: seq<Round>, k: nat)
    requires r.Shape() && i < |r.td| && k < |rounds|
    ensures var a := Run(r, i, rounds[..k]);
            var b := Receive(a.ring, a.head, rounds[k]);
            Run(r, i, rounds[..k + 1]) == After(b.ring, b.head, a.out + b.out)
  {
    assert rounds[..k + 1][..k] == rounds[..k];
  }
}
