/** netstack.h: the one TCP client connection, against an honest peer over a network that
    loses, duplicates and reorders segments (RFC 9293, section 3). */
module TcpModel {
  import opened Arith
  import opened Machine

  const MSS: int := 1400
  const HALF: int := 0x8000_0000

  datatype State = CLOSED | SYN_SENT | ESTABLISHED | FIN_WAIT | DONE

  datatype Seg = Seg(seqno: u32, ackno: u32, syn: bool, fin: bool, rst: bool, ack: bool, data: seq<Byte>)

  function SetOf(out: seq<Seg>): (r: set<Seg>)
    ensures out == [] ==> r == {}
    ensures |out| == 1 ==> r == {out[0]}
  {
    set o | o in out
  }

  /** The tcp_* globals, and what they are meant to stand for: the bytes taken from the peer's
      stream, those handed to the callback, and whether SYN and FIN were passed. */
  datatype Client = Client(
    state: State, una: u32, nxt: u32, rcv: u32, ackDue: nat, hasFn: bool,
    received: seq<Byte>, delivered: seq<Byte>, est: bool, finSeen: bool, finSent: bool)
  {
    function AckSeg(): Seg {
      Seg(nxt, rcv, false, false, false, true, [])
    }

    // ---- tcp_rx, part by part ----

    function TakeAck(s: Seg): (c: Client)
      ensures c == this.(una := c.una)
    {
      if s.ack && Signed32(s.ackno - una) > 0 && Signed32(s.ackno - nxt) <= 0 then this.(una := s.ackno) else this
    }

    function TakeData(s: Seg): (c: Client)
      ensures c == this.(rcv := c.rcv, ackDue := c.ackDue, received := c.received, delivered := c.delivered)
      ensures received <= c.received
    {
      if s.data == [] then this
      else if s.seqno == rcv then
        this.(rcv := Wrap(rcv + |s.data|), ackDue := ackDue + 1, received := received + s.data,
              delivered := if hasFn then delivered + s.data else delivered)
      else this.(ackDue := ackDue + 2)
    }

    function TakeFin(s: Seg): (r: (Client, seq<Seg>))
      ensures r.0 == this.(rcv := r.0.rcv, finSeen := r.0.finSeen, state := r.0.state, nxt := r.0.nxt,
                           finSent := r.0.finSent)
      ensures (r.0.state == state || r.0.state == DONE) && (finSent ==> r.0.finSent)
    {
      if s.fin && Wrap(s.seqno + |s.data|) == rcv then
        var c := this.(rcv := Wrap(rcv + 1), finSeen := true, state := DONE);
        if state == ESTABLISHED
        then (c.(nxt := Wrap(nxt + 1), finSent := true), [Seg(nxt, c.rcv, false, true, false, true, [])])
        else (c, [])
      else (this, [])
    }

    function AckNow(s: Seg, out: seq<Seg>): (r: (Client, seq<Seg>))
      ensures r.0 == this.(ackDue := r.0.ackDue)
    {
      if s.fin || ackDue >= 2 || 0 < |s.data| < MSS
      then (this.(ackDue := 0), out + [AckSeg()])
      else (this, out)
    }

    function Connected(s: Seg): Client {
      this.(rcv := Wrap(s.seqno + 1), una := s.ackno, state := ESTABLISHED, est := true)
    }

    /** The new state and the segments sent in answer to s. */
    function Rx(s: Seg): (Client, seq<Seg>) {
      if state == CLOSED then (this, [])
      else if s.rst then (this.(state := DONE), [])
      else if state == SYN_SENT then
        if s.syn && s.ack && s.ackno == nxt then (Connected(s), [Connected(s).AckSeg()]) else (this, [])
      else
        var (c, out) := TakeAck(s).TakeData(s).TakeFin(s);
        c.AckNow(s, out)
    }
  }

  /** The other end: its initial number, the stream it wants to send, and what it has in order. */
  datatype Peer = Peer(irs: u32, stream: seq<Byte>, est: bool, got: seq<Byte>, finGot: bool)

  /** The connection seen from outside: everything ever sent in either direction may still
      be delivered, any number of times and in any order. */
  datatype World = World(c: Client, isn: u32, written: seq<Byte>, up: set<Seg>, down: set<Seg>, peer: Peer)
  {
    /** Position in the client's stream of one of its sequence numbers. */
    function UpOff(x: u32): nat { Wrap(x - isn - 1) }

    /** Position in the peer's stream of one of its sequence numbers. */
    function DownOff(x: u32): nat { Wrap(x - peer.irs - 1) }

    function Acked(): nat { |peer.got| + Bit(peer.finGot) }
    function Taken(): nat { |c.received| + Bit(c.finSeen) }

    /** Sequence numbers the client has used and not seen acknowledged. */
    function Unacked(): int {
      if c.una == isn then |written| + 1 + Bit(c.finSent) else |written| + Bit(c.finSent) - UpOff(c.una)
    }

    ghost predicate Inv() {
      && |peer.stream| + 1 < M32 && |written| + 2 < M32
      && ReceiverInv() && SenderInv()
      && (forall s :: s in up ==> UpOk(s))
      && (forall s :: s in down ==> Honest(s))
    }

    /** What the client took is a prefix of the peer's stream, rcv counts exactly it. */
    ghost predicate ReceiverInv() {
      && c.received <= peer.stream && c.delivered <= c.received
      && (c.hasFn ==> c.delivered == c.received)
      && (c.finSeen ==> c.received == peer.stream)
      && (if c.est then c.rcv == Wrap(peer.irs + 1 + Taken()) else c.received == [] && !c.finSeen && c.ackDue == 0)
    }

    /** What the peer has is a prefix of what was written; una never runs ahead of it. */
    ghost predicate SenderInv() {
      && (c.state == SYN_SENT ==> !c.est && !c.finSent && written == [] && c.una == isn)
      && (c.state == ESTABLISHED ==> c.est && !c.finSent)
      && c.state != CLOSED
      && c.nxt == Wrap(isn + 1 + |written| + Bit(c.finSent))
      && (c.una == isn ==> !c.est)
      && (c.una == isn || UpOff(c.una) <= Acked())
      && peer.got <= written
      && (peer.finGot ==> c.finSent && peer.got == written)
      && (peer.est ==> c.est)
    }

    /** A segment of ours: its data sit where its number says, its FIN ends what was written,
        and its ACK covers nothing that was not taken. */
    ghost predicate UpOk(s: Seg) {
      && (s.data != [] ==> UpOff(s.seqno) + |s.data| <= |written| &&
                           s.data == written[UpOff(s.seqno)..UpOff(s.seqno) + |s.data|])
      && (s.fin ==> c.finSent && UpOff(Wrap(s.seqno + |s.data|)) == |written|)
      && (s.ack ==> c.est && DownOff(s.ackno) <= Taken())
    }

    /** A segment the honest peer may send: a reset, its SYN-ACK, or, once connected, any part
        of its stream, a FIN only at the end, an ACK of no more than it has in order. */
    predicate Honest(s: Seg) {
      s.rst ||
      (&& (s.syn ==> s.seqno == peer.irs && s.data == [] && !s.fin && s.ackno == Wrap(isn + 1))
       && (!s.syn ==> peer.est)
       && (s.data != [] ==> DownOff(s.seqno) + |s.data| <= |peer.stream| &&
                            s.data == peer.stream[DownOff(s.seqno)..DownOff(s.seqno) + |s.data|])
       && (s.fin ==> DownOff(Wrap(s.seqno + |s.data|)) == |peer.stream|)
       && (s.ack ==> UpOff(s.ackno) <= Acked()))
    }

    // ---- the steps ----

    function Deliver(s: Seg): World {
      var (c', out) := c.Rx(s);
      this.(c := c', up := up + SetOf(out))
    }

    /** tcp_ack_flush */
    function Flush(): World {
      if c.ackDue > 0 && c.state != CLOSED
      then this.(c := c.(ackDue := 0), up := up + {c.AckSeg()})
      else this
    }

    function PeerSends(s: Seg): World {
      this.(down := down + {s})
    }

    /** The peer takes the next k bytes out of one of our segments, and its FIN if that is next. */
    function PeerGot(s: Seg, k: nat): seq<Byte> {
      var d := Wrap(isn + 1 + |peer.got| - s.seqno);
      if !peer.finGot && d + k <= |s.data| then peer.got + s.data[d..d + k] else peer.got
    }

    function PeerTakes(s: Seg, k: nat): World {
      var got := PeerGot(s, k);
      var fin := s.fin && Wrap(s.seqno + |s.data|) == Wrap(isn + 1 + |got|);
      this.(peer := peer.(est := peer.est || s.ack, got := got, finGot := peer.finGot || fin))
    }

    /** tcp_write gives the next chunk its sequence numbers. */
    function StartChunk(d: seq<Byte>): World {
      this.(c := c.(nxt := Wrap(c.nxt + |d|)), written := written + d)
    }

    function DataSeg(seqno: u32, d: seq<Byte>): Seg {
      Seg(seqno, c.rcv, false, false, false, true, d)
    }

    function Send(s: Seg): World {
      this.(up := up + {s})
    }
  }

  function Bit(b: bool): nat {
    if b then 1 else 0
  }

  /** Just after the assignments of tcp_connect. */
  ghost predicate Init(w: World) {
    && w.c == Client(SYN_SENT, w.isn, Wrap(w.isn + 1), 0, 0, true, [], [], false, false, false)
    && w.written == [] && w.up == {} && w.down == {}
    && !w.peer.est && w.peer.got == [] && !w.peer.finGot
    && |w.peer.stream| + 1 < M32
  }

  lemma InitInv(w: World)
    requires Init(w)
    ensures w.Inv()
  {
  }

  // ---- 32-bit sequence numbers ----

  /** Positions closer than 2^32 are told apart by their numbers. */
  lemma OffInjective(base: u32, x: u32, n: nat)
    requires n < M32 && x == Wrap(base + 1 + n)
    ensures Wrap(x - base - 1) == n
  {
  }

  // ---- a delivered segment keeps the invariant ----

  /** The client only moves forward, so what it sent stays in order. */
  ghost predicate Forward(w: World, w': World) {
    && w'.isn == w.isn && w'.peer.irs == w.peer.irs && w'.peer.stream == w.peer.stream
    && w.written <= w'.written && (w.c.finSent ==> w'.c.finSent && w'.written == w.written)
    && (w.c.est ==> w'.c.est) && w.Taken() <= w'.Taken()
    && (w.peer.est ==> w'.peer.est) && w.Acked() <= w'.Acked()
  }

  lemma OldSegments(w: World, w': World)
    requires Forward(w, w')
    ensures forall s :: w.UpOk(s) ==> w'.UpOk(s)
    ensures forall s :: w.Honest(s) ==> w'.Honest(s)
  {
    hide Wrap;
  }

  lemma TakeAckInv(w: World, s: Seg)
    requires w.Inv() && w.Honest(s) && !s.rst && w.c.state !in {SYN_SENT, CLOSED}
    ensures w.(c := w.c.TakeAck(s)).Inv()
  {
    var w' := w.(c := w.c.TakeAck(s));
    if w'.c.una != w.c.una {
      assert w.UpOff(s.ackno) <= w.Acked();
      NotIsn(w.isn, s.ackno, w.Acked());
    }
    hide Wrap, World.UpOk, World.Honest;
    OldSegments(w, w');
  }

  lemma NotIsn(isn: u32, x: u32, n: nat)
    requires Wrap(x - isn - 1) <= n < M32 - 1
    ensures x != isn
  {
  }

  lemma TakeDataInv(w: World, s: Seg)
    requires w.Inv() && w.Honest(s) && !s.rst && w.c.state !in {SYN_SENT, CLOSED}
    ensures w.(c := w.c.TakeData(s)).Inv()
  {
    var w' := w.(c := w.c.TakeData(s));
    assert s.data != [] ==> w.c.est;
    if s.data != [] && s.seqno == w.c.rcv {
      NextData(w, s);
    }
    hide Wrap, World.UpOk, World.Honest;
    assert w'.ReceiverInv() && w'.SenderInv();
    OldSegments(w, w');
  }

  /** Data that carry the expected number are the next bytes of the stream. */
  lemma NextData(w: World, s: Seg)
    requires w.ReceiverInv() && |w.peer.stream| + 1 < M32 && w.Honest(s) && !s.rst && w.c.est
    requires s.data != [] && s.seqno == w.c.rcv
    ensures !w.c.finSeen && w.c.received + s.data <= w.peer.stream
    ensures Wrap(w.c.rcv + |s.data|) == Wrap(w.peer.irs + 1 + |w.c.received + s.data|)
  {
    OffInjective(w.peer.irs, s.seqno, w.Taken());
    Advance(w.peer.irs, w.c.rcv, w.Taken(), |s.data|);
    hide Wrap;
    assert w.DownOff(s.seqno) == w.Taken();
    assert w.peer.stream[..|w.c.received| + |s.data|] == w.c.received + s.data;
  }

  lemma Advance(base: u32, x: u32, n: nat, k: nat)
    requires x == Wrap(base + 1 + n)
    ensures Wrap(x + k) == Wrap(base + 1 + n + k)
  {
  }

  lemma NextFin(w: World, s: Seg)
    requires w.ReceiverInv() && |w.peer.stream| + 1 < M32 && w.Honest(s) && !s.rst && s.fin && w.c.est
    requires Wrap(s.seqno + |s.data|) == w.c.rcv
    ensures !w.c.finSeen && w.c.received == w.peer.stream
    ensures Wrap(w.c.rcv + 1) == Wrap(w.peer.irs + 1 + |w.c.received| + 1)
  {
    OffInjective(w.peer.irs, w.c.rcv, w.Taken());
    Advance(w.peer.irs, w.c.rcv, w.Taken(), 1);
    hide Wrap;
    assert w.DownOff(w.c.rcv) == w.Taken() == |w.peer.stream|;
  }

  lemma TakeFinInv(w: World, s: Seg)
    requires w.Inv() && w.Honest(s) && !s.rst && w.c.state !in {SYN_SENT, CLOSED}
    ensures var (c, out) := w.c.TakeFin(s);
            w.(c := c, up := w.up + SetOf(out)).Inv()
  {
    var (c, out) := w.c.TakeFin(s);
    var w' := w.(c := c, up := w.up + SetOf(out));
    if s.fin && Wrap(s.seqno + |s.data|) == w.c.rcv {
      assert w.c.est;
      NextFin(w, s);
      if w.c.state == ESTABLISHED {
        OurFin(w, w');
      }
      hide Wrap, World.UpOk, World.Honest;
      assert w'.ReceiverInv() && w'.SenderInv();
      OldSegments(w, w');
    } else {
      assert w' == w;
    }
  }

  lemma OurFin(w: World, w': World)
    requires w.SenderInv() && !w.c.finSent && |w.written| + 2 < M32
    requires w'.isn == w.isn && w'.written == w.written && w'.peer == w.peer
    requires w'.c.finSent && w'.c.est && w'.ReceiverInv() && |w'.peer.stream| + 1 < M32
    ensures Wrap(w.c.nxt + 1) == Wrap(w.isn + 1 + |w.written| + 1)
    ensures w'.UpOk(Seg(w.c.nxt, w'.c.rcv, false, true, false, true, []))
  {
    hide Wrap;
    OffInjective(w.isn, w.c.nxt, |w.written|);
    OffInjective(w.peer.irs, w'.c.rcv, w'.Taken());
    Advance(w.isn, w.c.nxt, |w.written|, 1);
    WrapSame(w.c.nxt);
  }

  lemma WrapSame(x: u32)
    ensures Wrap(x + 0) == x
  {
  }

  /** Sending an ACK of what was taken is always fine. */
  lemma SendAckInv(w: World, due: nat)
    requires w.Inv() && w.c.est
    ensures w.(c := w.c.(ackDue := due), up := w.up + {w.c.AckSeg()}).Inv()
  {
    var w' := w.(c := w.c.(ackDue := due), up := w.up + {w.c.AckSeg()});
    OffInjective(w.peer.irs, w.c.rcv, w.Taken());
    OldSegments(w, w');
  }

  lemma ConnectedInv(w: World, s: Seg)
    requires w.Inv() && w.Honest(s) && !s.rst && w.c.state == SYN_SENT
    requires s.syn && s.ack && s.ackno == w.c.nxt
    ensures w.(c := w.c.Connected(s)).Inv()
  {
    var w' := w.(c := w.c.Connected(s));
    OffInjective(w.isn, s.ackno, 0);
    NotIsn(w.isn, s.ackno, 0);
    OldSegments(w, w');
  }

  /** tcp_rx keeps the invariant, whichever old or new segment of the peer arrives. */
  lemma DeliverInv(w: World, s: Seg)
    requires w.Inv() && s in w.down
    ensures w.Deliver(s).Inv()
  {
    assert w.Honest(s);
    hide Wrap;
    if s.rst {
      assert w.Deliver(s) == w.(c := w.c.(state := DONE));
      OldSegments(w, w.Deliver(s));
    } else if w.c.state == SYN_SENT {
      if s.syn && s.ack && s.ackno == w.c.nxt {
        ConnectedInv(w, s);
        SendAckInv(w.(c := w.c.Connected(s)), w.c.ackDue);
      } else {
        assert w.Deliver(s) == w;
      }
    } else {
      DataPathInv(w, s);
    }
  }

  lemma DataPathInv(w: World, s: Seg)
    requires w.Inv() && s in w.down && !s.rst && w.c.state !in {SYN_SENT, CLOSED}
    ensures w.Deliver(s).Inv()
  {
    TakeAckInv(w, s);
    var w1 := w.(c := w.c.TakeAck(s));
    TakeDataInv(w1, s);
    var w2 := w1.(c := w1.c.TakeData(s));
    TakeFinInv(w2, s);
    hide World.ReceiverInv, World.SenderInv, World.UpOk, World.Honest, Wrap, Client.TakeAck, Client.TakeData,
         Client.TakeFin;
    var (c3, out) := w2.c.TakeFin(s);
    var w3 := w2.(c := c3, up := w2.up + SetOf(out));
    AckNowInv(w3, s, out);
    var (c4, out4) := c3.AckNow(s, out);
    assert w.c.Rx(s) == (c4, out4);
    assert w.Deliver(s) == w3.(c := c4, up := w3.up + SetOf(out4));
  }

  lemma AckNowInv(w: World, s: Seg, out: seq<Seg>)
    requires w.Inv() && w.Honest(s) && !s.rst && (forall o :: o in out ==> o in w.up)
    ensures var (c, out') := w.c.AckNow(s, out);
            w.(c := c, up := w.up + SetOf(out')).Inv()
  {
    var (c, out') := w.c.AckNow(s, out);
    var w' := w.(c := c, up := w.up + SetOf(out'));
    if s.fin || w.c.ackDue >= 2 || 0 < |s.data| < MSS {
      SendAckInv(w, 0);
      assert w' == w.(c := w.c.(ackDue := 0), up := w.up + {w.c.AckSeg()});
    } else {
      assert w' == w;
    }
  }

  // ---- the other steps ----

  lemma FlushInv(w: World)
    requires w.Inv()
    ensures w.Flush().Inv()
  {
    if w.c.ackDue > 0 {
      SendAckInv(w, 0);
    }
  }

  lemma PeerSendsInv(w: World, s: Seg)
    requires w.Inv() && w.Honest(s)
    ensures w.PeerSends(s).Inv()
  {
    hide Wrap, World.UpOk;
    OldSegments(w, w.PeerSends(s));
  }

  /** What the peer takes out of an old or new segment of ours is the next of our stream. */
  lemma PeerNext(w: World, s: Seg, k: nat)
    requires w.SenderInv() && w.UpOk(s) && |w.written| + 2 < M32
    ensures w.PeerGot(s, k) <= w.written
    ensures w.peer.finGot ==> w.PeerGot(s, k) == w.peer.got
  {
    hide Wrap, World.ReceiverInv, World.UpOff;
    var d := Wrap(w.isn + 1 + |w.peer.got| - s.seqno);
    var off := w.UpOff(s.seqno);
    if !w.peer.finGot && d + k <= |s.data| && s.data != [] {
      OffIs(w, s.seqno);
      PeerOffset(w.isn, s.seqno, |w.peer.got|, off, |s.data|, |w.written|);
      NextSlice(w.written, w.peer.got, s.data, off, d, k);
    }
  }

  lemma OffIs(w: World, x: u32)
    ensures w.UpOff(x) == Wrap(x - w.isn - 1)
  {
  }

  /** What a piece of a stream holds past its first n bytes comes right after them. */
  lemma NextSlice(whole: seq<Byte>, got: seq<Byte>, piece: seq<Byte>, off: nat, d: nat, k: nat)
    requires got <= whole && off + |piece| <= |whole| && piece == whole[off..off + |piece|]
    requires off + d == |got| && d + k <= |piece|
    ensures got + piece[d..d + k] == whole[..|got| + k]
  {
  }

  lemma PeerNextFin(w: World, s: Seg, got: seq<Byte>)
    requires w.UpOk(s) && got <= w.written && |w.written| + 2 < M32
    requires s.fin && Wrap(s.seqno + |s.data|) == Wrap(w.isn + 1 + |got|)
    ensures w.c.finSent && got == w.written
  {
    OffInjective(w.isn, Wrap(s.seqno + |s.data|), |got|);
  }

  lemma PeerOffset(isn: u32, seqno: u32, got: nat, off: nat, len: nat, written: nat)
    requires off == Wrap(seqno - isn - 1) && off + len <= written && got <= written && written + 2 < M32
    requires Wrap(isn + 1 + got - seqno) <= len
    ensures off <= got && Wrap(isn + 1 + got - seqno) == got - off
  {
  }

  lemma PeerTakesInv(w: World, s: Seg, k: nat)
    requires w.Inv() && s in w.up
    ensures w.PeerTakes(s, k).Inv()
  {
    assert w.UpOk(s);
    PeerNext(w, s, k);
    if s.fin && Wrap(s.seqno + |s.data|) == Wrap(w.isn + 1 + |w.PeerGot(s, k)|) {
      PeerNextFin(w, s, w.PeerGot(s, k));
    }
    hide Wrap;
    OldSegments(w, w.PeerTakes(s, k));
  }

  lemma StartChunkInv(w: World, d: seq<Byte>)
    requires w.Inv() && w.c.state == ESTABLISHED && |w.written| + |d| + 2 < M32
    ensures w.StartChunk(d).Inv()
    ensures w.StartChunk(d).UpOk(w.StartChunk(d).DataSeg(w.c.nxt, d))
  {
    var w' := w.StartChunk(d);
    ChunkNumbers(w, d);
    OffInjective(w.peer.irs, w.c.rcv, w.Taken());
    hide Wrap, World.Honest;
    OldSegments(w, w');
  }

  lemma ChunkNumbers(w: World, d: seq<Byte>)
    requires w.SenderInv() && !w.c.finSent && |w.written| + |d| + 2 < M32
    ensures w.UpOff(w.c.nxt) == |w.written|
    ensures Wrap(w.c.nxt + |d|) == Wrap(w.isn + 1 + |w.written + d|)
  {
    OffInjective(w.isn, w.c.nxt, |w.written|);
  }

  lemma SendInv(w: World, s: Seg)
    requires w.Inv() && w.UpOk(s)
    ensures w.Send(s).Inv()
  {
    hide Wrap, World.Honest;
    OldSegments(w, w.Send(s));
  }

  // ---- every run ----

  /** One step: the network delivers an old or new segment, the application polls or starts a
      chunk or (re)sends a piece of what it wrote, or the peer sends or takes something. */
  ghost predicate Next(w: World, w': World) {
    || w' == w.Flush()
    || (exists s :: s in w.down && w' == w.Deliver(s))
    || (exists s :: w.Honest(s) && w' == w.PeerSends(s))
    || (exists s, k: nat :: s in w.up && w' == w.PeerTakes(s, k))
    || (exists d :: w.c.state == ESTABLISHED && |w.written| + |d| + 2 < M32 && w' == w.StartChunk(d))
    || (exists s :: w.UpOk(s) && w' == w.Send(s))
    || w' == w.(c := w.c.(hasFn := false))
  }

  lemma NextInv(w: World, w': World)
    requires w.Inv() && Next(w, w')
    ensures w'.Inv()
  {
    hide World.Inv, World.Honest, World.UpOk, World.Flush, World.Deliver, World.PeerSends, World.PeerTakes,
      World.StartChunk, World.Send;
    if w' == w.Flush() {
      FlushInv(w);
    } else if s :| s in w.down && w' == w.Deliver(s) {
      DeliverInv(w, s);
    } else if s :| w.Honest(s) && w' == w.PeerSends(s) {
      PeerSendsInv(w, s);
    } else if s, k: nat :| s in w.up && w' == w.PeerTakes(s, k) {
      PeerTakesInv(w, s, k);
    } else if d :| w.c.state == ESTABLISHED && |w.written| + |d| + 2 < M32 && w' == w.StartChunk(d) {
      StartChunkInv(w, d);
    } else if s :| w.UpOk(s) && w' == w.Send(s) {
      SendInv(w, s);
    } else {
      StopInv(w);
    }
  }

  lemma StopInv(w: World)
    requires w.Inv()
    ensures w.(c := w.c.(hasFn := false)).Inv()
  {
    OldSegments(w, w.(c := w.c.(hasFn := false)));
  }

  /** In every reachable state the callback has seen a prefix of the peer's stream and no ACK
      in the network covers a byte that was not taken; what the peer has is a prefix of what
      was written, and an acknowledged byte is one the peer has. */
  lemma {:induction false} EveryRun(run: seq<World>)
    requires run != [] && Init(run[0])
    requires forall i :: 0 <= i < |run| - 1 ==> Next(run[i], run[i + 1])
    ensures var w := run[|run| - 1];
            && w.c.delivered <= w.c.received <= w.peer.stream
            && (w.c.hasFn ==> w.c.delivered == w.c.received)
            && (forall s :: s in w.up && s.ack ==> w.DownOff(s.ackno) <= |w.c.received| + Bit(w.c.finSeen))
            && (w.c.finSeen ==> w.c.received == w.peer.stream)
            && w.peer.got <= w.written
            && (w.c.est ==> w.UpOff(w.c.una) <= |w.peer.got| + Bit(w.peer.finGot))
            && w.Inv()
  {
    var w := run[|run| - 1];
    if |run| == 1 {
      InitInv(w);
    } else {
      EveryRun(run[..|run| - 1]);
      assert Next(run[|run| - 2], run[|run| - 2 + 1]);
      NextInv(run[|run| - 2], w);
    }
    assert forall s :: s in w.up && s.ack ==> w.UpOk(s);
  }

  // ---- acknowledgements only move forward ----

  /** How far the peer's ACKs have come; -1 while the SYN itself is not acknowledged. */
  function AckedTo(w: World): int {
    if w.c.una == w.isn then -1 else w.UpOff(w.c.una)
  }

  /** A late ACK never takes back a newer one. */
  lemma AckForward(w: World, s: Seg)
    requires w.Inv() && w.Honest(s) && !s.rst && w.c.state !in {SYN_SENT, CLOSED}
    ensures AckedTo(w.(c := w.c.TakeAck(s))) >= AckedTo(w)
  {
    hide Wrap, World.ReceiverInv;
    if s.ack && Signed32(s.ackno - w.c.una) > 0 && Signed32(s.ackno - w.c.nxt) <= 0 {
      hide Signed32;
      LateAck(w.isn, w.c.una, w.c.nxt, s.ackno, |w.written| + Bit(w.c.finSent));
    }
  }

  lemma LateAck(isn: u32, una: u32, nxt: u32, ackno: u32, used: nat)
    requires used + 1 < M32 && nxt == Wrap(isn + 1 + used)
    requires una == isn || Wrap(una - isn - 1) <= used
    requires Wrap(ackno - isn - 1) <= used
    requires Signed32(ackno - una) > 0 && Signed32(ackno - nxt) <= 0
    ensures ackno != isn && (una != isn ==> Wrap(una - isn - 1) < Wrap(ackno - isn - 1))
  {
  }

  /** What the network and the peer may change behind the application's back. */
  ghost predicate Later(w: World, w': World) {
    && w'.isn == w.isn && w'.written == w.written
    && w'.peer.irs == w.peer.irs && w'.peer.stream == w.peer.stream
    && AckedTo(w) <= AckedTo(w') && w.peer.got <= w'.peer.got && w.c.received <= w'.c.received
    && w'.c.hasFn == w.c.hasFn && (w.c.est ==> w'.c.est) && (w.c.finSent ==> w'.c.finSent)
    && (w.c.state == ESTABLISHED ==> w'.c.state in {ESTABLISHED, DONE})
    && (w.c.state == DONE ==> w'.c.state == DONE)
    && w.up <= w'.up
  }

  /** A segment with these data has gone out. */
  ghost predicate Sent(up: set<Seg>, seqno: u32, d: seq<Byte>) {
    exists s :: s in up && s.seqno == seqno && s.data == d
  }

  lemma DeliverLater(w: World, s: Seg)
    requires w.Inv() && s in w.down
    ensures Later(w, w.Deliver(s))
  {
    assert w.Honest(s) && w.c.state != CLOSED;
    if s.rst {
      hide World.Inv, World.Honest, Wrap;
    } else if w.c.state == SYN_SENT {
      OffInjective(w.isn, w.c.nxt, 0);
      hide World.Honest, World.ReceiverInv, World.UpOk, Wrap;
    } else {
      AckForward(w, s);
      hide World.Inv, World.Honest, Wrap, Client.TakeAck;
      DataPathLater(w, s);
    }
  }

  /** After the ACK is looked at, una stays and everything else only grows. */
  lemma DataPathLater(w: World, s: Seg)
    requires !s.rst && w.c.state !in {SYN_SENT, CLOSED}
    ensures var c, d := w.c.TakeAck(s), w.Deliver(s).c;
            && d.una == c.una && d.hasFn == w.c.hasFn && d.est == w.c.est && w.c.received <= d.received
            && (w.c.finSent ==> d.finSent) && (d.state == w.c.state || d.state == DONE)
  {
    var c3 := w.c.TakeAck(s).TakeData(s).TakeFin(s);
    hide Wrap, Signed32, Client.TakeAck, Client.TakeData, Client.TakeFin, Client.AckNow;
    assert w.Deliver(s).c == c3.0.AckNow(s, c3.1).0;
  }

  /** The test at the end of tcp_write: unless more than 2^31 bytes are on their way, it lets
      through exactly the ACKs that cover the whole chunk. */
  lemma ChunkTest(isn: u32, una: u32, end: u32, u: nat, total: nat)
    requires una == Wrap(isn + 1 + u) && end == Wrap(isn + 1 + total)
    requires u <= total + 1 && total - u <= HALF && total + 2 < M32
    ensures una == end || Signed32(una - end) >= 0 <==> u >= total
  {
  }

  /** A chunk that passes the test is with the peer, in order, with all that went before. */
  lemma ChunkArrived(w0: World, w: World, end: u32)
    requires w.Inv() && Later(w0, w) && w0.c.est
    requires end == Wrap(w.isn + 1 + |w.written|) && |w0.written| - AckedTo(w0) <= HALF
    requires w.c.una == end || Signed32(w.c.una - end) >= 0
    ensures w.peer.got == w.written && w.Unacked() <= 1
  {
    var u := w.UpOff(w.c.una);
    OffBack(w.isn, w.c.una);
    ChunkTest(w.isn, w.c.una, end, u, |w.written|);
    assert u <= w.Acked();
  }

  /** And it passes as soon as an ACK that covers it has come. */
  lemma ChunkCounted(w0: World, w: World, end: u32)
    requires w.Inv() && Later(w0, w) && w0.c.est
    requires end == Wrap(w.isn + 1 + |w.written|) && |w0.written| - AckedTo(w0) <= HALF
    ensures w.c.una == end || Signed32(w.c.una - end) >= 0 <==> AckedTo(w) >= |w.written|
  {
    var u := w.UpOff(w.c.una);
    OffBack(w.isn, w.c.una);
    assert u <= w.Acked();
    ChunkTest(w.isn, w.c.una, end, u, |w.written|);
    hide Wrap, Signed32, World.ReceiverInv, World.UpOk, World.Honest;
  }

  lemma EstablishedIs(w: World)
    requires w.Inv() && w.c.state == ESTABLISHED
    ensures w.c.est
  {
  }

  /** What the test at the end of a chunk is worth, by what was pending at its start. */
  lemma ChunkDone(start: World, w0: World, w: World, chunk: seq<Byte>, end: u32)
    requires start.Inv() && start.c.state == ESTABLISHED && w0 == start.StartChunk(chunk) && |chunk| <= MSS
    requires w.Inv() && Later(w0, w) && end == Wrap(w.isn + 1 + |w.written|)
    ensures w.written == start.written + chunk
    ensures var acked := w.c.una == end || Signed32(w.c.una - end) >= 0;
            start.Unacked() + MSS <= HALF ==>
              (acked <==> AckedTo(w) >= |w.written|) && (acked ==> w.peer.got == w.written && w.Unacked() <= 1)
  {
    hide Wrap, Signed32, World.ReceiverInv, World.UpOk, World.Honest;
    if start.Unacked() + MSS <= HALF {
      ChunkCounted(w0, w, end);
      if w.c.una == end || Signed32(w.c.una - end) >= 0 {
        ChunkArrived(w0, w, end);
      }
    }
  }

  lemma NotYetAcked(w: World, d: seq<Byte>)
    requires w.Inv() && w.c.state == ESTABLISHED && d != [] && |w.written| + |d| + 2 < M32
    ensures w.c.una != Wrap(w.c.nxt + |d|)
  {
    ChunkNumbers(w, d);
    OffInjective(w.isn, Wrap(w.isn + 1 + |w.written + d|), |w.written + d|);
    hide Wrap;
    assert w.UpOff(w.c.una) <= w.Acked() <= |w.written|;
  }

  lemma NothingPending(w: World)
    requires w.Inv() && w.c.state == ESTABLISHED && w.written == []
    ensures w.Unacked() == 0
  {
    hide Wrap;
    assert w.peer.got == [] && !w.peer.finGot;
  }

  lemma OffBack(isn: u32, x: u32)
    ensures x == Wrap(isn + 1 + Wrap(x - isn - 1))
  {
  }

  /** Once the FIN is counted, an old segment can pass for new data exactly when the stream
      (plus FIN) fills the whole number space. */
  lemma OldDataAfterFin(irs: u32, len: nat)
    requires len > 0
    ensures (exists off: nat :: off < len && Number(irs, off) == Number(irs, len + 1)) <==> len + 1 >= M32
  {
    if len + 1 >= M32 {
      var off: nat := len + 1 - M32;
      assert Number(irs, off) == Number(irs, len + 1);
    }
  }

  function Number(irs: u32, off: nat): u32 {
    Wrap(irs + 1 + off)
  }

  /** Without a callback a step hands over nothing, takes nothing back, and brings no callback. */
  lemma StepGone(w: World, w': World)
    requires Next(w, w') && !w.c.hasFn
    ensures !w'.c.hasFn && w'.c.delivered == w.c.delivered && w.c.received <= w'.c.received
  {
    hide Wrap, Signed32, Client.TakeFin, Client.AckNow, Client.TakeAck, World.Inv, World.UpOk, World.Honest,
         World.PeerGot;
    if s :| s in w.down && w' == w.Deliver(s) {
      RxGone(w.c, s);
    }
  }

  lemma RxGone(c: Client, s: Seg)
    requires !c.hasFn
    ensures var d := c.Rx(s).0; !d.hasFn && d.delivered == c.delivered && c.received <= d.received
  {
    hide Wrap, Signed32, Client.TakeFin, Client.AckNow, Client.TakeAck;
  }

  /** After tcp_read_all has taken the callback away at step i, the rest of any run hands nothing
      over; what was taken and acknowledged has all been handed over exactly if not one byte was
      taken since. */
  lemma {:induction false} CallbackGone(run: seq<World>, i: nat)
    requires i + 1 < |run| && Init(run[0])
    requires forall k :: 0 <= k < |run| - 1 ==> Next(run[k], run[k + 1])
    requires run[i].c.hasFn && !run[i + 1].c.hasFn
    ensures var w := run[|run| - 1];
            && !w.c.hasFn && w.c.delivered == run[i + 1].c.delivered == run[i].c.received <= w.c.received
            && (w.c.delivered == w.c.received <==> |w.c.received| == |run[i].c.received|)
    decreases |run|
  {
    if |run| == i + 2 {
      var before := run[..i + 1];
      EveryRun(before);
      EveryRun(run);
      assert Next(run[i], run[i + 1]);
      KeptDelivered(run[i], run[i + 1]);
    } else {
      var front := run[..|run| - 1];
      CallbackGone(front, i);
      assert Next(run[|run| - 2], run[|run| - 2 + 1]);
      StepGone(run[|run| - 2], run[|run| - 1]);
    }
  }

  /** The step that takes the callback away takes and hands over nothing. */
  lemma KeptDelivered(w: World, w': World)
    requires Next(w, w') && w.c.hasFn && !w'.c.hasFn
    ensures w'.c.delivered == w.c.delivered && w'.c.received == w.c.received
  {
    hide Wrap, Signed32, Client.TakeFin, Client.AckNow, Client.TakeAck, World.Inv, World.UpOk, World.Honest,
         World.PeerGot;
    if s :| s in w.down && w' == w.Deliver(s) {
      RxKeepsFn(w.c, s);
    }
  }

  lemma RxKeepsFn(c: Client, s: Seg)
    ensures c.Rx(s).0.hasFn == c.hasFn
  {
    hide Wrap, Signed32, Client.TakeAck;
  }

  // ---- the idle count of tcp_read_all ----

  /** Polls after which the 32-bit count stands at its largest value, 2^32 - 2. */
  const LONGEST: nat := 1030792151

  /** The count reaches a limit after some number of polls, exactly unless the limit is 2^32 - 1. */
  lemma IdleExact(idleMs: u32)
    ensures (exists k: nat :: IdleAfter(k) >= idleMs) <==> idleMs < 0xffff_ffff
    ensures IdleAfter(LONGEST) == 0xffff_fffe
  {
    assert IdleAfter(LONGEST) == 0xffff_fffe;
    forall k: nat ensures IdleAfter(k) < 0xffff_ffff {
      DivBounds(50 * k, M32);
    }
  }

  function IdleAfter(polls: nat): u32 {
    Wrap(50 * polls)
  }

  lemma IdleNext(k: nat)
    ensures IdleAfter(k + 1) == Wrap(IdleAfter(k) + 50)
  {
    DivBounds(50 * k, M32);
    AddMultiple(IdleAfter(k) + 50, 50 * k / M32, M32);
  }
}

module TcpSocket {
  import opened Machine
  import opened TcpModel

  /** d stands at position off of s. */
  ghost predicate UpTo(s: seq<Byte>, off: nat, d: seq<Byte>) {
    off + |d| <= |s| && s[off..off + |d|] == d
  }

  /** The tcp_* globals together with the network and the peer they talk to. */
  class Socket {
    var state: State
    var una: u32
    var nxt: u32
    var rcv: u32
    var ackDue: nat
    var hasFn: bool
    // what the numbers stand for
    var received: seq<Byte>
    var delivered: seq<Byte>
    var est: bool
    var finSeen: bool
    var finSent: bool
    // the rest of the world
    var isn: u32
    var written: seq<Byte>
    var up: set<Seg>
    var down: set<Seg>
    var peer: Peer

    function C(): Client
      reads this
    {
      Client(state, una, nxt, rcv, ackDue, hasFn, received, delivered, est, finSeen, finSent)
    }

    function W(): World
      reads this
    {
      World(C(), isn, written, up, down, peer)
    }

    constructor () {
    }

    /** tcp_seg: a segment leaves; the network may lose it. */
    method Emit(seqno: u32, fin: bool, data: seq<Byte>)
      modifies `up
      ensures up == old(up) + {Seg(seqno, rcv, false, fin, false, true, data)}
    {
      up := up + {Seg(seqno, rcv, false, fin, false, true, data)};
    }

    /** tcp_rx */
    method Rx(s: Seg)
      modifies this
      ensures W() == old(W()).Deliver(s)
    {
      hide Wrap, Signed32, Client.TakeAck, Client.TakeData, Client.TakeFin, Client.AckNow;
      if state == CLOSED {
        return;
      }
      if s.rst {
        state := DONE;
        return;
      }
      if state == SYN_SENT {
        RxHandshake(s);
        return;
      }
      RxConnected(s);
    }

    /** tcp_rx in SYN_SENT. */
    method RxHandshake(s: Seg)
      requires state == SYN_SENT && !s.rst
      modifies `rcv, `una, `state, `est, `up
      ensures var (c, out) := old(C()).Rx(s); C() == c && up == old(up) + SetOf(out)
    {
      if s.syn && s.ack && s.ackno == nxt {
        rcv := Wrap(s.seqno + 1);
        una := s.ackno;
        state := ESTABLISHED;
        est := true;
        Emit(nxt, false, []);
      }
    }

    /** tcp_rx once the handshake is over. */
    method RxConnected(s: Seg)
      modifies `state, `una, `nxt, `rcv, `ackDue, `received, `delivered, `finSeen, `finSent, `up
      ensures var c := old(C()).TakeAck(s).TakeData(s);
              var (c', out) := c.TakeFin(s).0.AckNow(s, c.TakeFin(s).1);
              C() == c' && up == old(up) + SetOf(out)
    {
      hide Client.TakeAck, Client.TakeData, Client.TakeFin, Client.AckNow, SetOf;
      RxAck(s);
      RxData(s);
      ghost var before := C();
      RxFin(s);
      ghost var (c, out) := before.TakeFin(s);
      AckLast(c, s, out);
      AckOut(s);
    }

    method RxAck(s: Seg)
      modifies `una
      ensures C() == old(C()).TakeAck(s)
    {
      hide Wrap, Signed32;
      if s.ack && Signed32(s.ackno - una) > 0 && Signed32(s.ackno - nxt) <= 0 {
        una := s.ackno;
      }
    }

    method AckOut(s: Seg)
      modifies `ackDue, `up
      ensures C() == old(C()).AckNow(s, []).0 && up == old(up) + SetOf(old(C()).AckNow(s, []).1)
    {
      if s.fin || ackDue >= 2 || 0 < |s.data| < MSS {
        Emit(nxt, false, []);
        ackDue := 0;
      }
    }

    lemma AckLast(c: Client, s: Seg, out: seq<Seg>)
      ensures c.AckNow(s, out).0 == c.AckNow(s, []).0
      ensures SetOf(c.AckNow(s, out).1) == SetOf(out) + SetOf(c.AckNow(s, []).1)
    {
    }

    method RxData(s: Seg)
      modifies `rcv, `ackDue, `received, `delivered
      ensures C() == old(C()).TakeData(s)
    {
      if |s.data| > 0 {
        if s.seqno == rcv {
          if hasFn {
            delivered := delivered + s.data;
          }
          received := received + s.data;
          rcv := Wrap(rcv + |s.data|);
          ackDue := ackDue + 1;
        } else {
          ackDue := ackDue + 2;
        }
      }
    }

    method RxFin(s: Seg)
      modifies `rcv, `finSeen, `finSent, `nxt, `state, `up
      ensures C() == old(C()).TakeFin(s).0
      ensures up == old(up) + SetOf(old(C()).TakeFin(s).1)
    {
      if s.fin && Wrap(s.seqno + |s.data|) == rcv {
        rcv := Wrap(rcv + 1);
        finSeen := true;
        if state == ESTABLISHED {
          Emit(nxt, true, []);
          nxt := Wrap(nxt + 1);
          finSent := true;
        }
        state := DONE;
      }
    }

    /** tcp_ack_flush */
    method AckFlush()
      modifies this
      ensures W() == old(W()).Flush()
    {
      if ackDue > 0 && state != CLOSED {
        Emit(nxt, false, []);
        ackDue := 0;
      }
    }

    /** wlan_poll: any number of things happen in the network and at the peer, among them
        deliveries of segments it ever sent. */
    method Poll()
      requires W().Inv()
      modifies this
      ensures W().Inv() && Later(old(W()), W())
    {
      var n: nat := *;
      while n > 0
        invariant W().Inv() && Later(old(W()), W())
        decreases n
      {
        n := n - 1;
        OneEvent();
      }
    }

    method OneEvent()
      requires W().Inv()
      modifies this
      ensures W().Inv() && Later(old(W()), W())
    {
      hide World.Inv, World.Honest;
      var s: Seg, k: nat, what: nat := *, *, *;
      if what == 0 && s in down {
        DeliverInv(W(), s);
        DeliverLater(W(), s);
        Rx(s);
      } else if what == 1 && W().Honest(s) {
        PeerSendsInv(W(), s);
        down := down + {s};
      } else if what == 2 && s in up {
        PeerTakesInv(W(), s, k);
        peer := W().PeerTakes(s, k).peer;
      }
    }

    /** tcp_connect: 0 = connected, with nothing written and nothing left to acknowledge. */
    method Connect(newIsn: u32, newPeer: Peer) returns (r: int)
      requires !newPeer.est && newPeer.got == [] && !newPeer.finGot && |newPeer.stream| + 1 < M32
      modifies this
      ensures W().Inv() && isn == newIsn && written == []
      ensures r == (if state == ESTABLISHED then 0 else -1)
      ensures r == 0 ==> W().Unacked() == 0
    {
      Setup(newIsn, newPeer);
      InitInv(W());
      hide World.Inv, Wrap;
      var t := 0;
      while t < 5 && state == SYN_SENT
        invariant W().Inv() && isn == newIsn && written == []
        decreases 5 - t
      {
        SendSyn();
        PollWhileSynSent();
        t := t + 1;
      }
      if state == ESTABLISHED {
        NothingPending(W());
        return 0;
      }
      return -1;
    }

    method Setup(newIsn: u32, newPeer: Peer)
      requires !newPeer.est && newPeer.got == [] && !newPeer.finGot && |newPeer.stream| + 1 < M32
      modifies this
      ensures Init(W()) && isn == newIsn && peer == newPeer
    {
      hide Wrap;
      una, nxt, rcv := newIsn, Wrap(newIsn + 1), 0;
      ackDue := 0;
      state, hasFn := SYN_SENT, true;
      Forget();
      isn, peer := newIsn, newPeer;
    }

    /** A new connection: nothing sent, taken or written yet. */
    method Forget()
      modifies `received, `delivered, `est, `finSeen, `finSent, `written, `up, `down
      ensures received == [] && delivered == [] && !est && !finSeen && !finSent
      ensures written == [] && up == {} && down == {}
    {
      received, delivered, est, finSeen, finSent := [], [], false, false, false;
      written, up, down := [], {}, {};
    }

    method PollWhileSynSent()
      requires W().Inv()
      modifies this
      ensures W().Inv() && Later(old(W()), W())
    {
      hide World.Inv, Wrap;
      var w := 0;
      while w < 10 && state == SYN_SENT
        invariant W().Inv() && Later(old(W()), W())
        decreases 10 - w
      {
        Poll();
        w := w + 1;
      }
    }

    method SendSyn()
      requires W().Inv()
      modifies `up
      ensures W().Inv()
    {
      var syn := Seg(isn, 0, true, false, false, false, []);
      SendInv(W(), syn);
      up := up + {syn};
    }

    /** One chunk of tcp_write: true only if an ACK covers it (unless 2^31 bytes are missing). */
    method WriteChunk(chunk: seq<Byte>) returns (acked: bool)
      requires W().Inv() && state == ESTABLISHED
      requires 0 < |chunk| <= MSS && |written| + |chunk| + 2 < M32
      modifies this
      ensures W().Inv() && written == old(written) + chunk
      ensures acked && old(W().Unacked()) + MSS <= HALF ==> peer.got == written && W().Unacked() <= 1
      ensures old(W().Unacked()) + MSS <= HALF ==> (acked <==> AckedTo(W()) >= |written|)
      ensures Sent(up, old(nxt), chunk)
    {
      hide World.Inv, World.Unacked, Wrap, Signed32, AckedTo, Sent;
      NotYetAcked(W(), chunk);
      ghost var start := W();
      EstablishedIs(start);
      var seqno := nxt;
      var end := Wrap(seqno + |chunk|);
      Begin(chunk, end);
      ghost var w0 := W();
      Await(seqno, chunk, end);
      acked := una == end || Signed32(una - end) >= 0;
      ChunkDone(start, w0, W(), chunk, end);
    }

    /** snd_nxt moves at once. */
    method Begin(chunk: seq<Byte>, end: u32)
      requires W().Inv() && state == ESTABLISHED
      requires |written| + |chunk| + 2 < M32 && end == Wrap(nxt + |chunk|)
      modifies `nxt, `written
      ensures W() == old(W()).StartChunk(chunk) && W().Inv()
      ensures end == Wrap(isn + 1 + |written|) && UpTo(written, W().UpOff(old(nxt)), chunk)
    {
      StartChunkInv(W(), chunk);
      ChunkNumbers(W(), chunk);
      hide Wrap, World.Inv;
      nxt := end;
      written := written + chunk;
    }

    /** Up to six transmissions with ten polls each. */
    method Await(seqno: u32, chunk: seq<Byte>, end: u32)
      requires W().Inv() && est && UpTo(written, W().UpOff(seqno), chunk)
      modifies this
      ensures W().Inv() && Later(old(W()), W())
      ensures old(state) == ESTABLISHED && old(una) != end ==> Sent(up, seqno, chunk)
    {
      hide World.Inv, Wrap;
      var t := 0;
      while t < 6 && una != end
        invariant W().Inv() && Later(old(W()), W())
        invariant old(state) == ESTABLISHED && old(una) != end ==>
                    Sent(up, seqno, chunk) || (t == 0 && state == ESTABLISHED && una != end)
        decreases 6 - t
      {
        if state == ESTABLISHED {
          SendChunk(seqno, chunk);
        }
        var w := 0;
        while w < 10 && una != end
          invariant W().Inv() && Later(old(W()), W())
          invariant old(state) == ESTABLISHED && old(una) != end ==> Sent(up, seqno, chunk)
          decreases 10 - w
        {
          Poll();
          w := w + 1;
        }
        t := t + 1;
      }
    }

    method SendChunk(seqno: u32, chunk: seq<Byte>)
      requires W().Inv() && est && UpTo(written, W().UpOff(seqno), chunk)
      modifies `up
      ensures W().Inv() && Later(old(W()), W()) && Sent(up, seqno, chunk)
    {
      hide World.Inv, World.UpOk, World.Honest, World.UpOff, Wrap, AckedTo;
      ghost var w := W();
      MaySend(w, seqno, chunk);
      SendInv(w, w.DataSeg(seqno, chunk));
      Emit(seqno, false, chunk);
      assert W() == w.Send(w.DataSeg(seqno, chunk));
      assert w.DataSeg(seqno, chunk) in up;
      SentLater(w, w.DataSeg(seqno, chunk));
    }

    lemma MaySend(w: World, seqno: u32, chunk: seq<Byte>)
      requires w.Inv() && w.c.est && UpTo(w.written, w.UpOff(seqno), chunk)
      ensures w.UpOk(w.DataSeg(seqno, chunk))
    {
      OffInjective(w.peer.irs, w.c.rcv, w.Taken());
      hide Wrap;
    }

    lemma SentLater(w: World, s: Seg)
      ensures Later(w, w.Send(s))
    {
      hide Wrap;
    }

    /** tcp_write: 0 means the peer has every byte of d, in order and after all that was written
        before. It holds as long as no more than 2^31 bytes were pending, so in particular
        until a first failure. */
    method Write(d: seq<Byte>) returns (r: int)
      requires W().Inv() && |written| + |d| + 2 < M32
      modifies this
      ensures W().Inv() && (r == 0 || r == -1)
      ensures r == 0 ==> written == old(written) + d
      ensures r == 0 && old(W().Unacked()) + MSS <= HALF ==>
                (d != [] ==> peer.got == written) && W().Unacked() <= Max(1, old(W().Unacked()))
      ensures exists k :: 0 <= k <= |d| && written == old(written) + d[..k]
      ensures r == -1 && old(W().Unacked()) + MSS <= HALF ==>
                AckedTo(W()) < |written| || (state != ESTABLISHED && |written| < |old(written)| + |d|)
    {
      hide World.Inv, World.Unacked, Wrap, AckedTo, Sent;
      ghost var u0 := W().Unacked();
      var done := 0;
      assert d[..0] == [];
      while done < |d| && state == ESTABLISHED
        invariant 0 <= done <= |d| && W().Inv() && written == old(written) + d[..done]
        invariant u0 + MSS <= HALF ==> (done > 0 ==> peer.got == written) && W().Unacked() <= Max(1, u0)
        decreases |d| - done
      {
        var n := Min(|d| - done, MSS);
        var acked := WriteChunk(d[done..done + n]);
        assert d[..done] + d[done..done + n] == d[..done + n];
        done := done + n;
        if !acked {
          return -1;
        }
      }
      assert d[..|d|] == d;
      return if done < |d| then -1 else 0;
    }

    /** tcp_read_all: takes what comes until the peer closes or nothing came for idleMs; every
        byte taken until then went to the callback, in order, and then the callback goes. The
        32-bit count of idle time reaches every limit but the largest. With that one, a peer that
        stays silent keeps the loop going: it has not ended (ends is false) when the count has
        gone through to its largest value. */
    method ReadAll(idleMs: u32) returns (ends: bool)
      requires W().Inv()
      modifies this
      ensures W().Inv() && delivered <= peer.stream && old(received) <= received
      ensures old(hasFn) ==> delivered == received
      ensures ends ==> !hasFn
      ensures idleMs < 0xffff_ffff ==> ends
      ensures !ends ==> state == ESTABLISHED && hasFn == old(hasFn)
      ensures peer.stream == old(peer.stream) && written == old(written)
    {
      var last := |received|;
      var idle: u32 := 0;
      var quiet := 0;
      IdleExact(idleMs);
      while state == ESTABLISHED && idle < idleMs
        invariant W().Inv() && Later(old(W()), W()) && 0 <= last <= |received|
        invariant 0 <= quiet <= LONGEST && idle == IdleAfter(quiet)
        decreases |peer.stream| - last, LONGEST - quiet
      {
        hide Wrap, IdleAfter;
        if quiet == LONGEST {
          return false;
        }
        assert received <= peer.stream;
        PollAndFlush();
        assert received <= peer.stream;
        if |received| != last {
          last := |received|;
          idle, quiet := 0, 0;
        } else {
          IdleNext(quiet);
          idle, quiet := Wrap(idle + 50), quiet + 1;
        }
      }
      StopInv(W());
      hasFn := false;
      return true;
    }

    method PollAndFlush()
      requires W().Inv()
      modifies this
      ensures W().Inv() && Later(old(W()), W())
    {
      hide World.Inv, Wrap;
      Poll();
      FlushInv(W());
      AckFlush();
    }
  }

  function Max(a: int, b: int): int {
    if a > b then a else b
  }
}
