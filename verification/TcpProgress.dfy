/** netstack.h: what the TCP client does take, answer and count. TcpModel says that nothing wrong is ever
    taken or acknowledged; these are the converses, in terms of the two streams. */
module TcpProgress {
  import opened Arith
  import opened Machine
  import opened TcpModel

  /** tcp_rx in a connection takes the data of a segment exactly if they are the next of the stream, and
      hands them over if there is a callback. */
  lemma TakesExactly(w: World, s: Seg)
    requires w.Inv() && s in w.down && !s.rst && w.c.est && !w.c.finSeen && w.c.state !in {SYN_SENT, CLOSED}
    ensures var d := w.Deliver(s).c;
            var next := s.data != [] && w.DownOff(s.seqno) == |w.c.received|;
            && d.received == (if next then w.c.received + s.data else w.c.received)
            && d.delivered == (if next && w.c.hasFn then w.c.delivered + s.data else w.c.delivered)
  {
    SameNumber(w.peer.irs, s.seqno, w.c.rcv, |w.c.received|);
    hide Wrap, Signed32, Client.TakeAck, Client.TakeFin, Client.AckNow, World.UpOk, World.Honest, World.SenderInv;
  }

  /** Two numbers are the same exactly if they stand at the same place of the stream. */
  lemma SameNumber(irs: u32, seqno: u32, rcv: u32, n: nat)
    requires rcv == Wrap(irs + 1 + n) && n < M32
    ensures Wrap(seqno - irs - 1) == n <==> seqno == rcv
  {
    OffInjective(irs, rcv, n);
  }

  /** A FIN counts exactly when the whole stream has been taken; it ends the connection, and is answered
      by our own if that has not gone out. */
  lemma FinExactly(w: World, s: Seg)
    requires w.Inv() && s in w.down && !s.rst && w.c.est && !w.c.finSeen && w.c.state !in {SYN_SENT, CLOSED}
    ensures var d := w.Deliver(s);
            var fin := s.fin && d.c.received == w.peer.stream;
            && (d.c.finSeen <==> fin)
            && d.c.state == (if fin then DONE else w.c.state)
            && (fin && w.c.state == ESTABLISHED ==>
                  d.c.finSent && Seg(w.c.nxt, d.c.rcv, false, true, false, true, []) in d.up)
  {
    hide Wrap, Signed32, Client.TakeAck, Client.TakeData, World.Inv, World.Honest;
    DownHonest(w, s);
    TakeAckInv(w, s);
    var v := w.(c := w.c.TakeAck(s));
    SameHonest(w, v, s);
    TakeDataInv(v, s);
    FinNext(w, v.(c := v.c.TakeData(s)), s);
  }

  lemma DownHonest(w: World, s: Seg)
    requires w.Inv() && s in w.down
    ensures w.Honest(s)
  {
  }

  lemma SameHonest(w: World, v: World, s: Seg)
    requires w.Honest(s) && v.isn == w.isn && v.peer == w.peer
    ensures v.Honest(s)
  {
  }

  /** The test for the FIN, after the data of its segment. */
  lemma FinNext(w: World, v: World, s: Seg)
    requires w.Honest(s) && v.Inv() && v.isn == w.isn && v.peer == w.peer && !s.rst && v.c.est && !v.c.finSeen
    ensures s.fin && Wrap(s.seqno + |s.data|) == v.c.rcv <==> s.fin && v.c.received == v.peer.stream
  {
    SameNumber(v.peer.irs, Wrap(s.seqno + |s.data|), v.c.rcv, |v.c.received|);
    hide Wrap, World.UpOk, World.SenderInv;
  }

  /** The connection comes up exactly with the peer's SYN-ACK, and goes down with a reset. */
  lemma ConnectsExactly(w: World, s: Seg)
    requires w.Inv() && s in w.down && w.c.state == SYN_SENT
    ensures var d := w.Deliver(s).c;
            && (d.state == ESTABLISHED <==> !s.rst && s.syn && s.ack)
            && (d.state == DONE <==> s.rst)
            && (d.state == ESTABLISHED ==> d.rcv == Wrap(w.peer.irs + 1) && d.una == w.c.nxt)
  {
    assert w.Honest(s);
    hide World.UpOk;
  }

  /** An ACK moves what counts as acknowledged up to where it stands, exactly if that is further on,
      with less than 2^31 bytes on their way. */
  lemma AcksExactly(w: World, s: Seg)
    requires w.Inv() && s in w.down && !s.rst && w.c.est && w.c.state !in {SYN_SENT, CLOSED}
    requires |w.written| + Bit(w.c.finSent) - AckedTo(w) < HALF
    ensures AckedTo(w.Deliver(s)) ==
            if s.ack && w.UpOff(s.ackno) > AckedTo(w) then w.UpOff(s.ackno) else AckedTo(w)
  {
    hide Wrap, Signed32, World.UpOk, World.ReceiverInv, Client.AckNow, Client.TakeData, Client.TakeFin;
    assert w.Honest(s);
    if s.ack {
      AckTest(w.isn, w.c.una, w.c.nxt, s.ackno, |w.written| + Bit(w.c.finSent));
      NotIsn(w.isn, s.ackno, w.Acked());
    }
    DataPathLater(w, s);
  }

  lemma AckTest(isn: u32, una: u32, nxt: u32, ackno: u32, used: nat)
    requires used + 1 < M32 && nxt == Wrap(isn + 1 + used)
    requires Wrap(una - isn - 1) <= used && used - Wrap(una - isn - 1) < HALF && Wrap(ackno - isn - 1) <= used
    ensures Signed32(ackno - una) > 0 && Signed32(ackno - nxt) <= 0 <==> Wrap(ackno - isn - 1) > Wrap(una - isn - 1)
  {
    var a, b := Wrap(una - isn - 1), Wrap(ackno - isn - 1);
    OffBack(isn, una);
    OffBack(isn, ackno);
    hide Wrap;
    if b >= a {
      Apart(isn, a, b);
      Apart(isn, used, b);
    } else if Signed32(ackno - una) > 0 && Signed32(ackno - nxt) <= 0 {
      NotIsn(isn, una, used);
      LateAck(isn, una, nxt, ackno, used);
    }
  }

  /** The signed distance of two numbers less than 2^31 places apart. */
  lemma Apart(isn: u32, a: nat, b: nat)
    ensures -HALF < b - a < HALF ==> Signed32(Wrap(isn + 1 + b) - Wrap(isn + 1 + a)) == b - a
  {
    DivBounds(isn + 1 + a, M32);
    DivBounds(isn + 1 + b, M32);
    var k := (isn + 1 + a) / M32 - (isn + 1 + b) / M32;
    if -HALF < b - a < HALF {
      assert Wrap(isn + 1 + b) - Wrap(isn + 1 + a) == (b - a) + k * M32;
      Around(b - a, k);
    }
  }

  lemma Around(d: int, k: int)
    requires -HALF < d < HALF
    ensures Signed32(d + k * M32) == d
  {
    if d >= 0 {
      Turns(d, k);
    } else {
      Turns(d + M32, k - 1);
    }
  }

  lemma Turns(d: nat, k: int)
    requires d < M32
    ensures Wrap(d + k * M32) == d
  {
    assert (d + k * M32) / M32 == k;
  }

  /** Whatever data or FIN arrived: after the next flush an ACK of all that was taken has gone out, and
      nothing more is due. */
  lemma Answered(w: World, s: Seg)
    requires !s.rst && w.c.state !in {SYN_SENT, CLOSED} && (s.data != [] || s.fin)
    ensures var d := w.Deliver(s).Flush(); d.c.ackDue == 0 && d.c.rcv == w.Deliver(s).c.rcv && d.c.AckSeg() in d.up
  {
    hide Wrap, Signed32, Client.TakeAck;
  }

  /** At once, for a short segment, a FIN, data out of order, or a second segment since the last ACK. */
  lemma AnsweredAtOnce(w: World, s: Seg)
    requires !s.rst && w.c.state !in {SYN_SENT, CLOSED}
    requires s.fin || 0 < |s.data| < MSS || (s.data != [] && (w.c.ackDue > 0 || s.seqno != w.c.rcv))
    ensures var d := w.Deliver(s); d.c.ackDue == 0 && d.c.AckSeg() in d.up
  {
    hide Wrap, Signed32, Client.TakeAck;
  }

  // ---- a whole stream ----

  function Flat(pieces: seq<seq<Byte>>): seq<Byte> {
    if pieces == [] then [] else pieces[0] + Flat(pieces[1..])
  }

  /** The next piece of the stream, from the peer. */
  function Piece(w: World, d: seq<Byte>, fin: bool): Seg {
    Seg(Wrap(w.peer.irs + 1 + |w.c.received|), 0, false, fin, false, false, d)
  }

  function Arrive(w: World, s: Seg): World {
    w.PeerSends(s).Deliver(s)
  }

  function Feed(w: World, pieces: seq<seq<Byte>>): World
    decreases |pieces|
  {
    if pieces == [] then w else Feed(Arrive(w, Piece(w, pieces[0], false)), pieces[1..])
  }

  /** Data may flow. */
  ghost predicate Open(w: World) {
    w.Inv() && w.c.state == ESTABLISHED && !w.c.finSeen && w.c.hasFn && w.peer.est
  }

  lemma OpenFacts(w: World)
    requires Open(w)
    ensures w.Inv() && w.c.est && w.c.delivered == w.c.received && |w.c.received| < M32
  {
  }

  lemma PieceFields(w: World, d: seq<Byte>, fin: bool)
    ensures var s := Piece(w, d, fin); s.data == d && s.fin == fin && !s.rst && !s.syn && !s.ack
  {
  }

  lemma OnePiece(w: World, d: seq<Byte>, fin: bool)
    requires Open(w) && w.c.received + d <= w.peer.stream && (d == [] ==> fin)
    requires fin ==> w.c.received + d == w.peer.stream
    ensures var v := Arrive(w, Piece(w, d, fin));
            && v.Inv() && v.peer == w.peer && v.c.received == v.c.delivered == w.c.received + d
            && (if fin then v.c.state == DONE && v.c.finSeen else Open(v))
  {
    hide Wrap, World.Inv, World.Honest, World.DownOff, Client.Rx, Piece;
    var s := Piece(w, d, fin);
    OpenFacts(w);
    PieceFields(w, d, fin);
    PieceHonest(w, d, fin);
    PeerSendsInv(w, s);
    var u := w.PeerSends(s);
    DeliverInv(u, s);
    DeliverLater(u, s);
    PieceAt(w, u, d, fin);
    TakesExactly(u, s);
    FinExactly(u, s);
    assert w.c.received + [] == w.c.received;
  }

  lemma PieceAt(w: World, u: World, d: seq<Byte>, fin: bool)
    requires |w.c.received| < M32 && u.peer == w.peer
    ensures u.DownOff(Piece(w, d, fin).seqno) == |w.c.received|
  {
    OffInjective(w.peer.irs, Wrap(w.peer.irs + 1 + |w.c.received|), |w.c.received|);
  }

  lemma PieceHonest(w: World, d: seq<Byte>, fin: bool)
    requires w.Inv() && w.peer.est && w.c.received + d <= w.peer.stream
    requires fin ==> w.c.received + d == w.peer.stream
    ensures w.Honest(Piece(w, d, fin))
  {
    hide Wrap, World.ReceiverInv, World.SenderInv, World.UpOk;
    var n := |w.c.received|;
    OffInjective(w.peer.irs, Wrap(w.peer.irs + 1 + n), n);
    Advance(w.peer.irs, Wrap(w.peer.irs + 1 + n), n, |d|);
    OffInjective(w.peer.irs, Wrap(w.peer.irs + 1 + n + |d|), n + |d|);
    Slice(w.c.received, d, w.peer.stream);
  }

  lemma Slice(a: seq<Byte>, d: seq<Byte>, whole: seq<Byte>)
    requires a + d <= whole
    ensures d == whole[|a|..|a| + |d|]
  {
    assert d == (a + d)[|a|..];
  }

  lemma Front(a: seq<Byte>, d: seq<Byte>, rest: seq<Byte>, whole: seq<Byte>)
    requires a + (d + rest) <= whole
    ensures a + d <= whole && a + d + rest <= whole && a + d + rest == a + (d + rest)
  {
    assert a + d + rest == a + (d + rest);
    assert a + d == (a + d + rest)[..|a + d|];
  }

  /** Pieces of the stream handed over once and in order, however it is cut, are all taken and delivered. */
  lemma {:induction false} WholeStream(w: World, pieces: seq<seq<Byte>>)
    requires Open(w) && w.c.received + Flat(pieces) <= w.peer.stream && forall d :: d in pieces ==> d != []
    ensures var v := Feed(w, pieces);
            Open(v) && v.peer == w.peer && v.c.received == v.c.delivered == w.c.received + Flat(pieces)
    decreases |pieces|
  {
    hide Open, Arrive;
    if pieces != [] {
      assert pieces[0] in pieces && forall d :: d in pieces[1..] ==> d in pieces;
      Front(w.c.received, pieces[0], Flat(pieces[1..]), w.peer.stream);
      OnePiece(w, pieces[0], false);
      WholeStream(Arrive(w, Piece(w, pieces[0], false)), pieces[1..]);
    } else {
      assert w.c.received + Flat(pieces) == w.c.received;
      OpenFacts(w);
    }
  }

  /** And the FIN behind them ends the connection with the whole stream delivered. */
  lemma WholeConnection(w: World, pieces: seq<seq<Byte>>)
    requires Open(w) && w.c.received + Flat(pieces) == w.peer.stream && forall d :: d in pieces ==> d != []
    ensures var u := Feed(w, pieces);
            var v := Arrive(u, Piece(u, [], true));
            v.c.received == v.c.delivered == w.peer.stream && v.c.state == DONE && v.c.finSeen
  {
    WholeStream(w, pieces);
    var u := Feed(w, pieces);
    assert u.c.received + [] == u.c.received;
    OnePiece(u, [], true);
  }

  // ---- the peer's side of a chunk ----

  /** A chunk of ours that reaches a peer with all before it gives it everything written. */
  lemma ChunkTaken(w: World, d: seq<Byte>)
    requires w.Inv() && w.c.state == ESTABLISHED && w.peer.got == w.written && !w.peer.finGot
    requires d != [] && |w.written| + |d| + 2 < M32
    ensures var v := w.StartChunk(d);
            var s := v.DataSeg(w.c.nxt, d);
            var u := v.Send(s).PeerTakes(s, |d|);
            s in v.Send(s).up && u.Inv() && u.peer.got == u.written == w.written + d && u.peer.est
  {
    StartChunkInv(w, d);
    var v := w.StartChunk(d);
    var s := v.DataSeg(w.c.nxt, d);
    SendInv(v, s);
    PeerTakesInv(v.Send(s), s, |d|);
    NextOffset(w.isn, w.c.nxt, |w.written|);
    hide Wrap, World.Inv;
    assert s.data[0..|d|] == d;
  }

  lemma NextOffset(isn: u32, nxt: u32, n: nat)
    requires nxt == Wrap(isn + 1 + n)
    ensures Wrap(isn + 1 + n - nxt) == 0
  {
  }
}
