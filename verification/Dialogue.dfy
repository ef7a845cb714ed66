/** Two connections that hear each other: they open, exchange data and close in the order the protocol means. */
module Dialogue {
  import opened Bytes
  import opened Options
  import opened Ring
  import opened Tcp
  import opened Delivery
  import opened Replies
  import opened Exchange

  /** The segment sent last. */
  function LastSent(h: History): Packet
    requires h.conn.wire != []
  {
    Carried(h.conn.wire[|h.conn.wire| - 1])
  }

  /** Hearing what the other side said last. */
  function Hears(h: History, now: nat, other: History): History
    requires other.conn.wire != []
  {
    Step(h, now, Arrives(LastSent(other)))
  }

  lemma SaidLast(h: History, h': History, s: Sent)
    requires h.conn.wire <= h'.conn.wire && Added(h, h') == [s]
    ensures h'.conn.wire != [] && LastSent(h') == Carried(s)
  {
    assert h'.conn.wire[|h'.conn.wire| - 1] == Added(h, h')[0];
  }

  /** Both open, and each expects the other's next number. */
  predicate InTouch(x: History, y: History) {
    && x.conn.inUse && y.conn.inUse && x.conn.state == Established && y.conn.state == Established
    && y.conn.recvNext == x.conn.sendNext && x.conn.recvNext == y.conn.sendNext
  }

  /** The beginning of a connection: a SYN, a SYN-ACK, its acknowledgement, the greeting and its acknowledgement. */
  lemma Handshake(now: seq<nat>, toB: Peer, toA: Peer)
    requires |now| == 6
    ensures
      var a0 := History(Connected(now[0], toB), []);
      var b0 := History(Accepted(now[1], toA, LastSent(a0).num), []);
      var a1 := Hears(a0, now[2], b0);
      var b1 := Hears(b0, now[3], a1);
      var a2 := Hears(a1, now[4], b1);
      var b2 := Hears(b1, now[5], a2);
      && LastSent(a0).flags.syn && !LastSent(a0).flags.ack && InTouch(a2, b2)
      && a2.conn.kept == None && b2.conn.kept == None && a2.conn.queue == Hello() && b2.conn.queue == []
  {
    hide Hello, Step, Connected, Accepted;
    OpensWith(now[0], toB, 0);
    var a1, b1 := Greeted(now, toB, toA);
    var a2 := Hears(a1, now[4], b1);
    Listened(a1, now[4], LastSent(b1));
    assert [] + Hello() == Hello() && |Hello()| > 0;
    SaidLast(a1, a2, Added(a1, a2)[0]);
    Listened(b1, now[5], LastSent(a2));
    assert InTouch(a2, Hears(b1, now[5], a2));
  }

  /** The first half: both are open, and the greeting is on its way. */
  lemma Greeted(now: seq<nat>, toB: Peer, toA: Peer) returns (a1: History, b1: History)
    requires |now| == 6
    ensures
      var a0 := History(Connected(now[0], toB), []);
      a0.conn.wire != [] &&
      var b0 := History(Accepted(now[1], toA, LastSent(a0).num), []);
      b0.conn.wire != [] && a1 == Hears(a0, now[2], b0) && a1.conn.wire != [] && b1 == Hears(b0, now[3], a1)
    ensures a1.conn.inUse && a1.conn.state == Established && a1.conn.queue == [] && b1.conn.wire != []
    ensures b1.conn.inUse && b1.conn.state == Established && b1.conn.queue == []
    ensures LastSent(b1) == Packet(PSH_ACK, a1.conn.recvNext, a1.conn.sendNext, Hello())
    ensures b1.conn.sendNext == Wrap(a1.conn.recvNext + 23) && b1.conn.recvNext == a1.conn.sendNext
  {
    hide Hello, Step, Connected, Accepted;
    OpensWith(now[0], toB, 0);
    OpensWith(now[1], toA, FIRST_A);
    var a0 := History(Connected(now[0], toB), []);
    var b0 := History(Accepted(now[1], toA, FIRST_A), []);
    a1 := Hears(a0, now[2], b0);
    OpeningAnswered(a0, now[2], LastSent(b0));
    SaidLast(a0, a1, Added(a0, a1)[0]);
    b1 := Hears(b0, now[3], a1);
    OpeningAnswered(b0, now[3], LastSent(a1));
    SaidLast(b0, b1, Added(b0, b1)[0]);
  }

  /** A segment without SYN or FIN that is heard in touch: its bytes are taken and acknowledged, and an acknowledgement
      of everything sent clears the kept segment. */
  lemma Listened(h: History, now: nat, p: Packet)
    requires h.conn.inUse && h.conn.state == Established && p.num == h.conn.recvNext && !p.flags.fin && p.flags.ack
    requires (p.payload == [] || FitsRing(h.conn, p)) && p.ack == h.conn.sendNext
    ensures var h' := Step(h, now, Arrives(p));
      && h'.conn.inUse && h'.conn.state == Established && h'.conn.kept == None && h'.conn.sendNext == h.conn.sendNext
      && h'.conn.queue == h.conn.queue + p.payload && h'.conn.recvNext == Wrap(h.conn.recvNext + |p.payload|)
      && h.conn.wire <= h'.conn.wire
      && Added(h, h') == if p.payload == [] then [] else
           [Sent(now, false, ACK, h.conn.sendNext, h'.conn.recvNext, [])]
  {
    hide Taken, SendSegment;
    if p.payload != [] {
      TakenWhole(h.conn.queue, p.payload);
    }
    var c := h.conn.(queue := h.conn.queue + p.payload, recvNext := Wrap(h.conn.recvNext + |p.payload|));
    PlainAck(c, now);
    assert p.payload == [] ==> h.conn.queue + p.payload == h.conn.queue;
  }

  /** One side speaks, the other hears it, and the answer is heard: the bytes have arrived behind those before, nothing
      is left unacknowledged, and the two are in touch again. */
  lemma Talk(x: History, y: History, data: seq<byte>, now: seq<nat>)
    requires |now| == 3 && InTouch(x, y) && data != [] && |y.conn.queue| + |data| < RING
    ensures
      var x1 := Step(x, now[0], Sends(data));
      x1.conn.wire != [] &&
      var y1 := Hears(y, now[1], x1);
      y1.conn.wire != [] &&
      var x2 := Hears(x1, now[2], y1);
      InTouch(x2, y1) && Got(y1) == Got(y) + data && Got(x2) == Got(x) && x2.conn.kept == None && y1.conn.kept == None
  {
    hide Step;
    var x1 := Step(x, now[0], Sends(data));
    DataSent(x, now[0], data);
    SaidLast(x, x1, Added(x, x1)[0]);
    var y1 := Hears(y, now[1], x1);
    Listened(y, now[1], LastSent(x1));
    SaidLast(y, y1, Added(y, y1)[0]);
    GotGrows(y, now[1], Arrives(LastSent(x1)));
    Listened(x1, now[2], LastSent(y1));
    GotGrows(x1, now[2], Arrives(LastSent(y1)));
  }

  /** If the segment is lost, its repetition says the same, up to the 512 bytes that are kept. */
  lemma RepeatSaysTheSame(x: History, data: seq<byte>, now: nat, later: nat)
    requires x.conn.inUse && x.conn.state == Established && data != [] && later >= now + TCP_RETRANSMIT_TIMEOUT_TICKS
    ensures
      var x1 := Step(x, now, Sends(data)); var x2 := Step(x1, later, Polls);
      x1.conn.wire != [] && x2.conn.wire != [] && x2.conn.sendNext == x1.conn.sendNext &&
      LastSent(x2) == LastSent(x1).(payload := if |data| <= 512 then data else data[..512])
  {
    hide Step;
    var x1 := Step(x, now, Sends(data));
    DataSent(x, now, data);
    SaidLast(x, x1, Added(x, x1)[0]);
    PollSends(x1, later);
    SaidLast(x1, Step(x1, later, Polls), Added(x1, Step(x1, later, Polls))[0]);
  }

  /** One side closes: the other has heard everything and knows, and the closing side's slot is free again. */
  lemma Farewell(x: History, y: History, now: seq<nat>)
    requires |now| == 3 && InTouch(x, y)
    ensures
      var x1 := Step(x, now[0], Closes);
      x1.conn.wire != [] &&
      var y1 := Hears(y, now[1], x1);
      y1.conn.wire != [] &&
      var x2 := Hears(x1, now[2], y1);
      && y1.conn.state == CloseWait && y1.conn.inUse && y1.conn.recvNext == x1.conn.sendNext && Got(y1) == Got(y)
      && x2.conn.state == Closed && !x2.conn.inUse
  {
    hide Step;
    var x1 := Step(x, now[0], Closes);
    FinSent(x, now[0]);
    SaidLast(x, x1, Added(x, x1)[0]);
    var p := LastSent(x1);
    var y1 := Hears(y, now[1], x1);
    OtherAnswered(y, now[1], p);
    SaidLast(y, y1, Added(y, y1)[0]);
    GotGrows(y, now[1], Arrives(p));
    FinMoves(y, now[1], p);
    LastAckCloses(x1, now[2], LastSent(y1));
  }

  lemma FinMoves(h: History, now: nat, p: Packet)
    requires h.conn.inUse && h.conn.state == Established && p.flags.fin && p.payload == []
    ensures var h' := Step(h, now, Arrives(p)); h'.conn.inUse && h'.conn.recvNext == Wrap(h.conn.recvNext + 1)
  {
  }
}
