/** What a connection puts on the wire: the answer to each event, and that every byte taken is acknowledged. */
module Replies {
  import opened Bytes
  import opened Options
  import opened Ring
  import opened Tcp
  import opened Delivery

  /** The segments sent between two moments of a connection. */
  function Added(h: History, h': History): seq<Sent>
    requires |h.conn.wire| <= |h'.conn.wire|
  {
    h'.conn.wire[|h.conn.wire|..]
  }

  /** Nothing is ever taken off the wire. */
  lemma WireGrows(h: History, now: nat, e: Event)
    ensures h.conn.wire <= Step(h, now, e).conn.wire
  {
    hide Taken, Hello;
  }

  /** A plain acknowledgement of everything before `ack`. */
  predicate Acks(s: Sent, h: History, now: nat, ack: int) {
    s == Sent(now, false, Flags(false, false, false, true), h.conn.sendNext, Wrap(ack), [])
  }

  /** The next segment is acknowledged at once, all its bytes counted; a FIN on it is acknowledged behind them. */
  lemma DataAnswered(h: History, now: nat, p: Packet, irs: u32)
    requires InStep(h, irs) && Expected(h.conn, p)
    ensures var h' := Step(h, now, Arrives(p)); var n := irs + 1 + |Got(h)| + |p.payload|;
      && h.conn.wire <= h'.conn.wire && h'.conn.sendNext == h.conn.sendNext
      && |Added(h, h')| == (if p.flags.fin then 2 else 1) && Acks(Added(h, h')[0], h, now, n)
      && (p.flags.fin ==> Acks(Added(h, h')[1], h, now, n + 1))
      && h'.conn.state == if p.flags.fin then CloseWait else Established
    ensures FitsRing(h.conn, p) ==> Got(Step(h, now, Arrives(p))) == Got(h) + p.payload
  {
    hide Taken, Got, Step, Wrap;
    GotGrows(h, now, Arrives(p));
    if FitsRing(h.conn, p) {
      TakenWhole(h.conn.queue, p.payload);
    }
    ExpectedAnswered(h, now, p);
    WrapAdds(irs + 1, |Got(h)|, |p.payload|);
    WrapAdds(irs + 1, |Got(h)|, |p.payload| + 1);
  }

  lemma ExpectedAnswered(h: History, now: nat, p: Packet)
    requires Expected(h.conn, p)
    ensures var h' := Step(h, now, Arrives(p)); var ack := h.conn.recvNext + |p.payload|;
      && h.conn.wire <= h'.conn.wire && h'.conn.sendNext == h.conn.sendNext
      && |Added(h, h')| == (if p.flags.fin then 2 else 1) && Acks(Added(h, h')[0], h, now, ack)
      && (p.flags.fin ==> Acks(Added(h, h')[1], h, now, ack + 1))
      && h'.conn.state == if p.flags.fin then CloseWait else Established
  {
    hide Taken, SendSegment;
    var c := h.conn.(queue := h.conn.queue + Taken(h.conn.queue, p.payload),
      recvNext := Wrap(h.conn.recvNext + |p.payload|));
    PlainAck(c, now);
    PlainAck(TakePayload(h.conn, now, p).(recvNext := Wrap(c.recvNext + 1), state := CloseWait), now);
  }

  /** An acknowledgement takes up no number and replaces no kept segment. */
  lemma PlainAck(c: Conn, now: nat)
    ensures SendSegment(c, now, ACK, []) == c.(wire := c.wire + [Sent(now, false, ACK, c.sendNext, c.recvNext, [])])
  {
  }

  lemma TakenWhole(queue: seq<byte>, payload: seq<byte>)
    requires |queue| + |payload| < RING
    ensures Taken(queue, payload) == payload
  {
  }

  /** A FIN out of order is acknowledged too, one number ahead of what was expected; any other segment out of order is
      not answered. */
  lemma OtherAnswered(h: History, now: nat, p: Packet)
    requires h.conn.inUse && h.conn.state == Established && !Expected(h.conn, p)
    ensures var h' := Step(h, now, Arrives(p));
      && h.conn.wire <= h'.conn.wire && h'.conn.sendNext == h.conn.sendNext
      && (p.flags.fin ==> |Added(h, h')| == 1 && Acks(Added(h, h')[0], h, now, h.conn.recvNext + 1))
      && (!p.flags.fin ==> Added(h, h') == [])
      && h'.conn.state == if p.flags.fin then CloseWait else Established
  {
    hide Taken;
  }

  /** Outside an open connection: a SYN-ACK that was waited for is acknowledged behind its own number, the first
      acknowledgement of an accepted connection is greeted, and nothing else is answered. */
  lemma OpeningAnswered(h: History, now: nat, p: Packet)
    requires !(h.conn.inUse && h.conn.state == Established)
    ensures var h' := Step(h, now, Arrives(p));
      && h.conn.wire <= h'.conn.wire && h'.read == h.read && h'.conn.queue == h.conn.queue
      && (if h.conn.inUse && h.conn.state == SynSent && p.flags.syn && p.flags.ack then
            |Added(h, h')| == 1 && Acks(Added(h, h')[0], h, now, p.num + 1) && h'.conn.state == Established &&
            h'.conn.recvNext == Wrap(p.num + 1) && h'.conn.sendNext == h.conn.sendNext && h'.conn.kept == None &&
            h'.conn.inUse
          else if h.conn.inUse && h.conn.state == SynReceived && p.flags.ack then
            Added(h, h') ==
              [Sent(now, false, Flags(false, false, true, true), h.conn.sendNext, h.conn.recvNext, Hello())] &&
            h'.conn.state == Established && h'.conn.sendNext == Wrap(h.conn.sendNext + 23) &&
            h'.conn.recvNext == h.conn.recvNext && h'.conn.inUse
          else
            Added(h, h') == [] && (h'.conn == h.conn || (h.conn.state == LastAck && p.flags.ack && !h'.conn.inUse)))
  {
    hide Hello;
  }

  /** What does not fit is cut off behind what does: a payload too long for the ring fills it to the last byte. */
  lemma RingFills(h: History, now: nat, p: Packet)
    requires Expected(h.conn, p) && |h.conn.queue| < RING
    ensures var c' := Step(h, now, Arrives(p)).conn; var room := RING - 1 - |h.conn.queue|;
      c'.queue == h.conn.queue + p.payload[..if |p.payload| <= room then |p.payload| else room] &&
      (|p.payload| >= room <==> |c'.queue| == RING - 1)
  {
    hide Step;
    assert p.payload[..|p.payload|] == p.payload;
    QueueGrows(h, now, p);
  }

  lemma QueueGrows(h: History, now: nat, p: Packet)
    requires Expected(h.conn, p)
    ensures Step(h, now, Arrives(p)).conn.queue == h.conn.queue + Taken(h.conn.queue, p.payload)
  {
    hide Taken;
  }

  /** An open connection remembers the highest acknowledgement it has seen. */
  lemma HighestAck(h: History, now: nat, p: Packet)
    requires h.conn.inUse && h.conn.state == Established
    ensures var u, u' := h.conn.sendUnacked, Step(h, now, Arrives(p)).conn.sendUnacked;
      u' in {u, p.ack} && u <= u' && (p.flags.ack ==> p.ack <= u') && (!p.flags.ack ==> u' == u)
  {
    hide Taken;
  }

  /** The text of the greeting, with the NUL behind it. */
  lemma GreetingText()
    ensures forall i | 0 <= i < 22 :: Hello()[i] == "Hello from Nugget OS!\n"[i] as int
    ensures |Hello()| == 23 && Hello()[22] == 0
  {
  }

  /** A slot that waits for its last acknowledgement is given back when one comes. */
  lemma LastAckCloses(h: History, now: nat, p: Packet)
    requires h.conn.inUse && h.conn.state == LastAck
    ensures var h' := Step(h, now, Arrives(p)); h'.conn.inUse == !p.flags.ack && h'.conn.wire == h.conn.wire
    ensures p.flags.ack ==> Step(h, now, Arrives(p)).conn.state == Closed
  {
  }

  /** A connection opens with a SYN, or with a SYN-ACK behind the peer's number, kept until it is acknowledged. */
  lemma OpensWith(now: nat, peer: Peer, num: u32)
    ensures var c := Accepted(now, peer, num);
      var s := Sent(now, false, Flags(true, false, false, true), 0x1000, Wrap(num + 1), []);
      && c.inUse && c.state == SynReceived && c.peer == peer && c.queue == [] && c.recvNext == Wrap(num + 1)
      && c.wire == [s] && c.sendNext == 0x1001 && c.kept == Some(Kept(s.flags, s.num, [], now, 0))
    ensures var c := Connected(now, peer); var s := Sent(now, false, Flags(true, false, false, false), 0x4000, 0, []);
      && c.inUse && c.state == SynSent && c.peer == peer && c.queue == []
      && c.wire == [s] && c.sendNext == 0x4001 && c.kept == Some(Kept(s.flags, s.num, [], now, 0))
  {
  }

  /** Data goes out pushed, numbered and acknowledging, from an open connection only; its first 512 bytes are kept. */
  lemma DataSent(h: History, now: nat, data: seq<byte>)
    ensures var h' := Step(h, now, Sends(data)); var c, c' := h.conn, h'.conn;
      if c.state != Established then h' == h
      else
        && c.wire <= c'.wire
        && Added(h, h') == [Sent(now, false, Flags(false, false, true, true), c.sendNext, c.recvNext, data)]
        && h' == History(c'.(queue := c.queue, state := c.state, peer := c.peer, recvNext := c.recvNext), h.read)
        && c'.sendNext == Wrap(c.sendNext + |data|) && c'.inUse == c.inUse
        && c'.kept == if data == [] then c.kept else
             Some(Kept(Flags(false, false, true, true), c.sendNext, if |data| <= 512 then data else data[..512], now,
               0))
  {
    assert |data| == 512 ==> data[..512] == data;
  }

  /** A close sends a FIN that takes up one number. */
  lemma FinSent(h: History, now: nat)
    ensures var h' := Step(h, now, Closes); var c, c' := h.conn, h'.conn;
      && c.wire <= c'.wire
      && Added(h, h') == [Sent(now, false, Flags(false, true, false, true), c.sendNext, c.recvNext, [])]
      && h' == History(c'.(queue := c.queue, state := LastAck, peer := c.peer, recvNext := c.recvNext), h.read)
      && c'.sendNext == Wrap(c.sendNext + 1) && c'.inUse == c.inUse
      && c'.kept == Some(Kept(Flags(false, true, false, true), c.sendNext, [], now, 0))
  {
  }

  /** A poll sends the kept segment once more after 300 ticks, up to five times. */
  lemma PollSends(h: History, now: nat)
    ensures var h' := Step(h, now, Polls); var c, c' := h.conn, h'.conn;
      var timeout := c.inUse && c.kept.Some? && now >= c.kept.value.time + 300;
      && c.wire <= c'.wire && h'.read == h.read && c'.queue == c.queue && c'.sendNext == c.sendNext
      && (if timeout && c.kept.value.count < 5 then
            Added(h, h') == [Sent(now, true, c.kept.value.flags, c.kept.value.num, c.recvNext, c.kept.value.data)] &&
            c'.kept == Some(c.kept.value.(time := now, count := c.kept.value.count + 1)) && c'.state == c.state
          else Added(h, h') == [] && if timeout then !c'.inUse && c'.state == Closed else h' == h)
  {
  }

  /** A read takes the oldest bytes that are waiting, as many as are asked for or there are. */
  lemma ReadTakes(h: History, now: nat, max: nat)
    ensures var h' := Step(h, now, Reads(max));
      && h'.conn == h.conn.(queue := h'.conn.queue) && Got(h') == Got(h) && h.read <= h'.read
      && |h'.read| <= |h.read| + max && (h'.conn.queue == [] || |h'.read| == |h.read| + max)
  {
    GotGrows(h, now, Reads(max));
  }

  // ---- every byte is acknowledged ----

  /** Some segment sent acknowledges exactly the bytes received so far. */
  predicate Answered(h: History, irs: u32) {
    h.conn.state == Established && Got(h) != [] ==>
      exists k | 0 <= k < |h.conn.wire| :: h.conn.wire[k].flags.ack && h.conn.wire[k].ack == Wrap(irs + 1 + |Got(h)|)
  }

  lemma StepAnswers(h: History, now: nat, e: Event, stream: seq<byte>, irs: u32)
    requires |stream| < 0x1_0000_0000 && Delivers(h, stream, irs) && Fair(h, e, stream, irs) && Answered(h, irs)
    ensures Answered(Step(h, now, e), irs)
  {
    hide Fair, Taken, Hello, Delivers;
    var h' := Step(h, now, e);
    WireGrows(h, now, e);
    GotGrows(h, now, e);
    if h'.conn.state == Established && Got(h') != [] {
      if e.Arrives? && Expected(h.conn, e.packet) {
        AnsweredNow(h, now, e, stream, irs);
      } else {
        StaysOpen(h, now, e, stream, irs);
        var k :| 0 <= k < |h.conn.wire| && h.conn.wire[k].flags.ack && h.conn.wire[k].ack == Wrap(irs + 1 + |Got(h)|);
        assert h'.conn.wire[k] == h.conn.wire[k];
      }
    }
  }

  lemma AnsweredNow(h: History, now: nat, e: Event, stream: seq<byte>, irs: u32)
    requires Delivers(h, stream, irs) && Fair(h, e, stream, irs) && e.Arrives? && Expected(h.conn, e.packet)
    ensures Answered(Step(h, now, e), irs)
  {
    hide Step, Got;
    DataAnswered(h, now, e.packet, irs);
    var h' := Step(h, now, e);
    assert h'.conn.wire[|h.conn.wire|] == Added(h, h')[0];
  }

  lemma StaysOpen(h: History, now: nat, e: Event, stream: seq<byte>, irs: u32)
    requires Delivers(h, stream, irs) && Got(Step(h, now, e)) == Got(h) != []
    requires Step(h, now, e).conn.state == Established
    ensures h.conn.state == Established
  {
    hide Got, Taken, Hello;
  }

  /** Over every run, what an open connection has received is acknowledged to the last byte. */
  lemma {:induction false} RunAnswers(h: History, t: Trace, stream: seq<byte>, irs: u32)
    requires |stream| < 0x1_0000_0000 && Delivers(h, stream, irs) && FairRun(h, t, stream, irs) && Answered(h, irs)
    ensures Answered(Run(h, t), irs)
    decreases |t|
  {
    if t != [] {
      hide Step, Answered, Delivers, Fair;
      StepDelivers(h, t[0].0, t[0].1, stream, irs);
      StepAnswers(h, t[0].0, t[0].1, stream, irs);
      RunAnswers(Step(h, t[0].0, t[0].1), t[1..], stream, irs);
    }
  }

  lemma OpeningIsAnswered(now: nat, peer: Peer, irs: u32)
    ensures Answered(History(Accepted(now, peer, irs), []), irs) && Answered(History(Connected(now, peer), []), irs)
  {
  }
}
