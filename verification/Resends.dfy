/** The one segment a connection keeps: what is sent again, when, how often, and what clears it. */
module Resends {
  import opened Bytes
  import opened Options
  import opened Tcp
  import opened Delivery

  // ---- the attempts at one segment ----

  /** The last segment on the wire that asked for an acknowledgement, and its repetitions. */
  function Attempts(wire: seq<Sent>): seq<Sent> {
    if wire == [] then []
    else
      var s, before := wire[|wire| - 1], wire[..|wire| - 1];
      if s.again then Attempts(before) + [s]
      else if NeedsAck(s.flags, |s.data|) then [s]
      else Attempts(before)
  }

  predicate SameSegment(s: Sent, t: Sent) {
    s.flags == t.flags && s.num == t.num && s.data == t.data
  }

  /** One original, then at most five copies of it, each at least 300 ticks after the one before. */
  predicate Spaced(a: seq<Sent>) {
    |a| <= 1 + TCP_MAX_RETRANSMITS &&
    (forall i | 0 <= i < |a| :: SameSegment(a[i], a[0]) && (a[i].again <==> i > 0)) &&
    forall i | 0 < i < |a| :: a[i].time >= a[i - 1].time + TCP_RETRANSMIT_TIMEOUT_TICKS
  }

  /** The kept segment is the one last attempted, and `sendNext` lies just behind it. */
  predicate Keeps(c: Conn, a: seq<Sent>) {
    c.kept.Some? ==>
      var k := c.kept.value;
      |a| == k.count + 1 && a[0].flags == k.flags && a[0].num == k.num && a[0].data == k.data &&
        a[|a| - 1].time == k.time &&
      NeedsAck(k.flags, |k.data|) && c.sendNext == Wrap(k.num + Consumes(k.flags, |k.data|))
  }

  predicate Tracks(c: Conn) {
    Spaced(Attempts(c.wire)) && Keeps(c, Attempts(c.wire))
  }

  lemma AttemptsStep(wire: seq<Sent>, s: Sent)
    ensures Attempts(wire + [s]) ==
              if s.again then Attempts(wire) + [s] else if NeedsAck(s.flags, |s.data|) then [s] else Attempts(wire)
  {
    assert (wire + [s])[..|wire|] == wire;
  }

  lemma SendTracks(c: Conn, now: nat, flags: Flags, data: seq<byte>)
    requires Tracks(c) && |data| <= KEPT
    ensures Tracks(SendSegment(c, now, flags, data))
  {
    hide Attempts;
    AttemptsStep(c.wire, Sent(now, false, flags, c.sendNext, c.recvNext, data));
    assert |data| == KEPT ==> data[..KEPT] == data;
  }

  /** Forgetting the segment, or changing anything but the wire and the numbers sent, does no harm. */
  lemma OtherFields(c: Conn, d: Conn)
    requires Tracks(c) && d.wire == c.wire && d.sendNext == c.sendNext && (d.kept == c.kept || d.kept == None)
    ensures Tracks(d)
  {
  }

  lemma PollTracks(c: Conn, now: nat)
    requires Tracks(c)
    ensures Tracks(Poll(c, now))
  {
    hide Attempts;
    if c.kept.Some? {
      var k := c.kept.value;
      AttemptsStep(c.wire, Sent(now, true, k.flags, k.num, c.recvNext, k.data));
    }
  }

  lemma PayloadTracks(c: Conn, now: nat, p: Packet)
    requires Tracks(c)
    ensures Tracks(TakePayload(c, now, p)) && Tracks(TakeFin(c, now, p)) && Tracks(TakeAck(c, p))
  {
    hide Tracks, SendSegment;
    var d := c.(queue := c.queue + Taken(c.queue, p.payload), recvNext := Wrap(c.recvNext + |p.payload|));
    OtherFields(c, d);
    SendTracks(d, now, ACK, []);
    var e := c.(recvNext := Wrap(c.recvNext + 1), state := CloseWait);
    OtherFields(c, e);
    SendTracks(e, now, ACK, []);
    OtherFields(c, TakeAck(c, p));
  }

  lemma ReceiveTracks(c: Conn, now: nat, p: Packet)
    requires Tracks(c)
    ensures Tracks(Receive(c, now, p))
  {
    hide Tracks, SendSegment, TakePayload, TakeFin, TakeAck, Hello;
    var d := c.(recvNext := Wrap(p.num + 1), sendUnacked := p.ack, kept := None, state := Established);
    OtherFields(c, d);
    SendTracks(d, now, ACK, []);
    var e := c.(state := Established);
    OtherFields(c, e);
    SendTracks(e, now, PSH_ACK, Hello());
    OtherFields(c, c.(state := Closed, inUse := false));
    PayloadTracks(c, now, p);
    PayloadTracks(TakePayload(c, now, p), now, p);
    PayloadTracks(TakeFin(TakePayload(c, now, p), now, p), now, p);
  }

  /** The application sends at most the 512 bytes that can be kept. */
  predicate Short(e: Event) {
    e.Sends? ==> |e.data| <= KEPT
  }

  lemma StepTracks(h: History, now: nat, e: Event)
    requires Tracks(h.conn) && Short(e)
    ensures Tracks(Step(h, now, e).conn)
  {
    hide Tracks, SendSegment, Poll, Receive;
    match e
    case Arrives(p) => ReceiveTracks(h.conn, now, p);
    case Sends(data) => SendTracks(h.conn, now, PSH_ACK, if |data| <= KEPT then data else []);
    case Reads(max) => OtherFields(h.conn, Recv(h.conn, max));
    case Closes =>
      SendTracks(h.conn, now, FIN_ACK, []);
      OtherFields(SendSegment(h.conn, now, FIN_ACK, []), Close(h.conn, now));
    case Polls => PollTracks(h.conn, now);
  }

  /**
   * Over any interleaving of sending, receiving and polling: whatever is repeated is the
   * kept segment, unchanged, at least 300 ticks after the last attempt and at most five times.
   */
  lemma {:induction false} RunTracks(h: History, t: Trace)
    requires Tracks(h.conn) && forall i | 0 <= i < |t| :: Short(t[i].1)
    ensures Tracks(Run(h, t).conn)
    decreases |t|
  {
    hide Tracks, Step;
    if t != [] {
      StepTracks(h, t[0].0, t[0].1);
      RunTracks(Step(h, t[0].0, t[0].1), t[1..]);
    }
  }

  lemma OpeningTracks(now: nat, peer: Peer, num: u32)
    ensures Tracks(Accepted(now, peer, num)) && Tracks(Connected(now, peer)) && Tracks(ZEROED)
  {
    hide SendSegment, Tracks;
    NothingSent(Opened(SynReceived, peer, 0x1000, Wrap(num + 1)));
    NothingSent(Opened(SynSent, peer, 0x4000, 0));
    NothingSent(ZEROED);
    SendTracks(Opened(SynReceived, peer, 0x1000, Wrap(num + 1)), now, SYN_ACK, []);
    SendTracks(Opened(SynSent, peer, 0x4000, 0), now, SYN, []);
  }

  lemma NothingSent(c: Conn)
    requires c.wire == [] && c.kept == None
    ensures Tracks(c)
  {
  }

  /** Of a longer segment only 512 bytes are kept, and exactly then `sendNext` runs ahead of what can be repeated. */
  lemma LongSendExactly(c: Conn, now: nat, data: seq<byte>)
    requires c.state == Established && Tracks(c) && |data| <= SEGMENT_DATA
    ensures Tracks(Send(c, now, data)) <==> |data| <= KEPT
  {
    if |data| <= KEPT {
      SendTracks(c, now, PSH_ACK, data);
    } else {
      var d := Send(c, now, data);
      assert d.kept.value.data == data[..KEPT] && d.sendNext == Wrap(c.sendNext + |data|);
      WrapUnique(c.sendNext, |data|, KEPT);
    }
  }

  // ---- what clears it ----

  /** The acknowledgement `ack` is at least `n` numbers behind `num`. */
  predicate Covers(ack: u32, num: u32, n: nat) {
    Wrap(ack - num) >= n
  }

  /** A packet either leaves the kept segment as it is or, if its numbers do not wrap, acknowledges all of it. */
  lemma ClearedByCover(c: Conn, now: nat, p: Packet)
    requires Tracks(c) && c.inUse && c.state == Established && c.kept.Some?
    ensures Receive(c, now, p).kept == None || Receive(c, now, p).kept == c.kept
    ensures Receive(c, now, p).kept == None && !Wraps(c.kept.value) ==> Acknowledges(p, c.kept.value)
  {
    hide Attempts, Spaced, Taken, Hello;
    PureAcks(c, now, p);
  }

  lemma PureAcks(c: Conn, now: nat, p: Packet)
    requires c.inUse && c.state == Established
    ensures var d := TakeFin(TakePayload(c, now, p), now, p); d.kept == c.kept && d.sendNext == c.sendNext
  {
    hide Taken;
  }

  /**
   * In an open connection every packet that clears the kept segment acknowledges all of it if
   * and only if the segment's numbers do not wrap; when they do, the segment's own first number
   * is an acknowledgement that clears it.
   */
  lemma ClearsExactly(c: Conn, now: nat)
    requires Tracks(c) && c.inUse && c.state == Established && c.kept.Some? && |c.kept.value.data| <= KEPT
    ensures (forall p | Receive(c, now, p).kept == None :: Acknowledges(p, c.kept.value)) <==> !Wraps(c.kept.value)
    ensures Wraps(c.kept.value) ==>
      var p := Packet(ACK, 0, c.kept.value.num, []); Receive(c, now, p).kept == None && !Acknowledges(p, c.kept.value)
  {
    hide Attempts, Spaced, Receive;
    var k := c.kept.value;
    if Wraps(k) {
      FirstNumberClears(c, now);
    } else {
      forall p | Receive(c, now, p).kept == None
        ensures Acknowledges(p, k)
      {
        ClearedByCover(c, now, p);
      }
    }
  }

  predicate Acknowledges(p: Packet, k: Kept) {
    p.flags.ack && Covers(p.ack, k.num, Consumes(k.flags, |k.data|))
  }

  predicate Wraps(k: Kept) {
    k.num + Consumes(k.flags, |k.data|) >= 0x1_0000_0000
  }

  lemma FirstNumberClears(c: Conn, now: nat)
    requires Tracks(c) && c.inUse && c.state == Established && c.kept.Some? && |c.kept.value.data| <= KEPT &&
      Wraps(c.kept.value)
    ensures var p := Packet(ACK, 0, c.kept.value.num, []);
      Receive(c, now, p).kept == None && !Acknowledges(p, c.kept.value)
  {
    hide Attempts, Spaced, Taken;
  }

  // ---- giving up ----

  /** Polls at the given times and nothing else. */
  function PollAll(c: Conn, times: seq<nat>): Conn
    decreases |times|
  {
    if times == [] then c else PollAll(Poll(c, times[0]), times[1..])
  }

  predicate Apart(last: nat, times: seq<nat>) {
    (times != [] ==> times[0] >= last + TCP_RETRANSMIT_TIMEOUT_TICKS) &&
    forall i | 0 < i < |times| :: times[i] >= times[i - 1] + TCP_RETRANSMIT_TIMEOUT_TICKS
  }

  /** Unanswered, a segment is repeated at each timeout until sent six times; the next timeout closes the slot. */
  lemma {:induction false} GivesUp(c: Conn, times: seq<nat>)
    requires c.inUse && c.kept.Some? && c.kept.value.count <= TCP_MAX_RETRANSMITS
    requires |times| == TCP_MAX_RETRANSMITS + 1 - c.kept.value.count && Apart(c.kept.value.time, times)
    ensures var d := PollAll(c, times);
      d.state == Closed && !d.inUse && |d.wire| == |c.wire| + |times| - 1 && d.sendNext == c.sendNext
    decreases |times|
  {
    if |times| > 1 {
      LaterApart(c.kept.value.time, times);
      GivesUp(Poll(c, times[0]), times[1..]);
    } else {
      assert PollAll(c, times) == Poll(c, times[0]);
    }
  }

  lemma LaterApart(last: nat, times: seq<nat>)
    requires Apart(last, times) && |times| > 0
    ensures Apart(times[0], times[1..])
  {
    var rest := times[1..];
    forall i | 0 < i < |rest| ensures rest[i] >= rest[i - 1] + TCP_RETRANSMIT_TIMEOUT_TICKS {
      assert rest[i] == times[i + 1] && rest[i - 1] == times[i + 1 - 1];
    }
  }
}
