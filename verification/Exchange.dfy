/** Two connections and a network that loses, repeats and reorders: what is acknowledged has arrived. */
module Exchange {
  import opened Bytes
  import opened Options
  import opened Tcp
  import opened Delivery
  import opened Replies

  // ---- what one side says to the other ----

  /** The bytes a connection has sent, repetitions left out. */
  function Stream(wire: seq<Sent>): seq<byte> {
    if wire == [] then []
    else
      var s := wire[|wire| - 1];
      Stream(wire[..|wire| - 1]) + if s.again then [] else s.data
  }

  /** A segment as it arrives at the other end. */
  function Carried(s: Sent): Packet {
    Packet(s.flags, s.num, s.ack, s.data)
  }

  lemma StreamStep(wire: seq<Sent>, s: Sent)
    ensures Stream(wire + [s]) == Stream(wire) + if s.again then [] else s.data
  {
    assert (wire + [s])[..|wire|] == wire;
  }

  /** A side that has not sent its FIN. */
  predicate Opening(s: State) {
    s == SynSent || s == SynReceived
  }

  predicate Speaks(s: State) {
    Opening(s) || s == Established || s == CloseWait
  }

  /** The segment carries a slice of the stream, and the first number if it is a SYN; a FIN is not sent while the side
      still speaks. */
  ghost predicate Faithful(c: Conn, flags: Flags, num: u32, data: seq<byte>, iss: u32) {
    FromPeer(Stream(c.wire), iss, Packet(flags, num, 0, data)) && (Speaks(c.state) ==> !flags.fin)
  }

  /** Whatever a side has sent or keeps is part of its stream, and numbered accordingly. */
  ghost predicate Numbers(c: Conn, iss: u32) {
    && (forall k | 0 <= k < |c.wire| :: Faithful(c, c.wire[k].flags, c.wire[k].num, c.wire[k].data, iss))
    && (c.kept.Some? ==> Faithful(c, c.kept.value.flags, c.kept.value.num, c.kept.value.data, iss))
    && (Speaks(c.state) ==> c.sendNext == Wrap(iss + 1 + |Stream(c.wire)|))
    && (Opening(c.state) ==> Stream(c.wire) == [])
  }

  /** No segment of `h` acknowledges more than it has received. */
  ghost predicate Honest(h: History, iss: u32) {
    && h.conn.recvNext <= iss + 1 + |Got(h)|
    && forall k | 0 <= k < |h.conn.wire| && h.conn.wire[k].flags.ack :: h.conn.wire[k].ack <= iss + 1 + |Got(h)|
  }

  /** The bytes numbered from `iss` on stay below 2^32. */
  predicate Numbered(c: Conn, iss: u32) {
    iss + 2 + |Stream(c.wire)| < 0x1_0000_0000
  }

  /** One direction: `y` has received the beginning of what `x` has sent, and says no more than that; and once nothing
      of `x` is unacknowledged, it has received all of it. */
  ghost predicate Follows(x: History, y: History, iss: u32) {
    && Numbers(x.conn, iss) && Delivers(y, Stream(x.conn.wire), iss)
    && (Speaks(x.conn.state) ==> Honest(y, iss))
    && (x.conn.state == Established && x.conn.kept == None ==> Got(y) == Stream(x.conn.wire))
  }

  // ---- one side acts ----

  /** A longer stream still has every slice of a shorter one. */
  lemma SlicesStay(s: seq<byte>, more: seq<byte>, iss: u32, p: Packet)
    requires FromPeer(s, iss, p)
    ensures FromPeer(s + more, iss, p)
  {
    if p.payload != [] {
      var off: nat :| Slice(s, iss, p, off);
      assert (s + more)[off..off + |p.payload|] == s[off..off + |p.payload|];
      assert Slice(s + more, iss, p, off);
    }
  }

  /** New data, and its beginning, are slices of the longer stream. */
  lemma NewSlice(s: seq<byte>, data: seq<byte>, n: nat, flags: Flags, num: u32, iss: u32)
    requires num == Wrap(iss + 1 + |s|) && n <= |data| && !flags.syn
    ensures FromPeer(s + data, iss, Packet(flags, num, 0, data[..n]))
  {
    assert (s + data)[|s|..|s| + n] == data[..n];
    assert Slice(s + data, iss, Packet(flags, num, 0, data[..n]), |s|);
  }

  lemma SendNumbers(c: Conn, now: nat, flags: Flags, data: seq<byte>, iss: u32)
    requires Numbers(c, iss) && !flags.syn && (flags.fin ==> !Speaks(c.state) && data == []) &&
      (data != [] ==> c.state == Established)
    ensures Numbers(SendSegment(c, now, flags, data), iss)
    ensures Stream(SendSegment(c, now, flags, data).wire) == Stream(c.wire) + data
  {
    hide Stream, FromPeer;
    var d, s := SendSegment(c, now, flags, data), Stream(c.wire);
    StreamStep(c.wire, Sent(now, false, flags, c.sendNext, c.recvNext, data));
    NewSegment(c, flags, data, iss);
    forall k | 0 <= k < |c.wire|
      ensures Faithful(d, d.wire[k].flags, d.wire[k].num, d.wire[k].data, iss)
    {
      SlicesStay(s, data, iss, Packet(c.wire[k].flags, c.wire[k].num, 0, c.wire[k].data));
    }
    if c.kept.Some? {
      SlicesStay(s, data, iss, Packet(c.kept.value.flags, c.kept.value.num, 0, c.kept.value.data));
    }
    WrapAdds(iss + 1, |s|, |data|);
    assert data == [] ==> s + data == s;
  }

  lemma NewSegment(c: Conn, flags: Flags, data: seq<byte>, iss: u32)
    requires Numbers(c, iss) && !flags.syn && (data != [] ==> c.state == Established)
    ensures FromPeer(Stream(c.wire) + data, iss, Packet(flags, c.sendNext, 0, data))
    ensures FromPeer(Stream(c.wire) + data, iss,
      Packet(flags, c.sendNext, 0, if |data| < KEPT then data else data[..KEPT]))
  {
    hide Stream;
    if data != [] {
      hide FromPeer;
      assert data[..|data|] == data;
      NewSlice(Stream(c.wire), data, |data|, flags, c.sendNext, iss);
      if |data| >= KEPT {
        NewSlice(Stream(c.wire), data, KEPT, flags, c.sendNext, iss);
      }
    }
  }

  /** Forgetting the kept segment, or going on to a later state, does no harm. */
  lemma OtherNumbers(c: Conn, d: Conn, iss: u32)
    requires Numbers(c, iss) && d.wire == c.wire && (d.kept == c.kept || d.kept == None) && d.sendNext == c.sendNext
    requires (Speaks(d.state) ==> Speaks(c.state)) && (Opening(d.state) ==> Opening(c.state))
    ensures Numbers(d, iss)
  {
    hide Stream, FromPeer;
  }

  lemma PollNumbers(c: Conn, now: nat, iss: u32)
    requires Numbers(c, iss)
    ensures Numbers(Poll(c, now), iss) && Stream(Poll(c, now).wire) == Stream(c.wire)
  {
    hide Stream, FromPeer;
    var d := Poll(c, now);
    if d.wire == c.wire {
      OtherNumbers(c, d, iss);
    } else {
      var k := c.kept.value;
      var s := Sent(now, true, k.flags, k.num, c.recvNext, k.data);
      StreamStep(c.wire, s);
      assert d.wire == c.wire + [s] && Stream(d.wire) == Stream(c.wire);
    }
  }

  lemma TakeNumbers(c: Conn, now: nat, p: Packet, iss: u32)
    requires Numbers(c, iss) && c.state == Established
    ensures Numbers(TakePayload(c, now, p), iss) && Stream(TakePayload(c, now, p).wire) == Stream(c.wire)
    ensures Numbers(TakeFin(c, now, p), iss) && Stream(TakeFin(c, now, p).wire) == Stream(c.wire)
  {
    hide Stream, FromPeer, SendSegment, Taken, Numbers;
    var d := c.(queue := c.queue + Taken(c.queue, p.payload), recvNext := Wrap(c.recvNext + |p.payload|));
    OtherNumbers(c, d, iss);
    SendNumbers(d, now, ACK, [], iss);
    var e := c.(recvNext := Wrap(c.recvNext + 1), state := CloseWait);
    OtherNumbers(c, e, iss);
    SendNumbers(e, now, ACK, [], iss);
    assert Stream(c.wire) + [] == Stream(c.wire);
  }

  lemma ReceiveNumbers(c: Conn, now: nat, p: Packet, iss: u32)
    requires Numbers(c, iss)
    ensures Numbers(Receive(c, now, p), iss) && Stream(c.wire) <= Stream(Receive(c, now, p).wire)
  {
    hide Stream, FromPeer, SendSegment, TakePayload, TakeFin, Hello, Numbers;
    var d := c.(recvNext := Wrap(p.num + 1), sendUnacked := p.ack, kept := None, state := Established);
    var e := c.(state := Established);
    if c.state == SynSent {
      OtherNumbers(c, d, iss);
      SendNumbers(d, now, ACK, [], iss);
    } else if c.state == SynReceived {
      OtherNumbers(c, e, iss);
      SendNumbers(e, now, PSH_ACK, Hello(), iss);
    } else if c.state == Established {
      TakeNumbers(c, now, p, iss);
      var f := TakePayload(c, now, p);
      TakeStates(c, now, p);
      TakeNumbers(f, now, p, iss);
      OtherNumbers(TakeFin(f, now, p), TakeAck(TakeFin(f, now, p), p), iss);
    } else {
      OtherNumbers(c, Receive(c, now, p), iss);
    }
  }

  lemma TakeStates(c: Conn, now: nat, p: Packet)
    ensures TakePayload(c, now, p).state == c.state
  {
    hide Taken;
  }

  /** Whatever happens to a side, its numbering stays right and its stream only grows. */
  lemma StepNumbers(h: History, now: nat, e: Event, iss: u32)
    requires Numbers(h.conn, iss)
    ensures Numbers(Step(h, now, e).conn, iss) && Stream(h.conn.wire) <= Stream(Step(h, now, e).conn.wire)
    ensures e.Sends? && h.conn.state == Established ==>
      Stream(Step(h, now, e).conn.wire) == Stream(h.conn.wire) + e.data
  {
    hide Stream, FromPeer, SendSegment, Receive, Numbers, Poll;
    var c := h.conn;
    match e
    case Arrives(p) => ReceiveNumbers(c, now, p, iss);
    case Sends(data) => if c.state == Established { SendNumbers(c, now, PSH_ACK, data, iss); }
    case Reads(max) => OtherNumbers(c, Recv(c, max), iss);
    case Closes =>
      OtherNumbers(c, c.(state := LastAck), iss);
      SendNumbers(c.(state := LastAck), now, FIN_ACK, [], iss);
      CloseIs(c, now);
    case Polls => PollNumbers(c, now, iss);
  }

  lemma CloseIs(c: Conn, now: nat)
    ensures Close(c, now) == SendSegment(c.(state := LastAck), now, FIN_ACK, [])
  {
  }

  // ---- the other side answers ----

  /** Honesty of a connection, as numbers: `n` bounds what it expects and what it has acknowledged. */
  predicate Bounded(c: Conn, n: nat) {
    c.recvNext <= n && forall k | 0 <= k < |c.wire| && c.wire[k].flags.ack :: c.wire[k].ack <= n
  }

  lemma SendBounded(c: Conn, now: nat, flags: Flags, data: seq<byte>, n: nat)
    requires Bounded(c, n)
    ensures Bounded(SendSegment(c, now, flags, data), n)
  {
  }

  /** The bytes behind it is all that a packet adds to what a connection acknowledges. */
  lemma ReceiveBounded(h: History, now: nat, p: Packet, stream: seq<byte>, iss: u32)
    requires Honest(h, iss) && Delivers(h, stream, iss) && FromPeer(stream, iss, p) && !p.flags.fin
    requires Expected(h.conn, p) ==> FitsRing(h.conn, p)
    requires iss + 2 + |stream| < 0x1_0000_0000
    ensures Honest(Step(h, now, Arrives(p)), iss)
  {
    hide FromPeer, SendSegment, Taken, Hello, Got, Bounded;
    var c, n := h.conn, iss + 1 + |Got(h)|;
    HonestIs(h, iss);
    GotGrows(h, now, Arrives(p));
    HonestIs(Step(h, now, Arrives(p)), iss);
    if c.inUse && c.state == Established {
      if Expected(c, p) {
        NextNumber(h, p, stream, iss);
        var d := c.(queue := c.queue + Taken(c.queue, p.payload), recvNext := Wrap(c.recvNext + |p.payload|));
        Raised(c, d, n, n + |p.payload|);
        SendBounded(d, now, ACK, [], n + |p.payload|);
        Raised(TakePayload(c, now, p), TakeAck(TakePayload(c, now, p), p), n + |p.payload|, n + |p.payload|);
      } else {
        Raised(c, TakeAck(c, p), n, n);
      }
    } else if c.inUse && c.state == SynSent {
      SynNumber(p, stream, iss);
      var d := c.(recvNext := Wrap(p.num + 1), sendUnacked := p.ack, kept := None, state := Established);
      if p.flags.syn && p.flags.ack {
        Raised(c, d, n, n);
        SendBounded(d, now, ACK, [], n);
      }
    } else if c.inUse && c.state == SynReceived {
      Raised(c, c.(state := Established), n, n);
      SendBounded(c.(state := Established), now, PSH_ACK, Hello(), n);
    } else {
      Raised(c, Receive(c, now, p), n, n);
    }
  }

  lemma HonestIs(h: History, iss: u32)
    ensures Honest(h, iss) <==> Bounded(h.conn, iss + 1 + |Got(h)|)
  {
  }

  lemma Raised(c: Conn, d: Conn, n: nat, m: nat)
    requires Bounded(c, n) && n <= m && d.wire == c.wire && d.recvNext <= m
    ensures Bounded(d, m)
  {
  }

  lemma NextNumber(h: History, p: Packet, stream: seq<byte>, iss: u32)
    requires Delivers(h, stream, iss) && FromPeer(stream, iss, p) && Expected(h.conn, p) && FitsRing(h.conn, p)
    requires iss + 2 + |stream| < 0x1_0000_0000
    ensures Wrap(h.conn.recvNext + |p.payload|) <= iss + 1 + |Got(h)| + |p.payload|
    ensures Taken(h.conn.queue, p.payload) == p.payload
  {
    NextSlice(h, p, stream, iss);
  }

  lemma StepHonest(h: History, now: nat, e: Event, stream: seq<byte>, iss: u32)
    requires Honest(h, iss) && Delivers(h, stream, iss) && Fair(h, e, stream, iss)
    requires e.Arrives? ==> !e.packet.flags.fin
    requires iss + 2 + |stream| < 0x1_0000_0000
    ensures Honest(Step(h, now, e), iss)
  {
    hide FromPeer, SendSegment, Got, Bounded, Receive, Expected;
    var c, n := h.conn, iss + 1 + |Got(h)|;
    HonestIs(h, iss);
    GotGrows(h, now, e);
    HonestIs(Step(h, now, e), iss);
    match e
    case Arrives(p) => ReceiveBounded(h, now, p, stream, iss);
    case Sends(data) => SendBounded(c, now, PSH_ACK, data, n);
    case Reads(max) => Raised(c, Recv(c, max), n, n);
    case Closes =>
      SendBounded(c, now, FIN_ACK, [], n);
      Raised(SendSegment(c, now, FIN_ACK, []), Close(c, now), n, n);
    case Polls => PollBounded(c, now, n);
  }

  lemma PollBounded(c: Conn, now: nat, n: nat)
    requires Bounded(c, n)
    ensures Bounded(Poll(c, now), n)
  {
  }

  // ---- one direction is kept by both sides ----

  /** The packet is one that the other side has sent at some time: it may have been delayed, or sent or delivered
      before. */
  predicate SentBy(c: Conn, p: Packet) {
    exists k | 0 <= k < |c.wire| :: p == Carried(c.wire[k])
  }

  /** States go forward: who speaks now has spoken before, and an opening leads to an open connection. */
  lemma StatesGoOn(h: History, now: nat, e: Event)
    ensures var s, s' := h.conn.state, Step(h, now, e).conn.state;
      && (Speaks(s') ==> Speaks(s)) && (Opening(s') ==> Opening(s))
      && (s' == Established ==> s == Established || Opening(s))
  {
    hide Taken, Hello;
  }

  /** What can empty the place of the kept segment: the end of an active opening, or an acknowledgement of every number
      used. */
  lemma WhatClears(h: History, now: nat, e: Event)
    requires Step(h, now, e).conn.state == Established && Step(h, now, e).conn.kept == None
    ensures h.conn.state == SynSent || (h.conn.state == Established && (h.conn.kept == None ||
      (e.Arrives? && e.packet.flags.ack && e.packet.ack >= h.conn.sendNext)))
    ensures e.Sends? ==> e.data == []
  {
    hide Taken, Hello;
  }

  lemma SpeakerStep(x: History, y: History, now: nat, e: Event, iss: u32)
    requires Follows(x, y, iss) && Numbered(x.conn, iss) && (e.Arrives? ==> SentBy(y.conn, e.packet))
    ensures Follows(Step(x, now, e), y, iss)
  {
    hide Stream, FromPeer, Numbers, Step, Got;
    var x' := Step(x, now, e);
    var s, s' := Stream(x.conn.wire), Stream(x'.conn.wire);
    StepNumbers(x, now, e, iss);
    StatesGoOn(x, now, e);
    Longer(y, s, s', iss);
    if x'.conn.state == Established && x'.conn.kept == None {
      WhatClears(x, now, e);
      OnlySendsAdd(x, now, e, iss);
      if x.conn.state == SynSent {
        NothingYet(x.conn, iss);
      } else if x.conn.kept.Some? {
        AllAcknowledged(x, y, e.packet, iss);
      }
    }
  }

  lemma Longer(y: History, s: seq<byte>, s': seq<byte>, iss: u32)
    requires Delivers(y, s, iss) && s <= s'
    ensures Delivers(y, s', iss)
  {
    hide Got;
    assert s'[..|Got(y)|] == s[..|Got(y)|];
  }

  lemma NothingYet(c: Conn, iss: u32)
    requires Numbers(c, iss) && Opening(c.state)
    ensures Stream(c.wire) == []
  {
  }

  /** Only a call to send in an open connection, or the greeting, adds to the stream. */
  lemma OnlySendsAdd(h: History, now: nat, e: Event, iss: u32)
    requires Numbers(h.conn, iss) && h.conn.state in {Established, SynSent} && (e.Sends? ==> e.data == [])
    ensures Stream(Step(h, now, e).conn.wire) == Stream(h.conn.wire)
  {
    hide Stream, FromPeer, Numbers, SendSegment, TakePayload, TakeFin;
    var c := h.conn;
    match e
    case Arrives(p) =>
      if c.inUse && c.state == Established {
        TakeNumbers(c, now, p, iss);
        TakeStates(c, now, p);
        TakeNumbers(TakePayload(c, now, p), now, p, iss);
      } else {
        var d := c.(recvNext := Wrap(p.num + 1), sendUnacked := p.ack, kept := None, state := Established);
        OtherNumbers(c, d, iss);
        SendNumbers(d, now, ACK, [], iss);
        assert Stream(c.wire) + [] == Stream(c.wire);
      }
    case Sends(data) =>
      StepNumbers(h, now, e, iss);
      assert Stream(c.wire) + [] == Stream(c.wire);
    case Closes =>
      OtherNumbers(c, c.(state := LastAck), iss);
      SendNumbers(c.(state := LastAck), now, FIN_ACK, [], iss);
      CloseIs(c, now);
      assert Stream(c.wire) + [] == Stream(c.wire);
    case Polls => PollNumbers(c, now, iss);
    case Reads(_) =>
  }

  lemma AllAcknowledged(x: History, y: History, p: Packet, iss: u32)
    requires Follows(x, y, iss) && Numbered(x.conn, iss) && SentBy(y.conn, p)
    requires x.conn.state == Established && p.flags.ack && p.ack >= x.conn.sendNext
    ensures Got(y) == Stream(x.conn.wire)
  {
    hide Stream, FromPeer, Got;
    var k :| 0 <= k < |y.conn.wire| && p == Carried(y.conn.wire[k]);
    assert y.conn.wire[k].ack <= iss + 1 + |Got(y)|;
    assert x.conn.sendNext == iss + 1 + |Stream(x.conn.wire)|;
  }

  lemma ListenerStep(x: History, y: History, now: nat, e: Event, iss: u32)
    requires Follows(x, y, iss) && Numbered(x.conn, iss)
    requires e.Arrives? ==> SentBy(x.conn, e.packet) && (Expected(y.conn, e.packet) ==> FitsRing(y.conn, e.packet))
    ensures Follows(x, Step(y, now, e), iss)
  {
    hide Stream, FromPeer, Numbers, Step, Got, Delivers, Honest, Expected;
    var s := Stream(x.conn.wire);
    if e.Arrives? {
      SentIsFaithful(x.conn, e.packet, iss);
    }
    assert Fair(y, e, s, iss);
    StepDelivers(y, now, e, s, iss);
    if Speaks(x.conn.state) {
      StepHonest(y, now, e, s, iss);
    }
    if x.conn.state == Established && x.conn.kept == None {
      StaysComplete(y, Step(y, now, e), now, e, s, iss);
    }
  }

  lemma StaysComplete(y: History, y': History, now: nat, e: Event, s: seq<byte>, iss: u32)
    requires y' == Step(y, now, e) && Got(y) == s && Delivers(y', s, iss)
    ensures Got(y') == s
  {
    hide Got, Step, Taken;
    GotGrows(y, now, e);
  }

  lemma SentIsFaithful(c: Conn, p: Packet, iss: u32)
    requires Numbers(c, iss) && SentBy(c, p)
    ensures FromPeer(Stream(c.wire), iss, p) && (Speaks(c.state) ==> !p.flags.fin)
  {
    hide Stream, FromPeer;
    var k :| 0 <= k < |c.wire| && p == Carried(c.wire[k]);
    assert Faithful(c, c.wire[k].flags, c.wire[k].num, c.wire[k].data, iss);
    AnyAck(Stream(c.wire), iss, Packet(p.flags, p.num, 0, p.payload), p.ack);
  }

  lemma AnyAck(s: seq<byte>, iss: u32, p: Packet, ack: u32)
    requires FromPeer(s, iss, p)
    ensures FromPeer(s, iss, p.(ack := ack))
  {
    if p.payload != [] {
      var off: nat :| Slice(s, iss, p, off);
      assert Slice(s, iss, p.(ack := ack), off);
    }
  }

  // ---- both directions, over every run ----

  /** The side that connected, the side that accepted, and an event at one of them. */
  datatype Net = Net(a: History, b: History)

  datatype NetEvent = AtA(event: Event) | AtB(event: Event)

  const FIRST_A: u32 := 0x4000
  const FIRST_B: u32 := 0x1000

  function NetStep(n: Net, now: nat, e: NetEvent): Net {
    match e
    case AtA(event) => n.(a := Step(n.a, now, event))
    case AtB(event) => n.(b := Step(n.b, now, event))
  }

  /** Only what the other side has sent arrives; it fits the ring where it is next; and numbers stay below 2^32. */
  predicate Possible(n: Net, e: NetEvent) {
    && Numbered(n.a.conn, FIRST_A) && Numbered(n.b.conn, FIRST_B)
    && (e.event.Arrives? ==>
          var p := e.event.packet;
          if e.AtA? then SentBy(n.b.conn, p) && (Expected(n.a.conn, p) ==> FitsRing(n.a.conn, p))
          else SentBy(n.a.conn, p) && (Expected(n.b.conn, p) ==> FitsRing(n.b.conn, p)))
  }

  type NetTrace = seq<(nat, NetEvent)>

  function NetRun(n: Net, t: NetTrace): Net
    decreases |t|
  {
    if t == [] then n else NetRun(NetStep(n, t[0].0, t[0].1), t[1..])
  }

  predicate PossibleRun(n: Net, t: NetTrace)
    decreases |t|
  {
    t == [] || (Possible(n, t[0].1) && PossibleRun(NetStep(n, t[0].0, t[0].1), t[1..]))
  }

  ghost predicate Agree(n: Net) {
    Follows(n.a, n.b, FIRST_A) && Follows(n.b, n.a, FIRST_B)
  }

  lemma StepAgrees(n: Net, now: nat, e: NetEvent)
    requires Agree(n) && Possible(n, e)
    ensures Agree(NetStep(n, now, e))
  {
    hide Follows, SentBy, Expected, Step, Numbered;
    match e
    case AtA(event) =>
      SpeakerStep(n.a, n.b, now, event, FIRST_A);
      ListenerStep(n.b, n.a, now, event, FIRST_B);
    case AtB(event) =>
      SpeakerStep(n.b, n.a, now, event, FIRST_B);
      ListenerStep(n.a, n.b, now, event, FIRST_A);
  }

  /** One side has connected, and the other has accepted its SYN. */
  function Opened(now: nat, later: nat, toB: Peer, toA: Peer): Net {
    Net(History(Connected(now, toB), []), History(Accepted(later, toA, FIRST_A), []))
  }

  lemma OpenedAgrees(now: nat, later: nat, toB: Peer, toA: Peer)
    ensures Agree(Opened(now, later, toB, toA))
  {
    OpensWith(now, toB, 0);
    OpensWith(later, toA, FIRST_A);
  }

  lemma {:induction false} RunAgrees(n: Net, t: NetTrace)
    requires Agree(n) && PossibleRun(n, t)
    ensures Agree(NetRun(n, t))
    decreases |t|
  {
    hide Agree, Possible, NetStep;
    if t != [] {
      StepAgrees(n, t[0].0, t[0].1);
      RunAgrees(NetStep(n, t[0].0, t[0].1), t[1..]);
    }
  }

  /**
   * Over a network that loses, repeats, delays and reorders segments as it likes: each side has
   * at every moment received a beginning of what the other has sent, each byte once and in
   * order; and an open connection with nothing unacknowledged knows that all of it arrived.
   */
  lemma AcknowledgedHasArrived(now: nat, later: nat, toB: Peer, toA: Peer, t: NetTrace)
    requires PossibleRun(Opened(now, later, toB, toA), t)
    ensures var n := NetRun(Opened(now, later, toB, toA), t);
      && Got(n.b) <= Stream(n.a.conn.wire) && Got(n.a) <= Stream(n.b.conn.wire)
      && (n.a.conn.state == Established && n.a.conn.kept == None ==> Got(n.b) == Stream(n.a.conn.wire))
      && (n.b.conn.state == Established && n.b.conn.kept == None ==> Got(n.a) == Stream(n.b.conn.wire))
  {
    hide Stream, Got, Numbers, Honest, NetRun, PossibleRun, Opened;
    OpenedAgrees(now, later, toB, toA);
    RunAgrees(Opened(now, later, toB, toA), t);
  }
}
