/** Whole runs of a TCP connection: what the application reads, and what goes on the wire again. */
module Delivery {
  import opened Bytes
  import opened Ring
  import opened Tcp

  datatype Event =
    | Arrives(packet: Packet)
    | Sends(data: seq<byte>)
    | Reads(max: nat)
    | Closes
    | Polls

  /** A connection, and all that the application has read from it. */
  datatype History = History(conn: Conn, read: seq<byte>)

  function Step(h: History, now: nat, e: Event): History {
    match e
    case Arrives(p) => h.(conn := Receive(h.conn, now, p))
    case Sends(data) => h.(conn := Send(h.conn, now, data))
    case Reads(max) => History(Recv(h.conn, max), h.read + h.conn.queue[..Count(h.conn, max)])
    case Closes => h.(conn := Close(h.conn, now))
    case Polls => h.(conn := Poll(h.conn, now))
  }

  type Trace = seq<(nat, Event)>

  function Run(h: History, t: Trace): History
    decreases |t|
  {
    if t == [] then h else Run(Step(h, t[0].0, t[0].1), t[1..])
  }

  // ---- delivery ----

  /** Everything received in order so far. */
  function Got(h: History): seq<byte> {
    h.read + h.conn.queue
  }

  /** The segment is a slice of the stream numbered from `irs`; a SYN carries `irs` itself. */
  ghost predicate FromPeer(stream: seq<byte>, irs: u32, p: Packet) {
    (p.flags.syn ==> p.num == irs) &&
    (p.payload != [] ==> exists off: nat :: Slice(stream, irs, p, off))
  }

  predicate Slice(stream: seq<byte>, irs: u32, p: Packet, off: nat) {
    off + |p.payload| <= |stream| && p.payload == stream[off..off + |p.payload|] && p.num == Wrap(irs + 1 + off)
  }

  /** The segment is the next one of an open connection. */
  predicate Expected(c: Conn, p: Packet) {
    c.inUse && c.state == Established && |p.payload| > 0 && p.num == c.recvNext
  }

  predicate FitsRing(c: Conn, p: Packet) {
    |c.queue| + |p.payload| < RING
  }

  /** The next number expected is the one after the bytes received. */
  predicate InStep(h: History, irs: u32) {
    match h.conn.state
    case SynReceived => h.conn.recvNext == Wrap(irs + 1) && Got(h) == []
    case SynSent => Got(h) == []
    case Established => h.conn.recvNext == Wrap(irs + 1 + |Got(h)|)
    case _ => true
  }

  predicate Delivers(h: History, stream: seq<byte>, irs: u32) {
    |Got(h)| <= |stream| && Got(h) == stream[..|Got(h)|] && InStep(h, irs)
  }

  /** Numbers less than 2^32 apart do not clash. */
  lemma WrapUnique(base: int, a: nat, b: nat)
    requires a < 0x1_0000_0000 && b < 0x1_0000_0000
    ensures Wrap(base + a) == Wrap(base + b) <==> a == b
  {
  }

  /** Only the next segment of an open connection is taken, and that as far as the ring has room. */
  lemma GotGrows(h: History, now: nat, e: Event)
    ensures Got(Step(h, now, e)) ==
              if e.Arrives? && Expected(h.conn, e.packet) then Got(h) + Taken(h.conn.queue, e.packet.payload)
                else Got(h)
  {
    hide Taken;
    assert e.Reads? ==> h.conn.queue[..Count(h.conn, e.max)] + h.conn.queue[Count(h.conn, e.max)..] == h.conn.queue;
  }

  lemma NextSlice(h: History, p: Packet, stream: seq<byte>, irs: u32)
    requires |stream| < 0x1_0000_0000 && Delivers(h, stream, irs) && FromPeer(stream, irs, p) && Expected(h.conn, p)
    ensures Slice(stream, irs, p, |Got(h)|)
  {
    var off: nat :| Slice(stream, irs, p, off);
    WrapUnique(irs + 1, off, |Got(h)|);
  }

  lemma PrefixGrows(stream: seq<byte>, got: seq<byte>, more: seq<byte>)
    requires |got| + |more| <= |stream| && got == stream[..|got|] && more == stream[|got|..|got| + |more|]
    ensures got + more == stream[..|got + more|]
  {
  }

  /** How far the number expected next moves. */
  lemma NumberMoves(h: History, now: nat, p: Packet, irs: u32)
    requires InStep(h, irs)
    requires h.conn.inUse && h.conn.state == SynSent && p.flags.syn ==> p.num == irs
    ensures var h' := Step(h, now, Arrives(p));
      if Expected(h.conn, p) then
        (if p.flags.fin then h'.conn.state == CloseWait
         else h'.conn.state == Established && h'.conn.recvNext == Wrap(h.conn.recvNext + |p.payload|))
      else InStep(h', irs)
  {
    hide Taken, Hello;
  }

  /** An event that keeps to the stream, and does not overflow the ring. */
  ghost predicate Fair(h: History, e: Event, stream: seq<byte>, irs: u32) {
    e.Arrives? ==> FromPeer(stream, irs, e.packet) && (Expected(h.conn, e.packet) ==> FitsRing(h.conn, e.packet))
  }

  lemma PayloadDelivers(h: History, h': History, p: Packet, stream: seq<byte>, irs: u32)
    requires |stream| < 0x1_0000_0000 && Delivers(h, stream, irs) && FromPeer(stream, irs, p) && Expected(h.conn, p)
    requires Got(h') == Got(h) + p.payload
    requires h'.conn.state == CloseWait ||
      (h'.conn.state == Established && h'.conn.recvNext == Wrap(h.conn.recvNext + |p.payload|))
    ensures Delivers(h', stream, irs)
  {
    hide Got, Wrap, Slice, FromPeer, Expected;
    NextFits(h, p, stream, irs);
    NextSlice(h, p, stream, irs);
    SlicePrefix(stream, Got(h), p, irs);
    WrapAdds(irs + 1, |Got(h)|, |p.payload|);
  }

  lemma WrapAdds(base: int, a: nat, b: nat)
    ensures Wrap(Wrap(base + a) + b) == Wrap(base + (a + b))
  {
  }

  lemma SlicePrefix(stream: seq<byte>, got: seq<byte>, p: Packet, irs: u32)
    requires |got| <= |stream| && got == stream[..|got|] && Slice(stream, irs, p, |got|)
    ensures |got + p.payload| <= |stream| && got + p.payload == stream[..|got + p.payload|]
  {
    PrefixGrows(stream, got, p.payload);
  }

  lemma ArrivalDelivers(h: History, now: nat, p: Packet, stream: seq<byte>, irs: u32)
    requires |stream| < 0x1_0000_0000 && Delivers(h, stream, irs) && FromPeer(stream, irs, p)
    requires Expected(h.conn, p) ==> FitsRing(h.conn, p)
    ensures Delivers(Step(h, now, Arrives(p)), stream, irs)
  {
    hide Step, FromPeer, Expected, Got;
    var h' := Step(h, now, Arrives(p));
    GotGrows(h, now, Arrives(p));
    SynNumber(p, stream, irs);
    NumberMoves(h, now, p, irs);
    if Expected(h.conn, p) {
      PayloadDelivers(h, h', p, stream, irs);
    }
  }

  lemma SynNumber(p: Packet, stream: seq<byte>, irs: u32)
    requires FromPeer(stream, irs, p)
    ensures p.flags.syn ==> p.num == irs
  {
  }

  lemma StepDelivers(h: History, now: nat, e: Event, stream: seq<byte>, irs: u32)
    requires |stream| < 0x1_0000_0000 && Delivers(h, stream, irs) && Fair(h, e, stream, irs)
    ensures Delivers(Step(h, now, e), stream, irs)
  {
    if e.Arrives? {
      ArrivalDelivers(h, now, e.packet, stream, irs);
    } else {
      GotGrows(h, now, e);
    }
  }

  ghost predicate FairRun(h: History, t: Trace, stream: seq<byte>, irs: u32)
    decreases |t|
  {
    t == [] || (Fair(h, t[0].1, stream, irs) && FairRun(Step(h, t[0].0, t[0].1), t[1..], stream, irs))
  }

  /**
   * Exactly once and in order: however the peer's segments are lost, repeated
   * and reordered, what was read and what waits to be read is a prefix of the stream.
   */
  lemma {:induction false} RunDelivers(h: History, t: Trace, stream: seq<byte>, irs: u32)
    requires |stream| < 0x1_0000_0000 && Delivers(h, stream, irs) && FairRun(h, t, stream, irs)
    ensures Delivers(Run(h, t), stream, irs)
    decreases |t|
  {
    if t != [] {
      hide Step;
      StepDelivers(h, t[0].0, t[0].1, stream, irs);
      RunDelivers(Step(h, t[0].0, t[0].1), t[1..], stream, irs);
    }
  }

  /** A connection begins in step, whichever side opened it. */
  lemma OpeningDelivers(now: nat, peer: Peer, stream: seq<byte>, irs: u32)
    ensures Delivers(History(Accepted(now, peer, irs), []), stream, irs)
    ensures Delivers(History(Connected(now, peer), []), stream, irs)
  {
  }

  /** Bytes past the ring's room are acknowledged all the same: the count goes wrong exactly when the payload does not
      fit. */
  lemma OverflowExactly(h: History, now: nat, p: Packet, stream: seq<byte>, irs: u32)
    requires |stream| < 0x1_0000_0000 && Delivers(h, stream, irs) && FromPeer(stream, irs, p)
    requires Expected(h.conn, p) && !p.flags.fin
    ensures Delivers(Step(h, now, Arrives(p)), stream, irs) <==> FitsRing(h.conn, p)
  {
    hide Step, Got, Slice, Expected;
    var h' := Step(h, now, Arrives(p));
    if FitsRing(h.conn, p) {
      ArrivalDelivers(h, now, p, stream, irs);
    } else {
      GotGrows(h, now, Arrives(p));
      SynNumber(p, stream, irs);
      NumberMoves(h, now, p, irs);
      NextFits(h, p, stream, irs);
      TakenShort(h.conn.queue, p.payload);
      Miscounts(h, h', p, irs);
    }
  }

  lemma NextFits(h: History, p: Packet, stream: seq<byte>, irs: u32)
    requires |stream| < 0x1_0000_0000 && Delivers(h, stream, irs) && FromPeer(stream, irs, p) && Expected(h.conn, p)
    ensures 0 < |p.payload| && |Got(h)| + |p.payload| < 0x1_0000_0000 && h.conn.recvNext == Wrap(irs + 1 + |Got(h)|)
  {
    NextSlice(h, p, stream, irs);
  }

  lemma TakenShort(queue: seq<byte>, payload: seq<byte>)
    ensures |Taken(queue, payload)| <= |payload|
    ensures |queue| + |payload| >= RING && payload != [] ==> |Taken(queue, payload)| < |payload|
  {
  }

  lemma Miscounts(h: History, h': History, p: Packet, irs: u32)
    requires h.conn.recvNext == Wrap(irs + 1 + |Got(h)|) && h'.conn.recvNext == Wrap(h.conn.recvNext + |p.payload|)
    requires |Got(h)| + |p.payload| < 0x1_0000_0000 && |Got(h)| <= |Got(h')| < |Got(h)| + |p.payload|
    ensures h'.conn.recvNext != Wrap(irs + 1 + |Got(h')|)
  {
    hide Got, Wrap;
    WrapAdds(irs + 1, |Got(h)|, |p.payload|);
    WrapUnique(irs + 1, |Got(h)| + |p.payload|, |Got(h')|);
  }

  /** With a full ring, two segments of one byte each and a read in between lose the first byte. */
  lemma OverflowLoses(h: History, now: nat, x: byte, y: byte, irs: u32)
    requires h.conn.inUse && h.conn.state == Established && |h.conn.queue| == RING - 1
    requires h.conn.recvNext == Wrap(irs + 1 + |Got(h)|)
    ensures var stream := Got(h) + [x, y];
      var p, q := Packet(ACK, h.conn.recvNext, 0, [x]), Packet(ACK, Wrap(h.conn.recvNext + 1), 0, [y]);
      Slice(stream, irs, p, |Got(h)|) && Slice(stream, irs, q, |Got(h)| + 1) &&
      Got(Run(h, [(now, Arrives(p)), (now, Reads(RING)), (now, Arrives(q))])) == Got(h) + [y]
  {
    hide Slice;
    var p, q := Packet(ACK, h.conn.recvNext, 0, [x]), Packet(ACK, Wrap(h.conn.recvNext + 1), 0, [y]);
    var h1 := Step(h, now, Arrives(p));
    var h2 := Step(h1, now, Reads(RING));
    GotGrows(h, now, Arrives(p));
    GotGrows(h1, now, Reads(RING));
    GotGrows(h2, now, Arrives(q));
    ThreeSteps(h, (now, Arrives(p)), (now, Reads(RING)), (now, Arrives(q)));
    TwoSlices(Got(h), x, y, irs, p, q);
  }

  /** The segment that carries bytes `lo` to `hi` of the stream. */
  function Carries(stream: seq<byte>, irs: u32, lo: nat, hi: nat): Packet
    requires lo <= hi <= |stream|
  {
    Packet(ACK, Wrap(irs + 1 + lo), 0, stream[lo..hi])
  }

  lemma CarriesSlice(stream: seq<byte>, irs: u32, lo: nat, hi: nat)
    requires lo <= hi <= |stream|
    ensures FromPeer(stream, irs, Carries(stream, irs, lo, hi)) && Slice(stream, irs, Carries(stream, irs, lo, hi), lo)
  {
    assert Slice(stream, irs, Carries(stream, irs, lo, hi), lo);
  }

  /** The acknowledgement of the SYN-ACK, three full segments, one byte more, a read, and another byte. */
  function OverflowTrace(now: nat, irs: u32, stream: seq<byte>): Trace
    requires |stream| == RING + 1
  {
    [(now, Arrives(Carries(stream, irs, 0, 0))), (now, Arrives(Carries(stream, irs, 0, 1365))),
     (now, Arrives(Carries(stream, irs, 1365, 2730))), (now, Arrives(Carries(stream, irs, 2730, 4095))),
     (now, Arrives(Carries(stream, irs, 4095, 4096))), (now, Reads(RING)),
     (now, Arrives(Carries(stream, irs, 4096, 4097)))]
  }

  /** Nothing has been read, the ring holds the first `n` bytes, and the next one is expected. */
  predicate Holding(h: History, stream: seq<byte>, irs: u32, n: nat) {
    && n <= |stream| && h.conn.inUse && h.conn.state == Established && h.read == [] && h.conn.queue == stream[..n]
    && h.conn.recvNext == Wrap(irs + 1 + n)
  }

  lemma HoldsMore(h: History, now: nat, stream: seq<byte>, irs: u32, lo: nat, hi: nat)
    requires Holding(h, stream, irs, lo) && lo < hi < RING && hi <= |stream|
    ensures Holding(Step(h, now, Arrives(Carries(stream, irs, lo, hi))), stream, irs, hi)
  {
    assert stream[..lo] + stream[lo..hi] == stream[..hi];
    WrapAdds(irs + 1, lo, hi - lo);
  }

  lemma Acknowledged(now: nat, peer: Peer, stream: seq<byte>, irs: u32)
    ensures Holding(Step(History(Accepted(now, peer, irs), []), now, Arrives(Packet(ACK, Wrap(irs + 1), 0, []))),
      stream, irs, 0)
  {
    hide Hello;
  }

  lemma RunCons(h: History, e: (nat, Event), t: Trace)
    ensures Run(h, [e] + t) == Run(Step(h, e.0, e.1), t)
  {
    hide Step;
    assert ([e] + t)[1..] == t;
  }

  /** Such a state is reached: whatever the 4097 bytes, an accepted connection that is sent them in five segments, all
      in order, and read once in between, misses the last but one. */
  lemma OverflowReached(now: nat, peer: Peer, irs: u32, stream: seq<byte>)
    requires |stream| == RING + 1
    ensures var t := OverflowTrace(now, irs, stream);
      && (forall i | 0 <= i < |t| && t[i].1.Arrives? :: FromPeer(stream, irs, t[i].1.packet))
      && Got(Run(History(Accepted(now, peer, irs), []), t)) == stream[..RING - 1] + [stream[RING]]
  {
    hide Step, Got, FromPeer;
    var t, h0 := OverflowTrace(now, irs, stream), History(Accepted(now, peer, irs), []);
    OverflowSlices(now, irs, stream);
    var h1 := Step(h0, now, Arrives(Carries(stream, irs, 0, 0)));
    Acknowledged(now, peer, stream, irs);
    assert stream[0..0] == [];
    var h2 := Step(h1, now, Arrives(Carries(stream, irs, 0, 1365)));
    HoldsMore(h1, now, stream, irs, 0, 1365);
    var h3 := Step(h2, now, Arrives(Carries(stream, irs, 1365, 2730)));
    HoldsMore(h2, now, stream, irs, 1365, 2730);
    var h4 := Step(h3, now, Arrives(Carries(stream, irs, 2730, 4095)));
    HoldsMore(h3, now, stream, irs, 2730, 4095);
    RunCons(h0, t[0], t[1..]);
    RunCons(h1, t[1], t[2..]);
    RunCons(h2, t[2], t[3..]);
    RunCons(h3, t[3], t[4..]);
    assert t == [t[0]] + t[1..] && t[1..] == [t[1]] + t[2..] && t[2..] == [t[2]] + t[3..] && t[3..] == [t[3]] + t[4..];
    FullLoses(h4, now, stream, irs);
  }

  lemma OverflowSlices(now: nat, irs: u32, stream: seq<byte>)
    requires |stream| == RING + 1
    ensures forall i | 0 <= i < 7 && OverflowTrace(now, irs, stream)[i].1.Arrives? ::
      FromPeer(stream, irs, OverflowTrace(now, irs, stream)[i].1.packet)
  {
    hide FromPeer;
    CarriesSlice(stream, irs, 0, 0);
    CarriesSlice(stream, irs, 0, 1365);
    CarriesSlice(stream, irs, 1365, 2730);
    CarriesSlice(stream, irs, 2730, 4095);
    CarriesSlice(stream, irs, 4095, 4096);
    CarriesSlice(stream, irs, 4096, 4097);
  }

  lemma FullLoses(h: History, now: nat, stream: seq<byte>, irs: u32)
    requires |stream| == RING + 1 && Holding(h, stream, irs, RING - 1)
    ensures Got(Run(h, OverflowTrace(now, irs, stream)[4..])) == stream[..RING - 1] + [stream[RING]]
  {
    hide Step, Run;
    assert stream[4095..4096] == [stream[4095]] && stream[4096..4097] == [stream[4096]];
    WrapAdds(irs + 1, 4095, 1);
    assert Got(h) == stream[..RING - 1];
    OverflowLoses(h, now, stream[RING - 1], stream[RING], irs);
  }

  lemma ThreeSteps(h: History, a: (nat, Event), b: (nat, Event), c: (nat, Event))
    ensures Run(h, [a, b, c]) == Step(Step(Step(h, a.0, a.1), b.0, b.1), c.0, c.1)
  {
    hide Step;
    assert [a, b, c][1..] == [b, c] && [b, c][1..] == [c] && [c][1..] == [];
    var h2 := Step(Step(h, a.0, a.1), b.0, b.1);
    assert Run(h2, [c]) == Step(h2, c.0, c.1);
    assert Run(Step(h, a.0, a.1), [b, c]) == Run(h2, [c]);
  }

  lemma TwoSlices(got: seq<byte>, x: byte, y: byte, irs: u32, p: Packet, q: Packet)
    requires p.payload == [x] && q.payload == [y] && p.num == Wrap(irs + 1 + |got|) && q.num == Wrap(p.num + 1)
    ensures Slice(got + [x, y], irs, p, |got|) && Slice(got + [x, y], irs, q, |got| + 1)
  {
  }

  // ---- the end of the stream ----

  /** The peer's FIN, numbered behind the whole stream; the segment may carry the stream's last bytes. */
  ghost predicate FinFromPeer(stream: seq<byte>, irs: u32, p: Packet) {
    && p.flags.fin && !p.flags.syn && |p.payload| <= |stream|
    && Slice(stream, irs, p, |stream| - |p.payload|)
  }

  /** Nothing is delivered in this state, nor in any that follows it. */
  predicate Past(s: State) {
    s != Established && s != SynSent && s != SynReceived
  }

  lemma {:induction false} PastIsFrozen(h: History, t: Trace)
    requires Past(h.conn.state)
    ensures Got(Run(h, t)) == Got(h)
    decreases |t|
  {
    hide Got;
    if t != [] {
      GotGrows(h, t[0].0, t[0].1);
      PastIsFrozen(Step(h, t[0].0, t[0].1), t[1..]);
    }
  }

  /**
   * A FIN ends the delivery whatever its number: from then on nothing is added, so the whole
   * stream arrives if and only if it was complete already or the FIN's own segment is the next
   * one, brings the rest and fits the ring.
   */
  lemma FinExactly(h: History, now: nat, p: Packet, stream: seq<byte>, irs: u32, t: Trace)
    requires |stream| < 0x1_0000_0000 && Delivers(h, stream, irs) && FinFromPeer(stream, irs, p)
    requires h.conn.inUse && h.conn.state == Established
    ensures Step(h, now, Arrives(p)).conn.state == CloseWait
    ensures Got(Run(Step(h, now, Arrives(p)), t)) == stream
      <==> |Got(h)| == |stream| || (Expected(h.conn, p) && FitsRing(h.conn, p))
  {
    hide Got, Slice, Expected, Run;
    var h' := Step(h, now, Arrives(p));
    FinCloses(h, now, p);
    PastIsFrozen(h', t);
    hide Step;
    GotGrows(h, now, Arrives(p));
    if Expected(h.conn, p) {
      FinIsNext(h, p, stream, irs);
      TakenShort(h.conn.queue, p.payload);
    }
  }

  lemma FinCloses(h: History, now: nat, p: Packet)
    requires h.conn.inUse && h.conn.state == Established && p.flags.fin
    ensures Step(h, now, Arrives(p)).conn.state == CloseWait
  {
    hide Taken;
  }

  lemma FinIsNext(h: History, p: Packet, stream: seq<byte>, irs: u32)
    requires |stream| < 0x1_0000_0000 && Delivers(h, stream, irs) && FinFromPeer(stream, irs, p) && Expected(h.conn, p)
    ensures |Got(h)| == |stream| - |p.payload| < |stream| && Got(h) + p.payload == stream
  {
    NextSlice(h, p, stream, irs);
    WrapUnique(irs + 1, |stream| - |p.payload|, |Got(h)|);
  }
}
