/** One TCP connection: its states, its receive queue and the one segment it keeps for retransmission. */
module Tcp {
  import opened Bytes
  import opened Options
  import opened Ring

  const TCP_RETRANSMIT_TIMEOUT_TICKS: nat := 300
  const TCP_MAX_RETRANSMITS: nat := 5
  const KEPT: nat := 512

  /** Data bytes of a segment: ip_send puts them behind two headers of 20 bytes into a buffer of 1500. */
  const SEGMENT_DATA: nat := 1460

  datatype State = Closed | Listen | SynSent | SynReceived | Established | FinWait | CloseWait | LastAck

  datatype Flags = Flags(syn: bool, fin: bool, psh: bool, ack: bool)

  const NO_FLAGS := Flags(false, false, false, false)
  const SYN := Flags(true, false, false, false)
  const SYN_ACK := Flags(true, false, false, true)
  const ACK := Flags(false, false, false, true)
  const PSH_ACK := Flags(false, false, true, true)
  const FIN_ACK := Flags(false, true, false, true)

  /** A segment that arrived for the connection. */
  datatype Packet = Packet(flags: Flags, num: u32, ack: u32, payload: seq<byte>)

  /** A segment handed to the network, and whether for a second time. */
  datatype Sent = Sent(time: nat, again: bool, flags: Flags, num: u32, ack: u32, data: seq<byte>)

  /** The segment kept until it is acknowledged. */
  datatype Kept = Kept(flags: Flags, num: u32, data: seq<byte>, time: nat, count: nat)

  /** The peer's address and port, and ours. */
  datatype Peer = Peer(ip: u32, remotePort: u16, localPort: u16)

  datatype Conn = Conn(inUse: bool, state: State, peer: Peer, sendNext: u32, sendUnacked: u32, recvNext: u32,
                       queue: seq<byte>, kept: Option<Kept>, wire: seq<Sent>)

  /** The greeting of an accepted connection, with its terminating NUL. */
  function Hello(): (r: seq<byte>)
    ensures |r| == 23
  {
    [72, 101, 108, 108, 111, 32, 102, 114, 111, 109, 32, 78, 117, 103, 103, 101, 116, 32, 79, 83, 33, 10, 0]
  }

  function Wrap(n: int): u32 {
    n % 0x1_0000_0000
  }

  /** Sequence numbers a segment takes up. */
  function Consumes(flags: Flags, len: nat): nat {
    if flags.syn || flags.fin then 1 else len
  }

  predicate NeedsAck(flags: Flags, len: nat) {
    flags.syn || flags.fin || len > 0
  }

  // ---- what each operation does ----

  function SendSegment(c: Conn, now: nat, flags: Flags, data: seq<byte>): Conn {
    var kept := if NeedsAck(flags, |data|) then
                  Some(Kept(flags, c.sendNext, if |data| < KEPT then data else data[..KEPT], now, 0))
                else c.kept;
    c.(wire := c.wire + [Sent(now, false, flags, c.sendNext, c.recvNext, data)],
       kept := kept,
       sendNext := Wrap(c.sendNext + Consumes(flags, |data|)))
  }

  /** As much of the payload as the ring has room for. */
  function Taken(queue: seq<byte>, payload: seq<byte>): seq<byte> {
    if |queue| + |payload| < RING then payload else if |queue| < RING then payload[..RING - 1 - |queue|] else []
  }

  function TakePayload(c: Conn, now: nat, p: Packet): Conn {
    if |p.payload| > 0 && p.num == c.recvNext then
      SendSegment(c.(queue := c.queue + Taken(c.queue, p.payload), recvNext := Wrap(c.recvNext + |p.payload|)), now,
        ACK, [])
    else c
  }

  function TakeFin(c: Conn, now: nat, p: Packet): Conn {
    if p.flags.fin then SendSegment(c.(recvNext := Wrap(c.recvNext + 1), state := CloseWait), now, ACK, []) else c
  }

  function TakeAck(c: Conn, p: Packet): Conn {
    if p.flags.ack then
      c.(sendUnacked := if p.ack > c.sendUnacked then p.ack else c.sendUnacked,
         kept := if p.ack >= c.sendNext then None else c.kept)
    else c
  }

  function Receive(c: Conn, now: nat, p: Packet): Conn {
    if !c.inUse then c
    else
      match c.state
      case SynSent =>
        if p.flags.syn && p.flags.ack then
          SendSegment(c.(recvNext := Wrap(p.num + 1), sendUnacked := p.ack, kept := None, state := Established), now,
            ACK, [])
        else c
      case SynReceived =>
        if p.flags.ack then SendSegment(c.(state := Established), now, PSH_ACK, Hello()) else c
      case Established => TakeAck(TakeFin(TakePayload(c, now, p), now, p), p)
      case LastAck =>
        if p.flags.ack then c.(state := Closed, inUse := false) else c
      case _ => c
  }

  function Send(c: Conn, now: nat, data: seq<byte>): Conn {
    if c.state != Established then c else SendSegment(c, now, PSH_ACK, data)
  }

  function Count(c: Conn, max: nat): nat {
    if |c.queue| < max then |c.queue| else max
  }

  function Recv(c: Conn, max: nat): Conn {
    c.(queue := c.queue[Count(c, max)..])
  }

  function Close(c: Conn, now: nat): Conn {
    SendSegment(c, now, FIN_ACK, []).(state := LastAck)
  }

  function Poll(c: Conn, now: nat): Conn {
    if !c.inUse || c.kept == None || now < c.kept.value.time + TCP_RETRANSMIT_TIMEOUT_TICKS then c
    else
      var k := c.kept.value;
      if k.count >= TCP_MAX_RETRANSMITS then c.(state := Closed, inUse := false)
      else c.(wire := c.wire + [Sent(now, true, k.flags, k.num, c.recvNext, k.data)],
              kept := Some(k.(time := now, count := k.count + 1)))
  }

  /** A slot that has just been zeroed. */
  const ZEROED := Conn(false, Closed, Peer(0, 0, 0), 0, 0, 0, [], None, [])

  /** A slot just taken: all zeros but for its state, address and numbers. */
  function Opened(state: State, peer: Peer, sendNext: u32, recvNext: u32): Conn {
    Conn(true, state, peer, sendNext, 0, recvNext, [], None, [])
  }

  /** A peer's SYN to a listening port, and a connection of our own. */
  function Accepted(now: nat, peer: Peer, num: u32): Conn {
    SendSegment(Opened(SynReceived, peer, 0x1000, Wrap(num + 1)), now, SYN_ACK, [])
  }

  function Connected(now: nat, peer: Peer): Conn {
    SendSegment(Opened(SynSent, peer, 0x4000, 0), now, SYN, [])
  }

  lemma Behind(s: seq<byte>, i: nat, x: byte, q: seq<byte>)
    requires i <= |s| && s[i..] == [x] + q
    ensures i < |s| && s[i] == x && q == s[i + 1..]
  {
    assert |s[i..]| == 1 + |q|;
    assert s[i..][0] == x && s[i..][1..] == s[i + 1..];
    assert ([x] + q)[1..] == q;
  }

  // ---- the program ----

  method Clear(a: array<byte>)
    modifies a
    ensures forall i | 0 <= i < a.Length :: a[i] == 0
  {
    forall i | 0 <= i < a.Length {
      a[i] := 0;
    }
  }

  class Connection {
    var inUse: bool
    var state: State
    var peer: Peer
    var sendNext: u32
    var sendUnacked: u32
    var recvNext: u32
    const rxBuf: array<byte>
    var rxHead: nat
    var rxTail: nat
    var hasUnacked: bool
    const lastData: array<byte>
    var lastLen: nat
    var lastFlags: Flags
    var lastNum: u32
    var lastTime: nat
    var retransmits: nat
    var wire: seq<Sent>

    predicate Valid()
      reads this, rxBuf, lastData
    {
      RingOk(rxBuf[..], rxHead, rxTail) && lastData.Length == KEPT && lastLen <= KEPT && rxBuf != lastData
    }

    function View(): Conn
      reads this, rxBuf, lastData
      requires Valid()
    {
      Conn(inUse, state, peer, sendNext, sendUnacked, recvNext, Queue(rxBuf[..], rxHead, rxTail),
           if hasUnacked then Some(Kept(lastFlags, lastNum, lastData[..lastLen], lastTime, retransmits)) else None,
           wire)
    }

    constructor ()
      ensures Valid() && fresh(rxBuf) && fresh(lastData) && View() == ZEROED
    {
      inUse, state, peer, sendNext, sendUnacked, recvNext := false, Closed, Peer(0, 0, 0), 0, 0, 0;
      rxBuf, lastData := new byte[RING](_ => 0), new byte[KEPT](_ => 0);
      rxHead, rxTail, hasUnacked := 0, 0, false;
      lastLen, lastFlags, lastNum, lastTime, retransmits := 0, NO_FLAGS, 0, 0, 0;
      wire := [];
    }

    method ClearBuffers()
      requires Valid()
      modifies this`rxHead, this`rxTail, this`hasUnacked, this`lastLen, rxBuf, lastData
      ensures Valid() && View() == old(View()).(queue := [], kept := None)
    {
      Clear(rxBuf);
      Clear(lastData);
      rxHead, rxTail, hasUnacked, lastLen := 0, 0, false, 0;
    }

    /** Zeroes the slot and takes it into use. */
    method Take()
      requires Valid()
      modifies this, rxBuf, lastData
      ensures Valid() && View() == ZEROED.(inUse := true)
    {
      hide Queue, RingOk;
      ClearBuffers();
      state, peer, sendNext, sendUnacked, recvNext := Closed, Peer(0, 0, 0), 0, 0, 0;
      lastFlags, lastNum, lastTime, retransmits, wire := NO_FLAGS, 0, 0, 0, [];
      inUse := true;
    }

    method Accept(now: nat, from: Peer, num: u32)
      requires Valid() && View() == ZEROED.(inUse := true)
      modifies this, lastData
      ensures Valid() && View() == Accepted(now, from, num)
    {
      hide Queue, RingOk, SendSegment;
      state, peer, recvNext, sendNext := SynReceived, from, Wrap(num + 1), 0x1000;
      SendOne(now, SYN_ACK, []);
    }

    method Connect(now: nat, to: Peer)
      requires Valid() && View() == ZEROED.(inUse := true)
      modifies this, lastData
      ensures Valid() && View() == Connected(now, to)
    {
      hide Queue, RingOk, SendSegment;
      state, peer, sendNext, recvNext := SynSent, to, 0x4000, 0;
      SendOne(now, SYN, []);
    }

    method SendRaw(now: nat, again: bool, flags: Flags, num: u32, data: seq<byte>)
      requires |data| <= SEGMENT_DATA
      modifies this`wire
      ensures wire == old(wire) + [Sent(now, again, flags, num, recvNext, data)]
    {
      wire := wire + [Sent(now, again, flags, num, recvNext, data)];
    }

    /** Keeps the first 512 bytes. */
    method KeepData(data: seq<byte>)
      requires lastData.Length == KEPT
      modifies this`lastLen, lastData
      ensures lastLen <= KEPT && lastData[..lastLen] == if |data| < KEPT then data else data[..KEPT]
    {
      lastLen := if |data| < KEPT then |data| else KEPT;
      var n := lastLen;
      var k := 0;
      while k < n
        invariant k <= n && lastData[..k] == data[..k]
        modifies lastData
      {
        lastData[k] := data[k];
        k := k + 1;
      }
      assert data[..|data|] == data;
    }

    /** Keeps the segment about to be sent, so that Poll can send it again. */
    method Remember(now: nat, flags: Flags, data: seq<byte>)
      requires Valid()
      modifies this`hasUnacked, this`lastFlags, this`lastNum, this`lastLen, this`lastTime, this`retransmits, lastData
      ensures Valid() && rxBuf[..] == old(rxBuf[..])
      ensures View() ==
        old(View()).(kept := Some(Kept(flags, sendNext, if |data| < KEPT then data else data[..KEPT], now, 0)))
    {
      hide Queue, RingOk;
      hasUnacked, lastFlags, lastNum := true, flags, sendNext;
      KeepData(data);
      assert rxBuf[..] == old(rxBuf[..]);
      lastTime, retransmits := now, 0;
    }

    method SendOne(now: nat, flags: Flags, data: seq<byte>)
      requires Valid() && |data| <= SEGMENT_DATA
      modifies this`wire, this`sendNext, this`hasUnacked, this`lastFlags, this`lastNum, this`lastLen, this`lastTime,
        this`retransmits, lastData
      ensures Valid() && View() == SendSegment(old(View()), now, flags, data) && rxBuf[..] == old(rxBuf[..])
    {
      hide Queue, RingOk;
      SendRaw(now, false, flags, sendNext, data);
      if flags.syn || flags.fin || |data| > 0 {
        Remember(now, flags, data);
      }
      if flags.syn || flags.fin {
        sendNext := Wrap(sendNext + 1);
      } else {
        sendNext := Wrap(sendNext + |data|);
      }
    }

    /** Puts as much of the payload into the ring as there is room for. */
    method PushPayload(payload: seq<byte>)
      requires Valid()
      modifies this`rxHead, rxBuf
      ensures Valid() && lastData[..] == old(lastData[..])
      ensures View() == old(View()).(queue := old(View().queue) + Taken(old(View().queue), payload))
    {
      hide Queue;
      ghost var queue := Queue(rxBuf[..], rxHead, rxTail);
      var i := 0;
      while i < |payload|
        invariant Valid() && i <= |payload| && lastData[..] == old(lastData[..])
        invariant Queue(rxBuf[..], rxHead, rxTail) == queue + payload[..i]
      {
        QueuePush(rxBuf[..], rxHead, rxTail, payload[i]);
        var next := (rxHead + 1) % RING;
        if next == rxTail { break; }
        ghost var was := rxBuf[..];
        rxBuf[rxHead] := payload[i];
        assert rxBuf[..] == was[rxHead := payload[i]];
        assert payload[..i + 1] == payload[..i] + [payload[i]];
        rxHead := next;
        i := i + 1;
      }
      assert i == |payload| ==> payload[..i] == payload;
    }

    method AcceptPayload(now: nat, p: Packet)
      requires Valid()
      modifies this, rxBuf, lastData
      ensures Valid() && View() == TakePayload(old(View()), now, p)
    {
      hide Queue, RingOk, SendSegment, Taken;
      if |p.payload| > 0 && p.num == recvNext {
        PushPayload(p.payload);
        recvNext := Wrap(recvNext + |p.payload|);
        SendOne(now, ACK, []);
      }
    }

    method AcceptFin(now: nat, p: Packet)
      requires Valid()
      modifies this, lastData
      ensures Valid() && View() == TakeFin(old(View()), now, p)
    {
      hide Queue, RingOk, SendSegment;
      if p.flags.fin {
        recvNext := Wrap(recvNext + 1);
        state := CloseWait;
        SendOne(now, ACK, []);
      }
    }

    method AcceptAck(p: Packet)
      requires Valid()
      modifies this`sendUnacked, this`hasUnacked
      ensures Valid() && View() == TakeAck(old(View()), p)
    {
      hide Queue, RingOk;
      if p.flags.ack {
        if p.ack > sendUnacked { sendUnacked := p.ack; }
        if hasUnacked && p.ack >= sendNext { hasUnacked := false; }
      }
    }

    method AcceptSynAck(now: nat, p: Packet)
      requires Valid()
      modifies this, lastData
      ensures Valid()
      ensures View() ==
        SendSegment(old(View()).(recvNext := Wrap(p.num + 1), sendUnacked := p.ack, kept := None, state := Established),
          now, ACK, [])
    {
      hide Queue, RingOk, SendSegment;
      recvNext := Wrap(p.num + 1);
      sendUnacked := p.ack;
      hasUnacked := false;
      state := Established;
      SendOne(now, ACK, []);
    }

    method HandlePacket(now: nat, p: Packet)
      requires Valid()
      modifies this, rxBuf, lastData
      ensures Valid() && View() == Receive(old(View()), now, p)
    {
      hide Queue, RingOk, SendSegment, TakePayload, TakeFin, TakeAck, Hello;
      if !inUse { return; }
      match state
      case SynSent =>
        if p.flags.syn && p.flags.ack { AcceptSynAck(now, p); }
      case SynReceived =>
        if p.flags.ack {
          state := Established;
          SendOne(now, PSH_ACK, Hello());
        }
      case Established =>
        AcceptPayload(now, p);
        AcceptFin(now, p);
        AcceptAck(p);
      case LastAck =>
        if p.flags.ack {
          state := Closed;
          inUse := false;
        }
      case _ =>
    }

    method TcpSend(now: nat, data: seq<byte>) returns (n: int)
      requires Valid() && (state == Established ==> |data| <= SEGMENT_DATA)
      modifies this, lastData
      ensures Valid() && View() == Send(old(View()), now, data)
      ensures n == if old(state) == Established then |data| else -1
    {
      hide Queue, RingOk, SendSegment;
      if state != Established { return -1; }
      SendOne(now, PSH_ACK, data);
      return |data|;
    }

    method TcpRecv(buf: array<byte>, max: nat) returns (count: nat)
      requires Valid() && max <= buf.Length && buf != rxBuf && buf != lastData
      modifies this`rxTail, buf
      ensures Valid() && View() == Recv(old(View()), max)
      ensures count == Count(old(View()), max) && buf[..count] == old(View().queue)[..count]
    {
      hide Queue;
      ghost var queue := Queue(rxBuf[..], rxHead, rxTail);
      ghost var ring := rxBuf[..];
      count := 0;
      QueuePop(ring, rxHead, rxTail);
      while rxTail != rxHead && count < max
        invariant rxBuf[..] == ring && lastData[..] == old(lastData[..])
        invariant Valid() && count <= max && count <= |queue|
        invariant Queue(ring, rxHead, rxTail) == queue[count..] && buf[..count] == queue[..count]
        invariant rxTail == rxHead <==> Queue(ring, rxHead, rxTail) == []
        decreases max - count
      {
        QueuePop(ring, rxHead, rxTail);
        Behind(queue, count, ring[rxTail], Queue(ring, rxHead, (rxTail + 1) % RING));
        ghost var was := buf[..count];
        buf[count] := rxBuf[rxTail];
        assert buf[..count + 1] == was + [queue[count]];
        rxTail := (rxTail + 1) % RING;
        count := count + 1;
        QueuePop(ring, rxHead, rxTail);
      }
    }

    method TcpClose(now: nat)
      requires Valid()
      modifies this, lastData
      ensures Valid() && View() == Close(old(View()), now)
    {
      hide Queue, RingOk, SendSegment;
      SendOne(now, FIN_ACK, []);
      state := LastAck;
    }

    method TcpPoll(now: nat)
      requires Valid() && (hasUnacked ==> lastTime <= now)
      modifies this
      ensures Valid() && View() == Poll(old(View()), now)
    {
      hide Queue, RingOk;
      if !inUse || !hasUnacked { return; }
      if now - lastTime < TCP_RETRANSMIT_TIMEOUT_TICKS { return; }
      if retransmits >= TCP_MAX_RETRANSMITS {
        state := Closed;
        inUse := false;
        return;
      }
      SendRaw(now, true, lastFlags, lastNum, lastData[..lastLen]);
      retransmits := retransmits + 1;
      lastTime := now;
    }
  }
}
