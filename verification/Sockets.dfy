/** The table of TCP connections: which slot a segment belongs to, and that it touches no other. */
module Sockets {
  import opened Bytes
  import opened Options
  import opened Tcp
  import opened Resends
  import opened Segments
  import opened Checksum
  import opened Replies
  import opened Exchange

  const TCP_MAX_CONNECTIONS: nat := 16
  const TCP_MAX_LISTENERS: nat := 8
  const FIRST_EPHEMERAL: u16 := 49152

  // ---- the table as a value ----

  type Conns = seq<Conn>

  /** The first slot in use for this peer, or the number of slots. */
  function Find(cs: Conns, peer: Peer): (i: nat)
    ensures i <= |cs| && (i < |cs| ==> cs[i].inUse && cs[i].peer == peer)
    ensures forall j | 0 <= j < i :: !(cs[j].inUse && cs[j].peer == peer)
  {
    if cs == [] || (cs[0].inUse && cs[0].peer == peer) then 0 else 1 + Find(cs[1..], peer)
  }

  /** The first slot not in use, or the number of slots. */
  function FindFree(cs: Conns): (i: nat)
    ensures i <= |cs| && (i < |cs| ==> !cs[i].inUse)
    ensures forall j | 0 <= j < i :: cs[j].inUse
  {
    if cs == [] || !cs[0].inUse then 0 else 1 + FindFree(cs[1..])
  }

  /** A packet goes to the slot of its peer; a SYN from a new peer to a listening port takes the first free slot. */
  function Dispatch(cs: Conns, ports: set<u16>, now: nat, peer: Peer, p: Packet): Conns {
    var i, k := Find(cs, peer), FindFree(cs);
    if i < |cs| then cs[i := Receive(cs[i], now, p)]
    else if p.flags.syn && peer.localPort in ports && k < |cs| then cs[k := Accepted(now, peer, p.num)]
    else cs
  }

  /** Local ports are handed out in turn, from 65535 on to the first ephemeral one. */
  function EphemeralAfter(port: u16): u16 {
    if port == 0xFFFF then FIRST_EPHEMERAL else port + 1
  }

  /** No two slots in use have the same peer. */
  predicate Unique(cs: Conns) {
    forall i, j | 0 <= i < j < |cs| :: !(cs[i].inUse && cs[j].inUse && cs[i].peer == cs[j].peer)
  }

  lemma SamePeer(c: Conn, now: nat, p: Packet)
    ensures Receive(c, now, p).peer == c.peer && (Receive(c, now, p).inUse ==> c.inUse)
  {
    hide Taken, Hello;
  }

  /** Packets keep the table unambiguous, and a packet of one peer leaves every other connection alone. */
  lemma DispatchKeeps(cs: Conns, ports: set<u16>, now: nat, peer: Peer, p: Packet)
    requires Unique(cs)
    ensures Unique(Dispatch(cs, ports, now, peer, p)) && |Dispatch(cs, ports, now, peer, p)| == |cs|
    ensures forall j | 0 <= j < |cs| && cs[j].inUse && cs[j].peer != peer ::
      Dispatch(cs, ports, now, peer, p)[j] == cs[j]
  {
    hide Receive, Accepted;
    var i, k := Find(cs, peer), FindFree(cs);
    if i < |cs| { SamePeer(cs[i], now, p); }
    AcceptedPeer(now, peer, p.num);
  }

  lemma AcceptedPeer(now: nat, peer: Peer, num: u32)
    ensures Accepted(now, peer, num).peer == peer
    ensures Connected(now, peer).peer == peer
  {
  }

  /** A slot in use for this peer. */
  predicate Known(cs: Conns, peer: Peer) {
    exists j | 0 <= j < |cs| :: cs[j].inUse && cs[j].peer == peer
  }

  /** A SYN from a new peer to a port somebody listens on takes the first free slot, if there is one, and is answered
      with a SYN-ACK behind its number; any other packet from a new peer changes nothing. */
  lemma NewPeer(cs: Conns, ports: set<u16>, now: nat, peer: Peer, p: Packet)
    requires !Known(cs, peer)
    ensures var ds := Dispatch(cs, ports, now, peer, p);
      if p.flags.syn && peer.localPort in ports && exists j | 0 <= j < |cs| :: !cs[j].inUse then
        exists k | 0 <= k < |cs| :: !cs[k].inUse && (forall j | 0 <= j < k :: cs[j].inUse) && ds == cs[k := ds[k]] &&
          Welcomes(ds[k], now, peer, p.num)
      else ds == cs
  {
    hide Accepted, Welcomes;
    var k := FindFree(cs);
    if k < |cs| {
      AcceptedWelcomes(now, peer, p.num);
      var ds := Dispatch(cs, ports, now, peer, p);
      assert ds == cs || ds[k] == Accepted(now, peer, p.num);
    }
  }

  /** A slot that has just answered a SYN. */
  predicate Welcomes(c: Conn, now: nat, peer: Peer, num: u32) {
    && c.inUse && c.state == SynReceived && c.peer == peer && c.queue == [] && c.recvNext == Wrap(num + 1)
    && c.wire == [Sent(now, false, Flags(true, false, false, true), 0x1000, Wrap(num + 1), [])]
  }

  lemma AcceptedWelcomes(now: nat, peer: Peer, num: u32)
    ensures Welcomes(Accepted(now, peer, num), now, peer, num)
  {
    OpensWith(now, peer, num);
  }

  /** A packet from a known peer is handled by the slot in use for it, the only one if the table is unambiguous. */
  lemma KnownPeer(cs: Conns, ports: set<u16>, now: nat, peer: Peer, p: Packet)
    requires Known(cs, peer) && Unique(cs)
    ensures forall j | 0 <= j < |cs| && cs[j].inUse && cs[j].peer == peer ::
      Dispatch(cs, ports, now, peer, p) == cs[j := Receive(cs[j], now, p)]
  {
    hide Receive, Accepted;
  }

  /** The port handed out `n` calls after the first. */
  function PortAfter(n: nat): u16 {
    if n == 0 then FIRST_EPHEMERAL else EphemeralAfter(PortAfter(n - 1))
  }

  /** Ports run through all 16384 from 49152 to 65535 in turn, so that none comes again before all others have. */
  lemma {:induction false} PortsCycle(n: nat)
    ensures PortAfter(n) == 49152 + n % 16384
  {
    if n > 0 {
      PortsCycle(n - 1);
      NextInCycle(n);
    }
  }

  lemma NextInCycle(n: nat)
    requires n > 0
    ensures n % 16384 == if (n - 1) % 16384 == 16383 then 0 else (n - 1) % 16384 + 1
  {
  }

  /** Whatever arrives, no slot loses track of the segment it keeps. */
  lemma DispatchTracks(cs: Conns, ports: set<u16>, now: nat, peer: Peer, p: Packet)
    requires forall i | 0 <= i < |cs| :: Tracks(cs[i])
    ensures forall i | 0 <= i < |cs| :: Tracks(Dispatch(cs, ports, now, peer, p)[i])
  {
    hide Tracks, Receive, Accepted;
    var i := Find(cs, peer);
    if i < |cs| { ReceiveTracks(cs[i], now, p); }
    OpeningTracks(now, peer, p.num);
  }

  /** A datagram for TCP: the segment in it goes to the slot of its sender. */
  function Arrived(cs: Conns, ports: set<u16>, now: nat, d: Datagram): Conns
    requires |d.payload| >= 20 ==> HeaderLength(d.payload) <= |d.payload|
  {
    match ParseSegment(d.payload)
    case Some(p) => Dispatch(cs, ports, now, PeerOf(d.src, d.payload), p)
    case None => cs
  }

  /** A segment that one machine sends, as bytes in a packet, is dispatched at the other with the flags, numbers and
      data it was sent with, as coming from the sender's address and port. */
  lemma SentArrives(cs: Conns, ports: set<u16>, now: nat, me: u32, peer: Peer, s: Sent, packet: seq<byte>)
    requires |packet| >= 40 && IpFields(packet, me, peer.ip, 6, packet[20..]) && HeaderLength(packet[20..]) == 20
    requires ParseSegment(packet[20..]) == Some(Packet(s.flags, s.num, s.ack, s.data))
    requires PeerOf(me, packet[20..]) == Peer(me, peer.localPort, peer.remotePort)
    ensures IpWithin(packet) && IpHandle(peer.ip, packet).Some?
    ensures Arrived(cs, ports, now, IpHandle(peer.ip, packet).value) ==
              Dispatch(cs, ports, now, Peer(me, peer.localPort, peer.remotePort), Carried(s))
    ensures forall other: u32 | other != peer.ip && peer.ip != 0xFFFF_FFFF :: IpHandle(other, packet) == None
  {
    hide Dispatch, ParseSegment, PeerOf, HeaderLength, IpHandle, IpFields;
    IpRoundTrip(peer.ip, packet, me, peer.ip, 6, packet[20..]);
    forall other: u32 | other != peer.ip && peer.ip != 0xFFFF_FFFF
      ensures IpHandle(other, packet) == None
    {
      IpRoundTrip(other, packet, me, peer.ip, 6, packet[20..]);
    }
  }

  // ---- the table in memory ----

  /** Two slots share no buffer. */
  predicate Separate(c: Connection, d: Connection) {
    c != d && c.rxBuf != d.rxBuf && c.rxBuf != d.lastData && c.lastData != d.rxBuf && c.lastData != d.lastData
  }

  method FreshSlots() returns (all: seq<Connection>)
    ensures |all| == TCP_MAX_CONNECTIONS
    ensures forall i | 0 <= i < |all| :: fresh(all[i]) && fresh(all[i].rxBuf) && fresh(all[i].lastData)
    ensures forall i | 0 <= i < |all| :: all[i].Valid() && all[i].View() == ZEROED
    ensures forall i, j | 0 <= i < |all| && 0 <= j < |all| && i != j :: Separate(all[i], all[j])
  {
    all := [];
    for n := 0 to TCP_MAX_CONNECTIONS
      invariant |all| == n && forall i | 0 <= i < n :: fresh(all[i]) && fresh(all[i].rxBuf) && fresh(all[i].lastData)
      invariant forall i | 0 <= i < n :: all[i].Valid() && all[i].View() == ZEROED
      invariant forall i, j | 0 <= i < n && 0 <= j < n && i != j :: Separate(all[i], all[j])
    {
      var c := new Connection();
      all := all + [c];
    }
  }

  class Table {
    const slots: seq<Connection>
    const listeners: array<Option<u16>>
    var nextEphemeralPort: u16

    ghost predicate Valid()
      reads slots, set c | c in slots :: c.rxBuf, set c | c in slots :: c.lastData
    {
      |slots| == TCP_MAX_CONNECTIONS && listeners.Length == TCP_MAX_LISTENERS &&
      (forall i | 0 <= i < |slots| :: slots[i].Valid()) &&
      (forall c | c in slots :: (listeners as object) != c.rxBuf && (listeners as object) != c.lastData) &&
      forall i, j | 0 <= i < |slots| && 0 <= j < |slots| && i != j :: Separate(slots[i], slots[j])
    }

    ghost function Views(): (cs: Conns)
      requires Valid()
      reads slots, set c | c in slots :: c.rxBuf, set c | c in slots :: c.lastData
      ensures |cs| == |slots| && forall i | 0 <= i < |cs| :: cs[i] == slots[i].View()
    {
      seq(|slots|, i requires 0 <= i < |slots| && slots[i].Valid()
        reads slots, set c | c in slots :: c.rxBuf, set c | c in slots :: c.lastData => slots[i].View())
    }

    /** The ports somebody listens on. */
    ghost function Ports(): set<u16>
      reads listeners
    {
      set i | 0 <= i < listeners.Length && listeners[i].Some? :: listeners[i].value
    }

    /** All slots free, nobody listening. */
    constructor ()
      ensures Valid() && Ports() == {} && nextEphemeralPort == FIRST_EPHEMERAL
      ensures forall c | c in Views() :: c == ZEROED
    {
      var all := FreshSlots();
      slots := all;
      nextEphemeralPort := FIRST_EPHEMERAL;
      listeners := new Option<u16>[TCP_MAX_LISTENERS](_ => None);
      new;
      assert forall i | 0 <= i < listeners.Length :: listeners[i] == None;
    }

    method FindConnection(peer: Peer) returns (i: nat)
      requires Valid()
      ensures i == Find(Views(), peer)
    {
      i := 0;
      while i < |slots|
        invariant i <= |slots|
        invariant forall j | 0 <= j < i :: !(slots[j].inUse && slots[j].peer == peer)
      {
        if slots[i].inUse && slots[i].peer == peer { return; }
        i := i + 1;
      }
    }

    method TakeAt(k: nat)
      requires Valid() && k < |slots|
      modifies slots[k], slots[k].rxBuf, slots[k].lastData
      ensures Valid() && Ports() == old(Ports()) && Views() == old(Views())[k := ZEROED.(inUse := true)]
    {
      slots[k].Take();
    }

    method AllocConnection() returns (i: nat)
      requires Valid()
      modifies slots, set c | c in slots :: c.rxBuf, set c | c in slots :: c.lastData
      ensures Valid() && Ports() == old(Ports()) && i == FindFree(old(Views()))
      ensures Views() == if i < |slots| then old(Views())[i := ZEROED.(inUse := true)] else old(Views())
    {
      i := 0;
      while i < |slots|
        modifies {}
        invariant i <= |slots|
        invariant forall j | 0 <= j < i :: slots[j].inUse
      {
        if !slots[i].inUse { break; }
        i := i + 1;
      }
      if i < |slots| {
        TakeAt(i);
      }
    }

    method IsListening(port: u16) returns (yes: bool)
      ensures yes <==> port in Ports()
    {
      var i := 0;
      while i < listeners.Length
        invariant i <= listeners.Length
        invariant forall j | 0 <= j < i :: listeners[j] != Some(port)
      {
        if listeners[i] == Some(port) {
          assert port in Ports();
          return true;
        }
        i := i + 1;
      }
      return false;
    }

    /** Fails exactly when the port is new and all eight places are taken. */
    method Listen(port: u16) returns (ok: bool)
      modifies listeners
      ensures ok ==> Ports() == old(Ports()) + {port}
      ensures !ok ==> port !in Ports() && Ports() == old(Ports()) && forall i | 0 <= i < listeners.Length ::
        listeners[i].Some?
    {
      var already := IsListening(port);
      if already { return true; }
      var i := 0;
      while i < listeners.Length
        modifies {}
        invariant i <= listeners.Length
        invariant forall j | 0 <= j < i :: listeners[j].Some?
      {
        if listeners[i] == None { break; }
        i := i + 1;
      }
      if i == listeners.Length { return false; }
      ghost var before := listeners[..];
      listeners[i] := Some(port);
      assert forall j | 0 <= j < listeners.Length && j != i :: listeners[j] == before[j];
      assert forall q :: q in Ports() <==> q == port || q in old(Ports());
      return true;
    }

    /** A packet for slot `i`. */
    method Deliver(i: nat, now: nat, p: Packet)
      requires Valid() && i < |slots|
      modifies slots[i], slots[i].rxBuf, slots[i].lastData
      ensures Valid() && Ports() == old(Ports()) && Views() == old(Views())[i := Receive(old(Views())[i], now, p)]
    {
      hide Receive;
      slots[i].HandlePacket(now, p);
    }

    method AcceptAt(k: nat, now: nat, peer: Peer, num: u32)
      requires Valid() && k < |slots| && Views()[k] == ZEROED.(inUse := true)
      modifies slots[k], slots[k].lastData
      ensures Valid() && Ports() == old(Ports()) && Views() == old(Views())[k := Accepted(now, peer, num)]
    {
      hide Accepted;
      slots[k].Accept(now, peer, num);
    }

    method ConnectAt(k: nat, now: nat, peer: Peer)
      requires Valid() && k < |slots| && Views()[k] == ZEROED.(inUse := true)
      modifies slots[k], slots[k].lastData
      ensures Valid() && Ports() == old(Ports()) && Views() == old(Views())[k := Connected(now, peer)]
    {
      hide Connected;
      slots[k].Connect(now, peer);
    }

    method Release(k: nat)
      requires Valid() && k < |slots|
      modifies slots[k]
      ensures Valid() && Ports() == old(Ports()) && Views() == old(Views())[k := old(Views())[k].(inUse := false)]
    {
      slots[k].inUse := false;
    }

    method HandlePacket(now: nat, peer: Peer, p: Packet)
      requires Valid()
      modifies slots, set c | c in slots :: c.rxBuf, set c | c in slots :: c.lastData
      ensures Valid() && Ports() == old(Ports()) && Views() == Dispatch(old(Views()), Ports(), now, peer, p)
    {
      hide Find, FindFree, Receive, Accepted, Valid, Views, Ports;
      var i := FindConnection(peer);
      if i < |slots| {
        Deliver(i, now, p);
        return;
      }
      var listening := IsListening(peer.localPort);
      if p.flags.syn && listening {
        var k := AllocConnection();
        if k == |slots| { return; }
        AcceptAt(k, now, peer, p.num);
      }
    }

    /** A segment arrives, as bytes. */
    method HandleSegment(now: nat, ip: u32, segment: seq<byte>)
      requires Valid() && (|segment| >= 20 ==> HeaderLength(segment) <= |segment|)
      modifies slots, set c | c in slots :: c.rxBuf, set c | c in slots :: c.lastData
      ensures Valid() && Ports() == old(Ports())
      ensures Views() == match ParseSegment(segment)
                         case Some(p) => Dispatch(old(Views()), Ports(), now, PeerOf(ip, segment), p)
                         case None => old(Views())
    {
      hide Dispatch, Valid, Views, Ports;
      match ParseSegment(segment)
      case Some(p) => HandlePacket(now, PeerOf(ip, segment), p);
      case None =>
    }

    /** A packet arrives from the network: what ip_handle hands to TCP. */
    method HandlePacketBytes(now: nat, me: u32, packet: seq<byte>)
      requires Valid() && IpWithin(packet)
      requires match IpHandle(me, packet)
               case Some(d) => |d.payload| >= 20 ==> HeaderLength(d.payload) <= |d.payload|
               case None => true
      modifies slots, set c | c in slots :: c.rxBuf, set c | c in slots :: c.lastData
      ensures Valid() && Ports() == old(Ports())
      ensures Views() == match IpHandle(me, packet)
                         case Some(d) =>
                           if d.protocol == 6 then Arrived(old(Views()), Ports(), now, d) else old(Views())
                         case None => old(Views())
    {
      hide Dispatch, Valid, Views, Ports, ParseSegment, HeaderLength, IpHandle;
      match IpHandle(me, packet)
      case Some(d) =>
        if d.protocol == 6 { HandleSegment(now, d.src, d.payload); }
      case None =>
    }

    method PollAll(now: nat)
      requires Valid() && forall c | c in Views() :: c.kept.Some? ==> c.kept.value.time <= now
      modifies slots, set c | c in slots :: c.rxBuf, set c | c in slots :: c.lastData
      ensures Valid() && forall i | 0 <= i < |slots| :: Views()[i] == Poll(old(Views())[i], now)
    {
      hide Poll;
      ghost var cs := Views();
      for i := 0 to |slots|
        invariant Valid()
        invariant forall j | 0 <= j < |slots| :: Views()[j] == if j < i then Poll(cs[j], now) else cs[j]
      {
        assert Views()[i] == cs[i] && cs[i] in cs;
        slots[i].TcpPoll(now);
      }
    }

    method AllocEphemeralPort() returns (port: u16)
      modifies this`nextEphemeralPort
      ensures port == old(nextEphemeralPort) && nextEphemeralPort == EphemeralAfter(port)
    {
      port := nextEphemeralPort;
      nextEphemeralPort := if port == 0xFFFF then 0 else port + 1;
      if nextEphemeralPort == 0 { nextEphemeralPort := FIRST_EPHEMERAL; }
    }

    /** Opens a connection in the first free slot; `resolved` says whether the peer's hardware address was found. Only
        an opened connection uses up a port. */
    method Connect(now: nat, ip: u32, port: u16, resolved: bool) returns (i: int)
      requires Valid()
      modifies this, slots, set c | c in slots :: c.rxBuf, set c | c in slots :: c.lastData
      ensures Valid() && Ports() == old(Ports())
      ensures nextEphemeralPort == if i < 0 then old(nextEphemeralPort) else EphemeralAfter(old(nextEphemeralPort))
      ensures i == if resolved && FindFree(old(Views())) < |slots| then FindFree(old(Views())) else -1
      ensures i >= 0 ==> Views() == old(Views())[i := Connected(now, Peer(ip, port, old(nextEphemeralPort)))]
      ensures i < 0 ==> forall j | 0 <= j < |slots| :: Views()[j].inUse == old(Views())[j].inUse
      ensures i < 0 ==> forall j | 0 <= j < |slots| && old(Views())[j].inUse :: Views()[j] == old(Views())[j]
    {
      hide Connected, FindFree, Valid, Views, Ports;
      var k := AllocConnection();
      if k == |slots| { return -1; }
      if !resolved {
        Release(k);
        return -1;
      }
      var local := AllocEphemeralPort();
      ConnectAt(k, now, Peer(ip, port, local));
      return k;
    }
  }

  /** A new connection keeps the table unambiguous exactly when no slot in use has its address already. */
  lemma ConnectKeepsExactly(cs: Conns, now: nat, peer: Peer)
    requires Unique(cs) && FindFree(cs) < |cs|
    ensures Unique(cs[FindFree(cs) := Connected(now, peer)]) <==> forall j | 0 <= j < |cs| ::
      !(cs[j].inUse && cs[j].peer == peer)
  {
    var k := FindFree(cs);
    var ds := cs[k := Connected(now, peer)];
    AcceptedPeer(now, peer, 0);
    assert ds[k].inUse;
    forall j | 0 <= j < |cs| && cs[j].inUse && cs[j].peer == peer
      ensures !Unique(ds)
    {
      assert ds[j] == cs[j];
      assert if j < k then ds[j].peer == ds[k].peer else ds[k].peer == ds[j].peer;
    }
  }
}
