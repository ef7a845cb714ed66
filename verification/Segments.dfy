/** TCP segments as bytes: what the sender lays out is what the receiver takes apart. */
module Segments {
  import opened Bytes
  import opened Options
  import opened Checksum
  import opened Tcp

  /** Who sent the segment, and to which of our ports. */
  function PeerOf(ip: u32, s: seq<byte>): Peer
    requires |s| >= 20
  {
    Peer(ip, GetBe16(s, 0), GetBe16(s, 2))
  }

  function FlagByte(f: Flags): byte {
    (if f.fin then 0x01 else 0) + (if f.syn then 0x02 else 0) +
    (if f.psh then 0x08 else 0) + (if f.ack then 0x10 else 0)
  }

  function FlagsOf(b: byte): Flags {
    Flags(b / 0x02 % 2 == 1, b % 2 == 1, b / 0x08 % 2 == 1, b / 0x10 % 2 == 1)
  }

  /** Bytes of the header, as its fourth word says. */
  function HeaderLength(s: seq<byte>): nat
    requires |s| >= 20
  {
    s[12] / 16 * 4
  }

  /** Anything shorter than a header is dropped. */
  function ParseSegment(s: seq<byte>): Option<Packet>
    requires |s| >= 20 ==> HeaderLength(s) <= |s|
  {
    if |s| < 20 then None
    else Some(Packet(FlagsOf(s[13]), GetBe32(s, 4), GetBe32(s, 8), s[HeaderLength(s)..]))
  }

  lemma FlagsRoundTrip(f: Flags)
    ensures FlagsOf(FlagByte(f)) == f
  {
  }

  /** A segment as sent parses back to its flags, numbers and data, and names its sender. */
  lemma SegmentRoundTrip(srcPort: u16, destPort: u16, num: u32, ack: u32, flags: Flags, data: seq<byte>,
                         segment: seq<byte>)
    requires TcpFields(segment, srcPort, destPort, num, ack, FlagByte(flags), data)
    ensures HeaderLength(segment) == 20 && ParseSegment(segment) == Some(Packet(flags, num, ack, data))
    ensures forall ip: u32 :: PeerOf(ip, segment) == Peer(ip, srcPort, destPort)
  {
    hide GetBe16, GetBe32, FlagsOf, FlagByte;
    FlagsRoundTrip(flags);
  }

  /** Other flags beside the four do not disturb them. */
  lemma OtherFlags(f: Flags, rst: nat, high: nat)
    requires rst < 2 && high < 8
    ensures FlagByte(f) + 0x04 * rst + 0x20 * high < 0x100
    ensures FlagsOf(FlagByte(f) + 0x04 * rst + 0x20 * high) == f
  {
    var fin, syn, psh, ack :=
      if f.fin then 1 else 0, if f.syn then 1 else 0, if f.psh then 1 else 0, if f.ack then 1 else 0;
    var b := fin + 2 * (syn + 2 * (rst + 2 * (psh + 2 * (ack + 2 * high))));
    assert b == FlagByte(f) + 0x04 * rst + 0x20 * high;
    assert b / 0x02 == syn + 2 * (rst + 2 * (psh + 2 * (ack + 2 * high)));
    assert b / 0x08 == psh + 2 * (ack + 2 * high);
    assert b / 0x10 == ack + 2 * high;
  }

  /** The flag bits of the standard (RFC 9293, section 3.1). */
  lemma FlagBits()
    ensures FlagByte(Flags(false, true, false, false)) == 0x01 && FlagByte(Flags(true, false, false, false)) == 0x02
    ensures FlagByte(Flags(false, false, true, false)) == 0x08 && FlagByte(Flags(false, false, false, true)) == 0x10
  {
  }

  /** send_segment_raw down to ip_send: the packet is for the peer alone, its checksums verify, the segment's over the
      pseudo-header that the packet itself implies, and the peer reads the segment's flags, numbers and data in it. */
  method Transmit(me: u32, peer: Peer, num: u32, ack: u32, flags: Flags, data: seq<byte>) returns (packet: seq<byte>)
    requires |data| <= SEGMENT_DATA
    ensures |packet| == 40 + |data| && IpFields(packet, me, peer.ip, 6, packet[20..])
    ensures InternetChecksum(packet[12..20] + [0, packet[9]] + Be16(|packet| - 20) + packet[20..]) == 0
    ensures HeaderLength(packet[20..]) == 20 && ParseSegment(packet[20..]) == Some(Packet(flags, num, ack, data))
    ensures PeerOf(me, packet[20..]) == Peer(me, peer.localPort, peer.remotePort)
  {
    hide InternetChecksum, PseudoHeader, IpFields, TcpFields, FlagByte, ParseSegment, PeerOf, HeaderLength;
    var segment := TcpSegment(me, peer.ip, peer.localPort, peer.remotePort, num, ack, FlagByte(flags), data);
    SegmentRoundTrip(peer.localPort, peer.remotePort, num, ack, flags, data, segment);
    assert |segment| == 20 + |data| by {
      SegmentLength(peer.localPort, peer.remotePort, num, ack, FlagByte(flags), data, segment);
    }
    packet := IpSend(me, peer.ip, 6, segment);
    PacketLength(packet, me, peer.ip, 6, segment);
    PseudoFromPacket(packet, me, peer.ip, segment);
  }

  lemma SegmentLength(srcPort: u16, destPort: u16, num: u32, ack: u32, flags: byte, data: seq<byte>, segment: seq<byte>)
    requires TcpFields(segment, srcPort, destPort, num, ack, flags, data)
    ensures |segment| == 20 + |data|
  {
  }

  lemma PacketLength(packet: seq<byte>, src: u32, dest: u32, protocol: byte, payload: seq<byte>)
    requires IpFields(packet, src, dest, protocol, payload)
    ensures |packet| == 20 + |payload| && packet[20..] == payload
  {
  }
}
