/** The Internet checksum and the two headers it protects. */
module Checksum {
  import opened Bytes
  import opened Options

  // ---- the one's complement sum ----

  /** The 16-bit words of a buffer, low byte first, summed without carry; an odd last byte counts as a low byte. */
  function Sum(d: seq<byte>): nat {
    if |d| == 0 then 0 else if |d| == 1 then d[0] else d[0] + 0x100 * d[1] + Sum(d[2..])
  }

  lemma {:induction false} SumBound(d: seq<byte>)
    ensures Sum(d) <= 0xFFFF * ((|d| + 1) / 2)
  {
    if |d| > 1 {
      SumBound(d[2..]);
    }
  }

  /** The carries folded back into 16 bits. */
  function Fold(s: nat): (r: nat)
    ensures r < 0x1_0000
    decreases s
  {
    if s / 0x1_0000 == 0 then s else Fold(s % 0x1_0000 + s / 0x1_0000)
  }

  /** Folding preserves the sum modulo 65535 and keeps non-zero sums non-zero. */
  lemma {:induction false} FoldKeeps(s: nat)
    ensures Fold(s) % 0xFFFF == s % 0xFFFF
    ensures Fold(s) == 0 <==> s == 0
    decreases s
  {
    if s / 0x1_0000 != 0 {
      Carries(s);
      FoldKeeps(s % 0x1_0000 + s / 0x1_0000);
    }
  }

  lemma Carries(s: nat)
    ensures (s % 0x1_0000 + s / 0x1_0000) % 0xFFFF == s % 0xFFFF
  {
    assert s == s % 0x1_0000 + s / 0x1_0000 + 0xFFFF * (s / 0x1_0000);
    Multiples(s % 0x1_0000 + s / 0x1_0000, s / 0x1_0000);
  }

  lemma Multiples(a: nat, k: nat)
    ensures (a + 0xFFFF * k) % 0xFFFF == a % 0xFFFF
  {
  }

  function InternetChecksum(d: seq<byte>): u16 {
    0xFFFF - Fold(Sum(d))
  }

  /** The longest buffer whose words a 32-bit sum always holds. */
  const MAX_SUMMED := 131074

  /** What a 32-bit accumulator makes of the sum. */
  function Accumulated(d: seq<byte>): u32 {
    Low32(Sum(d))
  }

  function Low32(n: nat): u32 {
    n % 0x1_0000_0000
  }

  lemma AlreadyLow(n: u32)
    ensures Low32(n) == n
  {
  }

  lemma AddLow32(a: nat, b: nat, rest: nat)
    ensures Low32(Low32(a + b) + rest) == Low32(a + (b + rest))
  {
  }

  /** The first loop of ip_checksum: the words added up in 32 bits. */
  method AddWords(d: seq<byte>) returns (sum: u32)
    ensures sum == Accumulated(d)
  {
    sum := 0;
    var i := 0;
    var len := |d|;
    hide Sum, Word, Low32, Accumulated;
    assert d[0..] == d;
    AccumulatedIs(d);
    while len > 1
      invariant 0 <= i <= |d| && len == |d| - i
      invariant Low32(sum + Sum(d[i..])) == Accumulated(d)
    {
      SumFrom(d, i);
      AddLow32(sum, Word(d, i), Sum(d[i + 2..]));
      sum := Low32(sum + Word(d, i));
      i := i + 2;
      len := len - 2;
    }
    SumFrom(d, i);
    if len == 1 {
      sum := Low32(sum + d[i]);
    } else {
      AlreadyLow(sum);
    }
  }

  /** The second loop: carries folded until none is left. */
  method FoldCarries(sum: u32) returns (r: u16)
    ensures r == Fold(sum)
  {
    hide Fold;
    var s: nat := sum;
    FoldStep(s);
    while s / 0x1_0000 != 0
      invariant Fold(s) == Fold(sum)
      invariant Fold(s) == if s / 0x1_0000 == 0 then s else Fold(s % 0x1_0000 + s / 0x1_0000)
      decreases s
    {
      s := s % 0x1_0000 + s / 0x1_0000;
      FoldStep(s);
    }
    return s;
  }

  /** ip_checksum on a 32-bit accumulator: right exactly when the accumulator holds the sum, as it does up to 131074
      bytes. */
  method IpChecksum(d: seq<byte>) returns (c: u16)
    requires |d| < 0x1_0000_0000
    ensures c == 0xFFFF - Fold(Accumulated(d))
    ensures c == InternetChecksum(d) <==> Sum(d) < 0x1_0000_0000
    ensures |d| <= MAX_SUMMED ==> c == InternetChecksum(d)
  {
    var sum := AddWords(d);
    var folded := FoldCarries(sum);
    ChecksumExactly(d);
    SumFits(d);
    return 0xFFFF - folded;
  }

  lemma AccumulatedIs(d: seq<byte>)
    ensures Accumulated(d) == Low32(Sum(d))
  {
  }

  /** The carries out of the accumulator are lost: the checksum is right exactly when there are none. */
  lemma ChecksumExactly(d: seq<byte>)
    requires |d| < 0x1_0000_0000
    ensures 0xFFFF - Fold(Accumulated(d)) == InternetChecksum(d) <==> Sum(d) < 0x1_0000_0000
  {
    hide Fold, Sum;
    SumBound(d);
    var s := Sum(d);
    FoldKeeps(s);
    FoldKeeps(s % 0x1_0000_0000);
    if s >= 0x1_0000_0000 {
      LostCarries(s % 0x1_0000_0000, s / 0x1_0000_0000);
    }
  }

  /** 2^32 is one modulo 65535. */
  lemma LostCarries(r: nat, q: nat)
    requires 0 < q < 0xFFFF
    ensures (q * 0x1_0000_0000 + r) % 0xFFFF != r % 0xFFFF
  {
    assert q * 0x1_0000_0000 + r == (q + r) + 0xFFFF * (q * 0x1_0001);
    Multiples(q + r, q * 0x1_0001);
  }

  lemma SumFits(d: seq<byte>)
    ensures |d| <= MAX_SUMMED ==> Sum(d) < 0x1_0000_0000
  {
    SumBound(d);
  }

  lemma SumFrom(d: seq<byte>, i: nat)
    requires i <= |d|
    ensures Sum(d[i..]) == if i == |d| then 0 else if i + 1 == |d| then d[i] else Word(d, i) + Sum(d[i + 2..])
  {
    if i + 1 < |d| { assert d[i..][2..] == d[i + 2..]; }
  }

  lemma FoldStep(s: nat)
    ensures Fold(s) == if s / 0x1_0000 == 0 then s else Fold(s % 0x1_0000 + s / 0x1_0000)
  {
  }

  /** An odd last byte counts as if a zero stood behind it (RFC 1071, section 1). */
  lemma {:induction false} OddIsPadded(d: seq<byte>)
    requires |d| % 2 == 1
    ensures Sum(d + [0]) == Sum(d)
    decreases |d|
  {
    if |d| == 1 {
      assert (d + [0])[2..] == [];
    } else {
      assert (d + [0])[2..] == d[2..] + [0];
      OddIsPadded(d[2..]);
    }
  }

  // ---- a stored checksum verifies ----

  function Word(d: seq<byte>, k: nat): u16
    requires k + 2 <= |d|
  {
    var lo: int, hi: int := d[k], d[k + 1];
    lo + 0x100 * hi
  }

  function WithWord(d: seq<byte>, k: nat, c: u16): (r: seq<byte>)
    requires k + 2 <= |d|
    ensures |r| == |d|
  {
    d[k := c % 0x100][k + 1 := c / 0x100]
  }

  lemma {:induction false} SumWithWord(d: seq<byte>, k: nat, c: u16)
    requires k % 2 == 0 && k + 2 <= |d|
    ensures Sum(WithWord(d, k, c)) == Sum(d) - Word(d, k) + c
    decreases k
  {
    var e := WithWord(d, k, c);
    if k == 0 {
      assert e[2..] == d[2..];
    } else {
      assert e[2..] == WithWord(d[2..], k - 2, c);
      SumWithWord(d[2..], k - 2, c);
    }
  }

  /** For every buffer with a zeroed field at an even offset, storing the checksum there makes the checksum of the
      whole buffer zero. */
  lemma StoredVerifies(d: seq<byte>, k: nat)
    requires k % 2 == 0 && k + 2 <= |d| && Word(d, k) == 0
    ensures InternetChecksum(WithWord(d, k, InternetChecksum(d))) == 0
  {
    var s, f := Sum(d), Fold(Sum(d));
    var s' := Sum(WithWord(d, k, InternetChecksum(d)));
    SumWithWord(d, k, InternetChecksum(d));
    FoldKeeps(s);
    FoldKeeps(s');
    assert s' == s + 0xFFFF - f;
    Congruent(s, f);
  }

  lemma Congruent(s: nat, f: nat)
    requires s % 0xFFFF == f % 0xFFFF
    ensures (s + 0xFFFF - f) % 0xFFFF == 0
  {
  }

  /** Changing one word of a buffer that verifies is noticed, unless zero is changed to all ones or back. */
  lemma OneWordNoticed(d: seq<byte>, k: nat, c: u16)
    requires k % 2 == 0 && k + 2 <= |d| && InternetChecksum(d) == 0
    ensures InternetChecksum(WithWord(d, k, c)) == 0 <==>
              c % 0xFFFF == Word(d, k) % 0xFFFF && Sum(WithWord(d, k, c)) != 0
  {
    var s, s' := Sum(d), Sum(WithWord(d, k, c));
    SumWithWord(d, k, c);
    FoldKeeps(s);
    FoldKeeps(s');
    ZeroMeans(s);
    ZeroMeans(s');
    ShiftedSum(s, s', Word(d, k), c);
  }

  /** The checksum of a sum is zero exactly when the sum is a non-zero multiple of 65535. */
  lemma ZeroMeans(s: nat)
    ensures Fold(s) == 0xFFFF <==> s % 0xFFFF == 0 && s != 0
  {
    FoldKeeps(s);
  }

  lemma ShiftedSum(s: nat, s': nat, w: nat, c: nat)
    requires s % 0xFFFF == 0 && s' + w == s + c
    ensures s' % 0xFFFF == 0 <==> c % 0xFFFF == w % 0xFFFF
  {
  }

  // ---- the headers ----

  const IP_CHECKSUM_AT := 10

  /** The IPv4 header of ip_send before its checksum is stored; addresses are kept in memory order. */
  function IpHeader(src: u32, dest: u32, protocol: byte, len: nat): (r: seq<byte>)
    requires 20 + len < 0x1_0000
    ensures |r| == 20
  {
    [0x45, 0] + Be16(20 + len) + Be16(0) + Be16(0x4000) + [64, protocol] + [0, 0] + Put32(src) + Put32(dest)
  }

  /** The fields of a packet, each read where the standard puts it (RFC 791, section 3.1): version 4, five words of
      header, the length of the whole, neither identification nor fragments, 64 hops, and the two addresses. */
  predicate IpFields(packet: seq<byte>, src: u32, dest: u32, protocol: byte, payload: seq<byte>) {
    && |packet| == 20 + |payload| && packet[0] == 0x45 && packet[1] == 0 && GetBe16(packet, 2) == |packet|
    && GetBe16(packet, 4) == 0 && GetBe16(packet, 6) == 0x4000 && packet[8] == 64 && packet[9] == protocol
    && Get32(packet, 12) == src && Get32(packet, 16) == dest && packet[20..] == payload
    && InternetChecksum(packet[..20]) == 0
  }

  method IpSend(src: u32, dest: u32, protocol: byte, payload: seq<byte>) returns (packet: seq<byte>)
    requires 20 + |payload| <= 1500
    ensures IpFields(packet, src, dest, protocol, payload)
  {
    hide InternetChecksum;
    var ip := IpHeader(src, dest, protocol, |payload|);
    var c := IpChecksum(ip);
    assert Word(ip, IP_CHECKSUM_AT) == 0;
    StoredVerifies(ip, IP_CHECKSUM_AT);
    packet := WithWord(ip, IP_CHECKSUM_AT, c) + payload;
    assert packet[..20] == WithWord(ip, IP_CHECKSUM_AT, c);
    IpHeaderFields(src, dest, protocol, payload, packet);
  }

  lemma IpHeaderFields(src: u32, dest: u32, protocol: byte, payload: seq<byte>, packet: seq<byte>)
    requires 20 + |payload| < 0x1_0000 && |packet| == 20 + |payload|
    requires forall j | 0 <= j < 20 && j != IP_CHECKSUM_AT && j != IP_CHECKSUM_AT + 1 ::
               packet[j] == IpHeader(src, dest, protocol, |payload|)[j]
    ensures packet[0] == 0x45 && packet[1] == 0 && GetBe16(packet, 2) == |packet| && GetBe16(packet, 4) == 0
    ensures GetBe16(packet, 6) == 0x4000 && packet[8] == 64 && packet[9] == protocol
    ensures Get32(packet, 12) == src && Get32(packet, 16) == dest
  {
    var h := IpHeader(src, dest, protocol, |payload|);
    hide IpHeader, Be16, Put32, GetBe16, Get32;
    IpHeaderSlices(src, dest, protocol, |payload|);
    assert packet[2..4] == h[2..4] && packet[4..6] == h[4..6] && packet[6..8] == h[6..8];
    GetBe16Be16(20 + |payload|, packet, 2);
    GetBe16Be16(0, packet, 4);
    GetBe16Be16(0x4000, packet, 6);
    assert forall j | 0 <= j < 4 :: packet[12 + j] == h[12..16][j] && packet[16 + j] == h[16..20][j];
    Get32Put32(src, packet, 12);
    Get32Put32(dest, packet, 16);
  }

  lemma IpHeaderSlices(src: u32, dest: u32, protocol: byte, len: nat)
    requires 20 + len < 0x1_0000
    ensures var h := IpHeader(src, dest, protocol, len);
      && h[0] == 0x45 && h[1] == 0 && h[2..4] == Be16(20 + len) && h[4..6] == Be16(0) && h[6..8] == Be16(0x4000)
      && h[8] == 64 && h[9] == protocol && h[12..16] == Put32(src) && h[16..20] == Put32(dest)
  {
  }

  // ---- what the receiver makes of a packet ----

  /** Who sent what to whom, and for which protocol. */
  datatype Datagram = Datagram(src: u32, dest: u32, protocol: byte, payload: seq<byte>)

  const BROADCAST: u32 := 0xFFFF_FFFF

  /** The header's length as its first byte says. */
  function IpHeaderLength(packet: seq<byte>): nat
    requires |packet| >= 20
  {
    packet[0] % 16 * 4
  }

  /** The lengths in the header stay within the packet. */
  predicate IpWithin(packet: seq<byte>) {
    |packet| >= 20 && IpHeaderLength(packet) <= GetBe16(packet, 2) <= |packet|
  }

  /** ip_handle: short headers and packets for others are dropped. */
  function IpHandle(me: u32, packet: seq<byte>): Option<Datagram>
    requires IpWithin(packet)
  {
    var ihl := IpHeaderLength(packet);
    if ihl < 20 then None
    else if Get32(packet, 16) != me && Get32(packet, 16) != BROADCAST then None
    else Some(Datagram(Get32(packet, 12), Get32(packet, 16), packet[9], packet[ihl..GetBe16(packet, 2)]))
  }

  /** Whoever sent it, a packet is dropped exactly when its header is shorter than five words or it is for somebody
      else; what is handed on lies behind the header, options included, and ends where the packet says it does. */
  lemma IpHandleExactly(me: u32, packet: seq<byte>)
    requires IpWithin(packet)
    ensures IpHandle(me, packet) == None <==>
              packet[0] % 16 < 5 || Get32(packet, 16) !in {me, 0xFFFF_FFFF}
    ensures forall d: Datagram | IpHandle(me, packet) == Some(d) ::
              && |d.payload| == GetBe16(packet, 2) - 4 * (packet[0] % 16)
              && d.payload <= packet[4 * (packet[0] % 16)..] && d.protocol == packet[9]
              && d.src == Get32(packet, 12) && d.dest == Get32(packet, 16)
  {
    hide Get32, GetBe16;
  }

  /** A packet as sent reaches whom it is for, and nobody else unless it is broadcast; sender, protocol and payload
      arrive unchanged. */
  lemma IpRoundTrip(me: u32, packet: seq<byte>, src: u32, dest: u32, protocol: byte, payload: seq<byte>)
    requires IpFields(packet, src, dest, protocol, payload)
    ensures IpWithin(packet)
    ensures IpHandle(me, packet) ==
              if me == dest || dest == 0xFFFF_FFFF then Some(Datagram(src, dest, protocol, payload)) else None
  {
    assert packet[20..|packet|] == packet[20..];
  }

  const TCP_CHECKSUM_AT := 16
  const TCP_WINDOW: u16 := 4096

  /** A TCP header without options before its checksum is stored, followed by the data. */
  function TcpHeader(srcPort: u16, destPort: u16, seqNum: u32, ackNum: u32, flags: byte,
                     data: seq<byte>): (r: seq<byte>)
    ensures |r| == 20 + |data|
  {
    Be16(srcPort) + Be16(destPort) + Be32(seqNum) + Be32(ackNum) + [0x50, flags] + Be16(TCP_WINDOW) + [0, 0] + [0, 0] +
      data
  }

  function PseudoHeader(src: u32, dest: u32, len: u16): (r: seq<byte>)
    ensures |r| == 12
  {
    Put32(src) + Put32(dest) + [0, 6] + Be16(len)
  }

  /** The fields of a segment, each read where the standard puts it (RFC 9293, section 3.1). */
  predicate TcpFields(segment: seq<byte>, srcPort: u16, destPort: u16, seqNum: u32, ackNum: u32, flags: byte,
                      data: seq<byte>)
  {
    && |segment| == 20 + |data| && GetBe16(segment, 0) == srcPort && GetBe16(segment, 2) == destPort
    && GetBe32(segment, 4) == seqNum && GetBe32(segment, 8) == ackNum && segment[12] == 0x50 && segment[13] == flags
    && GetBe16(segment, 14) == 4096 && GetBe16(segment, 18) == 0 && segment[20..] == data
  }

  /** send_segment_raw's segment: the checksum stored verifies over pseudo-header and segment, at odd lengths too. */
  method TcpSegment(src: u32, dest: u32, srcPort: u16, destPort: u16, seqNum: u32, ackNum: u32, flags: byte,
                    data: seq<byte>)
    returns (segment: seq<byte>)
    requires 20 + |data| <= 1500
    ensures TcpFields(segment, srcPort, destPort, seqNum, ackNum, flags, data)
    ensures InternetChecksum(PseudoHeader(src, dest, |segment|) + segment) == 0
  {
    hide PseudoHeader, InternetChecksum, TcpFields;
    var tcp := TcpHeader(srcPort, destPort, seqNum, ackNum, flags, data);
    assert tcp[TCP_CHECKSUM_AT] == 0 && tcp[TCP_CHECKSUM_AT + 1] == 0 && tcp[20..] == data;
    hide TcpHeader;
    var ph := PseudoHeader(src, dest, |tcp|);
    var c := IpChecksum(ph + tcp);
    assert Word(ph + tcp, 12 + TCP_CHECKSUM_AT) == 0;
    StoredVerifies(ph + tcp, 12 + TCP_CHECKSUM_AT);
    segment := WithWord(tcp, TCP_CHECKSUM_AT, c);
    assert WithWord(ph + tcp, 12 + TCP_CHECKSUM_AT, c) == ph + segment;
    TcpHeaderFields(srcPort, destPort, seqNum, ackNum, flags, data, segment);
  }

  lemma TcpHeaderFields(srcPort: u16, destPort: u16, seqNum: u32, ackNum: u32, flags: byte, data: seq<byte>,
                        segment: seq<byte>)
    requires |segment| == 20 + |data| && segment[20..] == data
    requires forall j | 0 <= j < 20 && j != TCP_CHECKSUM_AT && j != TCP_CHECKSUM_AT + 1 ::
               segment[j] == TcpHeader(srcPort, destPort, seqNum, ackNum, flags, data)[j]
    ensures TcpFields(segment, srcPort, destPort, seqNum, ackNum, flags, data)
  {
    hide Be16, Be32, GetBe16, GetBe32;
    var h := TcpHeader(srcPort, destPort, seqNum, ackNum, flags, data);
    TcpHeaderSlices(srcPort, destPort, seqNum, ackNum, flags, data);
    assert segment[0..2] == h[0..2] && segment[2..4] == h[2..4] && segment[4..8] == h[4..8];
    assert segment[8..12] == h[8..12] && segment[14..16] == h[14..16];
    GetBe16Be16(srcPort, segment, 0);
    GetBe16Be16(destPort, segment, 2);
    GetBe32Be32(seqNum, segment, 4);
    GetBe32Be32(ackNum, segment, 8);
    GetBe16Be16(TCP_WINDOW, segment, 14);
    NoUrgency(segment);
  }

  lemma TcpHeaderSlices(srcPort: u16, destPort: u16, seqNum: u32, ackNum: u32, flags: byte, data: seq<byte>)
    ensures var h := TcpHeader(srcPort, destPort, seqNum, ackNum, flags, data);
      && h[0..2] == Be16(srcPort) && h[2..4] == Be16(destPort) && h[4..8] == Be32(seqNum) && h[8..12] == Be32(ackNum)
      && h[12] == 0x50 && h[13] == flags && h[14..16] == Be16(TCP_WINDOW) && h[18] == 0 && h[19] == 0
  {
  }

  lemma NoUrgency(segment: seq<byte>)
    requires |segment| >= 20 && segment[18] == 0 && segment[19] == 0
    ensures GetBe16(segment, 18) == 0
  {
  }

  /** The pseudo-header is what the packet around the segment says: its addresses, a zero, its protocol and the length
      of its payload. */
  lemma PseudoFromPacket(packet: seq<byte>, src: u32, dest: u32, segment: seq<byte>)
    requires IpFields(packet, src, dest, 6, segment) && |segment| < 0x1_0000
    ensures PseudoHeader(src, dest, |segment|) == packet[12..20] + [0, packet[9]] + Be16(|packet| - 20)
  {
    hide Put32, Get32, InternetChecksum, GetBe16;
    Put32Get32(packet, 12);
    Put32Get32(packet, 16);
    assert packet[12..20] == packet[12..16] + packet[16..20];
  }
}
