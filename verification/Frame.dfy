/**
  The raw-socket NTP frames: send_packet fills an Ethernet, IPv4 and UDP header in place and checksums them,
  receive_packet finds the payload again. Fields that the program copies without converting them (addresses, the
  identification and the peer's port) are kept as the bytes in memory.
 */
module Frame {

  import opened Checksum

  /** struct port_info: a port of our own. */
  datatype PortInfo = PortInfo(mac: seq<Byte>, ip: seq<Byte>) {
    predicate Valid() { |mac| == 6 && |ip| == 4 }
  }

  /** struct recvaddr_t: the far end of an exchange. */
  datatype Addr = Addr(mac: seq<Byte>, ip: seq<Byte>, port: seq<Byte>, id: seq<Byte>) {
    predicate Valid() { |mac| == 6 && |ip| == 4 && |port| == 2 && |id| == 2 }
  }

  const BUFFER: nat := 1536

  const HEADERS: nat := 42

  const SHORTEST: nat := 60

  const NTP: seq<Byte> := [0, 123]

  // ---------- the formats ----------

  function Be16(v: nat): (b: seq<Byte>)
    requires v < 0x1_0000
    ensures |b| == 2
  {
    [v / 0x100, v % 0x100]
  }

  function EtherHead(dst: seq<Byte>, src: seq<Byte>): seq<Byte> { dst + src + [8, 0] }

  /** RFC 791, section 3.1, up to the checksum: version 4, five words, no fragments, 64 hops, UDP. */
  function IpFront(len: nat, id: seq<Byte>): (h: seq<Byte>)
    requires len <= BUFFER - HEADERS && |id| == 2
    ensures |h| == 10
  {
    [0x45, 0] + Be16(len + 28) + id + [0, 0, 64, 0x11]
  }

  function IpHead(len: nat, id: seq<Byte>, src: seq<Byte>, dst: seq<Byte>): (h: seq<Byte>)
    requires len <= BUFFER - HEADERS && |id| == 2 && |src| == |dst| == 4
    ensures |h| == 20
  {
    IpFront(len, id) + Internet(IpFront(len, id) + [0, 0] + (src + dst)) + (src + dst)
  }

  /** RFC 768, with the pseudo header that its checksum covers. */
  function Pseudo(len: nat, src: seq<Byte>, dst: seq<Byte>): (h: seq<Byte>)
    requires len <= BUFFER - HEADERS && |src| == |dst| == 4
    ensures |h| == 12
  {
    src + dst + [0, 0x11] + Be16(len + 8)
  }

  function UdpFront(len: nat, port: seq<Byte>): (h: seq<Byte>)
    requires len <= BUFFER - HEADERS && |port| == 2
    ensures |h| == 6
  {
    NTP + port + Be16(len + 8)
  }

  /** What the UDP checksum covers, its own field being zero. */
  function Covered(data: seq<Byte>, port: seq<Byte>, src: seq<Byte>, dst: seq<Byte>): seq<Byte>
    requires |data| <= BUFFER - HEADERS && |port| == 2 && |src| == |dst| == 4
  {
    Pseudo(|data|, src, dst) + (UdpFront(|data|, port) + [0, 0] + data)
  }

  function UdpHead(data: seq<Byte>, port: seq<Byte>, src: seq<Byte>, dst: seq<Byte>): (h: seq<Byte>)
    requires |data| <= BUFFER - HEADERS && |port| == 2 && |src| == |dst| == 4
    ensures |h| == 8
  {
    UdpFront(|data|, port) + Internet(Covered(data, port, src, dst))
  }

  /** The frame that carries data from a port to an address. */
  function Built(data: seq<Byte>, info: PortInfo, to: Addr): (f: seq<Byte>)
    requires |data| <= BUFFER - HEADERS && info.Valid() && to.Valid()
    ensures |f| == HEADERS + |data|
  {
    EtherHead(to.mac, info.mac) + IpHead(|data|, to.id, info.ip, to.ip)
    + (UdpHead(data, to.port, info.ip, to.ip) + data)
  }

  // ---------- send_packet ----------

  /** memcpy and the stores to header fields: more of what starts at base. */
  method Put(buf: array<Byte>, base: nat, at: nat, bytes: seq<Byte>)
    requires base <= at && at + |bytes| <= buf.Length
    modifies buf
    ensures buf[base..at + |bytes|] == old(buf[base..at]) + bytes
    ensures buf[at..at + |bytes|] == bytes
    ensures forall k :: (0 <= k < at || at + |bytes| <= k < buf.Length) ==> buf[k] == old(buf[k])
  {
    forall k | 0 <= k < |bytes| {
      buf[at + k] := bytes[k];
    }
  }

  method WriteEther(buf: array<Byte>, dst: seq<Byte>, src: seq<Byte>)
    requires buf.Length == BUFFER && |dst| == |src| == 6
    modifies buf
    ensures buf[0..14] == EtherHead(dst, src)
    ensures forall k :: 14 <= k < buf.Length ==> buf[k] == old(buf[k])
  {
    Put(buf, 0, 0, dst);
    Put(buf, 0, 6, src);
    Put(buf, 0, 12, [8, 0]);
  }

  method WriteIp(e: Order, buf: array<Byte>, len: nat, id: seq<Byte>, src: seq<Byte>, dst: seq<Byte>)
    requires buf.Length == BUFFER && len <= BUFFER - HEADERS && |id| == 2 && |src| == |dst| == 4
    modifies buf
    ensures buf[14..34] == IpHead(len, id, src, dst)
    ensures forall k :: (0 <= k < 14 || 34 <= k < buf.Length) ==> buf[k] == old(buf[k])
  {
    WriteIpZeroed(buf, len, id, src, dst);
    var c := ChecksumOf(e, buf, 14, 20);
    Fits(e, buf[14..34]);
    AnyOrder(e, buf[14..34]);
    assert buf[14..24] == IpFront(len, id) && buf[26..34] == src + dst;
    Patch(buf, 14, 24, 34, Stored(e, c));
  }

  method WriteIpZeroed(buf: array<Byte>, len: nat, id: seq<Byte>, src: seq<Byte>, dst: seq<Byte>)
    requires buf.Length == BUFFER && len <= BUFFER - HEADERS && |id| == 2 && |src| == |dst| == 4
    modifies buf
    ensures buf[14..34] == IpFront(len, id) + [0, 0] + (src + dst)
    ensures buf[14..24] == IpFront(len, id) && buf[26..34] == src + dst
    ensures forall k :: (0 <= k < 14 || 34 <= k < buf.Length) ==> buf[k] == old(buf[k])
  {
    WriteIpFront(buf, len, id);
    Put(buf, 14, 24, [0, 0]);
    assert buf[14..26] == IpFront(len, id) + [0, 0];
    Put(buf, 26, 26, src);
    Put(buf, 26, 30, dst);
    assert buf[14..26] == IpFront(len, id) + [0, 0] && buf[26..34] == src + dst;
    assert buf[14..34] == buf[14..26] + buf[26..34];
    assert buf[14..24] == buf[14..26][..10];
  }

  method WriteIpFront(buf: array<Byte>, len: nat, id: seq<Byte>)
    requires buf.Length == BUFFER && len <= BUFFER - HEADERS && |id| == 2
    modifies buf
    ensures buf[14..24] == IpFront(len, id)
    ensures forall k :: (0 <= k < 14 || 24 <= k < buf.Length) ==> buf[k] == old(buf[k])
  {
    Put(buf, 14, 14, [0x45, 0]);
    Put(buf, 14, 16, Be16(len + 28));
    Put(buf, 14, 18, id);
    Put(buf, 14, 20, [0, 0, 64, 0x11]);
  }

  method WriteUdp(e: Order, buf: array<Byte>, data: seq<Byte>, port: seq<Byte>, src: seq<Byte>, dst: seq<Byte>)
    requires buf.Length == BUFFER && |data| <= BUFFER - HEADERS && |port| == 2 && |src| == |dst| == 4
    modifies buf
    ensures buf[34..HEADERS + |data|] == UdpHead(data, port, src, dst) + data
    ensures forall k :: (0 <= k < 34 || HEADERS + |data| <= k < buf.Length) ==> buf[k] == old(buf[k])
  {
    Put(buf, 34, 34, NTP);
    Put(buf, 34, 36, port);
    Put(buf, 34, 38, Be16(|data| + 8));
    ghost var front := buf[34..40];
    Put(buf, 34, 40, [0, 0]);
    Put(buf, 34, HEADERS, data);
    assert buf[34..40] == front;
    assert buf[HEADERS..HEADERS + |data|] == data;
    var c := UdpChecksum(e, buf, |data|, src, dst);
    Patch(buf, 34, 40, HEADERS + |data|, Stored(e, c));
  }

  /** The checksum of what the buffer holds from the UDP header on, behind the pseudo header. */
  method UdpChecksum(e: Order, buf: array<Byte>, len: nat, src: seq<Byte>, dst: seq<Byte>) returns (c: Word)
    requires buf.Length == BUFFER && len <= BUFFER - HEADERS && |src| == |dst| == 4
    ensures Stored(e, c) == Internet(Pseudo(len, src, dst) + buf[34..HEADERS + len])
  {
    var pseudo := WritePseudo(len, src, dst);
    var sum := ChecksumSum(e, pseudo, 0, 12, 0);
    ghost var head, body := Pseudo(len, src, dst), buf[34..34 + (len + 8)];
    SumBehind(e, head, body);
    sum := ChecksumSum(e, buf, 34, len + 8, sum);
    c := ChecksumCheck(sum);
    AnyOrder(e, head + body);
  }

  /** The sums of a pseudo header and a datagram, added in 32 bits. */
  lemma SumBehind(e: Order, head: seq<Byte>, body: seq<Byte>)
    requires |head| % 2 == 0 && |head| + |body| <= 131074
    ensures WordSum(e, head) + WordSum(e, body) < WIDTH
    ensures Residue(WordSum(e, head) + WordSum(e, body)) == OnesSum(e, head + body)
  {
    SumConcat(e, head, body);
    Fits(e, head + body);
    SumIsResidue(e, head + body);
  }

  method WritePseudo(len: nat, src: seq<Byte>, dst: seq<Byte>) returns (pseudo: array<Byte>)
    requires len <= BUFFER - HEADERS && |src| == |dst| == 4
    ensures fresh(pseudo) && pseudo.Length == 12 && pseudo[0..12] == Pseudo(len, src, dst)
  {
    pseudo := new Byte[12];
    Put(pseudo, 0, 0, src);
    Put(pseudo, 0, 4, dst);
    Put(pseudo, 0, 8, [0, 0x11]);
    Put(pseudo, 0, 10, Be16(len + 8));
  }

  /** The checksum stored in its field, between what stands before and behind. */
  method Patch(buf: array<Byte>, base: nat, at: nat, end: nat, field: seq<Byte>)
    requires base <= at && at + |field| <= end <= buf.Length
    modifies buf
    ensures buf[base..end] == old(buf[base..at]) + field + old(buf[at + |field|..end])
    ensures forall k :: (0 <= k < at || at + |field| <= k < buf.Length) ==> buf[k] == old(buf[k])
  {
    Put(buf, base, at, field);
    assert buf[base..end] == buf[base..at + |field|] + buf[at + |field|..end];
  }

  /** The header checksum of a built frame verifies at a receiver that follows RFC 791. */
  lemma IpVerifies(len: nat, id: seq<Byte>, src: seq<Byte>, dst: seq<Byte>)
    requires len <= BUFFER - HEADERS && |id| == 2 && |src| == |dst| == 4
    ensures OnesSum(Big, IpHead(len, id, src, dst)) == 0xffff
  {
    var front, back := IpFront(len, id), src + dst;
    InternetVerifies(front, back, front + [0, 0] + back, IpHead(len, id, src, dst));
  }

  /** The datagram of a built frame verifies behind the pseudo header at a receiver that follows RFC 768. */
  lemma UdpVerifies(data: seq<Byte>, port: seq<Byte>, src: seq<Byte>, dst: seq<Byte>)
    requires |data| <= BUFFER - HEADERS && |port| == 2 && |src| == |dst| == 4
    ensures OnesSum(Big, Pseudo(|data|, src, dst) + (UdpHead(data, port, src, dst) + data)) == 0xffff
  {
    var covered := Covered(data, port, src, dst);
    var filled := Pseudo(|data|, src, dst) + (UdpHead(data, port, src, dst) + data);
    BehindPseudo(Pseudo(|data|, src, dst), UdpFront(|data|, port), data, covered, filled);
  }

  lemma BehindPseudo(pseudo: seq<Byte>, udp: seq<Byte>, data: seq<Byte>, covered: seq<Byte>, filled: seq<Byte>)
    requires |pseudo| % 2 == 0 && |udp| % 2 == 0
    requires covered == pseudo + (udp + [0, 0] + data) && filled == pseudo + (udp + Internet(covered) + data)
    ensures OnesSum(Big, filled) == 0xffff
  {
    Regroup(pseudo, udp, [0, 0], data);
    Regroup(pseudo, udp, Internet(covered), data);
    InternetVerifies(pseudo + udp, data, covered, filled);
  }

  lemma Regroup(a: seq<Byte>, b: seq<Byte>, c: seq<Byte>, d: seq<Byte>)
    ensures a + (b + c + d) == (a + b) + c + d
  {
  }

  // ---------- on the wire ----------

  lemma Inside(f: seq<Byte>, a: nat, b: nat, i: nat, j: nat)
    requires a <= b <= |f| && i <= j <= b - a
    ensures f[a + i..a + j] == f[a..b][i..j]
  {
    var part := f[a..b];
    forall k | 0 <= k < j - i ensures f[a + i..a + j][k] == part[i..j][k] {
      assert part[i + k] == f[a + i + k];
    }
  }

  /** Where the fields of a built frame are. */
  lemma FrameFields(data: seq<Byte>, info: PortInfo, to: Addr, f: seq<Byte>)
    requires |data| <= BUFFER - HEADERS && info.Valid() && to.Valid()
    requires HEADERS + |data| <= |f| && f[..HEADERS + |data|] == Built(data, info, to)
    ensures f[0..6] == to.mac && f[6..12] == info.mac && f[12..14] == [8, 0]
    ensures f[14..34] == IpHead(|data|, to.id, info.ip, to.ip)
    ensures f[34..HEADERS] == UdpHead(data, to.port, info.ip, to.ip)
    ensures f[HEADERS..HEADERS + |data|] == data
  {
    var b := Built(data, info, to);
    var ether := EtherHead(to.mac, info.mac);
    var udp := UdpHead(data, to.port, info.ip, to.ip);
    assert forall i, j :: 0 <= i <= j <= |b| ==> f[i..j] == b[i..j];
    assert b[..14] == ether && b[14..34] == IpHead(|data|, to.id, info.ip, to.ip) && b[34..] == udp + data;
    assert b[0..6] == ether[0..6] && b[6..12] == ether[6..12] && b[12..14] == ether[12..14];
    assert b[34..HEADERS] == (udp + data)[..8] && b[HEADERS..] == (udp + data)[8..];
  }

  /** The fields inside the two headers. */
  lemma HeaderFields(data: seq<Byte>, info: PortInfo, to: Addr)
    requires |data| <= BUFFER - HEADERS && info.Valid() && to.Valid()
    ensures var h := IpHead(|data|, to.id, info.ip, to.ip);
      h[0] == 0x45 && h[2..4] == Be16(|data| + 28) && h[4..6] == to.id && h[9] == 0x11
      && h[12..16] == info.ip && h[16..20] == to.ip
    ensures var h := UdpHead(data, to.port, info.ip, to.ip);
      h[0..2] == NTP && h[2..4] == to.port && h[4..6] == Be16(|data| + 8)
  {
  }

  /** Every byte of a sent frame but its two checksums. */
  lemma WireFields(data: seq<Byte>, info: PortInfo, to: Addr, f: seq<Byte>)
    requires |data| <= BUFFER - HEADERS && info.Valid() && to.Valid()
    requires HEADERS + |data| <= |f| && f[..HEADERS + |data|] == Built(data, info, to)
    ensures f[0..6] == to.mac && f[6..12] == info.mac && f[12..14] == [8, 0]
    ensures var n := |data| + 28; f[14..20] == [0x45, 0, n / 256, n % 256] + to.id
    ensures f[20..24] == [0, 0, 64, 17] && f[26..30] == info.ip && f[30..34] == to.ip
    ensures var n := |data| + 8; f[34..40] == [0, 123] + to.port + [n / 256, n % 256]
    ensures f[42..42 + |data|] == data
  {
    FrameFields(data, info, to, f);
    IpFields(|data|, to.id, info.ip, to.ip);
    Inside(f, 14, 34, 0, 6);
    Inside(f, 14, 34, 6, 10);
    Inside(f, 14, 34, 12, 16);
    Inside(f, 14, 34, 16, 20);
    Inside(f, 34, 42, 0, 6);
    UdpFields(data, to.port, info.ip, to.ip);
  }

  lemma UdpFields(data: seq<Byte>, port: seq<Byte>, src: seq<Byte>, dst: seq<Byte>)
    requires |data| <= BUFFER - HEADERS && |port| == 2 && |src| == |dst| == 4
    ensures var n := |data| + 8; UdpHead(data, port, src, dst)[0..6] == [0, 123] + port + [n / 256, n % 256]
  {
    assert UdpHead(data, port, src, dst)[0..6] == UdpFront(|data|, port);
  }

  lemma IpFields(len: nat, id: seq<Byte>, src: seq<Byte>, dst: seq<Byte>)
    requires len <= BUFFER - HEADERS && |id| == 2 && |src| == |dst| == 4
    ensures var h, n := IpHead(len, id, src, dst), len + 28;
      h[0..6] == [0x45, 0, n / 256, n % 256] + id && h[6..10] == [0, 0, 64, 17] && h[12..16] == src && h[16..20] == dst
  {
    var front := IpFront(len, id);
    assert front[0..6] == [0x45, 0, (len + 28) / 256, (len + 28) % 256] + id && front[6..10] == [0, 0, 64, 17];
  }

  /**
    The checksums of a sent frame verify at any receiver: the header's, and the datagram's behind the addresses, the
    protocol and the length that the frame itself shows.
   */
  lemma WireSums(data: seq<Byte>, info: PortInfo, to: Addr, f: seq<Byte>)
    requires |data| <= BUFFER - HEADERS && info.Valid() && to.Valid()
    requires HEADERS + |data| <= |f| && f[..HEADERS + |data|] == Built(data, info, to)
    ensures OnesSum(Big, f[14..34]) == 0xffff && f[23] == 17
    ensures OnesSum(Big, f[26..34] + [0, f[23]] + f[38..40] + f[34..42 + |data|]) == 0xffff
  {
    FrameFields(data, info, to, f);
    IpVerifies(|data|, to.id, info.ip, to.ip);
    UdpVerifies(data, to.port, info.ip, to.ip);
    WireFields(data, info, to, f);
    Inside(f, 20, 24, 3, 4);
    Inside(f, 34, 40, 4, 6);
    assert f[23] == f[20..24][3];
    assert f[26..34] == f[26..30] + f[30..34];
    assert f[38..40] == Be16(|data| + 8);
    assert f[34..42 + |data|] == f[34..42] + f[42..42 + |data|];
    assert f[26..34] + [0, f[23]] + f[38..40] == Pseudo(|data|, info.ip, to.ip);
  }

  method FillFrame(e: Order, buf: array<Byte>, data: seq<Byte>, info: PortInfo, to: Addr)
    requires buf.Length == BUFFER && |data| <= BUFFER - HEADERS && info.Valid() && to.Valid()
    modifies buf
    ensures buf[..HEADERS + |data|] == Built(data, info, to)
    ensures forall k :: HEADERS + |data| <= k < buf.Length ==> buf[k] == old(buf[k])
  {
    WriteEther(buf, to.mac, info.mac);
    WriteIp(e, buf, |data|, to.id, info.ip, to.ip);
    WriteUdp(e, buf, data, to.port, info.ip, to.ip);
    var n := HEADERS + |data|;
    assert buf[..n] == buf[0..14] + buf[14..34] + buf[34..n];
  }

  /** send_packet: the frame, padded to the shortest length with whatever the buffer held, on either kind of host. */
  method SendPacket(e: Order, buf: array<Byte>, data: seq<Byte>, info: PortInfo, to: Addr) returns (sent: seq<Byte>)
    requires buf.Length == BUFFER && |data| <= BUFFER - HEADERS && info.Valid() && to.Valid()
    modifies buf
    ensures |sent| == if 42 + |data| < 60 then 60 else 42 + |data|
    ensures sent[..HEADERS + |data|] == Built(data, info, to)
    ensures sent[HEADERS + |data|..] == old(buf[HEADERS + |data|..|sent|])
    ensures sent[0..6] == to.mac && sent[6..12] == info.mac && sent[12..14] == [8, 0]
    ensures var n := |data| + 28; sent[14..20] == [0x45, 0, n / 256, n % 256] + to.id
    ensures sent[20..24] == [0, 0, 64, 17] && sent[26..30] == info.ip && sent[30..34] == to.ip
    ensures var n := |data| + 8; sent[34..40] == [0, 123] + to.port + [n / 256, n % 256]
    ensures sent[42..42 + |data|] == data
    ensures OnesSum(Big, sent[14..34]) == 0xffff
    ensures OnesSum(Big, sent[26..34] + [0, sent[23]] + sent[38..40] + sent[34..42 + |data|]) == 0xffff
  {
    FillFrame(e, buf, data, info, to);
    var n := HEADERS + |data|;
    sent := buf[..if n < SHORTEST then SHORTEST else n];
    assert sent[..n] == buf[..n];
    WireFields(data, info, to, sent);
    WireSums(data, info, to, sent);
  }

  // ---------- receive_packet ----------

  type Packet = f: seq<Byte> | |f| == BUFFER witness seq(BUFFER, _ => 0)

  /** Where the UDP header of an IPv4 packet stands, options counted. */
  function UdpAt(f: Packet): nat { 14 + 4 * (f[14] % 16) }

  function UdpLen(f: Packet): nat { 0x100 * (f[UdpAt(f) + 4] as int) + f[UdpAt(f) + 5] }

  /** An IPv4 packet with a UDP datagram for our address and the NTP port. */
  predicate ForUs(f: Packet, info: PortInfo) {
    f[12..14] == [8, 0] && f[14] / 16 == 4 && f[14] % 16 >= 5
    && f[30..34] == info.ip && f[23] == 0x11
    && f[UdpAt(f) + 2..UdpAt(f) + 4] == NTP
  }

  /** The sender's address in a packet. */
  function Sender(f: Packet): (a: Addr)
    ensures a.Valid()
  {
    Addr(f[6..12], f[26..30], f[UdpAt(f)..UdpAt(f) + 2], f[18..20])
  }

  /** What a call gives: a value, or a copy that leaves its buffers. */
  datatype Outcome = Returned(value: int) | Overrun

  /** The same by the bytes alone, for a header of five to fifteen words. */
  lemma ForUsIff(f: Packet, info: PortInfo)
    requires info.Valid()
    ensures ForUs(f, info) <==>
      && f[12] == 8 && f[13] == 0 && 0x45 <= f[14] <= 0x4f && f[23] == 17 && f[30..34] == info.ip
      && (var u := 4 * (f[14] - 0x40) + 14; f[u + 2] == 0 && f[u + 3] == 123)
  {
    var u := UdpAt(f);
    assert f[12..14] == [f[12], f[13]] && f[u + 2..u + 4] == [f[u + 2], f[u + 3]];
  }

  /** The copy stays inside both buffers: the length field covers the header and the packet the payload. */
  predicate Copyable(f: Packet) { 8 <= UdpLen(f) && UdpAt(f) + UdpLen(f) <= BUFFER }

  /** receive_packet for what recv left in buf: length is its return value, addr what recvaddr held before. */
  method ReceivePacket(buf: array<Byte>, length: int, buffer: array<Byte>, size: nat, info: PortInfo, addr: Addr)
    returns (r: Outcome, from: Addr)
    requires buf.Length == BUFFER && size <= buffer.Length && buf != buffer && info.Valid()
    modifies buffer
    ensures var f: Packet := buf[..];
      if length <= 0 then r == Returned(length) && from == addr && buffer[..] == old(buffer[..])
      else if !ForUs(f, info) || UdpLen(f) > size then r == Returned(0) && from == addr && buffer[..] == old(buffer[..])
      else if !Copyable(f) then r == Overrun
      else (r == Returned(UdpLen(f) - 8) && from == Sender(f)
        && buffer[..] == f[UdpAt(f) + 8..UdpAt(f) + UdpLen(f)] + old(buffer[UdpLen(f) - 8..]))
  {
    from := addr;
    if length <= 0 { return Returned(length), from; }
    var ours, u := Accepted(buf, info);
    if !ours { return Returned(0), from; }
    var len: nat := 0x100 * (buf[u + 4] as int) + buf[u + 5];
    if len > size { return Returned(0), from; }
    if len < 8 || u + len > BUFFER { return Overrun, from; }
    CopyOut(buf, u + 8, buffer, len - 8);
    from := Addr(buf[6..12], buf[26..30], buf[u..u + 2], buf[18..20]);
    r := Returned(len - 8);
  }

  /** The tests on the headers, in their order; u is where the UDP header stands if they all hold. */
  method Accepted(buf: array<Byte>, info: PortInfo) returns (ours: bool, u: nat)
    requires buf.Length == BUFFER && info.Valid()
    ensures ours == ForUs(buf[..], info) && (ours ==> u == UdpAt(buf[..]))
  {
    if 0x100 * (buf[12] as int) + buf[13] != 0x0800 || buf[14] / 16 != 4 { return false, 0; }
    var ip_hdr_len := buf[14] % 16 * 4;
    if ip_hdr_len < 20 || buf[30..34] != info.ip || buf[23] != 0x11 { return false, 0; }
    u := 14 + ip_hdr_len;
    ours := buf[u + 2..u + 4] == NTP;
  }

  /** memcpy to the front of a buffer. */
  method CopyOut(buf: array<Byte>, at: nat, buffer: array<Byte>, n: nat)
    requires at + n <= buf.Length && n <= buffer.Length && buf != buffer
    modifies buffer
    ensures buffer[..] == buf[at..at + n] + old(buffer[n..])
  {
    ghost var tail := buffer[n..];
    Put(buffer, 0, 0, buf[at..at + n]);
    assert buffer[..n] == buf[at..at + n] && buffer[n..] == tail;
    assert buffer[..] == buffer[..n] + buffer[n..];
  }

  // ---------- both ends ----------

  /** A built frame is for the owner of its destination address if it goes to the NTP port, and its builder sent it. */
  lemma BuiltIsForUs(data: seq<Byte>, info: PortInfo, to: Addr, me: PortInfo, f: Packet)
    requires |data| <= BUFFER - HEADERS && info.Valid() && to.Valid()
    requires f[..HEADERS + |data|] == Built(data, info, to)
    ensures UdpAt(f) == 34 && UdpLen(f) == |data| + 8 && Copyable(f)
    ensures ForUs(f, me) <==> to.ip == me.ip && to.port == NTP
    ensures Sender(f) == Addr(info.mac, info.ip, NTP, to.id)
    ensures f[42..42 + |data|] == data
  {
    FrameFields(data, info, to, f);
    HeaderFields(data, info, to);
    Inside(f, 14, 34, 4, 6);
    Inside(f, 14, 34, 12, 16);
    Inside(f, 14, 34, 16, 20);
    Inside(f, 34, HEADERS, 0, 2);
    Inside(f, 34, HEADERS, 2, 4);
    Inside(f, 34, HEADERS, 4, 6);
    assert f[14] == f[14..34][0] && f[23] == f[14..34][9];
    assert f[38] == f[38..40][0] && f[39] == f[38..40][1];
  }

  /** What recv does with a frame: it fills the front of the buffer. */
  method Deliver(frame: seq<Byte>, buf: array<Byte>) returns (length: nat)
    requires |frame| <= buf.Length
    modifies buf
    ensures length == |frame| && buf[..length] == frame
  {
    Put(buf, 0, 0, frame);
    length := |frame|;
  }

  /** A frame sent from one buffer and received into another. */
  method Carry(e: Order, data: seq<Byte>, info: PortInfo, to: Addr, out: array<Byte>, inn: array<Byte>)
    returns (length: nat)
    requires |data| <= BUFFER - HEADERS && info.Valid() && to.Valid()
    requires out.Length == inn.Length == BUFFER && out != inn
    modifies out, inn
    ensures length > 0 && inn[..][..HEADERS + |data|] == Built(data, info, to)
  {
    var sent := SendPacket(e, out, data, info, to);
    length := Deliver(sent, inn);
    assert inn[..][..HEADERS + |data|] == sent[..HEADERS + |data|];
  }

  /**
    Round trip: whatever the buffers held, the owner of the destination address gets exactly the payload, its length
    and the sender; any other port ignores the frame, and so does a reader whose buffer is too small.
   */
  method Transfer(e: Order, data: seq<Byte>, info: PortInfo, to: Addr, me: PortInfo, out: array<Byte>, inn: array<Byte>,
    buffer: array<Byte>, size: nat, addr: Addr) returns (r: Outcome, from: Addr)
    requires |data| <= BUFFER - HEADERS && info.Valid() && to.Valid() && me.Valid() && size <= buffer.Length
    requires out.Length == inn.Length == BUFFER && buffer != inn && out != inn && out != buffer
    modifies out, inn, buffer
    ensures if to.ip == me.ip && to.port == NTP && |data| + 8 <= size
      then r == Returned(|data|) && from == Addr(info.mac, info.ip, NTP, to.id)
        && buffer[..] == data + old(buffer[|data|..])
      else r == Returned(0) && from == addr && buffer[..] == old(buffer[..])
  {
    var length := Carry(e, data, info, to, out, inn);
    BuiltIsForUs(data, info, to, me, inn[..]);
    r, from := ReceivePacket(inn, length, buffer, size, me, addr);
  }

  /** The answer to any packet goes back to its sender, from our own port. */
  lemma ReplyGoesBack(request: Packet, reply: seq<Byte>, me: PortInfo, f: Packet)
    requires |reply| <= BUFFER - HEADERS && me.Valid()
    requires f[..HEADERS + |reply|] == Built(reply, me, Sender(request))
    ensures f[0..6] == request[6..12] && f[6..12] == me.mac
    ensures f[16..18] == Be16(|reply| + 28) && f[30..34] == request[26..30] && f[26..30] == me.ip
    ensures f[36..38] == request[UdpAt(request)..UdpAt(request) + 2] && f[34..36] == NTP
    ensures f[HEADERS..HEADERS + |reply|] == reply
  {
    FrameFields(reply, me, Sender(request), f);
    HeaderFields(reply, me, Sender(request));
    Inside(f, 14, 34, 2, 4);
    Inside(f, 14, 34, 12, 16);
    Inside(f, 14, 34, 16, 20);
    Inside(f, 34, HEADERS, 0, 2);
    Inside(f, 34, HEADERS, 2, 4);
  }

  /** The checksum of a sent datagram is zero exactly when its sum is 0xffff: it is not replaced as RFC 768 asks. */
  lemma ZeroChecksumIff(data: seq<Byte>, info: PortInfo, to: Addr)
    requires |data| <= BUFFER - HEADERS && info.Valid() && to.Valid()
    ensures UdpHead(data, to.port, info.ip, to.ip)[6..8] == [0, 0]
      <==> WordSum(Big, Covered(data, to.port, info.ip, to.ip)) % 0xffff == 0
  {
    var covered := Covered(data, to.port, info.ip, to.ip);
    ZeroIff(covered);
    assert UdpHead(data, to.port, info.ip, to.ip)[6..8] == Internet(covered);
    var rest := Be16(|data| + 8) + (UdpFront(|data|, to.port) + [0, 0] + data);
    Regroup(info.ip + to.ip, [0, 0x11], Be16(|data| + 8), UdpFront(|data|, to.port) + [0, 0] + data);
    assert covered == (info.ip + to.ip) + ([0, 0x11] + rest);
    SumPositive(info.ip + to.ip, 0x11, rest);
  }

  /** A payload for which it is: the checksum of the rest, for any ports and addresses. */
  lemma ZeroChecksumExample(info: PortInfo, to: Addr)
    requires info.Valid() && to.Valid()
    ensures var data := Internet(Covered([0, 0], to.port, info.ip, to.ip));
      UdpHead(data, to.port, info.ip, to.ip)[6..8] == [0, 0]
  {
    var data := Internet(Covered([0, 0], to.port, info.ip, to.ip));
    var before := Pseudo(2, info.ip, to.ip) + (UdpFront(2, to.port) + [0, 0]);
    BehindField(before, Covered([0, 0], to.port, info.ip, to.ip), Covered(data, to.port, info.ip, to.ip), data);
    assert UdpHead(data, to.port, info.ip, to.ip)[6..8] == Internet(Covered(data, to.port, info.ip, to.ip));
  }

  /** The checksum behind an even number of bytes makes the checksum of all of them zero. */
  lemma BehindField(before: seq<Byte>, zeroed: seq<Byte>, filled: seq<Byte>, data: seq<Byte>)
    requires |before| % 2 == 0 && zeroed == before + [0, 0] && data == Internet(zeroed) && filled == before + data
    ensures Internet(filled) == [0, 0]
  {
    assert zeroed == before + [0, 0] + [] && filled == before + data + [];
    InternetVerifies(before, [], zeroed, filled);
    ZeroIff(filled);
  }

  /** A packet for us with any length field, and anything behind the headers. */
  function PacketFor(me: PortInfo, len: Byte, rest: seq<Byte>): (f: Packet)
    requires me.Valid() && |rest| == BUFFER - HEADERS
  {
    EtherHead(me.mac, me.mac) + (IpFront(0, [0, 0]) + [0, 0]) + ([0, 0, 0, 0] + me.ip) + (NTP + NTP + [0, len, 0, 0])
    + rest
  }

  lemma PacketForIs(me: PortInfo, len: Byte, rest: seq<Byte>)
    requires me.Valid() && |rest| == BUFFER - HEADERS
    ensures var f := PacketFor(me, len, rest);
      ForUs(f, me) && UdpAt(f) == 34 && UdpLen(f) == len && f[HEADERS..] == rest
  {
    var ether, front, addresses := EtherHead(me.mac, me.mac), IpFront(0, [0, 0]) + [0, 0], [0, 0, 0, 0] + me.ip;
    var udp, f := NTP + NTP + [0, len, 0, 0], PacketFor(me, len, rest);
    assert f[..14] == ether && f[14..26] == front;
    assert f[26..34] == addresses && f[34..42] == udp;
    FoundInParts(f, ether, front, addresses, udp);
  }

  lemma FoundInParts(f: Packet, ether: seq<Byte>, front: seq<Byte>, addresses: seq<Byte>, udp: seq<Byte>)
    requires f[..14] == ether && f[14..26] == front && f[26..34] == addresses && f[34..42] == udp
    ensures f[12..14] == ether[12..14] && f[14] == front[0] && f[23] == front[9] && f[30..34] == addresses[4..8]
    ensures f[36..38] == udp[2..4] && f[38] == udp[4] && f[39] == udp[5]
  {
    assert f[12..14] == f[..14][12..14] && f[30..34] == f[26..34][4..8] && f[36..38] == f[34..42][2..4];
  }

  /** A packet for us whose UDP length field says 4. */
  lemma OverrunExample(me: PortInfo)
    requires me.Valid()
    ensures exists f: Packet :: ForUs(f, me) && UdpLen(f) == 4 && !Copyable(f)
  {
    var rest := seq(BUFFER - HEADERS, _ => 0);
    PacketForIs(me, 4, rest);
    assert UdpLen(PacketFor(me, 4, rest)) == 4;
  }

  /** The payload that a packet hands over. */
  function Payload(f: Packet): seq<Byte>
    requires Copyable(f)
  {
    f[UdpAt(f) + 8..UdpAt(f) + UdpLen(f)]
  }

  /** When the datagram ends within the bytes received, nothing behind them matters. */
  lemma OnlyReceivedMatters(f: Packet, g: Packet, length: nat, me: PortInfo)
    requires length <= BUFFER && f[..length] == g[..length]
    requires ForUs(f, me) && Copyable(f) && UdpAt(f) + UdpLen(f) <= length
    ensures ForUs(g, me) && Copyable(g) && UdpAt(g) == UdpAt(f) && UdpLen(g) == UdpLen(f)
    ensures Sender(g) == Sender(f) && Payload(g) == Payload(f)
  {
    assert forall k :: 0 <= k < length ==> f[k] == f[..length][k] == g[..length][k] == g[k];
    var u := UdpAt(f);
    SamePart(f, g, length, 12, 14);
    SamePart(f, g, length, 30, 34);
    SamePart(f, g, length, 6, 12);
    SamePart(f, g, length, 26, 30);
    SamePart(f, g, length, 18, 20);
    SamePart(f, g, length, u, u + 2);
    SamePart(f, g, length, u + 2, u + 4);
    SamePart(f, g, length, u + 8, u + UdpLen(f));
  }

  lemma SamePart(f: Packet, g: Packet, length: nat, i: nat, j: nat)
    requires i <= j <= length <= BUFFER && f[..length] == g[..length]
    ensures f[i..j] == g[i..j]
  {
    assert f[i..j] == f[..length][i..j] && g[i..j] == g[..length][i..j];
  }

  /**
    Options in the header are skipped: with any words of them the datagram behind is the one that is handed over, if
    it ends inside the buffer.
   */
  lemma OptionsSkipped(f: Packet, words: nat, n: nat, me: PortInfo)
    requires me.Valid() && words <= 10 && 42 + 4 * words + n <= BUFFER
    requires f[12..14] == [8, 0] && f[14] == 0x45 + words && f[23] == 17 && f[30..34] == me.ip
    requires f[36 + 4 * words..40 + 4 * words] == [0, 123, (n + 8) / 256, (n + 8) % 256]
    ensures ForUs(f, me) && UdpLen(f) == n + 8 && Copyable(f)
    ensures Payload(f) == f[42 + 4 * words..42 + 4 * words + n]
    ensures Sender(f) == Addr(f[6..12], f[26..30], f[34 + 4 * words..36 + 4 * words], f[18..20])
  {
    var u := 34 + 4 * words;
    assert UdpAt(f) == u;
    var part := f[u + 2..u + 6];
    assert f[u + 2] == part[0] && f[u + 3] == part[1] && f[u + 4] == part[2] && f[u + 5] == part[3];
    assert f[12] == f[12..14][0] && f[13] == f[12..14][1];
    ForUsIff(f, me);
  }

  /** Two packets for us with one length that hand over different bytes. */
  ghost predicate Stale(f: Packet, g: Packet, me: PortInfo) {
    ForUs(f, me) && ForUs(g, me) && UdpLen(f) == UdpLen(g)
    && Copyable(f) && Copyable(g) && Payload(f) != Payload(g)
  }

  /** When it does not, what the buffer held before is handed over: 60 bytes received, a length field of 100. */
  lemma StaleExample(me: PortInfo)
    requires me.Valid()
    ensures exists f: Packet, g: Packet :: f[..60] == g[..60] && Stale(f, g, me) && UdpLen(f) == 100
  {
    var before := seq(18, _ => 0);
    var r, s := before + seq(BUFFER - 60, _ => 0), before + seq(BUFFER - 60, _ => 1);
    PacketForIs(me, 100, r);
    PacketForIs(me, 100, s);
    var f, g := PacketFor(me, 100, r), PacketFor(me, 100, s);
    assert f[..60] == f[..42] + r[..18] && g[..60] == g[..42] + s[..18] && f[..42] == g[..42];
    assert Payload(f)[91] == r[91] == 0 && Payload(g)[91] == s[91] == 1;
    assert f[..60] == g[..60] && Stale(f, g, me) && UdpLen(f) == 100;
  }

  /** With the buffer size that the server passes only a length below 8 can do that. */
  lemma OnlyShortOverruns(f: Packet, me: PortInfo)
    requires ForUs(f, me) && UdpLen(f) <= 256
    ensures Copyable(f) <==> UdpLen(f) >= 8
  {
  }

  /** The protocol number alone makes the sum positive. */
  lemma SumPositive(before: seq<Byte>, x: Byte, rest: seq<Byte>)
    requires |before| % 2 == 0 && x > 0
    ensures WordSum(Big, before + ([0, x] + rest)) > 0
  {
    SumConcat(Big, before, [0, x] + rest);
    assert ([0, x] + rest)[0] == 0 && ([0, x] + rest)[1] == x;
  }
}
