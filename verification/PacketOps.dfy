/** The packet operations as they run: on one byte buffer, in place. */
module PacketOps {
  import opened Bytes
  import opened Checksum
  import opened Packet

  method PutUint16(pkt: array<u8>, i: nat, v: u16)
    requires i + 1 < pkt.Length
    modifies pkt
    ensures pkt[..] == Put16(old(pkt[..]), i, v)
  {
    pkt[i] := v / 256;
    pkt[i + 1] := v % 256;
  }

  method Copy(pkt: array<u8>, i: nat, v: seq<u8>)
    requires i + |v| <= pkt.Length
    modifies pkt
    ensures pkt[..] == PutBytes(old(pkt[..]), i, v)
  {
    var k := 0;
    while k < |v|
      invariant 0 <= k <= |v|
      invariant pkt[..] == PutBytes(old(pkt[..]), i, v[..k])
    {
      pkt[i + k] := v[k];
      k := k + 1;
    }
    assert v[..k] == v;
  }

  method RecalcIPv4Checksum(pkt: array<u8>, headerLen: nat)
    requires 20 <= headerLen <= pkt.Length && headerLen <= 0xffff
    modifies pkt
    ensures pkt[..] == HeaderChecksummed(old(pkt[..]), headerLen)
  {
    hide Put16, Complement, RawSum;
    PutUint16(pkt, 10, 0);
    var sum := ChecksumRaw(pkt, 0, headerLen);
    assert pkt[0..headerLen] == pkt[..][..headerLen];
    var c := OnesComplement(sum);
    PutUint16(pkt, 10, c);
  }

  /** Sums the pseudo-header in a 32-bit accumulator. */
  method PseudoHeaderSum(src: seq<u8>, dst: seq<u8>, proto: u8, l4Len: nat) returns (s: u32)
    requires |src| == 4 && |dst| == 4 && l4Len <= 0xffff
    ensures s == PseudoSum(src, dst, proto, l4Len)
  {
    s := 0;
    s := s + Word(src[0], src[1]);
    s := s + Word(src[2], src[3]);
    s := s + Word(dst[0], dst[1]);
    s := s + Word(dst[2], dst[3]);
    s := s + proto;
    s := s + l4Len;
  }

  /** Pseudo-header plus segment, added without overflowing 32 bits. */
  method L4RawSum(pkt: array<u8>, p: Parsed) returns (sum: u32)
    requires Fits(pkt.Length, p)
    ensures sum == SegmentSum(pkt[..], p)
  {
    hide Word, RawSum, PseudoSum;
    var pseudo := PseudoHeaderSum(pkt[12..16], pkt[16..20], p.proto, p.totalLen - p.headerLen);
    var seg := ChecksumRaw(pkt, p.l4Offset, p.totalLen);
    assert pkt[..][12..16] == pkt[12..16] && pkt[..][16..20] == pkt[16..20];
    assert pkt[..][p.l4Offset..p.totalLen] == pkt[p.l4Offset..p.totalLen];
    sum := pseudo + seg;
  }

  method RecalcL4Checksum(pkt: array<u8>, p: Parsed)
    requires Fits(pkt.Length, p)
    modifies pkt
    ensures pkt[..] == SegmentChecksummed(old(pkt[..]), p)
  {
    hide Put16, Complement, SegmentSum;
    PutUint16(pkt, SumAt(p), 0);
    var sum := L4RawSum(pkt, p);
    var result := OnesComplement(sum);
    if p.proto == UDP && result == 0 {
      result := 0xffff;
    }
    PutUint16(pkt, SumAt(p), result);
  }

  /** Rewrites source address and port in place, then both checksums. */
  method RewriteSource(pkt: array<u8>, p: Parsed, ip: IP, port: u16)
    requires Fits(pkt.Length, p)
    modifies pkt
    ensures pkt[..] == SourceRewritten(old(pkt[..]), p, ip, port)
  {
    hide Put16, PutBytes, HeaderChecksummed, SegmentChecksummed;
    Copy(pkt, 12, ip);
    PutUint16(pkt, p.l4Offset, port);
    RecalcIPv4Checksum(pkt, p.headerLen);
    RecalcL4Checksum(pkt, p);
  }

  /** Rewrites destination address and port in place, then both checksums. */
  method RewriteDest(pkt: array<u8>, p: Parsed, ip: IP, port: u16)
    requires Fits(pkt.Length, p)
    modifies pkt
    ensures pkt[..] == DestRewritten(old(pkt[..]), p, ip, port)
  {
    hide Put16, PutBytes, HeaderChecksummed, SegmentChecksummed;
    Copy(pkt, 16, ip);
    PutUint16(pkt, p.l4Offset + 2, port);
    RecalcIPv4Checksum(pkt, p.headerLen);
    RecalcL4Checksum(pkt, p);
  }

  method PutUint32(pkt: array<u8>, i: nat, v: u32)
    requires i + 3 < pkt.Length
    modifies pkt
    ensures pkt[..] == PutBytes(old(pkt[..]), i, BE32(v))
  {
    PutUint16(pkt, i, v / 0x1_0000);
    PutUint16(pkt, i + 2, v % 0x1_0000);
  }

  /** A fresh zeroed buffer whose first 20 bytes are an IPv4 header. */
  method IPv4Buffer(totalLen: u16, proto: u8, src: IP, dst: IP) returns (pkt: array<u8>)
    requires totalLen >= 28
    ensures fresh(pkt) && pkt[..] == IPHeader(totalLen, proto, src, dst) + seq(totalLen - 20, i => 0)
  {
    hide Hi, Lo;
    pkt := new u8[totalLen](i => 0);
    pkt[0] := 0x45;
    PutUint16(pkt, 2, totalLen);
    pkt[8] := 64;
    pkt[9] := proto;
    Copy(pkt, 12, src);
    Copy(pkt, 16, dst);
  }

  method PutPortsAndNumbers(pkt: array<u8>, s: Segment)
    requires pkt.Length >= 40
    modifies pkt
    ensures pkt[..] == PutBytes(old(pkt[..]), 20, BE16(s.srcPort) + BE16(s.dstPort) + BE32(s.seqNo) + BE32(s.ackNo))
  {
    hide Hi, Lo, BE32;
    PutUint16(pkt, 20, s.srcPort);
    PutUint16(pkt, 22, s.dstPort);
    PutUint32(pkt, 24, s.seqNo);
    PutUint32(pkt, 28, s.ackNo);
  }

  /** Writes the 20-byte TCP header over a zeroed region at offset 20. */
  method PutTCPHeader(pkt: array<u8>, s: Segment)
    requires pkt.Length >= 40 && forall k :: 20 <= k < pkt.Length ==> pkt[k] == 0
    modifies pkt
    ensures pkt[..] == PutBytes(old(pkt[..]), 20, TCPHeader(s))
  {
    hide Hi, Lo, BE32;
    PutPortsAndNumbers(pkt, s);
    pkt[32] := 0x50;
    pkt[33] := s.flags;
    PutUint16(pkt, 34, s.window);
  }

  /** Builds an IPv4+TCP packet; the caller keeps it within 65535 bytes. */
  method BuildTCPPacket(s: Segment) returns (pkt: array<u8>)
    requires |s.payload| + 40 <= 0xffff
    ensures fresh(pkt) && pkt[..] == BuiltTCP(s)
  {
    hide IPHeader, TCPHeader, HeaderChecksummed, SegmentChecksummed;
    var totalLen := 40 + |s.payload|;
    pkt := IPv4Buffer(totalLen, TCP, s.srcIP, s.dstIP);
    PutTCPHeader(pkt, s);
    Copy(pkt, 40, s.payload);
    assert pkt[..] == BareTCP(s);
    RecalcIPv4Checksum(pkt, 20);
    RecalcL4Checksum(pkt, BUILT_TCP.(totalLen := totalLen));
  }

  /** Builds an IPv4+UDP packet; the caller keeps it within 65535 bytes. */
  method BuildUDPPacket(src: IP, dst: IP, srcPort: u16, dstPort: u16, payload: seq<u8>) returns (pkt: array<u8>)
    requires |payload| + 28 <= 0xffff
    ensures fresh(pkt) && pkt[..] == BuiltUDP(src, dst, srcPort, dstPort, payload)
  {
    hide Hi, Lo, HeaderChecksummed, SegmentChecksummed;
    var totalLen := 28 + |payload|;
    pkt := IPv4Buffer(totalLen, UDP, src, dst);
    PutUint16(pkt, 20, srcPort);
    PutUint16(pkt, 22, dstPort);
    PutUint16(pkt, 24, 8 + |payload|);
    Copy(pkt, 28, payload);
    assert pkt[..] == BareUDP(src, dst, srcPort, dstPort, payload);
    RecalcIPv4Checksum(pkt, 20);
    RecalcL4Checksum(pkt, BUILT_UDP.(totalLen := totalLen));
  }
}
