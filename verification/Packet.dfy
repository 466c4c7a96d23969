/** IPv4 with TCP or UDP: decoding, building, and rewriting addresses in place with fresh checksums. */
module Packet {
  import opened Bytes
  import opened Checksum

  const TCP: u8 := 6
  const UDP: u8 := 17
  const FIN: u8 := 0x01
  const SYN: u8 := 0x02
  const RST: u8 := 0x04
  const PSH: u8 := 0x08
  const ACK: u8 := 0x10
  const TCP_WINDOW: u16 := 65535

  datatype Error =
    | InvalidPacket | UnsupportedProto | SSRFBlocked | PortExhausted | ShuttingDown | DialFailed

  datatype Result<+T> = Ok(value: T) | Err(error: Error)

  /** An IPv4 address is four bytes. */
  type IP = s: seq<u8> | |s| == 4 witness [0, 0, 0, 0]

  datatype Parsed = Parsed(
    headerLen: nat, totalLen: nat, proto: u8, srcIP: IP, dstIP: IP,
    srcPort: u16, dstPort: u16,
    tcpSeq: u32, tcpAck: u32, tcpFlags: u8, tcpWindow: u16, tcpDataOff: nat,
    l4Offset: nat, payloadOffset: nat)

  /** True when the flag bit `f` (a power of two) is set in `flags`. */
  predicate Has(flags: u8, f: u8)
    requires f != 0
  {
    flags as int / f as int % 2 == 1
  }

  // ---------- decoding ----------

  /** Decodes an IPv4 packet carrying TCP or UDP; every read is inside `pkt`. */
  function ParseIPv4(pkt: seq<u8>): (r: Result<Parsed>)
    ensures r.Ok? ==> Fits(|pkt|, r.value)
    ensures r.Ok? ==> var p := r.value;
      && p.headerLen + (if p.proto == TCP then 20 else 8) <= p.payloadOffset <= p.totalLen
      && p.srcIP == pkt[12..16] && p.dstIP == pkt[16..20]
  {
    if |pkt| < 20 then Err(InvalidPacket)
    else if pkt[0] / 16 == 6 then Err(UnsupportedProto)
    else if pkt[0] / 16 != 4 then Err(InvalidPacket)
    else
      var ihl := pkt[0] as int % 16 * 4;
      if ihl < 20 || ihl > |pkt| then Err(InvalidPacket)
      else
        var totalLen := U16At(pkt, 2);
        if totalLen < ihl || totalLen > |pkt| then Err(InvalidPacket)
        else if pkt[9] == TCP then
          if totalLen < ihl + 20 then Err(InvalidPacket)
          else
            var dataOff := pkt[ihl + 12] as int / 16 * 4;
            if dataOff < 20 || ihl + dataOff > totalLen then Err(InvalidPacket)
            else Ok(Parsed(ihl, totalLen, TCP, pkt[12..16], pkt[16..20],
                           U16At(pkt, ihl), U16At(pkt, ihl + 2),
                           U32At(pkt, ihl + 4), U32At(pkt, ihl + 8), pkt[ihl + 13], U16At(pkt, ihl + 14), dataOff,
                           ihl, ihl + dataOff))
        else if pkt[9] == UDP then
          if totalLen < ihl + 8 then Err(InvalidPacket)
          else Ok(Parsed(ihl, totalLen, UDP, pkt[12..16], pkt[16..20],
                         U16At(pkt, ihl), U16At(pkt, ihl + 2), 0, 0, 0, 0, 0, ihl, ihl + 8))
        else Err(UnsupportedProto)
  }

  /** The shape the in-place operations rely on: what decoding a packet of `len` bytes guarantees. */
  predicate Fits(len: nat, p: Parsed) {
    && 20 <= p.headerLen <= 60 && p.headerLen % 4 == 0 && p.l4Offset == p.headerLen
    && (p.proto == TCP || p.proto == UDP)
    && p.headerLen + (if p.proto == TCP then 20 else 8) <= p.totalLen <= len
    && p.totalLen <= 0xffff
  }

  /** The L4 payload, empty when the header fills the packet. */
  function Payload(pkt: seq<u8>, p: Parsed): (s: seq<u8>)
    requires p.totalLen <= |pkt|
  {
    if p.payloadOffset >= p.totalLen then [] else pkt[p.payloadOffset..p.totalLen]
  }

  // ---------- checksummed images ----------

  /** The IPv4 header checksum of `b`, whose checksum field is already zero. */
  function HeaderSum(b: seq<u8>, headerLen: nat): (c: u16)
    requires headerLen <= |b|
  {
    Complement(RawSum(b[..headerLen]))
  }

  /** `b` with the IPv4 header checksum stored. */
  function HeaderChecksummed(b: seq<u8>, headerLen: nat): (r: seq<u8>)
    requires 20 <= headerLen <= |b|
    ensures |r| == |b|
  {
    var z := Put16(b, 10, 0);
    Put16(z, 10, HeaderSum(z, headerLen))
  }

  /** Pseudo-header plus segment sum. */
  function SegmentSum(b: seq<u8>, p: Parsed): (s: nat)
    requires Fits(|b|, p)
  {
    PseudoSum(b[12..16], b[16..20], p.proto, p.totalLen - p.headerLen) + RawSum(b[p.l4Offset..p.totalLen])
  }

  /** The L4 checksum of `b`, whose checksum field is already zero; UDP sends 0xffff for zero (RFC 768). */
  function L4Sum(b: seq<u8>, p: Parsed): (c: u16)
    requires Fits(|b|, p)
  {
    var c := Complement(SegmentSum(b, p));
    if p.proto == UDP && c == 0 then 0xffff else c
  }

  /** Where the L4 checksum is stored. */
  function SumAt(p: Parsed): (i: nat)
  {
    p.l4Offset + if p.proto == TCP then 16 else 6
  }

  /** `b` with the L4 checksum stored. */
  function SegmentChecksummed(b: seq<u8>, p: Parsed): (r: seq<u8>)
    requires Fits(|b|, p)
    ensures |r| == |b|
  {
    var z := Put16(b, SumAt(p), 0);
    Put16(z, SumAt(p), L4Sum(z, p))
  }

  function Recalculated(b: seq<u8>, p: Parsed): (r: seq<u8>)
    requires Fits(|b|, p)
    ensures |r| == |b|
  {
    SegmentChecksummed(HeaderChecksummed(b, p.headerLen), p)
  }

  function SourceRewritten(b: seq<u8>, p: Parsed, ip: IP, port: u16): (r: seq<u8>)
    requires Fits(|b|, p)
    ensures |r| == |b|
  {
    Recalculated(Put16(PutBytes(b, 12, ip), p.l4Offset, port), p)
  }

  function DestRewritten(b: seq<u8>, p: Parsed, ip: IP, port: u16): (r: seq<u8>)
    requires Fits(|b|, p)
    ensures |r| == |b|
  {
    Recalculated(Put16(PutBytes(b, 16, ip), p.l4Offset + 2, port), p)
  }

  /** The receiver's test: both one's-complement sums read 0xffff, and UDP carries a checksum. */
  predicate ChecksumsHold(b: seq<u8>, p: Parsed)
    requires Fits(|b|, p)
  {
    && Fold(RawSum(b[..p.headerLen])) == 0xffff
    && Fold(SegmentSum(b, p)) == 0xffff
    && (p.proto == UDP ==> U16At(b, SumAt(p)) != 0)
  }

  /** `a` and `b` agree outside the two checksum fields. */
  ghost predicate SameButSums(a: seq<u8>, b: seq<u8>, p: Parsed) {
    |a| == |b| &&
    forall k :: 0 <= k < |a| && k != 10 && k != 11 && k != SumAt(p) && k != SumAt(p) + 1 ==> a[k] == b[k]
  }

  lemma HeaderSumHolds(b: seq<u8>, headerLen: nat)
    requires 20 <= headerLen <= |b|
    ensures Fold(RawSum(HeaderChecksummed(b, headerLen)[..headerLen])) == 0xffff
  {
    hide Put16, Hi, Lo, Word, RawSum, Fold, Complement;
    var z := Put16(b, 10, 0);
    var h := z[..headerLen];
    var c := HeaderSum(z, headerLen);
    assert Put16(z, 10, c)[..headerLen] == Put16(h, 10, c);
    ReadBack16(h, 10, 0);
    RawSumPut16(h, 10, c);
    ComplementCompletes(RawSum(h));
  }

  lemma SegmentSumHolds(b: seq<u8>, p: Parsed)
    requires Fits(|b|, p)
    ensures var r := SegmentChecksummed(b, p);
      Fold(SegmentSum(r, p)) == 0xffff && (p.proto == UDP ==> U16At(r, SumAt(p)) != 0)
  {
    hide Put16, Hi, Lo, Word, RawSum, Fold, Complement, PseudoSum;
    var z := Put16(b, SumAt(p), 0);
    var seg := z[p.l4Offset..p.totalLen];
    var r := SegmentChecksummed(b, p);
    var c := L4Sum(z, p);
    ReadBack16(r, SumAt(p), c);
    ReadBack16(seg, SumAt(p) - p.l4Offset, 0);
    assert r[p.l4Offset..p.totalLen] == Put16(seg, SumAt(p) - p.l4Offset, c);
    RawSumPut16(seg, SumAt(p) - p.l4Offset, c);
    assert r[12..16] == z[12..16] && r[16..20] == z[16..20];
    ComplementCompletes(SegmentSum(z, p));
  }

  /** Whatever the packet was, recomputing makes both sums verify at the receiver. */
  lemma RecalculatedHolds(b: seq<u8>, p: Parsed)
    requires Fits(|b|, p)
    ensures ChecksumsHold(Recalculated(b, p), p)
    ensures SameButSums(Recalculated(b, p), b, p)
  {
    hide Put16, Hi, Lo, Word, RawSum, Fold, Complement, PseudoSum;
    var h := HeaderChecksummed(b, p.headerLen);
    HeaderSumHolds(b, p.headerLen);
    SegmentSumHolds(h, p);
    assert Recalculated(b, p)[..p.headerLen] == h[..p.headerLen];
  }

  /** Recomputing depends on nothing stored in the checksum fields. */
  lemma RecalculatedForgets(a: seq<u8>, b: seq<u8>, p: Parsed)
    requires Fits(|a|, p) && SameButSums(a, b, p)
    ensures Recalculated(a, p) == Recalculated(b, p)
  {
    hide Put16, Hi, Lo, Word, RawSum, Fold, Complement, PseudoSum;
    var ha, hb := HeaderChecksummed(a, p.headerLen), HeaderChecksummed(b, p.headerLen);
    assert Put16(a, 10, 0)[..p.headerLen] == Put16(b, 10, 0)[..p.headerLen];
    assert Put16(ha, SumAt(p), 0) == Put16(hb, SumAt(p), 0);
  }

  /** Rewriting to any address and back to the original yields the original with fresh checksums. */
  lemma SourceRoundTrip(b: seq<u8>, p: Parsed, ip: IP, port: u16)
    requires ParseIPv4(b) == Ok(p)
    ensures SourceRewritten(SourceRewritten(b, p, ip, port), p, p.srcIP, p.srcPort) == Recalculated(b, p)
    ensures Recalculated(b, p) == b ==>
      SourceRewritten(SourceRewritten(b, p, ip, port), p, p.srcIP, p.srcPort) == b
  {
    hide Put16, Hi, Lo, PutBytes, Word, Recalculated, ChecksumsHold;
    var there := Put16(PutBytes(b, 12, ip), p.l4Offset, port);
    RecalculatedHolds(there, p);
    var back := Put16(PutBytes(Recalculated(there, p), 12, p.srcIP), p.l4Offset, p.srcPort);
    HiLoWord(b[p.l4Offset], b[p.l4Offset + 1]);
    assert SameButSums(back, b, p);
    RecalculatedForgets(back, b, p);
  }

  lemma DestRoundTrip(b: seq<u8>, p: Parsed, ip: IP, port: u16)
    requires ParseIPv4(b) == Ok(p)
    ensures DestRewritten(DestRewritten(b, p, ip, port), p, p.dstIP, p.dstPort) == Recalculated(b, p)
    ensures Recalculated(b, p) == b ==>
      DestRewritten(DestRewritten(b, p, ip, port), p, p.dstIP, p.dstPort) == b
  {
    hide Put16, Hi, Lo, PutBytes, Word, Recalculated, ChecksumsHold;
    var there := Put16(PutBytes(b, 16, ip), p.l4Offset + 2, port);
    RecalculatedHolds(there, p);
    var back := Put16(PutBytes(Recalculated(there, p), 16, p.dstIP), p.l4Offset + 2, p.dstPort);
    HiLoWord(b[p.l4Offset + 2], b[p.l4Offset + 3]);
    assert SameButSums(back, b, p);
    RecalculatedForgets(back, b, p);
  }

  /** `r` is `b` with the address at `ipAt` and the port at `portAt` replaced, checksum fields aside. */
  ghost predicate Readdressed(b: seq<u8>, r: seq<u8>, p: Parsed, ipAt: nat, portAt: nat, ip: IP, port: u16)
    requires Fits(|b|, p) && ipAt + 4 <= 20 <= portAt && portAt + 2 <= p.headerLen + 4
  {
    && |r| == |b| && r[ipAt..ipAt + 4] == ip && U16At(r, portAt) == port
    && (forall k | 0 <= k < |b| && k != 10 && k != 11 && k != SumAt(p) && k != SumAt(p) + 1 ::
          ipAt <= k < ipAt + 4 || k == portAt || k == portAt + 1 || r[k] == b[k])
  }

  lemma ReaddressedSource(b: seq<u8>, r: seq<u8>, p: Parsed, ip: IP, port: u16)
    requires ParseIPv4(b) == Ok(p) && Readdressed(b, r, p, 12, p.l4Offset, ip, port)
    ensures ParseIPv4(r) == Ok(p.(srcIP := ip, srcPort := port))
  {
    hide Word;
    assert r[16..20] == b[16..20];
  }

  lemma ReaddressedDest(b: seq<u8>, r: seq<u8>, p: Parsed, ip: IP, port: u16)
    requires ParseIPv4(b) == Ok(p) && Readdressed(b, r, p, 16, p.l4Offset + 2, ip, port)
    ensures ParseIPv4(r) == Ok(p.(dstIP := ip, dstPort := port))
  {
    hide Word;
    assert r[12..16] == b[12..16];
  }

  /** The rewritten packet decodes to the new source, verifies, and keeps options, payload and trailing bytes. */
  lemma SourceRewrittenParses(b: seq<u8>, p: Parsed, ip: IP, port: u16)
    requires ParseIPv4(b) == Ok(p)
    ensures var r := SourceRewritten(b, p, ip, port);
      && ParseIPv4(r) == Ok(p.(srcIP := ip, srcPort := port))
      && ChecksumsHold(r, p)
      && r[20..p.headerLen] == b[20..p.headerLen]
      && Payload(r, p) == Payload(b, p) && r[p.totalLen..] == b[p.totalLen..]
  {
    hide ParseIPv4, Put16, PutBytes, Hi, Lo, Word, Recalculated, ChecksumsHold;
    var m := Put16(PutBytes(b, 12, ip), p.l4Offset, port);
    RecalculatedHolds(m, p);
    var r := SourceRewritten(b, p, ip, port);
    assert r[12..16] == m[12..16] == ip;
    ReadBack16(r, p.l4Offset, port);
    ReaddressedSource(b, r, p, ip, port);
  }

  lemma DestRewrittenParses(b: seq<u8>, p: Parsed, ip: IP, port: u16)
    requires ParseIPv4(b) == Ok(p)
    ensures var r := DestRewritten(b, p, ip, port);
      && ParseIPv4(r) == Ok(p.(dstIP := ip, dstPort := port))
      && ChecksumsHold(r, p)
      && r[20..p.headerLen] == b[20..p.headerLen]
      && Payload(r, p) == Payload(b, p) && r[p.totalLen..] == b[p.totalLen..]
  {
    hide ParseIPv4, Put16, PutBytes, Hi, Lo, Word, Recalculated, ChecksumsHold;
    var m := Put16(PutBytes(b, 16, ip), p.l4Offset + 2, port);
    RecalculatedHolds(m, p);
    var r := DestRewritten(b, p, ip, port);
    assert r[16..20] == m[16..20] == ip;
    ReadBack16(r, p.l4Offset + 2, port);
    ReaddressedDest(b, r, p, ip, port);
  }

  // ---------- built packets ----------

  const BUILT_TCP: Parsed :=
    Parsed(20, 40, TCP, [0, 0, 0, 0], [0, 0, 0, 0], 0, 0, 0, 0, 0, 0, 20, 20, 40)
  const BUILT_UDP: Parsed :=
    Parsed(20, 28, UDP, [0, 0, 0, 0], [0, 0, 0, 0], 0, 0, 0, 0, 0, 0, 0, 20, 28)

  /** A TCP segment to be built. */
  datatype Segment = Segment(
    srcIP: IP, dstIP: IP, srcPort: u16, dstPort: u16, payload: seq<u8>, flags: u8, seqNo: u32, ackNo: u32, window: u16)

  function IPHeader(totalLen: u16, proto: u8, src: IP, dst: IP): (h: seq<u8>)
    ensures |h| == 20
  {
    [0x45, 0] + BE16(totalLen) + [0, 0, 0, 0, 64, proto, 0, 0] + src + dst
  }

  function TCPHeader(s: Segment): (h: seq<u8>)
    ensures |h| == 20
  {
    BE16(s.srcPort) + BE16(s.dstPort) + BE32(s.seqNo) + BE32(s.ackNo) + [0x50, s.flags] + BE16(s.window) + [0, 0, 0, 0]
  }

  /** Header and payload of a TCP packet, checksums still zero. */
  function BareTCP(s: Segment): (b: seq<u8>)
    requires |s.payload| + 40 <= 0xffff
    ensures |b| == |s.payload| + 40
  {
    IPHeader(40 + |s.payload|, TCP, s.srcIP, s.dstIP) + TCPHeader(s) + s.payload
  }

  function BuiltTCP(s: Segment): (b: seq<u8>)
    requires |s.payload| + 40 <= 0xffff
    ensures |b| == |s.payload| + 40
  {
    Recalculated(BareTCP(s), BUILT_TCP.(totalLen := 40 + |s.payload|))
  }

  function BareUDP(src: IP, dst: IP, srcPort: u16, dstPort: u16, payload: seq<u8>): (b: seq<u8>)
    requires |payload| + 28 <= 0xffff
    ensures |b| == |payload| + 28
  {
    IPHeader(28 + |payload|, UDP, src, dst)
    + (BE16(srcPort) + BE16(dstPort) + BE16(8 + |payload|) + [0, 0])
    + payload
  }

  function BuiltUDP(src: IP, dst: IP, srcPort: u16, dstPort: u16, payload: seq<u8>): (b: seq<u8>)
    requires |payload| + 28 <= 0xffff
    ensures |b| == |payload| + 28
  {
    Recalculated(BareUDP(src, dst, srcPort, dstPort, payload), BUILT_UDP.(totalLen := 28 + |payload|))
  }

  /** The bytes of `b` outside the checksum fields are those of a TCP packet carrying `s`. */
  ghost predicate CarriesTCP(b: seq<u8>, s: Segment) {
    && |b| == |s.payload| + 40 && |b| <= 0xffff
    && b[0] == 0x45 && b[9] == TCP && b[32] == 0x50 && b[33] == s.flags
    && U16At(b, 2) == |b| && b[12..16] == s.srcIP && b[16..20] == s.dstIP
    && U16At(b, 20) == s.srcPort && U16At(b, 22) == s.dstPort
    && U32At(b, 24) == s.seqNo && U32At(b, 28) == s.ackNo && U16At(b, 34) == s.window
    && b[40..] == s.payload
  }

  ghost predicate CarriesUDP(b: seq<u8>, src: IP, dst: IP, srcPort: u16, dstPort: u16, payload: seq<u8>) {
    && |b| == |payload| + 28 && |b| <= 0xffff
    && b[0] == 0x45 && b[9] == UDP
    && U16At(b, 2) == |b| && b[12..16] == src && b[16..20] == dst
    && U16At(b, 20) == srcPort && U16At(b, 22) == dstPort && U16At(b, 24) == 8 + |payload|
    && b[28..] == payload
  }

  lemma BareTCPCarries(s: Segment)
    requires |s.payload| + 40 <= 0xffff
    ensures CarriesTCP(BareTCP(s), s)
  {
    hide Word, BE32, Hi, Lo;
    var b := BareTCP(s);
    ReadBack16(b, 2, |b|);
    ReadBack16(b, 20, s.srcPort);
    ReadBack16(b, 22, s.dstPort);
    assert b[24..28] == BE32(s.seqNo);
    ReadBack32(b, 24, s.seqNo);
    assert b[28..32] == BE32(s.ackNo);
    ReadBack32(b, 28, s.ackNo);
    ReadBack16(b, 34, s.window);
  }

  lemma BareUDPCarries(src: IP, dst: IP, srcPort: u16, dstPort: u16, payload: seq<u8>)
    requires |payload| + 28 <= 0xffff
    ensures CarriesUDP(BareUDP(src, dst, srcPort, dstPort, payload), src, dst, srcPort, dstPort, payload)
  {
    hide Word, Hi, Lo;
    var b := BareUDP(src, dst, srcPort, dstPort, payload);
    ReadBack16(b, 2, |b|);
    ReadBack16(b, 20, srcPort);
    ReadBack16(b, 22, dstPort);
    ReadBack16(b, 24, 8 + |payload|);
  }

  /** The bytes decoding does not return: type of service, identification, fragment, time to live, urgent pointer. */
  lemma BuiltTCPConstants(s: Segment)
    requires |s.payload| + 40 <= 0xffff
    ensures var b := BuiltTCP(s);
      b[0] == 0x45 && b[1] == 0 && b[4..10] == [0, 0, 0, 0, 64, 6] && b[32] == 0x50 && b[38..40] == [0, 0]
  {
    hide Word, Hi, Lo, BE32, Recalculated;
    var bare := BareTCP(s);
    RecalculatedHolds(bare, BUILT_TCP.(totalLen := 40 + |s.payload|));
    assert bare[4] == 0 && bare[5] == 0 && bare[6] == 0 && bare[7] == 0 && bare[8] == 64 && bare[9] == 6;
    assert bare[32] == 0x50 && bare[38] == 0 && bare[39] == 0;
  }

  lemma BuiltUDPConstants(src: IP, dst: IP, srcPort: u16, dstPort: u16, payload: seq<u8>)
    requires |payload| + 28 <= 0xffff
    ensures var b := BuiltUDP(src, dst, srcPort, dstPort, payload);
      b[0] == 0x45 && b[1] == 0 && b[4..10] == [0, 0, 0, 0, 64, 17]
  {
    hide Word, Hi, Lo, Recalculated;
    var bare := BareUDP(src, dst, srcPort, dstPort, payload);
    RecalculatedHolds(bare, BUILT_UDP.(totalLen := 28 + |payload|));
    assert bare[4] == 0 && bare[5] == 0 && bare[6] == 0 && bare[7] == 0 && bare[8] == 64 && bare[9] == 17;
  }

  /** Decoding a built TCP packet gives back every field and the payload, with valid checksums. */
  lemma ParseBuiltTCP(s: Segment)
    requires |s.payload| + 40 <= 0xffff
    ensures var b := BuiltTCP(s); var p := Parsed(20, |b|, TCP, s.srcIP, s.dstIP, s.srcPort, s.dstPort,
                                                  s.seqNo, s.ackNo, s.flags, s.window, 20, 20, 40);
      ParseIPv4(b) == Ok(p) && Payload(b, p) == s.payload && ChecksumsHold(b, p)
  {
    hide Word, BareTCP, Recalculated, ChecksumsHold;
    BareTCPCarries(s);
    RecalculatedHolds(BareTCP(s), BUILT_TCP.(totalLen := 40 + |s.payload|));
    var b := BuiltTCP(s);
    assert CarriesTCP(b, s);
    var p := BUILT_TCP.(totalLen := 40 + |s.payload|);
    SumsDependOnShape(b, p, ParseIPv4(b).value);
  }

  lemma ParseBuiltUDP(src: IP, dst: IP, srcPort: u16, dstPort: u16, payload: seq<u8>)
    requires |payload| + 28 <= 0xffff
    ensures var b := BuiltUDP(src, dst, srcPort, dstPort, payload);
      var p := Parsed(20, |b|, UDP, src, dst, srcPort, dstPort, 0, 0, 0, 0, 0, 20, 28);
      && ParseIPv4(b) == Ok(p) && Payload(b, p) == payload && ChecksumsHold(b, p)
      && U16At(b, 24) == 8 + |payload|
  {
    hide Word, BareUDP, Recalculated, ChecksumsHold;
    var p := BUILT_UDP.(totalLen := 28 + |payload|);
    BareUDPCarries(src, dst, srcPort, dstPort, payload);
    RecalculatedHolds(BareUDP(src, dst, srcPort, dstPort, payload), p);
    var b := BuiltUDP(src, dst, srcPort, dstPort, payload);
    assert CarriesUDP(b, src, dst, srcPort, dstPort, payload);
    SumsDependOnShape(b, p, ParseIPv4(b).value);
  }

  /** The checksum test looks only at the shape of the decoded header. */
  lemma SumsDependOnShape(b: seq<u8>, p: Parsed, q: Parsed)
    requires Fits(|b|, p) && ChecksumsHold(b, p)
    requires q.headerLen == p.headerLen && q.totalLen == p.totalLen && q.proto == p.proto && q.l4Offset == p.l4Offset
    ensures ChecksumsHold(b, q)
  {}
}
