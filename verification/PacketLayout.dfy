/** The wire layout of IPv4 packets with TCP or UDP, options included, and decoding as its inverse. */
module PacketLayout {
  import opened Bytes
  import opened Packet

  /** IPv4 header fields (section 3.1 of RFC 791); `middle` is identification, flags and fragment offset. */
  datatype IPFields = IPFields(
    tos: u8, middle: seq<u8>, ttl: u8, sum: seq<u8>, src: IP, dst: IP, options: seq<u8>)

  /** TCP header fields (section 3.1 of RFC 793); `last` is the checksum and the urgent pointer. */
  datatype TCPFields = TCPFields(
    srcPort: u16, dstPort: u16, seqNo: u32, ackNo: u32, reserved: u8, flags: u8, window: u16, last: seq<u8>,
    options: seq<u8>)

  /** UDP header fields (RFC 768); `last` is length and checksum. */
  datatype UDPFields = UDPFields(srcPort: u16, dstPort: u16, last: seq<u8>)

  predicate IsOptions(o: seq<u8>) {
    |o| % 4 == 0 && |o| <= 40
  }

  predicate ValidIP(h: IPFields) {
    |h.middle| == 4 && |h.sum| == 2 && IsOptions(h.options)
  }

  predicate ValidTCP(t: TCPFields) {
    t.reserved < 16 && |t.last| == 4 && IsOptions(t.options)
  }

  function IPBytes(h: IPFields, proto: u8, totalLen: u16): (b: seq<u8>)
    requires ValidIP(h)
    ensures |b| == 20 + |h.options|
  {
    [0x45 + |h.options| / 4, h.tos] + BE16(totalLen) + h.middle + [h.ttl, proto] + h.sum + h.src + h.dst + h.options
  }

  function PortsAndNumbers(t: TCPFields): (b: seq<u8>)
    ensures |b| == 12
  {
    BE16(t.srcPort) + BE16(t.dstPort) + BE32(t.seqNo) + BE32(t.ackNo)
  }

  function OffsetAndFlags(t: TCPFields): (b: seq<u8>)
    requires ValidTCP(t)
    ensures |b| == 8 + |t.options|
  {
    [(5 + |t.options| / 4) * 16 + t.reserved, t.flags] + BE16(t.window) + t.last + t.options
  }

  function TCPBytes(t: TCPFields): (b: seq<u8>)
    requires ValidTCP(t)
    ensures |b| == 20 + |t.options|
  {
    PortsAndNumbers(t) + OffsetAndFlags(t)
  }

  function UDPBytes(u: UDPFields): (b: seq<u8>)
    requires |u.last| == 4
    ensures |b| == 8
  {
    BE16(u.srcPort) + BE16(u.dstPort) + u.last
  }

  lemma IPBytesRead(h: IPFields, proto: u8, totalLen: u16)
    requires ValidIP(h)
    ensures var b := IPBytes(h, proto, totalLen);
      && b[0] / 16 == 4 && b[0] % 16 * 4 == 20 + |h.options| && U16At(b, 2) == totalLen && b[9] == proto
      && b[12..16] == h.src && b[16..20] == h.dst
  {
    hide Word, Hi, Lo;
    var b := IPBytes(h, proto, totalLen);
    ReadBack16(b, 2, totalLen);
  }

  lemma TCPBytesRead(t: TCPFields)
    requires ValidTCP(t)
    ensures var b := TCPBytes(t);
      && U16At(b, 0) == t.srcPort && U16At(b, 2) == t.dstPort && U32At(b, 4) == t.seqNo && U32At(b, 8) == t.ackNo
      && b[12] / 16 * 4 == 20 + |t.options| && b[13] == t.flags && U16At(b, 14) == t.window
  {
    hide Word, Hi, Lo, BE32;
    var b := TCPBytes(t);
    ReadBack16(b, 0, t.srcPort);
    ReadBack16(b, 2, t.dstPort);
    assert b[4..8] == BE32(t.seqNo);
    ReadBack32(b, 4, t.seqNo);
    assert b[8..12] == BE32(t.ackNo);
    ReadBack32(b, 8, t.ackNo);
    ReadBack16(b, 14, t.window);
  }

  lemma UDPBytesRead(u: UDPFields)
    requires |u.last| == 4
    ensures var b := UDPBytes(u); U16At(b, 0) == u.srcPort && U16At(b, 2) == u.dstPort
  {
    hide Word, Hi, Lo;
    var b := UDPBytes(u);
    ReadBack16(b, 0, u.srcPort);
    ReadBack16(b, 2, u.dstPort);
  }

  /** A packet's bytes: IP header, L4 header, payload, and whatever follows the packet. */
  function Joined(ip: seq<u8>, l4: seq<u8>, payload: seq<u8>, trailing: seq<u8>): (b: seq<u8>) {
    ip + l4 + payload + trailing
  }

  lemma SameWords(b: seq<u8>, c: seq<u8>, at: nat)
    requires at + |c| <= |b| && forall i :: 0 <= i < |c| ==> b[at + i] == c[i]
    ensures forall i :: 0 <= i < |c| - 1 ==> U16At(b, at + i) == U16At(c, i)
    ensures forall i :: 0 <= i < |c| - 3 ==> U32At(b, at + i) == U32At(c, i)
  {
    hide Word;
    forall i | 0 <= i < |c| - 1 ensures U16At(b, at + i) == U16At(c, i) {
      assert b[at + i] == c[i] && b[at + (i + 1)] == c[i + 1];
    }
    forall i | 0 <= i < |c| - 3 ensures U32At(b, at + i) == U32At(c, i) {
      assert U16At(b, at + i) == U16At(c, i) && U16At(b, at + (i + 2)) == U16At(c, i + 2);
    }
  }

  function TCPPacket(h: IPFields, t: TCPFields, payload: seq<u8>, trailing: seq<u8>): (b: seq<u8>)
    requires ValidIP(h) && ValidTCP(t) && 40 + |h.options| + |t.options| + |payload| <= 0xffff
  {
    Joined(IPBytes(h, TCP, 40 + |h.options| + |t.options| + |payload|), TCPBytes(t), payload, trailing)
  }

  function UDPPacket(h: IPFields, u: UDPFields, payload: seq<u8>, trailing: seq<u8>): (b: seq<u8>)
    requires ValidIP(h) && |u.last| == 4 && 28 + |h.options| + |payload| <= 0xffff
  {
    Joined(IPBytes(h, UDP, 28 + |h.options| + |payload|), UDPBytes(u), payload, trailing)
  }

  /** The IP header's fields, found in the whole packet. */
  lemma IPHeaderFound(h: IPFields, proto: u8, total: u16, b: seq<u8>)
    requires ValidIP(h) && IPBytes(h, proto, total) <= b
    ensures b[0] / 16 == 4 && b[0] % 16 * 4 == 20 + |h.options| && U16At(b, 2) == total && b[9] == proto
    ensures b[12..16] == h.src && b[16..20] == h.dst
  {
    hide Word, IPBytes;
    IPBytesRead(h, proto, total);
    var ip := IPBytes(h, proto, total);
    assert forall i :: 0 <= i < |ip| ==> b[i] == ip[i];
    assert b[12..16] == ip[12..16] && b[16..20] == ip[16..20];
  }

  lemma TCPHeaderFound(t: TCPFields, b: seq<u8>, at: nat)
    requires ValidTCP(t) && at + 20 + |t.options| <= |b| && b[at..at + 20 + |t.options|] == TCPBytes(t)
    ensures U16At(b, at) == t.srcPort && U16At(b, at + 2) == t.dstPort
    ensures U32At(b, at + 4) == t.seqNo && U32At(b, at + 8) == t.ackNo
    ensures b[at + 12] / 16 * 4 == 20 + |t.options| && b[at + 13] == t.flags && U16At(b, at + 14) == t.window
  {
    hide Word, TCPBytes;
    TCPBytesRead(t);
    var l4 := TCPBytes(t);
    assert forall i :: 0 <= i < |l4| ==> b[at + i] == b[at..at + |l4|][i] == l4[i];
    SameWords(b, l4, at);
    assert U16At(b, at + 0) == U16At(l4, 0);
    hide U16At, U32At;
  }

  lemma JoinedParts(ip: seq<u8>, l4: seq<u8>, payload: seq<u8>, trailing: seq<u8>)
    ensures var b := Joined(ip, l4, payload, trailing); var n := |ip| + |l4| + |payload|;
      && |b| == n + |trailing| && ip <= b && b[|ip|..|ip| + |l4|] == l4 && b[|ip| + |l4|..n] == payload
  {}

  /** Decoding a TCP packet with any IP and TCP options gives its fields and exactly its payload. */
  lemma TCPPacketDecodes(h: IPFields, t: TCPFields, payload: seq<u8>, trailing: seq<u8>)
    requires ValidIP(h) && ValidTCP(t) && 40 + |h.options| + |t.options| + |payload| <= 0xffff
    ensures var b := TCPPacket(h, t, payload, trailing); var ihl := 20 + |h.options|; var off := 20 + |t.options|;
      var p := Parsed(ihl, ihl + off + |payload|, TCP, h.src, h.dst, t.srcPort, t.dstPort, t.seqNo, t.ackNo,
                      t.flags, t.window, off, ihl, ihl + off);
      ParseIPv4(b) == Ok(p) && Payload(b, p) == payload
  {
    hide Word, IPBytes, TCPBytes, Joined;
    var total := 40 + |h.options| + |t.options| + |payload|;
    var ip, l4, b := IPBytes(h, TCP, total), TCPBytes(t), TCPPacket(h, t, payload, trailing);
    JoinedParts(ip, l4, payload, trailing);
    IPHeaderFound(h, TCP, total, b);
    TCPHeaderFound(t, b, |ip|);
    hide U16At, U32At;
  }

  /** The same for UDP after any IP options. */
  lemma UDPPacketDecodes(h: IPFields, u: UDPFields, payload: seq<u8>, trailing: seq<u8>)
    requires ValidIP(h) && |u.last| == 4 && 28 + |h.options| + |payload| <= 0xffff
    ensures var b := UDPPacket(h, u, payload, trailing); var ihl := 20 + |h.options|;
      var p := Parsed(ihl, ihl + 8 + |payload|, UDP, h.src, h.dst, u.srcPort, u.dstPort, 0, 0, 0, 0, 0, ihl, ihl + 8);
      ParseIPv4(b) == Ok(p) && Payload(b, p) == payload
  {
    hide Word, IPBytes, UDPBytes, Joined;
    var total := 28 + |h.options| + |payload|;
    var ip, l4, b := IPBytes(h, UDP, total), UDPBytes(u), UDPPacket(h, u, payload, trailing);
    JoinedParts(ip, l4, payload, trailing);
    IPHeaderFound(h, UDP, total, b);
    UDPBytesRead(u);
    assert forall i :: 0 <= i < |l4| ==> b[|ip| + i] == b[|ip|..|ip| + |l4|][i] == l4[i];
    SameWords(b, l4, |ip|);
    assert U16At(b, |ip| + 0) == u.srcPort;
    hide U16At, U32At;
  }

  // ---------- nothing else is accepted ----------

  lemma WordIsBytes(b: seq<u8>, i: nat)
    requires i + 1 < |b|
    ensures BE16(U16At(b, i)) == b[i..i + 2]
  {
    HiLoWord(b[i], b[i + 1]);
  }

  lemma LongIsBytes(b: seq<u8>, i: nat)
    requires i + 3 < |b|
    ensures BE32(U32At(b, i)) == b[i..i + 4]
  {
    WordIsBytes(b, i);
    WordIsBytes(b, i + 2);
    hide Word, Hi, Lo;
    assert U32At(b, i) / 0x1_0000 == U16At(b, i) && U32At(b, i) % 0x1_0000 == U16At(b, i + 2);
    assert b[i..i + 4] == b[i..i + 2] + b[i + 2..i + 4];
  }

  lemma IPBytesOf(b: seq<u8>, n: nat) returns (h: IPFields)
    requires 20 <= n <= |b| && n == b[0] % 16 * 4 && b[0] / 16 == 4
    ensures ValidIP(h) && n == 20 + |h.options| && IPBytes(h, b[9], U16At(b, 2)) == b[..n]
  {
    h := IPFields(b[1], b[4..8], b[8], b[10..12], b[12..16], b[16..20], b[20..n]);
    VersionNibble(b[0], n);
    IPFrom(b, n, h);
  }

  lemma VersionNibble(x: u8, n: nat)
    requires n == x % 16 * 4 && n >= 20 && x / 16 == 4
    ensures (n - 20) % 4 == 0 && n - 20 <= 40 && x == 0x45 + (n - 20) / 4
  {}

  lemma IPFrom(b: seq<u8>, n: nat, h: IPFields)
    requires 20 <= n <= |b| && ValidIP(h) && b[0] == 0x45 + |h.options| / 4
    requires h == IPFields(b[1], b[4..8], b[8], b[10..12], b[12..16], b[16..20], b[20..n])
    ensures IPBytes(h, b[9], U16At(b, 2)) == b[..n]
  {
    WordIsBytes(b, 2);
    hide Word, BE16, U16At, ValidIP;
  }

  lemma TCPBytesOf(s: seq<u8>) returns (t: TCPFields)
    requires |s| >= 20 && |s| == s[12] / 16 * 4
    ensures ValidTCP(t) && |s| == 20 + |t.options| && TCPBytes(t) == s
  {
    t := TCPFields(U16At(s, 0), U16At(s, 2), U32At(s, 4), U32At(s, 8), s[12] % 16, s[13], U16At(s, 14),
                   s[16..20], s[20..]);
    OffsetNibble(s[12], |s|);
    FrontOf(s, t);
    BackOf(s, t);
    hide PortsAndNumbers, OffsetAndFlags;
    assert s == s[..12] + s[12..];
  }

  lemma OffsetNibble(x: u8, n: nat)
    requires n == x / 16 * 4 && n >= 20
    ensures (n - 20) % 4 == 0 && n - 20 <= 40 && x == (5 + (n - 20) / 4) * 16 + x % 16
  {}

  lemma BackOf(s: seq<u8>, t: TCPFields)
    requires |s| >= 20 && ValidTCP(t) && s[12] == (5 + |t.options| / 4) * 16 + t.reserved && s[13] == t.flags
    requires t.window == U16At(s, 14) && t.last == s[16..20] && t.options == s[20..]
    ensures OffsetAndFlags(t) == s[12..]
  {
    WordIsBytes(s, 14);
    hide Word, BE16, U16At, ValidTCP;
    BackParts(s);
  }

  lemma BackParts(s: seq<u8>)
    requires |s| >= 20
    ensures [s[12], s[13]] + s[14..16] + s[16..20] + s[20..] == s[12..]
  {}

  lemma FrontOf(s: seq<u8>, t: TCPFields)
    requires |s| >= 12 && t.srcPort == U16At(s, 0) && t.dstPort == U16At(s, 2)
    requires t.seqNo == U32At(s, 4) && t.ackNo == U32At(s, 8)
    ensures PortsAndNumbers(t) == s[..12]
  {
    WordIsBytes(s, 0);
    WordIsBytes(s, 2);
    LongIsBytes(s, 4);
    LongIsBytes(s, 8);
    hide Word, BE16, BE32, U16At, U32At;
  }

  lemma UDPBytesOf(s: seq<u8>) returns (u: UDPFields)
    requires |s| == 8
    ensures |u.last| == 4 && UDPBytes(u) == s
  {
    u := UDPFields(U16At(s, 0), U16At(s, 2), s[4..8]);
    WordIsBytes(s, 0);
    WordIsBytes(s, 2);
    hide Word, BE16, U16At;
  }

  ghost predicate IsTCPPacket(b: seq<u8>) {
    exists h: IPFields, t: TCPFields, payload: seq<u8>, trailing: seq<u8> ::
      && ValidIP(h) && ValidTCP(t) && 40 + |h.options| + |t.options| + |payload| <= 0xffff
      && b == TCPPacket(h, t, payload, trailing)
  }

  ghost predicate IsUDPPacket(b: seq<u8>) {
    exists h: IPFields, u: UDPFields, payload: seq<u8>, trailing: seq<u8> ::
      && ValidIP(h) && |u.last| == 4 && 28 + |h.options| + |payload| <= 0xffff
      && b == UDPPacket(h, u, payload, trailing)
  }

  lemma CutInFour(b: seq<u8>, n: nat, m: nat, e: nat)
    requires n <= m <= e <= |b|
    ensures b == Joined(b[..n], b[n..m], b[m..e], b[e..])
  {}

  lemma TCPIsLaidOut(b: seq<u8>, n: nat, m: nat, e: nat)
    requires 20 <= n && n + 20 <= m <= e <= |b| && e == U16At(b, 2)
    requires n == b[0] % 16 * 4 && b[0] / 16 == 4 && b[9] == TCP && m == n + b[n + 12] / 16 * 4
    ensures IsTCPPacket(b)
  {
    hide Word, Joined, IPBytes, TCPBytes;
    var h := IPBytesOf(b, n);
    assert b[n..m][12] == b[n + 12] && |b[n..m]| == m - n;
    var t := TCPBytesOf(b[n..m]);
    CutInFour(b, n, m, e);
    assert |b[m..e]| == e - m;
    assert b == TCPPacket(h, t, b[m..e], b[e..]);
  }

  lemma UDPIsLaidOut(b: seq<u8>, n: nat, e: nat)
    requires 20 <= n && n + 8 <= e <= |b| && e == U16At(b, 2)
    requires n == b[0] % 16 * 4 && b[0] / 16 == 4 && b[9] == UDP
    ensures IsUDPPacket(b)
  {
    hide Word, Joined, IPBytes, UDPBytes;
    var h := IPBytesOf(b, n);
    var u := UDPBytesOf(b[n..n + 8]);
    CutInFour(b, n, n + 8, e);
    assert |b[n + 8..e]| == e - (n + 8);
    assert b == UDPPacket(h, u, b[n + 8..e], b[e..]);
  }

  lemma AcceptedIsLaidOut(b: seq<u8>)
    requires ParseIPv4(b).Ok?
    ensures IsTCPPacket(b) || IsUDPPacket(b)
  {
    hide Word, IsTCPPacket, IsUDPPacket;
    var p := ParseIPv4(b).value;
    if p.proto == TCP {
      TCPIsLaidOut(b, p.headerLen, p.payloadOffset, p.totalLen);
    } else {
      UDPIsLaidOut(b, p.headerLen, p.totalLen);
    }
  }

  /** A packet is accepted exactly when it is laid out as IPv4 with TCP or UDP, options and trailing bytes included. */
  lemma AcceptedIff(b: seq<u8>)
    ensures ParseIPv4(b).Ok? <==> IsTCPPacket(b) || IsUDPPacket(b)
  {
    hide ParseIPv4, TCPPacket, UDPPacket;
    if ParseIPv4(b).Ok? {
      AcceptedIsLaidOut(b);
    }
    if IsTCPPacket(b) {
      var h: IPFields, t: TCPFields, payload, trailing :|
        && ValidIP(h) && ValidTCP(t) && 40 + |h.options| + |t.options| + |payload| <= 0xffff
        && b == TCPPacket(h, t, payload, trailing);
      TCPPacketDecodes(h, t, payload, trailing);
    }
    if IsUDPPacket(b) {
      var h: IPFields, u: UDPFields, payload, trailing :|
        && ValidIP(h) && |u.last| == 4 && 28 + |h.options| + |payload| <= 0xffff
        && b == UDPPacket(h, u, payload, trailing);
      UDPPacketDecodes(h, u, payload, trailing);
    }
  }

  /** A refused packet is refused as unsupported exactly when it is IPv6, or a sound IPv4 header of another protocol. */
  lemma UnsupportedIff(b: seq<u8>)
    ensures ParseIPv4(b) == Err(UnsupportedProto) <==>
      && |b| >= 20
      && (b[0] / 16 == 6
          || (b[0] / 16 == 4 && 20 <= b[0] % 16 * 4 <= U16At(b, 2) <= |b| && b[9] != TCP && b[9] != UDP))
  {
    hide Word;
  }
}
