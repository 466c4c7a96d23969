/** From the destination's bytes to the client: spliced, built into packets, framed, decoded and parsed again. */
module ReversePath {
  import opened Bytes
  import opened Packet
  import opened TcpSplice
  import Framing

  const MAX_UDP_PAYLOAD: nat := 1392

  /** Addresses of a flow as the client sees it; packets to the client carry them swapped. */
  datatype Endpoints = Endpoints(srcIP: IP, dstIP: IP, srcPort: u16, dstPort: u16)

  function Flags(kind: Kind): (f: u8) {
    match kind
    case SynAck => 0x12
    case PureAck => 0x10
    case Data => 0x18
    case FinAck => 0x11
    case Fin => 0x11
  }

  lemma FlagsMean(kind: Kind)
    ensures Has(Flags(kind), ACK)
    ensures Has(Flags(kind), SYN) <==> kind == SynAck
    ensures Has(Flags(kind), FIN) <==> kind == FinAck || kind == Fin
    ensures Has(Flags(kind), PSH) <==> kind == Data
    ensures !Has(Flags(kind), RST)
  {}

  function SegmentOf(e: Endpoints, o: Out): (s: Segment) {
    Segment(e.dstIP, e.srcIP, e.dstPort, e.srcPort, o.payload, Flags(o.kind), o.stamp.seqNo, o.stamp.ackNo,
            TCP_WINDOW)
  }

  /** Within the read buffer's size. */
  predicate Small(o: Out) {
    |o.payload| <= MAX_TCP_PAYLOAD
  }

  function PacketOf(e: Endpoints, o: Out): (b: seq<u8>)
    requires Small(o)
  {
    BuiltTCP(SegmentOf(e, o))
  }

  function Packets(e: Endpoints, sent: seq<Out>): (r: seq<seq<u8>>)
    requires forall o :: o in sent ==> Small(o)
  {
    if sent == [] then [] else [PacketOf(e, sent[0])] + Packets(e, sent[1..])
  }

  /** The payload of a received packet, as the client's stack extracts it. */
  function Extract(pkt: seq<u8>): (b: seq<u8>) {
    var r := ParseIPv4(pkt);
    if r.Err? then [] else Payload(pkt, r.value)
  }

  function Reassemble(pkts: seq<seq<u8>>): (b: seq<u8>) {
    if pkts == [] then [] else Extract(pkts[0]) + Reassemble(pkts[1..])
  }

  /** Every TCP packet the read loop builds fits one frame, so none is dropped for its size. */
  lemma {:induction false} PacketsFit(e: Endpoints, sent: seq<Out>)
    requires forall o :: o in sent ==> Small(o)
    ensures var ps := Packets(e, sent);
      && [] !in ps && Framing.Fitting(ps) == ps && |ps| == |sent|
      && forall i :: 0 <= i < |sent| ==> ps[i] == PacketOf(e, sent[i])
  {
    hide BuiltTCP;
    if sent != [] {
      PacketsFit(e, sent[1..]);
      assert |PacketOf(e, sent[0])| <= Framing.MAX_FRAME;
    }
  }

  /** The same for UDP, whose read buffer is 1392 bytes. */
  lemma UdpPacketFits(src: IP, dst: IP, srcPort: u16, dstPort: u16, payload: seq<u8>)
    requires |payload| <= MAX_UDP_PAYLOAD
    ensures var b := BuiltUDP(src, dst, srcPort, dstPort, payload);
      && Framing.Decode(Framing.Stream([b])) == Framing.Decoded([b], Framing.EndOfStream)
      && Extract(b) == payload
  {
    ParseBuiltUDP(src, dst, srcPort, dstPort, payload);
    hide BuiltUDP, ParseIPv4, Payload, ChecksumsHold;
    var b := BuiltUDP(src, dst, srcPort, dstPort, payload);
    var none: seq<seq<u8>> := [];
    assert [b][1..] == none;
    Framing.RoundTrip([b]);
    assert Framing.Fitting([b]) == [b];
  }

  lemma {:induction false} DataBytesFront(o: Out, rest: seq<Out>)
    ensures DataBytes([o] + rest) == (if o.kind == Data then o.payload else []) + DataBytes(rest)
    decreases |rest|
  {
    var s := [o] + rest;
    if rest == [] {
      assert s == [] + [o];
      AppendData([], o);
    } else {
      var n := |rest| - 1;
      assert s[..|s| - 1] == [o] + rest[..n];
      DataBytesFront(o, rest[..n]);
    }
  }

  lemma {:induction false} ReassemblePackets(e: Endpoints, sent: seq<Out>)
    requires forall o :: o in sent ==> Small(o) && (o.kind != Data ==> o.payload == [])
    ensures Reassemble(Packets(e, sent)) == DataBytes(sent)
  {
    hide PacketOf, Extract, DataBytes;
    if sent == [] {
      NoData();
    } else {
      ReassemblePackets(e, sent[1..]);
      ExtractPacket(e, sent[0]);
      DataBytesFront(sent[0], sent[1..]);
      assert [sent[0]] + sent[1..] == sent;
      assert Packets(e, sent)[1..] == Packets(e, sent[1..]);
    }
  }

  lemma NoData()
    ensures DataBytes([]) == []
  {}

  /** What the client reads off a packet: addresses swapped back, both numbers, and the flags of its kind. */
  lemma PacketMeans(e: Endpoints, o: Out)
    requires Small(o)
    ensures var r := ParseIPv4(PacketOf(e, o));
      && r.Ok? && r.value.srcIP == e.dstIP && r.value.dstIP == e.srcIP
      && r.value.srcPort == e.dstPort && r.value.dstPort == e.srcPort
      && r.value.tcpSeq == o.stamp.seqNo && r.value.tcpAck == o.stamp.ackNo
      && Has(r.value.tcpFlags, ACK) && !Has(r.value.tcpFlags, RST)
      && (Has(r.value.tcpFlags, SYN) <==> o.kind == SynAck)
      && (Has(r.value.tcpFlags, FIN) <==> o.kind == FinAck || o.kind == Fin)
      && (Has(r.value.tcpFlags, PSH) <==> o.kind == Data)
  {
    FlagsMean(o.kind);
    ParseBuiltTCP(SegmentOf(e, o));
    hide BuiltTCP, ParseIPv4, Payload, ChecksumsHold, Has, Flags;
  }

  lemma ExtractPacket(e: Endpoints, o: Out)
    requires Small(o)
    ensures Extract(PacketOf(e, o)) == o.payload
  {
    ParseBuiltTCP(SegmentOf(e, o));
    hide BuiltTCP, ParseIPv4, Payload, ChecksumsHold;
  }

  // ---------- the client's side ----------

  /**
   * A client that takes what comes in order: the next number it expects, whether a FIN has ended the stream, and the
   * bytes it has got. A packet with another number is dropped, and nothing counts after a FIN.
   */
  datatype Receiver = Receiver(next: u32, finished: bool, got: seq<u8>)

  function Accept(r: Receiver, p: Parsed, payload: seq<u8>): (q: Receiver) {
    if Has(p.tcpFlags, SYN) then Receiver(Add32(p.tcpSeq, 1), false, [])
    else if r.finished || p.tcpSeq != r.next then r
    else if Has(p.tcpFlags, FIN) then r.(finished := true)
    else r.(got := r.got + payload, next := Add32(r.next, |payload|))
  }

  /** The client after these packets. */
  function AcceptAll(pkts: seq<seq<u8>>): (r: Receiver) {
    if pkts == [] then Receiver(0, false, [])
    else
      var r, pkt := AcceptAll(pkts[..|pkts| - 1]), pkts[|pkts| - 1];
      var parsed := ParseIPv4(pkt);
      if parsed.Err? then r else Accept(r, parsed.value, Payload(pkt, parsed.value))
  }

  predicate IsFin(o: Out) {
    o.kind == FinAck || o.kind == Fin
  }

  /** A FIN among `sent` carries the number right after the data sent before it. */
  predicate Finished(isn: u32, sent: seq<Out>) {
    sent != [] &&
    var n := |sent| - 1;
    Finished(isn, sent[..n]) || (IsFin(sent[n]) && sent[n].stamp.seqNo == SeqOf(isn, |DataBytes(sent[..n])|))
  }

  /** The data sent before the first such FIN. */
  function BeforeFin(isn: u32, sent: seq<Out>): (b: seq<u8>) {
    if sent == [] then []
    else if Finished(isn, sent[..|sent| - 1]) then BeforeFin(isn, sent[..|sent| - 1])
    else DataBytes(sent)
  }

  /** What the splice guarantees of the packets it sends, as far as the client's stack looks at them. */
  ghost predicate SequencedAt(isn: u32, sent: seq<Out>, i: nat)
    requires i < |sent|
  {
    var o := sent[i];
    && Small(o) && (o.kind == SynAck <==> i == 0) && (o.kind == SynAck ==> o.stamp.seqNo == isn)
    && (o.kind == Data ==> o.stamp.seqNo == SeqOf(isn, |DataBytes(sent[..i])|))
    && (o.kind != Data ==> o.payload == [])
  }

  ghost predicate Sequenced(isn: u32, sent: seq<Out>) {
    forall i :: 0 <= i < |sent| ==> SequencedAt(isn, sent, i)
  }

  lemma {:induction false} PacketsAppend(e: Endpoints, sent: seq<Out>, o: Out)
    requires (forall p :: p in sent ==> Small(p)) && Small(o)
    ensures forall p :: p in sent + [o] ==> Small(p)
    ensures Packets(e, sent + [o]) == Packets(e, sent) + [PacketOf(e, o)]
  {
    hide PacketOf, Small;
    if sent == [] {
      assert sent + [o] == [o] && [o][1..] == [];
    } else {
      assert (sent + [o])[1..] == sent[1..] + [o];
      PacketsAppend(e, sent[1..], o);
    }
  }

  /** What accepting a packet amounts to. */
  function AcceptOut(r: Receiver, o: Out): (q: Receiver) {
    if o.kind == SynAck then Receiver(Add32(o.stamp.seqNo, 1), false, [])
    else if r.finished || o.stamp.seqNo != r.next then r
    else if IsFin(o) then r.(finished := true)
    else r.(got := r.got + o.payload, next := Add32(r.next, |o.payload|))
  }

  function AcceptOuts(sent: seq<Out>): (r: Receiver) {
    if sent == [] then Receiver(0, false, []) else AcceptOut(AcceptOuts(sent[..|sent| - 1]), sent[|sent| - 1])
  }

  lemma AcceptPacket(e: Endpoints, o: Out, r: Receiver)
    requires Small(o)
    ensures var p := ParseIPv4(PacketOf(e, o));
      p.Ok? && Accept(r, p.value, Payload(PacketOf(e, o), p.value)) == AcceptOut(r, o)
  {
    PacketMeans(e, o);
    ExtractPacket(e, o);
    hide ParseIPv4, PacketOf, Payload, Has, Add32;
  }

  lemma {:induction false} AcceptPackets(e: Endpoints, sent: seq<Out>)
    requires forall o :: o in sent ==> Small(o)
    ensures AcceptAll(Packets(e, sent)) == AcceptOuts(sent)
    decreases |sent|
  {
    hide PacketOf, ParseIPv4, Payload, Small, Accept, AcceptOut;
    if sent != [] {
      var o, init := sent[|sent| - 1], sent[..|sent| - 1];
      assert sent == init + [o] && o in sent && forall p :: p in init ==> p in sent;
      PacketsAppend(e, init, o);
      hide Packets;
      var ps := Packets(e, sent);
      assert ps[..|ps| - 1] == Packets(e, init) && ps[|ps| - 1] == PacketOf(e, o);
      AcceptPackets(e, init);
      AcceptPacket(e, o, AcceptOuts(init));
    }
  }

  /** The client has got exactly the data sent before the first FIN in order, and expects the number after it. */
  predicate Gets(isn: u32, sent: seq<Out>, r: Receiver) {
    && r.got == BeforeFin(isn, sent) && r.finished == Finished(isn, sent)
    && (!r.finished ==> r.got == DataBytes(sent) && r.next == SeqOf(isn, |r.got|))
  }

  lemma AppendFin(isn: u32, sent: seq<Out>, o: Out)
    ensures Finished(isn, sent + [o]) ==
      (Finished(isn, sent) || (IsFin(o) && o.stamp.seqNo == SeqOf(isn, |DataBytes(sent)|)))
    ensures BeforeFin(isn, sent + [o]) == if Finished(isn, sent) then BeforeFin(isn, sent) else DataBytes(sent + [o])
  {
    hide SeqOf, DataBytes, IsFin;
    var all := sent + [o];
    assert all[..|all| - 1] == sent && all[|all| - 1] == o;
  }

  lemma NothingSent(isn: u32)
    ensures !Finished(isn, []) && DataBytes([]) == []
  {}

  lemma GetsFirst(isn: u32, o: Out, r: Receiver)
    requires o.kind == SynAck && o.stamp.seqNo == isn
    ensures Gets(isn, [o], AcceptOut(r, o))
  {
    NothingSent(isn);
    AppendFin(isn, [], o);
    AppendData([], o);
    FirstNumber(isn);
    hide SeqOf, Add32, DataBytes, Finished, BeforeFin;
    assert [] + [o] == [o];
  }

  lemma GetsNext(isn: u32, sent: seq<Out>, o: Out, r: Receiver)
    requires Gets(isn, sent, r) && o.kind != SynAck
    requires o.kind == Data ==> o.stamp.seqNo == SeqOf(isn, |DataBytes(sent)|)
    requires o.kind != Data ==> o.payload == []
    ensures Gets(isn, sent + [o], AcceptOut(r, o))
  {
    AppendFin(isn, sent, o);
    AppendData(sent, o);
    SeqOfAdd(isn, |r.got|, |o.payload|);
    AddNothing(SeqOf(isn, |r.got|));
    hide SeqOf, Add32, DataBytes, Finished, BeforeFin;
    assert DataBytes(sent) + [] == DataBytes(sent) && r.got + [] == r.got;
  }

  lemma AddNothing(s: u32)
    ensures Add32(s, 0) == s
  {}

  lemma {:induction false} ClientGets(isn: u32, sent: seq<Out>)
    requires Sequenced(isn, sent) && sent != []
    ensures Gets(isn, sent, AcceptOuts(sent))
    decreases |sent|
  {
    hide SeqOf, Gets, AcceptOut, DataBytes, Small;
    var n := |sent| - 1;
    var o, init := sent[n], sent[..n];
    assert sent == init + [o] && SequencedAt(isn, sent, n);
    if n == 0 {
      assert sent == [o];
      GetsFirst(isn, o, AcceptOuts(init));
    } else {
      SequencedFront(isn, sent);
      ClientGets(isn, init);
      GetsNext(isn, init, o, AcceptOuts(init));
    }
  }

  lemma FirstNumber(isn: u32)
    ensures Add32(isn, 1) == SeqOf(isn, 0)
  {}

  lemma SequencedFront(isn: u32, sent: seq<Out>)
    requires Sequenced(isn, sent) && sent != []
    ensures Sequenced(isn, sent[..|sent| - 1])
  {
    hide SeqOf, Small;
    var init := sent[..|sent| - 1];
    forall i | 0 <= i < |init| ensures SequencedAt(isn, init, i) {
      assert SequencedAt(isn, sent, i) && init[i] == sent[i] && init[..i] == sent[..i];
    }
  }

  /** Data follows a FIN in order. */
  predicate DataAfterFin(isn: u32, sent: seq<Out>) {
    sent != [] &&
    var n := |sent| - 1;
    DataAfterFin(isn, sent[..n]) || (Finished(isn, sent[..n]) && sent[n].kind == Data)
  }

  lemma {:induction false} LostIffAfterFin(isn: u32, sent: seq<Out>)
    requires forall o :: o in sent && o.kind == Data ==> o.payload != []
    ensures |BeforeFin(isn, sent)| <= |DataBytes(sent)|
    ensures BeforeFin(isn, sent) == DataBytes(sent) <==> !DataAfterFin(isn, sent)
    decreases |sent|
  {
    if sent != [] {
      var n := |sent| - 1;
      hide SeqOf;
      LostIffAfterFin(isn, sent[..n]);
      assert sent == sent[..n] + [sent[n]];
      AppendData(sent[..n], sent[n]);
      assert DataBytes(sent[..n]) + [] == DataBytes(sent[..n]);
      if !Finished(isn, sent[..n]) {
        NoneAfter(isn, sent[..n]);
      }
    }
  }

  lemma {:induction false} NoneAfter(isn: u32, sent: seq<Out>)
    requires !Finished(isn, sent)
    ensures !DataAfterFin(isn, sent)
    decreases |sent|
  {
    hide SeqOf;
    if sent != [] {
      NoneAfter(isn, sent[..|sent| - 1]);
    }
  }

  /**
   * End to end: whatever the client sends and for every interleaving of the splice, the frames the relay writes
   * decode to exactly the packets it built; a client that takes them in order by their numbers gets what was read
   * from the destination up to the first FIN in order, and all of it that was sent exactly when no data follows one.
   */
  lemma ClientReassembles(clientISN: u32, relayISN: u32, acts: seq<Act>, e: Endpoints)
    ensures var c := Run(Opened(clientISN, relayISN), acts);
      && (forall o :: o in c.sent ==> Small(o))
      && Framing.Decode(Framing.Stream(Packets(e, c.sent))) == Framing.Decoded(Packets(e, c.sent), Framing.EndOfStream)
      && Reassemble(Framing.Decode(Framing.Stream(Packets(e, c.sent))).pkts) + InFlight(c) == c.read
      && var got := AcceptAll(Framing.Decode(Framing.Stream(Packets(e, c.sent))).pkts).got;
      && got == BeforeFin(relayISN, c.sent)
      && (got + InFlight(c) == c.read <==> !DataAfterFin(relayISN, c.sent))
  {
    RepliesIntact(clientISN, relayISN, acts);
    RunKeepsISN(Opened(clientISN, relayISN), acts);
    hide Run, PacketOf, DataBytes;
    var c := Run(Opened(clientISN, relayISN), acts);
    SentSequenced(c);
    hide GoodSeq;
    forall o | o in c.sent ensures Small(o) && (o.kind != Data ==> o.payload == []) {
      var i :| 0 <= i < |c.sent| && c.sent[i] == o;
      assert SequencedAt(relayISN, c.sent, i);
    }
    LostIffAfterFin(relayISN, c.sent);
    ClientGets(relayISN, c.sent);
    AcceptPackets(e, c.sent);
    hide Small, Sequenced, BeforeFin, DataAfterFin;
    PacketsFit(e, c.sent);
    Framing.RoundTrip(Packets(e, c.sent));
    ReassemblePackets(e, c.sent);
    SuffixCancels(BeforeFin(relayISN, c.sent), DataBytes(c.sent), InFlight(c));
  }

  lemma SuffixCancels(a: seq<u8>, b: seq<u8>, t: seq<u8>)
    ensures a + t == b + t <==> a == b
  {
    if a + t == b + t {
      assert |a| == |b|;
      assert a == (a + t)[..|a|] && b == (b + t)[..|b|];
    }
  }

  lemma SentSequenced(c: Conn)
    requires forall i :: 0 <= i < |c.sent| ==> GoodSeq(c, i)
    requires c.sent != [] && c.sent[0].kind == SynAck
    ensures Sequenced(c.relayISN, c.sent)
    ensures forall o :: o in c.sent && o.kind == Data ==> o.payload != []
  {
    hide SeqOf, DataBytes, Numbered;
    forall i | 0 <= i < |c.sent| ensures SequencedAt(c.relayISN, c.sent, i) { assert GoodSeq(c, i); }
    forall o | o in c.sent && o.kind == Data ensures o.payload != [] {
      var i :| 0 <= i < |c.sent| && c.sent[i] == o;
      assert GoodSeq(c, i);
    }
  }

  lemma {:induction false} RunKeepsISN(c: Conn, acts: seq<Act>)
    requires c.sent != []
    ensures var d := Run(c, acts); d.relayISN == c.relayISN && d.sent != [] && d.sent[0] == c.sent[0]
    decreases |acts|
  {
    hide Step;
    if acts != [] {
      StepSends(c, acts[0]);
      assert Step(c, acts[0]).sent[..|c.sent|][0] == c.sent[0];
      RunKeepsISN(Step(c, acts[0]), acts[1..]);
    }
  }
}
