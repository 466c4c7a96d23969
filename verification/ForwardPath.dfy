/** From the client to the destination: packets built, framed, decoded, parsed, readdressed, spliced and written. */
module ForwardPath {
  import opened Bytes
  import opened Packet
  import opened TcpSplice
  import Framing
  import ReversePath
  import TcpEntry

  const PUSH: u8 := 0x18

  /** What a client's stack puts in its data packets: addresses, acknowledgement by stream offset, and window. */
  datatype Sender = Sender(ends: ReversePath.Endpoints, isn: u32, ackAt: nat -> u32, window: u16)

  predicate Fits(piece: seq<u8>) {
    0 < |piece| <= MAX_TCP_PAYLOAD
  }

  /** The data packet that carries `piece`, the bytes of the stream at offset `k`. */
  function DataPacket(s: Sender, k: nat, piece: seq<u8>): (b: seq<u8>)
    requires Fits(piece)
  {
    BuiltTCP(Segment(s.ends.srcIP, s.ends.dstIP, s.ends.srcPort, s.ends.dstPort, piece, PUSH,
                     SeqOf(s.isn, k), s.ackAt(k), s.window))
  }

  function DataPackets(s: Sender, k: nat, pieces: seq<seq<u8>>): (ps: seq<seq<u8>>)
    requires forall p :: p in pieces ==> Fits(p)
    decreases |pieces|
  {
    if pieces == [] then []
    else
      assert pieces[0] in pieces;
      [DataPacket(s, k, pieces[0])] + DataPackets(s, k + |pieces[0]|, pieces[1..])
  }

  /** The splice steps of a packet on an existing TCP flow, handled after its source was rewritten. */
  function Handled(pkt: seq<u8>, relayIP: IP, natPort: u16): (acts: seq<Act>) {
    var r := ParseIPv4(pkt);
    if r.Err? then []
    else
      var p := r.value;
      TcpEntry.PacketActs(p.tcpFlags, p.tcpSeq, Payload(SourceRewritten(pkt, p, relayIP, natPort), p), true)
  }

  function AllHandled(pkts: seq<seq<u8>>, relayIP: IP, natPort: u16): (acts: seq<Act>) {
    if pkts == [] then [] else Handled(pkts[0], relayIP, natPort) + AllHandled(pkts[1..], relayIP, natPort)
  }

  lemma PushMeans()
    ensures !Has(PUSH, RST) && !Has(PUSH, FIN) && Has(PUSH, ACK)
  {}

  /** What the relay reads off a data packet, and finds in it after rewriting its source. */
  lemma DataReads(s: Sender, k: nat, piece: seq<u8>, relayIP: IP, natPort: u16)
    requires Fits(piece)
    ensures var b := DataPacket(s, k, piece); var r := ParseIPv4(b);
      && r.Ok? && r.value.tcpFlags == PUSH && r.value.tcpSeq == SeqOf(s.isn, k)
      && Payload(SourceRewritten(b, r.value, relayIP, natPort), r.value) == piece
  {
    hide ParseIPv4, BuiltTCP, Payload, SourceRewritten, ChecksumsHold, SeqOf;
    var seg := Segment(s.ends.srcIP, s.ends.dstIP, s.ends.srcPort, s.ends.dstPort, piece, PUSH,
                       SeqOf(s.isn, k), s.ackAt(k), s.window);
    ParseBuiltTCP(seg);
    SourceRewrittenParses(BuiltTCP(seg), ParseIPv4(BuiltTCP(seg)).value, relayIP, natPort);
  }

  /** A data packet is handled as the delivery of its piece: building, parsing and rewriting leave it alone. */
  lemma DataIsDelivered(s: Sender, k: nat, piece: seq<u8>, relayIP: IP, natPort: u16)
    requires Fits(piece)
    ensures Handled(DataPacket(s, k, piece), relayIP, natPort) == Deliver(SeqOf(s.isn, k), piece, true)
  {
    hide ParseIPv4, DataPacket, Payload, SourceRewritten, SeqOf, Has, Deliver;
    PushMeans();
    DataReads(s, k, piece, relayIP, natPort);
  }

  /** All of them, in order, are the in-order delivery of the stream. */
  lemma {:induction false} AllDelivered(s: Sender, k: nat, pieces: seq<seq<u8>>, relayIP: IP, natPort: u16)
    requires forall p :: p in pieces ==> Fits(p)
    ensures AllHandled(DataPackets(s, k, pieces), relayIP, natPort) == InOrder(s.isn, k, pieces)
    decreases |pieces|
  {
    hide Handled, DataPacket, SeqOf, Deliver;
    if pieces != [] {
      assert pieces[0] in pieces && forall p :: p in pieces[1..] ==> p in pieces;
      DataIsDelivered(s, k, pieces[0], relayIP, natPort);
      AllDelivered(s, k + |pieces[0]|, pieces[1..], relayIP, natPort);
      assert DataPackets(s, k, pieces)[1..] == DataPackets(s, k + |pieces[0]|, pieces[1..]);
    }
  }

  /** Every data packet fits one frame, and none is empty. */
  lemma {:induction false} DataPacketsFit(s: Sender, k: nat, pieces: seq<seq<u8>>)
    requires forall p :: p in pieces ==> Fits(p)
    ensures var ps := DataPackets(s, k, pieces); [] !in ps && Framing.Fitting(ps) == ps
    decreases |pieces|
  {
    hide BuiltTCP, SeqOf;
    if pieces != [] {
      assert pieces[0] in pieces && forall p :: p in pieces[1..] ==> p in pieces;
      DataPacketsFit(s, k + |pieces[0]|, pieces[1..]);
      assert 0 < |DataPacket(s, k, pieces[0])| <= Framing.MAX_FRAME;
      hide DataPacket;
      var ps := DataPackets(s, k, pieces);
      assert ps[1..] == DataPackets(s, k + |pieces[0]|, pieces[1..]);
    }
  }

  /**
   * End to end: the stream's bytes, cut into data packets, framed by the client, decoded by the relay, handled on a
   * connection ready for them with successful writes, reach the destination in full and in order, however the steps
   * of the reading goroutine fall in between while it still reads.
   */
  lemma DestinationReceives(s: Sender, c: Conn, pieces: seq<seq<u8>>, relayIP: IP, natPort: u16, acts: seq<Act>)
    requires Ready(c) && c.clientISN == s.isn && NoteEnd !in acts && forall p :: p in pieces ==> Fits(p)
    requires ForwardOnly(acts) ==
      AllHandled(Framing.Decode(Framing.Stream(DataPackets(s, |c.written|, pieces))).pkts, relayIP, natPort)
    ensures Run(c, acts).written == c.written + Concat(pieces) && Ready(Run(c, acts))
  {
    hide Run, SeqOf, Ready, InOrder, AllHandled, DataPackets, Concat;
    DataPacketsFit(s, |c.written|, pieces);
    Framing.RoundTrip(DataPackets(s, |c.written|, pieces));
    AllDelivered(s, |c.written|, pieces, relayIP, natPort);
    InOrderDelivers(c, pieces, acts);
  }
}
