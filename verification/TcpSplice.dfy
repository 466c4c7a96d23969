/**
 * The userspace TCP splice, one atomic step at a time: the goroutine that handles client packets and the
 * goroutine that reads the destination socket interleave freely between lock sections and I/O calls.
 */
module TcpSplice {
  import opened Bytes
  import opened Packet

  const MAX_TCP_PAYLOAD: nat := 1380

  datatype TcpState = Established | FinWait | Closed

  datatype Kind = SynAck | PureAck | Data | FinAck | Fin

  /** What the next expected client number stands for: so many bytes recorded, or a client FIN just answered. */
  datatype Basis = Bytes(count: nat) | AfterFin(seqNo: u32)

  /**
   * What a packet takes from the entry under its lock: both next numbers, and what they stood for then, the
   * destination bytes numbered so far and the client bytes recorded or the FIN answered.
   */
  datatype Stamp = Stamp(seqNo: u32, ackNo: u32, numbered: nat, basis: Basis)

  /** A packet queued for the client; `writtenThen` bytes had reached the destination when it was queued. */
  datatype Out = Out(kind: Kind, stamp: Stamp, payload: seq<u8>, writtenThen: nat)

  /** Where the packet-handling goroutine stands. */
  datatype Forward =
    | Waiting
    | Admitted(seqNo: u32, data: seq<u8>)
    | Writing(seqNo: u32, data: seq<u8>)
    | Committing(seqNo: u32, data: seq<u8>)
    | Acking(stamp: Stamp)
    | AckingFin(stamp: Stamp)
    | Closing

  /** Where the socket-reading goroutine stands. */
  datatype Backward =
    | Reading
    | Got(data: seq<u8>, last: bool)
    | Sending(data: seq<u8>, stamp: Stamp, last: bool)
    | Ended
    | SendingFin(stamp: Stamp)
    | Done

  /**
   * The connection: the entry's TCP fields, the socket, both streams so far and both program counters.
   * `fin` is the number of the last client FIN, if any.
   */
  datatype Conn = Conn(
    clientISN: u32, relayISN: u32, clientSeqNext: u32, relaySeqNext: u32, state: TcpState, open: bool,
    written: seq<u8>, read: seq<u8>, sent: seq<Out>, fin: Option<u32>, fwd: Forward, bwd: Backward)

  /** Sequence number of the byte at offset `k` of a stream that follows the SYN numbered `isn`. */
  function SeqOf(isn: u32, k: nat): (s: u32) {
    Add32(isn, k + 1)
  }

  /** What openTCP leaves behind after a successful dial. */
  function Opened(clientISN: u32, relayISN: u32): (c: Conn) {
    Conn(clientISN, relayISN, Add32(clientISN, 1), Add32(relayISN, 1), Established, true, [], [],
         [Out(SynAck, Stamp(relayISN, Add32(clientISN, 1), 0, Bytes(0)), [], 0)], None, Waiting, Reading)
  }

  /** One atomic step. The environment picks segments, write and read outcomes, and the interleaving. */
  datatype Act =
    | ArriveData(seqNo: u32, data: seq<u8>)  // any client segment with a payload; reads the state
    | CompareSeq                             // reads clientSeqNext and drops anything else
    | Write(ok: bool)
    | CommitSeq
    | SendAck
    | ArriveRst
    | ArriveFin(seqNo: u32)
    | SendFinAck
    | CloseConn
    | CloseSocket                            // eviction or shutdown closes the socket under both goroutines
    | ReadSome(data: seq<u8>, last: bool)    // bytes, possibly together with an error
    | ReadError
    | NumberData
    | SendData
    | NoteEnd
    | SendFin

  /** Client bytes whose arrival the relay has recorded: all written ones but those of a write in progress. */
  function Committed(c: Conn): (n: nat) {
    if c.fwd.Committing? && |c.fwd.data| <= |c.written| then |c.written| - |c.fwd.data| else |c.written|
  }

  function BasisOf(c: Conn): (b: Basis) {
    if c.fin.Some? then AfterFin(c.fin.value) else Bytes(Committed(c))
  }

  /** The acknowledgement number of a basis. */
  function AckOf(isn: u32, b: Basis): (k: u32) {
    match b
    case Bytes(n) => SeqOf(isn, n)
    case AfterFin(s) => Add32(s, 1)
  }

  /** Destination bytes that have been given sequence numbers. */
  function Numbered(c: Conn): (n: nat) {
    if c.bwd.Got? && |c.bwd.data| <= |c.read| then |c.read| - |c.bwd.data| else |c.read|
  }

  function StampOf(c: Conn): (st: Stamp) {
    Stamp(c.relaySeqNext, c.clientSeqNext, Numbered(c), BasisOf(c))
  }

  function Emit(c: Conn, kind: Kind, st: Stamp, payload: seq<u8>): (r: Conn) {
    c.(sent := c.sent + [Out(kind, st, payload, |c.written|)])
  }

  /** The entry once a write is recorded, and once a client FIN is noted; both then take a stamp. */
  function Recorded(c: Conn, s: u32, n: nat): (d: Conn) {
    c.(clientSeqNext := Add32(s, n), fwd := Waiting)
  }

  function FinNoted(c: Conn, s: u32): (d: Conn) {
    c.(clientSeqNext := Add32(s, 1), state := FinWait, fin := Some(s))
  }

  /** The step of the packet-handling goroutine; a step taken out of turn changes nothing. */
  function ForwardStep(c: Conn, a: Act): (r: Conn) {
    match (a, c.fwd)
    case (ArriveData(s, data), Waiting) =>
      if c.state == Closed || data == [] then c else c.(fwd := Admitted(s, data))
    case (CompareSeq, Admitted(s, data)) =>
      if s != c.clientSeqNext then c.(fwd := Waiting) else c.(fwd := Writing(s, data))
    case (Write(ok), Writing(s, data)) =>
      if ok && c.open then c.(written := c.written + data, fwd := Committing(s, data)) else c.(fwd := Waiting)
    case (CommitSeq, Committing(s, data)) =>
      Recorded(c, s, |data|).(fwd := Acking(StampOf(Recorded(c, s, |data|))))
    case (SendAck, Acking(st)) => Emit(c, PureAck, st, []).(fwd := Waiting)
    case (ArriveRst, Waiting) => if c.state == Closed then c else c.(state := Closed, fwd := Closing)
    case (ArriveFin(s), Waiting) =>
      if c.state == Closed then c else FinNoted(c, s).(fwd := AckingFin(StampOf(FinNoted(c, s))))
    case (SendFinAck, AckingFin(st)) => Emit(c, FinAck, st, []).(fwd := Closing)
    case (CloseConn, Closing) => c.(open := false, fwd := Waiting)
    case (CloseSocket, _) => c.(open := false)
    case _ => c
  }

  /** The step of the socket-reading goroutine. */
  function BackwardStep(c: Conn, a: Act): (r: Conn) {
    match (a, c.bwd)
    case (ReadSome(data, last), Reading) =>
      if c.open && 0 < |data| <= MAX_TCP_PAYLOAD then c.(read := c.read + data, bwd := Got(data, last)) else c
    case (ReadError, Reading) => c.(bwd := Ended)
    case (NumberData, Got(data, last)) =>
      c.(relaySeqNext := Add32(c.relaySeqNext, |data|), bwd := Sending(data, StampOf(c), last))
    case (SendData, Sending(data, st, last)) => Emit(c, Data, st, data).(bwd := if last then Ended else Reading)
    case (NoteEnd, Ended) =>
      c.(state := Closed, bwd := if c.state == Closed then Done else SendingFin(StampOf(c)))
    case (SendFin, SendingFin(st)) => Emit(c, Fin, st, []).(bwd := Done)
    case _ => c
  }

  /** Steps of the socket-reading goroutine. */
  predicate IsBackward(a: Act) {
    a.ReadSome? || a.ReadError? || a.NumberData? || a.SendData? || a.NoteEnd? || a.SendFin?
  }

  function Step(c: Conn, a: Act): (r: Conn) {
    if IsBackward(a) then BackwardStep(c, a) else ForwardStep(c, a)
  }

  function Run(c: Conn, acts: seq<Act>): (r: Conn)
    decreases |acts|
  {
    if acts == [] then c else Run(Step(c, acts[0]), acts[1..])
  }

  // ---------- what every interleaving keeps ----------

  /** The destination bytes carried by the data packets of `sent`, in order. */
  function DataBytes(sent: seq<Out>): (b: seq<u8>) {
    if sent == [] then []
    else
      var o := sent[|sent| - 1];
      DataBytes(sent[..|sent| - 1]) + if o.kind == Data then o.payload else []
  }

  function InFlight(c: Conn): (b: seq<u8>) {
    match c.bwd
    case Got(data, _) => data
    case Sending(data, _, _) => data
    case _ => []
  }

  /** Less than one turn of the sequence space apart. */
  predicate Near(a: int, b: int) {
    -TWO32 < a - b < TWO32
  }

  /** `data`, numbered `s`, is the segment of `stream` at offset `at`. */
  predicate SegmentAt(stream: seq<u8>, isn: u32, s: u32, data: seq<u8>, at: nat) {
    0 < |data| <= 0xffff && at + |data| <= |stream| && data == stream[at..at + |data|] && s == SeqOf(isn, at)
  }

  /** A segment of the stream less than one turn away from the write position. */
  ghost predicate NearSegment(c: Conn, stream: seq<u8>, s: u32, data: seq<u8>) {
    exists at: nat :: SegmentAt(stream, c.clientISN, s, data, at) && Near(at, |c.written|)
  }

  /** The acknowledgement of a stamp is that of its basis, and the bytes it counts are written now. */
  predicate TrueAck(c: Conn, st: Stamp) {
    st.ackNo == AckOf(c.clientISN, st.basis) && (st.basis.Bytes? ==> st.basis.count <= |c.written|)
  }

  /** The client side: what was written, and what the expected number stands for. */
  ghost predicate ForwardInv(c: Conn, stream: seq<u8>) {
    && c.written <= stream
    && c.clientSeqNext == AckOf(c.clientISN, BasisOf(c))
    && (c.fwd.Admitted? || c.fwd.Writing? ==> NearSegment(c, stream, c.fwd.seqNo, c.fwd.data))
    && (c.fwd.Writing? && c.fin.None? ==> c.fwd.seqNo == SeqOf(c.clientISN, |c.written|))
    && (c.fwd.Committing? ==> 0 < |c.fwd.data| <= |c.written| && c.fwd.seqNo == SeqOf(c.clientISN, Committed(c)))
    && (c.fwd.Acking? ==>
          c.fwd.stamp.basis == Bytes(|c.written|) && c.fwd.stamp.ackNo == SeqOf(c.clientISN, |c.written|))
    && (c.fwd.AckingFin? ==> c.fwd.stamp.basis.AfterFin? && TrueAck(c, c.fwd.stamp))
    && (c.fin.Some? ==>
          && (c.fwd.Admitted? || c.fwd.Writing? || c.fwd.Waiting? ==> !c.open)
          && !c.fwd.Acking? && !c.fwd.Committing?)
  }

  /** The acknowledgement held by the reading goroutine. */
  predicate HeldAck(c: Conn) {
    c.bwd.Sending? || c.bwd.SendingFin? ==> TrueAck(c, c.bwd.stamp)
  }

  /**
   * A packet's acknowledgement is that of the bytes recorded, or of the FIN answered, when it took its stamp; for a
   * pure ACK those are all the bytes written when it is sent.
   */
  predicate GoodAck(isn: u32, o: Out) {
    && o.stamp.ackNo == AckOf(isn, o.stamp.basis)
    && (o.stamp.basis.Bytes? ==> o.stamp.basis.count <= o.writtenThen)
    && match o.kind
       case SynAck => o.stamp.basis == Bytes(0)
       case PureAck => o.stamp.basis == Bytes(o.writtenThen)
       case FinAck => o.stamp.basis.AfterFin?
       case _ => true
  }

  ghost predicate AckInv(c: Conn, stream: seq<u8>) {
    ForwardInv(c, stream) && HeldAck(c) && forall o :: o in c.sent ==> GoodAck(c.clientISN, o)
  }

  /** The number of a stamp is that of the first destination byte not numbered when it was taken. */
  predicate TrueSeq(c: Conn, st: Stamp) {
    st.seqNo == SeqOf(c.relayISN, st.numbered) && st.numbered <= Numbered(c)
  }

  /** The destination side: what was read is numbered consecutively and sent in order. */
  ghost predicate BackwardInv(c: Conn) {
    && c.relaySeqNext == SeqOf(c.relayISN, Numbered(c))
    && c.read == DataBytes(c.sent) + InFlight(c)
    && (c.bwd.Got? || c.bwd.Sending? ==> 0 < |c.bwd.data| <= MAX_TCP_PAYLOAD)
    && (c.bwd.Sending? ==> TrueSeq(c, c.bwd.stamp) && c.bwd.stamp.numbered == |DataBytes(c.sent)|)
    && (c.bwd.SendingFin? ==> TrueSeq(c, c.bwd.stamp) && c.bwd.stamp.numbered == |c.read|)
    && (forall i :: 0 <= i < |c.sent| && c.sent[i].kind == Fin ==> c.bwd.Done?)
  }

  /** The number held by the packet-handling goroutine. */
  predicate HeldSeq(c: Conn) {
    c.fwd.Acking? || c.fwd.AckingFin? ==> TrueSeq(c, c.fwd.stamp)
  }

  /**
   * Packet `i` carries the number of the first byte not numbered when it took its stamp; for data and for the
   * relay's FIN that is the position after all data sent before.
   */
  ghost predicate GoodSeq(c: Conn, i: nat)
    requires i < |c.sent|
  {
    var o := c.sent[i];
    && (o.kind != Data ==> o.payload == [])
    && if o.kind == SynAck then i == 0 && o.stamp.seqNo == c.relayISN
       else
         && i > 0 && TrueSeq(c, o.stamp) && o.stamp.numbered + |o.payload| <= Numbered(c)
         && (o.kind == Data ==> o.stamp.numbered == |DataBytes(c.sent[..i])| && 0 < |o.payload| <= MAX_TCP_PAYLOAD)
         && (o.kind == Fin ==> o.stamp.numbered == |DataBytes(c.sent[..i])| == |DataBytes(c.sent)|)
  }

  ghost predicate ReplyInv(c: Conn) {
    c.sent != [] && BackwardInv(c) && HeldSeq(c) && forall i :: 0 <= i < |c.sent| ==> GoodSeq(c, i)
  }

  ghost predicate Inv(c: Conn, stream: seq<u8>) {
    AckInv(c, stream) && ReplyInv(c)
  }

  /** A client segment is one of the stream, less than 2^32 bytes from the write position. */
  ghost predicate ArrivesNear(c: Conn, stream: seq<u8>, a: Act) {
    a.ArriveData? ==> NearSegment(c, stream, a.seqNo, a.data)
  }

  ghost predicate RunsNear(c: Conn, stream: seq<u8>, acts: seq<Act>)
    decreases |acts|
  {
    acts == [] || (ArrivesNear(c, stream, acts[0]) && RunsNear(Step(c, acts[0]), stream, acts[1..]))
  }

  lemma SeqOfAdd(isn: u32, k: nat, n: nat)
    ensures Add32(SeqOf(isn, k), n) == SeqOf(isn, k + n)
  {
    var q := (isn + k + 1) / TWO32;
    assert isn + k + 1 == q * TWO32 + SeqOf(isn, k);
    var q' := (SeqOf(isn, k) + n) / TWO32;
    assert isn + k + 1 + n == (q + q') * TWO32 + (SeqOf(isn, k) + n) % TWO32;
  }

  /** Within one turn of the sequence space a sequence number names one offset. */
  lemma SeqOfInjective(isn: u32, a: nat, b: nat)
    requires SeqOf(isn, a) == SeqOf(isn, b) && Near(a, b)
    ensures a == b
  {
    var qa, qb := (isn + a + 1) / TWO32, (isn + b + 1) / TWO32;
    assert a - b == (qa - qb) * TWO32;
  }

  lemma AppendData(sent: seq<Out>, o: Out)
    ensures DataBytes(sent + [o]) == DataBytes(sent) + if o.kind == Data then o.payload else []
  {
    assert (sent + [o])[..|sent|] == sent;
  }

  /** Writing the expected segment extends the prefix. */
  lemma WriteExtends(c: Conn, stream: seq<u8>, s: u32, data: seq<u8>)
    requires c.written <= stream && NearSegment(c, stream, s, data) && s == SeqOf(c.clientISN, |c.written|)
    ensures c.written + data <= stream && data != []
  {
    hide SeqOf;
    var at: nat :| SegmentAt(stream, c.clientISN, s, data, at) && Near(at, |c.written|);
    SeqOfInjective(c.clientISN, at, |c.written|);
    assert stream[..at] + stream[at..at + |data|] == stream[..at + |data|];
  }

  lemma ForwardKeepsForward(c: Conn, stream: seq<u8>, a: Act)
    requires ForwardInv(c, stream) && ArrivesNear(c, stream, a)
    ensures ForwardInv(ForwardStep(c, a), stream)
  {
    hide SeqOf, SegmentAt;
    var d := ForwardStep(c, a);
    assert d.written == c.written && d.clientISN == c.clientISN && c.fwd.Admitted? ==>
      (NearSegment(c, stream, c.fwd.seqNo, c.fwd.data) ==> NearSegment(d, stream, c.fwd.seqNo, c.fwd.data));
    match (a, c.fwd)
    case (ArriveData(s, data), Waiting) =>
      assert NearSegment(d, stream, s, data);
    case (Write(ok), Writing(s, data)) =>
      if ok && c.open { WriteExtends(c, stream, s, data); }
    case (CommitSeq, Committing(s, data)) => SeqOfAdd(c.clientISN, Committed(c), |data|);
    case (CloseSocket, Writing(s, data)) => assert NearSegment(d, stream, s, data);
    case _ =>
  }

  /** The reading goroutine changes nothing that the client side of the invariant speaks of. */
  lemma BackwardKeepsForward(c: Conn, stream: seq<u8>, a: Act)
    requires ForwardInv(c, stream)
    ensures ForwardInv(BackwardStep(c, a), stream)
  {
    hide SeqOf, AckOf, SegmentAt, StampOf;
    var d := BackwardStep(c, a);
    assert d.clientISN == c.clientISN && d.written == c.written && d.fwd == c.fwd && d.fin == c.fin && d.open == c.open;
    assert BasisOf(d) == BasisOf(c) && d.clientSeqNext == c.clientSeqNext;
  }

  /** A step sends at most one packet; bytes once written stay written. */
  lemma StepSends(c: Conn, a: Act)
    ensures var d := Step(c, a);
      && d.clientISN == c.clientISN && d.relayISN == c.relayISN && |c.written| <= |d.written|
      && (d.sent == c.sent || (|d.sent| == |c.sent| + 1 && d.sent[..|c.sent|] == c.sent))
  {
    hide SeqOf, StampOf;
  }

  /** Every acknowledgement the packet-handling goroutine sends is true. */
  lemma ForwardAcks(c: Conn, stream: seq<u8>, a: Act)
    requires AckInv(c, stream)
    ensures var d := ForwardStep(c, a); HeldAck(d) && forall o :: o in d.sent ==> GoodAck(d.clientISN, o)
  {
    hide SeqOf, NearSegment, StampOf;
    var d := ForwardStep(c, a);
    assert d.clientISN == c.clientISN && d.bwd == c.bwd && |c.written| <= |d.written|;
    match (a, c.fwd)
    case (SendAck, Acking(st)) => assert GoodAck(c.clientISN, Out(PureAck, st, [], |c.written|));
    case (SendFinAck, AckingFin(st)) => assert GoodAck(c.clientISN, Out(FinAck, st, [], |c.written|));
    case _ => assert d.sent == c.sent;
  }

  /** Every acknowledgement the reading goroutine takes and sends is true. */
  lemma BackwardAcks(c: Conn, stream: seq<u8>, a: Act)
    requires AckInv(c, stream)
    ensures var d := BackwardStep(c, a); HeldAck(d) && forall o :: o in d.sent ==> GoodAck(d.clientISN, o)
  {
    hide SeqOf, AckOf, NearSegment, Numbered;
    var d := BackwardStep(c, a);
    assert TrueAck(c, StampOf(c));
    match (a, c.bwd)
    case (SendData, Sending(data, st, last)) => assert GoodAck(c.clientISN, Out(Data, st, data, |c.written|));
    case (SendFin, SendingFin(st)) => assert GoodAck(c.clientISN, Out(Fin, st, [], |c.written|));
    case _ => assert d.sent == c.sent;
  }

  lemma StepKeepsAcks(c: Conn, stream: seq<u8>, a: Act)
    requires AckInv(c, stream) && ArrivesNear(c, stream, a)
    ensures AckInv(Step(c, a), stream)
  {
    hide ForwardInv, HeldAck, GoodAck, ForwardStep, BackwardStep;
    if IsBackward(a) {
      BackwardKeepsForward(c, stream, a);
      BackwardAcks(c, stream, a);
    } else {
      ForwardKeepsForward(c, stream, a);
      ForwardAcks(c, stream, a);
    }
  }

  // ---------- the destination's bytes, whatever the client sends ----------

  lemma BackwardKeepsBackward(c: Conn, a: Act)
    requires BackwardInv(c)
    ensures BackwardInv(BackwardStep(c, a)) && Numbered(c) <= Numbered(BackwardStep(c, a))
  {
    hide SeqOf, DataBytes, BasisOf;
    var d := BackwardStep(c, a);
    match (a, c.bwd)
    case (NumberData, Got(data, last)) => SeqOfAdd(c.relayISN, Numbered(c), |data|);
    case (SendData, Sending(data, st, last)) => AppendData(c.sent, d.sent[|c.sent|]);
    case (SendFin, SendingFin(st)) => AppendData(c.sent, d.sent[|c.sent|]);
    case (ReadSome(data, last), Reading) => assert c.read + data == DataBytes(c.sent) + data;
    case _ =>
  }

  /** What the packet-handling goroutine leaves alone, and the one packet it may send. */
  lemma ForwardSends(c: Conn, a: Act)
    ensures var d := ForwardStep(c, a);
      && d.relayISN == c.relayISN && d.relaySeqNext == c.relaySeqNext && d.read == c.read && d.bwd == c.bwd
      && d.clientISN == c.clientISN && |c.written| <= |d.written|
      && (d.sent == c.sent
          || exists o: Out :: d.sent == c.sent + [o] && o.payload == [] && (o.kind == PureAck || o.kind == FinAck))
      && (d.sent != c.sent ==> (c.fwd.Acking? || c.fwd.AckingFin?) && d.sent[|c.sent|].stamp == c.fwd.stamp)
  {
    hide SeqOf, StampOf;
  }

  lemma ForwardHolds(c: Conn, a: Act)
    requires BackwardInv(c) && HeldSeq(c)
    ensures HeldSeq(ForwardStep(c, a))
  {
    hide SeqOf, DataBytes, BasisOf;
  }

  lemma KeepsNumber(c: Conn, d: Conn, i: nat)
    requires i < |c.sent| && GoodSeq(c, i) && i < |d.sent| && d.sent[i] == c.sent[i] && d.sent[..i] == c.sent[..i]
    requires Numbered(c) <= Numbered(d) && d.relayISN == c.relayISN
    requires c.sent[i].kind == Fin ==> |DataBytes(d.sent)| == |DataBytes(c.sent)|
    ensures GoodSeq(d, i)
  {
    hide SeqOf, Numbered, DataBytes;
  }

  /** Packets stay well numbered when at most one more is sent, and more bytes are numbered. */
  lemma KeepsNumbers(c: Conn, d: Conn)
    requires (forall i :: 0 <= i < |c.sent| ==> GoodSeq(c, i)) && Numbered(c) <= Numbered(d) && d.relayISN == c.relayISN
    requires |c.sent| <= |d.sent| <= |c.sent| + 1 && d.sent[..|c.sent|] == c.sent
    requires d.sent != c.sent && d.sent[|c.sent|].kind == Data ==>
      forall i :: 0 <= i < |c.sent| ==> c.sent[i].kind != Fin
    requires d.sent != c.sent && d.sent[|c.sent|].kind != Data ==> d.sent[|c.sent|].payload == []
    ensures forall i :: 0 <= i < |c.sent| ==> GoodSeq(d, i)
  {
    hide SeqOf, Numbered, GoodSeq, DataBytes;
    if d.sent != c.sent {
      AppendData(c.sent, d.sent[|c.sent|]);
      assert d.sent == c.sent + [d.sent[|c.sent|]];
    }
    forall i | 0 <= i < |c.sent| ensures GoodSeq(d, i) {
      assert d.sent[..|c.sent|][i] == c.sent[i] && d.sent[..|c.sent|][..i] == c.sent[..i];
      KeepsNumber(c, d, i);
    }
  }

  lemma BackwardFrame(c: Conn, d: Conn)
    requires BackwardInv(c) && d.relayISN == c.relayISN && d.relaySeqNext == c.relaySeqNext
    requires d.read == c.read && d.bwd == c.bwd && DataBytes(d.sent) == DataBytes(c.sent)
    requires forall i :: 0 <= i < |d.sent| && d.sent[i].kind == Fin ==> i < |c.sent| && c.sent[i].kind == Fin
    ensures BackwardInv(d) && Numbered(d) == Numbered(c)
  {
    hide SeqOf, DataBytes;
  }

  lemma ForwardKeepsReplies(c: Conn, a: Act)
    requires ReplyInv(c)
    ensures ReplyInv(ForwardStep(c, a))
  {
    var d := ForwardStep(c, a);
    ForwardSends(c, a);
    ForwardHolds(c, a);
    hide SeqOf, DataBytes, ForwardStep, GoodSeq, BackwardInv, Numbered;
    if d.sent == c.sent {
      BackwardFrame(c, d);
      KeepsNumbers(c, d);
    } else {
      assert d.sent == c.sent + [d.sent[|c.sent|]] && d.sent[..|c.sent|] == c.sent;
      AppendData(c.sent, d.sent[|c.sent|]);
      assert DataBytes(c.sent) + [] == DataBytes(c.sent);
      BackwardFrame(c, d);
      KeepsNumbers(c, d);
      NewPacketNumbered(c, d);
    }
  }

  lemma NewPacketNumbered(c: Conn, d: Conn)
    requires c.sent != [] && |d.sent| == |c.sent| + 1 && d.sent[..|c.sent|] == c.sent
    requires var o := d.sent[|c.sent|];
      && o.kind != SynAck && TrueSeq(d, o.stamp) && o.stamp.numbered + |o.payload| <= Numbered(d)
      && (o.kind != Data ==> o.payload == [])
      && (o.kind == Data ==> o.stamp.numbered == |DataBytes(c.sent)| && 0 < |o.payload| <= MAX_TCP_PAYLOAD)
      && (o.kind == Fin ==> o.stamp.numbered == |DataBytes(c.sent)| == |DataBytes(d.sent)|)
    ensures GoodSeq(d, |c.sent|)
  {}

  lemma BackwardKeepsReplies(c: Conn, a: Act)
    requires ReplyInv(c)
    ensures ReplyInv(BackwardStep(c, a))
  {
    hide SeqOf, DataBytes, StampOf, GoodSeq;
    var d := BackwardStep(c, a);
    BackwardKeepsBackward(c, a);
    if d.sent == c.sent {
      KeepsNumbers(c, d);
    } else {
      assert d.sent == c.sent + [d.sent[|c.sent|]] && d.sent[..|c.sent|] == c.sent;
      AppendData(c.sent, d.sent[|c.sent|]);
      KeepsNumbers(c, d);
      NewPacketNumbered(c, d);
    }
  }

  lemma StepKeepsReplies(c: Conn, a: Act)
    requires ReplyInv(c)
    ensures ReplyInv(Step(c, a))
  {
    hide ReplyInv, ForwardStep, BackwardStep;
    ForwardKeepsReplies(c, a);
    BackwardKeepsReplies(c, a);
  }

  lemma {:induction false} RunKeepsReplies(c: Conn, acts: seq<Act>)
    requires ReplyInv(c)
    ensures ReplyInv(Run(c, acts))
    decreases |acts|
  {
    hide ReplyInv, Step;
    if acts != [] {
      StepKeepsReplies(c, acts[0]);
      RunKeepsReplies(Step(c, acts[0]), acts[1..]);
    }
  }

  lemma OpenedReplies(clientISN: u32, relayISN: u32)
    ensures ReplyInv(Opened(clientISN, relayISN))
  {
    var c := Opened(clientISN, relayISN);
    assert DataBytes(c.sent) == [] by { AppendData([], c.sent[0]); assert [] + [c.sent[0]] == c.sent; }
    assert GoodSeq(c, 0);
  }

  /**
   * Whatever the client sends, with no assumption on it: what was read is numbered consecutively, the data packets
   * carry it in order, and every packet is numbered by the first byte not numbered when it took its stamp.
   */
  lemma RepliesIntact(clientISN: u32, relayISN: u32, acts: seq<Act>)
    ensures var c := Run(Opened(clientISN, relayISN), acts);
      && c.relaySeqNext == SeqOf(c.relayISN, Numbered(c)) && c.read == DataBytes(c.sent) + InFlight(c)
      && forall i :: 0 <= i < |c.sent| ==> GoodSeq(c, i)
  {
    OpenedReplies(clientISN, relayISN);
    hide GoodSeq, SeqOf;
    RunKeepsReplies(Opened(clientISN, relayISN), acts);
  }

  // ---------- both directions ----------

  lemma StepKeeps(c: Conn, stream: seq<u8>, a: Act)
    requires Inv(c, stream) && ArrivesNear(c, stream, a)
    ensures Inv(Step(c, a), stream)
  {
    hide AckInv, ReplyInv, Step;
    StepKeepsAcks(c, stream, a);
    StepKeepsReplies(c, a);
  }

  lemma {:induction false} RunKeeps(c: Conn, stream: seq<u8>, acts: seq<Act>)
    requires Inv(c, stream) && RunsNear(c, stream, acts)
    ensures Inv(Run(c, acts), stream)
    decreases |acts|
  {
    hide Inv, Step;
    if acts != [] {
      StepKeeps(c, stream, acts[0]);
      RunKeeps(Step(c, acts[0]), stream, acts[1..]);
    }
  }

  lemma OpenedInv(clientISN: u32, relayISN: u32, stream: seq<u8>)
    ensures Inv(Opened(clientISN, relayISN), stream)
  {
    OpenedReplies(clientISN, relayISN);
    hide ReplyInv;
  }

  /**
   * Stream integrity for every interleaving. The bytes written are a prefix of the client's stream, and the next
   * expected number is that of the first unrecorded byte, or follows the last client FIN. The bytes read are
   * numbered consecutively, and the data packets carry them without gap or overlap. Every packet is numbered by the
   * first byte not numbered, and acknowledges exactly what was recorded, when it took its stamp.
   */
  lemma SpliceIntegrity(clientISN: u32, relayISN: u32, stream: seq<u8>, acts: seq<Act>)
    requires RunsNear(Opened(clientISN, relayISN), stream, acts)
    ensures var c := Run(Opened(clientISN, relayISN), acts);
      && c.written <= stream && c.clientSeqNext == AckOf(c.clientISN, BasisOf(c))
      && c.relaySeqNext == SeqOf(c.relayISN, Numbered(c)) && c.read == DataBytes(c.sent) + InFlight(c)
      && forall i :: 0 <= i < |c.sent| ==> GoodSeq(c, i) && GoodAck(c.clientISN, c.sent[i])
  {
    hide GoodSeq, GoodAck, SeqOf, AckOf, RunsNear, NearSegment;
    OpenedInv(clientISN, relayISN, stream);
    RunKeeps(Opened(clientISN, relayISN), stream, acts);
  }

  // ---------- the steps of one segment ----------

  lemma {:induction false} RunConcat(c: Conn, a: seq<Act>, b: seq<Act>)
    ensures Run(c, a + b) == Run(Run(c, a), b)
    decreases |a|
  {
    hide Step;
    if a == [] {
      assert a + b == b;
    } else {
      assert (a + b)[1..] == a[1..] + b;
      RunConcat(Step(c, a[0]), a[1..], b);
    }
  }

  lemma RunFive(c: Conn, acts: seq<Act>)
    requires |acts| == 5
    ensures Run(c, acts) == Step(Step(Step(Step(Step(c, acts[0]), acts[1]), acts[2]), acts[3]), acts[4])
  {
    hide Step;
    assert acts[1..][0] == acts[1] && acts[1..][1..] == acts[2..];
    assert acts[2..][0] == acts[2] && acts[2..][1..] == acts[3..];
    assert acts[3..][0] == acts[3] && acts[3..][1..] == acts[4..];
    assert acts[4..][0] == acts[4] && acts[4..][1..] == [];
    var c1 := Step(c, acts[0]);
    var c2 := Step(c1, acts[1]);
    var c3 := Step(c2, acts[2]);
    assert Run(c3, acts[3..]) == Run(Step(c3, acts[3]), acts[4..]);
    assert Run(c2, acts[2..]) == Run(c3, acts[3..]);
    assert Run(c1, acts[1..]) == Run(c2, acts[2..]);
  }

  /** The steps of one segment handled without interruption. */
  function Deliver(seqNo: u32, data: seq<u8>, ok: bool): (acts: seq<Act>) {
    [ArriveData(seqNo, data), CompareSeq, Write(ok), CommitSeq, SendAck]
  }

  lemma StepArrive(c: Conn, s: u32, data: seq<u8>)
    requires c.fwd == Waiting && c.state != Closed && data != []
    ensures Step(c, ArriveData(s, data)) == c.(fwd := Admitted(s, data))
  {}

  lemma StepCompare(c: Conn, s: u32, data: seq<u8>)
    requires c.fwd == Admitted(s, data)
    ensures Step(c, CompareSeq) == c.(fwd := if s == c.clientSeqNext then Writing(s, data) else Waiting)
  {}

  lemma StepWrite(c: Conn, s: u32, data: seq<u8>, ok: bool)
    requires c.fwd == Writing(s, data)
    ensures Step(c, Write(ok)) ==
      if ok && c.open then c.(written := c.written + data, fwd := Committing(s, data)) else c.(fwd := Waiting)
  {}

  lemma StepCommit(c: Conn, s: u32, data: seq<u8>)
    requires c.fwd == Committing(s, data)
    ensures Step(c, CommitSeq) == Recorded(c, s, |data|).(fwd := Acking(StampOf(Recorded(c, s, |data|))))
  {
    hide Recorded, StampOf;
  }

  lemma StepAck(c: Conn, st: Stamp)
    requires c.fwd == Acking(st)
    ensures Step(c, SendAck) == Emit(c, PureAck, st, []).(fwd := Waiting)
  {
    hide Emit;
  }

  lemma StepsIdle(c: Conn, ok: bool)
    requires c.fwd == Waiting
    ensures Step(c, Write(ok)) == Step(c, CommitSeq) == Step(c, SendAck) == c
  {}

  /** The entry once a segment is written and recorded. */
  function Taken(c: Conn, s: u32, data: seq<u8>): (d: Conn) {
    Recorded(c.(written := c.written + data), s, |data|)
  }

  /** What those steps amount to. */
  lemma DeliverResult(c: Conn, seqNo: u32, data: seq<u8>, ok: bool)
    requires c.fwd == Waiting && c.state != Closed && data != []
    ensures Run(c, Deliver(seqNo, data, ok)) ==
      if seqNo != c.clientSeqNext || !ok || !c.open then c
      else Emit(Taken(c, seqNo, data), PureAck, StampOf(Taken(c, seqNo, data)), [])
  {
    RunFive(c, Deliver(seqNo, data, ok));
    hide Run, Step, Add32, StampOf;
    StepArrive(c, seqNo, data);
    var c1 := c.(fwd := Admitted(seqNo, data));
    StepCompare(c1, seqNo, data);
    StepsIdle(c, ok);
    assert c1.(fwd := Waiting) == c;
    if seqNo == c.clientSeqNext {
      var c2 := c.(fwd := Writing(seqNo, data));
      StepWrite(c2, seqNo, data, ok);
      assert c2.(fwd := Waiting) == c;
      if ok && c.open {
        var c3 := c.(written := c.written + data, fwd := Committing(seqNo, data));
        StepCommit(c3, seqNo, data);
        assert Recorded(c3, seqNo, |data|) == Taken(c, seqNo, data);
        StepAck(Step(c3, CommitSeq), StampOf(Taken(c, seqNo, data)));
      }
    }
  }

  /** Ready for the next client segment, with everything written recorded. */
  predicate Ready(c: Conn) {
    && c.fwd == Waiting && c.state == Established && c.open && c.fin == None
    && c.clientSeqNext == SeqOf(c.clientISN, |c.written|)
  }

  /** A segment is written and acknowledged when its number is the expected one; otherwise nothing happens. */
  lemma DeliverWrites(c: Conn, seqNo: u32, data: seq<u8>)
    requires Ready(c) && data != []
    ensures var d := Run(c, Deliver(seqNo, data, true));
      if seqNo == c.clientSeqNext then
        && Ready(d) && d.written == c.written + data && d.clientISN == c.clientISN
        && d.sent == c.sent + [Out(PureAck, Stamp(c.relaySeqNext, SeqOf(c.clientISN, |d.written|), Numbered(c),
                                                  Bytes(|d.written|)), [], |d.written|)]
      else d == c
  {
    hide Run, Deliver, SeqOf, Numbered;
    DeliverResult(c, seqNo, data, true);
    SeqOfAdd(c.clientISN, |c.written|, |data|);
    assert Numbered(Taken(c, seqNo, data)) == Numbered(c) by { NumberedIsReader(c, Taken(c, seqNo, data)); }
  }

  lemma NumberedIsReader(c: Conn, d: Conn)
    requires c.read == d.read && c.bwd == d.bwd
    ensures Numbered(c) == Numbered(d)
  {}

  lemma ClosedIgnores(c: Conn, a: Act)
    requires c.fwd == Waiting && c.state == Closed && !IsBackward(a) && a != CloseSocket
    ensures Step(c, a) == c
  {}

  lemma {:induction false} RunIgnored(c: Conn, acts: seq<Act>)
    requires c.fwd == Waiting && c.state == Closed && forall a :: a in acts ==> !IsBackward(a) && a != CloseSocket
    ensures Run(c, acts) == c
    decreases |acts|
  {
    hide Step;
    if acts != [] {
      ClosedIgnores(c, acts[0]);
      RunIgnored(c, acts[1..]);
    }
  }

  /** A segment with another number than the expected one changes nothing, in any state. */
  lemma UnexpectedIgnored(c: Conn, s: u32, data: seq<u8>, ok: bool)
    requires c.fwd == Waiting && s != c.clientSeqNext && data != []
    ensures Run(c, Deliver(s, data, ok)) == c
  {
    hide Run;
    if c.state == Closed {
      RunIgnored(c, Deliver(s, data, ok));
    } else {
      hide Deliver;
      DeliverResult(c, s, data, ok);
    }
  }

  lemma {:induction false} ReadingKeepsExpected(c: Conn, acts: seq<Act>)
    requires forall a :: a in acts ==> IsBackward(a)
    ensures var d := Run(c, acts); d.fwd == c.fwd && d.clientISN == c.clientISN && d.clientSeqNext == c.clientSeqNext
    decreases |acts|
  {
    if acts != [] {
      assert acts[0] in acts;
      ReadingKeepsExpected(Step(c, acts[0]), acts[1..]);
    }
  }

  /**
   * The payload of a connection's first packet is dropped: the number after the SYN's is expected, SYN or not. The
   * reading goroutine may have taken any steps since the dial.
   */
  lemma FirstDataDropped(clientISN: u32, relayISN: u32, reading: seq<Act>, data: seq<u8>, ok: bool)
    requires data != [] && forall a :: a in reading ==> IsBackward(a)
    ensures var c := Run(Opened(clientISN, relayISN), reading); Run(c, Deliver(clientISN, data, ok)) == c
  {
    var c := Run(Opened(clientISN, relayISN), reading);
    ReadingKeepsExpected(Opened(clientISN, relayISN), reading);
    hide Run, Deliver;
    UnexpectedIgnored(c, clientISN, data, ok);
  }

  // ---------- what a packet acknowledges when it is sent ----------

  /** While only the packet-handling goroutine moves, the reading one stays put and what is written stays written. */
  lemma {:induction false} ForwardRun(c: Conn, acts: seq<Act>)
    requires forall a :: a in acts ==> !IsBackward(a)
    ensures var d := Run(c, acts); d.bwd == c.bwd && d.clientISN == c.clientISN && |c.written| <= |d.written|
    decreases |acts|
  {
    hide ForwardStep;
    if acts != [] {
      assert acts[0] in acts;
      ForwardSends(c, acts[0]);
      ForwardRun(Step(c, acts[0]), acts[1..]);
    }
  }

  /**
   * A data packet takes its stamp at `c` and is sent after any steps `acts` of the packet-handling goroutine. It
   * acknowledges the bytes recorded at `c`. Those are all the bytes written when it is sent exactly when no write was
   * waiting to be recorded at `c` and none was done in between.
   */
  lemma DataAckExactIff(c: Conn, stream: seq<u8>, acts: seq<Act>)
    requires Inv(c, stream) && c.fin == None && c.bwd.Got? && forall a :: a in acts ==> !IsBackward(a)
    ensures var d := Step(Run(Step(c, NumberData), acts), SendData);
      d.sent != [] && var o := d.sent[|d.sent| - 1];
      && o.kind == Data && o.payload == c.bwd.data && o.stamp.basis == Bytes(Committed(c))
      && o.stamp.ackNo == SeqOf(c.clientISN, Committed(c)) && Committed(c) <= |d.written|
      && (Committed(c) == |d.written| <==> !c.fwd.Committing? && |d.written| == |c.written|)
  {
    hide SeqOf, ReplyInv, NearSegment, Run, Numbered;
    var c1 := Step(c, NumberData);
    ForwardRun(c1, acts);
    SendsLast(Run(c1, acts));
  }

  /** The same for the FIN that ends the destination's stream. */
  lemma FinAckExactIff(c: Conn, stream: seq<u8>, acts: seq<Act>)
    requires Inv(c, stream) && c.fin == None && c.bwd == Ended && c.state != Closed
    requires forall a :: a in acts ==> !IsBackward(a)
    ensures var d := Step(Run(Step(c, NoteEnd), acts), SendFin);
      d.sent != [] && var o := d.sent[|d.sent| - 1];
      && o.kind == Fin && o.stamp.basis == Bytes(Committed(c))
      && o.stamp.ackNo == SeqOf(c.clientISN, Committed(c)) && Committed(c) <= |d.written|
      && (Committed(c) == |d.written| <==> !c.fwd.Committing? && |d.written| == |c.written|)
  {
    hide SeqOf, ReplyInv, NearSegment, Run, Numbered;
    var c1 := Step(c, NoteEnd);
    ForwardRun(c1, acts);
    SendsLast(Run(c1, acts));
  }

  /** The packet prepared by the reading goroutine is the one sent. */
  lemma SendsLast(c: Conn)
    ensures c.bwd.Sending? ==>
      Step(c, SendData).sent == c.sent + [Out(Data, c.bwd.stamp, c.bwd.data, |c.written|)]
      && Step(c, SendData).written == c.written
    ensures c.bwd.SendingFin? ==>
      Step(c, SendFin).sent == c.sent + [Out(Fin, c.bwd.stamp, [], |c.written|)]
      && Step(c, SendFin).written == c.written
  {}

  /**
   * A data packet can acknowledge less than was written, recorded and acknowledged before it is sent: all of a
   * segment's handling may fall between its stamp and its sending.
   */
  lemma StaleAckWitness(clientISN: u32, relayISN: u32, x: u8, y: u8)
    ensures var c := Run(Opened(clientISN, relayISN), [ReadSome([y], false)]);
      var d := Step(Run(Step(c, NumberData), Deliver(SeqOf(clientISN, 0), [x], true)), SendData);
      && c.bwd.Got? && !c.fwd.Committing? && d.written == [x] && d.sent != [] && d.sent[|d.sent| - 1].kind == Data
      && d.sent[|d.sent| - 1].stamp.ackNo == SeqOf(clientISN, 0)
  {
    var o := Opened(clientISN, relayISN);
    var c := Run(o, [ReadSome([y], false)]);
    RunOne(o, ReadSome([y], false));
    StepRead(o, [y], false);
    hide ForwardStep, SeqOf;
    var c1 := Step(c, NumberData);
    assert Ready(c1) && c1.written == [] && c1.bwd.stamp.ackNo == SeqOf(clientISN, 0);
    DeliverWrites(c1, SeqOf(clientISN, 0), [x]);
    var acts := Deliver(SeqOf(clientISN, 0), [x], true);
    ForwardRun(c1, acts);
    hide Run, Deliver;
    SendsLast(Run(c1, acts));
  }

  lemma RunOne(c: Conn, a: Act)
    ensures Run(c, [a]) == Step(c, a)
  {
    hide Step;
    assert [a][1..] == [];
  }

  lemma StepRead(c: Conn, data: seq<u8>, last: bool)
    requires c.bwd == Reading && c.open && 0 < |data| <= MAX_TCP_PAYLOAD
    ensures Step(c, ReadSome(data, last)) == c.(read := c.read + data, bwd := Got(data, last))
  {}

  // ---------- in-order delivery under any interleaving ----------

  function Concat(pieces: seq<seq<u8>>): (b: seq<u8>) {
    if pieces == [] then [] else pieces[0] + Concat(pieces[1..])
  }

  /** The segments of consecutive pieces, the first at offset `k`. */
  function InOrder(isn: u32, k: nat, pieces: seq<seq<u8>>): (acts: seq<Act>)
    decreases |pieces|
  {
    if pieces == [] then []
    else Deliver(SeqOf(isn, k), pieces[0], true) + InOrder(isn, k + |pieces[0]|, pieces[1..])
  }

  /** The acknowledgement numbers of consecutive pieces. */
  function PieceAcks(isn: u32, k: nat, pieces: seq<seq<u8>>): (ks: seq<u32>)
    decreases |pieces|
  {
    if pieces == [] then [] else [SeqOf(isn, k + |pieces[0]|)] + PieceAcks(isn, k + |pieces[0]|, pieces[1..])
  }

  /** The numbers acknowledged by the pure ACKs of `sent`. */
  function AckNos(sent: seq<Out>): (ks: seq<u32>) {
    if sent == [] then []
    else
      var o := sent[|sent| - 1];
      AckNos(sent[..|sent| - 1]) + if o.kind == PureAck then [o.stamp.ackNo] else []
  }

  lemma AppendAck(sent: seq<Out>, o: Out)
    ensures AckNos(sent + [o]) == AckNos(sent) + if o.kind == PureAck then [o.stamp.ackNo] else []
  {
    assert (sent + [o])[..|sent|] == sent;
  }

  /** The next piece is written and acknowledged. */
  lemma PieceDelivers(c: Conn, piece: seq<u8>)
    requires Ready(c) && piece != []
    ensures var d := Run(c, Deliver(SeqOf(c.clientISN, |c.written|), piece, true));
      && Ready(d) && d.clientISN == c.clientISN && d.written == c.written + piece
      && AckNos(d.sent) == AckNos(c.sent) + [SeqOf(c.clientISN, |d.written|)]
  {
    hide SeqOf, Step, AckNos, Run, Deliver;
    var d := Run(c, Deliver(SeqOf(c.clientISN, |c.written|), piece, true));
    DeliverWrites(c, SeqOf(c.clientISN, |c.written|), piece);
    AppendAck(c.sent, d.sent[|c.sent|]);
  }

  lemma NoPieces(w: seq<u8>, acks: seq<u32>, isn: u32, k: nat)
    ensures w + Concat([]) == w && acks + PieceAcks(isn, k, []) == acks && InOrder(isn, k, []) == []
  {}

  /** The first piece can be counted with what came before. */
  lemma PiecesSplit(w: seq<u8>, acks: seq<u32>, isn: u32, k: nat, pieces: seq<seq<u8>>)
    requires pieces != []
    ensures var next := k + |pieces[0]|;
      && w + Concat(pieces) == (w + pieces[0]) + Concat(pieces[1..])
      && acks + PieceAcks(isn, k, pieces) == (acks + [SeqOf(isn, next)]) + PieceAcks(isn, next, pieces[1..])
      && InOrder(isn, k, pieces) == Deliver(SeqOf(isn, k), pieces[0], true) + InOrder(isn, next, pieces[1..])
  {
    hide SeqOf, Deliver;
  }

  lemma {:induction false} PiecesDeliver(c: Conn, pieces: seq<seq<u8>>)
    requires Ready(c) && forall p :: p in pieces ==> p != []
    ensures var d := Run(c, InOrder(c.clientISN, |c.written|, pieces));
      && Ready(d) && d.clientISN == c.clientISN && d.written == c.written + Concat(pieces)
      && AckNos(d.sent) == AckNos(c.sent) + PieceAcks(c.clientISN, |c.written|, pieces)
    decreases |pieces|
  {
    hide SeqOf, AckNos, Ready, Deliver, Concat, PieceAcks, InOrder;
    if pieces == [] {
      NoPieces(c.written, AckNos(c.sent), c.clientISN, |c.written|);
      assert Run(c, []) == c;
    } else {
      hide Run;
      var first := Deliver(SeqOf(c.clientISN, |c.written|), pieces[0], true);
      var d := Run(c, first);
      assert pieces[0] in pieces && forall p :: p in pieces[1..] ==> p in pieces;
      PieceDelivers(c, pieces[0]);
      PiecesDeliver(d, pieces[1..]);
      PiecesSplit(c.written, AckNos(c.sent), c.clientISN, |c.written|, pieces);
      RunConcat(c, first, InOrder(c.clientISN, |d.written|, pieces[1..]));
    }
  }

  /** The steps that are not the reading goroutine's. */
  function ForwardOnly(acts: seq<Act>): (r: seq<Act>) {
    if acts == [] then []
    else (if IsBackward(acts[0]) then [] else [acts[0]]) + ForwardOnly(acts[1..])
  }

  /** The same position, whatever relay number the acknowledgement in preparation carries. */
  predicate SamePosition(f: Forward, g: Forward) {
    match (f, g)
    case (Acking(st), Acking(tu)) => st.ackNo == tu.ackNo && st.basis == tu.basis
    case (AckingFin(st), AckingFin(tu)) => st.ackNo == tu.ackNo && st.basis == tu.basis
    case _ => f == g
  }

  /** `c` and `d` agree on everything the packet-handling goroutine uses and does. */
  predicate SameForward(c: Conn, d: Conn) {
    && c.clientISN == d.clientISN && c.clientSeqNext == d.clientSeqNext && c.state == d.state && c.open == d.open
    && c.written == d.written && c.fin == d.fin && SamePosition(c.fwd, d.fwd) && AckNos(c.sent) == AckNos(d.sent)
  }

  lemma ForwardStepSame(c: Conn, d: Conn, a: Act)
    requires SameForward(c, d)
    ensures SameForward(ForwardStep(c, a), ForwardStep(d, a))
  {
    hide AckNos, SeqOf;
    match (a, c.fwd)
    case (SendAck, Acking(st)) =>
      AppendAck(c.sent, Out(PureAck, st, [], |c.written|));
      AppendAck(d.sent, Out(PureAck, d.fwd.stamp, [], |d.written|));
    case (SendFinAck, AckingFin(st)) =>
      AppendAck(c.sent, Out(FinAck, st, [], |c.written|));
      AppendAck(d.sent, Out(FinAck, d.fwd.stamp, [], |d.written|));
    case _ =>
  }

  lemma BackwardStepSame(c: Conn, a: Act)
    requires a != NoteEnd
    ensures SameForward(BackwardStep(c, a), c)
  {
    hide AckNos, SeqOf, BasisOf;
    match (a, c.bwd)
    case (SendData, Sending(data, st, last)) => AppendAck(c.sent, Out(Data, st, data, |c.written|));
    case (SendFin, SendingFin(st)) => AppendAck(c.sent, Out(Fin, st, [], |c.written|));
    case _ =>
  }

  /** Until the destination ends, the reading goroutine is invisible to the packet-handling one. */
  lemma {:induction false} InterleavingInvisible(c: Conn, d: Conn, acts: seq<Act>)
    requires SameForward(c, d) && NoteEnd !in acts
    ensures SameForward(Run(c, acts), Run(d, ForwardOnly(acts)))
    decreases |acts|
  {
    hide ForwardStep, BackwardStep, AckNos;
    if acts != [] {
      var a := acts[0];
      if IsBackward(a) {
        BackwardStepSame(c, a);
        InterleavingInvisible(Step(c, a), d, acts[1..]);
        assert [] + ForwardOnly(acts[1..]) == ForwardOnly(acts[1..]);
      } else {
        ForwardStepSame(c, d, a);
        InterleavingInvisible(Step(c, a), Step(d, a), acts[1..]);
        assert ([a] + ForwardOnly(acts[1..]))[1..] == ForwardOnly(acts[1..]);
      }
    }
  }

  /**
   * In-order segments of any sizes with successful writes deliver all their bytes, one acknowledgement each, the
   * last covering everything, however the steps of the reading goroutine fall in between, while it still reads.
   */
  lemma InOrderDelivers(c: Conn, pieces: seq<seq<u8>>, acts: seq<Act>)
    requires Ready(c) && forall p :: p in pieces ==> p != []
    requires ForwardOnly(acts) == InOrder(c.clientISN, |c.written|, pieces) && NoteEnd !in acts
    ensures var d := Run(c, acts);
      && Ready(d) && d.written == c.written + Concat(pieces)
      && AckNos(d.sent) == AckNos(c.sent) + PieceAcks(c.clientISN, |c.written|, pieces)
  {
    hide Run, SeqOf, InOrder, AckNos, PieceAcks, Concat, ForwardOnly;
    PiecesDeliver(c, pieces);
    InterleavingInvisible(c, c, acts);
  }

  // ---------- exactly when the bytes written are a prefix ----------

  /** Every client segment of the run is one of the stream, early, late or repeated. */
  ghost predicate FromStream(isn: u32, stream: seq<u8>, acts: seq<Act>) {
    forall a :: a in acts && a.ArriveData? ==> exists at: nat :: SegmentAt(stream, isn, a.seqNo, a.data, at)
  }

  lemma {:induction false} ShortIsNear(c: Conn, stream: seq<u8>, acts: seq<Act>)
    requires |stream| < TWO32 && Inv(c, stream) && FromStream(c.clientISN, stream, acts)
    ensures RunsNear(c, stream, acts)
    decreases |acts|
  {
    if acts != [] {
      hide SegmentAt, GoodAck, ReplyInv, HeldAck, Step;
      var a := acts[0];
      if a.ArriveData? {
        var at: nat :| SegmentAt(stream, c.clientISN, a.seqNo, a.data, at);
        SegmentWithin(stream, c.clientISN, a.seqNo, a.data, at);
        assert Near(at, |c.written|);
      }
      StepKeeps(c, stream, a);
      StepKeepsISN(c, a);
      ShortIsNear(Step(c, a), stream, acts[1..]);
    }
  }

  lemma SegmentWithin(stream: seq<u8>, isn: u32, s: u32, data: seq<u8>, at: nat)
    requires SegmentAt(stream, isn, s, data, at)
    ensures at < |stream|
  {}

  lemma StepKeepsISN(c: Conn, a: Act)
    ensures Step(c, a).clientISN == c.clientISN
  {}

  /** Streams shorter than 2^32 bytes need no assumption on when segments arrive. */
  lemma ShortStreams(clientISN: u32, relayISN: u32, stream: seq<u8>, acts: seq<Act>)
    requires |stream| < TWO32 && FromStream(clientISN, stream, acts)
    ensures RunsNear(Opened(clientISN, relayISN), stream, acts)
  {
    OpenedInv(clientISN, relayISN, stream);
    ShortIsNear(Opened(clientISN, relayISN), stream, acts);
  }

  lemma SeqOfWraps(isn: u32, k: nat)
    ensures SeqOf(isn, k + TWO32) == SeqOf(isn, k)
  {}

  /** The bytes of `s` one by one. */
  function Singles(s: seq<u8>): (pieces: seq<seq<u8>>)
    ensures forall p :: p in pieces ==> p != []
  {
    if s == [] then [] else [[s[0]]] + Singles(s[1..])
  }

  lemma {:induction false} ConcatSingles(s: seq<u8>)
    ensures Concat(Singles(s)) == s
  {
    if s != [] {
      ConcatSingles(s[1..]);
      assert s == [s[0]] + s[1..];
    }
  }

  lemma FromStreamConcat(isn: u32, stream: seq<u8>, a: seq<Act>, b: seq<Act>)
    requires FromStream(isn, stream, a) && FromStream(isn, stream, b)
    ensures FromStream(isn, stream, a + b)
  {
    hide SegmentAt;
  }

  lemma ByteFromStream(isn: u32, stream: seq<u8>, k: nat)
    requires k < |stream|
    ensures FromStream(isn, stream, Deliver(SeqOf(isn, k), [stream[k]], true))
  {
    hide SeqOf;
    assert SegmentAt(stream, isn, SeqOf(isn, k), [stream[k]], k);
  }

  lemma {:induction false} SinglesFromStream(isn: u32, stream: seq<u8>, k: nat)
    requires k <= |stream|
    ensures FromStream(isn, stream, InOrder(isn, k, Singles(stream[k..])))
    decreases |stream| - k
  {
    if k < |stream| {
      hide SeqOf, Deliver, FromStream;
      SinglesFromStream(isn, stream, k + 1);
      ByteFromStream(isn, stream, k);
      assert stream[k..][1..] == stream[k + 1..];
      var pieces := Singles(stream[k..]);
      assert pieces[0] == [stream[k]] && pieces[1..] == Singles(stream[k + 1..]);
      FromStreamConcat(isn, stream, Deliver(SeqOf(isn, k), [stream[k]], true), InOrder(isn, k + 1, pieces[1..]));
    }
  }

  /** The whole stream in order, byte by byte, then its byte at `late` once more. */
  function WholeThenLate(isn: u32, stream: seq<u8>, late: nat): (acts: seq<Act>)
    requires late < |stream|
  {
    InOrder(isn, 0, Singles(stream)) + Deliver(SeqOf(isn, late), [stream[late]], true)
  }

  /** When the stream is a whole turn or more, a late byte is accepted after its end. */
  lemma LateByteIsWritten(clientISN: u32, relayISN: u32, stream: seq<u8>)
    requires |stream| >= TWO32
    ensures var acts := WholeThenLate(clientISN, stream, |stream| - TWO32);
      FromStream(clientISN, stream, acts) && |Run(Opened(clientISN, relayISN), acts).written| == |stream| + 1
  {
    hide Run, Step, InOrder, Singles, Concat, FromStream, Deliver;
    var late := |stream| - TWO32;
    var c := Opened(clientISN, relayISN);
    var whole, again := InOrder(clientISN, 0, Singles(stream)), Deliver(SeqOf(clientISN, late), [stream[late]], true);
    assert stream[0..] == stream;
    SinglesFromStream(clientISN, stream, 0);
    PiecesDeliver(c, Singles(stream));
    ConcatSingles(stream);
    RunConcat(c, whole, again);
    SeqOfWraps(clientISN, late);
    DeliverWrites(Run(c, whole), SeqOf(clientISN, late), [stream[late]]);
    ByteFromStream(clientISN, stream, late);
    FromStreamConcat(clientISN, stream, whole, again);
  }

  /**
   * What is written is a prefix of the client's stream in every run, whatever segments of the stream arrive early,
   * late or repeatedly, exactly when the stream is shorter than 2^32 bytes.
   */
  lemma PrefixIffShort(clientISN: u32, relayISN: u32, stream: seq<u8>)
    ensures (forall acts :: FromStream(clientISN, stream, acts) ==>
               Run(Opened(clientISN, relayISN), acts).written <= stream)
      <==> |stream| < TWO32
  {
    hide Run, FromStream, WholeThenLate;
    if |stream| < TWO32 {
      forall acts | FromStream(clientISN, stream, acts)
        ensures Run(Opened(clientISN, relayISN), acts).written <= stream
      {
        ShortStreams(clientISN, relayISN, stream, acts);
        SpliceIntegrity(clientISN, relayISN, stream, acts);
      }
    } else {
      LateByteIsWritten(clientISN, relayISN, stream);
      var acts := WholeThenLate(clientISN, stream, |stream| - TWO32);
      assert !(Run(Opened(clientISN, relayISN), acts).written <= stream);
    }
  }

  // ---------- the client's FIN ----------

  function HandleFin(s: u32): (acts: seq<Act>) {
    [ArriveFin(s), SendFinAck, CloseConn]
  }

  /** A FIN is answered with its own number plus one and writes nothing, whatever it carries. */
  lemma FinIsAcked(c: Conn, s: u32)
    requires c.fwd == Waiting && c.state != Closed
    ensures var d := Run(c, HandleFin(s));
      && d.written == c.written && !d.open && d.clientISN == c.clientISN
      && d.sent == c.sent + [Out(FinAck, Stamp(c.relaySeqNext, Add32(s, 1), Numbered(c), AfterFin(s)), [], |c.written|)]
  {
    hide Add32, Numbered;
    var acts := HandleFin(s);
    var c1 := Step(c, acts[0]);
    var c2 := Step(c1, acts[1]);
    NumberedIsReader(c, FinNoted(c, s));
    assert Run(c2, acts[1..][1..]) == Run(Step(c2, acts[2]), acts[1..][1..][1..]);
    assert Run(c1, acts[1..]) == Run(c2, acts[1..][1..]);
  }

  /**
   * The client's last segment is at offset `at`, carries `n` bytes to the end of the stream, and the FIN. The relay's
   * answer acknowledges the whole stream and the FIN, and the whole stream has been written, exactly when the segment
   * carries no bytes and has the expected number; the code tests neither.
   */
  lemma FinTruthfulIff(c: Conn, stream: seq<u8>, at: nat, n: nat)
    requires AckInv(c, stream) && c.fwd == Waiting && c.state != Closed && c.fin == None
    requires at + n == |stream| < TWO32
    ensures var s := SeqOf(c.clientISN, at); var d := Run(c, HandleFin(s));
      && d.sent != [] && d.sent[|d.sent| - 1].kind == FinAck
      && (d.written == stream && d.sent[|d.sent| - 1].stamp.ackNo == SeqOf(c.clientISN, |stream| + 1)
          <==> n == 0 && s == c.clientSeqNext)
  {
    hide Run, NearSegment, HandleFin;
    var s := SeqOf(c.clientISN, at);
    FinIsAcked(c, s);
    SeqOfAdd(c.clientISN, at, 1);
    if SeqOf(c.clientISN, at + 1) == SeqOf(c.clientISN, |stream| + 1) {
      SeqOfInjective(c.clientISN, at + 1, |stream| + 1);
    }
    if s == c.clientSeqNext {
      SeqOfInjective(c.clientISN, at, |c.written|);
    }
  }

  // ---------- the number of the FIN-ACK ----------

  ghost predicate SentAt(sent: seq<Out>, n: nat) {
    exists i :: 0 <= i < |sent| && sent[i].kind == Data && sent[i].stamp.numbered == n
  }

  /** A data packet numbered at offset `n` was sent, or is about to be. */
  ghost predicate NumberedAt(c: Conn, n: nat) {
    SentAt(c.sent, n) || (c.bwd.Sending? && c.bwd.stamp.numbered == n)
  }

  lemma SentAtGrows(sent: seq<Out>, more: seq<Out>, n: nat)
    requires |sent| <= |more| && more[..|sent|] == sent
    ensures SentAt(sent, n) ==> SentAt(more, n)
    ensures |more| > |sent| && more[|sent|].kind == Data && more[|sent|].stamp.numbered == n ==> SentAt(more, n)
  {
    if i :| 0 <= i < |sent| && sent[i].kind == Data && sent[i].stamp.numbered == n {
      assert more[..|sent|][i] == more[i];
    }
  }

  /** Only NumberData numbers anything, and the packet it prepares takes the number of the first byte it adds. */
  lemma BackwardNumbers(c: Conn, a: Act)
    requires BackwardInv(c)
    ensures var d := BackwardStep(c, a);
      && Numbered(c) <= Numbered(d)
      && (Numbered(c) < Numbered(d) ==> d.bwd.Sending? && d.bwd.stamp.numbered == Numbered(c))
      && (c.bwd.Sending? && !(d.bwd.Sending? && d.bwd.stamp == c.bwd.stamp) ==>
            |d.sent| == |c.sent| + 1 && d.sent[|c.sent|].kind == Data && d.sent[|c.sent|].stamp == c.bwd.stamp)
      && |c.sent| <= |d.sent| && d.sent[..|c.sent|] == c.sent
  {
    hide SeqOf, DataBytes, BasisOf;
  }

  lemma StepNumbersFrom(c: Conn, a: Act, n: nat)
    requires ReplyInv(c) && n <= Numbered(c) && (Numbered(c) > n ==> NumberedAt(c, n))
    ensures var d := Step(c, a); n <= Numbered(d) && (Numbered(d) > n ==> NumberedAt(d, n))
  {
    hide SeqOf, DataBytes, GoodSeq, SentAt, BackwardStep, ForwardStep;
    var d := Step(c, a);
    if IsBackward(a) {
      BackwardNumbers(c, a);
      hide BackwardInv, Numbered;
      SentAtGrows(c.sent, d.sent, n);
    } else {
      ForwardSends(c, a);
      NumberedIsReader(c, d);
      hide BackwardInv, Numbered;
      assert d.sent[..|c.sent|] == c.sent;
      SentAtGrows(c.sent, d.sent, n);
    }
  }

  lemma {:induction false} RunNumbersFrom(c: Conn, acts: seq<Act>, n: nat)
    requires ReplyInv(c) && n <= Numbered(c) && (Numbered(c) > n ==> NumberedAt(c, n))
    ensures var d := Run(c, acts); n <= Numbered(d) && (Numbered(d) > n ==> NumberedAt(d, n))
    decreases |acts|
  {
    hide ReplyInv, NumberedAt, Step, Numbered;
    if acts != [] {
      StepNumbersFrom(c, acts[0], n);
      StepKeepsReplies(c, acts[0]);
      RunNumbersFrom(Step(c, acts[0]), acts[1..], n);
    }
  }

  /**
   * The FIN-ACK takes the number of the next destination byte, which stays the next: a data packet with the same
   * number follows exactly when something is numbered after the client's FIN arrived.
   */
  lemma FinAckNumberReusedIff(c: Conn, s: u32, acts: seq<Act>)
    requires ReplyInv(c) && c.fwd == Waiting && c.state != Closed
    ensures var c1 := Step(c, ArriveFin(s)); var d := Run(c1, acts); var n := Numbered(c);
      && c1.fwd.AckingFin? && c1.fwd.stamp.seqNo == SeqOf(c.relayISN, n)
      && (NumberedAt(d, n) <==> Numbered(d) > n)
  {
    var c1, n := Step(c, ArriveFin(s)), Numbered(c);
    FinTakes(c, s);
    StepKeepsReplies(c, ArriveFin(s));
    hide ReplyInv, NumberedAt, Step, Numbered, Run;
    RunNumbersFrom(c1, acts, n);
    RunKeepsReplies(c1, acts);
    if NumberedAt(Run(c1, acts), n) {
      NumberedWithin(Run(c1, acts), n);
    }
  }

  lemma FinTakes(c: Conn, s: u32)
    requires ReplyInv(c) && c.fwd == Waiting && c.state != Closed
    ensures var c1 := Step(c, ArriveFin(s));
      c1.fwd.AckingFin? && c1.fwd.stamp.seqNo == SeqOf(c.relayISN, Numbered(c)) && Numbered(c1) == Numbered(c)
  {
    hide SeqOf, BackwardStep, GoodSeq, DataBytes;
  }

  lemma NumberedWithin(c: Conn, n: nat)
    requires ReplyInv(c) && NumberedAt(c, n)
    ensures n < Numbered(c)
  {
    hide SeqOf, DataBytes;
    if i :| 0 <= i < |c.sent| && c.sent[i].kind == Data && c.sent[i].stamp.numbered == n {
      assert GoodSeq(c, i);
    }
  }
}
