/** The TCP side of a NAT entry as the relay's methods run it, each refining a sequence of splice steps. */
module TcpEntry {
  import opened Bytes
  import opened Packet
  import opened TcpSplice

  class Entry {
    const clientISN: u32
    const relayISN: u32
    var clientSeqNext: u32
    var relaySeqNext: u32
    var tcpState: TcpState
    var connOpen: bool

    /** What reached the destination, what came from it, and the packets queued for the client. */
    var written: seq<u8>
    var read: seq<u8>
    var sent: seq<Out>

    /** The last client FIN, and where the reading goroutine stands. */
    var fin: Option<u32>
    var reader: Backward

    function View(): (c: Conn)
      reads this
    {
      Conn(clientISN, relayISN, clientSeqNext, relaySeqNext, tcpState, connOpen, written, read, sent, fin,
           Waiting, reader)
    }

    /** After a successful dial on a packet numbered `tcpSeq`: the handshake is answered at once. */
    constructor OpenTCP(tcpSeq: u32, relayISN: u32)
      ensures View() == Opened(tcpSeq, relayISN)
      ensures clientSeqNext == (tcpSeq + 1) % 0x1_0000_0000 && relaySeqNext == (relayISN + 1) % 0x1_0000_0000
      ensures tcpState == Established && connOpen && written == read == []
      ensures SentOne([], SynAck, relayISN, (tcpSeq + 1) % 0x1_0000_0000, [])
    {
      clientISN, this.relayISN := tcpSeq, relayISN;
      clientSeqNext, relaySeqNext := Add32(tcpSeq, 1), Add32(relayISN, 1);
      tcpState, connOpen := Established, true;
      written, read, fin, reader := [], [], None, Reading;
      sent := [Out(SynAck, Stamp(relayISN, Add32(tcpSeq, 1), 0, Bytes(0)), [], 0)];
    }

    /** Exactly one packet was queued since `before`: this one, with the numbers given. */
    predicate SentOne(before: seq<Out>, kind: Kind, seqNo: u32, ackNo: int, payload: seq<u8>)
      reads this`sent
    {
      && |sent| == |before| + 1 && sent[..|before|] == before
      && var o := sent[|before|];
         o.kind == kind && o.stamp.seqNo == seqNo && o.stamp.ackNo == ackNo && o.payload == payload
    }

    method SendToClient(kind: Kind, stamp: Stamp, payload: seq<u8>)
      modifies this`sent
      ensures sent == old(sent) + [Out(kind, stamp, payload, |written|)]
      ensures SentOne(old(sent), kind, stamp.seqNo, stamp.ackNo, payload)
    {
      sent := sent + [Out(kind, stamp, payload, |written|)];
    }

    /**
     * Writes an expected segment to the destination and acknowledges it; drops any other. Its callers have seen the
     * entry open, or offer a number that is not the expected one.
     */
    method ForwardTCPData(tcpSeq: u32, payload: seq<u8>, writeOk: bool)
      requires tcpState == Closed ==> tcpSeq != clientSeqNext
      modifies this
      ensures View() == Run(old(View()), if payload == [] then [] else Deliver(tcpSeq, payload, writeOk))
      ensures payload == [] || tcpSeq != old(clientSeqNext) || !writeOk || !old(connOpen) ==> unchanged(this)
      ensures payload != [] && tcpSeq == old(clientSeqNext) && writeOk && old(connOpen) ==>
        && written == old(written) + payload && clientSeqNext == (tcpSeq + |payload|) % 0x1_0000_0000
        && SentOne(old(sent), PureAck, relaySeqNext, clientSeqNext, [])
        && unchanged(`tcpState, `connOpen, `relaySeqNext, `read, `fin, `reader)
    {
      if |payload| == 0 {
        RunNone(View());
        return;
      }
      hide Run, Deliver, StampOf;
      if tcpSeq != clientSeqNext {
        UnexpectedIgnored(View(), tcpSeq, payload, writeOk);
        return;
      }
      DeliverResult(View(), tcpSeq, payload, writeOk);
      if !(writeOk && connOpen) {
        return;
      }
      written := written + payload;
      clientSeqNext := Add32(tcpSeq, |payload|);
      StampNumbers(View());
      SendToClient(PureAck, StampOf(View()), []);
    }

    /**
     * The packet that opened the connection: a SYN carries nothing on, and any other payload is offered, in vain,
     * whatever the reading goroutine has done since the dial.
     */
    method ForwardNew(flags: u8, tcpSeq: u32, payload: seq<u8>, writeOk: bool)
      requires tcpSeq == clientISN && clientSeqNext == SeqOf(clientISN, 0)
      modifies this
      ensures View() == old(View())
      ensures View() ==
        Run(old(View()), if Has(flags, SYN) || payload == [] then [] else Deliver(tcpSeq, payload, writeOk))
    {
      RunNone(View());
      if !Has(flags, SYN) {
        hide Run, Deliver, Has;
        if |payload| > 0 {
          UnexpectedIgnored(View(), tcpSeq, payload, writeOk);
        }
        ForwardTCPData(tcpSeq, payload, writeOk);
      }
    }

    method CloseOnRst()
      requires tcpState != Closed
      modifies this
      ensures View() == Run(old(View()), [ArriveRst, CloseConn])
      ensures tcpState == Closed && !connOpen
      ensures unchanged(`clientSeqNext, `relaySeqNext, `written, `read, `sent, `fin, `reader)
    {
      hide Run;
      RstResult(View());
      tcpState := Closed;
      connOpen := false;
    }

    method AnswerFin(tcpSeq: u32)
      requires tcpState != Closed
      modifies this
      ensures View() == Run(old(View()), HandleFin(tcpSeq))
      ensures tcpState == FinWait && !connOpen && clientSeqNext == (tcpSeq + 1) % 0x1_0000_0000
      ensures SentOne(old(sent), FinAck, relaySeqNext, clientSeqNext, [])
      ensures unchanged(`relaySeqNext, `written, `read, `reader)
    {
      hide Run, HandleFin, StampOf;
      FinResult(View(), tcpSeq);
      StampNumbers(FinNoted(View(), tcpSeq));
      clientSeqNext := Add32(tcpSeq, 1);
      tcpState := FinWait;
      fin := Some(tcpSeq);
      SendToClient(FinAck, StampOf(View()), []);
      connOpen := false;
    }

    /**
     * A client packet on an existing flow, whatever it carries. A closed entry ignores it. Otherwise a RST (bit 2)
     * closes without an answer; a FIN (bit 0) is answered by one FIN-ACK of its number plus one, then closes; and data
     * is written and acknowledged when it carries the expected number and can be written. Nothing else has any effect.
     */
    method HandleTCPPacket(flags: u8, tcpSeq: u32, payload: seq<u8>, writeOk: bool)
      modifies this
      ensures View() == Run(old(View()), PacketActs(flags, tcpSeq, payload, writeOk))
      ensures old(tcpState) == Closed ==> unchanged(this)
      ensures old(tcpState) != Closed && flags / 4 % 2 == 1 ==>
        && tcpState == Closed && !connOpen
        && unchanged(`clientSeqNext, `relaySeqNext, `written, `read, `sent, `fin, `reader)
      ensures old(tcpState) != Closed && flags / 4 % 2 == 0 && flags % 2 == 1 ==>
        && tcpState == FinWait && !connOpen && clientSeqNext == (tcpSeq + 1) % 0x1_0000_0000
        && SentOne(old(sent), FinAck, relaySeqNext, clientSeqNext, [])
        && unchanged(`relaySeqNext, `written, `read, `reader)
      ensures old(tcpState) != Closed && flags / 4 % 2 == 0 && flags % 2 == 0 ==>
        if payload != [] && tcpSeq == old(clientSeqNext) && old(connOpen) && writeOk then
          && written == old(written) + payload && clientSeqNext == (tcpSeq + |payload|) % 0x1_0000_0000
          && SentOne(old(sent), PureAck, relaySeqNext, clientSeqNext, [])
          && unchanged(`tcpState, `connOpen, `relaySeqNext, `read, `fin, `reader)
        else unchanged(this)
    {
      if tcpState == Closed {
        IgnoredWhenClosed(flags, tcpSeq, payload, writeOk);
        return;
      }
      hide Step, Deliver, HandleFin, Has, SentOne;
      FlagBits(flags);
      if Has(flags, RST) {
        CloseOnRst();
        return;
      }
      if Has(flags, FIN) {
        AnswerFin(tcpSeq);
        return;
      }
      if |payload| > 0 {
        ForwardTCPData(tcpSeq, payload, writeOk);
      }
    }

    lemma IgnoredWhenClosed(flags: u8, tcpSeq: u32, payload: seq<u8>, ok: bool)
      requires tcpState == Closed
      ensures Run(View(), PacketActs(flags, tcpSeq, payload, ok)) == View()
    {
      hide Has;
      RunIgnored(View(), PacketActs(flags, tcpSeq, payload, ok));
    }

    /** Eviction or shutdown closes the socket. */
    method CloseEvicted()
      modifies this
      ensures View() == Run(old(View()), [CloseSocket])
      ensures !connOpen && unchanged(`clientSeqNext, `relaySeqNext, `tcpState, `written, `read, `sent, `fin, `reader)
    {
      hide Run;
      RunOne(View(), CloseSocket);
      connOpen := false;
    }

    /** Data read from the destination is numbered and sent on. */
    method ForwardRead(data: seq<u8>, failed: bool)
      requires connOpen && 0 < |data| <= MAX_TCP_PAYLOAD && reader == Reading
      modifies this
      ensures View() == Run(old(View()), [ReadSome(data, failed), NumberData, SendData])
      ensures reader == if failed then Ended else Reading
      ensures read == old(read) + data && relaySeqNext == (old(relaySeqNext) + |data|) % 0x1_0000_0000
      ensures SentOne(old(sent), Data, old(relaySeqNext), clientSeqNext, data)
      ensures unchanged(`clientSeqNext, `tcpState, `connOpen, `written, `fin)
    {
      hide Run;
      ReadSomeResult(View(), data, failed);
      var stamp := Stamp(relaySeqNext, clientSeqNext, |read|, BasisOf(View()));
      read := read + data;
      relaySeqNext := Add32(relaySeqNext, |data|);
      SendToClient(Data, stamp, data);
      reader := if failed then Ended else Reading;
    }

    /** What one turn of the read loop, and its end, add to the data sent. */
    lemma TurnData(before: seq<Out>, r: ReadResult)
      requires if r.data == [] then sent == before
               else exists k :: SentOne(before, Data, k, clientSeqNext, r.data)
      ensures DataBytes(sent) == DataBytes(before) + r.data
    {
      hide DataBytes;
      if r.data != [] {
        assert sent == before + [sent[|before|]];
        AppendData(before, sent[|before|]);
      }
    }

    lemma EndData(before: seq<Out>)
      requires sent == before || SentOne(before, Fin, relaySeqNext, clientSeqNext, [])
      ensures DataBytes(sent) == DataBytes(before)
    {
      hide DataBytes;
      if sent != before {
        assert sent == before + [sent[|before|]];
        AppendData(before, sent[|before|]);
      }
    }

    /** EOF or an error: a FIN, unless the client already closed the connection. */
    method EndReading()
      requires reader == Ended
      modifies this
      ensures View() == Run(old(View()), [NoteEnd, SendFin])
      ensures tcpState == Closed && reader == Done
      ensures if old(tcpState) == Closed then sent == old(sent)
              else SentOne(old(sent), Fin, relaySeqNext, clientSeqNext, [])
      ensures DataBytes(sent) == DataBytes(old(sent))
      ensures unchanged(`clientSeqNext, `relaySeqNext, `connOpen, `written, `read, `fin)
    {
      hide Run, DataBytes, StampOf;
      EndResult(View());
      StampNumbers(View());
      if tcpState == Established || tcpState == FinWait {
        var stamp := StampOf(View());
        tcpState := Closed;
        SendToClient(Fin, stamp, []);
      } else {
        tcpState := Closed;
      }
      reader := Done;
      EndData(old(sent));
    }

    method ReadTurn(r: ReadResult)
      requires reader == Reading && |r.data| <= MAX_TCP_PAYLOAD && (r.data != [] ==> connOpen)
      modifies this
      ensures View() == Run(old(View()), TurnActs(r))
      ensures reader == if r.failed then Ended else Reading
      ensures read == old(read) + r.data && relaySeqNext == (old(relaySeqNext) + |r.data|) % 0x1_0000_0000
      ensures if r.data == [] then sent == old(sent)
              else SentOne(old(sent), Data, old(relaySeqNext), clientSeqNext, r.data)
      ensures DataBytes(sent) == DataBytes(old(sent)) + r.data
      ensures unchanged(`clientSeqNext, `tcpState, `connOpen, `written, `fin)
    {
      hide Run, Step, DataBytes;
      if |r.data| > 0 {
        ForwardRead(r.data, r.failed);
      } else if r.failed {
        RunOne(View(), ReadError);
        StepReadError(View());
        reader := Ended;
      } else {
        RunNone(View());
      }
      TurnData(old(sent), r);
    }

    /** The socket read loop over the results of successive Read calls, up to the first error. */
    method TCPReverseLoop(results: seq<ReadResult>)
      requires reader == Reading
      requires forall r :: r in results ==> |r.data| <= MAX_TCP_PAYLOAD && (r.data != [] ==> connOpen)
      modifies this
      ensures View() == Run(old(View()), LoopActs(results))
      ensures read == old(read) + DataRead(results)
      ensures DataBytes(sent) == DataBytes(old(sent)) + DataRead(results)
      ensures unchanged(`clientSeqNext, `connOpen, `written, `fin)
      ensures if exists r :: r in results && r.failed
              then tcpState == Closed && reader == Done &&
                   (old(tcpState) != Closed ==> exists before :: SentOne(before, Fin, relaySeqNext, clientSeqNext, []))
              else unchanged(`tcpState, `reader)
    {
      hide Step, Run, TurnActs, LoopActs, DataBytes, SentOne, DataRead;
      var i := 0;
      assert results[0..] == results;
      while i < |results|
        invariant 0 <= i <= |results| && reader == Reading && (connOpen <==> old(connOpen))
        invariant Run(View(), LoopActs(results[i..])) == Run(old(View()), LoopActs(results))
        invariant read + DataRead(results[i..]) == old(read) + DataRead(results)
        invariant DataBytes(sent) + DataRead(results[i..]) == DataBytes(old(sent)) + DataRead(results)
        invariant unchanged(`clientSeqNext, `connOpen, `written, `fin, `tcpState, `reader)
        invariant forall r :: r in results[..i] ==> !r.failed
      {
        assert results[i..][0] == results[i] && results[i..][1..] == results[i + 1..];
        LoopActsStep(View(), results[i..]);
        DataReadStep(results[i..]);
        ReadTurn(results[i]);
        if results[i].failed {
          EndReading();
          return;
        }
        i := i + 1;
      }
      assert results[i..] == [];
      LoopActsDone();
      RunNone(View());
    }
  }

  // What each handler's steps amount to when nothing interleaves.

  /** FIN and RST are bits 0 and 2 of the flags byte. */
  lemma FlagBits(flags: u8)
    ensures Has(flags, FIN) <==> flags % 2 == 1
    ensures Has(flags, RST) <==> flags / 4 % 2 == 1
    ensures flags % 2 == 0 || flags % 2 == 1
    ensures flags / 4 % 2 == 0 || flags / 4 % 2 == 1
  {}

  /** The steps a packet on an existing flow calls for. */
  function PacketActs(flags: u8, tcpSeq: u32, payload: seq<u8>, writeOk: bool): (acts: seq<Act>) {
    if Has(flags, RST) then [ArriveRst, CloseConn]
    else if Has(flags, FIN) then HandleFin(tcpSeq)
    else if payload != [] then Deliver(tcpSeq, payload, writeOk)
    else []
  }

  lemma StampNumbers(c: Conn)
    ensures StampOf(c).seqNo == c.relaySeqNext && StampOf(c).ackNo == c.clientSeqNext
  {}

  lemma StepRst(c: Conn)
    requires c.fwd == Waiting && c.state != Closed
    ensures Step(c, ArriveRst) == c.(state := Closed, fwd := Closing)
  {}

  lemma StepClose(c: Conn)
    requires c.fwd == Closing
    ensures Step(c, CloseConn) == c.(open := false, fwd := Waiting)
  {}

  lemma StepFin(c: Conn, s: u32)
    requires c.fwd == Waiting && c.state != Closed
    ensures Step(c, ArriveFin(s)) == FinNoted(c, s).(fwd := AckingFin(StampOf(FinNoted(c, s))))
  {
    hide FinNoted, StampOf;
  }

  lemma StepFinAck(c: Conn, st: Stamp)
    requires c.fwd == AckingFin(st)
    ensures Step(c, SendFinAck) == Emit(c, FinAck, st, []).(fwd := Closing)
  {
    hide Emit;
  }

  lemma StepNumber(c: Conn, data: seq<u8>, last: bool)
    requires c.bwd == Got(data, last)
    ensures Step(c, NumberData) ==
      c.(relaySeqNext := Add32(c.relaySeqNext, |data|), bwd := Sending(data, StampOf(c), last))
  {
    hide Add32, StampOf;
  }

  lemma StepSend(c: Conn, data: seq<u8>, st: Stamp, last: bool)
    requires c.bwd == Sending(data, st, last)
    ensures Step(c, SendData) == Emit(c, Data, st, data).(bwd := if last then Ended else Reading)
  {
    hide Emit;
  }

  lemma StepReadError(c: Conn)
    requires c.bwd == Reading
    ensures Step(c, ReadError) == c.(bwd := Ended)
  {}

  lemma StepNoteEnd(c: Conn)
    requires c.bwd == Ended
    ensures Step(c, NoteEnd) == c.(state := Closed, bwd := if c.state == Closed then Done else SendingFin(StampOf(c)))
  {
    hide StampOf;
  }

  lemma StepSendFin(c: Conn)
    requires c.bwd.SendingFin? || c.bwd == Done
    ensures Step(c, SendFin) == if c.bwd == Done then c else Emit(c, Fin, c.bwd.stamp, []).(bwd := Done)
  {
    hide Emit;
  }

  lemma RstResult(c: Conn)
    requires c.fwd == Waiting && c.state != Closed
    ensures Run(c, [ArriveRst, CloseConn]) == c.(state := Closed, open := false)
  {
    RunTwo(c, [ArriveRst, CloseConn]);
    hide Run, Step;
    StepRst(c);
    StepClose(Step(c, ArriveRst));
  }

  lemma FinResult(c: Conn, s: u32)
    requires c.fwd == Waiting && c.state != Closed
    ensures Run(c, HandleFin(s)) ==
      Emit(FinNoted(c, s), FinAck, StampOf(FinNoted(c, s)), []).(open := false)
  {
    RunThree(c, HandleFin(s));
    hide Run, Step, Add32, StampOf;
    StepFin(c, s);
    var c1 := Step(c, ArriveFin(s));
    StepFinAck(c1, StampOf(FinNoted(c, s)));
    StepClose(Step(c1, SendFinAck));
  }

  lemma ReadSomeResult(c: Conn, data: seq<u8>, failed: bool)
    requires c.bwd == Reading && c.open && 0 < |data| <= MAX_TCP_PAYLOAD
    ensures var st := Stamp(c.relaySeqNext, c.clientSeqNext, |c.read|, BasisOf(c));
      Run(c, [ReadSome(data, failed), NumberData, SendData]) ==
        Emit(c, Data, st, data).(read := c.read + data, relaySeqNext := Add32(c.relaySeqNext, |data|),
                                 bwd := if failed then Ended else Reading)
  {
    RunThree(c, [ReadSome(data, failed), NumberData, SendData]);
    hide Run, Step, Add32, BasisOf, StampOf;
    var st := Stamp(c.relaySeqNext, c.clientSeqNext, |c.read|, BasisOf(c));
    StepRead(c, data, failed);
    var c1 := c.(read := c.read + data, bwd := Got(data, failed));
    StampWhenGot(c, data, failed);
    StepNumber(c1, data, failed);
    var c2 := c1.(relaySeqNext := Add32(c.relaySeqNext, |data|), bwd := Sending(data, st, failed));
    assert Step(c1, NumberData) == c2;
    StepSend(c2, data, st, failed);
  }

  lemma StampWhenGot(c: Conn, data: seq<u8>, last: bool)
    ensures StampOf(c.(read := c.read + data, bwd := Got(data, last))) ==
      Stamp(c.relaySeqNext, c.clientSeqNext, |c.read|, BasisOf(c))
  {}

  lemma EndResult(c: Conn)
    requires c.bwd == Ended
    ensures Run(c, [NoteEnd, SendFin]) ==
      if c.state == Closed then c.(bwd := Done)
      else Emit(c, Fin, StampOf(c), []).(state := Closed, bwd := Done)
  {
    RunTwo(c, [NoteEnd, SendFin]);
    hide Run, Step, StampOf;
    StepNoteEnd(c);
    StepSendFin(Step(c, NoteEnd));
  }

  datatype ReadResult = ReadResult(data: seq<u8>, failed: bool)

  /** The splice steps of one turn of the read loop. */
  function TurnActs(r: ReadResult): (acts: seq<Act>) {
    if r.data != [] then [ReadSome(r.data, r.failed), NumberData, SendData]
    else if r.failed then [ReadError] else []
  }

  /** What the destination sent, up to and with the first read that fails. */
  function DataRead(results: seq<ReadResult>): (data: seq<u8>)
    decreases |results|
  {
    if results == [] then []
    else results[0].data + if results[0].failed then [] else DataRead(results[1..])
  }

  lemma DataReadStep(results: seq<ReadResult>)
    requires results != []
    ensures DataRead(results) == results[0].data + if results[0].failed then [] else DataRead(results[1..])
  {}

  function LoopActs(results: seq<ReadResult>): (acts: seq<Act>)
    decreases |results|
  {
    if results == [] then []
    else TurnActs(results[0]) + if results[0].failed then [NoteEnd, SendFin] else LoopActs(results[1..])
  }

  lemma LoopActsStep(c: Conn, results: seq<ReadResult>)
    requires results != []
    ensures Run(c, LoopActs(results)) ==
      Run(Run(c, TurnActs(results[0])), if results[0].failed then [NoteEnd, SendFin] else LoopActs(results[1..]))
  {
    hide Step;
    RunConcat(c, TurnActs(results[0]), if results[0].failed then [NoteEnd, SendFin] else LoopActs(results[1..]));
  }

  lemma LoopActsDone()
    ensures LoopActs([]) == [] && DataRead([]) == []
  {}

  lemma RunNone(c: Conn)
    ensures Run(c, []) == c
  {}

  lemma RunTwo(c: Conn, acts: seq<Act>)
    requires |acts| == 2
    ensures Run(c, acts) == Step(Step(c, acts[0]), acts[1])
  {
    hide Step;
    assert Run(Step(c, acts[0]), acts[1..]) == Run(Step(Step(c, acts[0]), acts[1]), acts[1..][1..]);
  }

  lemma RunThree(c: Conn, acts: seq<Act>)
    requires |acts| == 3
    ensures Run(c, acts) == Step(Step(Step(c, acts[0]), acts[1]), acts[2])
  {
    hide Step;
    RunTwo(Step(c, acts[0]), acts[1..]);
    assert acts[1..][0] == acts[1] && acts[1..][1] == acts[2];
  }
}
