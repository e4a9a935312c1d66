/** The connection as an object built from a sender and a receiver. */
module TcpConnectionObjects {
  import opened Types
  import opened WrappingIntegers
  import opened TcpSegments
  import opened TcpSenders
  import opened TcpSenderInvariant
  import opened TcpSenderObjects
  import opened TcpReceivers
  import opened TcpConnections

  method StampQueue(queue: seq<Segment>, ackno: Option<U32>, window: int, ghost r: Receiver)
    returns (stamped: seq<Segment>)
    requires ackno == r.Ackno() && window == r.WindowSize() >= 0
    ensures stamped == StampAll(queue, r)
  {
    stamped := [];
    var left := queue;
    while left != []
      invariant stamped + StampAll(left, r) == StampAll(queue, r)
      decreases |left|
    {
      var segment := left[0];
      if ackno.Some? {
        segment := segment.(header := segment.header.(ackno := ackno.value, ack := true));
      }
      segment := segment.(header := segment.header.(win := if window > 65535 then 65535 else window));
      assert segment == Stamp(left[0], r);
      assert stamped + [segment] + StampAll(left[1..], r) == stamped + StampAll(left, r);
      stamped := stamped + [segment];
      left := left[1..];
    }
  }

  method MakeRst(seg: Segment, ackno: Option<U32>, window: int, ghost r: Receiver) returns (rst: Segment)
    requires ackno == r.Ackno() && window == r.WindowSize()
    ensures rst == StampRst(seg, r)
  {
    rst := seg.(header := seg.header.(rst := true));
    if ackno.Some? {
      rst := rst.(header := rst.header.(ackno := ackno.value, ack := true));
    }
    rst := rst.(header := rst.header.(win := window % TWO16));
  }

  /** Draining twice, the second time after an empty segment if nothing went out the
      first time, is what `Respond` says. */
  lemma {:induction false} RespondIsTwoStep(c: Conn)
    requires c.sender.stream.Valid()
    ensures FillWindow(c.sender).out != [] ==> Respond(c) == SendSegments(c.(sender := FillWindow(c.sender)))
    ensures FillWindow(c.sender).out == [] ==>
      Respond(c) == (var d := SendSegments(c.(sender := FillWindow(c.sender)));
                     SendSegments(d.(sender := SendEmpty(d.sender))))
  {
    var s := FillWindow(c.sender);
    if s.out == [] {
      assert s == s.(out := []);
      assert SendSegments(c.(sender := s)) == c.(sender := s);
    }
  }

  class TCPConnection {
    const rtTimeout: nat
    const sender: TCPSender
    const receiver: TCPReceiver
    var segmentsOut: seq<Segment>
    var lingerAfterStreamsFinish: bool
    var timeSinceLastSegmentReceived: nat
    var isActive: bool

    constructor (rtTimeout: nat, sendCapacity: nat, recvCapacity: nat, isn: U32)
      ensures Valid() && Model() == NewConn(rtTimeout, sendCapacity, recvCapacity, isn)
    {
      this.rtTimeout := rtTimeout;
      sender := new TCPSender(sendCapacity, rtTimeout, isn);
      receiver := new TCPReceiver(recvCapacity);
      segmentsOut, lingerAfterStreamsFinish := [], true;
      timeSinceLastSegmentReceived, isActive := 0, true;
    }

    ghost predicate Valid()
      reads this, sender, sender.timer, sender.stream, sender.stream.buffer,
        receiver, receiver.reassembler, receiver.reassembler.output, receiver.reassembler.output.buffer
    {
      && sender.stream != receiver.reassembler.output
      && sender.stream.buffer != receiver.reassembler.output.buffer
      && sender.Valid()
      && receiver.Valid()
    }

    ghost function Model(): Conn
      reads this, sender, sender.timer, sender.stream, sender.stream.buffer,
        receiver, receiver.reassembler, receiver.reassembler.output, receiver.reassembler.output.buffer
    {
      Conn(rtTimeout, sender.Model(), receiver.Model(), segmentsOut,
           lingerAfterStreamsFinish, timeSinceLastSegmentReceived, isActive)
    }

    /** Puts the acknowledgment number and window of our receiver on every queued
        segment; they do not change on the way. */
    method SendSegments() returns (isSend: bool)
      requires Valid()
      modifies `segmentsOut, sender`segmentsOut
      ensures Valid()
      ensures Model() == TcpConnections.SendSegments(old(Model()))
      ensures isSend <==> old(sender.segmentsOut) != []
    {
      var ackno := receiver.Ackno();
      var window := receiver.WindowSize();
      var stamped := StampQueue(sender.segmentsOut, ackno, window, receiver.Model());
      isSend := sender.segmentsOut != [];
      Flush(stamped);
    }

    /** The sender's queue leaves as `stamped`. */
    method Flush(stamped: seq<Segment>)
      requires Valid()
      modifies `segmentsOut, sender`segmentsOut
      ensures Valid()
      ensures Model() == old(Model()).(sender := old(Model()).sender.(out := []), out := old(Model()).out + stamped)
    {
      var _ := sender.TakeOut();
      segmentsOut := segmentsOut + stamped;
    }

    /** Queues an empty segment and takes the front of the queue. */
    method TakeFront() returns (segment: Segment)
      requires Valid()
      modifies sender`segmentsOut
      ensures Valid()
      ensures segment == SendEmpty(old(Model()).sender).out[0]
      ensures Model() == old(Model()).(sender := old(Model()).sender.(out := SendEmpty(old(Model()).sender).out[1..]))
    {
      sender.SendEmptySegment();
      segment := sender.PopOut();
    }

    method SendRstSegment()
      requires Valid()
      modifies `segmentsOut, sender`segmentsOut
      ensures Valid()
      ensures Model() == SendRst(old(Model()))
    {
      var segment := TakeFront();
      var ackno := receiver.Ackno();
      var window := receiver.WindowSize();
      var rst := MakeRst(segment, ackno, window, receiver.Model());
      Enqueue(rst);
    }

    method Enqueue(segment: Segment)
      requires Valid()
      modifies `segmentsOut
      ensures Valid()
      ensures Model() == old(Model()).(out := old(Model()).out + [segment])
    {
      segmentsOut := segmentsOut + [segment];
    }

    method PassiveClose()
      requires Valid()
      modifies this, sender.stream, receiver.reassembler.output
      ensures Valid()
      ensures Model() == TcpConnections.PassiveClose(old(Model()))
    {
      sender.SetStreamError();
      receiver.SetStreamError();
      isActive := false;
    }

    method CheckInboundEnded() returns (ended: bool)
      requires Valid()
      ensures ended == InboundEnded(Model())
    {
      ended := receiver.reassembler.unassembledBytes == 0 && receiver.reassembler.output.endInput;
    }

    method CheckOutboundEnded() returns (ended: bool)
      requires Valid()
      ensures ended == OutboundEnded(Model())
    {
      ended := sender.stream.Eof() && sender.nextSeqno == sender.stream.bytesWritten + 2 && sender.bytesInFlight == 0;
    }

    method TestEnd()
      requires Valid()
      modifies `isActive, `lingerAfterStreamsFinish
      ensures Valid()
      ensures Model() == TcpConnections.TestEnd(old(Model()))
    {
      var inbound := CheckInboundEnded();
      var outbound := CheckOutboundEnded();
      if inbound && !sender.stream.Eof() {
        lingerAfterStreamsFinish := false;
      } else if inbound && outbound {
        if !lingerAfterStreamsFinish {
          isActive := false;
        } else if timeSinceLastSegmentReceived >= 10 * rtTimeout {
          isActive := false;
        }
      }
    }

    method FillAndSend()
      requires Valid()
      modifies this, sender, sender.timer, sender.stream, sender.stream.buffer
      ensures Valid()
      ensures Model() == TcpConnections.FillAndSend(old(Model()))
    {
      sender.FillWindow();
      var _ := SendSegments();
    }

    /** Step 4 of `segment_received`: at least one segment goes out. */
    method Respond()
      requires Valid()
      modifies this, sender, sender.timer, sender.stream, sender.stream.buffer
      ensures Valid()
      ensures Model() == TcpConnections.Respond(old(Model()))
    {
      RespondIsTwoStep(Model());
      sender.FillWindow();
      var isSend := SendSegments();
      if !isSend {
        SendEmptyNow();
      }
    }

    method SendEmptyNow()
      requires Valid()
      modifies `segmentsOut, sender`segmentsOut
      ensures Valid()
      ensures Model() == TcpConnections.SendSegments(old(Model()).(sender := SendEmpty(old(Model()).sender)))
    {
      sender.SendEmptySegment();
      var _ := SendSegments();
    }

    method SendAndTest()
      requires Valid()
      modifies this, sender`segmentsOut
      ensures Valid()
      ensures Model() == TcpConnections.SendAndTest(old(Model()))
    {
      var _ := SendSegments();
      TestEnd();
    }

    method ResetReceived()
      requires Valid()
      modifies this, sender.stream, receiver.reassembler.output
      ensures Valid()
      ensures Model() == TcpConnections.PassiveClose(old(Model()).(sinceLast := 0))
    {
      timeSinceLastSegmentReceived := 0;
      PassiveClose();
    }

    /** The rest of the steps, when those before have made `before` into this connection. */
    method RespondAndTest(segment: Segment, ghost before: Conn)
      requires Valid() && CanReceive(before, segment) && Model() == AfterAck(before, segment, Model().receiver)
      modifies this, sender, sender.timer, sender.stream, sender.stream.buffer
      ensures Valid() && Model().receiver == old(Model().receiver)
      ensures Model() == TcpConnections.TestEnd(BeforeTest(before, segment, Model().receiver))
    {
      if segment.Length() > 0 {
        Respond();
      }
      TestEnd();
    }

    /** Steps 2 and 3: the receiver, then the acknowledgment. */
    method Accept(segment: Segment)
      requires Valid() && CanReceive(Model(), segment) && !segment.header.rst
      modifies this, sender, sender.timer, sender.stream, sender.stream.buffer,
        receiver, receiver.reassembler, receiver.reassembler.output, receiver.reassembler.output.buffer
      ensures Valid()
      ensures Received(old(Model()).receiver, segment, Model().receiver)
      ensures Model() == AfterAck(old(Model()), segment, Model().receiver)
    {
      timeSinceLastSegmentReceived := 0;
      receiver.SegmentReceived(segment);
      if segment.header.ack {
        TakeAck(segment.header.ackno, segment.header.win);
      }
    }

    method TakeAck(ackno: U32, window: U16)
      requires Valid()
      modifies this, sender, sender.timer, sender.stream, sender.stream.buffer
      ensures Valid()
      ensures Model() == TcpConnections.SendSegments(
        old(Model()).(sender := AckReceived(old(Model()).sender, ackno, window)))
    {
      sender.AckReceived(ackno, window);
      var _ := SendSegments();
    }

    method SegmentReceived(segment: Segment)
      requires Valid() && CanReceive(Model(), segment)
      modifies this, sender, sender.timer, sender.stream, sender.stream.buffer,
        receiver, receiver.reassembler, receiver.reassembler.output, receiver.reassembler.output.buffer
      ensures Valid()
      ensures TcpConnections.SegmentReceived(old(Model()), segment, Model())
      ensures segment.header.rst ==>
        !isActive && sender.stream.error && receiver.reassembler.output.error && segmentsOut == old(segmentsOut)
    {
      if segment.header.rst {
        ResetReceived();
        return;
      }
      ghost var before := Model();
      Accept(segment);
      RespondAndTest(segment, before);
    }

    method Write(data: seq<byte>) returns (size: nat)
      requires Valid() && !Model().sender.stream.ended
      requires |Model().sender.stream.written| + |data| + 2 < CHECKPOINT_BOUND
      modifies this, sender, sender.timer, sender.stream, sender.stream.buffer
      ensures Valid()
      ensures Model() == TcpConnections.Write(old(Model()), data)
      ensures size == Min(old(Model()).sender.stream.Remaining(), |data|)
    {
      if data == [] {
        return 0;
      }
      WriteKeeps(sender.Model(), data);
      size := sender.stream.Write(data);
      FillAndSend();
    }

    method TickSender(ms: nat)
      requires Valid()
      modifies this, sender, sender.timer
      ensures Valid()
      ensures Model() == Ticked(old(Model()), ms)
    {
      timeSinceLastSegmentReceived := timeSinceLastSegmentReceived + ms;
      sender.Tick(ms);
    }

    method Tick(ms: nat)
      requires Valid()
      modifies this, sender, sender.timer, sender.stream, sender.stream.buffer,
        receiver, receiver.reassembler, receiver.reassembler.output, receiver.reassembler.output.buffer
      ensures Valid()
      ensures Model() == TcpConnections.Tick(old(Model()), ms)
    {
      TickSender(ms);
      AbortOrGoOn();
    }

    method AbortOrGoOn()
      requires Valid()
      modifies this, sender, sender.timer, sender.stream, sender.stream.buffer,
        receiver, receiver.reassembler, receiver.reassembler.output, receiver.reassembler.output.buffer
      ensures Valid()
      ensures Model() == if GivesUp(old(Model())) then TcpConnections.Abort(old(Model()))
                         else TcpConnections.SendAndTest(old(Model()))
    {
      if sender.timer.consecutiveRetransmissions > MAX_RETX_ATTEMPTS {
        Abort();
      } else {
        SendAndTest();
      }
    }

    method EndInputStream()
      requires Valid()
      modifies this, sender, sender.timer, sender.stream, sender.stream.buffer
      ensures Valid()
      ensures Model() == TcpConnections.EndInputStream(old(Model()))
    {
      EndInputKeeps(sender.Model());
      sender.stream.EndInput();
      FillAndSend();
    }

    method Connect()
      requires Valid()
      modifies this, sender, sender.timer, sender.stream, sender.stream.buffer
      ensures Valid()
      ensures Model() == TcpConnections.Connect(old(Model()))
    {
      if sender.nextSeqno != 0 {
        return;
      }
      FillAndSend();
      isActive := true;
    }

    method Abort()
      requires Valid()
      modifies this, sender, sender.timer, sender.stream, sender.stream.buffer,
        receiver, receiver.reassembler, receiver.reassembler.output, receiver.reassembler.output.buffer
      ensures Valid()
      ensures Model() == TcpConnections.Abort(old(Model()))
    {
      PassiveClose();
      SendRstSegment();
    }

    /** What the destructor does. */
    method Destroy()
      requires Valid()
      modifies this, sender, sender.timer, sender.stream, sender.stream.buffer,
        receiver, receiver.reassembler, receiver.reassembler.output, receiver.reassembler.output.buffer
      ensures Valid()
      ensures Model() == TcpConnections.Destroy(old(Model()))
    {
      if isActive {
        Abort();
      }
    }
  }
}
