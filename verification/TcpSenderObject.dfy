/** The sender as an object whose methods update its queues and counters. */
module TcpSenderObjects {
  import opened Types
  import opened WrappingIntegers
  import opened ByteStreams
  import opened TcpSegments
  import opened RetransmissionTimers
  import opened TcpSenders
  import opened TcpSenderInvariant

  class TCPSender {
    const isn: U32
    var segmentsOut: seq<Segment>
    var segmentsTrack: seq<Segment>
    const timer: RetransmissionTimer
    const stream: ByteStream
    var nextSeqno: nat
    var absAckno: nat
    var windowSize: nat
    var bytesInFlight: int

    constructor (capacity: nat, retxTimeout: nat, isn: U32)
      ensures Valid() && Model() == NewSender(capacity, retxTimeout, isn)
      ensures fresh(timer) && fresh(stream) && fresh(stream.buffer)
    {
      this.isn := isn;
      segmentsOut, segmentsTrack := [], [];
      timer := new RetransmissionTimer(retxTimeout);
      stream := new ByteStream(capacity);
      nextSeqno, absAckno, windowSize, bytesInFlight := 0, 0, 1, 0;
      new;
      NewSenderInv(capacity, retxTimeout, isn);
    }

    ghost function Model(): Sender
      reads this, timer, stream
    {
      Sender(isn, segmentsOut, segmentsTrack, timer.Model(), stream.Model(),
             nextSeqno, absAckno, windowSize, bytesInFlight)
    }

    ghost predicate Valid()
      reads this, timer, stream, stream.buffer
    {
      stream.Valid() && SenderInv(Model())
    }

    method SendNoEmptySegment(syn: bool, payload: seq<byte>, fin: bool)
      requires stream.Valid()
      modifies this, timer
      ensures stream.Valid()
      ensures Model() == Emit(old(Model()), syn, payload, fin)
    {
      var segment := MakeSegment(Wrap(nextSeqno, isn), syn, payload, fin);
      nextSeqno := nextSeqno + segment.Length();
      bytesInFlight := bytesInFlight + segment.Length();
      segmentsOut := segmentsOut + [segment];
      segmentsTrack := segmentsTrack + [segment];
      if !timer.running {
        timer.Start();
      }
    }

    /** Reads from the stream into a segment and sends it. */
    method SendRead(size: nat, payload: seq<byte>, fin: bool, ghost before: Sender)
      requires stream.Valid() && before.stream.Valid()
      requires Model() == before.(stream := before.stream.Pop(size))
      requires payload == before.stream.Peek(size)
      modifies this, timer
      ensures stream.Valid()
      ensures Model() == SendData(before, size, fin)
    {
      SendNoEmptySegment(false, payload, fin);
    }

    /** One turn of the loop in `fill_window`; `more` says whether it goes on. */
    method FillOnce(window: nat) returns (more: bool)
      requires stream.Valid()
      modifies this, timer, stream, stream.buffer
      ensures stream.Valid()
      ensures FillTurn(old(Model()), window) == if more then More(Model()) else Done(Model())
    {
      ghost var before := Model();
      var remain := window - (nextSeqno - absAckno);
      if remain <= 0 {
        return false;
      }
      if !stream.Eof() {
        var size := Min(remain, MAX_PAYLOAD_SIZE);
        var payload := stream.Read(size);
        var fin := stream.Eof() && remain - |payload| > 0;
        if |payload| == 0 && !fin {
          return false;
        }
        SendRead(size, payload, fin, before);
        return true;
      }
      if nextSeqno < stream.bytesWritten + 2 {
        SendRead(0, [], true, before);
      }
      return false;
    }

    method FillWindow()
      requires Valid()
      modifies this, timer, stream, stream.buffer
      ensures Valid()
      ensures Model() == TcpSenders.FillWindow(old(Model()))
    {
      FillWindowIsSafeAndMaximal(Model());
      var window := if windowSize == 0 then 1 else windowSize;
      if nextSeqno == 0 {
        SendNoEmptySegment(true, [], false);
      } else if nextSeqno == bytesInFlight {
        return;
      }
      ghost var start := Model();
      var more := true;
      while more
        invariant stream.Valid()
        invariant if more then FillLoop(start, window) == FillLoop(Model(), window)
                  else FillLoop(start, window) == Model()
        decreases more, Max(0, window - (nextSeqno - absAckno))
      {
        more := FillOnce(window);
      }
    }

    method PopAcknowledged()
      requires stream.Valid() && absAckno < CHECKPOINT_BOUND
      modifies `segmentsTrack, `bytesInFlight
      ensures stream.Valid()
      ensures Model() == PopAcked(old(Model()))
    {
      ghost var start := Model();
      while segmentsTrack != []
        invariant stream.Valid()
        invariant absAckno == start.acked && PopAcked(start) == PopAcked(Model())
        decreases |segmentsTrack|
      {
        var segment := segmentsTrack[0];
        var maxSegAckno := Unwrap(segment.header.seqno, isn, absAckno) + segment.Length();
        if absAckno < maxSegAckno {
          return;
        }
        segmentsTrack := segmentsTrack[1..];
        bytesInFlight := bytesInFlight - segment.Length();
      }
    }

    method AckReceived(ackno: U32, window: U16)
      requires Valid()
      modifies this, timer, stream, stream.buffer
      ensures Valid()
      ensures Model() == TcpSenders.AckReceived(old(Model()), ackno, window)
    {
      var abs := Unwrap(ackno, isn, absAckno);
      if abs > nextSeqno {
        return;
      }
      if abs <= absAckno {
        windowSize := window;
        return;
      }
      Acknowledge(abs, window);
      FillWindow();
    }

    /** Everything about a new acknowledgment but the refill. */
    method Acknowledge(abs: nat, window: U16)
      requires Valid() && absAckno < abs <= nextSeqno
      modifies this, timer
      ensures Valid()
      ensures Model() == AckOnly(old(Model()), abs, window)
    {
      AckOnlyKeeps(Model(), abs, window);
      windowSize := window;
      absAckno := abs;
      PopAcknowledged();
      if segmentsTrack != [] {
        timer.Start();
      } else {
        timer.Close();
      }
    }

    method SetStreamError()
      requires Valid()
      modifies stream
      ensures Valid()
      ensures Model() == old(Model()).(stream := old(Model()).stream.SetError())
    {
      SetErrorKeeps(Model());
      stream.SetError();
    }

    method Tick(ms: nat)
      requires Valid()
      modifies this, timer
      ensures Valid()
      ensures Model() == TcpSenders.Tick(old(Model()), ms)
    {
      TickKeeps(Model(), ms);
      if !timer.running {
        return;
      }
      var expired := timer.Timeout(ms);
      if !expired {
        return;
      }
      // the source also closes the timer when nothing is tracked, which cannot be here
      assert segmentsTrack != [];
      segmentsOut := segmentsOut + [segmentsTrack[0]];
      timer.ResetTimer(windowSize);
    }

    method SendEmptySegment()
      requires Valid()
      modifies `segmentsOut
      ensures Valid()
      ensures Model() == SendEmpty(old(Model()))
    {
      SendEmptyKeeps(Model());
      segmentsOut := segmentsOut + [MakeSegment(Wrap(nextSeqno, isn), false, [], false)];
    }

    /** Takes everything off the outbound queue. */
    method TakeOut() returns (queue: seq<Segment>)
      requires Valid()
      modifies `segmentsOut
      ensures Valid()
      ensures queue == old(segmentsOut)
      ensures Model() == old(Model()).(out := [])
    {
      queue := segmentsOut;
      segmentsOut := [];
    }

    /** Takes the first segment off the outbound queue. */
    method PopOut() returns (segment: Segment)
      requires Valid() && segmentsOut != []
      modifies `segmentsOut
      ensures Valid()
      ensures segment == old(segmentsOut)[0]
      ensures Model() == old(Model()).(out := old(segmentsOut)[1..])
    {
      segment := segmentsOut[0];
      assert AllQueued(segmentsOut[1..], isn, stream.Model(), nextSeqno);
      segmentsOut := segmentsOut[1..];
    }
  }
}
