/** The receiving half of TCP. */
module TcpReceivers {
  import opened Types
  import opened WrappingIntegers
  import opened Reassembly
  import opened StreamReassemblers
  import opened TcpSegments

  datatype Receiver = Receiver(syn: bool, isn: U32, asm: Assembly) {
    /** The absolute number of the first byte (or FIN) not yet assembled. */
    function AbsAck(): nat {
      if !syn then 0 else asm.Next() + 1 + if asm.stream.ended then 1 else 0
    }

    function Ackno(): Option<U32> {
      if !syn then None
      else Some(Plus(Plus(isn, (asm.Next() + 1) % TWO32), if asm.stream.ended then 1 else 0))
    }

    function WindowSize(): int { asm.stream.Remaining() }

    /** The first absolute number that the receiver has no room for. */
    function RightEdge(): nat {
      asm.Limit() + 1 + if asm.stream.ended then 1 else 0
    }
  }

  function NewReceiver(capacity: nat): Receiver {
    Receiver(false, 0, NewAssembly(capacity))
  }

  /** The acknowledgment put on the wire is the wrapped absolute one. */
  lemma {:induction false} AcknoWrapsAbsAck(r: Receiver)
    requires r.syn
    ensures r.Ackno() == Some(Wrap(r.AbsAck(), r.isn))
  {
    if r.asm.stream.ended {
      WrapPlus(r.asm.Next() + 1, 1, r.isn);
    }
  }

  /** Segments before the first SYN are discarded. */
  predicate Discards(r: Receiver, seg: Segment) {
    !r.syn && !seg.header.syn
  }

  function IsnAfter(r: Receiver, seg: Segment): U32 {
    if r.syn then r.isn else seg.header.seqno
  }

  /** The stream index of the payload; 64-bit arithmetic, so a segment without SYN at
      the initial sequence number lands on 2^64 - 1. */
  function PayloadIndex(abs: nat, syn: bool): (index: nat)
    ensures index < TWO64
  {
    (abs - 1 + if syn then 1 else 0) % TWO64
  }

  function IndexOf(r: Receiver, seg: Segment): nat
    requires r.asm.Next() + 1 < CHECKPOINT_BOUND
  {
    PayloadIndex(Unwrap(seg.header.seqno, IsnAfter(r, seg), r.asm.Next() + 1), seg.header.syn)
  }

  /** What the source takes for granted: the checkpoint and the length fit 64 bits. */
  predicate Receivable(r: Receiver, seg: Segment) {
    r.asm.Next() + 1 < CHECKPOINT_BOUND && (!Discards(r, seg) ==> |seg.payload| < TWO64)
  }

  ghost predicate Received(r: Receiver, seg: Segment, r': Receiver)
    requires Receivable(r, seg)
  {
    if Discards(r, seg) then r' == r
    else
      && r'.syn && r'.isn == IsnAfter(r, seg)
      && Pushed(r.asm, Arriving(seg.payload, IndexOf(r, seg), seg.header.fin), r'.asm)
  }

  /** Every segment can be received. */
  lemma {:induction false} ReceivedHasOutcome(r: Receiver, seg: Segment) returns (r': Receiver)
    requires Receivable(r, seg) && r.asm.Valid()
    ensures Received(r, seg, r')
  {
    r' := r;
    if !Discards(r, seg) {
      var b := PushHasOutcome(r.asm, Arriving(seg.payload, IndexOf(r, seg), seg.header.fin));
      r' := Receiver(true, IsnAfter(r, seg), b);
    }
  }

  lemma {:induction false} LastIndexWraps(data: seq<byte>, eof: bool)
    requires 0 < |data| < TWO64
    ensures Arriving(data, TWO64 - 1, eof) == Push([], |data| - 1, eof)
  {
  }

  /** A segment without SYN at the initial sequence number lies before the stream. Its
      payload is lost; a FIN on it sets the end one short of the payload's length. */
  lemma {:induction false} BeforeTheStream(r: Receiver, seg: Segment, r': Receiver)
    requires Receivable(r, seg) && Received(r, seg, r') && r.asm.Valid()
    requires r.syn && !seg.header.syn && Unwrap(seg.header.seqno, r.isn, r.asm.Next() + 1) == 0
    requires seg.payload != []
    ensures forall i: nat :: r'.asm.Known(i) <==> r.asm.Known(i)
    ensures r'.AbsAck() >= r.AbsAck() && r'.asm.Next() == r.asm.Next()
    ensures r'.asm.eof == if seg.header.fin then Some(|seg.payload| - 1) else r.asm.eof
  {
    assert IndexOf(r, seg) == TWO64 - 1;
    LastIndexWraps(seg.payload, seg.header.fin);
    NextIsLeastUnknown(r.asm, r.asm.Next());
    NextIsLeastUnknown(r'.asm, r.asm.Next());
  }

  /** Acknowledgment number and window together give the right edge. */
  lemma {:induction false} WindowEndsAtEdge(r: Receiver)
    requires r.syn
    ensures r.AbsAck() + r.WindowSize() == r.RightEdge()
  {
  }

  /** The advertised window ends exactly where the receiver stops accepting: of the new
      bytes of a segment, those below first-unassembled plus window are kept and no
      others. */
  lemma {:induction false} WindowIsWhatIsAccepted(r: Receiver, p: Push, b: Assembly, i: nat)
    requires r.asm.Valid() && Pushed(r.asm, p, b)
    requires p.Covers(i) && !r.asm.Known(i)
    ensures 0 <= r.WindowSize()
    ensures b.Known(i) <==> i < r.asm.Next() + r.WindowSize()
  {
    assert r.asm.Limit() == r.asm.Next() + r.WindowSize();
    assert KnownGrows(r.asm, p, b);
  }

  class TCPReceiver {
    const reassembler: StreamReassembler
    var syn: bool
    var isn: U32

    constructor (capacity: nat)
      ensures Valid() && Model() == NewReceiver(capacity)
      ensures fresh(reassembler) && fresh(reassembler.output) && fresh(reassembler.output.buffer)
    {
      reassembler := new StreamReassembler(capacity);
      syn, isn := false, 0;
    }

    ghost predicate Valid()
      reads this, reassembler, reassembler.output, reassembler.output.buffer
    {
      reassembler.Valid()
    }

    ghost function Model(): Receiver
      reads this, reassembler, reassembler.output
    {
      Receiver(syn, isn, reassembler.Model())
    }

    method SegmentReceived(seg: Segment)
      requires Valid() && Receivable(Model(), seg)
      modifies this, reassembler, reassembler.output, reassembler.output.buffer
      ensures Valid()
      ensures Received(old(Model()), seg, Model())
    {
      if !syn {
        if !seg.header.syn {
          return;
        }
        syn := true;
        isn := seg.header.seqno;
      }
      var checkpoint := reassembler.output.bytesWritten + 1;
      var absSeqno := Unwrap(seg.header.seqno, isn, checkpoint);
      var streamIndex := PayloadIndex(absSeqno, seg.header.syn);
      reassembler.PushSubstring(seg.payload, streamIndex, seg.header.fin);
    }

    method SetStreamError()
      requires Valid()
      modifies reassembler.output
      ensures Valid()
      ensures Model() == old(Model()).(asm := old(Model()).asm.(stream := old(Model()).asm.stream.SetError()))
    {
      reassembler.output.SetError();
    }

    method Ackno() returns (ackno: Option<U32>)
      requires Valid()
      ensures ackno == Model().Ackno()
    {
      if !syn {
        return None;
      }
      var bytesWritten := reassembler.output.bytesWritten + 1;
      return Some(Plus(Plus(isn, bytesWritten % TWO32), if reassembler.output.endInput then 1 else 0));
    }

    method WindowSize() returns (n: int)
      requires Valid()
      ensures n == Model().WindowSize() && 0 <= n
    {
      n := reassembler.output.RemainingCapacity();
    }
  }
}
