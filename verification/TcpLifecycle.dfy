/** What each step of a run does to an endpoint, field by field: resets, aborts, the end
    of a connection, the clocks and the streams. */
module TcpLifecycle {
  import opened Types
  import opened WrappingIntegers
  import opened ByteStreams
  import opened TcpSegments
  import opened TcpSenders
  import opened TcpSenderInvariant
  import opened TcpReceivers
  import opened TcpLinks
  import opened TcpDelivery
  import opened TcpConnections
  import opened TcpSystems
  import opened TcpTwoEndpoints

  /** Endpoint `byA` performs `op` in step `k`. */
  predicate Performs(acts: seq<(bool, Action)>, byA: bool, k: nat, op: Op)
    requires k < |acts|
  {
    acts[k] == (byA, Perform(op))
  }

  // ---- resets and errors

  predicate InError(c: Conn) {
    c.sender.stream.error && c.receiver.asm.stream.error
  }

  predicate Healthy(c: Conn) {
    !c.sender.stream.error && !c.receiver.asm.stream.error
  }

  /** The endpoint has been reset: dead, both streams in error, nothing sent. */
  predicate ResetBy(c: Conn, c': Conn) {
    && !c'.active && InError(c') && c'.out == c.out
    && c'.sender.out == c.sender.out && c'.sender.next == c.sender.next
  }

  lemma {:induction false} ReceivedReset(c: Conn, seg: Segment, c': Conn)
    requires CanReceive(c, seg) && SegmentReceived(c, seg, c') && seg.header.rst
    ensures ResetBy(c, c')
  {
  }

  /** A healthy endpoint after an abort: dead, both streams in error, and one more segment
      on its queue, a reset. */
  predicate AbortedBy(c: Conn, c': Conn) {
    && !c'.active && InError(c')
    && |c'.out| == |c.out| + 1 && c.out <= c'.out
    && var q := c'.out[|c.out|];
       && q.header.rst && (q.header.ack <==> c.receiver.syn)
       && (c.receiver.syn ==> q.header.ackno == Wrap(c.receiver.AbsAck(), c.receiver.isn))
       && q.header.win == c.receiver.WindowSize() % TWO16
  }

  lemma {:induction false} AbortResets(c: Conn)
    requires forall q :: q in c.sender.out ==> Bare(q)
    ensures AbortedBy(c, Abort(c))
  {
    var queue := SendEmpty(c.sender).out;
    assert queue[0] in queue;
    if c.receiver.syn {
      AcknoWrapsAbsAck(c.receiver);
    }
  }

  /** The reset is made from the front of the sender's queue: an empty segment at the next
      number if nothing was queued, and otherwise whatever was first in it. */
  lemma {:induction false} ResetIsFront(c: Conn)
    requires SenderInv(c.sender)
    ensures var q := Abort(c).out[|c.out|];
      if c.sender.out == [] then q.Length() == 0 && q.header.seqno == Wrap(c.sender.next, c.sender.isn)
      else SameContent(c.sender.out[0], q)
  {
  }

  // ---- ordinary operations

  /** The segment carries our receiver's acknowledgment number and window, if it has got a
      SYN, and is no reset. */
  predicate Stamped(q: Segment, r: Receiver) {
    && !q.header.rst && (q.header.ack <==> r.syn)
    && (r.syn ==> q.header.ackno == Wrap(r.AbsAck(), r.isn))
    && q.header.win == Min(r.asm.stream.capacity - (|r.asm.stream.written| - r.asm.stream.read), 65535)
  }

  predicate AllStamped(segs: seq<Segment>, from: nat, r: Receiver) {
    forall i :: from <= i < |segs| ==> Stamped(segs[i], r)
  }

  /** No error, no reset: the queue may have grown by ordinary segments. */
  predicate GoesOn(c: Conn, c': Conn) {
    && c'.receiver == c.receiver && c'.sinceLast == c.sinceLast
    && c'.sender.stream.error == c.sender.stream.error
    && c.out <= c'.out && AllStamped(c'.out, |c.out|, c.receiver)
  }

  lemma {:induction false} GoesOnTrans(c: Conn, m: Conn, c': Conn)
    requires GoesOn(c, m) && GoesOn(m, c')
    ensures GoesOn(c, c')
  {
  }

  lemma {:induction false} StampAllIs(segs: seq<Segment>, r: Receiver)
    ensures |StampAll(segs, r)| == |segs|
    ensures forall i :: 0 <= i < |segs| ==> StampAll(segs, r)[i] == Stamp(segs[i], r)
  {
    if segs != [] {
      StampAllIs(segs[1..], r);
    }
  }

  lemma {:induction false} StampStamps(q: Segment, r: Receiver)
    requires Bare(q) && r.asm.stream.Valid()
    ensures Stamped(Stamp(q, r), r)
  {
    if r.syn {
      AcknoWrapsAbsAck(r);
    }
  }

  lemma {:induction false} SendGoesOn(c: Conn)
    requires AllQueued(c.sender.out, c.sender.isn, c.sender.stream, c.sender.next) && c.receiver.asm.stream.Valid()
    ensures GoesOn(c, SendSegments(c))
  {
    StampAllIs(c.sender.out, c.receiver);
    forall i | 0 <= i < |c.sender.out|
      ensures Stamped(StampAll(c.sender.out, c.receiver)[i], c.receiver)
    {
      assert c.sender.out[i] in c.sender.out;
      StampStamps(c.sender.out[i], c.receiver);
    }
  }

  lemma {:induction false} FillGoesOn(c: Conn)
    requires SenderInv(c.sender) && c.receiver.asm.stream.Valid()
    ensures GoesOn(c, FillAndSend(c)) && GoesOn(c, Respond(c))
  {
    FillWindowIsSafeAndMaximal(c.sender);
    var f := FillWindow(c.sender);
    SendEmptyKeeps(f);
    SendGoesOn(c.(sender := f));
    SendGoesOn(c.(sender := SendEmpty(f)));
  }

  lemma {:induction false} AckGoesOn(c: Conn, seg: Segment)
    requires SenderInv(c.sender) && c.receiver.asm.stream.Valid()
    ensures GoesOn(c, SendSegments(c.(sender := AckReceived(c.sender, seg.header.ackno, seg.header.win))))
  {
    AckReceivedKeeps(c.sender, seg.header.ackno, seg.header.win);
    SendGoesOn(c.(sender := AckReceived(c.sender, seg.header.ackno, seg.header.win)));
  }

  lemma {:induction false} TestGoesOn(c: Conn)
    ensures GoesOn(c, TestEnd(c))
  {
  }

  lemma {:induction false} ReceiveGoesOn(c: Conn, w: World, seg: Segment, c': Conn)
    requires Good(c, w) && Timely(c, w, seg) && CanReceive(c, seg) && SegmentReceived(c, seg, c') && !seg.header.rst
    ensures GoesOn(c.(receiver := c'.receiver, sinceLast := 0), c')
  {
    var c1 := c.(sinceLast := 0, receiver := c'.receiver);
    var c2 := AfterAck(c, seg, c'.receiver);
    DeliverMoves(c, w, seg, c'.receiver);
    AfterAckMoves(c, w, seg, c'.receiver);
    if seg.header.ack {
      AckGoesOn(c1, seg);
    }
    FillGoesOn(c2);
    GoesOnTrans(c1, c2, BeforeTest(c, seg, c'.receiver));
    TestGoesOn(BeforeTest(c, seg, c'.receiver));
    GoesOnTrans(c1, BeforeTest(c, seg, c'.receiver), c');
  }

  lemma {:induction false} TickGoesOn(c: Conn, w: World, ms: nat)
    requires Good(c, w) && !GivesUp(Ticked(c, ms))
    ensures GoesOn(c.(sinceLast := c.sinceLast + ms), TcpConnections.Tick(c, ms))
    ensures TcpConnections.Tick(c, ms).sender.timer.consecutive <= MAX_RETX_ATTEMPTS
  {
    var c1 := Ticked(c, ms);
    TickKeeps(c.sender, ms);
    SendGoesOn(c1);
    TestGoesOn(SendSegments(c1));
    GoesOnTrans(c1, SendSegments(c1), SendAndTest(c1));
  }

  lemma {:induction false} TickAborts(c: Conn, w: World, ms: nat)
    requires Good(c, w) && GivesUp(Ticked(c, ms))
    ensures AbortedBy(c, TcpConnections.Tick(c, ms))
    ensures TcpConnections.Tick(c, ms).sender.timer.consecutive > MAX_RETX_ATTEMPTS
    ensures TcpConnections.Tick(c, ms).sinceLast == c.sinceLast + ms
  {
    TickKeeps(c.sender, ms);
    AbortResets(Ticked(c, ms));
  }

  lemma {:induction false} WriteGoesOn(c: Conn, w: World, data: seq<byte>)
    requires Good(c, w) && !c.sender.stream.ended
    requires |c.sender.stream.written| + |data| + 2 < CHECKPOINT_BOUND
    ensures GoesOn(c, TcpConnections.Write(c, data))
  {
    WriteKeeps(c.sender, data);
    FillGoesOn(c.(sender := c.sender.(stream := c.sender.stream.Write(data))));
  }

  lemma {:induction false} EndGoesOn(c: Conn, w: World)
    requires Good(c, w)
    ensures GoesOn(c, EndInputStream(c))
  {
    EndInputKeeps(c.sender);
    FillGoesOn(c.(sender := c.sender.(stream := c.sender.stream.EndInput())));
  }

  /** The endpoint gives up or is destroyed. */
  predicate Aborts(c: Conn, op: Op, c': Conn) {
    || (op.DestroyOp? && c.active)
    || (op.TickOp? && c'.sender.timer.consecutive > MAX_RETX_ATTEMPTS)
  }

  predicate TakesReset(op: Op) {
    op.ReceiveOp? && op.segment.header.rst
  }

  /** What every operation does to errors, queue and clock. */
  predicate Lawful(c: Conn, op: Op, c': Conn) {
    && c'.sinceLast == SinceLastAfter(c, op)
    && (TakesReset(op) ==> ResetBy(c, c'))
    && (Aborts(c, op, c') ==> AbortedBy(c, c'))
    && (!TakesReset(op) && !Aborts(c, op, c') ==>
          && c'.sender.stream.error == c.sender.stream.error
          && c'.receiver.asm.stream.error == c.receiver.asm.stream.error
          && c.out <= c'.out && AllStamped(c'.out, |c.out|, c'.receiver))
  }

  lemma {:induction false} ReceiveIsLawful(c: Conn, w: World, seg: Segment, c': Conn)
    requires Good(c, w) && (seg.header.rst || Timely(c, w, seg))
    requires CanReceive(c, seg) && SegmentReceived(c, seg, c')
    ensures Lawful(c, ReceiveOp(seg), c')
  {
    if seg.header.rst {
      ReceivedReset(c, seg, c');
    } else {
      ReceiveGoesOn(c, w, seg, c');
    }
  }

  lemma {:induction false} TickIsLawful(c: Conn, w: World, ms: nat)
    requires Good(c, w)
    ensures Lawful(c, TickOp(ms), TcpConnections.Tick(c, ms))
  {
    if GivesUp(Ticked(c, ms)) {
      TickAborts(c, w, ms);
    } else {
      TickGoesOn(c, w, ms);
    }
  }

  lemma {:induction false} OpIsLawful(c: Conn, op: Op, c': Conn, w: World, wire: set<Segment>)
    requires Good(c, w) && OpStep(c, op, c', w, wire)
    ensures Lawful(c, op, c')
  {
    GoodIsUsable(c, w);
    match op
    case ConnectOp => FillGoesOn(c);
    case WriteOp(data) => WriteGoesOn(c, w, data);
    case EndOp => EndGoesOn(c, w);
    case TickOp(ms) => TickIsLawful(c, w, ms);
    case ReceiveOp(seg) =>
      TimelyCanReceive(c, w, seg);
      ReceiveIsLawful(c, w, seg, c');
    case ReadOp(len) =>
    case DestroyOp => AbortResets(c);
  }

  // ---- what the applications do to the streams

  /** The outbound stream grows by what is written and fits, and ends when it is ended; the
      inbound stream is read by what is asked for and there, and nothing else. */
  predicate FollowsApplication(c: Conn, op: Op, c': Conn) {
    var out, inb := c.sender.stream, c.receiver.asm.stream;
    && c'.sender.stream.written == out.written
       + (if op.WriteOp? then op.data[..Max(0, Min(out.capacity - (|out.written| - out.read), |op.data|))] else [])
    && (c'.sender.stream.ended <==> out.ended || op.EndOp?)
    && c'.sender.stream.capacity == out.capacity
    && c'.receiver.asm.stream.capacity == inb.capacity
    && c'.receiver.asm.stream.read == inb.read + (if op.ReadOp? then Min(op.len, |inb.written| - inb.read) else 0)
  }

  predicate SameWritten(s: Sender, s': Sender) {
    s'.stream.written == s.stream.written && s'.stream.ended == s.stream.ended && s'.stream.capacity == s.stream.capacity
  }

  lemma {:induction false} FillKeepsWritten(c: Conn)
    requires SenderInv(c.sender)
    ensures SameWritten(c.sender, FillAndSend(c).sender) && FillAndSend(c).receiver == c.receiver
    ensures SameWritten(c.sender, Respond(c).sender) && Respond(c).receiver == c.receiver
  {
    FillWindowIsSafeAndMaximal(c.sender);
  }

  lemma {:induction false} AckKeepsWritten(c: Conn, seg: Segment, r: Receiver)
    requires SenderInv(c.sender)
    ensures SameWritten(c.sender, AfterAck(c, seg, r).sender)
  {
    if seg.header.ack {
      AckReceivedKeeps(c.sender, seg.header.ackno, seg.header.win);
    }
  }

  lemma {:induction false} ReceivedKeepsRead(r: Receiver, seg: Segment, r': Receiver)
    requires Receivable(r, seg) && Received(r, seg, r')
    ensures r'.asm.stream.capacity == r.asm.stream.capacity && r'.asm.stream.read == r.asm.stream.read
  {
  }

  lemma {:induction false} BeforeTestWritten(c: Conn, w: World, seg: Segment, r: Receiver)
    requires Good(c, w) && Timely(c, w, seg) && Receivable(c.receiver, seg) && Received(c.receiver, seg, r)
    ensures SameWritten(c.sender, BeforeTest(c, seg, r).sender)
  {
    AckKeepsWritten(c, seg, r);
    AfterAckMoves(c, w, seg, r);
    FillKeepsWritten(AfterAck(c, seg, r));
  }

  lemma {:induction false} ReceivedSameWritten(c: Conn, w: World, seg: Segment, c': Conn)
    requires Good(c, w) && Timely(c, w, seg) && CanReceive(c, seg) && SegmentReceived(c, seg, c') && !seg.header.rst
    ensures SameWritten(c.sender, c'.sender)
  {
    BeforeTestWritten(c, w, seg, c'.receiver);
    assert c'.sender == BeforeTest(c, seg, c'.receiver).sender;
  }

  lemma {:induction false} ReceiveKeepsWritten(c: Conn, w: World, seg: Segment, c': Conn)
    requires Good(c, w) && (seg.header.rst || Timely(c, w, seg)) && CanReceive(c, seg) && SegmentReceived(c, seg, c')
    ensures SameWritten(c.sender, c'.sender)
    ensures c'.receiver.asm.stream.capacity == c.receiver.asm.stream.capacity
    ensures c'.receiver.asm.stream.read == c.receiver.asm.stream.read
  {
    if !seg.header.rst {
      ReceivedKeepsRead(c.receiver, seg, c'.receiver);
      ReceivedSameWritten(c, w, seg, c');
    }
  }

  lemma {:induction false} TickKeepsWritten(c: Conn, ms: nat)
    requires SenderInv(c.sender)
    ensures SameWritten(c.sender, TcpConnections.Tick(c, ms).sender)
    ensures TcpConnections.Tick(c, ms).receiver.asm.stream
      == c.receiver.asm.stream.(error := TcpConnections.Tick(c, ms).receiver.asm.stream.error)
  {
    TickKeeps(c.sender, ms);
  }

  lemma {:induction false} WriteFollows(c: Conn, data: seq<byte>)
    requires SenderInv(c.sender) && !c.sender.stream.ended
    requires |c.sender.stream.written| + |data| + 2 < CHECKPOINT_BOUND
    ensures FollowsApplication(c, WriteOp(data), TcpConnections.Write(c, data))
  {
    WriteKeeps(c.sender, data);
    FillKeepsWritten(c.(sender := c.sender.(stream := c.sender.stream.Write(data))));
  }

  lemma {:induction false} EndFollows(c: Conn)
    requires SenderInv(c.sender)
    ensures FollowsApplication(c, EndOp, EndInputStream(c))
  {
    EndInputKeeps(c.sender);
    FillKeepsWritten(c.(sender := c.sender.(stream := c.sender.stream.EndInput())));
  }

  lemma {:induction false} OpFollows(c: Conn, op: Op, c': Conn, w: World, wire: set<Segment>)
    requires Good(c, w) && OpStep(c, op, c', w, wire)
    ensures FollowsApplication(c, op, c')
  {
    GoodIsUsable(c, w);
    match op
    case ConnectOp => FillKeepsWritten(c);
    case WriteOp(data) => WriteFollows(c, data);
    case EndOp => EndFollows(c);
    case TickOp(ms) => TickKeepsWritten(c, ms);
    case ReceiveOp(seg) =>
      TimelyCanReceive(c, w, seg);
      ReceiveKeepsWritten(c, w, seg, c');
    case _ =>
  }

  // ---- the end of a connection

  /** Nothing is left to do in either direction, and lingering is over or not needed. */
  predicate Finished(c: Conn) {
    && c.receiver.asm.stream.ended && c.receiver.asm.buffered == map[]
    && AllAcknowledged(c.sender)
    && (!c.linger || c.sinceLast >= 10 * c.rtTimeout)
  }

  /** The peer has finished first. */
  predicate PeerFirst(c: Conn) {
    c.receiver.asm.stream.ended && c.receiver.asm.buffered == map[] && !c.sender.stream.Eof()
  }

  lemma {:induction false} TestDecides(c: Conn)
    requires SenderInv(c.sender)
    ensures Finished(TestEnd(c)) ==> !TestEnd(c).active
    ensures PeerFirst(TestEnd(c)) ==> !TestEnd(c).linger
  {
    NothingInFlight(c.sender);
  }

  lemma {:induction false} TickCloses(c: Conn, w: World, ms: nat)
    requires Good(c, w)
    ensures var c' := TcpConnections.Tick(c, ms);
      (Finished(c') ==> !c'.active) && (c'.active && PeerFirst(c') ==> !c'.linger)
  {
    TickKeeps(c.sender, ms);
    if GivesUp(Ticked(c, ms)) {
      TickAborts(c, w, ms);
    } else {
      TestDecides(SendSegments(Ticked(c, ms)));
    }
  }

  lemma {:induction false} ReceiveCloses(c: Conn, w: World, seg: Segment, c': Conn)
    requires Good(c, w) && (seg.header.rst || Timely(c, w, seg)) && CanReceive(c, seg) && SegmentReceived(c, seg, c')
    ensures Finished(c') ==> !c'.active
    ensures c'.active && PeerFirst(c') ==> !c'.linger
  {
    if seg.header.rst {
      ReceivedReset(c, seg, c');
    } else {
      BeforeTestMoves(c, w, seg, c'.receiver);
      TestDecides(BeforeTest(c, seg, c'.receiver));
    }
  }

  lemma {:induction false} OpCloses(c: Conn, op: Op, c': Conn, w: World, wire: set<Segment>)
    requires Good(c, w) && OpStep(c, op, c', w, wire) && (op.TickOp? || op.ReceiveOp?)
    ensures Finished(c') ==> !c'.active
    ensures c'.active && PeerFirst(c') ==> !c'.linger
  {
    GoodIsUsable(c, w);
    match op
    case TickOp(ms) => TickCloses(c, w, ms);
    case ReceiveOp(seg) =>
      TimelyCanReceive(c, w, seg);
      ReceiveCloses(c, w, seg, c');
  }

  // ---- opening and answering

  lemma {:induction false} FillOpens(c: Conn)
    requires SenderInv(c.sender) && c.sender.next == 0 && c.sender.out == []
    ensures var c' := FillAndSend(c);
      && c'.sender.next >= 1 && |c'.out| > |c.out|
      && c'.out[|c.out|].header.syn && c'.out[|c.out|].header.seqno == c.sender.isn
      && c'.out[|c.out|].payload == []
  {
    var s := Emit(c.sender, true, [], false);
    FillLoopGrows(s, EffectiveWindow(c.sender));
    FillLoopTracks(s, EffectiveWindow(c.sender));
    StampAllIs(FillWindow(c.sender).out, c.receiver);
    WrapZero(c.sender.isn);
  }

  /** Connecting opens the connection with a SYN at the initial number and makes it active. */
  lemma {:induction false} ConnectOpens(c: Conn)
    requires SenderInv(c.sender) && c.sender.out == []
    ensures c.sender.next > 0 ==> Connect(c) == c
    ensures c.sender.next == 0 ==>
      var c' := Connect(c);
      && c'.active && c'.sender.next >= 1 && |c'.out| > |c.out|
      && c'.out[|c.out|].header.syn && c'.out[|c.out|].header.seqno == c.sender.isn
  {
    if c.sender.next == 0 {
      FillOpens(c);
    }
  }

  lemma {:induction false} RespondSends(c: Conn)
    requires c.sender.stream.Valid()
    ensures |Respond(c).out| > |c.out|
  {
    var s := FillWindow(c.sender);
    StampAllIs(s.out, c.receiver);
    StampAllIs(SendEmpty(s).out, c.receiver);
  }

  /** Every segment that takes up sequence numbers is answered. */
  lemma {:induction false} NumbersAreAnswered(c: Conn, seg: Segment, c': Conn)
    requires CanReceive(c, seg) && SegmentReceived(c, seg, c') && !seg.header.rst && seg.Length() > 0
    ensures |c'.out| > |c.out|
  {
    RespondSends(AfterAck(c, seg, c'.receiver));
  }

  // ---- nothing that can be sent is held back

  /** All that can be sent has left: the SYN waits for its acknowledgment, or the window is
      full, or the stream is drained and its end sent too; and the sender's queue is empty. */
  predicate AllOut(s: Sender) {
    && s.out == []
    && (|| (s.next > 0 && s.acked == 0)
        || s.next - s.acked >= (if s.window == 0 then 1 else s.window)
        || (s.stream.read == |s.stream.written| && (s.stream.ended ==> s.next == |s.stream.written| + 2)))
  }

  lemma {:induction false} FilledIsAllOut(s: Sender)
    requires SenderInv(s)
    ensures AllOut(FillWindow(s).(out := []))
  {
    FillWindowIsSafeAndMaximal(s);
    if s.next > 0 {
      SynSentMeansUnacked(s);
    }
  }

  lemma {:induction false} FillSendsAll(c: Conn)
    requires SenderInv(c.sender)
    ensures AllOut(FillAndSend(c).sender) && AllOut(Respond(c).sender)
  {
    FilledIsAllOut(c.sender);
    RespondSender(c);
  }

  /** The operations that give the sender something new to do. */
  predicate Prompts(c: Conn, op: Op, c': Conn) {
    match op
    case ConnectOp => c.sender.next == 0
    case WriteOp(data) => data != []
    case EndOp => true
    case ReceiveOp(seg) => !seg.header.rst && (seg.Length() > 0 || c'.sender.acked > c.sender.acked)
    case _ => false
  }

  lemma {:induction false} AckSendsAll(c: Conn, seg: Segment, r: Receiver)
    requires SenderInv(c.sender) && AfterAck(c, seg, r).sender.acked > c.sender.acked
    ensures AllOut(AfterAck(c, seg, r).sender)
  {
    AckReceivedKeeps(c.sender, seg.header.ackno, seg.header.win);
    NewAckRestartsTimer(c.sender, seg.header.ackno, seg.header.win);
  }

  lemma {:induction false} BeforeTestSender(c: Conn, seg: Segment, c': Conn)
    requires CanReceive(c, seg) && SegmentReceived(c, seg, c') && !seg.header.rst
    ensures var m := AfterAck(c, seg, c'.receiver);
      c'.sender == if seg.Length() > 0 then Respond(m).sender else m.sender
  {
  }

  lemma {:induction false} ReceiveSendsAll(c: Conn, w: World, seg: Segment, c': Conn)
    requires Good(c, w) && Timely(c, w, seg) && CanReceive(c, seg) && SegmentReceived(c, seg, c')
    requires !seg.header.rst && (seg.Length() > 0 || c'.sender.acked > c.sender.acked)
    ensures AllOut(c'.sender)
  {
    var m := AfterAck(c, seg, c'.receiver);
    AfterAckMoves(c, w, seg, c'.receiver);
    BeforeTestSender(c, seg, c');
    if seg.Length() > 0 {
      FillSendsAll(m);
    } else {
      AckSendsAll(c, seg, c'.receiver);
    }
  }

  lemma {:induction false} OpSendsAll(c: Conn, op: Op, c': Conn, w: World, wire: set<Segment>)
    requires Good(c, w) && OpStep(c, op, c', w, wire) && Prompts(c, op, c')
    ensures AllOut(c'.sender)
  {
    GoodIsUsable(c, w);
    match op
    case ConnectOp => FillSendsAll(c);
    case WriteOp(data) =>
      WriteKeeps(c.sender, data);
      FillSendsAll(c.(sender := c.sender.(stream := c.sender.stream.Write(data))));
    case EndOp =>
      EndInputKeeps(c.sender);
      FillSendsAll(c.(sender := c.sender.(stream := c.sender.stream.EndInput())));
    case ReceiveOp(seg) =>
      TimelyCanReceive(c, w, seg);
      ReceiveSendsAll(c, w, seg, c');
  }

  // ---- the state summaries

  /** What each summary says of a sender that is not in error. */
  lemma {:induction false} SenderSummaryMeans(s: Sender)
    requires SenderInv(s) && !s.stream.error
    ensures SenderSummary(s) == CLOSED <==> s.next == 0
    ensures SenderSummary(s) == SYN_SENT <==> s.next > 0 && s.acked == 0
    ensures SenderSummary(s) == SYN_ACKED <==> s.acked > 0 && !FinSent(s)
    ensures SenderSummary(s) == FIN_SENT <==> s.acked > 0 && FinSent(s) && s.acked < s.next
    ensures SenderSummary(s) == FIN_ACKED <==> AllAcknowledged(s)
  {
    NothingInFlight(s);
    if s.next > 0 {
      SynSentMeansUnacked(s);
    }
    if FinSent(s) {
      FinSentMeansEof(s);
    }
  }

  lemma {:induction false} ReceiverSummaryMeans(r: Receiver)
    ensures ReceiverSummary(r) == RECEIVER_ERROR <==> r.asm.stream.error
    ensures ReceiverSummary(r) == LISTEN <==> !r.asm.stream.error && !r.syn
    ensures ReceiverSummary(r) == SYN_RECV <==> !r.asm.stream.error && r.syn && !r.asm.stream.ended
    ensures ReceiverSummary(r) == FIN_RECV <==> !r.asm.stream.error && r.syn && r.asm.stream.ended
  {
  }

  /** In every state of every run the summaries say what the two halves have reached. */
  lemma {:induction false} SummariesOverRun(states: seq<Sys>, acts: seq<(bool, Action)>, byA: bool, k: nat)
    requires SysRun(states, acts) && k < |states| && Healthy(states[k].End(byA))
    ensures var s := states[k].End(byA).sender;
      && (SenderSummary(s) == CLOSED <==> s.next == 0)
      && (SenderSummary(s) == SYN_SENT <==> s.next > 0 && s.acked == 0)
      && (SenderSummary(s) == SYN_ACKED <==> s.acked > 0 && !FinSent(s))
      && (SenderSummary(s) == FIN_SENT <==> s.acked > 0 && FinSent(s) && s.acked < s.next)
      && (SenderSummary(s) == FIN_ACKED <==> AllAcknowledged(s))
    ensures var r := states[k].End(byA).receiver;
      && (ReceiverSummary(r) == LISTEN <==> !r.syn)
      && (ReceiverSummary(r) == SYN_RECV <==> r.syn && !r.asm.stream.ended)
      && (ReceiverSummary(r) == FIN_RECV <==> r.syn && r.asm.stream.ended)
  {
    SysRunKeeps(states, acts, k);
    SenderSummaryMeans(states[k].End(byA).sender);
    ReceiverSummaryMeans(states[k].End(byA).receiver);
  }

  // ---- over runs

  /** The step of a run as its endpoint sees it. */
  lemma {:induction false} StepOf(states: seq<Sys>, acts: seq<(bool, Action)>, byA: bool, k: nat, op: Op)
    returns (w: World, wire: set<Segment>)
    requires SysRun(states, acts) && k < |acts| && Performs(acts, byA, k, op)
    ensures Good(states[k].End(byA), w) && OpStep(states[k].End(byA), op, states[k + 1].End(byA), w, wire)
    ensures states[k + 1].End(!byA) == states[k].End(!byA)
  {
    SysRunKeeps(states, acts, k);
    assert StepAt(states, acts, k);
    var x := if byA then states[k] else states[k].Swap();
    w, wire := x.WorldOfA(), x.ba;
  }

  /** In every run: a reset received kills the endpoint with both streams in error and
      makes it send nothing; giving up and destruction do so with exactly one reset sent;
      no other operation changes the errors or sends a reset, and whatever it sends carries
      the receiver's acknowledgment number and window. The time since the last segment
      counts the ticks since then. */
  lemma {:induction false} EveryStepIsLawful(states: seq<Sys>, acts: seq<(bool, Action)>, byA: bool, k: nat, op: Op)
    requires SysRun(states, acts) && k < |acts| && Performs(acts, byA, k, op)
    ensures Lawful(states[k].End(byA), op, states[k + 1].End(byA))
    ensures states[k + 1].End(!byA) == states[k].End(!byA)
  {
    var w, wire := StepOf(states, acts, byA, k, op);
    OpIsLawful(states[k].End(byA), op, states[k + 1].End(byA), w, wire);
  }

  /** In every run: a healthy endpoint gets into error exactly by a reset received, by more
      than eight retransmissions in a row, or by destruction while active. */
  lemma {:induction false} ErrorsHaveCauses(states: seq<Sys>, acts: seq<(bool, Action)>, byA: bool, k: nat, op: Op)
    requires SysRun(states, acts) && k < |acts| && Performs(acts, byA, k, op)
    requires Healthy(states[k].End(byA))
    ensures var c, c' := states[k].End(byA), states[k + 1].End(byA);
      && (InError(c') || Healthy(c'))
      && (InError(c') <==>
            || (op.ReceiveOp? && op.segment.header.rst)
            || (op.TickOp? && c'.sender.timer.consecutive > 8)
            || (op.DestroyOp? && c.active))
  {
    EveryStepIsLawful(states, acts, byA, k, op);
  }

  /** In every run the streams do what the applications ask for, and nothing else. */
  lemma {:induction false} StreamsFollowApplications(
    states: seq<Sys>, acts: seq<(bool, Action)>, byA: bool, k: nat, op: Op)
    requires SysRun(states, acts) && k < |acts| && Performs(acts, byA, k, op)
    ensures FollowsApplication(states[k].End(byA), op, states[k + 1].End(byA))
  {
    var w, wire := StepOf(states, acts, byA, k, op);
    OpFollows(states[k].End(byA), op, states[k + 1].End(byA), w, wire);
  }

  /** In every run: after connecting, writing, ending, a segment that takes up numbers or a
      new acknowledgment, nothing that can be sent is held back. */
  lemma {:induction false} NothingIsHeldBack(
    states: seq<Sys>, acts: seq<(bool, Action)>, byA: bool, k: nat, op: Op)
    requires SysRun(states, acts) && k < |acts| && Performs(acts, byA, k, op)
    requires Prompts(states[k].End(byA), op, states[k + 1].End(byA))
    ensures AllOut(states[k + 1].End(byA).sender)
  {
    var w, wire := StepOf(states, acts, byA, k, op);
    OpSendsAll(states[k].End(byA), op, states[k + 1].End(byA), w, wire);
  }

  /** In every run: right after a tick or a segment an endpoint with nothing left to do is
      inactive, and one whose peer finished first will not linger. */
  lemma {:induction false} FinishedMeansInactive(
    states: seq<Sys>, acts: seq<(bool, Action)>, byA: bool, k: nat, op: Op)
    requires SysRun(states, acts) && k < |acts| && Performs(acts, byA, k, op) && (op.TickOp? || op.ReceiveOp?)
    ensures Finished(states[k + 1].End(byA)) ==> !states[k + 1].End(byA).active
    ensures states[k + 1].End(byA).active && PeerFirst(states[k + 1].End(byA)) ==> !states[k + 1].End(byA).linger
  {
    var w, wire := StepOf(states, acts, byA, k, op);
    OpCloses(states[k].End(byA), op, states[k + 1].End(byA), w, wire);
  }

  /** The time an endpoint has spent since the last segment it received. */
  function QuietTime(acts: seq<(bool, Action)>, byA: bool, k: nat): nat
    requires k <= |acts|
  {
    if k == 0 then 0
    else if acts[k - 1].0 == byA && acts[k - 1].1.Perform? then
      match acts[k - 1].1.op
      case TickOp(ms) => QuietTime(acts, byA, k - 1) + ms
      case ReceiveOp(_) => 0
      case _ => QuietTime(acts, byA, k - 1)
    else QuietTime(acts, byA, k - 1)
  }

  /** In every state of every run the linger clock shows just that. */
  lemma {:induction false} LingerClock(states: seq<Sys>, acts: seq<(bool, Action)>, byA: bool, k: nat)
    requires SysRun(states, acts) && k < |states|
    ensures states[k].End(byA).sinceLast == QuietTime(acts, byA, k)
  {
    if k > 0 {
      LingerClock(states, acts, byA, k - 1);
      var (actor, act) := acts[k - 1];
      if act.Perform? {
        EveryStepIsLawful(states, acts, actor, k - 1, act.op);
      } else {
        assert StepAt(states, acts, k - 1);
      }
    }
  }
}
