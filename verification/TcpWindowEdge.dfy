/** Does a sender stay within what the peer's receiver has room for? It does as long as
    no acknowledgment with an open window is older than what it already has acknowledged;
    such a one makes it believe in room that may not be there. */
module TcpWindowEdge {
  import opened Types
  import opened WrappingIntegers
  import opened ByteStreams
  import opened Reassembly
  import opened TcpSegments
  import opened TcpSenders
  import opened TcpSenderInvariant
  import opened TcpReceivers
  import opened TcpLinks
  import opened TcpConnections
  import opened TcpSystems
  import opened TcpTwoEndpoints

  /** Where the window held by the sender ends. */
  function HeldEdge(s: Sender): nat {
    s.acked + s.window
  }

  /** The acknowledgment is for less than what is acknowledged already. */
  predicate Stale(s: Sender, seg: Segment)
    requires s.acked < CHECKPOINT_BOUND
  {
    Unwrap(seg.header.ackno, s.isn, s.acked) < s.acked
  }

  /** The guard that `ack_received` lacks: a stale acknowledgment must not open the window. */
  predicate Harmful(s: Sender, seg: Segment)
    requires s.acked < CHECKPOINT_BOUND
  {
    Stale(s, seg) && seg.header.win > 0
  }

  // ---- one acknowledgment

  lemma {:induction false} AckedBelowEdge(l: Link)
    requires LinkInv(l)
    ensures l.s.acked <= l.r.RightEdge()
  {
  }

  lemma {:induction false} EdgeAfterAck(l: Link, seg: Segment)
    requires LinkInv(l) && TimelyAck(l, seg) && !Harmful(l.s, seg)
    ensures HeldEdge(AckReceived(l.s, seg.header.ackno, seg.header.win)) <= l.r.RightEdge()
  {
    AckKeepsLink(l, seg);
    NextBelow(l.s, l.r);
    AckReceivedKeeps(l.s, seg.header.ackno, seg.header.win);
    AckedBelowEdge(l);
  }

  /** `l` is a link in which the sender `s` can take the acknowledgment `seg`. */
  ghost predicate Compatible(l: Link, s: Sender, seg: Segment) {
    l.s == s && LinkInv(l) && seg in l.acks && seg.header.ack && TimelyAck(l, seg)
  }

  /** A receiver that has got exactly what `s` has acknowledged, has been read up to there,
      and has room for `room` more. */
  function ReceiverAt(s: Sender, room: nat): Receiver
    requires 1 <= s.acked <= |s.stream.written| + 2
  {
    var whole := s.acked == |s.stream.written| + 2;
    var n := if whole then |s.stream.written| else s.acked - 1;
    Receiver(true, s.isn,
             Assembly(Stream(room, s.stream.written[..n], n, whole, false), map[], if whole then Some(n) else None))
  }

  lemma {:induction false} ReceiverAtOk(s: Sender, room: nat)
    requires SenderInv(s) && s.acked >= 1
    ensures ReceiverOk(s, ReceiverAt(s, room))
    ensures ReceiverAt(s, room).AbsAck() == s.acked && ReceiverAt(s, room).RightEdge() == s.acked + room
  {
  }

  /** A harmful acknowledgment is harmful indeed: for all the sender can tell, the peer may
      have less room than the sender then believes. */
  lemma {:induction false} HarmfulOverruns(l: Link, seg: Segment) returns (l': Link)
    requires Compatible(l, l.s, seg) && Harmful(l.s, seg)
    ensures Compatible(l', l.s, seg)
    ensures HeldEdge(AckReceived(l.s, seg.header.ackno, seg.header.win)) > l'.r.RightEdge()
  {
    var v := Unwrap(seg.header.ackno, l.s.isn, l.s.acked);
    AckKeepsLink(l, seg);
    var room: nat := Max(0, v + seg.header.win - l.s.acked);
    l' := Link(l.s, ReceiverAt(l.s, room), l.data, {seg});
    ReceiverAtOk(l.s, room);
    assert AckNumber(seg, l.s.isn, l'.r, v);
    UnwrapUndoesWrap(v, l.s.isn, l.s.acked);
    AckReceivedKeeps(l.s, seg.header.ackno, seg.header.win);
  }

  /** Exactly when taking an acknowledgment is safe, told from what the sender can see: in
      every link compatible with the sender and the acknowledgment the window then held
      ends within the receiver's true edge, if and only if the acknowledgment is not stale
      or closes the window. */
  lemma {:induction false} SafeAckExactly(l: Link, seg: Segment)
    requires Compatible(l, l.s, seg)
    ensures (forall l' :: Compatible(l', l.s, seg) ==>
               HeldEdge(AckReceived(l.s, seg.header.ackno, seg.header.win)) <= l'.r.RightEdge())
      <==> !Stale(l.s, seg) || seg.header.win == 0
  {
    if Harmful(l.s, seg) {
      var l' := HarmfulOverruns(l, seg);
      assert Compatible(l', l.s, seg);
    } else {
      forall l' | Compatible(l', l.s, seg)
        ensures HeldEdge(AckReceived(l.s, seg.header.ackno, seg.header.win)) <= l'.r.RightEdge()
      {
        EdgeAfterAck(l', seg);
      }
    }
  }

  // ---- what the operations of a connection do to the two edges

  /** The sender took no acknowledgment and filled its window at most. */
  predicate OnlyFilled(s: Sender, s': Sender) {
    && s'.acked == s.acked && s'.window == s.window
    && s'.next <= Max(s.next, s.acked + EffectiveWindow(s))
  }

  predicate TakesAck(op: Op) {
    op.ReceiveOp? && !op.segment.header.rst && op.segment.header.ack
  }

  lemma {:induction false} FillOnly(c: Conn, s: Sender)
    requires SenderInv(s)
    ensures OnlyFilled(s, FillAndSend(c.(sender := s)).sender)
  {
    FillWindowIsSafeAndMaximal(s);
  }

  lemma {:induction false} RespondFills(c: Conn)
    requires SenderInv(c.sender)
    ensures OnlyFilled(c.sender, Respond(c).sender)
  {
    FillWindowIsSafeAndMaximal(c.sender);
  }

  lemma {:induction false} ReceiveFills(c: Conn, w: World, seg: Segment, r': Receiver)
    requires Good(c, w) && Timely(c, w, seg)
    requires Receivable(c.receiver, seg) && Received(c.receiver, seg, r')
    ensures OnlyFilled(AfterAck(c, seg, r').sender, BeforeTest(c, seg, r').sender)
  {
    AfterAckMoves(c, w, seg, r');
    RespondFills(AfterAck(c, seg, r'));
  }

  lemma {:induction false} WriteFills(c: Conn, data: seq<byte>)
    requires SenderInv(c.sender) && !c.sender.stream.ended
    requires |c.sender.stream.written| + |data| + 2 < CHECKPOINT_BOUND
    ensures OnlyFilled(c.sender, TcpConnections.Write(c, data).sender)
  {
    WriteKeeps(c.sender, data);
    FillOnly(c, c.sender.(stream := c.sender.stream.Write(data)));
  }

  lemma {:induction false} EndFills(c: Conn)
    requires SenderInv(c.sender)
    ensures OnlyFilled(c.sender, EndInputStream(c).sender)
  {
    EndInputKeeps(c.sender);
    FillOnly(c, c.sender.(stream := c.sender.stream.EndInput()));
  }

  lemma {:induction false} TickFills(c: Conn, ms: nat)
    requires SenderInv(c.sender)
    ensures OnlyFilled(c.sender, TcpConnections.Tick(c, ms).sender)
  {
    TickKeeps(c.sender, ms);
  }

  lemma {:induction false} ConnectFills(c: Conn)
    requires SenderInv(c.sender)
    ensures OnlyFilled(c.sender, Connect(c).sender)
  {
    FillOnly(c, c.sender);
  }

  lemma {:induction false} PlainFills(c: Conn, w: World, seg: Segment, c': Conn)
    requires Good(c, w) && (seg.header.rst || Timely(c, w, seg)) && !TakesAck(ReceiveOp(seg))
    requires CanReceive(c, seg) && SegmentReceived(c, seg, c')
    ensures OnlyFilled(c.sender, c'.sender)
  {
    if !seg.header.rst {
      ReceiveFills(c, w, seg, c'.receiver);
    }
  }

  lemma {:induction false} OpFills(c: Conn, op: Op, c': Conn, w: World, wire: set<Segment>)
    requires Good(c, w) && OpStep(c, op, c', w, wire) && !TakesAck(op)
    ensures OnlyFilled(c.sender, c'.sender)
  {
    GoodIsUsable(c, w);
    match op
    case ConnectOp => ConnectFills(c);
    case WriteOp(data) => WriteFills(c, data);
    case EndOp => EndFills(c);
    case TickOp(ms) => TickFills(c, ms);
    case ReceiveOp(seg) =>
      TimelyCanReceive(c, w, seg);
      PlainFills(c, w, seg, c');
    case _ =>
  }

  lemma {:induction false} AckFills(c: Conn, w: World, seg: Segment, c': Conn)
    requires Good(c, w) && Timely(c, w, seg) && TakesAck(ReceiveOp(seg))
    requires CanReceive(c, seg) && SegmentReceived(c, seg, c')
    ensures OnlyFilled(AckReceived(c.sender, seg.header.ackno, seg.header.win), c'.sender)
  {
    ReceiveFills(c, w, seg, c'.receiver);
  }

  lemma {:induction false} OpAcks(c: Conn, op: Op, c': Conn, w: World, wire: set<Segment>)
    requires Good(c, w) && OpStep(c, op, c', w, wire) && TakesAck(op)
    ensures TimelyAck(Outgoing(c, w), op.segment)
    ensures OnlyFilled(AckReceived(c.sender, op.segment.header.ackno, op.segment.header.win), c'.sender)
  {
    GoodIsUsable(c, w);
    TimelyCanReceive(c, w, op.segment);
    AckFills(c, w, op.segment, c');
  }

  /** What was sent stays within the receiver's room, but for one number that probes a
      closed window, and so does the window held. */
  predicate Within(s: Sender, r: Receiver) {
    HeldEdge(s) <= r.RightEdge() && s.next <= r.RightEdge() + 1
  }

  lemma {:induction false} FilledStaysWithin(s: Sender, s': Sender, r: Receiver)
    requires OnlyFilled(s, s') && Within(s, r) && s.acked <= r.RightEdge()
    ensures Within(s', r)
  {
  }

  lemma {:induction false} AckStaysWithin(l: Link, seg: Segment)
    requires LinkInv(l) && TimelyAck(l, seg) && !Harmful(l.s, seg) && Within(l.s, l.r)
    ensures Within(AckReceived(l.s, seg.header.ackno, seg.header.win), l.r)
    ensures AckReceived(l.s, seg.header.ackno, seg.header.win).acked <= l.r.RightEdge()
  {
    EdgeAfterAck(l, seg);
    AckKeepsLink(l, seg);
    AckedBelowEdge(l.(s := AckReceived(l.s, seg.header.ackno, seg.header.win)));
    AckReceivedBound(l.s, seg.header.ackno, seg.header.win);
  }

  /** The operation takes a stale acknowledgment with an open window. */
  predicate TakesHarmful(c: Conn, op: Op) {
    TakesAck(op) && c.sender.acked < CHECKPOINT_BOUND && Harmful(c.sender, op.segment)
  }

  lemma {:induction false} OpStaysWithin(c: Conn, op: Op, c': Conn, w: World, wire: set<Segment>)
    requires Good(c, w) && OpStep(c, op, c', w, wire) && !TakesHarmful(c, op)
    requires Within(c.sender, w.peerReceiver)
    ensures Within(c'.sender, w.peerReceiver)
  {
    var l := Outgoing(c, w);
    if TakesAck(op) {
      OpAcks(c, op, c', w, wire);
      AckStaysWithin(l, op.segment);
      FilledStaysWithin(AckReceived(l.s, op.segment.header.ackno, op.segment.header.win), c'.sender, l.r);
    } else {
      OpFills(c, op, c', w, wire);
      AckedBelowEdge(l);
      FilledStaysWithin(c.sender, c'.sender, l.r);
    }
  }

  lemma {:induction false} OpHolds(c: Conn, op: Op, c': Conn, w: World, wire: set<Segment>)
    requires Good(c, w) && OpStep(c, op, c', w, wire) && !TakesHarmful(c, op)
    requires TakesAck(op) || HeldEdge(c.sender) <= w.peerReceiver.RightEdge()
    ensures HeldEdge(c'.sender) <= w.peerReceiver.RightEdge()
  {
    if TakesAck(op) {
      OpAcks(c, op, c', w, wire);
      EdgeAfterAck(Outgoing(c, w), op.segment);
    } else {
      OpFills(c, op, c', w, wire);
    }
  }

  // ---- over runs

  /** Step `k` makes an endpoint take an acknowledgment. */
  predicate AckAt(states: seq<Sys>, acts: seq<(bool, Action)>, byA: bool, k: nat)
    requires k < |acts| < |states|
  {
    acts[k].0 == byA && acts[k].1.Perform? && TakesAck(acts[k].1.op)
  }

  /** It is stale and has an open window. */
  predicate HarmfulAt(states: seq<Sys>, acts: seq<(bool, Action)>, byA: bool, k: nat)
    requires k < |acts| < |states|
  {
    acts[k].0 == byA && acts[k].1.Perform? && TakesHarmful(states[k].End(byA), acts[k].1.op)
  }

  /** The edge of the receiver that an endpoint sends to. */
  function PeerEdge(x: Sys, byA: bool): nat {
    x.End(!byA).receiver.RightEdge()
  }

  /** A receiver's right edge never moves back. */
  lemma {:induction false} EdgeGrows(x: Sys, byA: bool, act: Action, y: Sys)
    requires SysInv(x) && SysStep(x, byA, act, y)
    ensures PeerEdge(x, true) <= PeerEdge(y, true) && PeerEdge(x, false) <= PeerEdge(y, false)
  {
    var x', y' := if byA then x else x.Swap(), if byA then y else y.Swap();
    if act.Perform? {
      OpMoves(x'.a, act.op, y'.a, x'.WorldOfA(), x'.ba);
    }
  }

  lemma {:induction false} StepStaysWithin(x: Sys, actor: bool, act: Action, y: Sys, byA: bool)
    requires SysInv(x) && SysStep(x, actor, act, y)
    requires actor == byA && act.Perform? ==> !TakesHarmful(x.End(byA), act.op)
    requires Within(x.End(byA).sender, x.End(!byA).receiver)
    ensures Within(y.End(byA).sender, y.End(!byA).receiver)
  {
    EdgeGrows(x, actor, act, y);
    if actor == byA && act.Perform? {
      var x', y' := if byA then x else x.Swap(), if byA then y else y.Swap();
      OpStaysWithin(x'.a, act.op, y'.a, x'.WorldOfA(), x'.ba);
    }
  }

  lemma {:induction false} StepHolds(x: Sys, actor: bool, act: Action, y: Sys, byA: bool)
    requires SysInv(x) && SysStep(x, actor, act, y)
    requires actor == byA && act.Perform? ==> !TakesHarmful(x.End(byA), act.op)
    requires (actor == byA && act.Perform? && TakesAck(act.op)) || HeldEdge(x.End(byA).sender) <= PeerEdge(x, byA)
    ensures HeldEdge(y.End(byA).sender) <= PeerEdge(y, byA)
  {
    EdgeGrows(x, actor, act, y);
    if actor == byA && act.Perform? {
      var x', y' := if byA then x else x.Swap(), if byA then y else y.Swap();
      OpHolds(x'.a, act.op, y'.a, x'.WorldOfA(), x'.ba);
    }
  }

  lemma {:induction false} FreshWithin(x: Sys, byA: bool)
    requires Fresh(x.a) && Fresh(x.b)
    ensures Within(x.End(byA).sender, x.End(!byA).receiver)
  {
  }

  /** In every run: as long as an endpoint has taken no harmful acknowledgment, everything
      it has sent lies within the room of its peer's receiver, but for one number that
      probes a closed window, and so does the window it holds. */
  lemma {:induction false} RespectsTrueEdge(states: seq<Sys>, acts: seq<(bool, Action)>, byA: bool, k: nat)
    requires SysRun(states, acts) && k < |states|
    requires forall m: nat :: m < k ==> !HarmfulAt(states, acts, byA, m)
    ensures Within(states[k].End(byA).sender, states[k].End(!byA).receiver)
  {
    if k == 0 {
      FreshWithin(states[0], byA);
    } else {
      RespectsTrueEdge(states, acts, byA, k - 1);
      SysRunKeeps(states, acts, k - 1);
      assert StepAt(states, acts, k - 1) && !HarmfulAt(states, acts, byA, k - 1);
      StepStaysWithin(states[k - 1], acts[k - 1].0, acts[k - 1].1, states[k], byA);
    }
  }

  /** In every run, whatever came before: once an endpoint takes an acknowledgment that is
      not harmful, the window it holds is within its peer's room until it takes the next. */
  lemma {:induction false} HarmlessAckRestoresEdge(
    states: seq<Sys>, acts: seq<(bool, Action)>, byA: bool, i: nat, k: nat)
    requires SysRun(states, acts) && i < k < |states|
    requires AckAt(states, acts, byA, i) && !HarmfulAt(states, acts, byA, i)
    requires forall m: nat :: i < m < k ==> !AckAt(states, acts, byA, m)
    ensures HeldEdge(states[k].End(byA).sender) <= PeerEdge(states[k], byA)
  {
    if i < k - 1 {
      HarmlessAckRestoresEdge(states, acts, byA, i, k - 1);
      assert !AckAt(states, acts, byA, k - 1);
    }
    SysRunKeeps(states, acts, k - 1);
    assert StepAt(states, acts, k - 1);
    StepHolds(states[k - 1], acts[k - 1].0, acts[k - 1].1, states[k], byA);
  }
}
