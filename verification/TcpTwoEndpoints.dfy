/** Two endpoints over a network that loses, repeats and reorders: what holds in
    every run of the pair. */
module TcpTwoEndpoints {
  import opened Types
  import opened WrappingIntegers
  import opened TcpSegments
  import opened TcpSenders
  import opened TcpSenderInvariant
  import opened TcpReceivers
  import opened TcpLinks
  import opened TcpDelivery
  import opened TcpConnections
  import opened TcpSystems

  // ---- one operation of one endpoint

  datatype Op =
    | ConnectOp
    | WriteOp(data: seq<byte>)
    | EndOp
    | TickOp(ms: nat)
    | ReceiveOp(segment: Segment)
    | ReadOp(len: nat)
    | DestroyOp

  function Outgoing(c: Conn, w: World): Link {
    Link(c.sender, w.peerReceiver, w.net + Elements(c.out), w.got)
  }

  function Incoming(c: Conn, w: World): Link {
    Link(w.peer, c.receiver, w.got, w.net + Elements(c.out))
  }

  /** The lifetime assumption for a segment that carries data, an acknowledgment, or both. */
  ghost predicate Timely(c: Conn, w: World, seg: Segment) {
    && (!Discards(c.receiver, seg) ==> TimelyData(Incoming(c, w), seg))
    && (seg.header.ack ==> TimelyAck(Outgoing(c, w), seg))
  }

  predicate Usable(c: Conn) {
    && c.sender.Ready()
    && c.receiver.asm.stream.Valid()
  }

  ghost predicate UsableStep(c: Conn, op: Op, c': Conn, w: World, wire: set<Segment>)
    requires Usable(c)
  {
    match op
    case ConnectOp => c' == Connect(c)
    case WriteOp(data) =>
      && !c.sender.stream.ended
      && |c.sender.stream.written| + |data| + 2 < CHECKPOINT_BOUND
      && c' == TcpConnections.Write(c, data)
    case EndOp => c' == EndInputStream(c)
    case TickOp(ms) => c' == TcpConnections.Tick(c, ms)
    case ReceiveOp(seg) =>
      && seg in wire && (seg.header.rst || Timely(c, w, seg))
      && (CanReceive(c, seg) ==> SegmentReceived(c, seg, c'))
    case ReadOp(len) => c' == ReadInbound(c, len)
    case DestroyOp => c' == Destroy(c)
  }

  /** `op` can turn `c` into `c'`, taking segments from `wire`. Where an operation would
      be undefined, anything can happen. */
  ghost predicate OpStep(c: Conn, op: Op, c': Conn, w: World, wire: set<Segment>) {
    Usable(c) ==> UsableStep(c, op, c', w, wire)
  }

  lemma {:induction false} GoodIsUsable(c: Conn, w: World)
    requires Good(c, w)
    ensures Usable(c)
  {
  }

  // ---- each operation keeps the endpoint good and only moves it forward

  lemma {:induction false} ConnectMoves(c: Conn, w: World)
    requires Good(c, w)
    ensures Good(Connect(c), w) && Moves(c, Connect(c))
  {
    if c.sender.next == 0 {
      FillAndSendMoves(c, w);
      var c1 := FillAndSend(c);
      FillTimer(c.sender);
      assert c.sender.track == [];
      assert c1.sender.timer.consecutive == 0;
    }
  }

  lemma {:induction false} WriteMoves(c: Conn, w: World, data: seq<byte>)
    requires Good(c, w) && !c.sender.stream.ended
    requires |c.sender.stream.written| + |data| + 2 < CHECKPOINT_BOUND
    ensures Good(TcpConnections.Write(c, data), w) && Moves(c, TcpConnections.Write(c, data))
  {
    if data != [] {
      var s' := c.sender.(stream := c.sender.stream.Write(data));
      WriteKeeps(c.sender, data);
      WriteKeepsLink(Outgoing(c, w), data);
      SenderMoves(c, w, s');
      FillAndSendMoves(c.(sender := s'), w);
      MovesTrans(c, c.(sender := s'), TcpConnections.Write(c, data));
    }
  }

  lemma {:induction false} EndMoves(c: Conn, w: World)
    requires Good(c, w)
    ensures Good(EndInputStream(c), w) && Moves(c, EndInputStream(c))
  {
    var s' := c.sender.(stream := c.sender.stream.EndInput());
    EndInputKeeps(c.sender);
    EndKeepsLink(Outgoing(c, w));
    SenderMoves(c, w, s');
    FillAndSendMoves(c.(sender := s'), w);
    MovesTrans(c, c.(sender := s'), EndInputStream(c));
  }

  lemma {:induction false} TickedMoves(c: Conn, w: World, ms: nat)
    requires Good(c, w)
    ensures Facing(Ticked(c, ms), w) && Moves(c, Ticked(c, ms))
    ensures Ticked(c, ms).sender.timer.initial == c.rtTimeout
    ensures Ticked(c, ms).sender.timer.consecutive <= MAX_RETX_ATTEMPTS ==> Good(Ticked(c, ms), w)
  {
    TickKeeps(c.sender, ms);
    TickKeepsLink(Outgoing(c, w), ms);
  }

  lemma {:induction false} AbortMoves(c: Conn, w: World)
    requires Facing(c, w) && c.sender.timer.initial == c.rtTimeout < TWO16
    ensures Good(Abort(c), w) && Moves(c, Abort(c))
  {
    CloseMoves(c, w);
    RstMoves(PassiveClose(c), w);
    MovesTrans(c, PassiveClose(c), Abort(c));
  }

  lemma {:induction false} SendAndTestMoves(c: Conn, w: World)
    requires Good(c, w)
    ensures Good(SendAndTest(c), w) && Moves(c, SendAndTest(c))
  {
    SendMoves(c, w);
    TestEndMoves(SendSegments(c), w);
    MovesTrans(c, SendSegments(c), SendAndTest(c));
  }

  lemma {:induction false} TickMoves(c: Conn, w: World, ms: nat)
    requires Good(c, w)
    ensures Good(TcpConnections.Tick(c, ms), w) && Moves(c, TcpConnections.Tick(c, ms))
  {
    var c1 := Ticked(c, ms);
    TickedMoves(c, w, ms);
    if c1.sender.timer.consecutive > MAX_RETX_ATTEMPTS {
      AbortMoves(c1, w);
    } else {
      SendAndTestMoves(c1, w);
    }
    MovesTrans(c, c1, TcpConnections.Tick(c, ms));
  }

  lemma {:induction false} AfterAckMoves(c: Conn, w: World, seg: Segment, r': Receiver)
    requires Good(c, w) && Timely(c, w, seg)
    requires Receivable(c.receiver, seg) && Received(c.receiver, seg, r')
    ensures Good(AfterAck(c, seg, r'), w) && Moves(c, AfterAck(c, seg, r'))
  {
    var c1 := c.(sinceLast := 0, receiver := r');
    DeliverMoves(c, w, seg, r');
    if seg.header.ack {
      AckMoves(c1, w, seg);
      var c2 := c1.(sender := AckReceived(c1.sender, seg.header.ackno, seg.header.win));
      SendMoves(c2, w);
      MovesTrans(c, c1, c2);
      MovesTrans(c, c2, SendSegments(c2));
    }
  }

  lemma {:induction false} BeforeTestMoves(c: Conn, w: World, seg: Segment, r': Receiver)
    requires Good(c, w) && Timely(c, w, seg)
    requires Receivable(c.receiver, seg) && Received(c.receiver, seg, r')
    ensures Good(BeforeTest(c, seg, r'), w) && Moves(c, BeforeTest(c, seg, r'))
  {
    var c1 := AfterAck(c, seg, r');
    AfterAckMoves(c, w, seg, r');
    if seg.Length() > 0 {
      RespondMoves(c1, w);
      MovesTrans(c, c1, Respond(c1));
    }
  }

  lemma {:induction false} TimelyCanReceive(c: Conn, w: World, seg: Segment)
    requires Good(c, w) && (seg.header.rst || Timely(c, w, seg))
    ensures CanReceive(c, seg)
  {
    if !seg.header.rst {
      TimelyIsReceivable(Incoming(c, w), seg);
    }
  }

  lemma {:induction false} ReceiveMoves(c: Conn, w: World, seg: Segment, c': Conn)
    requires Good(c, w) && (seg.header.rst || Timely(c, w, seg))
    requires CanReceive(c, seg) && SegmentReceived(c, seg, c')
    ensures Good(c', w) && Moves(c, c')
  {
    if seg.header.rst {
      CloseMoves(c.(sinceLast := 0), w);
    } else {
      BeforeTestMoves(c, w, seg, c'.receiver);
      TestEndMoves(BeforeTest(c, seg, c'.receiver), w);
      MovesTrans(c, BeforeTest(c, seg, c'.receiver), c');
    }
  }

  lemma {:induction false} RespondSender(c: Conn)
    requires c.sender.stream.Valid()
    ensures Respond(c).sender == FillWindow(c.sender).(out := [])
  {
  }

  lemma {:induction false} ReceivedSender(c: Conn, seg: Segment, c': Conn)
    requires CanReceive(c, seg) && SegmentReceived(c, seg, c') && !seg.header.rst
    ensures var m := AfterAck(c, seg, c'.receiver).sender;
      c'.sender == m || c'.sender == FillWindow(m).(out := [])
  {
    RespondSender(AfterAck(c, seg, c'.receiver));
    assert c'.sender == BeforeTest(c, seg, c'.receiver).sender;
  }

  lemma {:induction false} ReadMoves(c: Conn, w: World, len: nat)
    requires Good(c, w)
    ensures Good(ReadInbound(c, len), w) && Moves(c, ReadInbound(c, len))
  {
    ReadKeepsLink(Incoming(c, w), len);
    ReceiverMovesGood(c, w, ReadInbound(c, len).receiver, c.sinceLast);
  }

  lemma {:induction false} DestroyMoves(c: Conn, w: World)
    requires Good(c, w)
    ensures Good(Destroy(c), w) && Moves(c, Destroy(c))
  {
    if c.active {
      AbortMoves(c, w);
    }
  }

  lemma {:induction false} OpMoves(c: Conn, op: Op, c': Conn, w: World, wire: set<Segment>)
    requires Good(c, w) && OpStep(c, op, c', w, wire)
    ensures Good(c', w) && Moves(c, c')
  {
    GoodIsUsable(c, w);
    match op
    case ConnectOp => ConnectMoves(c, w);
    case WriteOp(data) => WriteMoves(c, w, data);
    case EndOp => EndMoves(c, w);
    case TickOp(ms) => TickMoves(c, w, ms);
    case ReceiveOp(seg) =>
      TimelyCanReceive(c, w, seg);
      ReceiveMoves(c, w, seg, c');
    case ReadOp(len) => ReadMoves(c, w, len);
    case DestroyOp => DestroyMoves(c, w);
  }

  // ---- the pair

  /** `ab` and `ba` hold everything that ever left the outbound queue of `a` and `b`. */
  datatype Sys = Sys(a: Conn, b: Conn, ab: set<Segment>, ba: set<Segment>) {
    function Swap(): Sys { Sys(b, a, ba, ab) }

    /** An endpoint, and the other one. */
    function End(byA: bool): Conn { if byA then a else b }

    function WorldOfA(): World { World(ab, b.sender, b.receiver, ba + Elements(b.out)) }
  }

  datatype Action = Perform(op: Op) | Transmit

  /** `a` acts. */
  ghost predicate ActsA(x: Sys, act: Action, y: Sys) {
    match act
    case Perform(op) => y == x.(a := y.a) && OpStep(x.a, op, y.a, x.WorldOfA(), x.ba)
    case Transmit =>
      && x.a.out != []
      && y == x.(a := x.a.(out := x.a.out[1..]), ab := x.ab + {x.a.out[0]})
  }

  /** `a` acts, or `b` does. */
  ghost predicate SysStep(x: Sys, byA: bool, act: Action, y: Sys) {
    if byA then ActsA(x, act, y) else ActsA(x.Swap(), act, y.Swap())
  }

  ghost predicate SysInv(x: Sys) {
    Good(x.a, x.WorldOfA()) && Good(x.b, x.Swap().WorldOfA())
  }

  ghost predicate Fresh(c: Conn) {
    exists rt: U16, send: nat, recv: nat, isn: U32 :: c == NewConn(rt, send, recv, isn)
  }

  ghost predicate StepAt(states: seq<Sys>, acts: seq<(bool, Action)>, k: nat)
    requires k < |acts| < |states|
  {
    SysStep(states[k], acts[k].0, acts[k].1, states[k + 1])
  }

  ghost predicate SysRun(states: seq<Sys>, acts: seq<(bool, Action)>) {
    && |states| == |acts| + 1
    && Fresh(states[0].a) && Fresh(states[0].b) && states[0].ab == {} && states[0].ba == {}
    && forall k: nat :: k < |acts| ==> StepAt(states, acts, k)
  }

  lemma {:induction false} FreshInv(x: Sys)
    requires Fresh(x.a) && Fresh(x.b) && x.ab == {} && x.ba == {}
    ensures SysInv(x)
  {
    var rt: U16, send: nat, recv: nat, isn: U32 :| x.a == NewConn(rt, send, recv, isn);
    var rt': U16, send': nat, recv': nat, isn': U32 :| x.b == NewConn(rt', send', recv', isn');
    assert Elements(x.a.out) == {} && Elements(x.b.out) == {};
    NewLinkInv(send, rt, isn, recv');
    NewLinkInv(send', rt', isn', recv);
    assert x.ab + Elements(x.a.out) == {} && x.ba + Elements(x.b.out) == {};
  }

  /** What is good for one endpoint is good for the other. */
  lemma {:induction false} GoodSwaps(x: Sys)
    requires Good(x.a, x.WorldOfA()) && ConnOk(x.b)
    ensures SysInv(x)
  {
  }

  lemma {:induction false} ActsKeeps(x: Sys, act: Action, y: Sys)
    requires SysInv(x) && ActsA(x, act, y)
    ensures SysInv(y)
  {
    match act
    case Perform(op) =>
      OpMoves(x.a, op, y.a, x.WorldOfA(), x.ba);
      assert y.WorldOfA() == x.WorldOfA();
      GoodSwaps(y);
    case Transmit =>
      assert x.a.out == [x.a.out[0]] + x.a.out[1..];
      assert y.ab + Elements(y.a.out) == x.ab + Elements(x.a.out);
      GoodSwaps(y);
  }

  lemma {:induction false} SysStepKeeps(x: Sys, byA: bool, act: Action, y: Sys)
    requires SysInv(x) && SysStep(x, byA, act, y)
    ensures SysInv(y)
  {
    if byA {
      ActsKeeps(x, act, y);
    } else {
      ActsKeeps(x.Swap(), act, y.Swap());
    }
  }

  lemma {:induction false} SysRunKeeps(states: seq<Sys>, acts: seq<(bool, Action)>, k: nat)
    requires SysRun(states, acts) && k < |states|
    ensures SysInv(states[k])
  {
    if k == 0 {
      FreshInv(states[0]);
    } else {
      SysRunKeeps(states, acts, k - 1);
      assert StepAt(states, acts, k - 1);
      SysStepKeeps(states[k - 1], acts[k - 1].0, acts[k - 1].1, states[k]);
    }
  }

  /** In every state of every run both directions deliver faithfully, and no endpoint
      believes more to be acknowledged than its peer has assembled. */
  lemma {:induction false} BothDirectionsSafe(states: seq<Sys>, acts: seq<(bool, Action)>, k: nat)
    requires SysRun(states, acts) && k < |states|
    ensures Delivers(states[k].a.sender, states[k].b.receiver)
    ensures Delivers(states[k].b.sender, states[k].a.receiver)
    ensures states[k].a.sender.acked <= states[k].b.receiver.AbsAck()
    ensures states[k].b.sender.acked <= states[k].a.receiver.AbsAck()
  {
    SysRunKeeps(states, acts, k);
    var x := states[k];
    LinkIsSafe(Outgoing(x.a, x.WorldOfA()));
    LinkIsSafe(Incoming(x.a, x.WorldOfA()));
  }

  // ---- clean close

  /** Everything went through, both ways. */
  predicate FullyDelivered(c: Conn, peer: Sender, peerReceiver: Receiver) {
    && c.sender.stream.ended
    && peerReceiver.asm.stream.ended && peerReceiver.asm.stream.written == c.sender.stream.written
    && peer.stream.ended
    && c.receiver.asm.stream.ended && c.receiver.asm.stream.written == peer.stream.written
  }

  /** Our own side of it: the stream and its FIN acknowledged, nothing waiting. */
  predicate AllAcknowledged(s: Sender) {
    s.stream.Eof() && s.acked == s.next == |s.stream.written| + 2 && s.track == []
  }

  lemma {:induction false} NothingInFlight(s: Sender)
    requires SenderInv(s)
    ensures 0 <= s.inFlight
    ensures s.inFlight == 0 <==> s.track == []
  {
    TilesOrder(s.track, s.isn, s.stream, s.next - s.inFlight, s.next);
  }

  lemma {:induction false} TestEndCloses(c: Conn, w: World)
    requires Good(c, w) && c.active && !TestEnd(c).active
    ensures FullyDelivered(TestEnd(c), w.peer, w.peerReceiver)
    ensures AllAcknowledged(TestEnd(c).sender) && TestEnd(c).receiver.asm.buffered == map[]
    ensures !c.linger || c.sinceLast >= 10 * c.rtTimeout
  {
    NothingInFlight(c.sender);
    AckedMeansDelivered(Outgoing(c, w));
    LinkIsSafe(Incoming(c, w));
  }

  lemma {:induction false} TickClose(c: Conn, w: World, ms: nat)
    requires Good(c, w) && c.active && !TcpConnections.Tick(c, ms).active
    requires !TcpConnections.Tick(c, ms).sender.stream.error
    ensures FullyDelivered(TcpConnections.Tick(c, ms), w.peer, w.peerReceiver)
    ensures AllAcknowledged(TcpConnections.Tick(c, ms).sender)
    ensures !c.linger || c.sinceLast + ms >= 10 * c.rtTimeout
  {
    var c1 := Ticked(c, ms);
    TickedMoves(c, w, ms);
    if c1.sender.timer.consecutive <= MAX_RETX_ATTEMPTS {
      SendMoves(c1, w);
      TestEndCloses(SendSegments(c1), w);
    }
  }

  lemma {:induction false} ReceiveClose(c: Conn, w: World, seg: Segment, c': Conn)
    requires Good(c, w) && (seg.header.rst || Timely(c, w, seg))
    requires CanReceive(c, seg) && SegmentReceived(c, seg, c')
    requires c.active && !c'.active && !c'.sender.stream.error
    ensures FullyDelivered(c', w.peer, w.peerReceiver)
    ensures AllAcknowledged(c'.sender)
    ensures !c.linger || c.rtTimeout == 0
  {
    BeforeTestMoves(c, w, seg, c'.receiver);
    TestEndCloses(BeforeTest(c, seg, c'.receiver), w);
  }

  /** The clock of an endpoint after an operation. */
  function SinceLastAfter(c: Conn, op: Op): nat {
    match op
    case TickOp(ms) => c.sinceLast + ms
    case ReceiveOp(_) => 0
    case _ => c.sinceLast
  }

  lemma {:induction false} CloseOf(c: Conn, op: Op, c': Conn, w: World, wire: set<Segment>)
    requires Good(c, w) && OpStep(c, op, c', w, wire)
    requires c.active && !c'.active && !c'.sender.stream.error
    ensures FullyDelivered(c', w.peer, w.peerReceiver)
    ensures AllAcknowledged(c'.sender)
    ensures !c.linger || SinceLastAfter(c, op) >= 10 * c.rtTimeout
  {
    GoodIsUsable(c, w);
    match op
    case TickOp(ms) => TickClose(c, w, ms);
    case ReceiveOp(seg) =>
      TimelyCanReceive(c, w, seg);
      ReceiveClose(c, w, seg, c');
    case _ =>
  }

  /** In every run, a step that makes an endpoint inactive without an error leaves its
      whole outbound stream and FIN acknowledged and assembled by the peer, the peer's
      whole stream assembled here, and is taken only if the endpoint need not linger or
      has lingered for ten initial timeouts. */
  lemma {:induction false} CleanCloseMeansFullDelivery(
    states: seq<Sys>, acts: seq<(bool, Action)>, k: nat, byA: bool, op: Op)
    requires SysRun(states, acts) && k < |acts| && acts[k] == (byA, Perform(op))
    requires states[k].End(byA).active
    requires !states[k + 1].End(byA).active && !states[k + 1].End(byA).sender.stream.error
    ensures FullyDelivered(states[k + 1].End(byA), states[k + 1].End(!byA).sender, states[k + 1].End(!byA).receiver)
    ensures AllAcknowledged(states[k + 1].End(byA).sender)
    ensures !states[k].End(byA).linger
      || SinceLastAfter(states[k].End(byA), op) >= 10 * states[k].End(byA).rtTimeout
  {
    SysRunKeeps(states, acts, k);
    assert StepAt(states, acts, k);
    var x := if byA then states[k] else states[k].Swap();
    var y := if byA then states[k + 1] else states[k + 1].Swap();
    assert ActsA(x, Perform(op), y);
    CloseOf(x.a, op, y.a, x.WorldOfA(), x.ba);
  }

  // ---- lingering

  /** The connection before the last test of an operation that ends in one. */
  lemma {:induction false} TestEndLingers(c: Conn)
    ensures c.linger && !TestEnd(c).linger ==> InboundEnded(TestEnd(c)) && !TestEnd(c).sender.stream.Eof()
    ensures !c.linger ==> !TestEnd(c).linger
  {
  }

  lemma {:induction false} LingerOfOp(c: Conn, op: Op, c': Conn, w: World, wire: set<Segment>)
    requires Good(c, w) && OpStep(c, op, c', w, wire) && c.linger && !c'.linger
    ensures InboundEnded(c') && !c'.sender.stream.Eof()
  {
    GoodIsUsable(c, w);
    match op
    case TickOp(ms) =>
      TestEndLingers(SendSegments(Ticked(c, ms)));
    case ReceiveOp(seg) =>
      TimelyCanReceive(c, w, seg);
      if !seg.header.rst {
        TestEndLingers(BeforeTest(c, seg, c'.receiver));
      }
    case _ =>
  }

  lemma {:induction false} LingerStaysOff(c: Conn, op: Op, c': Conn, w: World, wire: set<Segment>)
    requires Good(c, w) && OpStep(c, op, c', w, wire) && !c.linger
    ensures !c'.linger
  {
    GoodIsUsable(c, w);
    match op
    case ReceiveOp(seg) => TimelyCanReceive(c, w, seg);
    case _ =>
  }

  lemma {:induction false} FinSentMeansEof(s: Sender)
    requires SenderInv(s) && FinSent(s)
    ensures s.stream.Eof()
  {
  }

  lemma {:induction false} FinSentStays(s: Sender, s': Sender)
    requires FinSent(s) && Advances(s, s') && SenderInv(s')
    ensures FinSent(s')
  {
  }

  lemma {:induction false} EndedHereMeansFinSent(c: Conn, w: World)
    requires Good(c, w) && c.receiver.asm.stream.ended
    ensures FinSent(w.peer)
  {
  }

  /** An endpoint that need not linger has seen its peer's FIN, and its peer lingers. */
  predicate LingerOk(x: Sys) {
    && (!x.a.linger ==> FinSent(x.b.sender))
    && (!x.b.linger ==> FinSent(x.a.sender))
    && (x.a.linger || x.b.linger)
  }

  lemma {:induction false} ActsLinger(x: Sys, act: Action, y: Sys)
    requires SysInv(x) && ActsA(x, act, y) && LingerOk(x)
    ensures LingerOk(y)
    ensures !x.a.linger ==> !y.a.linger
  {
    if act.Perform? {
      OpMoves(x.a, act.op, y.a, x.WorldOfA(), x.ba);
      if !x.b.linger {
        FinSentStays(x.a.sender, y.a.sender);
        FinSentMeansEof(y.a.sender);
      }
      if !x.a.linger {
        LingerStaysOff(x.a, act.op, y.a, x.WorldOfA(), x.ba);
      } else if !y.a.linger {
        LingerOfOp(x.a, act.op, y.a, x.WorldOfA(), x.ba);
        EndedHereMeansFinSent(y.a, x.WorldOfA());
      }
    }
  }

  lemma {:induction false} StepLinger(x: Sys, byA: bool, act: Action, y: Sys)
    requires SysInv(x) && SysStep(x, byA, act, y) && LingerOk(x)
    ensures LingerOk(y)
    ensures (!x.a.linger ==> !y.a.linger) && (!x.b.linger ==> !y.b.linger)
  {
    if byA {
      ActsLinger(x, act, y);
    } else {
      ActsLinger(x.Swap(), act, y.Swap());
    }
  }

  /** In every state of every run at least one endpoint still has to linger, and one that
      need not has its peer's whole stream and FIN before it. */
  lemma {:induction false} AtMostOneSkipsLinger(states: seq<Sys>, acts: seq<(bool, Action)>, k: nat)
    requires SysRun(states, acts) && k < |states|
    ensures LingerOk(states[k])
  {
    if k > 0 {
      AtMostOneSkipsLinger(states, acts, k - 1);
      SysRunKeeps(states, acts, k - 1);
      assert StepAt(states, acts, k - 1);
      StepLinger(states[k - 1], acts[k - 1].0, acts[k - 1].1, states[k]);
    }
  }

  lemma {:induction false} LingerOffForGood(states: seq<Sys>, acts: seq<(bool, Action)>, i: nat, j: nat, byA: bool)
    requires SysRun(states, acts) && i <= j < |states| && !states[i].End(byA).linger
    ensures !states[j].End(byA).linger
  {
    if i < j {
      LingerOffForGood(states, acts, i, j - 1, byA);
      AtMostOneSkipsLinger(states, acts, j - 1);
      SysRunKeeps(states, acts, j - 1);
      assert StepAt(states, acts, j - 1);
      StepLinger(states[j - 1], acts[j - 1].0, acts[j - 1].1, states[j]);
    }
  }

  /** An endpoint gives up lingering only when its peer's stream is complete here while
      its own is not yet finished. From then on, for the rest of the run, it stays that
      way and the peer is the one that lingers. */
  lemma {:induction false} OnlySecondToCloseSkipsLinger(
    states: seq<Sys>, acts: seq<(bool, Action)>, k: nat, j: nat, byA: bool)
    requires SysRun(states, acts) && k < |acts| && k < j < |states|
    requires states[k].End(byA).linger && !states[k + 1].End(byA).linger
    ensures InboundEnded(states[k + 1].End(byA)) && !states[k + 1].End(byA).sender.stream.Eof()
    ensures states[k + 1].End(byA).receiver.asm.stream.written == states[k + 1].End(!byA).sender.stream.written
    ensures !states[j].End(byA).linger && states[j].End(!byA).linger && FinSent(states[j].End(!byA).sender)
  {
    SysRunKeeps(states, acts, k);
    SysRunKeeps(states, acts, k + 1);
    assert StepAt(states, acts, k);
    var x := if byA then states[k] else states[k].Swap();
    var y := if byA then states[k + 1] else states[k + 1].Swap();
    assert ActsA(x, acts[k].1, y) by { assert byA == acts[k].0; }
    LingerOfOp(x.a, acts[k].1.op, y.a, x.WorldOfA(), x.ba);
    LinkIsSafe(Incoming(y.a, y.WorldOfA()));
    LingerOffForGood(states, acts, k + 1, j, byA);
    AtMostOneSkipsLinger(states, acts, j);
  }

  // ---- progress never reverses

  lemma {:induction false} SenderSummaryAdvances(s: Sender, s': Sender)
    requires SenderInv(s) && SenderInv(s') && Advances(s, s')
    ensures SenderRank(SenderSummary(s)) <= SenderRank(SenderSummary(s'))
  {
    NothingInFlight(s);
    NothingInFlight(s');
  }

  lemma {:induction false} ReceiverSummaryAdvances(r: Receiver, r': Receiver)
    requires ReceiverMoves(r, r')
    ensures ReceiverRank(ReceiverSummary(r)) <= ReceiverRank(ReceiverSummary(r'))
  {
  }

  predicate SummariesAdvance(c: Conn, c': Conn) {
    && SenderRank(SenderSummary(c.sender)) <= SenderRank(SenderSummary(c'.sender))
    && ReceiverRank(ReceiverSummary(c.receiver)) <= ReceiverRank(ReceiverSummary(c'.receiver))
  }

  lemma {:induction false} ActsAdvance(x: Sys, act: Action, y: Sys)
    requires SysInv(x) && ActsA(x, act, y)
    ensures SummariesAdvance(x.a, y.a) && SummariesAdvance(x.b, y.b)
  {
    ActsKeeps(x, act, y);
    if act.Perform? {
      OpMoves(x.a, act.op, y.a, x.WorldOfA(), x.ba);
      SenderSummaryAdvances(x.a.sender, y.a.sender);
      ReceiverSummaryAdvances(x.a.receiver, y.a.receiver);
    }
  }

  /** Over any stretch of any run the two state summaries of an endpoint only move
      forward, and the error states are never left. */
  lemma {:induction false} ProgressNeverReverses(states: seq<Sys>, acts: seq<(bool, Action)>, i: nat, j: nat)
    requires SysRun(states, acts) && i <= j < |states|
    ensures SummariesAdvance(states[i].a, states[j].a) && SummariesAdvance(states[i].b, states[j].b)
  {
    if i < j {
      ProgressNeverReverses(states, acts, i, j - 1);
      SysRunKeeps(states, acts, j - 1);
      var x, y := states[j - 1], states[j];
      assert StepAt(states, acts, j - 1);
      if acts[j - 1].0 {
        ActsAdvance(x, acts[j - 1].1, y);
      } else {
        ActsAdvance(x.Swap(), acts[j - 1].1, y.Swap());
      }
    }
  }
}
