/** Runs in which an acknowledgment is repeated late, after a newer one, and the sender
    then sends past the room of its peer. */
module TcpStaleAck {
  import opened Types
  import opened WrappingIntegers
  import opened ByteStreams
  import opened Reassembly
  import opened TcpSegments
  import opened RetransmissionTimers
  import opened TcpSenders
  import opened TcpSenderInvariant
  import opened TcpReceivers
  import opened TcpLinks
  import opened TcpConnections
  import opened TcpSystems
  import opened TcpTwoEndpoints
  import opened TcpRuns
  import opened TcpWindowEdge

  function SynOf(isn: U32): Segment {
    MakeSegment(isn, true, [], false)
  }

  function EmptyOf(s: Sender, r: Receiver): Segment {
    Stamp(MakeSegment(Wrap(s.next, s.isn), false, [], false), r)
  }

  /** `a` sends `data`, which its peer's application does not read, and later `more`. */
  datatype Setting = Setting(data: seq<byte>, more: seq<byte>, capacity: nat, rt: U16, isnA: U32, isnB: U32) {
    predicate Valid() {
      2 <= |data| <= capacity <= 1000 && |more| == capacity
    }

    function Bytes(read: nat): Stream { Stream(capacity, data, read, false, false) }

    function Off(): Timer { NewTimer(rt) }

    function On(): Timer { NewTimer(rt).Start() }

    // ---- the receivers: new, after the SYN, and after the data

    function Listening(): Receiver { NewReceiver(capacity) }

    function SyncedA(): Receiver { Receiver(true, isnB, NewAssembly(capacity)) }

    function SyncedB(): Receiver { Receiver(true, isnA, NewAssembly(capacity)) }

    function Holding(): Receiver { Receiver(true, isnA, Assembly(Bytes(0), map[], None)) }

    // ---- the segments, in the order of their first appearance

    function DataSegment(): Segment { MakeSegment(Wrap(1, isnA), false, data, false) }

    function Syn(): Segment { Stamp(SynOf(isnA), Listening()) }

    function SynAck(): Segment { Stamp(SynOf(isnB), SyncedB()) }

    function Data(): Segment { Stamp(DataSegment(), SyncedA()) }

    function Empty(): Segment { EmptyOf(A2(), SyncedA()) }

    function Ack(): Segment { EmptyOf(B2(), Holding()) }

    // ---- the senders

    function A1(): Sender { Sender(isnA, [], [SynOf(isnA)], On(), Bytes(0), 1, 0, 1, 1) }

    function A2(): Sender {
      Sender(isnA, [], [DataSegment()], On(), Bytes(|data|), |data| + 1, 1, capacity, |data|)
    }

    function A3(window: int): Sender
      requires 0 <= window
    {
      Sender(isnA, [], [], Off(), Bytes(|data|), |data| + 1, |data| + 1, window, 0)
    }

    function B1(): Sender { Sender(isnB, [], [SynOf(isnB)], On(), NewStream(capacity), 1, 0, 1, 1) }

    function B2(): Sender { Sender(isnB, [], [], Off(), NewStream(capacity), 1, 1, capacity, 0) }

    function New(isn: U32): Sender { NewSender(capacity, rt, isn) }

    function Endpoint(s: Sender, r: Receiver, out: seq<Segment>): Conn {
      Conn(rt, s, r, out, true, 0, true)
    }
  }

  lemma {:induction false} Number(v: nat, isn: U32, checkpoint: nat)
    requires v < 10000 && checkpoint < 10000
    ensures Unwrap(Wrap(v, isn), isn, checkpoint) == v && Wrap(0, isn) == isn
  {
    UnwrapUndoesWrap(v, isn, checkpoint);
  }

  lemma {:induction false} Headers(k: Setting)
    requires k.Valid()
    ensures !k.Syn().header.ack
    ensures k.SynAck().header.ack && k.SynAck().header.ackno == Wrap(1, k.isnA) && k.SynAck().header.win == k.capacity
    ensures k.Data().header.ack && k.Data().header.ackno == Wrap(1, k.isnB) && k.Data().header.win == k.capacity
    ensures k.Ack().header.ack && k.Ack().header.ackno == Wrap(|k.data| + 1, k.isnA)
    ensures k.Ack().header.win == k.capacity - |k.data|
  {
    AcknoWrapsAbsAck(k.SyncedA());
    AcknoWrapsAbsAck(k.SyncedB());
    AcknoWrapsAbsAck(k.Holding());
  }

  // ---- what the senders do

  lemma {:induction false} StampOne(seg: Segment, r: Receiver)
    ensures StampAll([seg], r) == [Stamp(seg, r)]
  {
    assert [seg][1..] == [];
  }

  lemma {:induction false} SendSyn(s: Sender)
    requires s.stream.Valid() && s.next == 0 && s.acked == 0 && s.window == 1
    ensures FillWindow(s) == Emit(s, true, [], false)
  {
    var m := Emit(s, true, [], false);
    assert FillTurn(m, 1) == Done(m);
  }

  lemma {:induction false} WriteData(k: Setting)
    requires k.Valid()
    ensures TcpConnections.Write(NewConn(k.rt, k.capacity, k.capacity, k.isnA), k.data)
      == k.Endpoint(k.A1(), k.Listening(), [k.Syn()])
  {
    Number(0, k.isnA, 0);
    var s := k.New(k.isnA).(stream := NewStream(k.capacity).Write(k.data));
    assert s.stream == k.Bytes(0);
    SendSyn(s);
    assert Emit(s, true, [], false) == k.A1().(out := [SynOf(k.isnA)]);
    StampOne(SynOf(k.isnA), k.Listening());
  }

  /** One tracked segment that is acknowledged whole. */
  lemma {:induction false} PopOne(s: Sender, seg: Segment, start: nat)
    requires s.track == [seg] && s.acked < 10000 && start + seg.Length() == s.acked
    requires seg.header.seqno == Wrap(start, s.isn)
    ensures PopAcked(s) == s.(track := [], inFlight := s.inFlight - seg.Length())
  {
    Number(start, s.isn, s.acked);
    assert s.track[1..] == [];
  }

  lemma {:induction false} NothingMore(s: Sender)
    requires s.stream.Valid() && s.stream.BufferSize() == 0 && !s.stream.ended && 0 < s.next && s.inFlight < s.next
    ensures FillWindow(s) == s
  {
    assert FillTurn(s, EffectiveWindow(s)) == Done(s);
  }

  lemma {:induction false} SendOne(s: Sender)
    requires s.stream.Valid() && !s.stream.ended && 0 < s.next && s.inFlight < s.next && s.acked == s.next
    requires 0 < s.stream.BufferSize() <= s.window <= 1000
    ensures FillWindow(s) == TcpSenders.SendData(s, s.window, false)
  {
    var m := TcpSenders.SendData(s, s.window, false);
    assert FillTurn(s, s.window) == More(m);
    assert FillTurn(m, s.window) == Done(m);
    assert FillLoop(s, s.window) == FillLoop(m, s.window) == m;
  }

  lemma {:induction false} SendTheData(k: Setting)
    requires k.Valid()
    ensures AckReceived(k.A1(), Wrap(1, k.isnA), k.capacity) == k.A2().(out := [k.DataSegment()])
  {
    Number(1, k.isnA, 0);
    var p := k.A1().(window := k.capacity, acked := 1);
    PopOne(p, SynOf(k.isnA), 0);
    var m := p.(track := [], inFlight := 0, timer := k.Off());
    assert RestartTimer(PopAcked(p)) == m;
    SendOne(m);
    assert m.stream.Peek(k.capacity) == k.data;
    assert TcpSenders.SendData(m, k.capacity, false) == k.A2().(out := [k.DataSegment()]);
  }

  lemma {:induction false} AckOfData(k: Setting)
    requires k.Valid()
    ensures AckReceived(k.A2(), Wrap(|k.data| + 1, k.isnA), k.capacity - |k.data|) == k.A3(k.capacity - |k.data|)
  {
    Number(|k.data| + 1, k.isnA, 1);
    var p := k.A2().(window := k.capacity - |k.data|, acked := |k.data| + 1);
    PopOne(p, k.DataSegment(), 1);
    assert RestartTimer(PopAcked(p)) == k.A3(k.capacity - |k.data|);
    NothingMore(k.A3(k.capacity - |k.data|));
  }

  lemma {:induction false} SynAcknowledged(k: Setting)
    requires k.Valid()
    ensures AckReceived(k.B1(), Wrap(1, k.isnB), k.capacity) == k.B2()
  {
    Number(1, k.isnB, 0);
    var p := k.B1().(window := k.capacity, acked := 1);
    PopOne(p, SynOf(k.isnB), 0);
    assert RestartTimer(PopAcked(p)) == k.B2();
    NothingMore(k.B2());
  }

  lemma {:induction false} StaleAckTaken(k: Setting)
    requires k.Valid()
    ensures AckReceived(k.A3(k.capacity - |k.data|), Wrap(1, k.isnA), k.capacity) == k.A3(k.capacity)
  {
    Number(1, k.isnA, |k.data| + 1);
  }

  lemma {:induction false} SendMore(k: Setting, c: Conn)
    requires k.Valid() && c.sender == k.A3(k.capacity)
    ensures TcpConnections.Write(c, k.more).sender.next == |k.data| + 1 + k.capacity
  {
    var s := c.sender.(stream := c.sender.stream.Write(k.more));
    assert s.stream.written == k.data + k.more;
    SendOne(s);
  }

  // ---- what the receivers do

  lemma {:induction false} NothingPushed(a: Assembly, index: nat)
    requires a.Valid() && a.eof.None? && index < TWO64
    ensures Pushed(a, Arriving([], index, false), a)
  {
  }

  /** A segment without content leaves everything as it is. */
  lemma {:induction false} BareReceived(r: Receiver, seg: Segment)
    requires r.syn && r.asm.Valid() && r.asm.eof.None? && r.asm.Next() + 1 < CHECKPOINT_BOUND
    requires seg.payload == [] && !seg.header.fin
    ensures Receivable(r, seg) && Received(r, seg, r)
  {
    NothingPushed(r.asm, IndexOf(r, seg));
  }

  lemma {:induction false} SynReceived(r: Receiver, seg: Segment)
    requires !r.syn && r.asm.Valid() && r.asm.eof.None? && r.asm.Next() + 1 < CHECKPOINT_BOUND
    requires seg.header.syn && seg.payload == [] && !seg.header.fin
    ensures Receivable(r, seg) && Received(r, seg, Receiver(true, seg.header.seqno, r.asm))
  {
    NothingPushed(r.asm, IndexOf(r, seg));
  }

  lemma {:induction false} DataPushed(k: Setting)
    requires k.Valid()
    ensures Pushed(NewAssembly(k.capacity), Push(k.data, 0, false), k.Holding().asm)
  {
  }

  lemma {:induction false} DataReceived(k: Setting)
    requires k.Valid()
    ensures Receivable(k.SyncedB(), k.Data()) && Received(k.SyncedB(), k.Data(), k.Holding())
  {
    Number(1, k.isnA, 1);
    assert IndexOf(k.SyncedB(), k.Data()) == 0;
    DataPushed(k);
  }

  // ---- what the connections do

  /** With nothing to send, an empty segment responds. */
  lemma {:induction false} RespondEmpty(k: Setting, s: Sender, r: Receiver, out: seq<Segment>)
    requires s.stream.Valid() && FillWindow(s) == s && s.out == []
    ensures Respond(k.Endpoint(s, r, out)) == k.Endpoint(s, r, out + [EmptyOf(s, r)])
  {
    var empty := MakeSegment(Wrap(s.next, s.isn), false, [], false);
    assert SendEmpty(s).out == [empty];
    StampOne(empty, r);
    assert s.(out := []) == s;
  }

  /** The acknowledgment on `seg` makes `s` into `s1` and sends `sent`; if `seg` takes up
      numbers, an empty segment follows. */
  lemma {:induction false} Exchange(k: Setting, s: Sender, r: Receiver, out: seq<Segment>, seg: Segment,
                                    s1: Sender, sent: seq<Segment>, r1: Receiver, out1: seq<Segment>)
    requires CanReceive(k.Endpoint(s, r, out), seg) && !seg.header.rst && seg.header.ack
    requires Received(r, seg, r1) && !r1.asm.stream.ended
    requires AckReceived(s, seg.header.ackno, seg.header.win) == s1.(out := sent) && s1.out == []
    requires s1.stream.Valid() && FillWindow(s1) == s1
    requires out1 == out + StampAll(sent, r1) + if seg.Length() > 0 then [EmptyOf(s1, r1)] else []
    ensures SegmentReceived(k.Endpoint(s, r, out), seg, k.Endpoint(s1, r1, out1))
  {
    var c1 := k.Endpoint(s1, r1, out + StampAll(sent, r1));
    assert s1.(out := sent).(out := []) == s1;
    assert AfterAck(k.Endpoint(s, r, out), seg, r1) == c1;
    RespondEmpty(k, s1, r1, c1.out);
  }

  lemma {:induction false} OpenPassively(k: Setting)
    requires k.Valid()
    ensures var c := k.Endpoint(k.New(k.isnB), k.Listening(), []);
      CanReceive(c, k.Syn()) && SegmentReceived(c, k.Syn(), k.Endpoint(k.B1(), k.SyncedB(), [k.SynAck()]))
  {
    Headers(k);
    Number(0, k.isnB, 0);
    SynReceived(k.Listening(), k.Syn());
    SendSyn(k.New(k.isnB));
    assert Emit(k.New(k.isnB), true, [], false) == k.B1().(out := [SynOf(k.isnB)]);
    StampOne(SynOf(k.isnB), k.SyncedB());
  }

  lemma {:induction false} OpenActively(k: Setting)
    requires k.Valid()
    ensures var c := k.Endpoint(k.A1(), k.Listening(), []);
      CanReceive(c, k.SynAck()) && SegmentReceived(c, k.SynAck(), k.Endpoint(k.A2(), k.SyncedA(), [k.Data(), k.Empty()]))
  {
    Headers(k);
    SynReceived(k.Listening(), k.SynAck());
    SendTheData(k);
    NothingMore(k.A2());
    StampOne(k.DataSegment(), k.SyncedA());
    Exchange(k, k.A1(), k.Listening(), [], k.SynAck(), k.A2(), [k.DataSegment()], k.SyncedA(), [k.Data(), k.Empty()]);
  }

  lemma {:induction false} HoldData(k: Setting)
    requires k.Valid()
    ensures var c := k.Endpoint(k.B1(), k.SyncedB(), []);
      CanReceive(c, k.Data()) && SegmentReceived(c, k.Data(), k.Endpoint(k.B2(), k.Holding(), [k.Ack()]))
  {
    Headers(k);
    DataReceived(k);
    SynAcknowledged(k);
    NothingMore(k.B2());
    Exchange(k, k.B1(), k.SyncedB(), [], k.Data(), k.B2(), [], k.Holding(), [k.Ack()]);
  }

  lemma {:induction false} TakeAck(k: Setting, out: seq<Segment>)
    requires k.Valid()
    ensures var c := k.Endpoint(k.A2(), k.SyncedA(), out);
      CanReceive(c, k.Ack()) && SegmentReceived(c, k.Ack(), k.Endpoint(k.A3(k.capacity - |k.data|), k.SyncedA(), out))
  {
    Headers(k);
    BareReceived(k.SyncedA(), k.Ack());
    AckOfData(k);
    NothingMore(k.A3(k.capacity - |k.data|));
    Exchange(k, k.A2(), k.SyncedA(), out, k.Ack(), k.A3(k.capacity - |k.data|), [], k.SyncedA(), out);
  }

  lemma {:induction false} TakeStaleAck(k: Setting, out: seq<Segment>)
    requires k.Valid()
    ensures var c := k.Endpoint(k.A3(k.capacity - |k.data|), k.SyncedA(), out);
      CanReceive(c, k.SynAck())
      && SegmentReceived(c, k.SynAck(), k.Endpoint(k.A3(k.capacity), k.SyncedA(), out + [k.Empty()]))
  {
    Headers(k);
    BareReceived(k.SyncedA(), k.SynAck());
    StaleAckTaken(k);
    NothingMore(k.A3(k.capacity));
    assert EmptyOf(k.A3(k.capacity), k.SyncedA()) == k.Empty();
    Exchange(k, k.A3(k.capacity - |k.data|), k.SyncedA(), out, k.SynAck(), k.A3(k.capacity), [], k.SyncedA(), out + [k.Empty()]);
  }

  // ---- timeliness

  lemma {:induction false} TimelyBy(c: Conn, w: World, seg: Segment, a: nat, v: nat)
    requires PlacedAt(seg, w.peer.isn, w.peer.stream, a) && a + seg.Length() <= w.peer.next
    requires Near(a, c.receiver.asm.Next() + 1)
    requires seg.header.ack ==> AckNumber(seg, c.sender.isn, w.peerReceiver, v) && Near(v, c.sender.acked)
    ensures Timely(c, w, seg)
  {
  }

  lemma {:induction false} SynIsTimely(k: Setting, w: World)
    requires k.Valid() && w.peer == k.A1()
    ensures Timely(k.Endpoint(k.New(k.isnB), k.Listening(), []), w, k.Syn())
  {
    Number(0, k.isnA, 0);
    TimelyBy(k.Endpoint(k.New(k.isnB), k.Listening(), []), w, k.Syn(), 0, 0);
  }

  lemma {:induction false} SynAckIsTimely(k: Setting, c: Conn, w: World)
    requires k.Valid() && (w.peer == k.B1() || w.peer == k.B2())
    requires w.peerReceiver == k.SyncedB() || w.peerReceiver == k.Holding()
    requires c.sender.isn == k.isnA && c.sender.acked < 10000 && c.receiver.asm.Next() == 0
    ensures Timely(c, w, k.SynAck())
  {
    Headers(k);
    Number(0, k.isnB, 0);
    TimelyBy(c, w, k.SynAck(), 0, 1);
  }

  lemma {:induction false} DataIsTimely(k: Setting, w: World)
    requires k.Valid() && w.peer == k.A2() && w.peerReceiver == k.SyncedA()
    ensures Timely(k.Endpoint(k.B1(), k.SyncedB(), []), w, k.Data())
  {
    Headers(k);
    TimelyBy(k.Endpoint(k.B1(), k.SyncedB(), []), w, k.Data(), 1, 1);
  }

  lemma {:induction false} AckIsTimely(k: Setting, w: World, out: seq<Segment>)
    requires k.Valid() && w.peer == k.B2() && w.peerReceiver == k.Holding()
    ensures Timely(k.Endpoint(k.A2(), k.SyncedA(), out), w, k.Ack())
  {
    Headers(k);
    TimelyBy(k.Endpoint(k.A2(), k.SyncedA(), out), w, k.Ack(), 1, |k.data| + 1);
  }

  // ---- the run

  function Start(k: Setting): Sys {
    Sys(k.Endpoint(k.New(k.isnA), k.Listening(), []), k.Endpoint(k.New(k.isnB), k.Listening(), []), {}, {})
  }

  /** `a` and `b` in the middle of it. */
  function Pair(k: Setting, a: Sender, ra: Receiver, aOut: seq<Segment>, b: Sender, rb: Receiver, bOut: seq<Segment>,
                ab: set<Segment>, ba: set<Segment>): Sys {
    Sys(k.Endpoint(a, ra, aOut), k.Endpoint(b, rb, bOut), ab, ba)
  }

  lemma {:induction false} FreshStart(k: Setting)
    requires k.Valid()
    ensures Fresh(Start(k).a) && Fresh(Start(k).b)
  {
    assert Start(k).a == NewConn(k.rt, k.capacity, k.capacity, k.isnA);
    assert Start(k).b == NewConn(k.rt, k.capacity, k.capacity, k.isnB);
  }

  /** The data is written, and the SYN goes out and arrives. */
  lemma {:induction false} Opening(k: Setting) returns (t: Tale)
    requires k.Valid()
    ensures t.Ends(4, Pair(k, k.A1(), k.Listening(), [], k.B1(), k.SyncedB(), [], {k.Syn()}, {k.SynAck()}))
  {
    var x0 := Start(k);
    var x1 := x0.(a := k.Endpoint(k.A1(), k.Listening(), [k.Syn()]));
    var x2 := x1.(a := k.Endpoint(k.A1(), k.Listening(), []), ab := {k.Syn()});
    var x3 := x2.(b := k.Endpoint(k.B1(), k.SyncedB(), [k.SynAck()]));
    var x4 := x3.(b := k.Endpoint(k.B1(), k.SyncedB(), []), ba := {k.SynAck()});
    t := Tale([x0], []);
    FreshStart(k);
    WriteData(k);
    t := Extend(t, 0, x0, true, Perform(WriteOp(k.data)), x1);
    TransmitStep(x1, k.Syn(), []);
    t := Extend(t, 1, x1, true, Transmit, x2);
    SynIsTimely(k, x2.Swap().WorldOfA());
    OpenPassively(k);
    ReceiveStepB(x2, k.Syn(), x3.b);
    t := Extend(t, 2, x2, false, Perform(ReceiveOp(k.Syn())), x3);
    TransmitStepB(x3, k.SynAck(), []);
    t := Extend(t, 3, x3, false, Transmit, x4);
  }

  /** The SYN is acknowledged and the data goes out. */
  lemma {:induction false} Sending(k: Setting) returns (t: Tale)
    requires k.Valid()
    ensures t.Ends(6, Pair(k, k.A2(), k.SyncedA(), [k.Empty()], k.B1(), k.SyncedB(), [],
                           {k.Syn(), k.Data()}, {k.SynAck()}))
  {
    var x4 := Pair(k, k.A1(), k.Listening(), [], k.B1(), k.SyncedB(), [], {k.Syn()}, {k.SynAck()});
    var x5 := x4.(a := k.Endpoint(k.A2(), k.SyncedA(), [k.Data(), k.Empty()]));
    var x6 := x5.(a := k.Endpoint(k.A2(), k.SyncedA(), [k.Empty()]), ab := {k.Syn(), k.Data()});
    t := Opening(k);
    SynAckIsTimely(k, x4.a, x4.WorldOfA());
    OpenActively(k);
    ReceiveStep(x4, k.SynAck(), x5.a);
    t := Extend(t, 4, x4, true, Perform(ReceiveOp(k.SynAck())), x5);
    TransmitStep(x5, k.Data(), [k.Empty()]);
    t := Extend(t, 5, x5, true, Transmit, x6);
  }

  function Sent(k: Setting, a: Sender, out: seq<Segment>): Sys {
    Pair(k, a, k.SyncedA(), out, k.B2(), k.Holding(), [], {k.Syn(), k.Data()}, {k.SynAck(), k.Ack()})
  }

  /** The data arrives and is acknowledged. */
  lemma {:induction false} Arrival(k: Setting) returns (t: Tale)
    requires k.Valid()
    ensures t.Ends(8, Sent(k, k.A2(), [k.Empty()]))
  {
    var x6 := Pair(k, k.A2(), k.SyncedA(), [k.Empty()], k.B1(), k.SyncedB(), [], {k.Syn(), k.Data()}, {k.SynAck()});
    var x7 := x6.(b := k.Endpoint(k.B2(), k.Holding(), [k.Ack()]));
    t := Sending(k);
    DataIsTimely(k, x6.Swap().WorldOfA());
    HoldData(k);
    ReceiveStepB(x6, k.Data(), x7.b);
    t := Extend(t, 6, x6, false, Perform(ReceiveOp(k.Data())), x7);
    TransmitStepB(x7, k.Ack(), []);
    t := Extend(t, 7, x7, false, Transmit, Sent(k, k.A2(), [k.Empty()]));
  }

  lemma {:induction false} AckStep(k: Setting, out: seq<Segment>)
    requires k.Valid()
    ensures SysStep(Sent(k, k.A2(), out), true, Perform(ReceiveOp(k.Ack())), Sent(k, k.A3(k.capacity - |k.data|), out))
  {
    AckIsTimely(k, Sent(k, k.A2(), out).WorldOfA(), out);
    TakeAck(k, out);
    ReceiveStep(Sent(k, k.A2(), out), k.Ack(), k.Endpoint(k.A3(k.capacity - |k.data|), k.SyncedA(), out));
  }

  lemma {:induction false} StaleStep(k: Setting, out: seq<Segment>)
    requires k.Valid()
    ensures SysStep(Sent(k, k.A3(k.capacity - |k.data|), out), true, Perform(ReceiveOp(k.SynAck())),
                    Sent(k, k.A3(k.capacity), out + [k.Empty()]))
    ensures TakesHarmful(Sent(k, k.A3(k.capacity - |k.data|), out).a, ReceiveOp(k.SynAck()))
  {
    var x := Sent(k, k.A3(k.capacity - |k.data|), out);
    Headers(k);
    Number(1, k.isnA, |k.data| + 1);
    SynAckIsTimely(k, x.a, x.WorldOfA());
    TakeStaleAck(k, out);
    ReceiveStep(x, k.SynAck(), k.Endpoint(k.A3(k.capacity), k.SyncedA(), out + [k.Empty()]));
  }

  lemma {:induction false} MoreStep(k: Setting, x: Sys, y: Sys)
    requires k.Valid() && x.a.sender == k.A3(k.capacity) && x.b.receiver == k.Holding()
    requires y == x.(a := TcpConnections.Write(x.a, k.more))
    ensures SysStep(x, true, Perform(WriteOp(k.more)), y)
    ensures HeldEdge(x.a.sender) == PeerEdge(x, true) + |k.data|
    ensures y.a.sender.next == PeerEdge(y, true) + |k.data|
  {
    SendMore(k, x.a);
  }

  /** `a` takes the acknowledgment of its data, and then once more that of its SYN. */
  lemma {:induction false} Repetition(k: Setting) returns (t: Tale, x: Sys)
    requires k.Valid()
    ensures t.Ends(10, x) && HarmfulAt(t.states, t.acts, true, 9)
    ensures x.a.sender == k.A3(k.capacity) && x.b.receiver == k.Holding()
  {
    var out := [k.Empty()];
    var x8, x9 := Sent(k, k.A2(), out), Sent(k, k.A3(k.capacity - |k.data|), out);
    x := Sent(k, k.A3(k.capacity), out + [k.Empty()]);
    t := Arrival(k);
    AckStep(k, out);
    t := Extend(t, 8, x8, true, Perform(ReceiveOp(k.Ack())), x9);
    StaleStep(k, out);
    t := Extend(t, 9, x9, true, Perform(ReceiveOp(k.SynAck())), x);
  }

  /** For every such setting there is a run in which a repeated acknowledgment, timely but
      stale, makes `a` hold a window that ends |data| beyond the receiver's true edge, and
      `a` then sends up to there. */
  lemma {:induction false} StaleAckOverrunsEdge(k: Setting) returns (t: Tale)
    requires k.Valid()
    ensures SysRun(t.states, t.acts) && |t.acts| == 11
    ensures HarmfulAt(t.states, t.acts, true, 9)
    ensures HeldEdge(t.states[10].a.sender) == PeerEdge(t.states[10], true) + |k.data|
    ensures t.states[11].a.sender.next == PeerEdge(t.states[11], true) + |k.data|
  {
    var before, x := Repetition(k);
    var y := x.(a := TcpConnections.Write(x.a, k.more));
    MoreStep(k, x, y);
    t := Extend(before, 10, x, true, Perform(WriteOp(k.more)), y);
    assert t.states[9] == before.states[9] && t.acts[9] == before.acts[9];
  }
}
