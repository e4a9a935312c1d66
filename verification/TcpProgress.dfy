/** What is kept for retransmission is enough to go on: from every state in which an
    endpoint waits for an acknowledgment there is a way to get one. */
module TcpProgress {
  import opened Types
  import opened WrappingIntegers
  import opened ByteStreams
  import opened Reassembly
  import opened TcpSegments
  import opened TcpSenders
  import opened TcpSenderInvariant
  import opened TcpReceivers
  import opened TcpLinks
  import opened TcpDelivery
  import opened TcpConnections
  import opened TcpSystems
  import opened TcpTwoEndpoints
  import opened TcpRuns

  // ---- what a sender answers with

  /** Everything newly queued is tracked. */
  predicate QueuesTracked(s: Sender, s': Sender) {
    && s.track <= s'.track
    && forall q :: q in s'.out ==> q in s.out || q in s'.track
  }

  lemma {:induction false} QueuesTrackedTrans(s: Sender, m: Sender, s': Sender)
    requires QueuesTracked(s, m) && QueuesTracked(m, s')
    ensures QueuesTracked(s, s')
  {
  }

  lemma {:induction false} EmitQueues(s: Sender, syn: bool, payload: seq<byte>, fin: bool)
    ensures QueuesTracked(s, Emit(s, syn, payload, fin))
  {
  }

  lemma {:induction false} FillTurnQueues(s: Sender, window: nat)
    requires s.stream.Valid()
    ensures QueuesTracked(s, FillTurn(s, window).s)
  {
    var remain := window - (s.next - s.acked);
    var size := Min(remain, MAX_PAYLOAD_SIZE);
    if FillTurn(s, window).s != s {
      if s.stream.Eof() {
        EmitQueues(s.(stream := s.stream.Pop(0)), false, s.stream.Peek(0), true);
      } else {
        EmitQueues(s.(stream := s.stream.Pop(size)), false, s.stream.Peek(size),
                   s.stream.Pop(size).Eof() && remain - |s.stream.Peek(size)| > 0);
      }
    }
  }

  lemma {:induction false} FillLoopQueues(s: Sender, window: nat)
    requires s.stream.Valid()
    ensures QueuesTracked(s, FillLoop(s, window))
    decreases Max(0, window - (s.next - s.acked))
  {
    var t := FillTurn(s, window);
    FillTurnQueues(s, window);
    if t.More? {
      FillLoopQueues(t.s, window);
      QueuesTrackedTrans(s, t.s, FillLoop(t.s, window));
    }
  }

  lemma {:induction false} FillQueues(s: Sender)
    requires s.stream.Valid()
    ensures QueuesTracked(s, FillWindow(s))
  {
    if s.next == 0 {
      EmitQueues(s, true, [], false);
      FillLoopQueues(Emit(s, true, [], false), EffectiveWindow(s));
      QueuesTrackedTrans(s, Emit(s, true, [], false), FillWindow(s));
    } else if !SynSent(s) {
      FillLoopQueues(s, EffectiveWindow(s));
    }
  }

  /** The queue that `Respond` sends. */
  function Answer(s: Sender): (q: seq<Segment>)
    requires s.stream.Valid()
    ensures q != []
  {
    var f := FillWindow(s);
    if f.out != [] then f.out else SendEmpty(f).out
  }

  /** A place of `seg` that is no earlier than what the sender still tracks. */
  ghost predicate PlacedLately(seg: Segment, s: Sender, a: nat) {
    PlacedAt(seg, s.isn, s.stream, a) && s.acked - 1001 <= a && a + seg.Length() <= s.next
  }

  lemma {:induction false} TrackedLately(s: Sender, seg: Segment) returns (a: nat)
    requires SenderInv(s) && seg in s.track
    ensures PlacedLately(seg, s, a)
  {
    var j: nat :| j < |s.track| && s.track[j] == seg;
    TilesAt(s.track, s.isn, s.stream, s.next - s.inFlight, s.next, j);
    a := s.next - s.inFlight + TotalLength(s.track[..j]);
  }

  lemma {:induction false} AnswerLately(s: Sender) returns (a: nat)
    requires SenderInv(s) && s.out == []
    ensures var q := Answer(s)[|Answer(s)| - 1];
      Bare(q) && PlacedLately(q, FillWindow(s), a)
  {
    var f := FillWindow(s);
    FillWindowIsSafeAndMaximal(s);
    FillQueues(s);
    var q := Answer(s)[|Answer(s)| - 1];
    if f.out != [] {
      assert q in f.out;
      a := TrackedLately(f, q);
    } else {
      a := f.next;
      assert q == MakeSegment(Wrap(f.next, f.isn), false, [], false);
      assert PlacedAt(q, f.isn, f.stream, a);
    }
  }

  lemma {:induction false} TilesTakeNumbers(segs: seq<Segment>, isn: U32, st: Stream, lo: int, hi: int, q: Segment)
    requires Tiles(segs, isn, st, lo, hi) && q in segs
    ensures q.Length() > 0
    decreases |segs|
  {
    if q != segs[0] {
      TilesTakeNumbers(segs[1..], isn, st, lo + segs[0].Length(), hi, q);
    }
  }

  lemma {:induction false} FillQueuesNumbers(s: Sender, q: Segment)
    requires SenderInv(s) && s.out == [] && q in FillWindow(s).out
    ensures q.Length() > 0
  {
    FillQueues(s);
    FillWindowIsSafeAndMaximal(s);
    var f := FillWindow(s);
    TilesTakeNumbers(f.track, f.isn, f.stream, f.next - f.inFlight, f.next, q);
  }

  /** Whatever an acknowledgment makes the sender queue takes up numbers. */
  lemma {:induction false} AckQueuesNumbers(s: Sender, ackno: U32, window: U16, q: Segment)
    requires SenderInv(s) && s.out == [] && q in AckReceived(s, ackno, window).out
    ensures q.Length() > 0
  {
    var abs := Unwrap(ackno, s.isn, s.acked);
    if s.acked < abs <= s.next {
      AckOnlyKeeps(s, abs, window);
      FillQueuesNumbers(AckOnly(s, abs, window), q);
    }
  }

  // ---- what the front of the track does to the receiver

  /** Where the front of the track starts, and that it covers the first number not
      acknowledged. */
  lemma {:induction false} FrontPlace(s: Sender) returns (a: nat)
    requires SenderInv(s) && s.track != []
    ensures PlacedLately(s.track[0], s, a) && a <= s.acked < a + s.track[0].Length() && Bare(s.track[0])
  {
    TilesOrder(s.track, s.isn, s.stream, s.next - s.inFlight, s.next);
    a := s.next - s.inFlight;
  }

  lemma {:induction false} PlacedCopy(seg: Segment, d: Segment, isn: U32, st: Stream, a: nat)
    requires PlacedAt(seg, isn, st, a) && SameContent(seg, d)
    ensures PlacedAt(d, isn, st, a) && d.Length() == seg.Length()
  {
  }

  /** The segment that holds the next number takes the receiver past it. */
  lemma {:induction false} NumberTaken(s: Sender, r: Receiver, d: Segment, a: nat, r': Receiver)
    requires SenderInv(s) && ReceiverOk(s, r) && r.AbsAck() == s.acked < s.next
    requires PlacedAt(d, s.isn, s.stream, a) && a <= s.acked < a + d.Length() && a + d.Length() <= s.next
    requires Near(a, r.asm.Next() + 1) && r.WindowSize() > 0
    requires Receivable(r, d) && Received(r, d, r')
    ensures r'.AbsAck() > s.acked
  {
    if r.syn {
      GenuineIsn(s, r, d, a);
      GenuineIndex(s, r, d, a);
      var p := Arriving(d.payload, IndexOf(r, d), d.header.fin);
      assert p == Push(d.payload, StreamIndex(d, a), d.header.fin);
      assert !r.asm.stream.ended && r.asm.Next() + 1 == s.acked;
      if s.acked <= |s.stream.written| {
        assert p.Covers(r.asm.Next()) && r.asm.Next() < r.asm.Limit();
        assert r'.asm.Known(r.asm.Next());
        NextIsLeastUnknown(r'.asm, r'.asm.Next());
      } else {
        assert d.header.fin && r'.asm.eof == Some(r.asm.Next());
      }
    }
  }

  lemma {:induction false} FrontAdvances(l: Link, d: Segment, a: nat, r': Receiver)
    requires LinkInv(l) && l.s.track != [] && l.r.WindowSize() > 0
    requires PlacedAt(d, l.s.isn, l.s.stream, a) && a <= l.s.acked < a + d.Length() && a + d.Length() <= l.s.next
    requires Near(a, l.r.asm.Next() + 1)
    requires Receivable(l.r, d) && Received(l.r, d, r')
    ensures r'.AbsAck() > l.s.acked
  {
    if l.r.AbsAck() > l.s.acked {
      if !Discards(l.r, d) {
        ReceivedOk(l.s, l.r, d, a, r');
      }
    } else {
      NumberTaken(l.s, l.r, d, a, r');
    }
  }

  // ---- the steps

  lemma {:induction false} StampAllAt(segs: seq<Segment>, r: Receiver, i: nat)
    requires i < |segs|
    ensures |StampAll(segs, r)| == |segs| && StampAll(segs, r)[i] == Stamp(segs[i], r)
  {
    if |segs| > 1 {
      StampAllAt(segs[1..], r, if i == 0 then 0 else i - 1);
    }
  }

  lemma {:induction false} ReceiveHasOutcome(c: Conn, seg: Segment) returns (c': Conn)
    requires CanReceive(c, seg) && !seg.header.rst && c.receiver.asm.Valid()
    ensures SegmentReceived(c, seg, c')
  {
    var r' := ReceivedHasOutcome(c.receiver, seg);
    c' := TestEnd(BeforeTest(c, seg, r'));
  }

  /** A timely segment on the wire can be received. */
  lemma {:induction false} Receiving(t: Tale, me: bool, x: Sys, seg: Segment) returns (t': Tale, c': Conn)
    requires EndsIn(t, me, x) && seg in x.ba && !seg.header.rst && Timely(x.a, x.WorldOfA(), seg)
    ensures EndsIn(t', me, x.(a := c')) && Continues(t, t')
    ensures CanReceive(x.a, seg) && SegmentReceived(x.a, seg, c')
  {
    EndIsGood(t, me, x);
    TimelyCanReceive(x.a, x.WorldOfA(), seg);
    c' := ReceiveHasOutcome(x.a, seg);
    ReceiveStep(x, seg, c');
    t' := Acting(t, me, x, Perform(ReceiveOp(seg)), x.(a := c'));
  }

  /** What `Respond` leaves behind: the answer is on the connection's own queue, stamped. */
  lemma {:induction false} RespondAnswers(c: Conn)
    requires c.sender.stream.Valid() && c.sender.out == []
    ensures var q := Answer(c.sender);
      && Respond(c) == c.(sender := FillWindow(c.sender).(out := []), out := c.out + StampAll(q, c.receiver))
  {
  }

  /** The last segment of the answer, as it leaves. */
  function LastWord(s: Sender, r: Receiver): Segment
    requires s.stream.Valid()
  {
    Stamp(Answer(s)[|Answer(s)| - 1], r)
  }

  lemma {:induction false} AnswerOf(c1: Conn, c': Conn) returns (s: Sender)
    requires SenderInv(c1.sender) && c1.sender.out == [] && c1.receiver == c'.receiver
    requires c'.sender == Respond(c1).sender && c'.out == Respond(c1).out
    ensures s == c1.sender && c'.sender == FillWindow(s).(out := [])
    ensures LastWord(s, c'.receiver) in c'.out
  {
    s := c1.sender;
    RespondAnswers(c1);
    StampAllAt(Answer(s), c'.receiver, |Answer(s)| - 1);
  }

  lemma {:induction false} AckedQueue(c: Conn, seg: Segment, r: Receiver)
    requires c.sender.Ready() && c.sender.out == []
    ensures AfterAck(c, seg, r).sender.out == [] && AfterAck(c, seg, r).receiver == r
  {
  }

  lemma {:induction false} ReceivedResponds(c: Conn, seg: Segment, c': Conn)
    requires CanReceive(c, seg) && SegmentReceived(c, seg, c') && !seg.header.rst && seg.Length() > 0
    ensures var d := Respond(AfterAck(c, seg, c'.receiver)); c'.sender == d.sender && c'.out == d.out
  {
  }

  /** An endpoint with an empty sender's queue answers every segment that takes up numbers. */
  lemma {:induction false} Answering(c: Conn, w: World, seg: Segment, c': Conn) returns (s: Sender)
    requires Good(c, w) && Timely(c, w, seg) && c.sender.out == []
    requires CanReceive(c, seg) && SegmentReceived(c, seg, c') && !seg.header.rst && seg.Length() > 0
    ensures SenderInv(s) && s.out == [] && c'.sender == FillWindow(s).(out := [])
    ensures LastWord(s, c'.receiver) in c'.out
  {
    AfterAckMoves(c, w, seg, c'.receiver);
    AckedQueue(c, seg, c'.receiver);
    ReceivedResponds(c, seg, c');
    s := AnswerOf(AfterAck(c, seg, c'.receiver), c');
  }

  /** An acknowledgment stamped by the peer's receiver of the moment is timely. */
  lemma {:induction false} StampedAckIsTimely(l: Link, seg: Segment)
    requires LinkInv(l) && l.r.syn && seg.header.ack && Reports(seg, l.r)
    ensures TimelyAck(l, seg) && AckNumber(seg, l.s.isn, l.r, l.r.AbsAck()) && Near(l.r.AbsAck(), l.s.acked)
  {
    AcknoWrapsAbsAck(l.r);
    WindowEndsAtEdge(l.r);
    NextBelow(l.s, l.r);
    assert AckNumber(seg, l.s.isn, l.r, l.r.AbsAck()) && Near(l.r.AbsAck(), l.s.acked);
  }

  lemma {:induction false} LateIsTimely(l: Link, seg: Segment, d: Segment, a: nat)
    requires LinkInv(l) && PlacedLately(seg, l.s, a) && SameContent(seg, d)
    ensures TimelyData(l, d) && Near(a, l.r.asm.Next() + 1)
  {
    NextBelow(l.s, l.r);
    PlacedCopy(seg, d, l.s.isn, l.s.stream, a);
  }

  /** A segment stamped now, of content sent lately, is timely for the peer. */
  lemma {:induction false} StampedIsTimely(c: Conn, w: World, seg: Segment, a: nat)
    requires Good(c, w) && Bare(seg) && PlacedLately(seg, w.peer, a)
    ensures Timely(c, w, Stamp(seg, w.peerReceiver)) && !Stamp(seg, w.peerReceiver).header.rst
  {
    StampOk(seg, w.peerReceiver);
    LateIsTimely(Incoming(c, w), seg, Stamp(seg, w.peerReceiver), a);
    if w.peerReceiver.syn {
      StampedAckIsTimely(Outgoing(c, w), Stamp(seg, w.peerReceiver));
    }
  }

  lemma {:induction false} StampAllLength(segs: seq<Segment>, r: Receiver)
    ensures |StampAll(segs, r)| == |segs|
  {
    if segs != [] {
      StampAllLength(segs[1..], r);
    }
  }

  lemma {:induction false} StampKeepsLength(segs: seq<Segment>, r: Receiver)
    requires forall q :: q in segs ==> q.Length() > 0
    ensures forall q :: q in StampAll(segs, r) ==> q.Length() > 0
  {
    forall q | q in StampAll(segs, r)
      ensures q.Length() > 0
    {
      var i: nat :| i < |StampAll(segs, r)| && StampAll(segs, r)[i] == q;
      StampAllLength(segs, r);
      StampAllAt(segs, r, i);
      assert segs[i] in segs;
    }
  }

  /** A segment that takes up no numbers is never answered with one that takes up none: two
      endpoints do not go on acknowledging each other's acknowledgments. */
  lemma {:induction false} EmptyIsNotAnswered(c: Conn, seg: Segment, c': Conn)
    requires SenderInv(c.sender) && c.sender.out == []
    requires CanReceive(c, seg) && SegmentReceived(c, seg, c') && !seg.header.rst && seg.Length() == 0
    ensures c.out <= c'.out && forall q :: q in c'.out[|c.out|..] ==> q.Length() > 0
  {
    assert c'.out == AfterAck(c, seg, c'.receiver).out;
    if seg.header.ack {
      var s := AckReceived(c.sender, seg.header.ackno, seg.header.win);
      forall q | q in s.out
        ensures q.Length() > 0
      {
        AckQueuesNumbers(c.sender, seg.header.ackno, seg.header.win, q);
      }
      StampKeepsLength(s.out, c'.receiver);
      assert c'.out == c.out + StampAll(s.out, c'.receiver);
    }
  }

  // ---- from a copy on the wire to its acknowledgment

  function Capacity(c: Conn): nat {
    c.receiver.asm.stream.capacity
  }

  lemma {:induction false} FrontTaken(c: Conn, w: World, d: Segment, c': Conn)
    requires Good(c, w) && w.peer.track != [] && c.receiver.WindowSize() > 0
    requires SameContent(w.peer.track[0], d) && !d.header.rst
    requires CanReceive(c, d) && SegmentReceived(c, d, c')
    ensures d.Length() > 0 && c'.receiver.AbsAck() > w.peer.acked
    ensures Capacity(c') == Capacity(c)
  {
    var l := Incoming(c, w);
    var a := FrontPlace(w.peer);
    LateIsTimely(l, w.peer.track[0], d, a);
    PlacedCopy(w.peer.track[0], d, w.peer.isn, w.peer.stream, a);
    FrontAdvances(l, d, a, c'.receiver);
  }

  lemma {:induction false} AnswerIsTimely(c: Conn, w: World, s: Sender)
    requires Good(c, w) && SenderInv(s) && s.out == [] && w.peer == FillWindow(s).(out := [])
    requires w.peerReceiver.AbsAck() > 0
    ensures var answer := LastWord(s, w.peerReceiver);
      && Timely(c, w, answer) && Reports(answer, w.peerReceiver)
      && answer.header.ack && !answer.header.rst
  {
    var a := AnswerLately(s);
    var q := Answer(s)[|Answer(s)| - 1];
    StampedIsTimely(c, w, q, a);
    StampOk(q, w.peerReceiver);
  }

  /** The peer takes a copy of the front of the track and answers: the answer, on the wire,
      acknowledges more than we have. */
  lemma {:induction false} PeerAnswers(t: Tale, me: bool, x: Sys, d: Segment)
    returns (t': Tale, y: Sys, answer: Segment)
    requires EndsIn(t, me, x) && x.a.sender.track != [] && x.b.sender.out == [] && x.b.receiver.WindowSize() > 0
    requires d in x.ab && SameContent(x.a.sender.track[0], d) && !d.header.rst
    requires Timely(x.b, x.Swap().WorldOfA(), d)
    ensures EndsIn(t', me, y) && Continues(t, t') && y.a == x.a
    ensures y.b.sender.out == [] && Capacity(y.b) == Capacity(x.b)
    ensures y.b.receiver.AbsAck() > x.a.sender.acked
    ensures answer in y.ba && Reports(answer, y.b.receiver) && answer.header.ack && !answer.header.rst
    ensures Timely(y.a, y.WorldOfA(), answer)
  {
    var z := x.Swap();
    OtherSide(t, me, x);
    EndIsGood(t, !me, z);
    var t1, c := Receiving(t, !me, z, d);
    FrontTaken(z.a, z.WorldOfA(), d, c);
    var s := Answering(z.a, z.WorldOfA(), d, c);
    t' := TransmitAll(t1, !me, z.(a := c));
    y := z.(a := c.(out := []), ab := z.ab + Elements(c.out)).Swap();
    OtherSide(t', !me, y.Swap());
    EndIsGood(t', me, y);
    answer := LastWord(s, c.receiver);
    AnswerIsTimely(y.a, y.WorldOfA(), s);
  }

  /** The sender after a new acknowledgment: the same stream, no retransmissions on the
      count, and nothing more to send for now. */
  predicate Refreshed(s: Sender, s': Sender) {
    && s'.stream == s.stream.(read := s'.stream.read)
    && s'.timer.consecutive == 0
    && Filled(s')
  }

  lemma {:induction false} AckRefreshes(s: Sender, ackno: U32, window: U16)
    requires SenderInv(s) && s.acked < Unwrap(ackno, s.isn, s.acked) <= s.next
    ensures Refreshed(s, AckReceived(s, ackno, window))
  {
    AckReceivedKeeps(s, ackno, window);
    NewAckRestartsTimer(s, ackno, window);
  }

  lemma {:induction false} RefillRefreshes(s: Sender, m: Sender)
    requires SenderInv(m) && m.acked > 0 && Refreshed(s, m)
    ensures Refreshed(s, FillWindow(m))
  {
    SynSentMeansUnacked(m);
    FillWindowIsSafeAndMaximal(m);
    FillTimer(m);
  }

  lemma {:induction false} BareSender(c: Conn, seg: Segment, r: Receiver)
    requires c.sender.Ready() && seg.header.ack
    ensures AfterAck(c, seg, r).sender == AckReceived(c.sender, seg.header.ackno, seg.header.win).(out := [])
  {
  }

  lemma {:induction false} ReportIsNew(l: Link, seg: Segment)
    requires LinkInv(l) && seg.header.ack && Reports(seg, l.r) && l.r.AbsAck() > l.s.acked
    ensures var s' := AckReceived(l.s, seg.header.ackno, seg.header.win);
      s'.acked > l.s.acked && Refreshed(l.s, s')
  {
    StampedAckIsTimely(l, seg);
    UnwrapUndoesWrap(l.r.AbsAck(), l.s.isn, l.s.acked);
    NextBelow(l.s, l.r);
    AckReceivedKeeps(l.s, seg.header.ackno, seg.header.win);
    AckRefreshes(l.s, seg.header.ackno, seg.header.win);
  }

  lemma {:induction false} AckTaken(c: Conn, w: World, seg: Segment, c': Conn)
    requires Good(c, w) && Timely(c, w, seg) && !seg.header.rst && seg.header.ack
    requires Reports(seg, w.peerReceiver) && w.peerReceiver.AbsAck() > c.sender.acked
    requires CanReceive(c, seg) && SegmentReceived(c, seg, c')
    ensures c'.sender.acked > c.sender.acked && Refreshed(c.sender, c'.sender)
  {
    ReportIsNew(Outgoing(c, w), seg);
    var m := AfterAck(c, seg, c'.receiver).sender;
    AfterAckMoves(c, w, seg, c'.receiver);
    BareSender(c, seg, c'.receiver);
    ReceivedSender(c, seg, c');
    RefillRefreshes(c.sender, m);
    FillWindowIsSafeAndMaximal(m);
  }

  /** A timely copy of the front of the track, on the wire, is enough: the run can go on to
      a state in which more is acknowledged. */
  lemma {:induction false} CopySuffices(t: Tale, me: bool, x: Sys, d: Segment) returns (t': Tale, y: Sys)
    requires EndsIn(t, me, x) && x.a.sender.track != [] && x.b.sender.out == [] && x.b.receiver.WindowSize() > 0
    requires d in x.ab && SameContent(x.a.sender.track[0], d) && !d.header.rst
    requires Timely(x.b, x.Swap().WorldOfA(), d)
    ensures EndsIn(t', me, y) && Continues(t, t') && y.a.sender.acked > x.a.sender.acked
    ensures Refreshed(x.a.sender, y.a.sender) && y.b.sender.out == [] && Capacity(y.b) == Capacity(x.b)
  {
    var t1, z, answer := PeerAnswers(t, me, x, d);
    EndIsGood(t1, me, z);
    var c;
    t', c := Receiving(t1, me, z, answer);
    AckTaken(z.a, z.WorldOfA(), answer, c);
    y := z.(a := c);
  }

  // ---- getting a copy there

  /** The peer's application reads all there is. */
  lemma {:induction false} MakingRoom(t: Tale, me: bool, x: Sys) returns (t': Tale, y: Sys)
    requires EndsIn(t, me, x)
    ensures EndsIn(t', me, y) && Continues(t, t') && y.a == x.a
    ensures y.b.sender == x.b.sender && Capacity(y.b) == Capacity(x.b)
    ensures y.b.receiver.WindowSize() == Capacity(x.b)
  {
    var z := x.Swap();
    OtherSide(t, me, x);
    EndIsGood(t, !me, z);
    var len: nat := z.a.receiver.asm.stream.BufferSize();
    var w := z.(a := ReadInbound(z.a, len));
    t' := Acting(t, !me, z, Perform(ReadOp(len)), w);
    y := w.Swap();
    OtherSide(t', !me, w);
  }

  /** The timer expires, and the front of the track goes out again, freshly stamped. */
  lemma {:induction false} ExpiryResends(c: Conn, w: World)
    requires Good(c, w) && c.sender.track != [] && c.sender.timer.consecutive < MAX_RETX_ATTEMPTS
    ensures var c' := TcpConnections.Tick(c, c.sender.timer.rto);
      && c'.sender == c.sender.(out := [], timer := c'.sender.timer) && c'.receiver == c.receiver
      && Stamp(c.sender.track[0], c.receiver) in c'.out
  {
    var c1 := Ticked(c, c.sender.timer.rto);
    TickKeeps(c.sender, c.sender.timer.rto);
    assert c1.sender.out == c.sender.out + [c.sender.track[0]] && !GivesUp(c1);
    StampAllAt(c1.sender.out, c.receiver, |c.sender.out|);
    assert Stamp(c.sender.track[0], c.receiver) in StampAll(c1.sender.out, c.receiver);
  }

  lemma {:induction false} Resending(t: Tale, me: bool, x: Sys) returns (t': Tale, y: Sys, d: Segment)
    requires EndsIn(t, me, x) && x.a.sender.track != [] && x.a.sender.timer.consecutive < MAX_RETX_ATTEMPTS
    ensures EndsIn(t', me, y) && Continues(t, t') && y.b == x.b
    ensures y.a.sender == x.a.sender.(out := [], timer := y.a.sender.timer)
    ensures d in y.ab && SameContent(x.a.sender.track[0], d) && !d.header.rst
    ensures Timely(y.b, y.Swap().WorldOfA(), d)
  {
    EndIsGood(t, me, x);
    GoodIsUsable(x.a, x.WorldOfA());
    ExpiryResends(x.a, x.WorldOfA());
    var ms := x.a.sender.timer.rto;
    var z := x.(a := TcpConnections.Tick(x.a, ms));
    t' := Acting(t, me, x, Perform(TickOp(ms)), z);
    t' := TransmitAll(t', me, z);
    y := z.(a := z.a.(out := []), ab := z.ab + Elements(z.a.out));
    d := Stamp(x.a.sender.track[0], x.a.receiver);
    EndIsGood(t', me, y);
    var a := FrontPlace(x.a.sender);
    StampOk(x.a.sender.track[0], x.a.receiver);
    StampedIsTimely(y.b, y.Swap().WorldOfA(), x.a.sender.track[0], a);
  }

  /** One more acknowledgment is possible. */
  lemma {:induction false} OneMoreAck(t: Tale, me: bool, x: Sys) returns (t': Tale, y: Sys)
    requires EndsIn(t, me, x) && x.a.sender.track != [] && x.a.sender.timer.consecutive < MAX_RETX_ATTEMPTS
    requires x.b.sender.out == [] && Capacity(x.b) > 0
    ensures EndsIn(t', me, y) && Continues(t, t') && y.a.sender.acked > x.a.sender.acked
    ensures Refreshed(x.a.sender, y.a.sender) && y.b.sender.out == [] && Capacity(y.b) == Capacity(x.b)
  {
    var t1, x1 := MakingRoom(t, me, x);
    var t2, x2, d := Resending(t1, me, x1);
    t', y := CopySuffices(t2, me, x2, d);
  }

  // ---- everything can still be delivered

  /** All that was written to the stream of `c` has been delivered to `peer` and
      acknowledged, and its end too if it has one. */
  predicate AllDelivered(c: Conn, peer: Conn) {
    && c.sender.track == []
    && c.sender.acked == c.sender.next == |c.sender.stream.written| + (if c.sender.stream.ended then 2 else 1)
    && peer.receiver.asm.stream.written == c.sender.stream.written
    && (c.sender.stream.ended ==> peer.receiver.asm.stream.ended)
  }

  lemma {:induction false} NothingLeft(x: Sys)
    requires SysInv(x) && x.a.sender.track == [] && x.a.sender.acked > 0 && Filled(x.a.sender)
    ensures AllDelivered(x.a, x.b)
  {
    var l := Outgoing(x.a, x.WorldOfA());
    LinkIsSafe(l);
    if l.s.stream.ended {
      AckedMeansDelivered(l);
    }
  }

  lemma {:induction false} Delivering(t: Tale, me: bool, x: Sys) returns (t': Tale, y: Sys)
    requires EndsIn(t, me, x) && SysInv(x)
    requires x.a.sender.track != [] && x.a.sender.timer.consecutive < MAX_RETX_ATTEMPTS
    requires x.b.sender.out == [] && Capacity(x.b) > 0
    ensures EndsIn(t', me, y) && Continues(t, t') && AllDelivered(y.a, y.b)
    ensures y.a.sender.stream == x.a.sender.stream.(read := y.a.sender.stream.read)
    decreases |x.a.sender.stream.written| + 2 - x.a.sender.acked
  {
    t', y := OneMoreAck(t, me, x);
    EndIsGood(t', me, y);
    if y.a.sender.track == [] {
      NothingLeft(y);
    } else {
      var t1, z := t', y;
      t', y := Delivering(t1, me, z);
    }
  }

  // ---- over runs

  /** While a connection is active, nothing stays in its sender's queue between two
      operations. */
  predicate QueueOk(c: Conn) {
    c.active ==> c.sender.out == []
  }

  lemma {:induction false} ReceiveEmptiesQueue(c: Conn, seg: Segment, c': Conn)
    requires CanReceive(c, seg) && SegmentReceived(c, seg, c') && QueueOk(c)
    ensures QueueOk(c')
  {
  }

  lemma {:induction false} TickEmptiesQueue(c: Conn, ms: nat)
    ensures QueueOk(TcpConnections.Tick(c, ms))
  {
  }

  lemma {:induction false} OpEmptiesQueue(c: Conn, op: Op, c': Conn, w: World, wire: set<Segment>)
    requires Good(c, w) && OpStep(c, op, c', w, wire) && QueueOk(c)
    ensures QueueOk(c')
  {
    GoodIsUsable(c, w);
    match op
    case TickOp(ms) => TickEmptiesQueue(c, ms);
    case ReceiveOp(seg) =>
      TimelyCanReceive(c, w, seg);
      ReceiveEmptiesQueue(c, seg, c');
    case _ =>
  }

  lemma {:induction false} StepEmptiesQueues(x: Sys, byA: bool, act: Action, y: Sys)
    requires SysInv(x) && SysStep(x, byA, act, y) && QueueOk(x.a) && QueueOk(x.b)
    ensures QueueOk(y.a) && QueueOk(y.b)
  {
    var x', y' := View(x, byA), View(y, byA);
    if act.Perform? {
      OpEmptiesQueue(x'.a, act.op, y'.a, x'.WorldOfA(), x'.ba);
    }
  }

  lemma {:induction false} QueuesAreEmptied(states: seq<Sys>, acts: seq<(bool, Action)>, k: nat)
    requires SysRun(states, acts) && k < |states|
    ensures QueueOk(states[k].a) && QueueOk(states[k].b)
  {
    if k > 0 {
      QueuesAreEmptied(states, acts, k - 1);
      SysRunKeeps(states, acts, k - 1);
      assert StepAt(states, acts, k - 1);
      StepEmptiesQueues(states[k - 1], acts[k - 1].0, acts[k - 1].1, states[k]);
    }
  }

  /** From every state of every run in which an endpoint has something in flight and a
      retransmission to spare, and its peer is active and has room for at least one byte,
      the run can go on so that all the endpoint has written, and its end, is delivered
      and acknowledged: loss and delay never make that impossible. */
  lemma {:induction false} DeliveryStaysPossible(states: seq<Sys>, acts: seq<(bool, Action)>, byA: bool)
    returns (t: Tale)
    requires SysRun(states, acts)
    requires states[|acts|].End(byA).sender.track != []
    requires states[|acts|].End(byA).sender.timer.consecutive < MAX_RETX_ATTEMPTS
    requires states[|acts|].End(!byA).active && Capacity(states[|acts|].End(!byA)) > 0
    ensures SysRun(t.states, t.acts) && states <= t.states && acts <= t.acts
    ensures var x, y := states[|acts|], t.states[|t.acts|];
      && AllDelivered(y.End(byA), y.End(!byA))
      && y.End(byA).sender.stream.written == x.End(byA).sender.stream.written
      && y.End(byA).sender.stream.ended == x.End(byA).sender.stream.ended
  {
    var start := Tale(states, acts);
    var x := View(states[|acts|], byA);
    EndIsGood(start, byA, x);
    QueuesAreEmptied(states, acts, |acts|);
    var y;
    t, y := Delivering(start, byA, x);
  }
}
