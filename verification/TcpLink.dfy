/** One direction of a connection: a sender, the peer's receiver, and a network that
    may lose, duplicate and reorder whatever either of them puts on it. */
module TcpLinks {
  import opened Types
  import opened WrappingIntegers
  import opened ByteStreams
  import opened Reassembly
  import opened TcpSegments
  import opened TcpSenders
  import opened TcpSenderInvariant
  import opened TcpReceivers

  /** `data` holds every segment ever put on the network towards the receiver and
      `acks` every segment ever put on it in the other direction. Delivering picks a
      member and removes nothing, so loss, repetition and any order are covered. */
  datatype Link = Link(s: Sender, r: Receiver, data: set<Segment>, acks: set<Segment>)

  function NewLink(capacity: nat, retxTimeout: nat, isn: U32, recvCapacity: nat): Link {
    Link(NewSender(capacity, retxTimeout, isn), NewReceiver(recvCapacity), {}, {})
  }

  /** Equal but for the fields that the connection fills in when it sends. */
  predicate SameContent(seg: Segment, seg': Segment) {
    && seg'.header.seqno == seg.header.seqno
    && seg'.header.syn == seg.header.syn
    && seg'.header.fin == seg.header.fin
    && seg'.payload == seg.payload
  }

  // ---- steps

  /** The maximum segment lifetime assumption of section 3.3 of RFC 793: some true
      place of the segment lies within 2^31 of the receiver's checkpoint. */
  ghost predicate TimelyData(l: Link, seg: Segment) {
    exists a: nat ::
      && PlacedAt(seg, l.s.isn, l.s.stream, a)
      && a + seg.Length() <= l.s.next
      && Near(a, l.r.asm.Next() + 1)
  }

  /** `v` can be what `seg` acknowledges: the receiver has got that far, and the window
      counted from there does not pass its right edge. */
  predicate AckNumber(seg: Segment, isn: U32, r: Receiver, v: nat) {
    && r.syn && 1 <= v <= r.AbsAck() && seg.header.ackno == Wrap(v, isn)
    && v + seg.header.win <= r.RightEdge()
  }

  /** The same for the acknowledgment that a segment carries. */
  ghost predicate TimelyAck(l: Link, seg: Segment) {
    exists v: nat :: AckNumber(seg, l.s.isn, l.r, v) && Near(v, l.s.acked)
  }

  /** The acknowledgment number and window on `seg` are the receiver's own, if it
      carries any. */
  predicate Reports(seg: Segment, r: Receiver) {
    seg.header.ack ==> r.Ackno() == Some(seg.header.ackno) && seg.header.win <= r.WindowSize()
  }

  datatype Event =
    | Write(data: seq<byte>)
    | EndInput
    | Fill
    | Tick(ms: nat)
    | Empty
    | SendData(sent: Segment)
    | DeliverData(segment: Segment)
    | SendAck(ackSegment: Segment)
    | DeliverAck(ack: Segment)
    | Read(len: nat)
    | SendError
    | ReceiveError

  /** What the operations need in order to be defined. */
  predicate Defined(l: Link) {
    && l.s.Ready()
    && l.r.asm.stream.Valid()
  }

  ghost predicate DefinedStep(l: Link, e: Event, l': Link)
    requires Defined(l)
  {
    match e
    case Write(data) =>
      && !l.s.stream.ended
      && |l.s.stream.written| + |data| + 2 < CHECKPOINT_BOUND
      && l' == l.(s := l.s.(stream := l.s.stream.Write(data)))
    case EndInput => l' == l.(s := l.s.(stream := l.s.stream.EndInput()))
    case Fill => l' == l.(s := FillWindow(l.s))
    case Tick(ms) => l' == l.(s := TcpSenders.Tick(l.s, ms))
    case Empty => l' == l.(s := SendEmpty(l.s))
    case SendData(sent) =>
      && l.s.out != [] && SameContent(l.s.out[0], sent)
      && l' == l.(s := l.s.(out := l.s.out[1..]), data := l.data + {sent})
    case DeliverData(seg) =>
      && seg in l.data
      && (!Discards(l.r, seg) ==> TimelyData(l, seg))
      && (Receivable(l.r, seg) ==> Received(l.r, seg, l'.r))
      && l' == l.(r := l'.r)
    case SendAck(seg) =>
      && Reports(seg, l.r)
      && l' == l.(acks := l.acks + {seg})
    case DeliverAck(seg) =>
      && seg in l.acks && seg.header.ack
      && TimelyAck(l, seg)
      && l' == l.(s := AckReceived(l.s, seg.header.ackno, seg.header.win))
    case Read(len) => l' == l.(r := l.r.(asm := l.r.asm.Read(len)))
    case SendError => l' == l.(s := l.s.(stream := l.s.stream.SetError()))
    case ReceiveError => l' == l.(r := l.r.(asm := l.r.asm.(stream := l.r.asm.stream.SetError())))
  }

  /** `e` can turn `l` into `l'`. Where an operation would be undefined, anything can
      happen. */
  ghost predicate Step(l: Link, e: Event, l': Link) {
    Defined(l) ==> DefinedStep(l, e, l')
  }

  // ---- the invariant

  /** Everything known at the receiver was sent, and is the sender's byte. */
  ghost predicate Agrees(asm: Assembly, written: seq<byte>, hi: nat) {
    forall i: nat :: asm.Known(i) ==> i < |written| && i + 1 < hi && asm.ByteAt(i) == written[i]
  }

  ghost predicate ReceiverOk(s: Sender, r: Receiver) {
    && r.asm.Valid()
    && Agrees(r.asm, s.stream.written, s.next)
    && (r.asm.eof.Some? ==> s.stream.ended && r.asm.eof.value == |s.stream.written| && s.next == |s.stream.written| + 2)
    && (r.asm.stream.ended ==> r.asm.eof.Some? && r.asm.Next() >= r.asm.eof.value)
    && (if r.syn then r.isn == s.isn && s.next >= 1
        else r.asm.Next() == 0 && r.asm.buffered == map[] && r.asm.eof == None)
  }

  ghost predicate AllDataGenuine(data: set<Segment>, s: Sender) {
    forall seg :: seg in data ==> Genuine(seg, s.isn, s.stream, s.next)
  }

  ghost predicate AckGenuine(seg: Segment, isn: U32, r: Receiver) {
    seg.header.ack ==> exists v: nat :: AckNumber(seg, isn, r, v)
  }

  ghost predicate AllAcksGenuine(acks: set<Segment>, isn: U32, r: Receiver) {
    forall seg :: seg in acks ==> AckGenuine(seg, isn, r)
  }

  /** A copy of the segment is queued or was sent. */
  ghost predicate SentOrQueued(seg: Segment, out: seq<Segment>, data: set<Segment>) {
    seg in out || exists d :: d in data && SameContent(seg, d)
  }

  ghost predicate AllTrackedSent(l: Link) {
    forall seg :: seg in l.s.track ==> SentOrQueued(seg, l.s.out, l.data)
  }

  ghost predicate LinkInv(l: Link) {
    && SenderInv(l.s)
    && ReceiverOk(l.s, l.r)
    && l.s.acked <= l.r.AbsAck()
    && AllDataGenuine(l.data, l.s)
    && AllAcksGenuine(l.acks, l.s.isn, l.r)
    && AllTrackedSent(l)
  }

  lemma {:induction false} NewLinkInv(capacity: nat, retxTimeout: nat, isn: U32, recvCapacity: nat)
    ensures LinkInv(NewLink(capacity, retxTimeout, isn, recvCapacity))
  {
    NewSenderInv(capacity, retxTimeout, isn);
  }

  // ---- what one side does to the rest of the link

  lemma {:induction false} AgreesLater(asm: Assembly, written: seq<byte>, hi: nat, written': seq<byte>, hi': nat)
    requires Agrees(asm, written, hi) && written <= written' && hi <= hi'
    ensures Agrees(asm, written', hi')
  {
  }

  lemma {:induction false} AllDataLater(data: set<Segment>, s: Sender, s': Sender)
    requires AllDataGenuine(data, s) && Advances(s, s')
    ensures AllDataGenuine(data, s')
  {
    forall seg | seg in data
      ensures Genuine(seg, s'.isn, s'.stream, s'.next)
    {
      GenuineLater(seg, s.isn, s.stream, s'.stream, s.next, s'.next);
    }
  }

  lemma {:induction false} ReceiverOkLater(s: Sender, r: Receiver, s': Sender)
    requires ReceiverOk(s, r) && Advances(s, s') && s'.next <= |s'.stream.written| + 2
    ensures ReceiverOk(s', r)
  {
    AgreesLater(r.asm, s.stream.written, s.next, s'.stream.written, s'.next);
  }

  /** Sender steps that keep its own invariant keep the link's, as long as nothing
      is acknowledged beyond the receiver and everything tracked is queued. */
  lemma {:induction false} SenderStepKeeps(l: Link, s': Sender)
    requires LinkInv(l) && SenderInv(s') && Advances(l.s, s')
    requires s'.acked <= l.r.AbsAck()
    requires AllTrackedSent(l.(s := s'))
    ensures LinkInv(l.(s := s'))
  {
    ReceiverOkLater(l.s, l.r, s');
    AllDataLater(l.data, l.s, s');
  }

  /** Each tracked segment of `s'` was tracked before or is queued, and nothing
      queued was taken back. */
  ghost predicate TracksQueued(s: Sender, s': Sender) {
    && s.out <= s'.out
    && forall seg :: seg in s'.track ==> seg in s.track || seg in s'.out
  }

  lemma {:induction false} TracksQueuedKeeps(l: Link, s': Sender)
    requires AllTrackedSent(l) && TracksQueued(l.s, s')
    ensures AllTrackedSent(l.(s := s'))
  {
    forall seg | seg in s'.track
      ensures SentOrQueued(seg, s'.out, l.data)
    {
      assert seg in l.s.track ==> SentOrQueued(seg, l.s.out, l.data);
    }
  }

  lemma {:induction false} TracksQueuedTrans(s: Sender, m: Sender, s': Sender)
    requires TracksQueued(s, m) && TracksQueued(m, s')
    ensures TracksQueued(s, s')
  {
  }

  lemma {:induction false} EmitTracks(s: Sender, syn: bool, payload: seq<byte>, fin: bool)
    ensures TracksQueued(s, Emit(s, syn, payload, fin))
  {
    var segment := MakeSegment(Wrap(s.next, s.isn), syn, payload, fin);
    assert Emit(s, syn, payload, fin).out == s.out + [segment];
    assert segment in s.out + [segment];
  }

  lemma {:induction false} FillTurnTracks(s: Sender, window: nat)
    requires s.stream.Valid()
    ensures TracksQueued(s, FillTurn(s, window).s)
  {
    var remain := window - (s.next - s.acked);
    var size := Min(remain, MAX_PAYLOAD_SIZE);
    if FillTurn(s, window).s != s {
      if s.stream.Eof() {
        EmitTracks(s.(stream := s.stream.Pop(0)), false, s.stream.Peek(0), true);
      } else {
        EmitTracks(s.(stream := s.stream.Pop(size)), false, s.stream.Peek(size),
                   s.stream.Pop(size).Eof() && remain - |s.stream.Peek(size)| > 0);
      }
    }
  }

  lemma {:induction false} FillLoopTracks(s: Sender, window: nat)
    requires s.stream.Valid()
    ensures TracksQueued(s, FillLoop(s, window))
    decreases Max(0, window - (s.next - s.acked))
  {
    var t := FillTurn(s, window);
    FillTurnTracks(s, window);
    if t.More? {
      FillLoopTracks(t.s, window);
      TracksQueuedTrans(s, t.s, FillLoop(t.s, window));
    }
  }

  lemma {:induction false} FillWindowTracks(s: Sender)
    requires s.stream.Valid()
    ensures TracksQueued(s, FillWindow(s))
  {
    if s.next == 0 {
      EmitTracks(s, true, [], false);
      FillLoopTracks(Emit(s, true, [], false), EffectiveWindow(s));
      TracksQueuedTrans(s, Emit(s, true, [], false), FillWindow(s));
    } else if !SynSent(s) {
      FillLoopTracks(s, EffectiveWindow(s));
    }
  }

  lemma {:induction false} PopAckedTracks(s: Sender)
    requires s.acked < CHECKPOINT_BOUND
    ensures TracksQueued(s, PopAcked(s))
    decreases |s.track|
  {
    if s.track != [] {
      var m := s.(track := s.track[1..], inFlight := s.inFlight - s.track[0].Length());
      PopAckedTracks(m);
      TracksQueuedTrans(s, m, PopAcked(m));
    }
  }

  lemma {:induction false} AckReceivedTracks(s: Sender, ackno: U32, window: U16)
    requires SenderInv(s)
    ensures TracksQueued(s, AckReceived(s, ackno, window))
  {
    var abs := Unwrap(ackno, s.isn, s.acked);
    if s.acked < abs <= s.next {
      AckOnlyKeeps(s, abs, window);
      PopAckedTracks(s.(window := window, acked := abs));
      var m := AckOnly(s, abs, window);
      FillWindowTracks(m);
      TracksQueuedTrans(s, m, FillWindow(m));
    }
  }

  // ---- the sender's steps

  lemma {:induction false} FillKeepsLink(l: Link)
    requires LinkInv(l)
    ensures LinkInv(l.(s := FillWindow(l.s)))
  {
    FillWindowIsSafeAndMaximal(l.s);
    FillWindowTracks(l.s);
    TracksQueuedKeeps(l, FillWindow(l.s));
    SenderStepKeeps(l, FillWindow(l.s));
  }

  lemma {:induction false} WriteKeepsLink(l: Link, data: seq<byte>)
    requires LinkInv(l) && !l.s.stream.ended
    requires |l.s.stream.written| + |data| + 2 < CHECKPOINT_BOUND
    ensures LinkInv(l.(s := l.s.(stream := l.s.stream.Write(data))))
  {
    WriteKeeps(l.s, data);
    TracksQueuedKeeps(l, l.s.(stream := l.s.stream.Write(data)));
    SenderStepKeeps(l, l.s.(stream := l.s.stream.Write(data)));
  }

  lemma {:induction false} EndKeepsLink(l: Link)
    requires LinkInv(l)
    ensures LinkInv(l.(s := l.s.(stream := l.s.stream.EndInput())))
  {
    EndInputKeeps(l.s);
    TracksQueuedKeeps(l, l.s.(stream := l.s.stream.EndInput()));
    SenderStepKeeps(l, l.s.(stream := l.s.stream.EndInput()));
  }

  lemma {:induction false} SendErrorKeepsLink(l: Link)
    requires LinkInv(l)
    ensures LinkInv(l.(s := l.s.(stream := l.s.stream.SetError())))
  {
    SetErrorKeeps(l.s);
    TracksQueuedKeeps(l, l.s.(stream := l.s.stream.SetError()));
    SenderStepKeeps(l, l.s.(stream := l.s.stream.SetError()));
  }

  lemma {:induction false} TickKeepsLink(l: Link, ms: nat)
    requires LinkInv(l)
    ensures LinkInv(l.(s := TcpSenders.Tick(l.s, ms)))
  {
    TickKeeps(l.s, ms);
    TracksQueuedKeeps(l, TcpSenders.Tick(l.s, ms));
    SenderStepKeeps(l, TcpSenders.Tick(l.s, ms));
  }

  lemma {:induction false} EmptyKeepsLink(l: Link)
    requires LinkInv(l)
    ensures LinkInv(l.(s := SendEmpty(l.s)))
  {
    SendEmptyKeeps(l.s);
    TracksQueuedKeeps(l, SendEmpty(l.s));
    SenderStepKeeps(l, SendEmpty(l.s));
  }

  /** A timely acknowledgment is read as a number that the receiver has reached and from
      which the window does not pass its right edge. */
  lemma {:induction false} AckKeepsLink(l: Link, seg: Segment)
    requires LinkInv(l) && TimelyAck(l, seg)
    ensures AckNumber(seg, l.s.isn, l.r, Unwrap(seg.header.ackno, l.s.isn, l.s.acked))
    ensures LinkInv(l.(s := AckReceived(l.s, seg.header.ackno, seg.header.win)))
  {
    var v: nat :| AckNumber(seg, l.s.isn, l.r, v) && Near(v, l.s.acked);
    UnwrapUndoesWrap(v, l.s.isn, l.s.acked);
    var s' := AckReceived(l.s, seg.header.ackno, seg.header.win);
    AckReceivedKeeps(l.s, seg.header.ackno, seg.header.win);
    AckReceivedTracks(l.s, seg.header.ackno, seg.header.win);
    TracksQueuedKeeps(l, s');
    SenderStepKeeps(l, s');
  }

  lemma {:induction false} PlacedSameContent(seg: Segment, seg': Segment, isn: U32, st: Stream, hi: nat)
    requires Genuine(seg, isn, st, hi) && SameContent(seg, seg')
    ensures Genuine(seg', isn, st, hi)
  {
    var a: nat :| PlacedAt(seg, isn, st, a) && a + seg.Length() <= hi;
    assert PlacedAt(seg', isn, st, a);
  }

  lemma {:induction false} SendKeepsLink(l: Link, sent: Segment)
    requires LinkInv(l) && l.s.out != [] && SameContent(l.s.out[0], sent)
    ensures LinkInv(l.(s := l.s.(out := l.s.out[1..]), data := l.data + {sent}))
  {
    var s', data' := l.s.(out := l.s.out[1..]), l.data + {sent};
    PlacedSameContent(l.s.out[0], sent, l.s.isn, l.s.stream, l.s.next);
    assert AllQueued(s'.out, s'.isn, s'.stream, s'.next);
    forall seg | seg in s'.track
      ensures SentOrQueued(seg, s'.out, data')
    {
      assert SentOrQueued(seg, l.s.out, l.data);
      if seg == l.s.out[0] {
        assert sent in data' && SameContent(seg, sent);
      }
    }
  }

  // ---- the receiver's steps

  lemma {:induction false} PushAgrees(a: Assembly, p: Push, b: Assembly, written: seq<byte>, hi: nat)
    requires Pushed(a, p, b) && Agrees(a, written, hi)
    requires p.data != [] ==> CarriesFrom(p.data, written, p.index) && p.index + |p.data| < hi
    ensures Agrees(b, written, hi)
  {
    forall i: nat | b.Known(i)
      ensures i < |written| && i + 1 < hi && b.ByteAt(i) == written[i]
    {
      if i < a.Next() {
        assert a.Known(i) && b.stream.written[i] == a.stream.written[i];
      }
    }
  }

  lemma {:induction false} WrapZero(isn: U32)
    ensures Wrap(0, isn) == isn
  {
  }

  lemma {:induction false} GenuineIsn(s: Sender, r: Receiver, seg: Segment, a: nat)
    requires ReceiverOk(s, r) && !Discards(r, seg) && PlacedAt(seg, s.isn, s.stream, a)
    ensures IsnAfter(r, seg) == s.isn
  {
    WrapZero(s.isn);
  }

  lemma {:induction false} IndexArithmetic(r: Receiver, seg: Segment, a: nat)
    requires r.asm.Next() + 1 < CHECKPOINT_BOUND && a + seg.Length() < CHECKPOINT_BOUND
    requires Unwrap(seg.header.seqno, IsnAfter(r, seg), r.asm.Next() + 1) == a
    ensures a == 0 && !seg.header.syn ==> IndexOf(r, seg) == TWO64 - 1
    ensures !(a == 0 && !seg.header.syn) ==>
      IndexOf(r, seg) == StreamIndex(seg, a) && IndexOf(r, seg) + |seg.payload| < TWO64
  {
  }

  /** The receiver is never ahead of the sender. */
  lemma {:induction false} NextBelow(s: Sender, r: Receiver)
    requires SenderInv(s) && ReceiverOk(s, r)
    ensures r.AbsAck() <= s.next
    ensures r.asm.Next() <= |s.stream.written| && r.asm.Next() + 1 < CHECKPOINT_BOUND
  {
    if r.asm.Next() > 0 {
      assert r.asm.Known(r.asm.Next() - 1);
    }
  }

  /** Where a genuine segment lands, once its number is read correctly. */
  lemma {:induction false} GenuineIndex(s: Sender, r: Receiver, seg: Segment, a: nat)
    requires SenderInv(s) && ReceiverOk(s, r) && !Discards(r, seg)
    requires PlacedAt(seg, s.isn, s.stream, a) && a + seg.Length() <= s.next
    requires Near(a, r.asm.Next() + 1)
    ensures Receivable(r, seg) && IndexOf(r, seg) + |seg.payload| < TWO64
    ensures a == 0 && !seg.header.syn ==> seg.Length() == 0
    ensures !(a == 0 && !seg.header.syn) ==> IndexOf(r, seg) == StreamIndex(seg, a)
  {
    NextBelow(s, r);
    GenuineIsn(s, r, seg, a);
    UnwrapUndoesWrap(a, s.isn, r.asm.Next() + 1);
    IndexArithmetic(r, seg, a);
  }

  /** The receiver later on, as acknowledgments see it. */
  predicate ReachesFurther(r: Receiver, r': Receiver) {
    r.AbsAck() <= r'.AbsAck() && r.RightEdge() <= r'.RightEdge() && (r.syn ==> r'.syn)
  }

  lemma {:induction false} ReceivedOk(s: Sender, r: Receiver, seg: Segment, a: nat, r': Receiver)
    requires SenderInv(s) && ReceiverOk(s, r) && !Discards(r, seg)
    requires PlacedAt(seg, s.isn, s.stream, a) && a + seg.Length() <= s.next
    requires Near(a, r.asm.Next() + 1)
    requires Receivable(r, seg) && Received(r, seg, r')
    ensures ReceiverOk(s, r') && ReachesFurther(r, r')
  {
    GenuineIsn(s, r, seg, a);
    GenuineIndex(s, r, seg, a);
    var p := Arriving(seg.payload, IndexOf(r, seg), seg.header.fin);
    PushAgrees(r.asm, p, r'.asm, s.stream.written, s.next);
    assert r.asm.stream.written <= r'.asm.stream.written;
  }

  lemma {:induction false} AcksLater(acks: set<Segment>, isn: U32, r: Receiver, r': Receiver)
    requires AllAcksGenuine(acks, isn, r)
    requires ReachesFurther(r, r')
    ensures AllAcksGenuine(acks, isn, r')
  {
    forall seg | seg in acks && seg.header.ack
      ensures AckGenuine(seg, isn, r')
    {
      assert AckGenuine(seg, isn, r);
      var v: nat :| AckNumber(seg, isn, r, v);
      assert AckNumber(seg, isn, r', v);
    }
  }

  lemma {:induction false} ReceiverStepKeeps(l: Link, r': Receiver)
    requires LinkInv(l) && ReceiverOk(l.s, r')
    requires ReachesFurther(l.r, r')
    ensures LinkInv(l.(r := r'))
  {
    AcksLater(l.acks, l.s.isn, l.r, r');
  }

  /** A timely segment never takes the receiver out of its 64 bits. */
  lemma {:induction false} TimelyIsReceivable(l: Link, seg: Segment)
    requires LinkInv(l)
    requires !Discards(l.r, seg) ==> TimelyData(l, seg)
    ensures Receivable(l.r, seg)
    ensures !Discards(l.r, seg) ==> IndexOf(l.r, seg) + |seg.payload| < TWO64
  {
    NextBelow(l.s, l.r);
    if !Discards(l.r, seg) {
      var a: nat :|
        && PlacedAt(seg, l.s.isn, l.s.stream, a) && a + seg.Length() <= l.s.next
        && Near(a, l.r.asm.Next() + 1);
      GenuineIndex(l.s, l.r, seg, a);
    }
  }

  lemma {:induction false} DeliverKeepsLink(l: Link, seg: Segment, r': Receiver)
    requires LinkInv(l) && Receivable(l.r, seg) && Received(l.r, seg, r')
    requires !Discards(l.r, seg) ==> TimelyData(l, seg)
    ensures LinkInv(l.(r := r'))
  {
    if Discards(l.r, seg) {
      assert l.(r := r') == l;
    } else {
      var a: nat :|
        && PlacedAt(seg, l.s.isn, l.s.stream, a) && a + seg.Length() <= l.s.next
        && Near(a, l.r.asm.Next() + 1);
      ReceivedOk(l.s, l.r, seg, a, r');
      ReceiverStepKeeps(l, r');
    }
  }

  lemma {:induction false} ReadKeepsLink(l: Link, len: nat)
    requires LinkInv(l)
    ensures LinkInv(l.(r := l.r.(asm := l.r.asm.Read(len))))
  {
    var r' := l.r.(asm := l.r.asm.Read(len));
    assert forall i: nat :: r'.asm.Known(i) ==> l.r.asm.Known(i) && r'.asm.ByteAt(i) == l.r.asm.ByteAt(i);
    ReceiverStepKeeps(l, r');
  }

  lemma {:induction false} ReceiveErrorKeepsLink(l: Link)
    requires LinkInv(l)
    ensures LinkInv(l.(r := l.r.(asm := l.r.asm.(stream := l.r.asm.stream.SetError()))))
  {
    var r' := l.r.(asm := l.r.asm.(stream := l.r.asm.stream.SetError()));
    assert forall i: nat :: r'.asm.Known(i) ==> l.r.asm.Known(i) && r'.asm.ByteAt(i) == l.r.asm.ByteAt(i);
    ReceiverStepKeeps(l, r');
  }

  lemma {:induction false} SendAckKeepsLink(l: Link, seg: Segment)
    requires LinkInv(l)
    requires Reports(seg, l.r)
    ensures LinkInv(l.(acks := l.acks + {seg}))
  {
    if seg.header.ack {
      AcknoWrapsAbsAck(l.r);
      WindowEndsAtEdge(l.r);
      assert AckNumber(seg, l.s.isn, l.r, l.r.AbsAck());
    }
    assert AckGenuine(seg, l.s.isn, l.r);
  }

  // ---- runs

  lemma {:induction false} StepKeepsLink(l: Link, e: Event, l': Link)
    requires LinkInv(l) && Step(l, e, l')
    ensures LinkInv(l')
  {
    match e
    case Write(data) => WriteKeepsLink(l, data);
    case EndInput => EndKeepsLink(l);
    case Fill => FillKeepsLink(l);
    case Tick(ms) => TickKeepsLink(l, ms);
    case Empty => EmptyKeepsLink(l);
    case SendData(sent) => SendKeepsLink(l, sent);
    case DeliverData(seg) =>
      TimelyIsReceivable(l, seg);
      DeliverKeepsLink(l, seg, l'.r);
    case SendAck(seg) => SendAckKeepsLink(l, seg);
    case DeliverAck(seg) => AckKeepsLink(l, seg);
    case Read(len) => ReadKeepsLink(l, len);
    case SendError => SendErrorKeepsLink(l);
    case ReceiveError => ReceiveErrorKeepsLink(l);
  }

  /** `states` is a run of the link from its start under `events`. */
  ghost predicate Run(states: seq<Link>, events: seq<Event>) {
    && |states| == |events| + 1
    && (exists capacity: nat, retx: nat, isn: U32, recv: nat :: states[0] == NewLink(capacity, retx, isn, recv))
    && forall k {:trigger events[k]} :: 0 <= k < |events| ==>
        Step(states[k], events[k], states[k + 1])
  }

  lemma {:induction false} RunKeepsLink(states: seq<Link>, events: seq<Event>, k: nat)
    requires Run(states, events) && k < |states|
    ensures LinkInv(states[k])
  {
    if k == 0 {
      var capacity: nat, retx: nat, isn: U32, recv: nat :| states[0] == NewLink(capacity, retx, isn, recv);
      NewLinkInv(capacity, retx, isn, recv);
    } else {
      RunKeepsLink(states, events, k - 1);
      StepKeepsLink(states[k - 1], events[k - 1], states[k]);
    }
  }
}
