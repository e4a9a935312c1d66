/** What the sender, the receiver and the network between them achieve, over every run. */
module TcpDelivery {
  import opened Types
  import opened WrappingIntegers
  import opened ByteStreams
  import opened TcpSegments
  import opened TcpSenders
  import opened TcpSenderInvariant
  import opened TcpReceivers
  import opened TcpLinks

  // ---- end-to-end safety

  /** The bytes of `from` arrive at `to` in order and unchanged, and the end is seen only
      after all of them, when the writer has finished. */
  predicate Delivers(from: Sender, to: Receiver) {
    && to.asm.stream.written <= from.stream.written
    && (to.asm.stream.ended ==> from.stream.ended && to.asm.stream.written == from.stream.written)
  }

  lemma {:induction false} LinkIsSafe(l: Link)
    requires LinkInv(l)
    ensures Delivers(l.s, l.r) && l.r.AbsAck() <= l.s.next
  {
    NextBelow(l.s, l.r);
    forall i: nat | i < l.r.asm.Next()
      ensures l.r.asm.stream.written[i] == l.s.stream.written[i]
    {
      assert l.r.asm.Known(i);
    }
  }

  /** Every byte the application at the far end has read, or can read, is the byte
      written at this end, in order. */
  lemma {:induction false} EndToEndSafety(states: seq<Link>, events: seq<Event>, k: nat)
    requires Run(states, events) && k < |states|
    ensures Delivers(states[k].s, states[k].r)
  {
    RunKeepsLink(states, events, k);
    LinkIsSafe(states[k]);
  }

  // ---- nothing is forgotten

  /** Some tracked segment, in its true place, covers the number `n`. */
  ghost predicate Covered(track: seq<Segment>, isn: U32, st: Stream, n: nat) {
    exists seg, a: nat :: seg in track && PlacedAt(seg, isn, st, a) && a <= n < a + seg.Length()
  }

  lemma {:induction false} TilesCover(segs: seq<Segment>, isn: U32, st: Stream, lo: int, hi: int, n: nat)
    requires Tiles(segs, isn, st, lo, hi) && lo <= n < hi
    ensures Covered(segs, isn, st, n)
    decreases |segs|
  {
    if n < lo + segs[0].Length() {
      assert segs[0] in segs;
    } else {
      TilesCover(segs[1..], isn, st, lo + segs[0].Length(), hi, n);
      var seg, a: nat :| seg in segs[1..] && PlacedAt(seg, isn, st, a) && a <= n < a + seg.Length();
      assert seg in segs;
    }
  }

  /** In every reachable state the sender has acknowledged no more than the receiver
      has reached, and whatever was given a number and has not been assembled is
      still kept for retransmission. */
  lemma {:induction false} NothingForgotten(states: seq<Link>, events: seq<Event>, k: nat)
    requires Run(states, events) && k < |states|
    ensures states[k].s.acked <= states[k].r.AbsAck() <= states[k].s.next
    ensures forall n: nat :: states[k].r.AbsAck() <= n < states[k].s.next ==>
      Covered(states[k].s.track, states[k].s.isn, states[k].s.stream, n)
  {
    var l := states[k];
    RunKeepsLink(states, events, k);
    LinkIsSafe(l);
    forall n: nat | l.r.AbsAck() <= n < l.s.next
      ensures Covered(l.s.track, l.s.isn, l.s.stream, n)
    {
      TilesCover(l.s.track, l.s.isn, l.s.stream, l.s.next - l.s.inFlight, l.s.next, n);
    }
  }

  /** Once the sender sees its FIN acknowledged, the receiver has the whole stream. */
  lemma {:induction false} AckedMeansDelivered(l: Link)
    requires LinkInv(l) && l.s.acked == |l.s.stream.written| + 2
    ensures l.r.asm.stream.written == l.s.stream.written && l.r.asm.stream.ended
    ensures l.r.asm.buffered == map[]
  {
    LinkIsSafe(l);
    forall i | i in l.r.asm.buffered
      ensures false
    {
      assert l.r.asm.Known(i);
    }
  }

  // ---- the layout of sequence numbers

  datatype Symbol = Syn | Byte(b: byte) | Fin

  /** The symbol a segment carries at offset `j`. */
  function SymbolAt(seg: Segment, j: nat): Symbol
    requires j < seg.Length()
  {
    var k := if seg.header.syn then j - 1 else j;
    if k < 0 then Syn else if k < |seg.payload| then Byte(seg.payload[k]) else Fin
  }

  /** The symbol that belongs at absolute number `n`. */
  function StreamSymbol(st: Stream, n: nat): Symbol
    requires n <= |st.written| + 1
  {
    if n == 0 then Syn else if n <= |st.written| then Byte(st.written[n - 1]) else Fin
  }

  /** A segment that starts at number `a` carries at offset `j` the symbol that belongs
      there, and a FIN there is the true end. */
  predicate Carries(seg: Segment, st: Stream, a: nat, j: nat)
    requires j < seg.Length()
  {
    && a + j <= |st.written| + 1
    && (a + j == |st.written| + 1 ==> st.ended)
    && SymbolAt(seg, j) == StreamSymbol(st, a + j)
  }

  predicate CarriesAll(seg: Segment, st: Stream, a: nat) {
    forall j: nat :: j < seg.Length() ==> Carries(seg, st, a, j)
  }

  lemma {:induction false} PlacedCarries(seg: Segment, isn: U32, st: Stream, a: nat)
    requires PlacedAt(seg, isn, st, a)
    ensures CarriesAll(seg, st, a)
  {
  }

  /** Queued for the network or on it. */
  predicate Emitted(l: Link, seg: Segment) {
    seg in l.data || seg in l.s.out
  }

  lemma {:induction false} EmittedIsGenuine(l: Link, seg: Segment)
    requires LinkInv(l) && Emitted(l, seg)
    ensures Genuine(seg, l.s.isn, l.s.stream, l.s.next)
  {
  }

  /** Over any run, everything put on the network or queued for it lies somewhere below
      the next number and carries, at each number, the symbol that belongs there: the SYN
      at 0, byte k at k + 1, the FIN at the number after the last byte of an ended stream,
      and nothing beyond that. */
  lemma {:induction false} LayoutOverRun(states: seq<Link>, events: seq<Event>, k: nat, seg: Segment)
    requires Run(states, events) && k < |states| && Emitted(states[k], seg)
    ensures exists a: nat ::
      && seg.header.seqno == Wrap(a, states[k].s.isn)
      && a + seg.Length() <= states[k].s.next
      && CarriesAll(seg, states[k].s.stream, a)
  {
    var l := states[k];
    RunKeepsLink(states, events, k);
    EmittedIsGenuine(l, seg);
    var a: nat :| PlacedAt(seg, l.s.isn, l.s.stream, a) && a + seg.Length() <= l.s.next;
    PlacedCarries(seg, l.s.isn, l.s.stream, a);
  }

  /** A timeout sends again a segment that was queued or sent before. */
  lemma {:induction false} RetransmissionRepeats(states: seq<Link>, events: seq<Event>, k: nat)
    requires Run(states, events) && k < |events| && events[k].Tick?
    ensures states[k + 1].s.out == states[k].s.out
      || exists seg :: states[k + 1].s.out == states[k].s.out + [seg]
                       && SentOrQueued(seg, states[k].s.out, states[k].data)
  {
    var l := states[k];
    RunKeepsLink(states, events, k);
    assert Step(l, events[k], states[k + 1]);
    TickKeeps(l.s, events[k].ms);
    if l.s.track != [] {
      assert SentOrQueued(l.s.track[0], l.s.out, l.data);
    }
  }

  // ---- progress is never taken back

  lemma {:induction false} ReceivedAdvances(r: Receiver, seg: Segment, r': Receiver)
    requires Receivable(r, seg) && Received(r, seg, r')
    ensures r.AbsAck() <= r'.AbsAck()
  {
    if !Discards(r, seg) {
      assert r.asm.stream.written <= r'.asm.stream.written;
    }
  }

  lemma {:induction false} StepAdvances(l: Link, e: Event, l': Link)
    requires LinkInv(l) && Step(l, e, l')
    ensures Advances(l.s, l'.s) && l.r.AbsAck() <= l'.r.AbsAck()
    ensures l.data <= l'.data && l.acks <= l'.acks
  {
    match e
    case Write(data) => WriteKeeps(l.s, data);
    case EndInput => EndInputKeeps(l.s);
    case Fill => FillWindowIsSafeAndMaximal(l.s);
    case Tick(ms) => TickKeeps(l.s, ms);
    case Empty => SendEmptyKeeps(l.s);
    case SendData(sent) =>
    case DeliverData(seg) =>
      TimelyIsReceivable(l, seg);
      ReceivedAdvances(l.r, seg, l'.r);
    case SendAck(seg) =>
    case DeliverAck(seg) => AckReceivedKeeps(l.s, seg.header.ackno, seg.header.win);
    case Read(len) =>
    case SendError => SetErrorKeeps(l.s);
    case ReceiveError =>
  }

  lemma {:induction false} RunAdvances(states: seq<Link>, events: seq<Event>, i: nat, j: nat)
    requires Run(states, events) && i <= j < |states|
    ensures Advances(states[i].s, states[j].s) && states[i].r.AbsAck() <= states[j].r.AbsAck()
  {
    if i < j {
      RunAdvances(states, events, i, j - 1);
      RunKeepsLink(states, events, j - 1);
      StepAdvances(states[j - 1], events[j - 1], states[j]);
      AdvancesTrans(states[i].s, states[j - 1].s, states[j].s);
    }
  }

  // ---- the FIN

  predicate FinSent(s: Sender) {
    s.stream.ended && s.next == |s.stream.written| + 2
  }

  lemma {:induction false} FinEmitted(l: Link, seg: Segment)
    requires LinkInv(l) && Emitted(l, seg) && seg.header.fin
    ensures FinSent(l.s)
    ensures seg.Length() <= l.s.next && seg.header.seqno == Wrap(l.s.next - seg.Length(), l.s.isn)
  {
    EmittedIsGenuine(l, seg);
    var a: nat :| PlacedAt(seg, l.s.isn, l.s.stream, a) && a + seg.Length() <= l.s.next;
  }

  /** Once a segment with FIN exists, the stream has ended, the FIN has the number after
      its last byte, and from then on no number is given out and the stream is fixed. */
  lemma {:induction false} FinIsLast(states: seq<Link>, events: seq<Event>, i: nat, j: nat, seg: Segment)
    requires Run(states, events) && i <= j < |states| && Emitted(states[i], seg) && seg.header.fin
    ensures FinSent(states[i].s) && FinSent(states[j].s)
    ensures states[j].s.next == states[i].s.next && states[j].s.stream.written == states[i].s.stream.written
    ensures seg.Length() <= |states[j].s.stream.written| + 2
    ensures seg.header.seqno == Wrap(|states[j].s.stream.written| + 2 - seg.Length(), states[j].s.isn)
  {
    RunAdvances(states, events, i, j);
    RunKeepsLink(states, events, i);
    RunKeepsLink(states, events, j);
    FinEmitted(states[i], seg);
  }

  /** After the FIN there is nothing left to send. */
  lemma {:induction false} FillNothing(s: Sender)
    requires SenderInv(s) && FinSent(s)
    ensures FillWindow(s) == s
  {
    FillWindowIsSafeAndMaximal(s);
    if !SynSent(s) {
      FillLoopGrows(s, EffectiveWindow(s));
    }
  }

  lemma {:induction false} AckQueuesNothing(s: Sender, ackno: U32, window: U16)
    requires SenderInv(s) && FinSent(s)
    ensures AckReceived(s, ackno, window).out == s.out
  {
    var abs := Unwrap(ackno, s.isn, s.acked);
    if s.acked < abs <= s.next {
      AckOnlyKeeps(s, abs, window);
      FillNothing(AckOnly(s, abs, window));
    }
  }

  /** The FIN is made once: after it, whatever a step queues is empty or a copy of a
      segment that was queued or sent before. */
  lemma {:induction false} FinIsMadeOnce(states: seq<Link>, events: seq<Event>, i: nat, k: nat, seg: Segment, q: Segment)
    requires Run(states, events) && i <= k < |events| && Emitted(states[i], seg) && seg.header.fin
    requires q in states[k + 1].s.out && q.Length() > 0
    ensures SentOrQueued(q, states[k].s.out, states[k].data)
  {
    var l := states[k];
    RunKeepsLink(states, events, k);
    FinIsLast(states, events, i, k, seg);
    assert Step(l, events[k], states[k + 1]);
    match events[k]
    case Fill => FillNothing(l.s);
    case Tick(ms) => RetransmissionRepeats(states, events, k);
    case DeliverAck(ack) => AckQueuesNothing(l.s, ack.header.ackno, ack.header.win);
    case _ =>
  }
}
