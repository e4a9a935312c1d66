/** What every operation of the sender keeps. */
module TcpSenderInvariant {
  import opened Types
  import opened WrappingIntegers
  import opened ByteStreams
  import opened TcpSegments
  import opened RetransmissionTimers
  import opened TcpSenders

  function StreamIndex(seg: Segment, a: nat): int {
    a - 1 + if seg.header.syn then 1 else 0
  }

  ghost predicate CarriesFrom(payload: seq<byte>, written: seq<byte>, k: int) {
    0 <= k && k + |payload| <= |written| && payload == written[k..k + |payload|]
  }

  /** The segment carries exactly the sequence numbers [a, a + length) of the stream:
      the SYN is number 0, byte k is number k + 1, and the FIN is the number after
      the last byte. */
  ghost predicate PlacedAt(seg: Segment, isn: U32, st: Stream, a: nat) {
    && seg.header.seqno == Wrap(a, isn)
    && (seg.header.syn ==> a == 0)
    && (a == 0 && seg.Length() > 0 ==> seg.header.syn)
    && (seg.payload != [] ==> CarriesFrom(seg.payload, st.written, StreamIndex(seg, a)))
    && (seg.header.fin ==> st.ended && a + seg.Length() == |st.written| + 2)
    && (!seg.header.fin ==> a + seg.Length() <= |st.written| + 2)
  }

  /** Sent below the number `hi`, somewhere. */
  ghost predicate Genuine(seg: Segment, isn: U32, st: Stream, hi: nat) {
    exists a: nat :: PlacedAt(seg, isn, st, a) && a + seg.Length() <= hi
  }

  /** Without acknowledgment or reset, which are for the connection to add. */
  predicate Bare(seg: Segment) {
    !seg.header.ack && !seg.header.rst
  }

  /** Segments on their way out of the sender. */
  ghost predicate AllQueued(segs: seq<Segment>, isn: U32, st: Stream, hi: nat) {
    forall seg :: seg in segs ==> Bare(seg) && Genuine(seg, isn, st, hi)
  }

  /** The segments follow each other without gap or overlap from `lo` to `hi`. */
  ghost predicate Tiles(segs: seq<Segment>, isn: U32, st: Stream, lo: int, hi: int) {
    if segs == [] then lo == hi
    else
      && 0 <= lo
      && PlacedAt(segs[0], isn, st, lo)
      && 1 <= segs[0].Length() <= MAX_PAYLOAD_SIZE + 1
      && Bare(segs[0])
      && (segs[0].header.syn ==> segs[0].Length() == 1)
      && Tiles(segs[1..], isn, st, lo + segs[0].Length(), hi)
  }

  /** Everything read from the stream has been given its number, and the FIN only
      after the last byte. */
  predicate Layout(s: Sender) {
    if s.next == 0 then s.stream.read == 0
    else s.next == s.stream.read + 1 || (s.next == s.stream.read + 2 && s.stream.Eof())
  }

  /** Only the front segment may be acknowledged in part. */
  ghost predicate InFlight(s: Sender) {
    && Tiles(s.track, s.isn, s.stream, s.next - s.inFlight, s.next)
    && (s.track == [] <==> s.acked == s.next)
    && (s.track != [] ==> s.next - s.inFlight <= s.acked < s.next - s.inFlight + s.track[0].Length())
  }

  /** The timer runs exactly while something is in flight. */
  predicate TimerOk(s: Sender) {
    && (s.timer.running <==> s.track != [])
    && (!s.timer.running ==> s.timer.consecutive == 0)
  }

  predicate Bounded(s: Sender) {
    && s.stream.Valid()
    && |s.stream.written| + 2 < CHECKPOINT_BOUND
    && s.acked <= s.next <= s.acked + 65535
    && s.window < 65536
    && s.next <= |s.stream.written| + 2
  }

  ghost predicate SenderInv(s: Sender) {
    && Bounded(s)
    && Layout(s)
    && InFlight(s)
    && TimerOk(s)
    && AllQueued(s.out, s.isn, s.stream, s.next)
  }

  // ---- tiling

  lemma {:induction false} TilesOrder(segs: seq<Segment>, isn: U32, st: Stream, lo: int, hi: int)
    requires Tiles(segs, isn, st, lo, hi)
    ensures lo <= hi && (segs != [] ==> lo + segs[0].Length() <= hi)
    decreases |segs|
  {
    if segs != [] {
      TilesOrder(segs[1..], isn, st, lo + segs[0].Length(), hi);
    }
  }

  lemma {:induction false} TilesSnoc(segs: seq<Segment>, isn: U32, st: Stream, lo: int, hi: nat, seg: Segment)
    requires Tiles(segs, isn, st, lo, hi)
    requires PlacedAt(seg, isn, st, hi) && 1 <= seg.Length() <= MAX_PAYLOAD_SIZE + 1 && Bare(seg)
    requires seg.header.syn ==> seg.Length() == 1
    ensures Tiles(segs + [seg], isn, st, lo, hi + seg.Length())
    decreases |segs|
  {
    if segs == [] {
      assert (segs + [seg])[1..] == [];
    } else {
      assert (segs + [seg])[1..] == segs[1..] + [seg];
      TilesSnoc(segs[1..], isn, st, lo + segs[0].Length(), hi, seg);
    }
  }

  /** `st'` is `st` later on: bytes may have been added while it was open. */
  predicate Extends(st: Stream, st': Stream) {
    && st.written <= st'.written
    && (st.ended ==> st'.ended && st'.written == st.written)
    && (st.error ==> st'.error)
  }

  lemma {:induction false} PlacedLater(seg: Segment, isn: U32, st: Stream, st': Stream, a: nat)
    requires PlacedAt(seg, isn, st, a) && Extends(st, st')
    ensures PlacedAt(seg, isn, st', a)
  {
  }

  lemma {:induction false} TilesLater(segs: seq<Segment>, isn: U32, st: Stream, st': Stream, lo: int, hi: int)
    requires Tiles(segs, isn, st, lo, hi) && Extends(st, st')
    ensures Tiles(segs, isn, st', lo, hi)
    decreases |segs|
  {
    if segs != [] {
      PlacedLater(segs[0], isn, st, st', lo);
      TilesLater(segs[1..], isn, st, st', lo + segs[0].Length(), hi);
    }
  }

  lemma {:induction false} GenuineLater(seg: Segment, isn: U32, st: Stream, st': Stream, hi: nat, hi': nat)
    requires Genuine(seg, isn, st, hi) && Extends(st, st') && hi <= hi'
    ensures Genuine(seg, isn, st', hi')
  {
    var a: nat :| PlacedAt(seg, isn, st, a) && a + seg.Length() <= hi;
    PlacedLater(seg, isn, st, st', a);
  }

  lemma {:induction false} AllQueuedLater(segs: seq<Segment>, isn: U32, st: Stream, st': Stream, hi: nat, hi': nat)
    requires AllQueued(segs, isn, st, hi) && Extends(st, st') && hi <= hi'
    ensures AllQueued(segs, isn, st', hi')
  {
    forall seg | seg in segs
      ensures Bare(seg) && Genuine(seg, isn, st', hi')
    {
      GenuineLater(seg, isn, st, st', hi, hi');
    }
  }

  // ---- single steps

  /** The sender later on: same stream further along, nothing sent taken back. */
  predicate Advances(s: Sender, s': Sender) {
    && s'.isn == s.isn
    && Extends(s.stream, s'.stream)
    && s.next <= s'.next
    && s.acked <= s'.acked
    && s.next - s.inFlight <= s'.next - s'.inFlight
  }

  lemma {:induction false} AdvancesTrans(s: Sender, m: Sender, s': Sender)
    requires Advances(s, m) && Advances(m, s')
    ensures Advances(s, s')
  {
  }

  lemma {:induction false} NewSenderInv(capacity: nat, retxTimeout: nat, isn: U32)
    ensures SenderInv(NewSender(capacity, retxTimeout, isn))
  {
  }

  lemma {:induction false} EmitKeeps(s: Sender, syn: bool, payload: seq<byte>, fin: bool)
    requires Bounded(s) && InFlight(s) && TimerOk(s) && AllQueued(s.out, s.isn, s.stream, s.next)
    requires PlacedAt(MakeSegment(Wrap(s.next, s.isn), syn, payload, fin), s.isn, s.stream, s.next)
    requires 1 <= Emit(s, syn, payload, fin).next - s.next <= MAX_PAYLOAD_SIZE + 1
    requires Emit(s, syn, payload, fin).next <= s.acked + 65535
    requires syn ==> payload == [] && !fin
    ensures Bounded(Emit(s, syn, payload, fin)) && InFlight(Emit(s, syn, payload, fin))
    ensures TimerOk(Emit(s, syn, payload, fin))
    ensures AllQueued(Emit(s, syn, payload, fin).out, s.isn, s.stream, Emit(s, syn, payload, fin).next)
  {
    var segment := MakeSegment(Wrap(s.next, s.isn), syn, payload, fin);
    var s' := Emit(s, syn, payload, fin);
    TilesOrder(s.track, s.isn, s.stream, s.next - s.inFlight, s.next);
    TilesSnoc(s.track, s.isn, s.stream, s.next - s.inFlight, s.next, segment);
    AllQueuedLater(s.out, s.isn, s.stream, s.stream, s.next, s'.next);
    assert Genuine(segment, s.isn, s.stream, s'.next);
  }

  lemma {:induction false} SynKeeps(s: Sender)
    requires SenderInv(s) && s.next == 0
    ensures SenderInv(Emit(s, true, [], false)) && Advances(s, Emit(s, true, [], false))
  {
    EmitKeeps(s, true, [], false);
  }

  lemma {:induction false} PopKeepsInvariant(s: Sender, size: nat)
    requires SenderInv(s)
    ensures Bounded(s.(stream := s.stream.Pop(size))) && InFlight(s.(stream := s.stream.Pop(size)))
    ensures TimerOk(s.(stream := s.stream.Pop(size)))
    ensures AllQueued(s.out, s.isn, s.stream.Pop(size), s.next)
  {
    TilesLater(s.track, s.isn, s.stream, s.stream.Pop(size), s.next - s.inFlight, s.next);
    AllQueuedLater(s.out, s.isn, s.stream, s.stream.Pop(size), s.next, s.next);
  }

  lemma {:induction false} DataIsPlaced(s: Sender, size: nat, fin: bool)
    requires s.stream.Valid() && s.next == s.stream.read + 1
    requires fin ==> s.stream.Pop(size).Eof()
    requires |s.stream.Peek(size)| + (if fin then 1 else 0) > 0
    ensures PlacedAt(MakeSegment(Wrap(s.next, s.isn), false, s.stream.Peek(size), fin),
                     s.isn, s.stream.Pop(size), s.next)
  {
    var payload := s.stream.Peek(size);
    assert payload == s.stream.written[s.stream.read..s.stream.read + |payload|];
  }

  lemma {:induction false} DataKeeps(s: Sender, size: nat, fin: bool)
    requires SenderInv(s) && s.next == s.stream.read + 1 && size <= MAX_PAYLOAD_SIZE
    requires fin ==> s.stream.Pop(size).Eof()
    requires s.next < SendData(s, size, fin).next <= s.acked + 65535
    ensures SenderInv(SendData(s, size, fin)) && Advances(s, SendData(s, size, fin))
  {
    DataIsPlaced(s, size, fin);
    PopKeepsInvariant(s, size);
    EmitKeeps(s.(stream := s.stream.Pop(size)), false, s.stream.Peek(size), fin);
  }

  // ---- fill_window

  /** Nothing more can be sent: the window is full, or the stream has nothing left
      and its end, if known, was sent too. */
  predicate Filled(s: Sender) {
    || s.next - s.acked >= EffectiveWindow(s)
    || (s.stream.BufferSize() == 0 && (s.stream.ended ==> s.next == |s.stream.written| + 2))
  }

  /** Only the stream position, the queues, the counters and the timer changed. */
  predicate SameOtherwise(s: Sender, s': Sender) {
    && s' == s.(out := s'.out, track := s'.track, timer := s'.timer, stream := s'.stream,
                next := s'.next, inFlight := s'.inFlight)
    && s'.stream == s.stream.(read := s'.stream.read)
  }

  /** `r` is `s` after filling: still a good sender, no further than the window
      allows, and with nothing more to do. */
  ghost predicate FilledUp(s: Sender, window: nat, r: Sender) {
    && SenderInv(r) && Advances(s, r) && SameOtherwise(s, r)
    && r.next <= Max(s.next, s.acked + window)
    && Filled(r)
  }

  /** `m` is `s` after one more segment inside the window. */
  ghost predicate Progressed(s: Sender, window: nat, m: Sender) {
    && SenderInv(m) && Advances(s, m) && SameOtherwise(s, m)
    && s.next < m.next <= s.acked + window
  }

  ghost predicate TurnOk(s: Sender, window: nat, t: Turn) {
    match t
    case More(m) => Progressed(s, window, m)
    case Done(r) => FilledUp(s, window, r)
  }

  lemma {:induction false} SentOnce(s: Sender, window: nat, size: nat, fin: bool)
    requires SenderInv(s) && s.next == s.stream.read + 1 && size <= MAX_PAYLOAD_SIZE
    requires fin ==> s.stream.Pop(size).Eof()
    requires |s.stream.Peek(size)| + (if fin then 1 else 0) > 0
    requires s.next - s.acked + |s.stream.Peek(size)| + (if fin then 1 else 0) <= window <= 65535
    ensures Progressed(s, window, SendData(s, size, fin))
  {
    DataKeeps(s, size, fin);
  }

  lemma {:induction false} FilledUpThrough(s: Sender, window: nat, m: Sender, r: Sender)
    requires Progressed(s, window, m) && FilledUp(m, window, r)
    ensures FilledUp(s, window, r)
  {
  }

  lemma {:induction false} StopsFilled(s: Sender, window: nat)
    requires SenderInv(s) && window == EffectiveWindow(s)
    requires FillTurn(s, window) == Done(s)
    ensures FilledUp(s, window, s)
  {
  }

  lemma {:induction false} SendsFin(s: Sender, window: nat)
    requires SenderInv(s) && window == EffectiveWindow(s)
    requires s.next - s.acked < window && s.stream.Eof() && s.next == s.stream.read + 1
    ensures FilledUp(s, window, SendData(s, 0, true))
  {
    SentOnce(s, window, 0, true);
  }

  lemma {:induction false} SendsData(s: Sender, window: nat)
    requires SenderInv(s) && s.next > 0 && window == EffectiveWindow(s)
    requires s.next - s.acked < window && !s.stream.Eof() && FillTurn(s, window) != Done(s)
    ensures FillTurn(s, window).More? && Progressed(s, window, FillTurn(s, window).s)
  {
    var remain := window - (s.next - s.acked);
    var size := Min(remain, MAX_PAYLOAD_SIZE);
    SentOnce(s, window, size, s.stream.Pop(size).Eof() && remain - |s.stream.Peek(size)| > 0);
  }

  lemma {:induction false} FillTurnKeeps(s: Sender, window: nat)
    requires SenderInv(s) && s.next > 0 && window == EffectiveWindow(s)
    ensures TurnOk(s, window, FillTurn(s, window))
  {
    if FillTurn(s, window) == Done(s) {
      StopsFilled(s, window);
    } else if s.stream.Eof() {
      SendsFin(s, window);
    } else {
      SendsData(s, window);
    }
  }

  lemma {:induction false} FillLoopKeeps(s: Sender, window: nat)
    requires SenderInv(s) && s.next > 0 && window == EffectiveWindow(s)
    ensures FilledUp(s, window, FillLoop(s, window))
    decreases Max(0, window - (s.next - s.acked))
  {
    FillTurnKeeps(s, window);
    var t := FillTurn(s, window);
    if t.More? {
      FillLoopKeeps(t.s, window);
      FilledUpThrough(s, window, t.s, FillLoop(t.s, window));
    }
  }

  /** `fill_window` stays inside the window the sender holds, unless that was already
      overrun, and stops only when there is nothing left to do. */
  lemma {:induction false} FillWindowIsSafeAndMaximal(s: Sender)
    requires SenderInv(s)
    ensures SenderInv(FillWindow(s)) && Advances(s, FillWindow(s))
    ensures SameOtherwise(s, FillWindow(s))
    ensures FillWindow(s).next <= Max(s.next, s.acked + EffectiveWindow(s))
    ensures SynSent(s) || Filled(FillWindow(s))
  {
    if s.next == 0 {
      SynKeeps(s);
      FillLoopKeeps(Emit(s, true, [], false), EffectiveWindow(s));
    } else if !SynSent(s) {
      FillLoopKeeps(s, EffectiveWindow(s));
    }
  }

  // ---- ack_received

  /** Unwrapping the number stored in a tracked segment near the acknowledged one
      gives the place where it starts. */
  lemma {:induction false} TrackedNumber(seg: Segment, isn: U32, st: Stream, a: nat, acked: nat)
    requires PlacedAt(seg, isn, st, a) && acked < CHECKPOINT_BOUND
    requires -70000 <= a - acked <= 70000
    ensures Unwrap(seg.header.seqno, isn, acked) == a
  {
    UnwrapUndoesWrap(a, isn, acked);
  }

  function TotalLength(segs: seq<Segment>): nat {
    if segs == [] then 0 else segs[0].Length() + TotalLength(segs[1..])
  }

  lemma {:induction false} TilesTotal(segs: seq<Segment>, isn: U32, st: Stream, lo: int, hi: int)
    requires Tiles(segs, isn, st, lo, hi)
    ensures hi == lo + TotalLength(segs)
    decreases |segs|
  {
    if segs != [] {
      TilesTotal(segs[1..], isn, st, lo + segs[0].Length(), hi);
    }
  }

  lemma {:induction false} TilesAt(segs: seq<Segment>, isn: U32, st: Stream, lo: int, hi: int, j: nat)
    requires Tiles(segs, isn, st, lo, hi) && j < |segs|
    ensures 0 <= lo + TotalLength(segs[..j]) <= hi - segs[j].Length()
    ensures PlacedAt(segs[j], isn, st, lo + TotalLength(segs[..j]))
    decreases |segs|
  {
    TilesOrder(segs, isn, st, lo, hi);
    if j == 0 {
      assert segs[..0] == [];
    } else {
      TilesAt(segs[1..], isn, st, lo + segs[0].Length(), hi, j - 1);
      assert segs[..j] == [segs[0]] + segs[1..][..j - 1];
    }
  }

  /** What is in flight: `inFlight` is the total length of the tracked segments, they
      follow each other without a gap up to `next`, only the first may be acknowledged
      in part, and the stored 32-bit number of each, unwrapped near the acknowledged one,
      is where it starts. */
  lemma {:induction false} InFlightPicture(s: Sender, j: nat)
    requires SenderInv(s) && j < |s.track|
    ensures s.inFlight == TotalLength(s.track)
    ensures Unwrap(s.track[j].header.seqno, s.isn, s.acked) == s.next - s.inFlight + TotalLength(s.track[..j])
    ensures PlacedAt(s.track[j], s.isn, s.stream, s.next - s.inFlight + TotalLength(s.track[..j]))
    ensures j > 0 ==> s.acked < s.next - s.inFlight + TotalLength(s.track[..j])
    ensures s.acked < s.next
  {
    var lo := s.next - s.inFlight;
    TilesTotal(s.track, s.isn, s.stream, lo, s.next);
    TilesAt(s.track, s.isn, s.stream, lo, s.next, j);
    TrackedNumber(s.track[j], s.isn, s.stream, lo + TotalLength(s.track[..j]), s.acked);
    if j > 0 {
      assert s.track[..j][0] == s.track[0];
    }
  }

  lemma {:induction false} PopAckedKeeps(s: Sender)
    requires s.acked < CHECKPOINT_BOUND && s.acked <= s.next <= s.acked + 65535
    requires Tiles(s.track, s.isn, s.stream, s.next - s.inFlight, s.next)
    requires -70000 <= s.next - s.inFlight - s.acked <= 0
    ensures InFlight(PopAcked(s)) && PopAcked(s).inFlight <= s.inFlight
    decreases |s.track|
  {
    TilesOrder(s.track, s.isn, s.stream, s.next - s.inFlight, s.next);
    if s.track != [] {
      var front := s.track[0];
      TrackedNumber(front, s.isn, s.stream, s.next - s.inFlight, s.acked);
      if s.acked >= s.next - s.inFlight + front.Length() {
        PopAckedKeeps(s.(track := s.track[1..], inFlight := s.inFlight - front.Length()));
      }
    }
  }

  /** An acceptable new acknowledgment, up to the refill. */
  function AckOnly(s: Sender, abs: nat, window: U16): Sender
    requires abs < CHECKPOINT_BOUND
  {
    RestartTimer(PopAcked(s.(window := window, acked := abs)))
  }

  lemma {:induction false} AckOnlyKeeps(s: Sender, abs: nat, window: U16)
    requires SenderInv(s) && s.acked < abs <= s.next
    ensures SenderInv(AckOnly(s, abs, window))
    ensures AckOnly(s, abs, window) == s.(window := window, acked := abs, track := AckOnly(s, abs, window).track,
      inFlight := AckOnly(s, abs, window).inFlight, timer := AckOnly(s, abs, window).timer)
    ensures Advances(s, AckOnly(s, abs, window))
  {
    var s1 := s.(window := window, acked := abs);
    TilesOrder(s.track, s.isn, s.stream, s.next - s.inFlight, s.next);
    PopKeepsStream(s1);
    PopAckedKeeps(s1);
  }

  /** The acknowledged number moves only forward, and only to a number that was sent. */
  lemma {:induction false} AckReceivedKeeps(s: Sender, ackno: U32, window: U16)
    requires SenderInv(s)
    ensures SenderInv(AckReceived(s, ackno, window)) && Advances(s, AckReceived(s, ackno, window))
    ensures AckReceived(s, ackno, window).acked ==
      (var abs := Unwrap(ackno, s.isn, s.acked); if abs <= s.next then Max(s.acked, abs) else s.acked)
    ensures AckReceived(s, ackno, window).stream == s.stream.(read := AckReceived(s, ackno, window).stream.read)
    ensures AckReceived(s, ackno, window).window ==
      if Unwrap(ackno, s.isn, s.acked) <= s.next then window else s.window
  {
    var abs := Unwrap(ackno, s.isn, s.acked);
    if s.acked < abs <= s.next {
      AckOnlyKeeps(s, abs, window);
      FillWindowIsSafeAndMaximal(AckOnly(s, abs, window));
      AdvancesTrans(s, AckOnly(s, abs, window), AckReceived(s, ackno, window));
    } else {
      assert AckReceived(s, ackno, window) == s || AckReceived(s, ackno, window) == s.(window := window);
    }
  }

  lemma {:induction false} AckReceivedBound(s: Sender, ackno: U32, window: U16)
    requires SenderInv(s)
    ensures AckReceived(s, ackno, window).next <=
      Max(s.next, AckReceived(s, ackno, window).acked + EffectiveWindow(AckReceived(s, ackno, window)))
  {
    var abs := Unwrap(ackno, s.isn, s.acked);
    if s.acked < abs <= s.next {
      AckOnlyKeeps(s, abs, window);
      FillWindowIsSafeAndMaximal(AckOnly(s, abs, window));
    }
  }

  lemma {:induction false} AckOnlyTimer(s: Sender, abs: nat, window: U16)
    requires abs < CHECKPOINT_BOUND
    ensures AckOnly(s, abs, window).timer == s.timer.Start() || AckOnly(s, abs, window).timer == s.timer.Close()
  {
    PopKeepsStream(s.(window := window, acked := abs));
  }

  /** The test `next == in flight` says exactly that nothing is acknowledged yet. */
  lemma {:induction false} SynSentMeansUnacked(s: Sender)
    requires SenderInv(s) && s.next > 0
    ensures SynSent(s) <==> s.acked == 0
  {
    TilesOrder(s.track, s.isn, s.stream, s.next - s.inFlight, s.next);
  }

  /** The timer is started exactly if it was not running and something is sent. */
  function StartedIf(t: Timer, sent: bool): Timer {
    if sent && !t.running then t.Start() else t
  }

  lemma {:induction false} FillLoopGrows(s: Sender, window: nat)
    requires s.stream.Valid()
    ensures FillLoop(s, window).next >= s.next
    ensures FillLoop(s, window).next == s.next ==> FillLoop(s, window) == s
    decreases Max(0, window - (s.next - s.acked))
  {
    var t := FillTurn(s, window);
    if t.More? {
      FillLoopGrows(t.s, window);
    }
  }

  lemma {:induction false} FillLoopTimer(s: Sender, window: nat)
    requires s.stream.Valid()
    ensures FillLoop(s, window).timer == StartedIf(s.timer, FillLoop(s, window).next > s.next)
    decreases Max(0, window - (s.next - s.acked))
  {
    var t := FillTurn(s, window);
    if t.More? {
      FillLoopTimer(t.s, window);
      FillLoopGrows(t.s, window);
    }
  }

  lemma {:induction false} FillTimer(s: Sender)
    requires s.stream.Valid()
    ensures FillWindow(s).timer == StartedIf(s.timer, FillWindow(s).next > s.next)
  {
    if s.next == 0 {
      FillLoopTimer(Emit(s, true, [], false), EffectiveWindow(s));
      FillLoopGrows(Emit(s, true, [], false), EffectiveWindow(s));
    } else if !SynSent(s) {
      FillLoopTimer(s, EffectiveWindow(s));
    }
  }

  /** A new acknowledgment ends the back-off (section 5.3 of RFC 6298), and the window is
      filled again. */
  lemma {:induction false} NewAckRestartsTimer(s: Sender, ackno: U32, window: U16)
    requires SenderInv(s) && s.acked < Unwrap(ackno, s.isn, s.acked) <= s.next
    ensures AckReceived(s, ackno, window).timer.consecutive == 0
    ensures AckReceived(s, ackno, window).timer.running ==>
      AckReceived(s, ackno, window).timer == s.timer.Start()
    ensures Filled(AckReceived(s, ackno, window))
  {
    var abs := Unwrap(ackno, s.isn, s.acked);
    var m := AckOnly(s, abs, window);
    AckOnlyKeeps(s, abs, window);
    AckOnlyTimer(s, abs, window);
    SynSentMeansUnacked(m);
    FillWindowIsSafeAndMaximal(m);
    FillTimer(m);
  }

  // ---- tick, empty segments, and the application's side

  lemma {:induction false} FrontIsGenuine(s: Sender)
    requires SenderInv(s) && s.track != []
    ensures Genuine(s.track[0], s.isn, s.stream, s.next)
  {
    TilesOrder(s.track, s.isn, s.stream, s.next - s.inFlight, s.next);
  }

  lemma {:induction false} TickKeeps(s: Sender, ms: nat)
    requires SenderInv(s)
    ensures SenderInv(Tick(s, ms)) && Advances(s, Tick(s, ms))
    ensures Tick(s, ms) == s.(out := Tick(s, ms).out, timer := Tick(s, ms).timer)
    ensures if s.timer.running && s.timer.Expires(ms)
            then s.track != [] && Tick(s, ms).out == s.out + [s.track[0]]
            else Tick(s, ms).out == s.out
  {
    if s.track != [] {
      FrontIsGenuine(s);
    }
  }

  lemma {:induction false} SendEmptyKeeps(s: Sender)
    requires SenderInv(s)
    ensures SenderInv(SendEmpty(s)) && Advances(s, SendEmpty(s))
    ensures SendEmpty(s) == s.(out := SendEmpty(s).out) && |SendEmpty(s).out| == |s.out| + 1 && s.out <= SendEmpty(s).out
    ensures SendEmpty(s).out[|s.out|].Length() == 0 && SendEmpty(s).out[|s.out|].header.seqno == Wrap(s.next, s.isn)
  {
    var segment := MakeSegment(Wrap(s.next, s.isn), false, [], false);
    assert PlacedAt(segment, s.isn, s.stream, s.next);
    assert Genuine(segment, s.isn, s.stream, s.next);
  }

  lemma {:induction false} WriteKeeps(s: Sender, data: seq<byte>)
    requires SenderInv(s) && !s.stream.ended
    requires |s.stream.written| + |data| + 2 < CHECKPOINT_BOUND
    ensures SenderInv(s.(stream := s.stream.Write(data))) && Advances(s, s.(stream := s.stream.Write(data)))
  {
    var st := s.stream.Write(data);
    TilesLater(s.track, s.isn, s.stream, st, s.next - s.inFlight, s.next);
    AllQueuedLater(s.out, s.isn, s.stream, st, s.next, s.next);
  }

  lemma {:induction false} EndInputKeeps(s: Sender)
    requires SenderInv(s)
    ensures SenderInv(s.(stream := s.stream.EndInput())) && Advances(s, s.(stream := s.stream.EndInput()))
  {
    var st := s.stream.EndInput();
    TilesLater(s.track, s.isn, s.stream, st, s.next - s.inFlight, s.next);
    AllQueuedLater(s.out, s.isn, s.stream, st, s.next, s.next);
  }

  lemma {:induction false} SetErrorKeeps(s: Sender)
    requires SenderInv(s)
    ensures SenderInv(s.(stream := s.stream.SetError())) && Advances(s, s.(stream := s.stream.SetError()))
  {
    var st := s.stream.SetError();
    TilesLater(s.track, s.isn, s.stream, st, s.next - s.inFlight, s.next);
    AllQueuedLater(s.out, s.isn, s.stream, st, s.next, s.next);
  }
}
