/** The sending half of TCP as a value: what each operation does to the sender. */
module TcpSenders {
  import opened Types
  import opened WrappingIntegers
  import opened ByteStreams
  import opened TcpSegments
  import opened RetransmissionTimers

  const MAX_PAYLOAD_SIZE: nat := 1000

  /** `out` waits to be sent; `track` was sent and is not yet acknowledged as a whole.
      `next` and `acked` are absolute sequence numbers. */
  datatype Sender = Sender(
    isn: U32, out: seq<Segment>, track: seq<Segment>, timer: Timer, stream: Stream,
    next: nat, acked: nat, window: nat, inFlight: int)
  {
    /** What the operations take for granted. */
    predicate Ready() {
      stream.Valid() && acked < CHECKPOINT_BOUND && next < CHECKPOINT_BOUND
    }
  }

  function NewSender(capacity: nat, retxTimeout: nat, isn: U32): Sender {
    Sender(isn, [], [], NewTimer(retxTimeout), NewStream(capacity), 0, 0, 1, 0)
  }

  /** Gives a non-empty segment the next sequence number, sends it and keeps a copy. */
  function Emit(s: Sender, syn: bool, payload: seq<byte>, fin: bool): Sender {
    var segment := MakeSegment(Wrap(s.next, s.isn), syn, payload, fin);
    s.(next := s.next + segment.Length(),
       inFlight := s.inFlight + segment.Length(),
       out := s.out + [segment],
       track := s.track + [segment],
       timer := if s.timer.running then s.timer else s.timer.Start())
  }

  /** Reads up to `size` bytes from the stream into one segment. */
  function SendData(s: Sender, size: nat, fin: bool): Sender
    requires s.stream.Valid()
  {
    Emit(s.(stream := s.stream.Pop(size)), false, s.stream.Peek(size), fin)
  }

  /** A closed window is treated as one byte wide. */
  function EffectiveWindow(s: Sender): nat {
    if s.window == 0 then 1 else s.window
  }

  datatype Turn = More(s: Sender) | Done(s: Sender)

  /** One turn of the loop: another segment, or the loop ends. */
  function FillTurn(s: Sender, window: nat): (t: Turn)
    requires s.stream.Valid()
    ensures t.s.stream.Valid() && t.s.acked == s.acked
    ensures t.More? ==> s.next - s.acked < window && s.next < t.s.next
  {
    var remain := window - (s.next - s.acked);
    if remain <= 0 then Done(s)
    else if !s.stream.Eof() then
      var size := Min(remain, MAX_PAYLOAD_SIZE);
      var read := |s.stream.Peek(size)|;
      var fin := s.stream.Pop(size).Eof() && remain - read > 0;
      if read == 0 && !fin then Done(s) else More(SendData(s, size, fin))
    else if s.next < |s.stream.written| + 2 then Done(SendData(s, 0, true))
    else Done(s)
  }

  function FillLoop(s: Sender, window: nat): (r: Sender)
    requires s.stream.Valid()
    ensures r.stream.Valid()
    decreases Max(0, window - (s.next - s.acked))
  {
    match FillTurn(s, window)
    case More(s') => FillLoop(s', window)
    case Done(s') => s'
  }

  /** The SYN is out and nothing has been acknowledged. */
  predicate SynSent(s: Sender) {
    s.next != 0 && s.next == s.inFlight
  }

  function FillWindow(s: Sender): (r: Sender)
    requires s.stream.Valid()
    ensures r.stream.Valid()
  {
    if s.next == 0 then FillLoop(Emit(s, true, [], false), EffectiveWindow(s))
    else if SynSent(s) then s
    else FillLoop(s, EffectiveWindow(s))
  }

  /** Drops the segments that `acked` covers to their end. */
  function PopAcked(s: Sender): Sender
    requires s.acked < CHECKPOINT_BOUND
    decreases |s.track|
  {
    if s.track == [] then s
    else
      var front := s.track[0];
      if s.acked < Unwrap(front.header.seqno, s.isn, s.acked) + front.Length() then s
      else PopAcked(s.(track := s.track[1..], inFlight := s.inFlight - front.Length()))
  }

  function RestartTimer(s: Sender): Sender {
    s.(timer := if s.track != [] then s.timer.Start() else s.timer.Close())
  }

  lemma {:induction false} PopKeepsStream(s: Sender)
    requires s.acked < CHECKPOINT_BOUND
    ensures PopAcked(s) == s.(track := PopAcked(s).track, inFlight := PopAcked(s).inFlight)
    decreases |s.track|
  {
    if s.track != [] {
      PopKeepsStream(s.(track := s.track[1..], inFlight := s.inFlight - s.track[0].Length()));
    }
  }

  function AckReceived(s: Sender, ackno: U32, window: U16): (r: Sender)
    requires s.Ready()
    ensures r.stream.Valid()
  {
    var abs := Unwrap(ackno, s.isn, s.acked);
    if abs > s.next then s
    else if abs <= s.acked then s.(window := window)
    else
      PopKeepsStream(s.(window := window, acked := abs));
      FillWindow(RestartTimer(PopAcked(s.(window := window, acked := abs))))
  }

  function Tick(s: Sender, ms: nat): Sender {
    if !s.timer.running then s
    else if !s.timer.Expires(ms) then s.(timer := s.timer.(elapsed := s.timer.elapsed + ms))
    else if s.track == [] then s.(timer := s.timer.Close())
    else s.(out := s.out + [s.track[0]], timer := s.timer.Reset(s.window))
  }

  function SendEmpty(s: Sender): Sender {
    s.(out := s.out + [MakeSegment(Wrap(s.next, s.isn), false, [], false)])
  }
}
