/** A TCP endpoint as a value: what each operation of a connection does. */
module TcpConnections {
  import opened Types
  import opened TcpSegments
  import opened TcpSenders
  import opened TcpReceivers

  const MAX_RETX_ATTEMPTS: nat := 8

  datatype Conn = Conn(
    rtTimeout: nat, sender: Sender, receiver: Receiver, out: seq<Segment>,
    linger: bool, sinceLast: nat, active: bool)

  function NewConn(rtTimeout: nat, sendCapacity: nat, recvCapacity: nat, isn: U32): Conn {
    Conn(rtTimeout, NewSender(sendCapacity, rtTimeout, isn), NewReceiver(recvCapacity), [], true, 0, true)
  }

  /** The acknowledgment of our receiver, on one of our sender's segments. */
  function Acknowledge(seg: Segment, r: Receiver): Segment {
    if r.Ackno().None? then seg
    else seg.(header := seg.header.(ackno := r.Ackno().value, ack := true))
  }

  /** Ordinary segments advertise the window, at most 65535. */
  function Stamp(seg: Segment, r: Receiver): Segment {
    var win: U16 := Max(0, Min(r.WindowSize(), 65535));
    var acked := Acknowledge(seg, r);
    acked.(header := acked.header.(win := win))
  }

  /** A reset keeps only the low 16 bits of the window. */
  function StampRst(seg: Segment, r: Receiver): Segment {
    var win: U16 := r.WindowSize() % TWO16;
    var acked := Acknowledge(seg, r);
    acked.(header := acked.header.(win := win, rst := true))
  }

  function StampAll(segs: seq<Segment>, r: Receiver): seq<Segment> {
    if segs == [] then [] else [Stamp(segs[0], r)] + StampAll(segs[1..], r)
  }

  function SendSegments(c: Conn): Conn {
    c.(sender := c.sender.(out := []), out := c.out + StampAll(c.sender.out, c.receiver))
  }

  /** The front of the sender's queue goes out as a reset, whatever it is. */
  function SendRst(c: Conn): Conn {
    var queue := SendEmpty(c.sender).out;
    c.(sender := c.sender.(out := queue[1..]), out := c.out + [StampRst(queue[0], c.receiver)])
  }

  function FillAndSend(c: Conn): Conn
    requires c.sender.stream.Valid()
  {
    SendSegments(c.(sender := FillWindow(c.sender)))
  }

  /** At least one segment goes out. */
  function Respond(c: Conn): Conn
    requires c.sender.stream.Valid()
  {
    var s := FillWindow(c.sender);
    SendSegments(c.(sender := if s.out != [] then s else SendEmpty(s)))
  }

  function PassiveClose(c: Conn): Conn {
    c.(sender := c.sender.(stream := c.sender.stream.SetError()),
       receiver := c.receiver.(asm := c.receiver.asm.(stream := c.receiver.asm.stream.SetError())),
       active := false)
  }

  predicate InboundEnded(c: Conn) {
    |c.receiver.asm.buffered| == 0 && c.receiver.asm.stream.ended
  }

  predicate OutboundEnded(c: Conn) {
    c.sender.stream.Eof() && c.sender.next == |c.sender.stream.written| + 2 && c.sender.inFlight == 0
  }

  function TestEnd(c: Conn): Conn {
    if InboundEnded(c) && !c.sender.stream.Eof() then c.(linger := false)
    else if InboundEnded(c) && OutboundEnded(c) && (!c.linger || c.sinceLast >= 10 * c.rtTimeout)
    then c.(active := false)
    else c
  }

  /** A segment that is not a reset, after our receiver has become `r`. */
  function AfterAck(c: Conn, seg: Segment, r: Receiver): Conn
    requires c.sender.Ready()
  {
    var c1 := c.(sinceLast := 0, receiver := r);
    if seg.header.ack
    then SendSegments(c1.(sender := AckReceived(c1.sender, seg.header.ackno, seg.header.win)))
    else c1
  }

  /** The same after the response and before the final test. */
  function BeforeTest(c: Conn, seg: Segment, r: Receiver): Conn
    requires c.sender.Ready()
  {
    var c1 := AfterAck(c, seg, r);
    if seg.Length() > 0 then Respond(c1) else c1
  }

  predicate CanReceive(c: Conn, seg: Segment) {
    && c.sender.Ready()
    && (seg.header.rst || Receivable(c.receiver, seg))
  }

  ghost predicate SegmentReceived(c: Conn, seg: Segment, c': Conn)
    requires CanReceive(c, seg)
  {
    if seg.header.rst then c' == PassiveClose(c.(sinceLast := 0))
    else
      && Received(c.receiver, seg, c'.receiver)
      && c' == TestEnd(BeforeTest(c, seg, c'.receiver))
  }

  function Write(c: Conn, data: seq<byte>): Conn
    requires c.sender.stream.Valid()
  {
    if data == [] then c
    else FillAndSend(c.(sender := c.sender.(stream := c.sender.stream.Write(data))))
  }

  /** The connection once its sender has been told of the time. */
  function Ticked(c: Conn, ms: nat): Conn {
    c.(sinceLast := c.sinceLast + ms, sender := TcpSenders.Tick(c.sender, ms))
  }

  function Abort(c: Conn): Conn {
    SendRst(PassiveClose(c))
  }

  function SendAndTest(c: Conn): Conn {
    TestEnd(SendSegments(c))
  }

  predicate GivesUp(c: Conn) {
    c.sender.timer.consecutive > MAX_RETX_ATTEMPTS
  }

  function Tick(c: Conn, ms: nat): Conn {
    var c1 := Ticked(c, ms);
    if GivesUp(c1) then Abort(c1) else SendAndTest(c1)
  }

  function EndInputStream(c: Conn): Conn
    requires c.sender.stream.Valid()
  {
    FillAndSend(c.(sender := c.sender.(stream := c.sender.stream.EndInput())))
  }

  function Connect(c: Conn): Conn
    requires c.sender.stream.Valid()
  {
    if c.sender.next != 0 then c else FillAndSend(c).(active := true)
  }

  /** Destruction of a connection that is still active. */
  function Destroy(c: Conn): Conn {
    if c.active then Abort(c) else c
  }

  /** The application reads from the inbound stream. */
  function ReadInbound(c: Conn, len: nat): Conn
    requires c.receiver.asm.stream.Valid()
  {
    c.(receiver := c.receiver.(asm := c.receiver.asm.Read(len)))
  }

  // ---- the summaries of section 3.2 of RFC 793 that the code derives

  datatype SenderState = CLOSED | SYN_SENT | SYN_ACKED | FIN_SENT | FIN_ACKED | SENDER_ERROR

  datatype ReceiverState = LISTEN | SYN_RECV | FIN_RECV | RECEIVER_ERROR

  function SenderSummary(s: Sender): SenderState {
    if s.stream.error then SENDER_ERROR
    else if s.next == 0 then CLOSED
    else if s.next == s.inFlight then SYN_SENT
    else if !s.stream.Eof() then SYN_ACKED
    else if s.next < |s.stream.written| + 2 then SYN_ACKED
    else if s.inFlight != 0 then FIN_SENT
    else FIN_ACKED
  }

  function ReceiverSummary(r: Receiver): ReceiverState {
    if r.asm.stream.error then RECEIVER_ERROR
    else if r.Ackno().None? then LISTEN
    else if r.asm.stream.ended then FIN_RECV
    else SYN_RECV
  }

  function SenderRank(x: SenderState): nat {
    match x
    case CLOSED => 0
    case SYN_SENT => 1
    case SYN_ACKED => 2
    case FIN_SENT => 3
    case FIN_ACKED => 4
    case SENDER_ERROR => 5
  }

  function ReceiverRank(x: ReceiverState): nat {
    match x
    case LISTEN => 0
    case SYN_RECV => 1
    case FIN_RECV => 2
    case RECEIVER_ERROR => 3
  }
}
