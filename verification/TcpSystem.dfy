/** Two connections and the network between them. */
module TcpSystems {
  import opened Types
  import opened WrappingIntegers
  import opened TcpSegments
  import opened RetransmissionTimers
  import opened TcpSenders
  import opened TcpSenderInvariant
  import opened TcpReceivers
  import opened TcpLinks
  import opened TcpConnections

  /** Both directions between an endpoint (`s`, `r`) and its peer (`ps`, `pr`): `sent`
      is what the endpoint has produced so far and `got` what the peer has. */
  ghost predicate Both(s: Sender, r: Receiver, ps: Sender, pr: Receiver, sent: set<Segment>, got: set<Segment>) {
    LinkInv(Link(s, pr, sent, got)) && LinkInv(Link(ps, r, got, sent))
  }

  function Elements(segs: seq<Segment>): set<Segment> {
    set seg | seg in segs
  }

  // ---- sending

  lemma {:induction false} SendOneBoth(s: Sender, r: Receiver, ps: Sender, pr: Receiver,
                                       sent: set<Segment>, got: set<Segment>, seg: Segment)
    requires Both(s, r, ps, pr, sent, got) && s.out != [] && SameContent(s.out[0], seg)
    requires Reports(seg, r)
    ensures Both(s.(out := s.out[1..]), r, ps, pr, sent + {seg}, got)
  {
    SendKeepsLink(Link(s, pr, sent, got), seg);
    SendAckKeepsLink(Link(ps, r, got, sent), seg);
  }

  lemma {:induction false} StampOk(seg: Segment, r: Receiver)
    requires !seg.header.ack && 0 <= r.WindowSize()
    ensures SameContent(seg, Stamp(seg, r)) && Reports(Stamp(seg, r), r)
    ensures SameContent(seg, StampRst(seg, r)) && Reports(StampRst(seg, r), r)
  {
  }

  lemma {:induction false} SendAllBoth(s: Sender, r: Receiver, ps: Sender, pr: Receiver,
                                       sent: set<Segment>, got: set<Segment>)
    requires Both(s, r, ps, pr, sent, got)
    ensures Both(s.(out := []), r, ps, pr, sent + Elements(StampAll(s.out, r)), got)
    decreases |s.out|
  {
    if s.out == [] {
      assert s.(out := []) == s;
      assert sent + Elements(StampAll(s.out, r)) == sent;
    } else {
      var seg := Stamp(s.out[0], r);
      assert s.out[0] in s.out;
      StampOk(s.out[0], r);
      SendOneBoth(s, r, ps, pr, sent, got, seg);
      SendAllBoth(s.(out := s.out[1..]), r, ps, pr, sent + {seg}, got);
      assert sent + Elements(StampAll(s.out, r)) == sent + {seg} + Elements(StampAll(s.out[1..], r));
    }
  }

  // ---- an endpoint and its surroundings

  /** What an endpoint faces: its own segments on the wire, its peer, and all that the
      peer has produced. */
  datatype World = World(net: set<Segment>, peer: Sender, peerReceiver: Receiver, got: set<Segment>)

  ghost predicate Facing(c: Conn, w: World) {
    Both(c.sender, c.receiver, w.peer, w.peerReceiver, w.net + Elements(c.out), w.got)
  }

  /** An active connection has not used up its retransmissions. */
  predicate ConnOk(c: Conn) {
    && c.sender.timer.initial == c.rtTimeout < TWO16
    && (c.active ==> c.sender.timer.consecutive <= MAX_RETX_ATTEMPTS)
  }

  ghost predicate Good(c: Conn, w: World) {
    Facing(c, w) && ConnOk(c)
  }

  /** The receiver later on. */
  predicate ReceiverMoves(r: Receiver, r': Receiver) {
    && (r.syn ==> r'.syn)
    && (r.asm.stream.ended ==> r'.asm.stream.ended)
    && (r.asm.stream.error ==> r'.asm.stream.error)
    && r.asm.stream.written <= r'.asm.stream.written
    && r.RightEdge() <= r'.RightEdge()
  }

  /** The connection later on: both halves have only moved forward. */
  predicate Moves(c: Conn, c': Conn) {
    && Advances(c.sender, c'.sender)
    && ReceiverMoves(c.receiver, c'.receiver)
    && c'.rtTimeout == c.rtTimeout
    && c.out <= c'.out
  }

  lemma {:induction false} MovesTrans(c: Conn, m: Conn, c': Conn)
    requires Moves(c, m) && Moves(m, c')
    ensures Moves(c, c')
  {
    AdvancesTrans(c.sender, m.sender, c'.sender);
  }

  // ---- the timer

  predicate TimerKept(t: Timer, t': Timer) {
    t' == t || t' == t.Start() || t' == t.Close()
  }

  lemma {:induction false} AckTimer(s: Sender, ackno: U32, window: U16)
    requires SenderInv(s)
    ensures TimerKept(s.timer, AckReceived(s, ackno, window).timer)
  {
    var abs := Unwrap(ackno, s.isn, s.acked);
    if s.acked < abs <= s.next {
      AckOnlyKeeps(s, abs, window);
      AckOnlyTimer(s, abs, window);
      FillTimer(AckOnly(s, abs, window));
    }
  }

  // ---- the building blocks of the connection's operations

  /** A step of the sender alone. */
  lemma {:induction false} SenderMoves(c: Conn, w: World, s': Sender)
    requires Good(c, w) && Advances(c.sender, s')
    requires LinkInv(Link(s', w.peerReceiver, w.net + Elements(c.out), w.got))
    requires TimerKept(c.sender.timer, s'.timer)
    ensures Good(c.(sender := s'), w) && Moves(c, c.(sender := s'))
  {
  }

  lemma {:induction false} FillMoves(c: Conn, w: World)
    requires Good(c, w)
    ensures Good(c.(sender := FillWindow(c.sender)), w) && Moves(c, c.(sender := FillWindow(c.sender)))
  {
    FillWindowIsSafeAndMaximal(c.sender);
    FillKeepsLink(Link(c.sender, w.peerReceiver, w.net + Elements(c.out), w.got));
    FillTimer(c.sender);
    SenderMoves(c, w, FillWindow(c.sender));
  }

  lemma {:induction false} EmptyMoves(c: Conn, w: World)
    requires Good(c, w)
    ensures Good(c.(sender := SendEmpty(c.sender)), w) && Moves(c, c.(sender := SendEmpty(c.sender)))
  {
    SendEmptyKeeps(c.sender);
    EmptyKeepsLink(Link(c.sender, w.peerReceiver, w.net + Elements(c.out), w.got));
    SenderMoves(c, w, SendEmpty(c.sender));
  }

  lemma {:induction false} AckMoves(c: Conn, w: World, seg: Segment)
    requires Good(c, w)
    requires TimelyAck(Link(c.sender, w.peerReceiver, w.net + Elements(c.out), w.got), seg)
    ensures Good(c.(sender := AckReceived(c.sender, seg.header.ackno, seg.header.win)), w)
    ensures Moves(c, c.(sender := AckReceived(c.sender, seg.header.ackno, seg.header.win)))
  {
    var s' := AckReceived(c.sender, seg.header.ackno, seg.header.win);
    AckReceivedKeeps(c.sender, seg.header.ackno, seg.header.win);
    AckKeepsLink(Link(c.sender, w.peerReceiver, w.net + Elements(c.out), w.got), seg);
    AckTimer(c.sender, seg.header.ackno, seg.header.win);
    SenderMoves(c, w, s');
  }

  lemma {:induction false} ElementsAppend(a: seq<Segment>, b: seq<Segment>)
    ensures Elements(a + b) == Elements(a) + Elements(b)
  {
  }

  lemma {:induction false} SendMoves(c: Conn, w: World)
    requires Good(c, w)
    ensures Good(SendSegments(c), w) && Moves(c, SendSegments(c))
  {
    var stamped := StampAll(c.sender.out, c.receiver);
    SendAllBoth(c.sender, c.receiver, w.peer, w.peerReceiver, w.net + Elements(c.out), w.got);
    ElementsAppend(c.out, stamped);
    assert w.net + Elements(c.out) + Elements(stamped) == w.net + Elements(c.out + stamped);
  }

  lemma {:induction false} RstMoves(c: Conn, w: World)
    requires Good(c, w)
    ensures Good(SendRst(c), w) && Moves(c, SendRst(c))
  {
    EmptyMoves(c, w);
    var s := SendEmpty(c.sender);
    var seg := StampRst(s.out[0], c.receiver);
    assert s.out[0] in s.out;
    StampOk(s.out[0], c.receiver);
    SendOneBoth(s, c.receiver, w.peer, w.peerReceiver, w.net + Elements(c.out), w.got, seg);
    assert w.net + Elements(c.out) + {seg} == w.net + Elements(c.out + [seg]);
  }

  lemma {:induction false} CloseMoves(c: Conn, w: World)
    requires Facing(c, w) && c.sender.timer.initial == c.rtTimeout < TWO16
    ensures Good(PassiveClose(c), w) && Moves(c, PassiveClose(c))
  {
    SetErrorKeeps(c.sender);
    SendErrorKeepsLink(Link(c.sender, w.peerReceiver, w.net + Elements(c.out), w.got));
    ReceiveErrorKeepsLink(Link(w.peer, c.receiver, w.got, w.net + Elements(c.out)));
  }

  lemma {:induction false} FillAndSendMoves(c: Conn, w: World)
    requires Good(c, w)
    ensures Good(FillAndSend(c), w) && Moves(c, FillAndSend(c))
  {
    FillMoves(c, w);
    var c1 := c.(sender := FillWindow(c.sender));
    SendMoves(c1, w);
    MovesTrans(c, c1, FillAndSend(c));
  }

  lemma {:induction false} RespondMoves(c: Conn, w: World)
    requires Good(c, w)
    ensures Good(Respond(c), w) && Moves(c, Respond(c))
  {
    FillMoves(c, w);
    var c1 := c.(sender := FillWindow(c.sender));
    if c1.sender.out != [] {
      SendMoves(c1, w);
      MovesTrans(c, c1, Respond(c));
    } else {
      EmptyMoves(c1, w);
      var c2 := c1.(sender := SendEmpty(c1.sender));
      SendMoves(c2, w);
      MovesTrans(c, c1, c2);
      MovesTrans(c, c2, Respond(c));
    }
  }

  lemma {:induction false} ReceiverMovesGood(c: Conn, w: World, r': Receiver, sinceLast: nat)
    requires Good(c, w) && ReceiverMoves(c.receiver, r')
    requires LinkInv(Link(w.peer, r', w.got, w.net + Elements(c.out)))
    ensures Good(c.(receiver := r', sinceLast := sinceLast), w)
    ensures Moves(c, c.(receiver := r', sinceLast := sinceLast))
  {
  }

  lemma {:induction false} DeliverMoves(c: Conn, w: World, seg: Segment, r': Receiver)
    requires Good(c, w)
    requires !Discards(c.receiver, seg) ==> TimelyData(Link(w.peer, c.receiver, w.got, w.net + Elements(c.out)), seg)
    requires Receivable(c.receiver, seg) && Received(c.receiver, seg, r')
    ensures Good(c.(receiver := r', sinceLast := 0), w) && Moves(c, c.(receiver := r', sinceLast := 0))
  {
    DeliverKeepsLink(Link(w.peer, c.receiver, w.got, w.net + Elements(c.out)), seg, r');
    ReceiverMovesGood(c, w, r', 0);
  }

  lemma {:induction false} TestEndMoves(c: Conn, w: World)
    requires Good(c, w)
    ensures Good(TestEnd(c), w) && Moves(c, TestEnd(c))
  {
  }
}
