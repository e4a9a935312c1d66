/** What a run of two endpoints does to their retransmission timers (section 5 of
    RFC 6298): the timeout of the moment, told from the expiries so far. */
module TcpTimerHistory {
  import opened Types
  import opened WrappingIntegers
  import opened TcpSegments
  import opened RetransmissionTimers
  import opened TcpSenders
  import opened TcpSenderInvariant
  import opened TcpReceivers
  import opened TcpLinks
  import opened TcpConnections
  import opened TcpSystems
  import opened TcpTwoEndpoints

  // ---- what the operations of a sender do to its timer

  /** Sending starts a timer that is not running. */
  function FillEvents(s: Sender): seq<TimerEvent>
    requires s.stream.Valid()
  {
    if !s.timer.running && FillWindow(s).next > s.next then [Started] else []
  }

  lemma {:induction false} FillHistory(s: Sender)
    requires s.stream.Valid()
    ensures FillWindow(s).timer == AfterAll(s.timer, FillEvents(s))
  {
    FillTimer(s);
    AfterOne(s.timer, Started);
  }

  /** A new acknowledgment restarts the timer, or stops it when nothing is left; sending
      may then start it again. */
  function AckEvents(s: Sender, ackno: U32, window: U16): seq<TimerEvent>
    requires s.Ready()
  {
    var abs := Unwrap(ackno, s.isn, s.acked);
    if s.acked < abs <= s.next then
      PopKeepsStream(s.(window := window, acked := abs));
      var m := AckOnly(s, abs, window);
      [if m.track != [] then Started else Closed] + FillEvents(m)
    else []
  }

  lemma {:induction false} AckHistory(s: Sender, ackno: U32, window: U16)
    requires s.Ready()
    ensures AckReceived(s, ackno, window).timer == AfterAll(s.timer, AckEvents(s, ackno, window))
  {
    var abs := Unwrap(ackno, s.isn, s.acked);
    if s.acked < abs <= s.next {
      PopKeepsStream(s.(window := window, acked := abs));
      var m := AckOnly(s, abs, window);
      var e := if m.track != [] then Started else Closed;
      AfterOne(s.timer, e);
      AfterAllAppend(s.timer, [e], FillEvents(m));
      FillHistory(m);
    }
  }

  /** Time passes for a running timer until it expires, with the window of the moment. */
  function TickEvents(s: Sender, ms: nat): seq<TimerEvent> {
    if !s.timer.running then []
    else if s.timer.Expires(ms) then [Expired(s.window)]
    else [Elapsed(ms)]
  }

  lemma {:induction false} TickHistory(s: Sender, ms: nat)
    requires SenderInv(s)
    ensures TcpSenders.Tick(s, ms).timer == AfterAll(s.timer, TickEvents(s, ms))
  {
    AfterOne(s.timer, Expired(s.window));
    AfterOne(s.timer, Elapsed(ms));
  }

  // ---- what the operations of a connection do to it

  /** The sender once the acknowledgment on `seg` is dealt with and the queue is sent. */
  function Answered(s: Sender, seg: Segment): Sender
    requires s.Ready()
  {
    if seg.header.ack then AckReceived(s, seg.header.ackno, seg.header.win).(out := []) else s
  }

  function ReceiveEvents(s: Sender, seg: Segment): seq<TimerEvent>
    requires s.Ready()
  {
    (if seg.header.ack then AckEvents(s, seg.header.ackno, seg.header.win) else [])
    + if seg.Length() > 0 then FillEvents(Answered(s, seg)) else []
  }

  function OpEvents(s: Sender, op: Op): seq<TimerEvent>
    requires s.Ready()
  {
    match op
    case ConnectOp => if s.next == 0 then FillEvents(s) else []
    case WriteOp(data) => if data == [] then [] else FillEvents(s.(stream := s.stream.Write(data)))
    case EndOp => FillEvents(s.(stream := s.stream.EndInput()))
    case TickOp(ms) => TickEvents(s, ms)
    case ReceiveOp(seg) => if seg.header.rst then [] else ReceiveEvents(s, seg)
    case ReadOp(_) => []
    case DestroyOp => []
  }

  lemma {:induction false} AnsweredTimer(s: Sender, seg: Segment)
    requires s.Ready()
    ensures Answered(s, seg).timer
      == AfterAll(s.timer, if seg.header.ack then AckEvents(s, seg.header.ackno, seg.header.win) else [])
  {
    if seg.header.ack {
      AckHistory(s, seg.header.ackno, seg.header.win);
    }
  }

  lemma {:induction false} AfterAckIsAnswered(c: Conn, seg: Segment, r': Receiver)
    requires c.sender.Ready()
    ensures AfterAck(c, seg, r').sender == Answered(c.sender, seg)
  {
  }

  lemma {:induction false} RespondTimer(c: Conn, seg: Segment, r': Receiver)
    requires c.sender.Ready()
    ensures BeforeTest(c, seg, r').sender.timer
      == AfterAll(Answered(c.sender, seg).timer, if seg.Length() > 0 then FillEvents(Answered(c.sender, seg)) else [])
  {
    FillHistory(Answered(c.sender, seg));
    assert AfterAck(c, seg, r').sender == Answered(c.sender, seg);
  }

  lemma {:induction false} ReceiveHistory(c: Conn, seg: Segment, r': Receiver)
    requires c.sender.Ready()
    ensures BeforeTest(c, seg, r').sender.timer == AfterAll(c.sender.timer, ReceiveEvents(c.sender, seg))
  {
    AnsweredTimer(c.sender, seg);
    RespondTimer(c, seg, r');
    AfterAllAppend(c.sender.timer,
                   if seg.header.ack then AckEvents(c.sender, seg.header.ackno, seg.header.win) else [],
                   if seg.Length() > 0 then FillEvents(Answered(c.sender, seg)) else []);
  }

  lemma {:induction false} ConnectionTick(c: Conn, ms: nat)
    requires SenderInv(c.sender)
    ensures TcpConnections.Tick(c, ms).sender.timer == AfterAll(c.sender.timer, TickEvents(c.sender, ms))
  {
    TickHistory(c.sender, ms);
  }

  lemma {:induction false} ReceivedTimer(c: Conn, seg: Segment, c': Conn)
    requires CanReceive(c, seg) && SegmentReceived(c, seg, c')
    ensures c'.sender.timer ==
      if seg.header.rst then c.sender.timer else BeforeTest(c, seg, c'.receiver).sender.timer
  {
  }

  lemma {:induction false} ConnectionReceive(c: Conn, seg: Segment, c': Conn)
    requires CanReceive(c, seg) && SegmentReceived(c, seg, c')
    ensures c'.sender.timer ==
      AfterAll(c.sender.timer, if seg.header.rst then [] else ReceiveEvents(c.sender, seg))
  {
    ReceivedTimer(c, seg, c');
    if !seg.header.rst {
      ReceiveHistory(c, seg, c'.receiver);
    }
  }

  lemma {:induction false} ConnectionFill(c: Conn, s: Sender)
    requires s.stream.Valid() && s.timer == c.sender.timer
    ensures FillAndSend(c.(sender := s)).sender.timer == AfterAll(c.sender.timer, FillEvents(s))
  {
    FillHistory(s);
  }

  lemma {:induction false} OpHistory(c: Conn, op: Op, c': Conn, w: World, wire: set<Segment>)
    requires Good(c, w) && OpStep(c, op, c', w, wire)
    ensures c'.sender.timer == AfterAll(c.sender.timer, OpEvents(c.sender, op))
  {
    GoodIsUsable(c, w);
    match op
    case ConnectOp => ConnectionFill(c, c.sender);
    case WriteOp(data) => ConnectionFill(c, c.sender.(stream := c.sender.stream.Write(data)));
    case EndOp => ConnectionFill(c, c.sender.(stream := c.sender.stream.EndInput()));
    case TickOp(ms) => ConnectionTick(c, ms);
    case ReceiveOp(seg) =>
      TimelyCanReceive(c, w, seg);
      ConnectionReceive(c, seg, c');
    case _ =>
  }

  // ---- over runs

  /** What an action of the run does to the timer of an endpoint. */
  function ActionEvents(c: Conn, mine: bool, act: Action): seq<TimerEvent> {
    if mine && act.Perform? && c.sender.Ready() then OpEvents(c.sender, act.op) else []
  }

  /** For each step of a run, what it does to the timer of an endpoint. */
  function Notes(states: seq<Sys>, acts: seq<(bool, Action)>, byA: bool): (notes: seq<seq<TimerEvent>>)
    requires |acts| < |states|
    ensures |notes| == |acts|
  {
    if acts == [] then []
    else
      var k := |acts| - 1;
      Notes(states, acts[..k], byA) + [ActionEvents(states[k].End(byA), acts[k].0 == byA, acts[k].1)]
  }

  lemma {:induction false} NotedAt(states: seq<Sys>, acts: seq<(bool, Action)>, byA: bool, k: nat)
    requires k < |acts| < |states|
    ensures Notes(states, acts, byA)[k] == ActionEvents(states[k].End(byA), acts[k].0 == byA, acts[k].1)
  {
    if k < |acts| - 1 {
      NotedAt(states, acts[..|acts| - 1], byA, k);
    }
  }

  /** All that happened to the timer in the first `k` steps. */
  function History(notes: seq<seq<TimerEvent>>, k: nat): seq<TimerEvent>
    requires k <= |notes|
  {
    if k == 0 then [] else History(notes, k - 1) + notes[k - 1]
  }

  /** `a` acts: its own timer sees the events, the other one nothing. */
  lemma {:induction false} ActsHistory(x: Sys, act: Action, y: Sys)
    requires SysInv(x) && ActsA(x, act, y)
    ensures y.a.sender.timer == AfterAll(x.a.sender.timer, ActionEvents(x.a, true, act))
    ensures y.b.sender.timer == x.b.sender.timer
  {
    if act.Perform? {
      GoodIsUsable(x.a, x.WorldOfA());
      OpHistory(x.a, act.op, y.a, x.WorldOfA(), x.ba);
    }
  }

  lemma {:induction false} StepHistory(x: Sys, byA: bool, act: Action, y: Sys, mine: bool)
    requires SysInv(x) && SysStep(x, byA, act, y)
    ensures y.End(mine).sender.timer == AfterAll(x.End(mine).sender.timer, ActionEvents(x.End(mine), byA == mine, act))
  {
    if byA {
      ActsHistory(x, act, y);
    } else {
      ActsHistory(x.Swap(), act, y.Swap());
    }
  }

  lemma {:induction false} StepTimeout(x: Sys, byA: bool, act: Action, y: Sys)
    requires SysInv(x) && SysStep(x, byA, act, y)
    ensures y.a.rtTimeout == x.a.rtTimeout && y.b.rtTimeout == x.b.rtTimeout
  {
    var x', y' := if byA then x else x.Swap(), if byA then y else y.Swap();
    if act.Perform? {
      OpMoves(x'.a, act.op, y'.a, x'.WorldOfA(), x'.ba);
    }
  }

  /** The timer of `c` is what `history` makes of a new one. */
  predicate TimerTells(c: Conn, history: seq<TimerEvent>) {
    c.sender.timer == AfterAll(NewTimer(c.rtTimeout), history)
  }

  lemma {:induction false} FreshTells(c: Conn)
    requires Fresh(c)
    ensures TimerTells(c, [])
  {
  }

  lemma {:induction false} StepTells(x: Sys, byA: bool, act: Action, y: Sys, mine: bool, history: seq<TimerEvent>)
    requires SysInv(x) && SysStep(x, byA, act, y) && TimerTells(x.End(mine), history)
    ensures TimerTells(y.End(mine), history + ActionEvents(x.End(mine), byA == mine, act))
  {
    StepTimeout(x, byA, act, y);
    StepHistory(x, byA, act, y, mine);
    AfterAllAppend(NewTimer(y.End(mine).rtTimeout), history, ActionEvents(x.End(mine), byA == mine, act));
  }

  ghost predicate TellsAt(states: seq<Sys>, byA: bool, notes: seq<seq<TimerEvent>>, k: nat)
    requires k <= |notes| < |states|
  {
    TimerTells(states[k].End(byA), History(notes, k))
  }

  lemma {:induction false} TellsFirst(
    states: seq<Sys>, acts: seq<(bool, Action)>, byA: bool, notes: seq<seq<TimerEvent>>)
    requires SysRun(states, acts) && notes == Notes(states, acts, byA)
    ensures TellsAt(states, byA, notes, 0)
  {
    FreshTells(states[0].End(byA));
  }

  lemma {:induction false} TellsNext(
    states: seq<Sys>, acts: seq<(bool, Action)>, byA: bool, notes: seq<seq<TimerEvent>>, k: nat)
    requires SysRun(states, acts) && notes == Notes(states, acts, byA) && 0 < k < |states|
    requires TellsAt(states, byA, notes, k - 1)
    ensures TellsAt(states, byA, notes, k)
  {
    SysRunKeeps(states, acts, k - 1);
    assert StepAt(states, acts, k - 1);
    NotedAt(states, acts, byA, k - 1);
    StepTells(states[k - 1], acts[k - 1].0, acts[k - 1].1, states[k], byA, History(notes, k - 1));
  }

  lemma {:induction false} TellsAll(
    states: seq<Sys>, acts: seq<(bool, Action)>, byA: bool, notes: seq<seq<TimerEvent>>, k: nat)
    requires SysRun(states, acts) && notes == Notes(states, acts, byA) && k < |states|
    ensures TellsAt(states, byA, notes, k)
  {
    if k == 0 {
      TellsFirst(states, acts, byA, notes);
    } else {
      TellsAll(states, acts, byA, notes, k - 1);
      TellsNext(states, acts, byA, notes, k);
    }
  }

  /** In every state of every run the timer is what its history makes of a new one. */
  lemma {:induction false} TimerIsItsHistory(states: seq<Sys>, acts: seq<(bool, Action)>, byA: bool, k: nat)
    requires SysRun(states, acts) && k < |states|
    ensures TimerTells(states[k].End(byA), History(Notes(states, acts, byA), k))
  {
    TellsAll(states, acts, byA, Notes(states, acts, byA), k);
  }

  /** The timer runs exactly while something is in flight. Its timeout is then the initial
      one, doubled once for each expiry since the last start that found the peer's window
      open, without overflow; all expiries since then are counted, and there are at most
      eight. */
  predicate TimerHealthy(c: Conn, history: seq<TimerEvent>) {
    && (c.sender.timer.running <==> c.sender.inFlight > 0)
    && c.sender.timer.consecutive <= MAX_RETX_ATTEMPTS
    && (c.sender.timer.running ==>
          && c.sender.timer.consecutive == Expiries(history, false)
          && Expiries(history, true) <= Expiries(history, false)
          && c.sender.timer.rto == c.rtTimeout * Pow2(Expiries(history, true)) < TWO32)
  }

  lemma {:induction false} RtoWithoutOverflow(initial: nat, n: nat)
    requires initial < TWO16 && n <= MAX_RETX_ATTEMPTS
    ensures BackedOff(initial, n) == initial * Pow2(n) < TWO32
  {
    NoOverflow(initial, n);
  }

  lemma {:induction false} HistoryIsHealthy(c: Conn, w: World, history: seq<TimerEvent>)
    requires Good(c, w) && c.active && TimerTells(c, history)
    ensures TimerHealthy(c, history)
  {
    NothingInFlight(c.sender);
    BackoffOverHistory(c.rtTimeout, history);
    if c.sender.timer.running {
      RtoWithoutOverflow(c.rtTimeout, Expiries(history, true));
    }
  }

  lemma {:induction false} TimerOverRun(states: seq<Sys>, acts: seq<(bool, Action)>, byA: bool, k: nat)
    requires SysRun(states, acts) && k < |states| && states[k].End(byA).active
    ensures TimerHealthy(states[k].End(byA), History(Notes(states, acts, byA), k))
  {
    SysRunKeeps(states, acts, k);
    TimerIsItsHistory(states, acts, byA, k);
    var x := if byA then states[k] else states[k].Swap();
    HistoryIsHealthy(x.a, x.WorldOfA(), History(Notes(states, acts, byA), k));
  }

  // ---- when it expires

  /** The timer was started again: a new acknowledgment came, or something was sent while
      it was not running. */
  predicate Restarted(s: Sender, s': Sender) {
    s'.acked > s.acked || (!s.timer.running && s'.timer.running)
  }

  /** A tick made the timer expire: one more retransmission is counted. */
  predicate Retransmitted(s: Sender, s': Sender) {
    s'.timer.consecutive == s.timer.consecutive + 1
  }

  /** How long the timer of an endpoint has run since it was last started or expired, by
      the ticks of the run. */
  function Waited(states: seq<Sys>, acts: seq<(bool, Action)>, byA: bool, k: nat): nat
    requires k <= |acts| < |states|
  {
    if k == 0 then 0
    else
      var s, s' := states[k - 1].End(byA).sender, states[k].End(byA).sender;
      if acts[k - 1].0 != byA || acts[k - 1].1.Transmit? then Waited(states, acts, byA, k - 1)
      else
        match acts[k - 1].1.op
        case TickOp(ms) => if Retransmitted(s, s') then 0 else Waited(states, acts, byA, k - 1) + ms
        case _ => if Restarted(s, s') then 0 else Waited(states, acts, byA, k - 1)
  }

  /** What an operation does to a timer that runs afterwards. */
  predicate TimeLaw(s: Sender, op: Op, s': Sender) {
    match op
    case TickOp(ms) =>
      && (s'.timer.running <==> s.timer.running)
      && (s.timer.running ==>
            && (Retransmitted(s, s') <==> s.timer.elapsed + ms >= s.timer.rto)
            && s'.timer.elapsed == if Retransmitted(s, s') then 0 else s.timer.elapsed + ms)
    case _ =>
      s'.timer.running ==>
        if Restarted(s, s') then s'.timer.elapsed == 0 && s'.timer.rto == s.timer.initial else s'.timer == s.timer
  }

  lemma {:induction false} TickTimeLaw(c: Conn, ms: nat)
    requires SenderInv(c.sender)
    ensures TimeLaw(c.sender, TickOp(ms), TcpConnections.Tick(c, ms).sender)
  {
    TickKeeps(c.sender, ms);
  }

  lemma {:induction false} FillTimeLaw(s: Sender, f: Sender)
    requires s.stream.Valid() && f == FillWindow(s)
    ensures f.timer == s.timer || (!s.timer.running && f.timer == s.timer.Start())
  {
    FillTimer(s);
  }

  /** The timer after an acknowledgment. */
  lemma {:induction false} AckTimeLaw(s: Sender, ackno: U32, window: U16)
    requires SenderInv(s)
    ensures var s' := AckReceived(s, ackno, window);
      && (s'.acked == s.acked ==> s'.timer == s.timer)
      && (s'.acked > s.acked ==> s'.timer == s.timer.Start() || s'.timer == s.timer.Close())
      && s'.acked >= s.acked
  {
    var abs := Unwrap(ackno, s.isn, s.acked);
    AckReceivedKeeps(s, ackno, window);
    if s.acked < abs <= s.next {
      AckOnlyKeeps(s, abs, window);
      AckOnlyTimer(s, abs, window);
      FillTimer(AckOnly(s, abs, window));
    }
  }

  lemma {:induction false} AnsweredTimeLaw(s: Sender, seg: Segment)
    requires SenderInv(s)
    ensures var m := Answered(s, seg);
      && m.acked >= s.acked && m.stream.Valid()
      && (m.acked == s.acked ==> m.timer == s.timer)
      && (m.acked > s.acked ==> m.timer == s.timer.Start() || m.timer == s.timer.Close())
  {
    if seg.header.ack {
      AckTimeLaw(s, seg.header.ackno, seg.header.win);
      AckReceivedKeeps(s, seg.header.ackno, seg.header.win);
    }
  }

  lemma {:induction false} RefillTimeLaw(s: Sender, m: Sender, s': Sender)
    requires m.stream.Valid() && m.acked >= s.acked
    requires m.acked == s.acked ==> m.timer == s.timer
    requires m.acked > s.acked ==> m.timer == s.timer.Start() || m.timer == s.timer.Close()
    requires s'.acked == m.acked
    requires s'.timer == m.timer || (!m.timer.running && s'.timer == m.timer.Start())
    ensures s'.timer.running ==>
      if Restarted(s, s') then s'.timer.elapsed == 0 && s'.timer.rto == s.timer.initial else s'.timer == s.timer
  {
  }

  lemma {:induction false} ReceiveTimeLaw(c: Conn, w: World, seg: Segment, c': Conn)
    requires Good(c, w) && (seg.header.rst || Timely(c, w, seg)) && CanReceive(c, seg) && SegmentReceived(c, seg, c')
    ensures TimeLaw(c.sender, ReceiveOp(seg), c'.sender)
  {
    if !seg.header.rst {
      var m := AfterAck(c, seg, c'.receiver).sender;
      AfterAckMoves(c, w, seg, c'.receiver);
      AfterAckIsAnswered(c, seg, c'.receiver);
      AnsweredTimeLaw(c.sender, seg);
      ReceivedSender(c, seg, c');
      FillTimeLaw(m, FillWindow(m));
      FillWindowIsSafeAndMaximal(m);
      RefillTimeLaw(c.sender, m, c'.sender);
    }
  }

  lemma {:induction false} FillOpTimeLaw(c: Conn, s: Sender)
    requires SenderInv(s) && s.timer == c.sender.timer && s.acked == c.sender.acked
    ensures var s' := FillAndSend(c.(sender := s)).sender;
      s'.timer.running ==>
        if Restarted(c.sender, s') then s'.timer.elapsed == 0 && s'.timer.rto == c.sender.timer.initial
        else s'.timer == c.sender.timer
  {
    FillTimeLaw(s, FillWindow(s));
    FillWindowIsSafeAndMaximal(s);
  }

  lemma {:induction false} OpTimeLaw(c: Conn, op: Op, c': Conn, w: World, wire: set<Segment>)
    requires Good(c, w) && OpStep(c, op, c', w, wire)
    ensures TimeLaw(c.sender, op, c'.sender)
  {
    GoodIsUsable(c, w);
    match op
    case ConnectOp => FillOpTimeLaw(c, c.sender);
    case WriteOp(data) =>
      WriteKeeps(c.sender, data);
      FillOpTimeLaw(c, c.sender.(stream := c.sender.stream.Write(data)));
    case EndOp =>
      EndInputKeeps(c.sender);
      FillOpTimeLaw(c, c.sender.(stream := c.sender.stream.EndInput()));
    case TickOp(ms) => TickTimeLaw(c, ms);
    case ReceiveOp(seg) =>
      TimelyCanReceive(c, w, seg);
      ReceiveTimeLaw(c, w, seg, c');
    case _ =>
  }

  /** A running timer shows how long it has run, and that is less than a timeout that is
      not zero. */
  predicate ShowsTime(s: Sender, waited: nat) {
    s.timer.running ==> s.timer.elapsed == waited && (s.timer.rto > 0 ==> s.timer.elapsed < s.timer.rto)
  }

  lemma {:induction false} ShowsTimeLater(s: Sender, op: Op, s': Sender, waited: nat)
    requires TimeLaw(s, op, s') && ShowsTime(s, waited) && s.timer.initial == s'.timer.initial
    requires op.TickOp? && Retransmitted(s, s') ==> s'.timer.elapsed == 0
    requires op.TickOp? && !Retransmitted(s, s') ==> s'.timer.rto == s.timer.rto
    ensures ShowsTime(s',
      match op
      case TickOp(ms) => if Retransmitted(s, s') then 0 else waited + ms
      case _ => if Restarted(s, s') then 0 else waited)
  {
  }

  lemma {:induction false} TickKeepsTimeout(c: Conn, ms: nat)
    requires SenderInv(c.sender)
    ensures var s' := TcpConnections.Tick(c, ms).sender;
      && (!Retransmitted(c.sender, s') ==> s'.timer.rto == c.sender.timer.rto)
      && (Retransmitted(c.sender, s') ==> s'.timer.elapsed == 0 && c.sender.timer.running)
  {
    TickKeeps(c.sender, ms);
  }

  lemma {:induction false} OpShowsTime(c: Conn, op: Op, c': Conn, w: World, wire: set<Segment>, waited: nat)
    requires Good(c, w) && OpStep(c, op, c', w, wire) && ShowsTime(c.sender, waited)
    ensures ShowsTime(c'.sender,
      match op
      case TickOp(ms) => if Retransmitted(c.sender, c'.sender) then 0 else waited + ms
      case _ => if Restarted(c.sender, c'.sender) then 0 else waited)
  {
    GoodIsUsable(c, w);
    OpMoves(c, op, c', w, wire);
    OpTimeLaw(c, op, c', w, wire);
    if op.TickOp? {
      TickKeepsTimeout(c, op.ms);
    }
    ShowsTimeLater(c.sender, op, c'.sender, waited);
  }

  /** In every state of every run the timer of an endpoint shows the sum of the ticks since
      it was last started or expired, and has not reached its timeout. */
  lemma {:induction false} TimerShowsTime(states: seq<Sys>, acts: seq<(bool, Action)>, byA: bool, k: nat)
    requires SysRun(states, acts) && k < |states|
    ensures ShowsTime(states[k].End(byA).sender, Waited(states, acts, byA, k))
  {
    if k > 0 {
      TimerShowsTime(states, acts, byA, k - 1);
      SysRunKeeps(states, acts, k - 1);
      assert StepAt(states, acts, k - 1);
      var x := if acts[k - 1].0 then states[k - 1] else states[k - 1].Swap();
      if acts[k - 1].0 == byA && acts[k - 1].1.Perform? {
        OpShowsTime(states[k - 1].End(byA), acts[k - 1].1.op, states[k].End(byA), x.WorldOfA(), x.ba,
                    Waited(states, acts, byA, k - 1));
      }
    }
  }

  /** In every run a tick makes the running timer of an active endpoint expire exactly if
      the ticks since it was last started or expired, with this one, reach the initial
      timeout times 2^k, where k counts the expiries with an open window since the start. */
  lemma {:induction false} ExpiresExactly(states: seq<Sys>, acts: seq<(bool, Action)>, byA: bool, k: nat, ms: nat)
    requires SysRun(states, acts) && k < |acts| && acts[k] == (byA, Perform(TickOp(ms)))
    requires states[k].End(byA).active && states[k].End(byA).sender.timer.running
    ensures Retransmitted(states[k].End(byA).sender, states[k + 1].End(byA).sender) <==>
      Waited(states, acts, byA, k) + ms
        >= states[k].End(byA).rtTimeout * Pow2(Expiries(History(Notes(states, acts, byA), k), true))
  {
    TimerShowsTime(states, acts, byA, k);
    TimerOverRun(states, acts, byA, k);
    SysRunKeeps(states, acts, k);
    assert StepAt(states, acts, k);
    var x := if byA then states[k] else states[k].Swap();
    OpTimeLaw(states[k].End(byA), TickOp(ms), states[k + 1].End(byA), x.WorldOfA(), x.ba);
  }

  lemma {:induction false} StampQueueOf(q: seq<Segment>, r: Receiver)
    ensures q == [] ==> StampAll(q, r) == []
    ensures |q| == 1 ==> StampAll(q, r) == [Stamp(q[0], r)]
  {
    if |q| == 1 {
      assert q[1..] == [];
    }
  }

  lemma {:induction false} TickQueue(c: Conn, ms: nat)
    requires !GivesUp(Ticked(c, ms))
    ensures TcpConnections.Tick(c, ms).out == c.out + StampAll(TcpSenders.Tick(c.sender, ms).out, c.receiver)
    ensures TcpConnections.Tick(c, ms).sender.timer == TcpSenders.Tick(c.sender, ms).timer
  {
  }

  lemma {:induction false} TickGivesUp(c: Conn, ms: nat)
    ensures GivesUp(Ticked(c, ms)) <==> TcpConnections.Tick(c, ms).sender.timer.consecutive > MAX_RETX_ATTEMPTS
  {
  }

  lemma {:induction false} RetransmitsOnExpiry(s: Sender, ms: nat)
    requires SenderInv(s)
    ensures Retransmitted(s, TcpSenders.Tick(s, ms)) <==> s.timer.running && s.timer.elapsed + ms >= s.timer.rto
  {
  }

  /** What a tick sends, if the queue was empty and the connection is not given up: on an
      expiry a copy of the first segment in flight, and nothing otherwise. */
  lemma {:induction false} ExpirySendsFront(c: Conn, w: World, ms: nat)
    requires Good(c, w) && c.sender.out == []
    requires TcpConnections.Tick(c, ms).sender.timer.consecutive <= MAX_RETX_ATTEMPTS
    ensures var c' := TcpConnections.Tick(c, ms);
      if Retransmitted(c.sender, c'.sender)
      then c.sender.track != [] && c'.out == c.out + [Stamp(c.sender.track[0], c.receiver)]
           && SameContent(c.sender.track[0], Stamp(c.sender.track[0], c.receiver))
      else c'.out == c.out
  {
    TickGivesUp(c, ms);
    TickQueue(c, ms);
    TickKeeps(c.sender, ms);
    StampQueueOf(TcpSenders.Tick(c.sender, ms).out, c.receiver);
    RetransmitsOnExpiry(c.sender, ms);
  }
}
