/** What an outside observer of a network interface can write down, and what is true
    of those notes in every run. */
module ArpHistory {
  import opened Types
  import opened Ipv4
  import opened NetworkInterfaces

  datatype Event = Send(dgram: Datagram, hop: IpAddress) | Recv(frame: Frame) | Elapse(ms: nat)

  function Next(i: Iface, e: Event): Iface {
    match e
    case Send(dgram, hop) => SendDatagram(i, dgram, hop)
    case Recv(frame) => RecvFrame(i, frame)
    case Elapse(ms) => Tick(i, ms)
  }

  datatype Learned = Learned(eth: EthernetAddress, time: nat)

  datatype Request = Request(ip: IpAddress, time: nat)

  /** A frame that left for a datagram, and the latest news of its hop at that time. */
  datatype Shipment = Shipment(frame: Frame, time: nat, from: Option<Learned>)

  datatype Drop = Drop(hop: IpAddress, time: nat)

  /** Datagrams are numbered as they are handed in. `sentIds`, `waiting` and `droppedIds`
      say what became of them; `sent` and `dropped` run parallel to the first and last. */
  datatype Ledger = Ledger(
    handed: seq<(IpAddress, Datagram)>,
    sentIds: seq<nat>, sent: seq<Shipment>,
    waiting: seq<nat>,
    droppedIds: seq<nat>, dropped: seq<Drop>,
    requests: seq<Request>, learned: map<IpAddress, Learned>)

  const BLANK: Ledger := Ledger([], [], [], [], [], [], [], map[])

  function LatestNews(l: Ledger, hop: IpAddress): Option<Learned> {
    if hop in l.learned then Some(l.learned[hop]) else None
  }

  /** An ARP message, request or reply, that is addressed to `eth` or to everyone. */
  predicate Announces(eth: EthernetAddress, f: Frame) {
    && (f.dst == eth || f.dst == 0xFFFF_FFFF_FFFF)
    && f.payload.ArpPayload? && (f.payload.arp.opcode == 1 || f.payload.arp.opcode == 2)
  }

  predicate IsReply(f: Frame) {
    f.payload.ArpPayload? && f.payload.arp.opcode == 2
  }

  /** The frames that `e` adds to the outbound queue. */
  function NewFrames(i: Iface, e: Event): seq<Frame> {
    var out := Next(i, e).out;
    if |i.out| <= |out| then out[|i.out|..] else []
  }

  /** A handed-in datagram is sent if a frame leaves for it, waits if an ARP request
      leaves instead, and is dropped if nothing leaves. */
  function RecordSend(l: Ledger, hop: IpAddress, dgram: Datagram, frames: seq<Frame>, now: nat): Ledger {
    var id := |l.handed|;
    var l1 := l.(handed := l.handed + [(hop, dgram)]);
    if frames == [] then
      l1.(droppedIds := l.droppedIds + [id], dropped := l.dropped + [Drop(hop, now)])
    else if frames[0].payload.IpPayload? then
      l1.(sentIds := l.sentIds + [id], sent := l.sent + [Shipment(frames[0], now, LatestNews(l, hop))])
    else
      l1.(waiting := l.waiting + [id], requests := l.requests + [Request(hop, now)])
  }

  /** Each frame that leaves is put down to the datagram that has waited longest. */
  function RecordFlush(l: Ledger, frames: seq<Frame>, now: nat): Ledger
    decreases |frames|
  {
    if frames == [] || l.waiting == [] || l.waiting[0] >= |l.handed| then l
    else
      var id := l.waiting[0];
      var l1 := l.(waiting := l.waiting[1..], sentIds := l.sentIds + [id],
                   sent := l.sent + [Shipment(frames[0], now, LatestNews(l, l.handed[id].0))]);
      RecordFlush(l1, frames[1..], now)
  }

  function Record(l: Ledger, i: Iface, e: Event): Ledger {
    match e
    case Send(dgram, hop) => RecordSend(l, hop, dgram, NewFrames(i, e), i.now)
    case Recv(frame) =>
      if !Announces(i.eth, frame) then l
      else
        var arp := frame.payload.arp;
        var l1 := l.(learned := l.learned[arp.senderIp := Learned(arp.senderEth, i.now)]);
        if IsReply(frame) then RecordFlush(l1, NewFrames(i, e), i.now) else l1
    case Elapse(_) => l
  }

  // ---- the invariant

  /** The cache holds the latest news not older than 30 seconds, and nothing else. */
  ghost predicate CacheOk(i: Iface, l: Ledger) {
    && i.cache.Keys == i.expire.Keys
    && (forall ip :: ip in i.cache ==>
          && ip in l.learned && i.cache[ip] == l.learned[ip].eth
          && i.expire[ip] == l.learned[ip].time + CACHE_LIFETIME)
    && (forall ip :: ip in l.learned ==> l.learned[ip].time <= i.now)
    && (forall ip :: ip in l.learned && ip !in i.cache ==> i.now > l.learned[ip].time + CACHE_LIFETIME)
  }

  /** A request is still pending, or its answer (or other news) came later. */
  predicate Accounted(i: Iface, l: Ledger, q: Request) {
    && q.time <= i.now
    && (|| (q.ip in i.pending && i.pending[q.ip] >= q.time + REQUEST_INTERVAL)
        || (q.ip in l.learned && l.learned[q.ip].time >= q.time))
  }

  /** Some recorded request for `ip` was made at `time`. */
  ghost predicate RequestedAt(l: Ledger, ip: IpAddress, time: int) {
    exists q :: q in l.requests && q.ip == ip && q.time == time
  }

  ghost predicate RequestsOk(i: Iface, l: Ledger) {
    && (forall q :: q in l.requests ==> Accounted(i, l, q))
    && (forall ip :: ip in i.pending ==> RequestedAt(l, ip, i.pending[ip] - REQUEST_INTERVAL))
  }

  ghost predicate Spaced(requests: seq<Request>) {
    forall j, k :: 0 <= j < k < |requests| && requests[j].ip == requests[k].ip ==>
      requests[k].time > requests[j].time + 5000
  }

  /** Datagrams wait in the order in which they were handed in. */
  ghost predicate QueueOk(i: Iface, l: Ledger) {
    && |l.waiting| == |i.blocked|
    && (forall k :: 0 <= k < |l.waiting| ==> l.waiting[k] < |l.handed| && i.blocked[k] == l.handed[l.waiting[k]])
    && (forall j, k :: 0 <= j < k < |l.waiting| ==> l.waiting[j] < l.waiting[k])
  }

  /** The frame carries the datagram to the address last learned for its hop, and that
      was at most 30 seconds before. */
  predicate GoodShipment(i: Iface, l: Ledger, id: nat, s: Shipment) {
    && id < |l.handed|
    && s.from.Some?
    && s.frame == Frame(s.from.value.eth, i.eth, IpPayload(l.handed[id].1))
    && s.from.value.time <= s.time <= s.from.value.time + 30000
  }

  ghost predicate ShipmentsOk(i: Iface, l: Ledger) {
    && |l.sentIds| == |l.sent|
    && forall k :: 0 <= k < |l.sent| ==> GoodShipment(i, l, l.sentIds[k], l.sent[k])
  }

  /** A datagram was dropped only while a request for its hop was at most five seconds old. */
  ghost predicate GoodDrop(l: Ledger, id: nat, d: Drop) {
    && id < |l.handed| && l.handed[id].0 == d.hop
    && exists q :: q in l.requests && q.ip == d.hop && q.time <= d.time <= q.time + 5000
  }

  ghost predicate DropsOk(l: Ledger) {
    && |l.droppedIds| == |l.dropped|
    && forall k :: 0 <= k < |l.dropped| ==> GoodDrop(l, l.droppedIds[k], l.dropped[k])
  }

  function Fates(l: Ledger): multiset<nat> {
    multiset(l.sentIds) + multiset(l.waiting) + multiset(l.droppedIds)
  }

  /** Every datagram handed in has exactly one fate. */
  ghost predicate Conserved(l: Ledger) {
    forall id: nat :: Fates(l)[id] == if id < |l.handed| then 1 else 0
  }

  predicate IsRequest(f: Frame) {
    f.dst == 0xFFFF_FFFF_FFFF && f.payload.ArpPayload? && f.payload.arp.opcode == 1
  }

  /** The addresses asked for by the broadcast requests among `out`, in order. */
  function Asked(out: seq<Frame>): seq<IpAddress> {
    if out == [] then []
    else
      var f := out[|out| - 1];
      Asked(out[..|out| - 1]) + if IsRequest(f) then [f.payload.arp.targetIp] else []
  }

  /** The frames among `out` that carry datagrams, in order. */
  function Carriers(out: seq<Frame>): seq<Frame> {
    if out == [] then []
    else
      var f := out[|out| - 1];
      Carriers(out[..|out| - 1]) + if f.payload.IpPayload? then [f] else []
  }

  function RequestIps(requests: seq<Request>): seq<IpAddress> {
    if requests == [] then []
    else RequestIps(requests[..|requests| - 1]) + [requests[|requests| - 1].ip]
  }

  function ShipmentFrames(sent: seq<Shipment>): seq<Frame> {
    if sent == [] then []
    else ShipmentFrames(sent[..|sent| - 1]) + [sent[|sent| - 1].frame]
  }

  /** The notes miss no request and no datagram that left. */
  ghost predicate NotesComplete(i: Iface, l: Ledger) {
    Asked(i.out) == RequestIps(l.requests) && Carriers(i.out) == ShipmentFrames(l.sent)
  }

  lemma {:induction false} OutSnoc(out: seq<Frame>, f: Frame)
    ensures Asked(out + [f]) == Asked(out) + if IsRequest(f) then [f.payload.arp.targetIp] else []
    ensures Carriers(out + [f]) == Carriers(out) + if f.payload.IpPayload? then [f] else []
  {
    assert (out + [f])[..|out|] == out;
  }

  lemma {:induction false} RequestSnoc(requests: seq<Request>, q: Request)
    ensures RequestIps(requests + [q]) == RequestIps(requests) + [q.ip]
  {
    assert (requests + [q])[..|requests|] == requests;
  }

  lemma {:induction false} ShipmentSnoc(sent: seq<Shipment>, s: Shipment)
    ensures ShipmentFrames(sent + [s]) == ShipmentFrames(sent) + [s.frame]
  {
    assert (sent + [s])[..|sent|] == sent;
  }

  ghost predicate HistoryInv(i: Iface, l: Ledger) {
    && NotesComplete(i, l)
    && CacheOk(i, l)
    && RequestsOk(i, l)
    && Spaced(l.requests)
    && QueueOk(i, l)
    && ShipmentsOk(i, l)
    && DropsOk(l)
    && Conserved(l)
  }

  lemma {:induction false} BlankInv(eth: EthernetAddress, ip: IpAddress)
    ensures HistoryInv(NewIface(eth, ip), BLANK)
  {
  }

  // ---- send_datagram

  /** One of the three lists has grown by the newest number. */
  predicate OneMore(l: Ledger, l': Ledger) {
    var id := |l.handed|;
    && |l'.handed| == id + 1
    && (|| (l'.sentIds == l.sentIds + [id] && l'.waiting == l.waiting && l'.droppedIds == l.droppedIds)
        || (l'.sentIds == l.sentIds && l'.waiting == l.waiting + [id] && l'.droppedIds == l.droppedIds)
        || (l'.sentIds == l.sentIds && l'.waiting == l.waiting && l'.droppedIds == l.droppedIds + [id]))
  }

  lemma {:induction false} OneMoreFate(l: Ledger, l': Ledger)
    requires Conserved(l) && OneMore(l, l')
    ensures Conserved(l')
  {
    assert Fates(l') == Fates(l) + multiset{|l.handed|};
  }

  lemma {:induction false} FrontMoves(l: Ledger, l': Ledger)
    requires Conserved(l) && l.waiting != []
    requires l'.handed == l.handed && l'.droppedIds == l.droppedIds
    requires l'.waiting == l.waiting[1..] && l'.sentIds == l.sentIds + [l.waiting[0]]
    ensures Conserved(l')
  {
    assert l.waiting == [l.waiting[0]] + l'.waiting;
    assert Fates(l') == Fates(l);
  }

  lemma {:induction false} CacheUntouched(i: Iface, l: Ledger, i': Iface, l': Ledger)
    requires CacheOk(i, l) && l'.learned == l.learned
    requires i'.cache == i.cache && i'.expire == i.expire && i'.now == i.now
    ensures CacheOk(i', l')
  {
  }

  lemma {:induction false} ShipmentsUntouched(i: Iface, l: Ledger, i': Iface, l': Ledger)
    requires ShipmentsOk(i, l) && i'.eth == i.eth && l.handed <= l'.handed
    requires l'.sent == l.sent && l'.sentIds == l.sentIds
    ensures ShipmentsOk(i', l')
  {
    forall k | 0 <= k < |l'.sent|
      ensures GoodShipment(i', l', l'.sentIds[k], l'.sent[k])
    {
      assert GoodShipment(i, l, l.sentIds[k], l.sent[k]);
    }
  }

  lemma {:induction false} QueueUntouched(i: Iface, l: Ledger, i': Iface, l': Ledger)
    requires QueueOk(i, l) && i'.blocked == i.blocked && l'.waiting == l.waiting && l.handed <= l'.handed
    ensures QueueOk(i', l')
  {
  }

  lemma {:induction false} RequestsUntouched(i: Iface, l: Ledger, i': Iface, l': Ledger)
    requires RequestsOk(i, l)
    requires i'.pending == i.pending && i'.now == i.now && l'.requests == l.requests && l'.learned == l.learned
    ensures RequestsOk(i', l')
  {
    forall q | q in l'.requests
      ensures Accounted(i', l', q)
    {
      assert Accounted(i, l, q);
    }
    forall ip | ip in i'.pending
      ensures RequestedAt(l', ip, i'.pending[ip] - REQUEST_INTERVAL)
    {
      assert RequestedAt(l, ip, i.pending[ip] - REQUEST_INTERVAL);
    }
  }

  lemma {:induction false} DropsUntouched(l: Ledger, l': Ledger)
    requires DropsOk(l)
    requires l'.droppedIds == l.droppedIds && l'.dropped == l.dropped
    requires l.requests <= l'.requests && l.handed <= l'.handed
    ensures DropsOk(l')
  {
    forall k | 0 <= k < |l'.dropped|
      ensures GoodDrop(l', l'.droppedIds[k], l'.dropped[k])
    {
      assert GoodDrop(l, l.droppedIds[k], l.dropped[k]);
      var q :| q in l.requests && q.ip == l.dropped[k].hop && q.time <= l.dropped[k].time <= q.time + REQUEST_INTERVAL;
      assert q in l'.requests;
    }
  }

  lemma {:induction false} ShipmentAdded(i: Iface, l: Ledger, i': Iface, l': Ledger, id: nat)
    requires ShipmentsOk(i, l) && i'.eth == i.eth && l.handed <= l'.handed
    requires |l'.sent| == |l.sent| + 1 && l.sent <= l'.sent && l'.sentIds == l.sentIds + [id]
    requires GoodShipment(i, l', id, l'.sent[|l.sent|])
    ensures ShipmentsOk(i', l')
  {
    forall k | 0 <= k < |l'.sent|
      ensures GoodShipment(i', l', l'.sentIds[k], l'.sent[k])
    {
      assert k < |l.sent| ==> GoodShipment(i, l, l.sentIds[k], l.sent[k]);
    }
  }

  lemma {:induction false} SendResolved(i: Iface, l: Ledger, dgram: Datagram, hop: IpAddress)
    requires HistoryInv(i, l) && Resolved(i, hop)
    ensures HistoryInv(Next(i, Send(dgram, hop)), Record(l, i, Send(dgram, hop)))
  {
    var e := Send(dgram, hop);
    var i', l' := Next(i, e), Record(l, i, e);
    assert NewFrames(i, e) == [IpFrame(i, dgram, i.cache[hop])];
    CacheUntouched(i, l, i', l');
    QueueUntouched(i, l, i', l');
    RequestsUntouched(i, l, i', l');
    DropsUntouched(l, l');
    ShipmentAdded(i, l, i', l', |l.handed|);
    OneMoreFate(l, l');
    OutSnoc(i.out, IpFrame(i, dgram, i.cache[hop]));
    ShipmentSnoc(l.sent, l'.sent[|l.sent|]);
  }

  lemma {:induction false} PendingMeansRequested(i: Iface, l: Ledger, hop: IpAddress)
    requires RequestsOk(i, l) && RequestPending(i, hop)
    ensures exists q :: q in l.requests && q.ip == hop && q.time <= i.now <= q.time + REQUEST_INTERVAL
  {
    assert RequestedAt(l, hop, i.pending[hop] - REQUEST_INTERVAL);
    var q :| q in l.requests && q.ip == hop && q.time == i.pending[hop] - REQUEST_INTERVAL;
    assert Accounted(i, l, q);
  }

  lemma {:induction false} DropAdded(l: Ledger, l': Ledger, hop: IpAddress, dgram: Datagram, now: nat)
    requires DropsOk(l) && l'.requests == l.requests && l'.handed == l.handed + [(hop, dgram)]
    requires l'.droppedIds == l.droppedIds + [|l.handed|] && l'.dropped == l.dropped + [Drop(hop, now)]
    requires exists q :: q in l.requests && q.ip == hop && q.time <= now <= q.time + REQUEST_INTERVAL
    ensures DropsOk(l')
  {
    forall k | 0 <= k < |l'.dropped|
      ensures GoodDrop(l', l'.droppedIds[k], l'.dropped[k])
    {
      assert k < |l.dropped| ==> GoodDrop(l, l.droppedIds[k], l.dropped[k]);
    }
  }

  lemma {:induction false} SendDropped(i: Iface, l: Ledger, dgram: Datagram, hop: IpAddress)
    requires HistoryInv(i, l) && !Resolved(i, hop) && RequestPending(i, hop)
    ensures HistoryInv(Next(i, Send(dgram, hop)), Record(l, i, Send(dgram, hop)))
  {
    var e := Send(dgram, hop);
    var l' := Record(l, i, e);
    assert NewFrames(i, e) == [];
    CacheUntouched(i, l, i, l');
    QueueUntouched(i, l, i, l');
    RequestsUntouched(i, l, i, l');
    ShipmentsUntouched(i, l, i, l');
    PendingMeansRequested(i, l, hop);
    DropAdded(l, l', hop, dgram, i.now);
    OneMoreFate(l, l');
  }

  /** When a request goes out, every earlier one for the same address lies more than
      five seconds back: it has run out, or it was answered and the answer has expired. */
  lemma {:induction false} NewRequestIsSpaced(i: Iface, l: Ledger, hop: IpAddress, q: Request)
    requires CacheOk(i, l) && RequestsOk(i, l) && q in l.requests && q.ip == hop
    requires !Resolved(i, hop) && !RequestPending(i, hop)
    ensures i.now > q.time + REQUEST_INTERVAL
  {
    assert Accounted(i, l, q);
  }

  lemma {:induction false} SpacedMore(i: Iface, l: Ledger, hop: IpAddress)
    requires CacheOk(i, l) && RequestsOk(i, l) && Spaced(l.requests)
    requires !Resolved(i, hop) && !RequestPending(i, hop)
    ensures Spaced(l.requests + [Request(hop, i.now)])
  {
    var more := l.requests + [Request(hop, i.now)];
    forall j, k | 0 <= j < k < |more| && more[j].ip == more[k].ip
      ensures more[k].time > more[j].time + REQUEST_INTERVAL
    {
      if k == |l.requests| {
        NewRequestIsSpaced(i, l, hop, l.requests[j]);
      }
    }
  }

  lemma {:induction false} QueueAdded(i: Iface, l: Ledger, i': Iface, l': Ledger, hop: IpAddress, dgram: Datagram)
    requires QueueOk(i, l) && i'.blocked == i.blocked + [(hop, dgram)]
    requires l'.handed == l.handed + [(hop, dgram)] && l'.waiting == l.waiting + [|l.handed|]
    ensures QueueOk(i', l')
  {
  }

  lemma {:induction false} RequestAdded(i: Iface, l: Ledger, hop: IpAddress, i': Iface, l': Ledger)
    requires RequestsOk(i, l)
    requires i'.now == i.now && i'.pending == i.pending[hop := i.now + REQUEST_INTERVAL]
    requires l'.learned == l.learned && l'.requests == l.requests + [Request(hop, i.now)]
    ensures RequestsOk(i', l')
  {
    forall q | q in l'.requests
      ensures Accounted(i', l', q)
    {
      if q in l.requests {
        assert Accounted(i, l, q);
      }
    }
    forall ip | ip in i'.pending
      ensures RequestedAt(l', ip, i'.pending[ip] - REQUEST_INTERVAL)
    {
      if ip == hop {
        assert Request(hop, i.now) in l'.requests;
      } else {
        assert RequestedAt(l, ip, i.pending[ip] - REQUEST_INTERVAL);
        var q :| q in l.requests && q.ip == ip && q.time == i.pending[ip] - REQUEST_INTERVAL;
        assert q in l'.requests;
      }
    }
  }

  lemma {:induction false} SendRequests(i: Iface, l: Ledger, dgram: Datagram, hop: IpAddress)
    requires HistoryInv(i, l) && !Resolved(i, hop) && !RequestPending(i, hop)
    ensures HistoryInv(Next(i, Send(dgram, hop)), Record(l, i, Send(dgram, hop)))
  {
    var e := Send(dgram, hop);
    var i', l' := Next(i, e), Record(l, i, e);
    assert NewFrames(i, e) == [RequestFrame(i, hop)];
    CacheUntouched(i, l, i', l');
    QueueAdded(i, l, i', l', hop, dgram);
    ShipmentsUntouched(i, l, i', l');
    DropsUntouched(l, l');
    RequestAdded(i, l, hop, i', l');
    SpacedMore(i, l, hop);
    OneMoreFate(l, l');
    OutSnoc(i.out, RequestFrame(i, hop));
    RequestSnoc(l.requests, Request(hop, i.now));
  }

  // ---- recv_frame

  lemma {:induction false} LearnCache(i: Iface, l: Ledger, ip: IpAddress, eth: EthernetAddress)
    requires CacheOk(i, l)
    ensures CacheOk(Learn(i, ip, eth), l.(learned := l.learned[ip := Learned(eth, i.now)]))
  {
  }

  lemma {:induction false} LearnRequests(i: Iface, l: Ledger, ip: IpAddress, eth: EthernetAddress)
    requires CacheOk(i, l) && RequestsOk(i, l)
    ensures RequestsOk(Learn(i, ip, eth), l.(learned := l.learned[ip := Learned(eth, i.now)]))
  {
    var i', l' := Learn(i, ip, eth), l.(learned := l.learned[ip := Learned(eth, i.now)]);
    forall q | q in l'.requests
      ensures Accounted(i', l', q)
    {
      assert Accounted(i, l, q);
    }
    forall x | x in i'.pending
      ensures RequestedAt(l', x, i'.pending[x] - REQUEST_INTERVAL)
    {
      assert RequestedAt(l, x, i.pending[x] - REQUEST_INTERVAL);
    }
  }

  lemma {:induction false} LearnKeeps(i: Iface, l: Ledger, ip: IpAddress, eth: EthernetAddress)
    requires HistoryInv(i, l)
    ensures HistoryInv(Learn(i, ip, eth), l.(learned := l.learned[ip := Learned(eth, i.now)]))
  {
    var i', l' := Learn(i, ip, eth), l.(learned := l.learned[ip := Learned(eth, i.now)]);
    LearnCache(i, l, ip, eth);
    LearnRequests(i, l, ip, eth);
    QueueUntouched(i, l, i', l');
    ShipmentsUntouched(i, l, i', l');
    DropsUntouched(l, l');
    assert Fates(l') == Fates(l);
  }

  /** The interface after the front of its blocked queue has left. */
  function DrainOne(i: Iface): Iface
    requires i.blocked != [] && Resolved(i, i.blocked[0].0)
  {
    i.(out := i.out + [IpFrame(i, i.blocked[0].1, i.cache[i.blocked[0].0])], blocked := i.blocked[1..])
  }

  lemma {:induction false} QueuePopped(i: Iface, l: Ledger, i': Iface, l': Ledger)
    requires QueueOk(i, l) && i.blocked != [] && i'.blocked == i.blocked[1..]
    requires l'.waiting == l.waiting[1..] && l'.handed == l.handed
    ensures QueueOk(i', l')
  {
  }

  lemma {:induction false} DrainOneKeeps(i: Iface, l: Ledger)
    requires HistoryInv(i, l) && i.blocked != [] && Resolved(i, i.blocked[0].0)
    ensures HistoryInv(DrainOne(i), RecordFlush(l, [IpFrame(i, i.blocked[0].1, i.cache[i.blocked[0].0])], i.now))
  {
    var f := IpFrame(i, i.blocked[0].1, i.cache[i.blocked[0].0]);
    var id := l.waiting[0];
    var i' := DrainOne(i);
    var l' := l.(waiting := l.waiting[1..], sentIds := l.sentIds + [id],
                 sent := l.sent + [Shipment(f, i.now, LatestNews(l, l.handed[id].0))]);
    assert RecordFlush(l, [f], i.now) == RecordFlush(l', [f][1..], i.now) == l';
    CacheUntouched(i, l, i', l');
    QueuePopped(i, l, i', l');
    RequestsUntouched(i, l, i', l');
    DropsUntouched(l, l');
    ShipmentAdded(i, l, i', l', id);
    FrontMoves(l, l');
    OutSnoc(i.out, f);
    ShipmentSnoc(l.sent, l'.sent[|l.sent|]);
  }

  /** The frames that draining adds. */
  function Drained(i: Iface): seq<Frame>
    decreases |i.blocked|
  {
    if i.blocked == [] || !Resolved(i, i.blocked[0].0) then []
    else [IpFrame(i, i.blocked[0].1, i.cache[i.blocked[0].0])] + Drained(DrainOne(i))
  }

  lemma {:induction false} DrainAdds(i: Iface)
    ensures Drain(i).out == i.out + Drained(i)
    decreases |i.blocked|
  {
    if i.blocked != [] && Resolved(i, i.blocked[0].0) {
      DrainAdds(DrainOne(i));
    }
  }

  lemma {:induction false} FlushSplits(l: Ledger, f: Frame, rest: seq<Frame>, now: nat)
    requires l.waiting != [] && l.waiting[0] < |l.handed|
    ensures RecordFlush(l, [f] + rest, now) == RecordFlush(RecordFlush(l, [f], now), rest, now)
  {
    var id := l.waiting[0];
    var l1 := l.(waiting := l.waiting[1..], sentIds := l.sentIds + [id],
                 sent := l.sent + [Shipment(f, now, LatestNews(l, l.handed[id].0))]);
    assert ([f] + rest)[0] == f && ([f] + rest)[1..] == rest;
    assert RecordFlush(l, [f], now) == RecordFlush(l1, [f][1..], now) == l1;
  }

  lemma {:induction false} DrainKeeps(i: Iface, l: Ledger)
    requires HistoryInv(i, l)
    ensures HistoryInv(Drain(i), RecordFlush(l, Drained(i), i.now))
    decreases |i.blocked|
  {
    if i.blocked != [] && Resolved(i, i.blocked[0].0) {
      var f := IpFrame(i, i.blocked[0].1, i.cache[i.blocked[0].0]);
      DrainOneKeeps(i, l);
      DrainKeeps(DrainOne(i), RecordFlush(l, [f], i.now));
      FlushSplits(l, f, Drained(DrainOne(i)), i.now);
    }
  }

  lemma {:induction false} ReplyIrrelevant(i: Iface, l: Ledger, f: Frame)
    requires HistoryInv(i, l) && !IsRequest(f) && !f.payload.IpPayload?
    ensures HistoryInv(i.(out := i.out + [f]), l)
  {
    var i' := i.(out := i.out + [f]);
    RequestsUntouched(i, l, i', l);
    ShipmentsUntouched(i, l, i', l);
    OutSnoc(i.out, f);
  }

  lemma {:induction false} ReplyAdds(i: Iface, f: Frame)
    requires Announces(i.eth, f) && IsReply(f)
    ensures var i1 := Learn(i, f.payload.arp.senderIp, f.payload.arp.senderEth);
      Next(i, Recv(f)) == Drain(i1) && NewFrames(i, Recv(f)) == Drained(i1)
  {
    var i1 := Learn(i, f.payload.arp.senderIp, f.payload.arp.senderEth);
    DrainAdds(i1);
    assert Drain(i1).out[|i.out|..] == Drained(i1);
  }

  lemma {:induction false} RecvKeeps(i: Iface, l: Ledger, f: Frame)
    requires HistoryInv(i, l)
    ensures HistoryInv(Next(i, Recv(f)), Record(l, i, Recv(f)))
  {
    if Teaches(i, f) {
      var arp := f.payload.arp;
      var i1 := Learn(i, arp.senderIp, arp.senderEth);
      var l1 := l.(learned := l.learned[arp.senderIp := Learned(arp.senderEth, i.now)]);
      LearnKeeps(i, l, arp.senderIp, arp.senderEth);
      if arp.opcode == OPCODE_REPLY {
        DrainKeeps(i1, l1);
        ReplyAdds(i, f);
      } else {
        if arp.targetIp == i.ip {
          ReplyIrrelevant(i1, l1, ReplyFrame(i, arp.senderEth, arp.senderIp));
        }
      }
    }
  }

  predicate AsksForUs(i: Iface, f: Frame) {
    Announces(i.eth, f) && f.payload.arp.opcode == 1 && f.payload.arp.targetIp == i.ip
  }

  lemma {:induction false} DrainedAreCarriers(i: Iface)
    ensures forall k :: 0 <= k < |Drained(i)| ==> Drained(i)[k].payload.IpPayload?
    decreases |i.blocked|
  {
    if i.blocked != [] && Resolved(i, i.blocked[0].0) {
      DrainedAreCarriers(DrainOne(i));
    }
  }

  /** A request for our address is answered once, to the asker and with our addresses;
      no other frame ever makes us send an ARP message. */
  lemma {:induction false} AnswersExactlyRequests(i: Iface, f: Frame)
    ensures AsksForUs(i, f) ==> NewFrames(i, Recv(f)) == [Frame(f.payload.arp.senderEth, i.eth,
      ArpPayload(ArpMessage(2, i.eth, i.ip, f.payload.arp.senderEth, f.payload.arp.senderIp)))]
    ensures !AsksForUs(i, f) ==>
      forall k :: 0 <= k < |NewFrames(i, Recv(f))| ==> NewFrames(i, Recv(f))[k].payload.IpPayload?
  {
    if Teaches(i, f) && f.payload.arp.opcode == OPCODE_REPLY {
      var i1 := Learn(i, f.payload.arp.senderIp, f.payload.arp.senderEth);
      DrainAdds(i1);
      assert NewFrames(i, Recv(f)) == Drained(i1);
      DrainedAreCarriers(i1);
    }
  }

  // ---- tick

  lemma {:induction false} ElapseKeeps(i: Iface, l: Ledger, ms: nat)
    requires HistoryInv(i, l)
    ensures HistoryInv(Next(i, Elapse(ms)), Record(l, i, Elapse(ms)))
  {
    var i' := Tick(i, ms);
    assert CacheOk(i', l) && QueueOk(i', l);
    forall q | q in l.requests
      ensures Accounted(i', l, q)
    {
      assert Accounted(i, l, q);
    }
    assert forall k :: 0 <= k < |l.sent| ==> GoodShipment(i, l, l.sentIds[k], l.sent[k]);
  }

  lemma {:induction false} NextKeeps(i: Iface, l: Ledger, e: Event)
    requires HistoryInv(i, l)
    ensures HistoryInv(Next(i, e), Record(l, i, e))
  {
    match e
    case Send(dgram, hop) =>
      if Resolved(i, hop) {
        SendResolved(i, l, dgram, hop);
      } else if RequestPending(i, hop) {
        SendDropped(i, l, dgram, hop);
      } else {
        SendRequests(i, l, dgram, hop);
      }
    case Recv(f) => RecvKeeps(i, l, f);
    case Elapse(ms) => ElapseKeeps(i, l, ms);
  }

  // ---- runs

  function IfaceAfter(eth: EthernetAddress, ip: IpAddress, events: seq<Event>): Iface {
    if events == [] then NewIface(eth, ip)
    else Next(IfaceAfter(eth, ip, events[..|events| - 1]), events[|events| - 1])
  }

  function LedgerAfter(eth: EthernetAddress, ip: IpAddress, events: seq<Event>): Ledger {
    if events == [] then BLANK
    else
      var before, last := events[..|events| - 1], events[|events| - 1];
      Record(LedgerAfter(eth, ip, before), IfaceAfter(eth, ip, before), last)
  }

  lemma {:induction false} HistoryHolds(eth: EthernetAddress, ip: IpAddress, events: seq<Event>)
    ensures HistoryInv(IfaceAfter(eth, ip, events), LedgerAfter(eth, ip, events))
  {
    if events == [] {
      BlankInv(eth, ip);
    } else {
      var before, last := events[..|events| - 1], events[|events| - 1];
      HistoryHolds(eth, ip, before);
      NextKeeps(IfaceAfter(eth, ip, before), LedgerAfter(eth, ip, before), last);
    }
  }

  /** In every run two broadcast requests for the same address are more than five
      seconds apart; the requests noted are all that left. */
  lemma {:induction false} RequestSpacing(eth: EthernetAddress, ip: IpAddress, events: seq<Event>)
    ensures Asked(IfaceAfter(eth, ip, events).out) == RequestIps(LedgerAfter(eth, ip, events).requests)
    ensures Spaced(LedgerAfter(eth, ip, events).requests)
  {
    HistoryHolds(eth, ip, events);
  }

  /** In every run each datagram handed in was sent once, or waits in order, or was
      dropped within five seconds of a request for its hop; and each frame sent for one
      went to the address last learned for its hop, at most 30 seconds old. */
  lemma {:induction false} CacheRefinesHistory(eth: EthernetAddress, ip: IpAddress, events: seq<Event>)
    ensures IfaceAfter(eth, ip, events).cache.Keys == IfaceAfter(eth, ip, events).expire.Keys
    ensures Conserved(LedgerAfter(eth, ip, events))
    ensures Carriers(IfaceAfter(eth, ip, events).out) == ShipmentFrames(LedgerAfter(eth, ip, events).sent)
    ensures ShipmentsOk(IfaceAfter(eth, ip, events), LedgerAfter(eth, ip, events))
    ensures QueueOk(IfaceAfter(eth, ip, events), LedgerAfter(eth, ip, events))
    ensures DropsOk(LedgerAfter(eth, ip, events))
  {
    HistoryHolds(eth, ip, events);
  }

  // ---- what leaves, told from the notes

  /** The address of `hop` was learned at most 30 seconds ago. */
  predicate Reachable(l: Ledger, hop: IpAddress, now: nat) {
    hop in l.learned && now <= l.learned[hop].time + 30000
  }

  /** A request for `hop` was made at most five seconds ago. */
  ghost predicate AskedLately(l: Ledger, hop: IpAddress, now: nat) {
    exists q :: q in l.requests && q.ip == hop && now <= q.time + 5000
  }

  lemma {:induction false} ReachableIsResolved(i: Iface, l: Ledger, hop: IpAddress)
    requires CacheOk(i, l)
    ensures Resolved(i, hop) <==> Reachable(l, hop, i.now)
    ensures Resolved(i, hop) ==> i.cache[hop] == l.learned[hop].eth
  {
  }

  lemma {:induction false} AskedIsPending(i: Iface, l: Ledger, hop: IpAddress)
    requires CacheOk(i, l) && RequestsOk(i, l) && !Resolved(i, hop)
    ensures RequestPending(i, hop) <==> AskedLately(l, hop, i.now)
  {
    if RequestPending(i, hop) {
      PendingMeansRequested(i, l, hop);
    }
    if AskedLately(l, hop, i.now) {
      var q :| q in l.requests && q.ip == hop && i.now <= q.time + 5000;
      assert Accounted(i, l, q);
    }
  }

  lemma {:induction false} DrainKeepsIdentity(i: Iface)
    ensures Drain(i).eth == i.eth && Drain(i).ip == i.ip && Drain(i).now == i.now
    ensures Drain(i).cache == i.cache && Drain(i).expire == i.expire
    decreases |i.blocked|
  {
    if i.blocked != [] && Resolved(i, i.blocked[0].0) {
      DrainKeepsIdentity(DrainOne(i));
    }
  }

  /** The time that has passed. */
  function Clock(events: seq<Event>): nat {
    if events == [] then 0
    else Clock(events[..|events| - 1]) + match events[|events| - 1] case Elapse(ms) => ms case _ => 0
  }

  /** An interface keeps its addresses, and its clock shows the time that has passed. */
  lemma {:induction false} Identity(eth: EthernetAddress, ip: IpAddress, events: seq<Event>)
    ensures IfaceAfter(eth, ip, events).eth == eth && IfaceAfter(eth, ip, events).ip == ip
    ensures IfaceAfter(eth, ip, events).now == Clock(events)
  {
    if events != [] {
      var before, last := events[..|events| - 1], events[|events| - 1];
      Identity(eth, ip, before);
      var i := IfaceAfter(eth, ip, before);
      match last
      case Recv(f) =>
        if Teaches(i, f) {
          DrainKeepsIdentity(Learn(i, f.payload.arp.senderIp, f.payload.arp.senderEth));
        }
      case _ =>
    }
  }

  /** In every run the notes decide what becomes of a datagram that is handed in: it leaves
      at once for the address last learned for its hop, if that was at most 30 seconds ago;
      otherwise nothing leaves if its hop was asked for at most five seconds ago, and else
      one request is broadcast and it waits behind all others. */
  lemma {:induction false} SendIsDecided(
    eth: EthernetAddress, ip: IpAddress, events: seq<Event>, dgram: Datagram, hop: IpAddress)
    ensures var i, l := IfaceAfter(eth, ip, events), LedgerAfter(eth, ip, events);
      var frames, l' := NewFrames(i, Send(dgram, hop)), Record(l, i, Send(dgram, hop));
      if Reachable(l, hop, i.now) then
        frames == [Frame(l.learned[hop].eth, eth, IpPayload(dgram))] && l'.waiting == l.waiting
      else if AskedLately(l, hop, i.now) then
        frames == [] && l'.waiting == l.waiting
      else
        && frames == [Frame(0xFFFF_FFFF_FFFF, eth, ArpPayload(ArpMessage(1, eth, ip, 0, hop)))]
        && l'.waiting == l.waiting + [|l.handed|]
  {
    var i, l := IfaceAfter(eth, ip, events), LedgerAfter(eth, ip, events);
    HistoryHolds(eth, ip, events);
    Identity(eth, ip, events);
    ReachableIsResolved(i, l, hop);
    if Resolved(i, hop) {
      assert NewFrames(i, Send(dgram, hop)) == [IpFrame(i, dgram, i.cache[hop])];
    } else {
      AskedIsPending(i, l, hop);
      if RequestPending(i, hop) {
        assert NewFrames(i, Send(dgram, hop)) == [];
      } else {
        assert NewFrames(i, Send(dgram, hop)) == [RequestFrame(i, hop)];
      }
    }
  }

  lemma {:induction false} DrainStops(i: Iface)
    ensures Drain(i).blocked == [] || !Resolved(Drain(i), Drain(i).blocked[0].0)
    decreases |i.blocked|
  {
    if i.blocked != [] && Resolved(i, i.blocked[0].0) {
      DrainStops(DrainOne(i));
    }
  }

  /** `l'` is `l` with the first `n` of those that waited shipped at `now`. */
  ghost predicate ShippedFirst(l: Ledger, n: nat, l': Ledger, now: nat) {
    && n <= |l.waiting| && l'.waiting == l.waiting[n..] && l'.handed == l.handed
    && l'.sentIds == l.sentIds + l.waiting[..n]
    && |l'.sent| == |l.sent| + n && l.sent <= l'.sent
    && forall k :: |l.sent| <= k < |l'.sent| ==> l'.sent[k].time == now
  }

  lemma {:induction false} FlushShips(l: Ledger, frames: seq<Frame>, now: nat)
    requires forall k :: 0 <= k < |l.waiting| ==> l.waiting[k] < |l.handed|
    requires |frames| <= |l.waiting|
    ensures ShippedFirst(l, |frames|, RecordFlush(l, frames, now), now)
    ensures RecordFlush(l, frames, now).learned == l.learned
    decreases |frames|
  {
    if frames != [] {
      var id := l.waiting[0];
      var l1 := l.(waiting := l.waiting[1..], sentIds := l.sentIds + [id],
                   sent := l.sent + [Shipment(frames[0], now, LatestNews(l, l.handed[id].0))]);
      FlushShips(l1, frames[1..], now);
      assert [id] + l.waiting[1..][..|frames| - 1] == l.waiting[..|frames|];
    }
  }

  lemma {:induction false} DrainedCount(i: Iface)
    ensures |Drained(i)| + |Drain(i).blocked| == |i.blocked|
    decreases |i.blocked|
  {
    if i.blocked != [] && Resolved(i, i.blocked[0].0) {
      DrainedCount(DrainOne(i));
    }
  }

  /** In every run, when a reply for us comes in, the datagrams that waited are shipped in
      order up to the first whose hop is not reachable then; with the reply counted, either
      nothing waits any more or the one that has waited longest cannot be reached. */
  lemma {:induction false} ReplyFlushes(eth: EthernetAddress, ip: IpAddress, events: seq<Event>, f: Frame)
    requires Announces(eth, f) && IsReply(f)
    ensures var l, l' := LedgerAfter(eth, ip, events), LedgerAfter(eth, ip, events + [Recv(f)]);
      && l'.learned == l.learned[f.payload.arp.senderIp := Learned(f.payload.arp.senderEth, Clock(events))]
      && (exists n: nat :: ShippedFirst(l, n, l', Clock(events)))
      && (l'.waiting == [] ||
            (l'.waiting[0] < |l'.handed| && !Reachable(l', l'.handed[l'.waiting[0]].0, Clock(events))))
  {
    var i, l := IfaceAfter(eth, ip, events), LedgerAfter(eth, ip, events);
    var all := events + [Recv(f)];
    assert all[..|all| - 1] == events;
    var i', l' := IfaceAfter(eth, ip, all), LedgerAfter(eth, ip, all);
    HistoryHolds(eth, ip, events);
    HistoryHolds(eth, ip, all);
    Identity(eth, ip, events);
    var i1 := Learn(i, f.payload.arp.senderIp, f.payload.arp.senderEth);
    var l1 := l.(learned := l.learned[f.payload.arp.senderIp := Learned(f.payload.arp.senderEth, i.now)]);
    ReplyAdds(i, f);
    DrainedCount(i1);
    FlushShips(l1, Drained(i1), i.now);
    assert ShippedFirst(l, |Drained(i1)|, l', Clock(events));
    DrainStops(i1);
    DrainKeepsIdentity(i1);
    if l'.waiting != [] {
      ReachableIsResolved(i', l', l'.handed[l'.waiting[0]].0);
    }
  }

  /** A frame for us that carries a datagram hands exactly that up and changes nothing. */
  lemma {:induction false} HandsUpDatagrams(i: Iface, f: Frame)
    ensures Received(i, f) == None <==> !((f.dst == i.eth || f.dst == 0xFFFF_FFFF_FFFF) && f.payload.IpPayload?)
    ensures Received(i, f).Some? ==> f.payload == IpPayload(Received(i, f).value)
    ensures !Announces(i.eth, f) ==> RecvFrame(i, f) == i
  {
  }
}
