/** The router as an object: a sorted forwarding table and a vector of interfaces. */
module RouterObjects {
  import opened Types
  import opened Ipv4
  import opened NetworkInterfaces
  import opened NetworkInterfaceObjects
  import opened Routers

  /** `interfaces` without what has come in through the first `n`. */
  function Emptied(ifs: seq<AsyncIface>, n: nat): (r: seq<AsyncIface>)
    requires n <= |ifs|
    ensures |r| == |ifs|
    ensures forall k :: 0 <= k < |ifs| ==> r[k] == if k < n then ifs[k].(inbound := []) else ifs[k]
  {
    if n == 0 then ifs else Emptied(ifs, n - 1)[n - 1 := ifs[n - 1].(inbound := [])]
  }

  function Cleared(ifs: seq<AsyncIface>, n: nat): seq<AsyncIface>
    requires n < |ifs|
  {
    ifs[n := ifs[n].(inbound := [])]
  }

  function Popped(ifs: seq<AsyncIface>, n: nat): seq<AsyncIface>
    requires n < |ifs| && ifs[n].inbound != []
  {
    ifs[n := ifs[n].(inbound := ifs[n].inbound[1..])]
  }

  // ---- the table

  lemma {:induction false} InsertKeepsOrder(table: seq<Route>, r: Route, at: nat)
    requires Ordered(table) && at <= |table|
    requires forall k :: 0 <= k < at ==> Before(table[k], r)
    requires at < |table| ==> !Before(table[at], r) && !SameKey(table[at], r)
    ensures Ordered(table[..at] + [r] + table[at..])
    ensures forall x :: x in table ==> !SameKey(x, r)
    ensures forall x :: x in table[..at] + [r] + table[at..] <==> x in table || x == r
  {
    assert forall k :: at <= k < |table| ==> Before(r, table[k]);
    assert table == table[..at] + table[at..];
  }

  // ---- routing and inbound queues do not interfere

  /** The interfaces differ in their inbound queues only. */
  ghost predicate SameIfaces(ifs: seq<AsyncIface>, ifs': seq<AsyncIface>) {
    |ifs| == |ifs'| && forall k :: 0 <= k < |ifs| ==> ifs[k].iface == ifs'[k].iface
  }

  lemma {:induction false} RouteOneFrames(table: seq<Route>, ifs: seq<AsyncIface>, ifs': seq<AsyncIface>, d: Datagram)
    requires PrefixesOk(table) && SameIfaces(ifs, ifs')
    ensures SameIfaces(RouteOne(table, ifs, d), RouteOne(table, ifs', d))
    ensures forall k :: 0 <= k < |ifs| ==> RouteOne(table, ifs, d)[k].inbound == ifs[k].inbound
  {
  }

  lemma {:induction false} RouteAllFrames(table: seq<Route>, ifs: seq<AsyncIface>, ifs': seq<AsyncIface>, ds: seq<Datagram>)
    requires PrefixesOk(table) && SameIfaces(ifs, ifs')
    ensures SameIfaces(RouteAll(table, ifs, ds), RouteAll(table, ifs', ds))
    ensures forall k :: 0 <= k < |ifs| ==> RouteAll(table, ifs, ds)[k].inbound == ifs[k].inbound
    decreases |ds|
  {
    if ds != [] {
      RouteOneFrames(table, ifs, ifs', ds[0]);
      RouteAllFrames(table, RouteOne(table, ifs, ds[0]), RouteOne(table, ifs', ds[0]), ds[1..]);
    }
  }

  lemma {:induction false} RouteAllAppend(table: seq<Route>, ifs: seq<AsyncIface>, a: seq<Datagram>, b: seq<Datagram>)
    requires PrefixesOk(table)
    ensures RouteAll(table, ifs, a + b) == RouteAll(table, RouteAll(table, ifs, a), b)
    decreases |a|
  {
    if a == [] {
      assert a + b == b;
    } else {
      assert (a + b)[1..] == a[1..] + b;
      RouteAllAppend(table, RouteOne(table, ifs, a[0]), a[1..], b);
    }
  }

  lemma {:induction false} RouteAllSnoc(table: seq<Route>, ifs: seq<AsyncIface>, ds: seq<Datagram>, k: nat)
    requires PrefixesOk(table) && k < |ds|
    ensures RouteAll(table, ifs, ds[..k + 1]) == RouteOne(table, RouteAll(table, ifs, ds[..k]), ds[k])
  {
    assert ds[..k + 1] == ds[..k] + [ds[k]];
    RouteAllAppend(table, ifs, ds[..k], [ds[k]]);
    assert [ds[k]][1..] == [];
  }

  lemma {:induction false} ArrivalsSnoc(ifs: seq<AsyncIface>, n: nat)
    requires n < |ifs|
    ensures Arrivals(ifs[..n + 1]) == Arrivals(ifs[..n]) + ifs[n].inbound
    decreases n
  {
    if n == 0 {
      assert ifs[..1][1..] == [] && ifs[..0] == [];
    } else {
      ArrivalsSnoc(ifs[1..], n - 1);
      assert ifs[..n + 1][1..] == ifs[1..][..n] && ifs[..n][1..] == ifs[1..][..n - 1];
    }
  }

  /** Two vectors with the same interfaces and the same inbound queues are equal. */
  lemma {:induction false} SameAll(ifs: seq<AsyncIface>, ifs': seq<AsyncIface>)
    requires SameIfaces(ifs, ifs') && forall k :: 0 <= k < |ifs| ==> ifs[k].inbound == ifs'[k].inbound
    ensures ifs == ifs'
  {
  }

  lemma {:induction false} RouteOneInbound(table: seq<Route>, ifs: seq<AsyncIface>, d: Datagram, n: nat, q: seq<Datagram>)
    requires PrefixesOk(table) && n < |ifs|
    ensures RouteOne(table, ifs, d)[n].inbound == ifs[n].inbound
    ensures RouteOne(table, ifs[n := ifs[n].(inbound := q)], d)
      == RouteOne(table, ifs, d)[n := RouteOne(table, ifs, d)[n].(inbound := q)]
  {
    var ifs' := ifs[n := ifs[n].(inbound := q)];
    var r := RouteOne(table, ifs, d);
    RouteOneFrames(table, ifs, ifs', d);
    RouteOneFrames(table, ifs', ifs, d);
    SameAll(RouteOne(table, ifs', d), r[n := r[n].(inbound := q)]);
  }

  lemma {:induction false} EmptiedFrames(ifs: seq<AsyncIface>, n: nat)
    requires n <= |ifs|
    ensures SameIfaces(Emptied(ifs, n), ifs)
  {
  }

  /** Emptying the first queues and routing some datagrams can change places. */
  lemma {:induction false} RouteEmptied(table: seq<Route>, ifs: seq<AsyncIface>, n: nat, ds: seq<Datagram>)
    requires PrefixesOk(table) && n <= |ifs|
    ensures RouteAll(table, Emptied(ifs, n), ds) == Emptied(RouteAll(table, ifs, ds), n)
  {
    var before := Emptied(ifs, n);
    EmptiedFrames(ifs, n);
    RouteAllFrames(table, before, ifs, ds);
    RouteAllFrames(table, ifs, before, ds);
    SameAll(RouteAll(table, before, ds), Emptied(RouteAll(table, ifs, ds), n));
  }

  lemma {:induction false} ClearNext(ifs: seq<AsyncIface>, n: nat)
    requires n < |ifs|
    ensures Cleared(Emptied(ifs, n), n) == Emptied(ifs, n + 1)
  {
  }

  lemma {:induction false} QueueThenRest(table: seq<Route>, start: seq<AsyncIface>, n: nat, before: seq<AsyncIface>)
    requires PrefixesOk(table) && n < |start|
    requires before == Emptied(RouteAll(table, start, Arrivals(start[..n])), n)
    ensures Cleared(RouteAll(table, before, before[n].inbound), n)
      == Emptied(RouteAll(table, start, Arrivals(start[..n + 1])), n + 1)
  {
    var mid := RouteAll(table, start, Arrivals(start[..n]));
    var q := start[n].inbound;
    RouteAllFrames(table, start, start, Arrivals(start[..n]));
    RouteEmptied(table, mid, n, q);
    ArrivalsSnoc(start, n);
    RouteAllAppend(table, start, Arrivals(start[..n]), q);
    ClearNext(RouteAll(table, mid, q), n);
  }

  lemma {:induction false} RouteOneNowhere(table: seq<Route>, ifs: seq<AsyncIface>, d: Datagram)
    requires PrefixesOk(table) && (d.header.ttl <= 1 || FirstMatch(table, d.header.dst).None?)
    ensures !Throws(table, |ifs|, d) && RouteOne(table, ifs, d) == ifs
  {
  }

  lemma {:induction false} RouteOneAlong(table: seq<Route>, ifs: seq<AsyncIface>, d: Datagram, r: Route)
    requires PrefixesOk(table) && d.header.ttl > 1 && FirstMatch(table, d.header.dst) == Some(r)
    ensures Throws(table, |ifs|, d) <==> r.interfaceNum >= |ifs|
    ensures RouteOne(table, ifs, d) ==
      if r.interfaceNum >= |ifs| then ifs
      else
        var a := ifs[r.interfaceNum];
        ifs[r.interfaceNum := a.(iface := SendDatagram(a.iface, Decremented(d), HopOf(r, d.header.dst)))]
  {
  }

  ghost predicate NoneThrows(table: seq<Route>, interfaces: nat, ds: seq<Datagram>)
    requires PrefixesOk(table)
  {
    forall d :: d in ds ==> !Throws(table, interfaces, d)
  }

  // ---- the two loops

  /** `now` after the first `done` datagrams of the inbound queue of interface `n`. */
  ghost predicate QueueState(table: seq<Route>, start: seq<AsyncIface>, n: nat, done: nat, now: seq<AsyncIface>)
    requires PrefixesOk(table) && n < |start|
  {
    && |now| == |start| && done <= |start[n].inbound|
    && now[n].inbound == start[n].inbound[done..]
    && now[n := now[n].(inbound := start[n].inbound)] == RouteAll(table, start, start[n].inbound[..done])
    && NoneThrows(table, |start|, start[n].inbound[..done])
  }

  lemma {:induction false} QueueStart(table: seq<Route>, start: seq<AsyncIface>, n: nat)
    requires PrefixesOk(table) && n < |start|
    ensures QueueState(table, start, n, 0, start)
  {
    assert start[n := start[n].(inbound := start[n].inbound)] == start;
  }

  lemma {:induction false} QueueStep(table: seq<Route>, start: seq<AsyncIface>, n: nat, done: nat, now: seq<AsyncIface>)
    requires PrefixesOk(table) && n < |start|
    requires QueueState(table, start, n, done, now) && now[n].inbound != []
    requires !Throws(table, |start|, now[n].inbound[0])
    ensures QueueState(table, start, n, done + 1, Popped(RouteOne(table, now, now[n].inbound[0]), n))
  {
    var ds := start[n].inbound;
    RouteOneInbound(table, now, ds[done], n, ds);
    RouteAllSnoc(table, start, ds, done);
  }

  /** `now` after the inbound queues of the first `n` interfaces. */
  ghost predicate AllState(table: seq<Route>, start: seq<AsyncIface>, n: nat, now: seq<AsyncIface>)
    requires PrefixesOk(table) && n <= |start|
  {
    && now == Emptied(RouteAll(table, start, Arrivals(start[..n])), n)
    && NoneThrows(table, |start|, Arrivals(start[..n]))
  }

  /** `ifs` with the front of the inbound queue of interface `n` as a throwing attempt to
      route it leaves it. */
  function Stuck(ifs: seq<AsyncIface>, n: nat): seq<AsyncIface>
    requires n < |ifs| && ifs[n].inbound != [] && ifs[n].inbound[0].header.ttl > 1
  {
    ifs[n := ifs[n].(inbound := [Decremented(ifs[n].inbound[0])] + ifs[n].inbound[1..])]
  }

  /** Routing stopped at datagram `done` of the inbound queue of interface `n`, which could
      not be delivered: everything before it, and nothing after it, has been routed. */
  ghost predicate StoppedAt(table: seq<Route>, start: seq<AsyncIface>, n: nat, done: nat, now: seq<AsyncIface>)
    requires PrefixesOk(table)
  {
    && n < |start| && done < |start[n].inbound|
    && var q, before := start[n].inbound, Arrivals(start[..n]) + start[n].inbound[..done];
       && Throws(table, |start|, q[done]) && NoneThrows(table, |start|, before)
       && var routed := Emptied(RouteAll(table, start, before), n);
          now == routed[n := routed[n].(inbound := [Decremented(q[done])] + q[done + 1..])]
  }

  lemma {:induction false} QueueStops(table: seq<Route>, start: seq<AsyncIface>, n: nat, before: seq<AsyncIface>,
                                      done: nat, now: seq<AsyncIface>)
    requires PrefixesOk(table) && n < |start| && AllState(table, start, n, before)
    requires QueueState(table, before, n, done, now) && now[n].inbound != [] && Throws(table, |start|, now[n].inbound[0])
    ensures StoppedAt(table, start, n, done, Stuck(now, n))
  {
    var arrived, q := Arrivals(start[..n]), start[n].inbound;
    var mid := RouteAll(table, start, arrived);
    RouteAllFrames(table, start, start, arrived);
    assert before[n].inbound == q && now[n].inbound == q[done..];
    RouteEmptied(table, mid, n, q[..done]);
    RouteAllAppend(table, start, arrived, q[..done]);
    RouteAllFrames(table, start, start, arrived + q[..done]);
    assert now[n := now[n].(inbound := q)] == Emptied(RouteAll(table, start, arrived + q[..done]), n);
    assert q[done..][1..] == q[done + 1..];
  }

  lemma {:induction false} QueueEnd(table: seq<Route>, start: seq<AsyncIface>, n: nat, done: nat, now: seq<AsyncIface>)
    requires PrefixesOk(table) && n < |start|
    requires QueueState(table, start, n, done, now) && now[n].inbound == []
    ensures now == Cleared(RouteAll(table, start, start[n].inbound), n)
    ensures NoneThrows(table, |start|, start[n].inbound)
  {
    assert start[n].inbound[..done] == start[n].inbound;
  }

  lemma {:induction false} AllStart(table: seq<Route>, start: seq<AsyncIface>)
    requires PrefixesOk(table)
    ensures AllState(table, start, 0, start)
  {
    assert start[..0] == [];
  }

  lemma {:induction false} AllStep(table: seq<Route>, start: seq<AsyncIface>, n: nat, now: seq<AsyncIface>)
    requires PrefixesOk(table) && n < |start| && AllState(table, start, n, now)
    requires NoneThrows(table, |start|, now[n].inbound)
    ensures AllState(table, start, n + 1, Cleared(RouteAll(table, now, now[n].inbound), n))
  {
    RouteAllFrames(table, start, start, Arrivals(start[..n]));
    QueueThenRest(table, start, n, now);
    ArrivalsSnoc(start, n);
  }

  /** Everything that had arrived has been routed, and every queue is empty. */
  ghost predicate AllRouted(table: seq<Route>, start: seq<AsyncIface>, now: seq<AsyncIface>)
    requires PrefixesOk(table)
  {
    && NoneThrows(table, |start|, Arrivals(start))
    && now == Emptied(RouteAll(table, start, Arrivals(start)), |start|)
  }

  lemma {:induction false} AllEnd(table: seq<Route>, start: seq<AsyncIface>, now: seq<AsyncIface>)
    requires PrefixesOk(table) && AllState(table, start, |start|, now)
    ensures AllRouted(table, start, now)
  {
    assert start[..|start|] == start;
  }

  /** What `route()` does with each arrival, when it comes to its end: every inbound queue is
      empty, and each arrival that can be routed was given, in its turn and with its TTL one
      lower, to the interface of the longest prefix that agrees; all other interfaces are as
      if it had not come, and so are all of them for an arrival that cannot be routed. */
  lemma {:induction false} EachArrivalOnce(table: seq<Route>, start: seq<AsyncIface>, end: seq<AsyncIface>, j: nat)
    requires Ordered(table) && PrefixesOk(table) && AllRouted(table, start, end)
    requires j < |Arrivals(start)| && Arrivals(start)[j].header.dst < TWO32
    ensures |end| == |start| && forall n :: 0 <= n < |start| ==> end[n].inbound == []
    ensures var ds := Arrivals(start);
      && (Routable(table, ds[j]) ==> exists r, hop, dgram ::
            && LongestMatch(table, ds[j].header.dst, r) && r.interfaceNum < |start|
            && GivenTo(table, start, ds, j, end, r, hop, dgram))
      && (!Routable(table, ds[j]) ==> forall n: nat :: n < |start| ==> AsIfWithout(table, start, ds, j, end, n))
  {
    RoutedOnce(table, start, Arrivals(start), j, end);
  }

  /** An interface that keeps the datagrams it receives until its owner takes them. */
  class AsyncNetworkInterface {
    const nic: NetworkInterface
    var datagramsOut: seq<Datagram>

    constructor (nic: NetworkInterface)
      ensures this.nic == nic && Model() == AsyncIface(nic.Model(), [])
    {
      this.nic := nic;
      datagramsOut := [];
    }

    ghost function Model(): AsyncIface
      reads this, nic
    {
      AsyncIface(nic.Model(), datagramsOut)
    }

    method RecvFrame(frame: Frame)
      modifies this, nic
      ensures Model() == AsyncRecv(old(Model()), frame)
    {
      var dgram := nic.RecvFrame(frame);
      if dgram.Some? {
        datagramsOut := datagramsOut + [dgram.value];
      }
    }
  }

  ghost predicate Separate(ifs: seq<AsyncNetworkInterface>, j: nat, k: nat)
    requires j < |ifs| && k < |ifs|
  {
    ifs[j] != ifs[k] && ifs[j].nic != ifs[k].nic
  }

  /** No two interfaces share anything. */
  ghost predicate Apart(ifs: seq<AsyncNetworkInterface>) {
    forall j: nat, k: nat :: j < k < |ifs| ==> Separate(ifs, j, k)
  }

  ghost function Nics(ifs: seq<AsyncNetworkInterface>): set<NetworkInterface> {
    set i | i in ifs :: i.nic
  }

  lemma {:induction false} ApartFrom(ifs: seq<AsyncNetworkInterface>, n: nat)
    requires Apart(ifs) && n < |ifs|
    ensures ifs[n].nic in Nics(ifs)
    ensures forall k :: 0 <= k < |ifs| && k != n ==> ifs[k] != ifs[n] && ifs[k].nic != ifs[n].nic
  {
    forall k | 0 <= k < |ifs| && k != n
      ensures ifs[k] != ifs[n] && ifs[k].nic != ifs[n].nic
    {
      assert if k < n then Separate(ifs, k, n) else Separate(ifs, n, k);
    }
  }

  ghost function ModelsOf(ifs: seq<AsyncNetworkInterface>): (r: seq<AsyncIface>)
    reads ifs, Nics(ifs)
    ensures |r| == |ifs|
  {
    if ifs == [] then [] else ModelsOf(ifs[..|ifs| - 1]) + [ifs[|ifs| - 1].Model()]
  }

  lemma {:induction false} ModelsAt(ifs: seq<AsyncNetworkInterface>)
    ensures forall k :: 0 <= k < |ifs| ==> ModelsOf(ifs)[k] == ifs[k].Model()
  {
    if ifs != [] {
      ModelsAt(ifs[..|ifs| - 1]);
    }
  }

  class Router {
    var interfaces: seq<AsyncNetworkInterface>
    var forwardingTable: seq<Route>

    constructor ()
      ensures Valid() && interfaces == [] && forwardingTable == []
    {
      interfaces, forwardingTable := [], [];
    }

    ghost predicate Valid()
      reads this
    {
      Apart(interfaces) && Ordered(forwardingTable)
    }

    ghost function Models(): (r: seq<AsyncIface>)
      reads this, interfaces, Nics(interfaces)
      ensures |r| == |interfaces|
    {
      ModelsOf(interfaces)
    }

    method AddInterface(i: AsyncNetworkInterface) returns (n: nat)
      requires Valid() && i !in interfaces && i.nic !in Nics(interfaces)
      modifies `interfaces
      ensures Valid()
      ensures interfaces == old(interfaces) + [i] && n == |old(interfaces)|
      ensures Models() == old(Models()) + [i.Model()]
    {
      ghost var before := interfaces;
      interfaces := interfaces + [i];
      n := |interfaces| - 1;
      assert interfaces[..n] == before;
      forall j: nat, k: nat | j < k < |interfaces|
        ensures Separate(interfaces, j, k)
      {
        assert interfaces[j].nic in Nics(before);
        assert k < n ==> Separate(before, j, k);
      }
    }

    /** A frame comes in through interface `n`; a datagram for us joins its inbound queue. */
    method ReceiveFrame(n: nat, frame: Frame)
      requires Valid() && n < |interfaces|
      modifies interfaces, Nics(interfaces)
      ensures Valid() && interfaces == old(interfaces) && forwardingTable == old(forwardingTable)
      ensures Models() == old(Models())[n := AsyncRecv(old(Models())[n], frame)]
      ensures Models()[n].inbound == old(Models())[n].inbound
        + if ForUs(old(Models())[n].iface, frame) && frame.payload.IpPayload? then [frame.payload.dgram] else []
    {
      ApartFrom(interfaces, n);
      ModelsAt(interfaces);
      interfaces[n].RecvFrame(frame);
      ModelsAt(interfaces);
    }

    /** A route whose key is new is put in its place; a second one for a key is ignored. */
    method AddRoute(prefix: U32, prefixLength: nat, nextHop: Option<IpAddress>, interfaceNum: nat)
      requires Valid()
      modifies `forwardingTable
      ensures Valid()
      ensures var r := Route(prefixLength, prefix, interfaceNum, nextHop);
        if exists x :: x in old(forwardingTable) && SameKey(x, r)
        then forwardingTable == old(forwardingTable)
        else forall x :: x in forwardingTable <==> x in old(forwardingTable) || x == r
      ensures old(PrefixesOk(forwardingTable)) && prefixLength <= 32 ==> PrefixesOk(forwardingTable)
    {
      var r := Route(prefixLength, prefix, interfaceNum, nextHop);
      var at := 0;
      while at < |forwardingTable| && Before(forwardingTable[at], r)
        invariant 0 <= at <= |forwardingTable|
        invariant forall k :: 0 <= k < at ==> Before(forwardingTable[k], r)
      {
        at := at + 1;
      }
      if at < |forwardingTable| && SameKey(forwardingTable[at], r) {
        return;
      }
      InsertKeepsOrder(forwardingTable, r, at);
      forwardingTable := forwardingTable[..at] + [r] + forwardingTable[at..];
    }

    /** Interface `n` sends a datagram. */
    method SendVia(n: nat, dgram: Datagram, hop: IpAddress)
      requires Valid() && n < |interfaces|
      modifies Nics(interfaces)
      ensures Valid()
      ensures var a := old(Models())[n];
        Models() == old(Models())[n := a.(iface := SendDatagram(a.iface, dgram, hop))]
    {
      ApartFrom(interfaces, n);
      ModelsAt(interfaces);
      interfaces[n].nic.SendDatagram(dgram, hop);
      ModelsAt(interfaces);
    }

    /** `left` is the datagram as this leaves it; `ok` is false where the source throws. */
    method RouteOneDatagram(dgram: Datagram) returns (ok: bool, left: Datagram)
      requires Valid() && PrefixesOk(forwardingTable)
      modifies Nics(interfaces)
      ensures Valid()
      ensures ok <==> !Throws(forwardingTable, |interfaces|, dgram)
      ensures left == if dgram.header.ttl > 1 then Decremented(dgram) else dgram
      ensures Models() == RouteOne(forwardingTable, old(Models()), dgram)
    {
      if dgram.header.ttl <= 1 {
        RouteOneNowhere(forwardingTable, Models(), dgram);
        return true, dgram;
      }
      left := dgram.(header := dgram.header.(ttl := dgram.header.ttl - 1));
      var it := FindRoute(left.header.dst);
      if it.None? {
        RouteOneNowhere(forwardingTable, Models(), dgram);
        return true, left;
      }
      RouteOneAlong(forwardingTable, Models(), dgram, it.value);
      if it.value.interfaceNum >= |interfaces| {
        return false, left;
      }
      SendVia(it.value.interfaceNum, left, HopOf(it.value, left.header.dst));
      ok := true;
    }

    method FindRoute(dst: nat) returns (r: Option<Route>)
      requires Valid() && PrefixesOk(forwardingTable)
      ensures r == FirstMatch(forwardingTable, dst)
    {
      var k := 0;
      while k < |forwardingTable|
        invariant 0 <= k <= |forwardingTable|
        invariant FirstMatch(forwardingTable, dst) == FirstMatch(forwardingTable[k..], dst)
      {
        if Matches(forwardingTable[k], dst) {
          return Some(forwardingTable[k]);
        }
        assert forwardingTable[k..][1..] == forwardingTable[k + 1..];
        k := k + 1;
      }
      return None;
    }

    method SetInbound(n: nat, q: seq<Datagram>)
      requires Valid() && n < |interfaces|
      modifies interfaces
      ensures Valid() && interfaces == old(interfaces) && forwardingTable == old(forwardingTable)
      ensures Models() == old(Models())[n := old(Models())[n].(inbound := q)]
    {
      ApartFrom(interfaces, n);
      ModelsAt(interfaces);
      interfaces[n].datagramsOut := q;
      ModelsAt(interfaces);
    }

    /** Routes the datagram at the front of the inbound queue of interface `n`. */
    method RouteFront(n: nat) returns (ok: bool)
      requires Valid() && PrefixesOk(forwardingTable) && n < |interfaces| && Models()[n].inbound != []
      modifies interfaces, Nics(interfaces)
      ensures Valid() && interfaces == old(interfaces) && forwardingTable == old(forwardingTable)
      ensures ok <==> !Throws(forwardingTable, |interfaces|, old(Models())[n].inbound[0])
      ensures Models() == if ok then Popped(RouteOne(forwardingTable, old(Models()), old(Models())[n].inbound[0]), n)
                          else Stuck(old(Models()), n)
    {
      ghost var before := Models();
      ModelsAt(interfaces);
      var q := interfaces[n].datagramsOut;
      RouteOneInbound(forwardingTable, before, q[0], n, []);
      var left;
      ok, left := RouteOneDatagram(q[0]);
      SetInbound(n, if ok then q[1..] else [left] + q[1..]);
    }

    /** Routes the inbound queue of interface `n`, of which `done` leave it. */
    method RouteQueue(n: nat, ghost start: seq<AsyncIface>) returns (ok: bool, ghost done: nat)
      requires Valid() && PrefixesOk(forwardingTable) && n < |interfaces| == |start|
      requires AllState(forwardingTable, start, n, Models())
      modifies interfaces, Nics(interfaces)
      ensures Valid() && interfaces == old(interfaces) && forwardingTable == old(forwardingTable)
      ensures ok ==> AllState(forwardingTable, start, n + 1, Models())
      ensures !ok ==> StoppedAt(forwardingTable, start, n, done, Models())
    {
      ghost var before := Models();
      done := 0;
      QueueStart(forwardingTable, before, n);
      ModelsAt(interfaces);
      while interfaces[n].datagramsOut != []
        invariant QueueState(forwardingTable, before, n, done, Models())
        invariant Models()[n].inbound == interfaces[n].datagramsOut
        decreases |before[n].inbound| - done
      {
        ghost var now := Models();
        ok := RouteFront(n);
        if !ok {
          QueueStops(forwardingTable, start, n, before, done, now);
          return;
        }
        QueueStep(forwardingTable, before, n, done, now);
        ModelsAt(interfaces);
        done := done + 1;
      }
      QueueEnd(forwardingTable, before, n, done, Models());
      AllStep(forwardingTable, start, n, before);
      ok := true;
    }

    /** Empties every inbound queue, interface after interface, unless a datagram matches a
        route to an interface that was never added: `n` and `done` say which. */
    method RouteArrivals() returns (ok: bool, ghost n: nat, ghost done: nat)
      requires Valid() && PrefixesOk(forwardingTable)
      modifies interfaces, Nics(interfaces)
      ensures Valid() && interfaces == old(interfaces) && forwardingTable == old(forwardingTable)
      ensures ok ==> AllRouted(forwardingTable, old(Models()), Models())
      ensures !ok ==> StoppedAt(forwardingTable, old(Models()), n, done, Models())
    {
      ghost var start := Models();
      var i := 0;
      done := 0;
      AllStart(forwardingTable, start);
      while i < |interfaces|
        invariant 0 <= i <= |interfaces|
        invariant AllState(forwardingTable, start, i, Models())
      {
        n := i;
        ok, done := RouteQueue(i, start);
        if !ok {
          return;
        }
        i := i + 1;
      }
      AllEnd(forwardingTable, start, Models());
      ok, n := true, i;
    }
  }
}
