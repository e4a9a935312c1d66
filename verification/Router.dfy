/** Longest-prefix forwarding between network interfaces (section 5.2.4.3 of RFC 1812). */
module Routers {
  import opened Types
  import opened Ipv4
  import opened NetworkInterfaces

  datatype Route = Route(prefixLength: nat, prefix: U32, interfaceNum: nat, nextHop: Option<IpAddress>)

  /** The table order: longer prefixes first, then greater prefixes. */
  predicate Before(x: Route, y: Route) {
    if x.prefixLength != y.prefixLength then x.prefixLength > y.prefixLength else x.prefix > y.prefix
  }

  predicate SameKey(x: Route, y: Route) {
    x.prefixLength == y.prefixLength && x.prefix == y.prefix
  }

  ghost predicate Ordered(table: seq<Route>) {
    forall j, k :: 0 <= j < k < |table| ==> Before(table[j], table[k])
  }

  // ---- matching

  function Shr(x: nat, p: nat): nat
    decreases p
  {
    if p == 0 then x else Shr(x / 2, p - 1)
  }

  function Shl(x: nat, p: nat): nat
    decreases p
  {
    if p == 0 then x else Shl(2 * x, p - 1)
  }

  /** `x` with its low `p` bits cleared: what `x & (0xffffffff << p)` leaves of 32 bits. */
  function HighBits(x: nat, p: nat): nat {
    Shl(Shr(x, p), p)
  }

  predicate Matches(r: Route, dst: nat)
    requires r.prefixLength <= 32
  {
    var postfixLength := 32 - r.prefixLength;
    if postfixLength == 32 then true
    else if postfixLength == 0 then r.prefix == dst
    else HighBits(r.prefix, postfixLength) == HighBits(dst, postfixLength)
  }

  function Bit(x: nat, k: nat): nat {
    Shr(x, k) % 2
  }

  /** The first `n` of 32 bits agree. */
  ghost predicate PrefixAgrees(x: nat, y: nat, n: nat) {
    forall k: nat :: 32 - n <= k < 32 ==> Bit(x, k) == Bit(y, k)
  }

  lemma {:induction false} ShrStep(x: nat, k: nat)
    ensures Shr(x, k + 1) == Shr(x, k) / 2
    decreases k
  {
    if k > 0 {
      ShrStep(x / 2, k - 1);
    }
  }

  lemma {:induction false} ShrVanishes(x: nat, p: nat)
    requires x < Pow2(p)
    ensures Shr(x, p) == 0
    decreases p
  {
    if p > 0 {
      ShrVanishes(x / 2, p - 1);
    }
  }

  lemma {:induction false} ShlInjective(x: nat, y: nat, p: nat)
    ensures Shl(x, p) == Shl(y, p) <==> x == y
    decreases p
  {
    if p > 0 {
      ShlInjective(2 * x, 2 * y, p - 1);
    }
  }

  lemma {:induction false} ShiftsAgree(x: nat, y: nat, p: nat)
    requires p <= 32 && x < Pow2(32) && y < Pow2(32)
    ensures Shr(x, p) == Shr(y, p) <==> PrefixAgrees(x, y, 32 - p)
    decreases 32 - p
  {
    if p == 32 {
      ShrVanishes(x, 32);
      ShrVanishes(y, 32);
    } else {
      ShrStep(x, p);
      ShrStep(y, p);
      ShiftsAgree(x, y, p + 1);
      assert PrefixAgrees(x, y, 32 - p) <==> Bit(x, p) == Bit(y, p) && PrefixAgrees(x, y, 32 - (p + 1));
    }
  }

  lemma {:induction false} Pow2Of32()
    ensures Pow2(32) == TWO32
  {
    assert Pow2(4) == 16;
    assert Pow2(8) == 16 * Pow2(4);
    assert Pow2(12) == 16 * Pow2(8);
    assert Pow2(16) == 16 * Pow2(12);
    assert Pow2(20) == 16 * Pow2(16);
    assert Pow2(24) == 16 * Pow2(20);
    assert Pow2(28) == 16 * Pow2(24);
    assert Pow2(32) == 16 * Pow2(28);
  }

  /** The masks of the code select exactly the routes whose prefix bits agree. */
  lemma {:induction false} MatchesIsPrefix(r: Route, dst: nat)
    requires r.prefixLength <= 32 && dst < TWO32
    ensures Matches(r, dst) <==> PrefixAgrees(r.prefix, dst, r.prefixLength)
  {
    var p := 32 - r.prefixLength;
    Pow2Of32();
    ShiftsAgree(r.prefix, dst, p);
    ShlInjective(Shr(r.prefix, p), Shr(dst, p), p);
  }

  // ---- the table

  /** Longer prefixes make the shift of the mask undefined. */
  predicate PrefixesOk(table: seq<Route>) {
    forall k :: 0 <= k < |table| ==> table[k].prefixLength <= 32
  }

  /** `find_if` over the table. */
  function FirstMatch(table: seq<Route>, dst: nat): (r: Option<Route>)
    requires PrefixesOk(table)
  {
    if table == [] then None
    else if Matches(table[0], dst) then Some(table[0])
    else FirstMatch(table[1..], dst)
  }

  /** `r` is a matching route with the longest prefix. */
  ghost predicate LongestMatch(table: seq<Route>, dst: nat, r: Route) {
    && r in table && PrefixAgrees(r.prefix, dst, r.prefixLength)
    && forall x :: x in table && PrefixAgrees(x.prefix, dst, x.prefixLength) ==> x.prefixLength <= r.prefixLength
  }

  /** A route is found exactly when some prefix agrees, and it is the longest one. */
  lemma {:induction false} FirstMatchIsLongest(table: seq<Route>, dst: nat)
    requires Ordered(table) && PrefixesOk(table) && dst < TWO32
    ensures FirstMatch(table, dst).None? <==>
      forall x :: x in table ==> !PrefixAgrees(x.prefix, dst, x.prefixLength)
    ensures FirstMatch(table, dst).Some? ==> LongestMatch(table, dst, FirstMatch(table, dst).value)
    decreases |table|
  {
    if table != [] {
      var tail := table[1..];
      MatchesIsPrefix(table[0], dst);
      FirstMatchIsLongest(tail, dst);
      assert forall x :: x in table <==> x == table[0] || x in tail;
      assert forall x :: x in tail ==> x.prefixLength <= table[0].prefixLength;
    }
  }

  // ---- forwarding

  /** An interface and the datagrams that have come in through it. */
  datatype AsyncIface = AsyncIface(iface: Iface, inbound: seq<Datagram>)

  function AsyncRecv(a: AsyncIface, f: Frame): AsyncIface {
    var got := Received(a.iface, f);
    AsyncIface(RecvFrame(a.iface, f), if got.Some? then a.inbound + [got.value] else a.inbound)
  }

  /** One datagram given to one interface for one next hop. */
  datatype Handoff = Handoff(interfaceNum: nat, hop: IpAddress, dgram: Datagram)

  function Decremented(d: Datagram): Datagram
    requires d.header.ttl > 1
  {
    d.(header := d.header.(ttl := d.header.ttl - 1))
  }

  function HopOf(r: Route, dst: IpAddress): IpAddress {
    if r.nextHop.Some? then r.nextHop.value else dst
  }

  function Decide(table: seq<Route>, d: Datagram): Option<Handoff>
    requires PrefixesOk(table)
  {
    if d.header.ttl <= 1 then None
    else
      match FirstMatch(table, d.header.dst)
      case None => None
      case Some(r) =>
        Some(Handoff(r.interfaceNum, HopOf(r, d.header.dst), Decremented(d)))
  }

  /** The route leads to an interface that was never added: the source throws. */
  predicate Throws(table: seq<Route>, interfaces: nat, d: Datagram)
    requires PrefixesOk(table)
  {
    Decide(table, d).Some? && Decide(table, d).value.interfaceNum >= interfaces
  }

  function RouteOne(table: seq<Route>, ifs: seq<AsyncIface>, d: Datagram): (r: seq<AsyncIface>)
    requires PrefixesOk(table)
    ensures |r| == |ifs|
  {
    match Decide(table, d)
    case None => ifs
    case Some(h) =>
      if h.interfaceNum >= |ifs| then ifs
      else
        var a := ifs[h.interfaceNum];
        ifs[h.interfaceNum := a.(iface := SendDatagram(a.iface, h.dgram, h.hop))]
  }

  function RouteAll(table: seq<Route>, ifs: seq<AsyncIface>, ds: seq<Datagram>): (r: seq<AsyncIface>)
    requires PrefixesOk(table)
    ensures |r| == |ifs|
    decreases |ds|
  {
    if ds == [] then ifs else RouteAll(table, RouteOne(table, ifs, ds[0]), ds[1..])
  }

  /** All inbound queues, one interface after the other. */
  function Arrivals(ifs: seq<AsyncIface>): seq<Datagram> {
    if ifs == [] then [] else ifs[0].inbound + Arrivals(ifs[1..])
  }

  /** Everything decided for `ds`, in order. */
  function Handoffs(table: seq<Route>, ds: seq<Datagram>): seq<Handoff>
    requires PrefixesOk(table)
  {
    if ds == [] then []
    else
      (match Decide(table, ds[0]) case None => [] case Some(h) => [h]) + Handoffs(table, ds[1..])
  }

  /** Those of them that go to interface `n`. */
  function For(hs: seq<Handoff>, n: nat): seq<Handoff> {
    if hs == [] then []
    else (if hs[0].interfaceNum == n then [hs[0]] else []) + For(hs[1..], n)
  }

  function SendEach(i: Iface, hs: seq<Handoff>): Iface
    decreases |hs|
  {
    if hs == [] then i else SendEach(SendDatagram(i, hs[0].dgram, hs[0].hop), hs[1..])
  }

  lemma {:induction false} ForCons(h: Handoff, rest: seq<Handoff>, n: nat)
    ensures For([h] + rest, n) == (if h.interfaceNum == n then [h] else []) + For(rest, n)
  {
    assert ([h] + rest)[1..] == rest;
  }

  /** Each interface sends exactly the handoffs meant for it, in order, and no inbound
      queue is touched. */
  lemma {:induction false} RouteAllPerInterface(table: seq<Route>, ifs: seq<AsyncIface>, ds: seq<Datagram>, n: nat)
    requires PrefixesOk(table) && n < |ifs|
    ensures RouteAll(table, ifs, ds)[n].iface == SendEach(ifs[n].iface, For(Handoffs(table, ds), n))
    ensures RouteAll(table, ifs, ds)[n].inbound == ifs[n].inbound
    decreases |ds|
  {
    if ds != [] {
      var ifs1 := RouteOne(table, ifs, ds[0]);
      var rest := Handoffs(table, ds[1..]);
      RouteAllPerInterface(table, ifs1, ds[1..], n);
      match Decide(table, ds[0])
      case None =>
        assert Handoffs(table, ds) == rest;
      case Some(h) =>
        assert Handoffs(table, ds) == [h] + rest;
        ForCons(h, rest, n);
        if h.interfaceNum == n {
          assert ([h] + For(rest, n))[1..] == For(rest, n);
        } else {
          assert For([h] + rest, n) == For(rest, n);
        }
    }
  }

  predicate Routable(table: seq<Route>, d: Datagram)
    requires PrefixesOk(table)
  {
    d.header.ttl > 1 && FirstMatch(table, d.header.dst).Some?
  }

  lemma {:induction false} ForAppend(a: seq<Handoff>, b: seq<Handoff>, n: nat)
    ensures For(a + b, n) == For(a, n) + For(b, n)
  {
    if a == [] {
      assert a + b == b;
    } else {
      assert a + b == [a[0]] + (a[1..] + b) && a == [a[0]] + a[1..];
      ForCons(a[0], a[1..] + b, n);
      ForCons(a[0], a[1..], n);
      ForAppend(a[1..], b, n);
    }
  }

  lemma {:induction false} HandoffsAppend(table: seq<Route>, a: seq<Datagram>, b: seq<Datagram>)
    requires PrefixesOk(table)
    ensures Handoffs(table, a + b) == Handoffs(table, a) + Handoffs(table, b)
  {
    if a == [] {
      assert a + b == b;
    } else {
      assert (a + b)[1..] == a[1..] + b;
      HandoffsAppend(table, a[1..], b);
    }
  }

  /** What datagram `d` adds to the handoffs of interface `n`. */
  function Share(table: seq<Route>, d: Datagram, n: nat): seq<Handoff>
    requires PrefixesOk(table)
  {
    match Decide(table, d)
    case None => []
    case Some(h) => if h.interfaceNum == n then [h] else []
  }

  lemma {:induction false} ShareFirst(table: seq<Route>, ds: seq<Datagram>, n: nat)
    requires PrefixesOk(table) && ds != []
    ensures For(Handoffs(table, ds), n) == Share(table, ds[0], n) + For(Handoffs(table, ds[1..]), n)
  {
    match Decide(table, ds[0])
    case None => assert Handoffs(table, ds) == Handoffs(table, ds[1..]);
    case Some(h) => ForCons(h, Handoffs(table, ds[1..]), n);
  }

  /** The handoffs of an interface are the shares of the datagrams, in order: those before
      `ds[j]`, its own, and those after it. */
  lemma {:induction false} SharesInOrder(table: seq<Route>, ds: seq<Datagram>, j: nat, n: nat)
    requires PrefixesOk(table) && j < |ds|
    ensures For(Handoffs(table, ds), n)
      == For(Handoffs(table, ds[..j]), n) + Share(table, ds[j], n) + For(Handoffs(table, ds[j + 1..]), n)
  {
    assert ds == ds[..j] + ds[j..] && ds[j..][1..] == ds[j + 1..];
    HandoffsAppend(table, ds[..j], ds[j..]);
    ForAppend(Handoffs(table, ds[..j]), Handoffs(table, ds[j..]), n);
    ShareFirst(table, ds[j..], n);
  }

  /** The next hop that a route gives a datagram for `dst`: the gateway if it has one, and
      else the destination itself. */
  predicate LeadsTo(r: Route, dst: IpAddress, hop: IpAddress) {
    match r.nextHop
    case Some(gateway) => hop == gateway
    case None => hop == dst
  }

  /** `d'` is `d` one hop further. */
  predicate OneHopOlder(d: Datagram, d': Datagram) {
    d.header.ttl == d'.header.ttl + 1 && d' == Datagram(d.header.(ttl := d'.header.ttl), d.payload)
  }

  /** Interface `n` is handed the datagram once, one hop older, for the hop that route `r`
      leads to. */
  ghost predicate HandedBy(table: seq<Route>, d: Datagram, n: nat, r: Route)
    requires PrefixesOk(table)
  {
    && n == r.interfaceNum && |Share(table, d, n)| == 1
    && var h := Share(table, d, n)[0];
       h.interfaceNum == n && LeadsTo(r, d.header.dst, h.hop) && OneHopOlder(d, h.dgram)
  }

  /** A datagram with TTL above 1 that some prefix agrees with is handed to exactly one
      interface, once, by the route with the longest such prefix; any other datagram is
      handed to none. */
  lemma {:induction false} HandedOnce(table: seq<Route>, d: Datagram)
    requires Ordered(table) && PrefixesOk(table) && d.header.dst < TWO32
    ensures Routable(table, d) <==>
      d.header.ttl > 1 && exists x :: x in table && PrefixAgrees(x.prefix, d.header.dst, x.prefixLength)
    ensures Routable(table, d) ==> exists n: nat, r ::
      && LongestMatch(table, d.header.dst, r) && HandedBy(table, d, n, r)
      && forall m: nat :: m != n ==> Share(table, d, m) == []
    ensures !Routable(table, d) ==> forall n: nat :: Share(table, d, n) == []
  {
    FirstMatchIsLongest(table, d.header.dst);
    if Routable(table, d) {
      var r := FirstMatch(table, d.header.dst).value;
      assert HandedBy(table, d, r.interfaceNum, r);
    }
  }

  // ---- what becomes of each datagram

  lemma {:induction false} SendEachAppend(i: Iface, a: seq<Handoff>, b: seq<Handoff>)
    ensures SendEach(i, a + b) == SendEach(SendEach(i, a), b)
    decreases |a|
  {
    if a == [] {
      assert a + b == b;
    } else {
      assert (a + b)[1..] == a[1..] + b;
      SendEachAppend(SendDatagram(i, a[0].dgram, a[0].hop), a[1..], b);
    }
  }

  function Less(ds: seq<Datagram>, j: nat): seq<Datagram>
    requires j < |ds|
  {
    ds[..j] + ds[j + 1..]
  }

  /** In `end`, interface `n` is as if `ds[j]` had not come. */
  ghost predicate AsIfWithout(table: seq<Route>, ifs: seq<AsyncIface>, ds: seq<Datagram>, j: nat,
                              end: seq<AsyncIface>, n: nat)
    requires PrefixesOk(table) && j < |ds| && n < |ifs| == |end|
  {
    end[n].iface == SendEach(ifs[n].iface, For(Handoffs(table, Less(ds, j)), n))
  }

  /** In `end`, the interface of `r` has been given `ds[j]`, one hop older and for the hop
      that `r` leads to, after all that came for it before and before all that came after;
      the others are as if it had not come. */
  ghost predicate GivenTo(table: seq<Route>, ifs: seq<AsyncIface>, ds: seq<Datagram>, j: nat,
                          end: seq<AsyncIface>, r: Route, hop: IpAddress, dgram: Datagram)
    requires PrefixesOk(table) && j < |ds| && r.interfaceNum < |ifs| == |end|
  {
    var n := r.interfaceNum;
    && LeadsTo(r, ds[j].header.dst, hop) && OneHopOlder(ds[j], dgram)
    && (var before := SendEach(ifs[n].iface, For(Handoffs(table, ds[..j]), n));
        end[n].iface == SendEach(SendDatagram(before, dgram, hop), For(Handoffs(table, ds[j + 1..]), n)))
    && forall m: nat :: m < |ifs| && m != n ==> AsIfWithout(table, ifs, ds, j, end, m)
  }

  lemma {:induction false} NoShare(table: seq<Route>, ifs: seq<AsyncIface>, ds: seq<Datagram>, j: nat,
                                   end: seq<AsyncIface>, n: nat)
    requires PrefixesOk(table) && j < |ds| && n < |ifs| == |end| && Share(table, ds[j], n) == []
    requires end[n].iface == RouteAll(table, ifs, ds)[n].iface
    ensures AsIfWithout(table, ifs, ds, j, end, n)
  {
    RouteAllPerInterface(table, ifs, ds, n);
    SharesInOrder(table, ds, j, n);
    HandoffsAppend(table, ds[..j], ds[j + 1..]);
    ForAppend(Handoffs(table, ds[..j]), Handoffs(table, ds[j + 1..]), n);
    var a, c := For(Handoffs(table, ds[..j]), n), For(Handoffs(table, ds[j + 1..]), n);
    assert a + [] + c == a + c;
  }

  lemma {:induction false} OneShare(table: seq<Route>, ifs: seq<AsyncIface>, ds: seq<Datagram>, j: nat,
                                    end: seq<AsyncIface>, h: Handoff)
    requires PrefixesOk(table) && j < |ds| && h.interfaceNum < |ifs| == |end|
    requires Share(table, ds[j], h.interfaceNum) == [h]
    requires end[h.interfaceNum].iface == RouteAll(table, ifs, ds)[h.interfaceNum].iface
    ensures var n := h.interfaceNum;
      var before := SendEach(ifs[n].iface, For(Handoffs(table, ds[..j]), n));
      end[n].iface == SendEach(SendDatagram(before, h.dgram, h.hop), For(Handoffs(table, ds[j + 1..]), n))
  {
    var n := h.interfaceNum;
    var a, c := For(Handoffs(table, ds[..j]), n), For(Handoffs(table, ds[j + 1..]), n);
    RouteAllPerInterface(table, ifs, ds, n);
    SharesInOrder(table, ds, j, n);
    SendEachAppend(ifs[n].iface, a + [h], c);
    SendEachAppend(ifs[n].iface, a, [h]);
    assert [h][1..] == [];
  }

  /** Each datagram is given to exactly one interface or to none. */
  lemma {:induction false} RoutedOnce(table: seq<Route>, ifs: seq<AsyncIface>, ds: seq<Datagram>, j: nat,
                                      end: seq<AsyncIface>)
    requires Ordered(table) && PrefixesOk(table) && j < |ds| && ds[j].header.dst < TWO32
    requires !Throws(table, |ifs|, ds[j])
    requires |end| == |ifs| && forall n :: 0 <= n < |ifs| ==> end[n].iface == RouteAll(table, ifs, ds)[n].iface
    ensures Routable(table, ds[j]) ==> exists r, hop, dgram ::
      && LongestMatch(table, ds[j].header.dst, r) && r.interfaceNum < |ifs|
      && GivenTo(table, ifs, ds, j, end, r, hop, dgram)
    ensures !Routable(table, ds[j]) ==> forall n: nat :: n < |ifs| ==> AsIfWithout(table, ifs, ds, j, end, n)
  {
    FirstMatchIsLongest(table, ds[j].header.dst);
    forall n: nat | n < |ifs| && Share(table, ds[j], n) == []
      ensures AsIfWithout(table, ifs, ds, j, end, n)
    {
      NoShare(table, ifs, ds, j, end, n);
    }
    if Routable(table, ds[j]) {
      var r, h := FirstMatch(table, ds[j].header.dst).value, Decide(table, ds[j]).value;
      OneShare(table, ifs, ds, j, end, h);
      assert GivenTo(table, ifs, ds, j, end, r, h.hop, h.dgram);
    }
  }

  // ---- the frame that leaves

  /** The interface knows the address of `hop` and may still use it. */
  predicate Knows(i: Iface, hop: IpAddress) {
    hop in i.cache && hop in i.expire && i.now <= i.expire[hop]
  }

  /** A routable datagram leaves at once, if the interface of the longest prefix that agrees
      knows the address of the next hop: in one frame to that address, one hop older. The
      other interfaces do nothing. */
  lemma {:induction false} ForwardedFrame(table: seq<Route>, ifs: seq<AsyncIface>, d: Datagram)
    requires Ordered(table) && PrefixesOk(table) && d.header.dst < TWO32 && d.header.ttl > 1
    requires !Throws(table, |ifs|, d)
    requires exists x :: x in table && PrefixAgrees(x.prefix, d.header.dst, x.prefixLength)
    ensures exists r, hop, d' ::
      && LongestMatch(table, d.header.dst, r) && r.interfaceNum < |ifs|
      && LeadsTo(r, d.header.dst, hop) && OneHopOlder(d, d')
      && (forall m :: 0 <= m < |ifs| && m != r.interfaceNum ==> RouteOne(table, ifs, d)[m] == ifs[m])
      && var i, i' := ifs[r.interfaceNum].iface, RouteOne(table, ifs, d)[r.interfaceNum].iface;
         Knows(i, hop) ==> i'.out == i.out + [Frame(i.cache[hop], i.eth, IpPayload(d'))]
  {
    FirstMatchIsLongest(table, d.header.dst);
    var r, h := FirstMatch(table, d.header.dst).value, Decide(table, d).value;
    assert LongestMatch(table, d.header.dst, r) && LeadsTo(r, d.header.dst, h.hop) && OneHopOlder(d, h.dgram);
  }
}
