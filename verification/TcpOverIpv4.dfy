/** A TCP segment inside an IPv4 datagram, there and back. */
module TcpOverIpv4 {
  import opened Types
  import TcpSegments
  import opened Ipv4
  import opened Wire
  import TcpWire
  import TcpCodec
  import opened Ipv4Wire

  const PROTO_TCP: nat := 6

  datatype Address = Address(ip: U32, port: U16)

  /** What a connection's adapter knows; a listening one takes its peer from the first
      SYN. */
  datatype Adapter = Adapter(source: Address, destination: Address, listening: bool)

  /** A new IPv4 header for a TCP payload. */
  function NewHeader(src: U32, dst: U32, len: nat): Header {
    Header(4, 5, 0, len, 0, true, false, 0, 128, PROTO_TCP, 0, src, dst)
  }

  /** The length is set first, because the pseudo-header needs it. */
  function HeaderFor(a: Adapter, seg: TcpSegments.Segment): Header {
    NewHeader(a.source.ip, a.destination.ip, (20 + seg.header.doff * 4 + |seg.payload|) % TWO16)
  }

  function WithPorts(a: Adapter, seg: TcpSegments.Segment): TcpSegments.Segment {
    seg.(header := seg.header.(sport := a.source.port, dport := a.destination.port))
  }

  /** The datagram that carries a segment; `None` where serializing it throws. */
  function Carry(s: TcpSegments.Segment, h: Header): Option<Datagram>
    requires Octets(s.payload)
  {
    if s.header.doff < 5 then None
    else Some(Datagram(h, TcpWire.SerializeSegment(s, PseudoChecksum(h)).value))
  }

  function WrapTcp(a: Adapter, seg: TcpSegments.Segment): Option<Datagram>
    requires Octets(seg.payload)
  {
    Carry(WithPorts(a, seg), HeaderFor(a, seg))
  }

  /** The segment in a datagram, if it parses without error. */
  function Extract(d: Datagram): Option<TcpSegments.Segment>
    requires Octets(d.payload)
  {
    var (result, parsed) := TcpWire.ParseSegment(d.payload, PseudoChecksum(d.header));
    if result == NoError then parsed else None
  }

  /** The tests on the addresses and the protocol. */
  predicate Refuses(b: Adapter, h: Header) {
    (!b.listening && (h.dst != b.source.ip || h.src != b.destination.ip)) || h.proto != PROTO_TCP
  }

  function Taken(b: Adapter, h: Header, seg: TcpSegments.Segment): Adapter {
    Adapter(Address(h.dst % TWO32, b.source.port), Address(h.src % TWO32, seg.header.sport), false)
  }

  /** The tests on the ports, after a listening adapter has taken its peer. */
  function Filter(b: Adapter, h: Header, seg: TcpSegments.Segment): (Adapter, Option<TcpSegments.Segment>) {
    if seg.header.dport != b.source.port then (b, None)
    else if b.listening && (!seg.header.syn || seg.header.rst) then (b, None)
    else
      var b' := if b.listening then Taken(b, h, seg) else b;
      (b', if seg.header.sport != b'.destination.port then None else Some(seg))
  }

  /** The adapter afterwards, and the segment in a datagram with header `h` if that is for
      this connection. */
  function Admit(b: Adapter, h: Header, seg: Option<TcpSegments.Segment>): (Adapter, Option<TcpSegments.Segment>) {
    if Refuses(b, h) || seg.None? then (b, None) else Filter(b, h, seg.value)
  }

  function UnwrapTcp(b: Adapter, d: Datagram): (Adapter, Option<TcpSegments.Segment>)
    requires Octets(d.payload)
  {
    Admit(b, d.header, Extract(d))
  }

  lemma {:induction false} PseudoFits(h: Header)
    requires InRange(h)
    ensures PseudoChecksum(h) < TWO32
  {
  }

  method ParsePayload(d: Datagram) returns (r: Option<TcpSegments.Segment>)
    requires Octets(d.payload) && InRange(d.header)
    ensures r == Extract(d)
  {
    PseudoFits(d.header);
    var result, parsed := TcpCodec.ParseTcpSegment(d.payload, PseudoChecksum(d.header));
    r := if result == NoError then parsed else None;
  }

  method CarryIn(s: TcpSegments.Segment, h: Header) returns (d: Option<Datagram>)
    requires Octets(s.payload) && InRange(h)
    ensures d == Carry(s, h)
  {
    PseudoFits(h);
    var payload := TcpCodec.SerializeTcpSegment(s, PseudoChecksum(h));
    d := if payload.None? then None else Some(Datagram(h, payload.value));
  }

  lemma {:induction false} NewHeaderOk(src: U32, dst: U32, len: nat)
    requires len < TWO16
    ensures InRange(NewHeader(src, dst, len))
  {
  }

  /** Makes the header for `seg`, whose ports are set in `s`, and wraps it. */
  method CarryFor(a: Adapter, seg: TcpSegments.Segment, s: TcpSegments.Segment) returns (d: Option<Datagram>)
    requires Octets(seg.payload) && s == WithPorts(a, seg)
    ensures d == WrapTcp(a, seg)
  {
    var h := HeaderFor(a, seg);
    NewHeaderOk(a.source.ip, a.destination.ip, h.len);
    d := CarryIn(s, h);
  }

  class TCPOverIPv4Adapter {
    var source: Address
    var destination: Address
    var listening: bool

    constructor (source: Address, destination: Address, listening: bool)
      ensures Model() == Adapter(source, destination, listening)
    {
      this.source, this.destination, this.listening := source, destination, listening;
    }

    ghost function Model(): Adapter
      reads this
    {
      Adapter(source, destination, listening)
    }

    method UnwrapTcpInIp(d: Datagram) returns (r: Option<TcpSegments.Segment>)
      requires Octets(d.payload) && InRange(d.header)
      modifies this
      ensures (Model(), r) == UnwrapTcp(old(Model()), d)
    {
      if !listening && (d.header.dst != source.ip || d.header.src != destination.ip) {
        return None;
      }
      if d.header.proto != PROTO_TCP {
        return None;
      }
      var parsed := ParsePayload(d);
      if parsed.None? {
        return None;
      }
      r := FilterSegment(d.header, parsed.value);
    }

    method FilterSegment(h: Header, seg: TcpSegments.Segment) returns (r: Option<TcpSegments.Segment>)
      requires InRange(h)
      modifies this
      ensures (Model(), r) == Filter(old(Model()), h, seg)
    {
      if seg.header.dport != source.port {
        return None;
      }
      if listening {
        if !seg.header.syn || seg.header.rst {
          return None;
        }
        source := Address(h.dst, source.port);
        destination := Address(h.src, seg.header.sport);
        listening := false;
      }
      if seg.header.sport != destination.port {
        return None;
      }
      return Some(seg);
    }

    method WrapTcpInIp(seg: TcpSegments.Segment) returns (s: TcpSegments.Segment, d: Option<Datagram>)
      requires Octets(seg.payload)
      ensures s == WithPorts(Model(), seg) && d == WrapTcp(Model(), seg)
    {
      var a := Adapter(source, destination, listening);
      s := WithPorts(a, seg);
      d := CarryFor(a, seg, s);
    }
  }

  lemma {:induction false} SegmentLength(seg: TcpSegments.Segment, pseudo: nat)
    requires seg.header.doff >= 5 && Octets(seg.payload)
    ensures |TcpWire.SerializeSegment(seg, pseudo).value| == 4 * seg.header.doff + |seg.payload|
  {
    TcpWire.HeaderLength(TcpWire.Checked(seg, pseudo));
  }

  /** Filling in the checksum does not change the pseudo-header. */
  lemma {:induction false} PseudoIgnoresChecksum(h: Header, c: nat)
    ensures PseudoChecksum(h.(cksum := c)) == PseudoChecksum(h)
  {
  }

  /** The datagram arrives as it was sent, but for its checksum. */
  ghost predicate DatagramArrives(d: Datagram, h0: Header) {
    && d.header.ver == 4 && d.header.hlen >= 5
    && SerializeDatagram(d).Some? && Octets(SerializeDatagram(d).value)
    && ParseDatagram(SerializeDatagram(d).value, h0) == (NoError, Datagram(Checked(d.header), d.payload))
  }

  /** Its payload, checked against the pseudo-header of what arrived, is the segment. */
  ghost predicate SegmentArrives(seg: TcpSegments.Segment, d: Datagram)
    requires d.header.ver == 4 && d.header.hlen >= 5 && seg.header.doff >= 5 && Octets(seg.payload)
  {
    && Octets(d.payload)
    && TcpWire.ParseSegment(d.payload, PseudoChecksum(Checked(d.header)))
       == (NoError, Some(TcpSegments.Segment(TcpWire.Checked(seg, PseudoChecksum(d.header)), seg.payload)))
  }

  lemma {:induction false} SegmentPart(seg: TcpSegments.Segment, h: Header)
    requires Octets(seg.payload) && 5 <= seg.header.doff <= 15
    requires InRange(h) && h.ver == 4 && h.hlen >= 5 && seg.header.doff * 4 + |seg.payload| < TWO16
    ensures SegmentArrives(seg, Datagram(h, TcpWire.SerializeSegment(seg, PseudoChecksum(h)).value))
  {
    PseudoChecksumIsSum(h);
    PseudoIgnoresChecksum(h, Checked(h).cksum);
    TcpWire.DatagramSized(seg, PseudoChecksum(h));
    TcpWire.SegmentRoundTrip(seg, PseudoChecksum(h));
  }

  lemma {:induction false} BothArrive(seg: TcpSegments.Segment, h: Header, h0: Header)
    requires Octets(seg.payload) && 5 <= seg.header.doff <= 15
    requires InRange(h) && h.ver == 4 && h.hlen >= 5
    requires h.len == h.hlen * 4 + seg.header.doff * 4 + |seg.payload|
    ensures DatagramArrives(Datagram(h, TcpWire.SerializeSegment(seg, PseudoChecksum(h)).value), h0)
    ensures SegmentArrives(seg, Datagram(h, TcpWire.SerializeSegment(seg, PseudoChecksum(h)).value))
  {
    SegmentPart(seg, h);
    SegmentLength(seg, PseudoChecksum(h));
    DatagramRoundTrip(Datagram(h, TcpWire.SerializeSegment(seg, PseudoChecksum(h)).value), h0);
  }

  /** What an adapter `b` tests of a segment from `a`. */
  predicate ForUs(a: Adapter, b: Adapter, seg: TcpSegments.Segment) {
    && b.source.port == a.destination.port
    && (if b.listening then seg.header.syn && !seg.header.rst
        else b.source.ip == a.destination.ip && b.destination == a.source)
  }

  /** The adapter of the peer after a segment from `a` that is for it. */
  function PeerOf(a: Adapter): Adapter {
    Adapter(a.destination, a.source, false)
  }

  lemma {:induction false} FilterTells(a: Adapter, b: Adapter, h: Header, seg: TcpSegments.Segment, got: TcpSegments.Segment)
    requires h.src == a.source.ip && h.dst == a.destination.ip
    requires got.header == seg.header.(sport := a.source.port, dport := a.destination.port, cksum := got.header.cksum)
    requires b.listening || (b.source.ip == a.destination.ip && b.destination.ip == a.source.ip)
    ensures Filter(b, h, got) == if ForUs(a, b, seg) then (PeerOf(a), Some(got)) else (b, None)
  {
  }

  /** The segment as it comes out: with the ports of `a` and its checksum filled in. */
  function Sent(a: Adapter, seg: TcpSegments.Segment): TcpSegments.Segment
    requires Octets(seg.payload) && seg.header.doff >= 5
  {
    TcpSegments.Segment(TcpWire.Checked(WithPorts(a, seg), PseudoChecksum(HeaderFor(a, seg))), seg.payload)
  }

  lemma {:induction false} SentIsParsed(a: Adapter, seg: TcpSegments.Segment, d: Datagram)
    requires Octets(seg.payload) && seg.header.doff >= 5
    requires d.header == HeaderFor(a, seg) && SegmentArrives(WithPorts(a, seg), d)
    ensures Extract(Datagram(Checked(d.header), d.payload)) == Some(Sent(a, seg))
  {
  }

  lemma {:induction false} UnwrapTells(a: Adapter, b: Adapter, seg: TcpSegments.Segment, d: Datagram, got: TcpSegments.Segment)
    requires Octets(d.payload) && Extract(d) == Some(got)
    requires d.header.src == a.source.ip && d.header.dst == a.destination.ip && d.header.proto == PROTO_TCP
    requires got.header == seg.header.(sport := a.source.port, dport := a.destination.port, cksum := got.header.cksum)
    ensures UnwrapTcp(b, d) == if ForUs(a, b, seg) then (PeerOf(a), Some(got)) else (b, None)
  {
    if !Refuses(b, d.header) {
      FilterTells(a, b, d.header, seg, got);
    }
  }

  lemma {:induction false} WrapArrives(a: Adapter, seg: TcpSegments.Segment, h0: Header)
    requires Octets(seg.payload) && 5 <= seg.header.doff <= 15
    requires 20 + seg.header.doff * 4 + |seg.payload| < TWO16
    ensures WrapTcp(a, seg).Some? && DatagramArrives(WrapTcp(a, seg).value, h0)
    ensures WrapTcp(a, seg).value.header == HeaderFor(a, seg)
    ensures SegmentArrives(WithPorts(a, seg), WrapTcp(a, seg).value)
  {
    var h := HeaderFor(a, seg);
    NewHeaderOk(a.source.ip, a.destination.ip, h.len);
    BothArrive(WithPorts(a, seg), h, h0);
  }

  /** Whatever segment fits: wrapped by `a`, serialized and parsed, the datagram arrives
      intact, and an adapter `b` takes the segment out as it went in exactly when it is
      meant for it. A listening `b` thereby becomes the peer of `a`; one that refuses does
      not change. */
  lemma {:induction false} WrapRoundTrip(a: Adapter, b: Adapter, seg: TcpSegments.Segment, h0: Header)
    requires Octets(seg.payload) && 5 <= seg.header.doff <= 15
    requires 20 + seg.header.doff * 4 + |seg.payload| < TWO16
    ensures WrapTcp(a, seg).Some? && DatagramArrives(WrapTcp(a, seg).value, h0)
    ensures var d := WrapTcp(a, seg).value;
      && Octets(d.payload)
      && UnwrapTcp(b, Datagram(Checked(d.header), d.payload))
         == if ForUs(a, b, seg) then (PeerOf(a), Some(Sent(a, seg))) else (b, None)
  {
    WrapArrives(a, seg, h0);
    var d := WrapTcp(a, seg).value;
    SentIsParsed(a, seg, d);
    UnwrapTells(a, b, seg, Datagram(Checked(d.header), d.payload), Sent(a, seg));
  }

  /** The header is a fresh one from our address to the peer's, for TCP, with the length of
      the whole datagram. */
  lemma {:induction false} HeaderIsFresh(a: Adapter, seg: TcpSegments.Segment)
    requires 20 + seg.header.doff * 4 + |seg.payload| < TWO16
    ensures var h := HeaderFor(a, seg);
      && h.ver == 4 && h.hlen == 5 && h.proto == 6 && h.ttl == 128 && h.df && !h.mf && h.offset == 0 && h.id == 0
      && h.tos == 0 && h.src == a.source.ip && h.dst == a.destination.ip
      && h.len == 20 + 4 * seg.header.doff + |seg.payload|
  {
  }

  /** The datagram has that header, and in it the segment with our port and the peer's. */
  lemma {:induction false} WrappedAs(a: Adapter, seg: TcpSegments.Segment)
    requires Octets(seg.payload) && seg.header.doff >= 5
    ensures WrapTcp(a, seg).Some? && WrapTcp(a, seg).value.header == HeaderFor(a, seg)
    ensures |WrapTcp(a, seg).value.payload| == 4 * seg.header.doff + |seg.payload|
    ensures WithPorts(a, seg).header == seg.header.(sport := a.source.port, dport := a.destination.port)
    ensures WithPorts(a, seg).payload == seg.payload
  {
    SegmentLength(WithPorts(a, seg), PseudoChecksum(HeaderFor(a, seg)));
  }

  /** Exactly which datagrams an adapter takes the segment in them from: those for TCP whose
      payload parses, between its own address and port and its peer's; while it listens,
      those to its port that open a connection. It changes only then, and takes on the peer. */
  lemma {:induction false} TakesExactly(b: Adapter, h: Header, seg: Option<TcpSegments.Segment>)
    requires InRange(h)
    ensures var (b', r) := Admit(b, h, seg);
      && (r.Some? <==>
            && h.proto == 6 && seg.Some? && seg.value.header.dport == b.source.port
            && (if b.listening then seg.value.header.syn && !seg.value.header.rst
                else && h.dst == b.source.ip && h.src == b.destination.ip
                     && seg.value.header.sport == b.destination.port))
      && (r.Some? ==> r == seg)
      && (if b.listening && r.Some?
          then && b'.source == Address(h.dst, b.source.port) && !b'.listening
               && b'.destination == Address(h.src, seg.value.header.sport)
          else b' == b)
  {
  }
}
