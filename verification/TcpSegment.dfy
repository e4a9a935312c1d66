/** TCP segments as the transport layer sees them. */
module TcpSegments {
  import opened Types

  /** The fields of section 3.1 of RFC 793; `doff` counts 32-bit words. */
  datatype Header = Header(
    sport: U16, dport: U16, seqno: U32, ackno: U32, doff: nat,
    urg: bool, ack: bool, psh: bool, rst: bool, syn: bool, fin: bool,
    win: U16, cksum: U16, uptr: U16)

  datatype Segment = Segment(header: Header, payload: seq<byte>) {
    /** SYN and FIN take one sequence number each. */
    function Length(): nat {
      |payload| + (if header.syn then 1 else 0) + (if header.fin then 1 else 0)
    }
  }

  const EMPTY_HEADER: Header :=
    Header(0, 0, 0, 0, 5, false, false, false, false, false, false, 0, 0, 0)

  function MakeSegment(seqno: U32, syn: bool, payload: seq<byte>, fin: bool): Segment {
    Segment(EMPTY_HEADER.(seqno := seqno, syn := syn, fin := fin), payload)
  }
}
