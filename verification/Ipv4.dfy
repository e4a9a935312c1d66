/** IPv4 headers and datagrams (section 3.1 of RFC 791). */
module Ipv4 {
  import opened Types

  /** `hlen` counts 32-bit words. */
  datatype Header = Header(
    ver: nat, hlen: nat, tos: nat, len: nat, id: nat, df: bool, mf: bool, offset: nat,
    ttl: nat, proto: nat, cksum: nat, src: nat, dst: nat)

  datatype Datagram = Datagram(header: Header, payload: seq<byte>)
}
