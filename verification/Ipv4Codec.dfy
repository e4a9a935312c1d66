/** The IPv4 codec step by step. */
module Ipv4Codec {
  import opened Types
  import opened Ipv4
  import opened Wire
  import opened InternetChecksums
  import opened Ipv4Wire
  import opened Ipv4Layout

  /** The checksum of a string on its own. */
  method ChecksumOf(data: seq<byte>) returns (v: nat)
    requires Octets(data)
    ensures v == Value(AddAll(Checksum(0, false), data))
  {
    var check := new InternetChecksum(0);
    check.Add(data);
    v := check.ComputeValue();
  }

  method FinishIpv4Header(p: NetParser, h: Header, original: seq<byte>) returns (r: ParseResult)
    requires Octets(original)
    modifies p
    ensures Parsed(h, p.Model(), r) == FinishHeader(h, original, old(p.Model()))
  {
    if |original| < 4 * h.hlen {
      return PacketTooShort;
    }
    if h.ver != 4 {
      return WrongIPVersion;
    }
    if h.hlen < 5 {
      return HeaderTooShort;
    }
    if |original| != h.len {
      return TruncatedPacket;
    }
    p.RemovePrefix(h.hlen * 4 - 20);
    if p.error != NoError {
      return p.error;
    }
    var v := ChecksumOf(original[..4 * h.hlen]);
    return if v != 0 then BadChecksum else NoError;
  }

  method ParseIpv4Header(p: NetParser, h0: Header) returns (h: Header, r: ParseResult)
    requires Octets(p.buffer)
    modifies p
    ensures Parsed(h, p.Model(), r) == ParseHeader(old(p.Model()), h0)
    ensures old(p.error) == NoError && |old(p.buffer)| >= 20 ==> ReadFrom(h, old(p.buffer))
  {
    if p.error == NoError {
      ParsedLayout(p.buffer, h0);
    }
    ghost var start := p.Model();
    var original := p.buffer;
    if |original| < 20 {
      return h0, PacketTooShort;
    }
    ReadAllLength(p.Model(), WIDTHS);
    var vs := ReadFields(p, WIDTHS);
    h := FromValues(vs);
    ParsesTo(start, h0, h, p.Model());
    r := FinishIpv4Header(p, h, original);
  }

  method SerializeIpv4Header(h: Header) returns (r: Option<seq<byte>>)
    ensures r == SerializeHeader(h)
    ensures InRange(h) && r.Some? ==> |r.value| == 4 * h.hlen && LaidOut(r.value, h)
  {
    if InRange(h) {
      HeaderLayout(h);
    }
    if h.ver != 4 || 4 * h.hlen < 20 {
      return None;
    }
    var ret := WriteFields(Values(h), WIDTHS);
    return Some(ret + Zeros(4 * h.hlen - 20));
  }

  method ParseIpv4Datagram(buffer: seq<byte>, h0: Header) returns (r: ParseResult, d: Datagram)
    requires Octets(buffer)
    ensures (r, d) == ParseDatagram(buffer, h0)
  {
    var p := new NetParser(buffer);
    var h, _ := ParseIpv4Header(p, h0);
    d := Datagram(h, p.buffer);
    r := if |d.payload| != PayloadLength(h) then PacketTooShort else p.error;
  }

  method FillChecksum(h: Header) returns (full: Header)
    requires h.ver == 4 && h.hlen >= 5
    ensures full == Checked(h)
  {
    full := h.(cksum := 0);
    SerializedOctets(full);
    var zero := SerializeIpv4Header(full);
    var cksum := ChecksumOf(zero.value);
    full := full.(cksum := cksum);
  }

  method SerializeIpv4Datagram(d: Datagram) returns (r: Option<seq<byte>>)
    ensures r == SerializeDatagram(d)
  {
    if |d.payload| != PayloadLength(d.header) || d.header.ver != 4 || 4 * d.header.hlen < 20 {
      return None;
    }
    var h := FillChecksum(d.header);
    var header := SerializeIpv4Header(h);
    return Some(header.value + d.payload);
  }
}
