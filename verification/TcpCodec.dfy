/** The TCP codec step by step: a parser that is consumed and a string that grows. */
module TcpCodec {
  import opened Types
  import opened TcpSegments
  import opened Wire
  import opened InternetChecksums
  import opened TcpWire
  import opened TcpLayout

  /** The fixed part of the header. */
  method ReadTcpFields(p: NetParser) returns (h: Header)
    modifies p
    ensures |ReadAll(old(p.Model()), WIDTHS)| == 9 && h == FromValues(ReadAll(old(p.Model()), WIDTHS))
    ensures p.Model() == SkipAll(old(p.Model()), WIDTHS)
  {
    ReadAllLength(p.Model(), WIDTHS);
    var vs := ReadFields(p, WIDTHS);
    h := FromValues(vs);
  }

  method SkipTcpOptions(p: NetParser, h: Header) returns (r: ParseResult)
    modifies p
    ensures Parsed(h, p.Model(), r) == FinishHeader(h, old(p.Model()))
  {
    if h.doff < 5 {
      return HeaderTooShort;
    }
    p.RemovePrefix(h.doff * 4 - 20);
    r := p.error;
  }

  method ParseTcpHeader(p: NetParser) returns (h: Header, r: ParseResult)
    modifies p
    ensures Parsed(h, p.Model(), r) == ParseHeader(old(p.Model()))
    ensures old(p.error) == NoError && Octets(old(p.buffer)) && |old(p.buffer)| >= 20 ==> ReadFrom(h, old(p.buffer))
  {
    h := ReadTcpFields(p);
    ParsesTo(old(p.Model()), h, p.Model());
    FieldsFrom(old(p.Model()), h);
    r := SkipTcpOptions(p, h);
  }

  method SerializeTcpHeader(h: Header) returns (r: Option<seq<byte>>)
    ensures r == SerializeHeader(h)
    ensures h.doff <= 15 && r.Some? ==> |r.value| == 4 * h.doff && LaidOut(r.value, h)
  {
    if h.doff <= 15 {
      HeaderLayout(h);
    }
    if h.doff < 5 {
      return None;
    }
    var ret := WriteFields(Values(h), WIDTHS);
    return Some(ret + Zeros(4 * h.doff - 20));
  }

  method ChecksumOver(header: seq<byte>, payload: seq<byte>, pseudo: U32) returns (v: nat)
    requires Octets(header) && Octets(payload)
    ensures v == ComputeChecksum(header, payload, pseudo)
  {
    var check := new InternetChecksum(pseudo);
    check.Add(header);
    check.Add(payload);
    v := check.ComputeValue();
  }

  /** The checksum over the header with a zero checksum, and the payload. */
  method ChecksumFor(seg: Segment, pseudo: U32) returns (v: nat)
    requires Octets(seg.payload) && seg.header.doff >= 5
    ensures v == Checked(seg, pseudo).cksum
  {
    var zero := seg.header.(cksum := 0);
    SerializedOctets(zero);
    var header := SerializeTcpHeader(zero);
    v := ChecksumOver(header.value, seg.payload, pseudo);
  }

  lemma {:induction false} CheckedChanges(seg: Segment, pseudo: U32)
    requires Octets(seg.payload) && seg.header.doff >= 5
    ensures Checked(seg, pseudo) == seg.header.(cksum := Checked(seg, pseudo).cksum)
  {
  }

  method FillChecksum(seg: Segment, pseudo: U32) returns (h: Header)
    requires Octets(seg.payload) && seg.header.doff >= 5
    ensures h == Checked(seg, pseudo)
  {
    CheckedChanges(seg, pseudo);
    var v := ChecksumFor(seg, pseudo);
    h := seg.header.(cksum := v);
  }

  method SerializeTcpSegment(seg: Segment, pseudo: U32) returns (r: Option<seq<byte>>)
    requires Octets(seg.payload)
    ensures r == SerializeSegment(seg, pseudo)
  {
    if seg.header.doff < 5 {
      return None;
    }
    var h := FillChecksum(seg, pseudo);
    var header := SerializeTcpHeader(h);
    return Some(header.value + seg.payload);
  }

  method ParseTcpSegment(buffer: seq<byte>, pseudo: U32) returns (r: ParseResult, seg: Option<Segment>)
    requires Octets(buffer)
    ensures (r, seg) == ParseSegment(buffer, pseudo)
  {
    var check := new InternetChecksum(pseudo);
    check.Add(buffer);
    var v := check.ComputeValue();
    if v != 0 {
      return BadChecksum, None;
    }
    var p := new NetParser(buffer);
    var h, _ := ParseTcpHeader(p);
    return p.error, Some(Segment(h, p.buffer));
  }
}
