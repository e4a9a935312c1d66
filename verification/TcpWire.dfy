/** TCP headers and segments on the wire (section 3.1 of RFC 793). */
module TcpWire {
  import opened Types
  import opened TcpSegments
  import opened Wire
  import opened InternetChecksums

  const WIDTHS: seq<nat> := [2, 2, 4, 4, 1, 1, 2, 2, 2]

  function Flag(b: bool, weight: nat): nat {
    if b then weight else 0
  }

  function FlagsByte(h: Header): nat {
    Flag(h.urg, 32) + Flag(h.ack, 16) + Flag(h.psh, 8) + Flag(h.rst, 4) + Flag(h.syn, 2) + Flag(h.fin, 1)
  }

  predicate HasFlag(byte: int, weight: nat)
    requires weight > 0
  {
    byte / weight % 2 == 1
  }

  function Values(h: Header): seq<nat> {
    [h.sport, h.dport, h.seqno, h.ackno, h.doff * 16 % 256, FlagsByte(h), h.win, h.cksum, h.uptr]
  }

  function FromValues(vs: seq<int>): Header
    requires |vs| == 9
  {
    Header(vs[0] % TWO16, vs[1] % TWO16, vs[2] % TWO32, vs[3] % TWO32, vs[4] % 256 / 16,
           HasFlag(vs[5], 32), HasFlag(vs[5], 16), HasFlag(vs[5], 8), HasFlag(vs[5], 4), HasFlag(vs[5], 2),
           HasFlag(vs[5], 1), vs[6] % TWO16, vs[7] % TWO16, vs[8] % TWO16)
  }

  /** `None` is the exception for a data offset below five words. */
  function SerializeHeader(h: Header): Option<seq<byte>> {
    if h.doff < 5 then None else Some(WriteAll(Values(h), WIDTHS) + Zeros(4 * h.doff - 20))
  }

  /** Checks the data offset and skips any options. */
  function FinishHeader(h: Header, p: Parser): Parsed<Header> {
    if h.doff < 5 then Parsed(h, p, HeaderTooShort)
    else Parsed(h, p.Skip(h.doff * 4 - 20), p.Skip(h.doff * 4 - 20).error)
  }

  function ParseHeader(p: Parser): Parsed<Header> {
    ReadAllLength(p, WIDTHS);
    FinishHeader(FromValues(ReadAll(p, WIDTHS)), SkipAll(p, WIDTHS))
  }

  lemma {:induction false} FlagsRoundTrip(h: Header)
    ensures FlagsByte(h) < 64
    ensures HasFlag(FlagsByte(h), 32) == h.urg && HasFlag(FlagsByte(h), 16) == h.ack
    ensures HasFlag(FlagsByte(h), 8) == h.psh && HasFlag(FlagsByte(h), 4) == h.rst
    ensures HasFlag(FlagsByte(h), 2) == h.syn && HasFlag(FlagsByte(h), 1) == h.fin
  {
  }

  lemma {:induction false} ValuesFit(h: Header)
    ensures Fits(Values(h), WIDTHS)
  {
    RangeConstants();
    FlagsRoundTrip(h);
  }

  lemma {:induction false} ValuesRoundTrip(h: Header)
    requires h.doff <= 15
    ensures FromValues(Values(h)) == h
  {
    FlagsRoundTrip(h);
  }

  lemma {:induction false} FinishSkips(h: Header, rest: seq<byte>)
    requires h.doff >= 5
    ensures FinishHeader(h, Parser(Zeros(4 * h.doff - 20) + rest, NoError)) == Parsed(h, Parser(rest, NoError), NoError)
  {
    var pad := Zeros(4 * h.doff - 20);
    assert (pad + rest)[|pad|..] == rest;
  }

  lemma {:induction false} FieldsRoundTrip(h: Header, rest: seq<byte>)
    requires h.doff <= 15
    ensures |ReadAll(Parser(WriteAll(Values(h), WIDTHS) + rest, NoError), WIDTHS)| == 9
    ensures FromValues(ReadAll(Parser(WriteAll(Values(h), WIDTHS) + rest, NoError), WIDTHS)) == h
    ensures SkipAll(Parser(WriteAll(Values(h), WIDTHS) + rest, NoError), WIDTHS) == Parser(rest, NoError)
  {
    ValuesFit(h);
    ValuesRoundTrip(h);
    ReadWritten(Values(h), WIDTHS, rest);
  }

  lemma {:induction false} ParsesTo(p: Parser, h: Header, rest: Parser)
    requires |ReadAll(p, WIDTHS)| == 9 && FromValues(ReadAll(p, WIDTHS)) == h && SkipAll(p, WIDTHS) == rest
    ensures ParseHeader(p) == FinishHeader(h, rest)
  {
  }

  /** Parsing a serialized header gives it back and leaves what follows it. */
  lemma {:induction false} HeaderRoundTrip(h: Header, rest: seq<byte>)
    requires 5 <= h.doff <= 15
    ensures ParseHeader(Parser(SerializeHeader(h).value + rest, NoError)) == Parsed(h, Parser(rest, NoError), NoError)
  {
    var bytes, pad := WriteAll(Values(h), WIDTHS), Zeros(4 * h.doff - 20);
    assert SerializeHeader(h).value + rest == bytes + (pad + rest) by { Regroup(bytes, pad, rest); }
    FieldsRoundTrip(h, pad + rest);
    ParsesTo(Parser(bytes + (pad + rest), NoError), h, Parser(pad + rest, NoError));
    FinishSkips(h, rest);
  }

  // ---- segments

  function ComputeChecksum(header: seq<byte>, payload: seq<byte>, pseudo: nat): nat
    requires Octets(header) && Octets(payload)
  {
    Value(AddAll(AddAll(Checksum(pseudo, false), header), payload))
  }

  lemma {:induction false} SerializedOctets(h: Header)
    requires h.doff >= 5
    ensures Octets(SerializeHeader(h).value)
  {
    WrittenOctets(Values(h), WIDTHS);
  }

  /** The header with its checksum filled in. */
  function Checked(seg: Segment, pseudo: nat): Header
    requires seg.header.doff >= 5 && Octets(seg.payload)
  {
    var zero := seg.header.(cksum := 0);
    SerializedOctets(zero);
    seg.header.(cksum := ComputeChecksum(SerializeHeader(zero).value, seg.payload, pseudo))
  }

  function SerializeSegment(seg: Segment, pseudo: nat): Option<seq<byte>>
    requires Octets(seg.payload)
  {
    if seg.header.doff < 5 then None
    else Some(SerializeHeader(Checked(seg, pseudo)).value + seg.payload)
  }

  /** With a bad checksum nothing is read; otherwise the header parser's own verdict is
      ignored and only the parser's error is reported. */
  function ParseSegment(buffer: seq<byte>, pseudo: nat): (ParseResult, Option<Segment>)
    requires Octets(buffer)
  {
    if Value(AddAll(Checksum(pseudo, false), buffer)) != 0 then (BadChecksum, None)
    else
      var parsed := ParseHeader(Parser(buffer, NoError));
      (parsed.rest.error, Some(Segment(parsed.value, parsed.rest.buffer)))
  }

  /** What comes before and after the checksum field. */
  function BeforeField(h: Header): seq<byte> {
    WriteAll(Values(h)[..7], WIDTHS[..7])
  }

  function AfterField(h: Header, payload: seq<byte>): seq<byte>
    requires h.doff >= 5
  {
    Encode(h.uptr, 2) + Zeros(4 * h.doff - 20) + payload
  }

  lemma {:induction false} TotalBefore()
    ensures Total(WIDTHS[..7]) == 16
  {
    assert WIDTHS[..7] == [2, 2, 4, 4, 1, 1, 2];
    assert [2, 2, 4, 4, 1, 1, 2][1..] == [2, 4, 4, 1, 1, 2];
    assert [2, 4, 4, 1, 1, 2][1..] == [4, 4, 1, 1, 2];
    assert [4, 4, 1, 1, 2][1..] == [4, 1, 1, 2];
    assert [4, 1, 1, 2][1..] == [1, 1, 2];
    assert [1, 1, 2][1..] == [1, 2];
    assert [1, 2][1..] == [2];
    assert Total([2]) == 2;
    assert Total([1, 2]) == 3;
    assert Total([1, 1, 2]) == 4;
  }

  lemma {:induction false} TwoFields(a: nat, b: nat)
    ensures WriteAll([a, b], [2, 2]) == Encode(a, 2) + Encode(b, 2)
  {
    assert [a, b][1..] == [b] && [2, 2][1..] == [2];
    assert [b][1..] == [] && [2][1..] == [];
    assert WriteAll([b], [2]) == Encode(b, 2) + [];
  }

  lemma {:induction false} HeaderIsMessage(h: Header, payload: seq<byte>)
    requires h.doff >= 5
    ensures SerializeHeader(h).value + payload == Message(BeforeField(h), h.cksum, AfterField(h, payload))
  {
    var vs := Values(h);
    assert vs == vs[..7] + [h.cksum, h.uptr];
    assert WIDTHS == WIDTHS[..7] + [2, 2];
    WriteAppend(vs[..7], WIDTHS[..7], [h.cksum, h.uptr], [2, 2]);
    TwoFields(h.cksum, h.uptr);
    Reassociate(BeforeField(h), Encode(h.cksum, 2), Encode(h.uptr, 2), Zeros(4 * h.doff - 20), payload);
  }

  /** The sum of all 16-bit words stays below the 32-bit limit. */
  ghost predicate SumFits(seg: Segment, pseudo: nat)
    requires seg.header.doff >= 5
  {
    pseudo + WordSum(SerializeHeader(seg.header.(cksum := 0)).value + seg.payload, false) + 0xffff < TWO32
  }

  lemma {:induction false} TotalAll()
    ensures Total(WIDTHS) == 20
  {
    TotalBefore();
    TotalAppend(WIDTHS[..7], [2, 2]);
    assert WIDTHS == WIDTHS[..7] + [2, 2];
    assert [2, 2][1..] == [2] && [2][1..] == [];
    assert Total([2]) == 2;
  }

  lemma {:induction false} HeaderLength(h: Header)
    requires h.doff >= 5
    ensures |SerializeHeader(h).value| == 4 * h.doff
  {
    TotalAll();
    WrittenLength(Values(h), WIDTHS, 20);
  }

  /** Every segment that fits an IPv4 datagram does. */
  lemma {:induction false} DatagramSized(seg: Segment, pseudo: nat)
    requires seg.header.doff >= 5 && Octets(seg.payload)
    requires 4 * seg.header.doff + |seg.payload| <= 0xffff && pseudo < 0x1000_0000
    ensures SumFits(seg, pseudo)
  {
    var h := seg.header.(cksum := 0);
    SerializedOctets(h);
    HeaderLength(h);
    WordSumBound(SerializeHeader(h).value + seg.payload, false);
  }

  lemma {:induction false} FieldOctets(h: Header, payload: seq<byte>)
    requires h.doff >= 5 && Octets(payload)
    ensures Octets(BeforeField(h)) && Octets(AfterField(h, payload)) && |BeforeField(h)| % 2 == 0
  {
    WrittenOctets(Values(h)[..7], WIDTHS[..7]);
    EncodeOctets(h.uptr, 2);
    TotalBefore();
    WrittenLength(Values(h)[..7], WIDTHS[..7], 16);
  }

  lemma {:induction false} SameSurroundings(h: Header, h': Header, payload: seq<byte>)
    requires h.doff >= 5 && h' == h.(cksum := h'.cksum)
    ensures BeforeField(h') == BeforeField(h) && AfterField(h', payload) == AfterField(h, payload)
  {
    assert Values(h')[..7] == Values(h)[..7];
  }

  lemma {:induction false} SegmentVerifies(seg: Segment, pseudo: nat)
    requires 5 <= seg.header.doff && Octets(seg.payload) && SumFits(seg, pseudo)
    ensures Octets(SerializeSegment(seg, pseudo).value)
    ensures Value(AddAll(Checksum(pseudo, false), SerializeSegment(seg, pseudo).value)) == 0
  {
    var zero, full := seg.header.(cksum := 0), Checked(seg, pseudo);
    var before, after := BeforeField(zero), AfterField(zero, seg.payload);
    FieldOctets(zero, seg.payload);
    HeaderIsMessage(zero, seg.payload);
    SameSurroundings(zero, full, seg.payload);
    HeaderIsMessage(full, seg.payload);
    MessageSum(before, 0, after);
    SerializedOctets(zero);
    AddSplits(Checksum(pseudo, false), SerializeHeader(zero).value, seg.payload);
    ChecksumVerifies(pseudo, before, after);
  }

  /** A segment that was serialized verifies, and parses back to itself with the checksum
      filled in. */
  lemma {:induction false} SegmentRoundTrip(seg: Segment, pseudo: nat)
    requires 5 <= seg.header.doff <= 15 && Octets(seg.payload) && SumFits(seg, pseudo)
    ensures Octets(SerializeSegment(seg, pseudo).value)
    ensures ParseSegment(SerializeSegment(seg, pseudo).value, pseudo)
      == (NoError, Some(Segment(Checked(seg, pseudo), seg.payload)))
  {
    var zero, full := seg.header.(cksum := 0), Checked(seg, pseudo);
    SegmentVerifies(seg, pseudo);
    HeaderRoundTrip(full, seg.payload);
  }
}
