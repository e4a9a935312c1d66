/** IPv4 headers and datagrams on the wire. */
module Ipv4Wire {
  import opened Types
  import opened Ipv4
  import opened Wire
  import opened InternetChecksums

  const WIDTHS: seq<nat> := [1, 1, 2, 2, 2, 1, 1, 2, 4, 4]

  function FragmentWord(h: Header): nat {
    (if h.df then 0x4000 else 0) + (if h.mf then 0x2000 else 0) + h.offset % 0x2000
  }

  function Values(h: Header): seq<nat> {
    [(h.ver * 16 + h.hlen % 16) % 256, h.tos, h.len, h.id, FragmentWord(h), h.ttl, h.proto, h.cksum, h.src, h.dst]
  }

  function FromValues(vs: seq<int>): Header
    requires |vs| == 10
  {
    Header(vs[0] % 256 / 16, vs[0] % 16, vs[1] % 256, vs[2] % TWO16, vs[3] % TWO16,
           vs[4] / 0x4000 % 2 == 1, vs[4] / 0x2000 % 2 == 1, vs[4] % 0x2000,
           vs[5] % 256, vs[6] % 256, vs[7] % TWO16, vs[8] % TWO32, vs[9] % TWO32)
  }

  /** The fields are as wide as their types. */
  predicate InRange(h: Header) {
    && h.ver < 16 && h.hlen < 16 && h.tos < 256 && h.len < TWO16 && h.id < TWO16 && h.offset < 0x2000
    && h.ttl < 256 && h.proto < 256 && h.cksum < TWO16 && h.src < TWO32 && h.dst < TWO32
  }

  /** `None` is the exception for a wrong version or a short header. */
  function SerializeHeader(h: Header): Option<seq<byte>> {
    if h.ver != 4 || h.hlen < 5 then None
    else Some(WriteAll(Values(h), WIDTHS) + Zeros(4 * h.hlen - 20))
  }

  /** The checks after the fields have been read from `original`. */
  function FinishHeader(h: Header, original: seq<byte>, p: Parser): Parsed<Header>
    requires Octets(original)
  {
    if |original| < 4 * h.hlen then Parsed(h, p, PacketTooShort)
    else if h.ver != 4 then Parsed(h, p, WrongIPVersion)
    else if h.hlen < 5 then Parsed(h, p, HeaderTooShort)
    else if |original| != h.len then Parsed(h, p, TruncatedPacket)
    else
      var p1 := p.Skip(h.hlen * 4 - 20);
      if p1.error != NoError then Parsed(h, p1, p1.error)
      else if Value(AddAll(Checksum(0, false), original[..4 * h.hlen])) != 0 then Parsed(h, p1, BadChecksum)
      else Parsed(h, p1, NoError)
  }

  /** A packet too short for the fixed part leaves the header `h0` as it was. */
  function ParseHeader(p: Parser, h0: Header): Parsed<Header>
    requires Octets(p.buffer)
  {
    if |p.buffer| < 20 then Parsed(h0, p, PacketTooShort)
    else
      ReadAllLength(p, WIDTHS);
      FinishHeader(FromValues(ReadAll(p, WIDTHS)), p.buffer, SkipAll(p, WIDTHS))
  }

  function PayloadLength(h: Header): nat {
    (h.len - 4 * h.hlen) % TWO16
  }

  lemma {:induction false} SerializedOctets(h: Header)
    requires h.ver == 4 && h.hlen >= 5
    ensures Octets(SerializeHeader(h).value)
  {
    WrittenOctets(Values(h), WIDTHS);
  }

  /** The header with its checksum computed over the header with a zero checksum. */
  function Checked(h: Header): Header
    requires h.ver == 4 && h.hlen >= 5
  {
    SerializedOctets(h.(cksum := 0));
    h.(cksum := Value(AddAll(Checksum(0, false), SerializeHeader(h.(cksum := 0)).value)))
  }

  function SerializeDatagram(d: Datagram): Option<seq<byte>> {
    if |d.payload| != PayloadLength(d.header) || SerializeHeader(d.header).None? then None
    else Some(SerializeHeader(Checked(d.header)).value + d.payload)
  }

  /** The verdict of the header parser is ignored; only the payload length and the
      parser's own error count. */
  function ParseDatagram(buffer: seq<byte>, h0: Header): (ParseResult, Datagram)
    requires Octets(buffer)
  {
    var parsed := ParseHeader(Parser(buffer, NoError), h0);
    var d := Datagram(parsed.value, parsed.rest.buffer);
    (if |d.payload| != PayloadLength(d.header) then PacketTooShort else parsed.rest.error, d)
  }

  // ---- round trips

  lemma {:induction false} ValuesFit(h: Header)
    requires InRange(h)
    ensures Fits(Values(h), WIDTHS)
  {
    RangeConstants();
  }

  lemma {:induction false} FragmentRoundTrip(h: Header)
    requires h.offset < 0x2000
    ensures FragmentWord(h) < TWO16
    ensures (FragmentWord(h) / 0x4000 % 2 == 1) == h.df && (FragmentWord(h) / 0x2000 % 2 == 1) == h.mf
    ensures FragmentWord(h) % 0x2000 == h.offset
  {
  }

  lemma {:induction false} ValuesRoundTrip(h: Header)
    requires InRange(h)
    ensures FromValues(Values(h)) == h
  {
    FragmentRoundTrip(h);
  }

  lemma {:induction false} FieldsRoundTrip(h: Header, rest: seq<byte>)
    requires InRange(h)
    ensures |ReadAll(Parser(WriteAll(Values(h), WIDTHS) + rest, NoError), WIDTHS)| == 10
    ensures FromValues(ReadAll(Parser(WriteAll(Values(h), WIDTHS) + rest, NoError), WIDTHS)) == h
    ensures SkipAll(Parser(WriteAll(Values(h), WIDTHS) + rest, NoError), WIDTHS) == Parser(rest, NoError)
  {
    ValuesFit(h);
    ValuesRoundTrip(h);
    ReadWritten(Values(h), WIDTHS, rest);
  }

  lemma {:induction false} ParsesTo(p: Parser, h0: Header, h: Header, rest: Parser)
    requires Octets(p.buffer) && |p.buffer| >= 20
    requires |ReadAll(p, WIDTHS)| == 10 && FromValues(ReadAll(p, WIDTHS)) == h && SkipAll(p, WIDTHS) == rest
    ensures ParseHeader(p, h0) == FinishHeader(h, p.buffer, rest)
  {
  }

  lemma {:induction false} TotalBefore()
    ensures Total(WIDTHS[..7]) == 10
  {
    assert WIDTHS[..7] == [1, 1, 2, 2, 2, 1, 1];
    assert [1, 1, 2, 2, 2, 1, 1][1..] == [1, 2, 2, 2, 1, 1];
    assert [1, 2, 2, 2, 1, 1][1..] == [2, 2, 2, 1, 1];
    assert [2, 2, 2, 1, 1][1..] == [2, 2, 1, 1];
    assert [2, 2, 1, 1][1..] == [2, 1, 1];
    assert [2, 1, 1][1..] == [1, 1];
    assert [1, 1][1..] == [1];
    assert Total([1]) == 1;
    assert Total([1, 1]) == 2;
    assert Total([2, 1, 1]) == 4;
  }

  lemma {:induction false} TotalAll()
    ensures Total(WIDTHS) == 20
  {
    TotalBefore();
    assert WIDTHS == WIDTHS[..7] + [2, 4, 4];
    TotalAppend(WIDTHS[..7], [2, 4, 4]);
    assert [2, 4, 4][1..] == [4, 4] && [4, 4][1..] == [4];
    assert Total([4]) == 4;
  }

  lemma {:induction false} HeaderLength(h: Header)
    requires h.ver == 4 && h.hlen >= 5
    ensures |SerializeHeader(h).value| == 4 * h.hlen
  {
    TotalAll();
    WrittenLength(Values(h), WIDTHS, 20);
  }

  /** What comes before and after the checksum field. */
  function BeforeField(h: Header): seq<byte> {
    WriteAll(Values(h)[..7], WIDTHS[..7])
  }

  function AfterField(h: Header): seq<byte>
    requires h.hlen >= 5
  {
    Encode(h.src, 4) + Encode(h.dst, 4) + Zeros(4 * h.hlen - 20)
  }

  lemma {:induction false} ThreeFields(a: nat, b: nat, c: nat)
    ensures WriteAll([a, b, c], [2, 4, 4]) == Encode(a, 2) + Encode(b, 4) + Encode(c, 4)
  {
    assert [a, b, c][1..] == [b, c] && [2, 4, 4][1..] == [4, 4];
    assert [b, c][1..] == [c] && [4, 4][1..] == [4];
    assert [c][1..] == [] && [4][1..] == [];
    assert WriteAll([c], [4]) == Encode(c, 4) + [];
    assert WriteAll([b, c], [4, 4]) == Encode(b, 4) + Encode(c, 4);
  }

  lemma {:induction false} Rebracket(a: seq<byte>, b: seq<byte>, c: seq<byte>, d: seq<byte>, e: seq<byte>)
    ensures a + (b + c + d) + e == a + b + (c + d + e)
  {
  }

  lemma {:induction false} HeaderIsMessage(h: Header)
    requires h.ver == 4 && h.hlen >= 5
    ensures SerializeHeader(h).value == Message(BeforeField(h), h.cksum, AfterField(h))
  {
    var vs := Values(h);
    assert vs == vs[..7] + [h.cksum, h.src, h.dst];
    assert WIDTHS == WIDTHS[..7] + [2, 4, 4];
    WriteAppend(vs[..7], WIDTHS[..7], [h.cksum, h.src, h.dst], [2, 4, 4]);
    ThreeFields(h.cksum, h.src, h.dst);
    Rebracket(BeforeField(h), Encode(h.cksum, 2), Encode(h.src, 4), Encode(h.dst, 4), Zeros(4 * h.hlen - 20));
  }

  lemma {:induction false} FieldOctets(h: Header)
    requires h.hlen >= 5
    ensures Octets(BeforeField(h)) && Octets(AfterField(h)) && |BeforeField(h)| == 10
    ensures |AfterField(h)| == 4 * h.hlen - 12
  {
    WrittenOctets(Values(h)[..7], WIDTHS[..7]);
    EncodeOctets(h.src, 4);
    EncodeOctets(h.dst, 4);
    TotalBefore();
    WrittenLength(Values(h)[..7], WIDTHS[..7], 10);
  }

  lemma {:induction false} SameSurroundings(h: Header, h': Header)
    requires h.hlen >= 5 && h' == h.(cksum := h'.cksum)
    ensures BeforeField(h') == BeforeField(h) && AfterField(h') == AfterField(h)
  {
    assert Values(h')[..7] == Values(h)[..7];
  }

  /** A header with its checksum filled in sums to zero. */
  lemma {:induction false} HeaderVerifies(h: Header)
    requires h.ver == 4 && 5 <= h.hlen <= 15
    ensures Octets(SerializeHeader(Checked(h)).value) && Checked(h).cksum < TWO16
    ensures Value(AddAll(Checksum(0, false), SerializeHeader(Checked(h)).value)) == 0
  {
    var zero, full := h.(cksum := 0), Checked(h);
    var before, after := BeforeField(zero), AfterField(zero);
    FieldOctets(zero);
    HeaderIsMessage(zero);
    SameSurroundings(zero, full);
    HeaderIsMessage(full);
    WordSumBound(before, false);
    WordSumBound(after, false);
    ChecksumVerifies(0, before, after);
  }

  /** A datagram that the code agrees to serialize and whose fields fit. */
  predicate WellFormed(d: Datagram) {
    && InRange(d.header) && d.header.ver == 4 && d.header.hlen >= 5
    && d.header.len == 4 * d.header.hlen + |d.payload|
  }

  lemma {:induction false} FinishAccepts(h: Header, header: seq<byte>, payload: seq<byte>)
    requires h.ver == 4 && h.hlen >= 5 && |header| == 4 * h.hlen && h.len == 4 * h.hlen + |payload|
    requires Octets(header) && Octets(payload) && Value(AddAll(Checksum(0, false), header)) == 0
    ensures FinishHeader(h, header + payload, Parser(Zeros(4 * h.hlen - 20) + payload, NoError))
      == Parsed(h, Parser(payload, NoError), NoError)
  {
    var pad := Zeros(4 * h.hlen - 20);
    assert (pad + payload)[|pad|..] == payload;
    assert (header + payload)[..4 * h.hlen] == header;
  }

  lemma {:induction false} OctetsAppend(a: seq<byte>, b: seq<byte>)
    requires Octets(a) && Octets(b)
    ensures Octets(a + b)
  {
  }

  lemma {:induction false} PayloadLengthIs(h: Header, n: nat)
    requires h.len == 4 * h.hlen + n && h.len < TWO16
    ensures PayloadLength(h) == n
  {
  }

  lemma {:induction false} SerializesTo(d: Datagram)
    requires d.header.ver == 4 && d.header.hlen >= 5 && PayloadLength(d.header) == |d.payload|
    ensures SerializeDatagram(d) == Some(SerializeHeader(Checked(d.header)).value + d.payload)
  {
    assert SerializeHeader(d.header).Some?;
  }

  lemma {:induction false} DatagramParses(buffer: seq<byte>, h0: Header, h: Header, payload: seq<byte>)
    requires Octets(buffer) && PayloadLength(h) == |payload|
    requires ParseHeader(Parser(buffer, NoError), h0) == Parsed(h, Parser(payload, NoError), NoError)
    ensures ParseDatagram(buffer, h0) == (NoError, Datagram(h, payload))
  {
  }

  lemma {:induction false} HeaderBytes(h: Header, payload: seq<byte>)
    requires h.ver == 4 && h.hlen >= 5
    ensures SerializeHeader(h).value + payload == WriteAll(Values(h), WIDTHS) + (Zeros(4 * h.hlen - 20) + payload)
  {
    var bytes, pad := WriteAll(Values(h), WIDTHS), Zeros(4 * h.hlen - 20);
    assert SerializeHeader(h).value == bytes + pad;
    Regroup(bytes, pad, payload);
  }

  lemma {:induction false} HeaderParses(h: Header, payload: seq<byte>, h0: Header)
    requires InRange(h) && h.ver == 4 && h.hlen >= 5 && h.len == 4 * h.hlen + |payload|
    requires Octets(SerializeHeader(h).value) && Octets(payload)
    requires Octets(SerializeHeader(h).value + payload)
    requires Value(AddAll(Checksum(0, false), SerializeHeader(h).value)) == 0
    ensures ParseHeader(Parser(SerializeHeader(h).value + payload, NoError), h0)
      == Parsed(h, Parser(payload, NoError), NoError)
  {
    var header, bytes, pad := SerializeHeader(h).value, WriteAll(Values(h), WIDTHS), Zeros(4 * h.hlen - 20);
    HeaderLength(h);
    HeaderBytes(h, payload);
    FieldsRoundTrip(h, pad + payload);
    ParsesTo(Parser(header + payload, NoError), h0, h, Parser(pad + payload, NoError));
    FinishAccepts(h, header, payload);
  }

  /** A serialized datagram parses back to itself with the checksum filled in, and the
      header passes every check, the checksum included. */
  lemma {:induction false} DatagramRoundTrip(d: Datagram, h0: Header)
    requires WellFormed(d) && Octets(d.payload)
    ensures SerializeDatagram(d).Some? && Octets(SerializeDatagram(d).value)
    ensures ParseHeader(Parser(SerializeDatagram(d).value, NoError), h0)
      == Parsed(Checked(d.header), Parser(d.payload, NoError), NoError)
    ensures ParseDatagram(SerializeDatagram(d).value, h0) == (NoError, Datagram(Checked(d.header), d.payload))
  {
    var h := Checked(d.header);
    PayloadLengthIs(d.header, |d.payload|);
    PayloadLengthIs(h, |d.payload|);
    SerializesTo(d);
    HeaderVerifies(d.header);
    OctetsAppend(SerializeHeader(h).value, d.payload);
    HeaderParses(h, d.payload, h0);
    DatagramParses(SerializeHeader(h).value + d.payload, h0, h, d.payload);
  }

  // ---- the pseudo-header

  function PseudoChecksum(h: Header): nat {
    h.src / TWO16 + h.src % TWO16 + (h.dst / TWO16 + h.dst % TWO16) + h.proto + PayloadLength(h)
  }

  /** The twelve bytes of the pseudo-header of section 3.1 of RFC 793. */
  function PseudoHeader(h: Header): seq<byte> {
    Encode(h.src, 4) + (Encode(h.dst, 4) + (Encode(h.proto, 2) + Encode(PayloadLength(h), 2)))
  }

  lemma {:induction false} EncodeHalves(v: nat)
    ensures Encode(v, 4) == Encode(v / TWO16, 2) + Encode(v % TWO16, 2)
  {
    assert Encode(v, 4) == Encode(v / 256, 3) + [v % 256];
    assert Encode(v / 256, 3) == Encode(v / 256 / 256, 2) + [v / 256 % 256];
    assert v / 256 / 256 == v / TWO16;
    var w := v % TWO16;
    assert Encode(w, 2) == Encode(w / 256, 1) + [w % 256];
    assert Encode(w / 256, 1) == [] + [w / 256 % 256];
    assert w % 256 == v % 256 && w / 256 % 256 == v / 256 % 256;
  }

  lemma {:induction false} WordSumOfLong(v: nat)
    requires v < TWO32
    ensures WordSum(Encode(v, 4), false) == v / TWO16 + v % TWO16
  {
    assert Encode(v, 4) == Encode(v / TWO16, 2) + Encode(v % TWO16, 2) by { EncodeHalves(v); }
    WordSumSplits(Encode(v / TWO16, 2), Encode(v % TWO16, 2), false);
    WordSumOfField(v / TWO16);
    WordSumOfField(v % TWO16);
  }

  /** The shortcut computes the word sum of the pseudo-header, and it is small enough for
      any segment that a datagram can hold. */
  lemma {:induction false} PseudoChecksumIsSum(h: Header)
    requires InRange(h)
    ensures PseudoChecksum(h) == WordSum(PseudoHeader(h), false)
    ensures PseudoChecksum(h) < 0x1000_0000
  {
    var len := PayloadLength(h);
    WordSumOfLong(h.src);
    WordSumOfLong(h.dst);
    WordSumOfField(h.proto);
    WordSumOfField(len);
    WordSumSplits(Encode(h.src, 4), Encode(h.dst, 4) + (Encode(h.proto, 2) + Encode(len, 2)), false);
    WordSumSplits(Encode(h.dst, 4), Encode(h.proto, 2) + Encode(len, 2), false);
    WordSumSplits(Encode(h.proto, 2), Encode(len, 2), false);
  }
}
