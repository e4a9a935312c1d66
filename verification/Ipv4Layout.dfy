/** The IPv4 header byte by byte (section 3.1 of RFC 791), for writing and for reading. */
module Ipv4Layout {
  import opened Types
  import opened Ipv4
  import opened Wire
  import opened InternetChecksums
  import opened Ipv4Wire
  import opened FieldLayouts

  /** The widths of the fields and where they begin. */
  predicate Standard(ws: seq<nat>, pl: seq<nat>) {
    && |ws| == 10 && Places(ws, pl)
    && ws[0] == 1 && ws[1] == 1 && ws[2] == 2 && ws[3] == 2 && ws[4] == 2 && ws[5] == 1 && ws[6] == 1
    && ws[7] == 2 && ws[8] == 4 && ws[9] == 4
    && pl[1] == 1 && pl[2] == 2 && pl[3] == 4 && pl[4] == 6 && pl[5] == 8 && pl[6] == 9
    && pl[7] == 10 && pl[8] == 12 && pl[9] == 16 && pl[10] == 20
  }

  lemma {:induction false} StandardPlaces() returns (pl: seq<nat>)
    ensures Standard(WIDTHS, pl)
  {
    pl := [0, 1, 2, 4, 6, 8, 9, 10, 12, 16, 20];
  }

  // ---- writing

  /** `s` begins with the header `h`, field by field. */
  ghost predicate LaidOut(s: seq<byte>, h: Header) {
    && |s| >= 20
    && s[0] == 16 * h.ver + h.hlen && s[1] == h.tos && U16At(s, 2) == h.len
    && U16At(s, 4) == h.id
    && U16At(s, 6) == (if h.df then 0x4000 else 0) + (if h.mf then 0x2000 else 0) + h.offset
    && s[8] == h.ttl && s[9] == h.proto && U16At(s, 10) == h.cksum
    && U32At(s, 12) == h.src && U32At(s, 16) == h.dst
  }

  lemma {:induction false} StartWritten(h: Header, ws: seq<nat>, pl: seq<nat>, s: seq<byte>)
    requires Standard(ws, pl) && InRange(h) && s == WriteAll(Values(h), ws)
    ensures |s| == 20 && s[0] == 16 * h.ver + h.hlen && s[1] == h.tos && U16At(s, 2) == h.len
  {
    FieldWritten(Values(h), ws, pl, 0);
    FieldWritten(Values(h), ws, pl, 1);
    FieldWritten(Values(h), ws, pl, 2);
    Written8(s, 0, 16 * h.ver + h.hlen);
    Written8(s, 1, h.tos);
    Written16(s, 2, h.len);
  }

  lemma {:induction false} FragmentWritten(h: Header, ws: seq<nat>, pl: seq<nat>, s: seq<byte>)
    requires Standard(ws, pl) && InRange(h) && s == WriteAll(Values(h), ws)
    ensures |s| == 20 && U16At(s, 4) == h.id
    ensures U16At(s, 6) == (if h.df then 0x4000 else 0) + (if h.mf then 0x2000 else 0) + h.offset
  {
    FieldWritten(Values(h), ws, pl, 3);
    FieldWritten(Values(h), ws, pl, 4);
    FragmentRoundTrip(h);
    Written16(s, 4, h.id);
    Written16(s, 6, FragmentWord(h));
  }

  lemma {:induction false} MiddleWritten(h: Header, ws: seq<nat>, pl: seq<nat>, s: seq<byte>)
    requires Standard(ws, pl) && InRange(h) && s == WriteAll(Values(h), ws)
    ensures |s| == 20 && s[8] == h.ttl && s[9] == h.proto && U16At(s, 10) == h.cksum
  {
    FieldWritten(Values(h), ws, pl, 5);
    FieldWritten(Values(h), ws, pl, 6);
    FieldWritten(Values(h), ws, pl, 7);
    Written8(s, 8, h.ttl);
    Written8(s, 9, h.proto);
    Written16(s, 10, h.cksum);
  }

  lemma {:induction false} AddressesWritten(h: Header, ws: seq<nat>, pl: seq<nat>, s: seq<byte>)
    requires Standard(ws, pl) && InRange(h) && s == WriteAll(Values(h), ws)
    ensures |s| == 20 && U32At(s, 12) == h.src && U32At(s, 16) == h.dst
  {
    FieldWritten(Values(h), ws, pl, 8);
    FieldWritten(Values(h), ws, pl, 9);
    Written32(s, 12, h.src);
    Written32(s, 16, h.dst);
  }

  lemma {:induction false} FixedPart(h: Header, ws: seq<nat>, pl: seq<nat>, s: seq<byte>)
    requires Standard(ws, pl) && InRange(h) && s == WriteAll(Values(h), ws)
    ensures |s| == 20 && LaidOut(s, h)
  {
    StartWritten(h, ws, pl, s);
    FragmentWritten(h, ws, pl, s);
    MiddleWritten(h, ws, pl, s);
    AddressesWritten(h, ws, pl, s);
  }

  lemma {:induction false} Padded(s: seq<byte>, h: Header, n: nat)
    requires |s| == 20 && LaidOut(s, h)
    ensures |s + Zeros(n)| == 20 + n && LaidOut(s + Zeros(n), h)
    ensures forall i :: 20 <= i < 20 + n ==> (s + Zeros(n))[i] == 0
  {
    ZerosAreZero(n);
    var t := s + Zeros(n);
    assert forall i :: 0 <= i < 20 ==> t[i] == s[i];
  }

  /** The serialized header has every field at its place, in network byte order, and zeros
      where options would be; there is none for another version or a shorter length. */
  lemma {:induction false} HeaderLayout(h: Header)
    requires InRange(h)
    ensures SerializeHeader(h).Some? <==> h.ver == 4 && h.hlen >= 5
    ensures SerializeHeader(h).Some? ==>
      var s := SerializeHeader(h).value;
      |s| == 4 * h.hlen && LaidOut(s, h) && forall i :: 20 <= i < |s| ==> s[i] == 0
  {
    if h.ver == 4 && h.hlen >= 5 {
      var pl := StandardPlaces();
      var s := WriteAll(Values(h), WIDTHS);
      FixedPart(h, WIDTHS, pl, s);
      Padded(s, h, 4 * h.hlen - 20);
    }
  }

  // ---- reading

  /** The numbers read are those at the fields' places. */
  ghost predicate NumbersAt(vs: seq<int>, s: seq<byte>)
    requires |s| >= 20
  {
    && |vs| == 10
    && vs[0] == s[0] && vs[1] == s[1] && vs[2] == U16At(s, 2) && vs[3] == U16At(s, 4) && vs[4] == U16At(s, 6)
    && vs[5] == s[8] && vs[6] == s[9] && vs[7] == U16At(s, 10) && vs[8] == U32At(s, 12) && vs[9] == U32At(s, 16)
  }

  lemma {:induction false} FirstNumbersRead(s: seq<byte>, ws: seq<nat>, pl: seq<nat>, vs: seq<int>)
    requires Standard(ws, pl) && |s| >= 20 && vs == ReadAll(Parser(s, NoError), ws)
    ensures |vs| == 10 && vs[0] == s[0] && vs[1] == s[1] && vs[2] == U16At(s, 2) && vs[3] == U16At(s, 4)
    ensures vs[4] == U16At(s, 6)
  {
    FieldRead(s, ws, pl, 0);
    FieldRead(s, ws, pl, 1);
    FieldRead(s, ws, pl, 2);
    FieldRead(s, ws, pl, 3);
    FieldRead(s, ws, pl, 4);
    Read8(s, 0);
    Read8(s, 1);
    Read16(s, 2);
    Read16(s, 4);
    Read16(s, 6);
  }

  lemma {:induction false} LastNumbersRead(s: seq<byte>, ws: seq<nat>, pl: seq<nat>, vs: seq<int>)
    requires Standard(ws, pl) && |s| >= 20 && vs == ReadAll(Parser(s, NoError), ws)
    ensures |vs| == 10 && vs[5] == s[8] && vs[6] == s[9] && vs[7] == U16At(s, 10)
    ensures vs[8] == U32At(s, 12) && vs[9] == U32At(s, 16)
  {
    FieldRead(s, ws, pl, 5);
    FieldRead(s, ws, pl, 6);
    FieldRead(s, ws, pl, 7);
    FieldRead(s, ws, pl, 8);
    FieldRead(s, ws, pl, 9);
    Read8(s, 8);
    Read8(s, 9);
    Read16(s, 10);
    Read32(s, 12);
    Read32(s, 16);
  }

  lemma {:induction false} AllRead(s: seq<byte>, ws: seq<nat>, pl: seq<nat>, vs: seq<int>)
    requires Standard(ws, pl) && |s| >= 20 && vs == ReadAll(Parser(s, NoError), ws)
    ensures NumbersAt(vs, s) && SkipAll(Parser(s, NoError), ws) == Parser(s[20..], NoError)
  {
    FirstNumbersRead(s, ws, pl, vs);
    LastNumbersRead(s, ws, pl, vs);
    SkippedTo(s, ws, pl, 10);
    assert ws[..10] == ws;
  }

  /** `h` is what the first twenty bytes of `s` say. */
  ghost predicate ReadFrom(h: Header, s: seq<byte>) {
    && |s| >= 20
    && h.ver == s[0] / 16 && h.hlen == s[0] % 16 && h.tos == s[1] && h.len == U16At(s, 2)
    && h.id == U16At(s, 4)
    && (h.df <==> s[6] / 64 % 2 == 1) && (h.mf <==> s[6] / 32 % 2 == 1) && h.offset == U16At(s, 6) % 0x2000
    && h.ttl == s[8] && h.proto == s[9] && h.cksum == U16At(s, 10)
    && h.src == U32At(s, 12) && h.dst == U32At(s, 16)
  }

  /** The flags are the second and third highest bits of the fragment word. */
  lemma {:induction false} FragmentBits(hi: int, lo: int)
    requires 0 <= hi < 256 && 0 <= lo < 256
    ensures (256 * hi + lo) / 0x4000 == hi / 64 && (256 * hi + lo) / 0x2000 == hi / 32
  {
  }

  lemma {:induction false} NumbersFit(vs: seq<int>, s: seq<byte>)
    requires Octets(s) && |s| >= 20 && NumbersAt(vs, s)
    ensures vs[2] % TWO16 == vs[2] && vs[3] % TWO16 == vs[3] && vs[7] % TWO16 == vs[7]
    ensures vs[8] % TWO32 == vs[8] && vs[9] % TWO32 == vs[9]
  {
    ReadFits(s, 2);
    ReadFits(s, 4);
    ReadFits(s, 10);
    ReadFits(s, 12);
    ReadFits(s, 16);
    SmallEnough(vs[2], TWO16);
    SmallEnough(vs[3], TWO16);
    SmallEnough(vs[7], TWO16);
    SmallEnough(vs[8], TWO32);
    SmallEnough(vs[9], TWO32);
  }

  lemma {:induction false} HeaderFrom(s: seq<byte>, vs: seq<int>)
    requires Octets(s) && |s| >= 20 && NumbersAt(vs, s)
    ensures ReadFrom(FromValues(vs), s)
  {
    NumbersFit(vs, s);
    SmallEnough(vs[0], 256);
    SmallEnough(vs[1], 256);
    SmallEnough(vs[5], 256);
    SmallEnough(vs[6], 256);
    FragmentBits(s[6], s[7]);
  }

  lemma {:induction false} Finishes(h: Header, s: seq<byte>)
    requires Octets(s) && |s| >= 20
    ensures var parsed := FinishHeader(h, s, Parser(s[20..], NoError));
      && parsed.value == h
      && (h.hlen * 4 > |s| ==> parsed.result == PacketTooShort)
      && (h.hlen * 4 <= |s| && h.ver != 4 ==> parsed.result == WrongIPVersion)
      && (h.hlen * 4 <= |s| && h.ver == 4 && h.hlen < 5 ==> parsed.result == HeaderTooShort)
      && (h.hlen * 4 <= |s| && h.ver == 4 && h.hlen >= 5 && h.len != |s| ==> parsed.result == TruncatedPacket)
      && (h.hlen * 4 <= |s| && h.ver == 4 && h.hlen >= 5 && h.len == |s| ==>
            && parsed.rest == Parser(s[4 * h.hlen..], NoError)
            && (parsed.result == NoError || parsed.result == BadChecksum))
  {
    if 5 <= h.hlen && 4 * h.hlen <= |s| {
      assert s[20..][4 * h.hlen - 20..] == s[4 * h.hlen..];
    }
  }

  /** From any packet of at least twenty bytes each field is read from its place, and the
      checks are made in order: the length of the header, the version, the least length,
      the total length, the checksum. A shorter one leaves the header as it was. */
  lemma {:induction false} ParsedLayout(s: seq<byte>, h0: Header)
    requires Octets(s)
    ensures |s| < 20 ==> ParseHeader(Parser(s, NoError), h0) == Parsed(h0, Parser(s, NoError), PacketTooShort)
    ensures |s| >= 20 ==>
      var parsed := ParseHeader(Parser(s, NoError), h0);
      && ReadFrom(parsed.value, s)
      && (s[0] % 16 * 4 > |s| ==> parsed.result == PacketTooShort)
      && (s[0] % 16 * 4 <= |s| && s[0] / 16 != 4 ==> parsed.result == WrongIPVersion)
      && (s[0] % 16 * 4 <= |s| && s[0] / 16 == 4 && s[0] % 16 < 5 ==> parsed.result == HeaderTooShort)
      && (s[0] % 16 * 4 <= |s| && s[0] / 16 == 4 && s[0] % 16 >= 5 && U16At(s, 2) != |s| ==>
            parsed.result == TruncatedPacket)
      && (s[0] % 16 * 4 <= |s| && s[0] / 16 == 4 && s[0] % 16 >= 5 && U16At(s, 2) == |s| ==>
            && parsed.rest == Parser(s[4 * (s[0] % 16)..], NoError)
            && (parsed.result == NoError || parsed.result == BadChecksum))
  {
    if |s| >= 20 {
      var vs := ReadAll(Parser(s, NoError), WIDTHS);
      var pl := StandardPlaces();
      AllRead(s, WIDTHS, pl, vs);
      HeaderFrom(s, vs);
      Finishes(FromValues(vs), s);
    }
  }

  // ---- datagrams

  /** The sum of the words is a positive multiple of 65535. */
  ghost predicate Verified(s: seq<byte>) {
    SumOfWords(s) > 0 && SumOfWords(s) % 0xffff == 0
  }

  /** A header is short enough for the 32-bit sum. */
  lemma {:induction false} VerifiedHeader(s: seq<byte>)
    requires Octets(s) && |s| <= 60
    ensures Value(AddAll(Checksum(0, false), s)) == 0 <==> Verified(s)
  {
    WordByWord(s);
    WordSumBound(s, false);
    VerifiesExactly(0, s);
  }

  lemma {:induction false} CheckedInRange(h: Header)
    requires InRange(h) && h.ver == 4 && h.hlen >= 5
    ensures InRange(Checked(h)) && Checked(h) == h.(cksum := Checked(h).cksum)
  {
  }

  /** `s` is the datagram, byte by byte, with its checksum filled in. */
  ghost predicate DatagramBytes(d: Datagram, s: seq<byte>) {
    var n := 4 * d.header.hlen;
    && 20 <= n && |s| == n + |d.payload| && s[n..] == d.payload
    && LaidOut(s, d.header.(cksum := Max(0, U16At(s, 10)))) && Verified(s[..n])
  }

  lemma {:induction false} BytesTogether(d: Datagram, h: Header, bytes: seq<byte>)
    requires d.header.hlen >= 5 && |bytes| == 4 * d.header.hlen
    requires LaidOut(bytes, h) && h == d.header.(cksum := h.cksum) && Verified(bytes)
    ensures DatagramBytes(d, bytes + d.payload)
  {
    var t := bytes + d.payload;
    assert forall i :: 0 <= i < |bytes| ==> t[i] == bytes[i];
    assert t[..|bytes|] == bytes;
  }

  lemma {:induction false} HeaderBytesOf(h: Header, bytes: seq<byte>)
    requires InRange(h) && h.ver == 4 && h.hlen >= 5 && bytes == SerializeHeader(Checked(h)).value
    ensures InRange(Checked(h)) && Checked(h) == h.(cksum := Checked(h).cksum)
    ensures |bytes| == 4 * h.hlen && LaidOut(bytes, Checked(h)) && Verified(bytes)
  {
    CheckedInRange(h);
    HeaderLayout(Checked(h));
    HeaderVerifies(h);
    SerializedOctets(Checked(h));
    VerifiedHeader(bytes);
  }

  /** A serialized datagram is its header, with a checksum that verifies, and its payload. */
  lemma {:induction false} DatagramLayout(d: Datagram)
    requires InRange(d.header) && d.header.ver == 4 && d.header.hlen >= 5
    requires d.header.len == 4 * d.header.hlen + |d.payload|
    ensures SerializeDatagram(d).Some? && DatagramBytes(d, SerializeDatagram(d).value)
  {
    PayloadLengthIs(d.header, |d.payload|);
    SerializesTo(d);
    HeaderBytesOf(d.header, SerializeHeader(Checked(d.header)).value);
    BytesTogether(d, Checked(d.header), SerializeHeader(Checked(d.header)).value);
  }

  /** There is none if the length field is not that of the whole. */
  lemma {:induction false} WrongLengthThrows(d: Datagram)
    requires 4 * d.header.hlen <= d.header.len < TWO16 && d.header.len != 4 * d.header.hlen + |d.payload|
    ensures SerializeDatagram(d).None?
  {
    PayloadLengthIs(d.header, d.header.len - 4 * d.header.hlen);
  }

  lemma {:induction false} FinishDecides(h: Header, s: seq<byte>)
    requires Octets(s) && |s| >= 20 && h.ver == 4 && h.hlen >= 5 && 4 * h.hlen <= |s| == h.len
    ensures FinishHeader(h, s, Parser(s[20..], NoError)).result == NoError <==>
      Value(AddAll(Checksum(0, false), s[..4 * h.hlen])) == 0
  {
  }

  lemma {:induction false} ChecksumDecides(s: seq<byte>, h0: Header)
    requires Octets(s) && |s| >= 20
    requires s[0] / 16 == 4 && s[0] % 16 >= 5 && 4 * (s[0] % 16) <= |s| == U16At(s, 2)
    ensures Octets(s[..4 * (s[0] % 16)])
    ensures ParseHeader(Parser(s, NoError), h0).result == NoError <==>
      Value(AddAll(Checksum(0, false), s[..4 * (s[0] % 16)])) == 0
  {
    var vs := ReadAll(Parser(s, NoError), WIDTHS);
    var pl := StandardPlaces();
    AllRead(s, WIDTHS, pl, vs);
    HeaderFrom(s, vs);
    FinishDecides(FromValues(vs), s);
  }

  /** What parsing a whole packet gives: header and payload, whether or not the header's
      checksum verifies; the header parser itself says exactly that. */
  lemma {:induction false} ParsedDatagramLayout(s: seq<byte>, h0: Header)
    requires Octets(s) && |s| >= 20
    requires s[0] / 16 == 4 && s[0] % 16 >= 5 && 4 * (s[0] % 16) <= |s| == U16At(s, 2)
    ensures ParseDatagram(s, h0).0 == NoError && ReadFrom(ParseDatagram(s, h0).1.header, s)
    ensures ParseDatagram(s, h0).1.payload == s[4 * (s[0] % 16)..]
    ensures ParseHeader(Parser(s, NoError), h0).result == NoError <==> Verified(s[..4 * (s[0] % 16)])
  {
    ParsedLayout(s, h0);
    PayloadLengthIs(ParseHeader(Parser(s, NoError), h0).value, |s| - 4 * (s[0] % 16));
    ChecksumDecides(s, h0);
    VerifiedHeader(s[..4 * (s[0] % 16)]);
  }

  // ---- the pseudo-header

  lemma {:induction false} PseudoParts(s: seq<byte>, a: seq<byte>, b: seq<byte>, c: seq<byte>, d: seq<byte>)
    requires s == a + (b + (c + d)) && |a| == 4 && |b| == 4 && |c| == 2 && |d| == 2
    ensures |s| == 12 && s[0..4] == a && s[4..8] == b && s[8..10] == c && s[10..12] == d
  {
  }

  /** The pseudo-header of section 3.1 of RFC 793: both addresses, a zero, the protocol and
      the length of the payload; and its sum is what starts the TCP checksum. */
  lemma {:induction false} PseudoHeaderLayout(h: Header)
    requires InRange(h) && 4 * h.hlen <= h.len
    ensures var s := PseudoHeader(h);
      && |s| == 12 && U32At(s, 0) == h.src && U32At(s, 4) == h.dst
      && s[8] == 0 && s[9] == h.proto && U16At(s, 10) == h.len - 4 * h.hlen
      && PseudoChecksum(h) == SumOfWords(s)
  {
    var s := PseudoHeader(h);
    PayloadLengthIs(h, h.len - 4 * h.hlen);
    PseudoParts(s, Encode(h.src, 4), Encode(h.dst, 4), Encode(h.proto, 2), Encode(PayloadLength(h), 2));
    Written32(s, 0, h.src);
    Written32(s, 4, h.dst);
    Written16(s, 8, h.proto);
    EncodeTwo(h.proto);
    assert s[8..10][0] == s[8] && s[8..10][1] == s[9];
    Written16(s, 10, PayloadLength(h));
    PseudoChecksumIsSum(h);
    WordByWord(s);
  }
}
