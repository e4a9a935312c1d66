/** The TCP header byte by byte (section 3.1 of RFC 793), for writing and for reading. */
module TcpLayout {
  import opened Types
  import opened TcpSegments
  import opened Wire
  import opened InternetChecksums
  import opened TcpWire
  import opened FieldLayouts

  /** The widths of the fields and where they begin. */
  predicate Standard(ws: seq<nat>, pl: seq<nat>) {
    && |ws| == 9 && Places(ws, pl)
    && ws[0] == 2 && ws[1] == 2 && ws[2] == 4 && ws[3] == 4 && ws[4] == 1 && ws[5] == 1
    && ws[6] == 2 && ws[7] == 2 && ws[8] == 2
    && pl[1] == 2 && pl[2] == 4 && pl[3] == 8 && pl[4] == 12 && pl[5] == 13 && pl[6] == 14
    && pl[7] == 16 && pl[8] == 18 && pl[9] == 20
  }

  lemma {:induction false} StandardPlaces() returns (pl: seq<nat>)
    ensures Standard(WIDTHS, pl)
  {
    pl := [0, 2, 4, 8, 12, 13, 14, 16, 18, 20];
  }

  /** A flag at its weight. */
  function Weight(b: bool, weight: nat): nat {
    if b then weight else 0
  }

  /** `s` begins with the header `h`, field by field. */
  ghost predicate LaidOut(s: seq<byte>, h: Header) {
    && |s| >= 20
    && U16At(s, 0) == h.sport && U16At(s, 2) == h.dport
    && U32At(s, 4) == h.seqno && U32At(s, 8) == h.ackno
    && s[12] == 16 * h.doff
    && s[13] == Weight(h.urg, 32) + Weight(h.ack, 16) + Weight(h.psh, 8)
                + Weight(h.rst, 4) + Weight(h.syn, 2) + Weight(h.fin, 1)
    && U16At(s, 14) == h.win && U16At(s, 16) == h.cksum && U16At(s, 18) == h.uptr
  }

  lemma {:induction false} PortsWritten(h: Header, ws: seq<nat>, pl: seq<nat>, s: seq<byte>)
    requires Standard(ws, pl) && s == WriteAll(Values(h), ws)
    ensures |s| == 20 && U16At(s, 0) == h.sport && U16At(s, 2) == h.dport
  {
    FieldWritten(Values(h), ws, pl, 0);
    FieldWritten(Values(h), ws, pl, 1);
    Written16(s, 0, h.sport);
    Written16(s, 2, h.dport);
  }

  lemma {:induction false} NumbersWritten(h: Header, ws: seq<nat>, pl: seq<nat>, s: seq<byte>)
    requires Standard(ws, pl) && s == WriteAll(Values(h), ws)
    ensures |s| == 20 && U32At(s, 4) == h.seqno && U32At(s, 8) == h.ackno
  {
    FieldWritten(Values(h), ws, pl, 2);
    FieldWritten(Values(h), ws, pl, 3);
    Written32(s, 4, h.seqno);
    Written32(s, 8, h.ackno);
  }

  lemma {:induction false} FlagsWritten(h: Header, ws: seq<nat>, pl: seq<nat>, s: seq<byte>)
    requires Standard(ws, pl) && s == WriteAll(Values(h), ws) && h.doff <= 15
    ensures |s| == 20 && s[12] == 16 * h.doff && s[13] == FlagsByte(h)
  {
    FieldWritten(Values(h), ws, pl, 4);
    FieldWritten(Values(h), ws, pl, 5);
    FlagsRoundTrip(h);
    Written8(s, 12, 16 * h.doff);
    Written8(s, 13, FlagsByte(h));
  }

  lemma {:induction false} RestWritten(h: Header, ws: seq<nat>, pl: seq<nat>, s: seq<byte>)
    requires Standard(ws, pl) && s == WriteAll(Values(h), ws)
    ensures |s| == 20 && U16At(s, 14) == h.win && U16At(s, 16) == h.cksum && U16At(s, 18) == h.uptr
  {
    FieldWritten(Values(h), ws, pl, 6);
    FieldWritten(Values(h), ws, pl, 7);
    FieldWritten(Values(h), ws, pl, 8);
    Written16(s, 14, h.win);
    Written16(s, 16, h.cksum);
    Written16(s, 18, h.uptr);
  }

  lemma {:induction false} FixedPart(h: Header, ws: seq<nat>, pl: seq<nat>, s: seq<byte>)
    requires Standard(ws, pl) && h.doff <= 15 && s == WriteAll(Values(h), ws)
    ensures |s| == 20 && LaidOut(s, h)
  {
    PortsWritten(h, ws, pl, s);
    NumbersWritten(h, ws, pl, s);
    FlagsWritten(h, ws, pl, s);
    RestWritten(h, ws, pl, s);
  }

  lemma {:induction false} Padded(s: seq<byte>, h: Header, n: nat)
    requires |s| == 20 && LaidOut(s, h)
    ensures |s + Zeros(n)| == 20 + n && LaidOut(s + Zeros(n), h)
    ensures forall i :: 20 <= i < 20 + n ==> (s + Zeros(n))[i] == 0
  {
    ZerosAreZero(n);
    var t := s + Zeros(n);
    assert forall i :: 0 <= i < 20 ==> t[i] == s[i];
  }

  /** The serialized header has every field at its place, in network byte order, and zeros
      where options would be; below five words there is none. */
  lemma {:induction false} HeaderLayout(h: Header)
    requires h.doff <= 15
    ensures SerializeHeader(h).Some? <==> h.doff >= 5
    ensures h.doff >= 5 ==>
      var s := SerializeHeader(h).value;
      |s| == 4 * h.doff && LaidOut(s, h) && forall i :: 20 <= i < |s| ==> s[i] == 0
  {
    if h.doff >= 5 {
      var pl := StandardPlaces();
      var s := WriteAll(Values(h), WIDTHS);
      FixedPart(h, WIDTHS, pl, s);
      Padded(s, h, 4 * h.doff - 20);
    }
  }

  // ---- reading

  /** The numbers read are those at the fields' places. */
  ghost predicate NumbersAt(vs: seq<int>, s: seq<byte>)
    requires |s| >= 20
  {
    && |vs| == 9
    && vs[0] == U16At(s, 0) && vs[1] == U16At(s, 2) && vs[2] == U32At(s, 4) && vs[3] == U32At(s, 8)
    && vs[4] == s[12] && vs[5] == s[13]
    && vs[6] == U16At(s, 14) && vs[7] == U16At(s, 16) && vs[8] == U16At(s, 18)
  }

  lemma {:induction false} FirstNumbersRead(s: seq<byte>, ws: seq<nat>, pl: seq<nat>, vs: seq<int>)
    requires Standard(ws, pl) && |s| >= 20 && vs == ReadAll(Parser(s, NoError), ws)
    ensures |vs| == 9 && vs[0] == U16At(s, 0) && vs[1] == U16At(s, 2)
    ensures vs[2] == U32At(s, 4) && vs[3] == U32At(s, 8)
  {
    FieldRead(s, ws, pl, 0);
    FieldRead(s, ws, pl, 1);
    FieldRead(s, ws, pl, 2);
    FieldRead(s, ws, pl, 3);
    Read16(s, 0);
    Read16(s, 2);
    Read32(s, 4);
    Read32(s, 8);
  }

  lemma {:induction false} LastNumbersRead(s: seq<byte>, ws: seq<nat>, pl: seq<nat>, vs: seq<int>)
    requires Standard(ws, pl) && |s| >= 20 && vs == ReadAll(Parser(s, NoError), ws)
    ensures |vs| == 9 && vs[4] == s[12] && vs[5] == s[13]
    ensures vs[6] == U16At(s, 14) && vs[7] == U16At(s, 16) && vs[8] == U16At(s, 18)
  {
    FieldRead(s, ws, pl, 4);
    FieldRead(s, ws, pl, 5);
    FieldRead(s, ws, pl, 6);
    FieldRead(s, ws, pl, 7);
    FieldRead(s, ws, pl, 8);
    Read8(s, 12);
    Read8(s, 13);
    Read16(s, 14);
    Read16(s, 16);
    Read16(s, 18);
  }

  lemma {:induction false} AllRead(s: seq<byte>, ws: seq<nat>, pl: seq<nat>, vs: seq<int>)
    requires Standard(ws, pl) && |s| >= 20 && vs == ReadAll(Parser(s, NoError), ws)
    ensures NumbersAt(vs, s) && SkipAll(Parser(s, NoError), ws) == Parser(s[20..], NoError)
  {
    FirstNumbersRead(s, ws, pl, vs);
    LastNumbersRead(s, ws, pl, vs);
    SkippedTo(s, ws, pl, 9);
    assert ws[..9] == ws;
  }

  /** `h` is what the first twenty bytes of `s` say. */
  ghost predicate ReadFrom(h: Header, s: seq<byte>) {
    && |s| >= 20
    && h.sport == U16At(s, 0) && h.dport == U16At(s, 2)
    && h.seqno == U32At(s, 4) && h.ackno == U32At(s, 8)
    && h.doff == s[12] / 16
    && (h.urg <==> s[13] / 32 % 2 == 1) && (h.ack <==> s[13] / 16 % 2 == 1) && (h.psh <==> s[13] / 8 % 2 == 1)
    && (h.rst <==> s[13] / 4 % 2 == 1) && (h.syn <==> s[13] / 2 % 2 == 1) && (h.fin <==> s[13] % 2 == 1)
    && h.win == U16At(s, 14) && h.cksum == U16At(s, 16) && h.uptr == U16At(s, 18)
  }

  lemma {:induction false} OffsetByte(b: int)
    requires 0 <= b < 256
    ensures b % 256 / 16 == b / 16
  {
  }

  lemma {:induction false} HeaderFrom(s: seq<byte>, vs: seq<int>)
    requires Octets(s) && |s| >= 20 && NumbersAt(vs, s)
    ensures ReadFrom(FromValues(vs), s)
  {
    ReadFits(s, 0);
    ReadFits(s, 2);
    ReadFits(s, 4);
    ReadFits(s, 8);
    ReadFits(s, 14);
    ReadFits(s, 16);
    ReadFits(s, 18);
    SmallEnough(vs[0], TWO16);
    SmallEnough(vs[1], TWO16);
    SmallEnough(vs[2], TWO32);
    SmallEnough(vs[3], TWO32);
    SmallEnough(vs[6], TWO16);
    SmallEnough(vs[7], TWO16);
    SmallEnough(vs[8], TWO16);
    OffsetByte(vs[4]);
  }

  lemma {:induction false} Finishes(h: Header, s: seq<byte>)
    requires |s| >= 20
    ensures var parsed := FinishHeader(h, Parser(s[20..], NoError));
      && parsed.value == h
      && (if h.doff < 5 then parsed.result == HeaderTooShort && parsed.rest == Parser(s[20..], NoError)
          else if 4 * h.doff > |s| then parsed.result == PacketTooShort == parsed.rest.error
          else parsed.result == NoError && parsed.rest == Parser(s[4 * h.doff..], NoError))
  {
    if 5 <= h.doff && 4 * h.doff <= |s| {
      assert s[20..][4 * h.doff - 20..] == s[4 * h.doff..];
    }
  }

  /** From any buffer of at least twenty bytes each field is read from its place; the
      options are skipped if the data offset is at least five words and they are there. */
  lemma {:induction false} ParsedLayout(s: seq<byte>)
    requires Octets(s) && |s| >= 20
    ensures var parsed := ParseHeader(Parser(s, NoError));
      && ReadFrom(parsed.value, s)
      && (if s[12] / 16 < 5 then parsed.result == HeaderTooShort && parsed.rest == Parser(s[20..], NoError)
          else if 4 * (s[12] / 16) > |s| then parsed.result == PacketTooShort == parsed.rest.error
          else parsed.result == NoError && parsed.rest == Parser(s[4 * (s[12] / 16)..], NoError))
  {
    var vs := ReadAll(Parser(s, NoError), WIDTHS);
    var pl := StandardPlaces();
    AllRead(s, WIDTHS, pl, vs);
    HeaderFrom(s, vs);
    Finishes(FromValues(vs), s);
  }

  lemma {:induction false} FieldsFrom(p: Parser, h: Header)
    requires |ReadAll(p, WIDTHS)| == 9 && h == FromValues(ReadAll(p, WIDTHS))
    ensures p.error == NoError && Octets(p.buffer) && |p.buffer| >= 20 ==> ReadFrom(h, p.buffer)
  {
    if p.error == NoError && Octets(p.buffer) && |p.buffer| >= 20 {
      var pl := StandardPlaces();
      AllRead(p.buffer, WIDTHS, pl, ReadAll(p, WIDTHS));
      HeaderFrom(p.buffer, ReadAll(p, WIDTHS));
    }
  }

  // ---- segments

  /** The checksum in the header makes all words, with the pseudo-header's sum, a positive
      multiple of 65535. */
  ghost predicate Verified(s: seq<byte>, pseudo: nat) {
    pseudo + SumOfWords(s) > 0 && (pseudo + SumOfWords(s)) % 0xffff == 0
  }

  lemma {:induction false} LaidOutBefore(s: seq<byte>, payload: seq<byte>, h: Header)
    requires LaidOut(s, h)
    ensures LaidOut(s + payload, h)
  {
    var t := s + payload;
    assert forall i :: 0 <= i < |s| ==> t[i] == s[i];
  }

  /** `s` is the segment, byte by byte, with its checksum filled in. */
  ghost predicate SegmentBytes(seg: Segment, pseudo: nat, s: seq<byte>) {
    && |s| == 4 * seg.header.doff + |seg.payload| && |s| >= 20
    && s[4 * seg.header.doff..] == seg.payload
    && LaidOut(s, seg.header.(cksum := U16At(s, 16) % TWO16))
    && (pseudo + SumOfWords(s) < TWO32 ==> Verified(s, pseudo))
  }

  lemma {:induction false} BytesTogether(seg: Segment, pseudo: nat, h: Header, bytes: seq<byte>)
    requires LaidOut(bytes, h) && |bytes| == 4 * seg.header.doff && h == seg.header.(cksum := h.cksum)
    requires Octets(bytes + seg.payload) && Value(AddAll(Checksum(pseudo, false), bytes + seg.payload)) == 0
    ensures SegmentBytes(seg, pseudo, bytes + seg.payload)
  {
    LaidOutBefore(bytes, seg.payload, h);
    if pseudo + SumOfWords(bytes + seg.payload) < TWO32 {
      VerifiesExactly(pseudo, bytes + seg.payload);
    }
  }

  /** A serialized segment is its header, with a checksum that verifies, and its payload. */
  lemma {:induction false} SegmentLayout(seg: Segment, pseudo: nat)
    requires 5 <= seg.header.doff <= 15 && Octets(seg.payload) && SumFits(seg, pseudo)
    ensures SegmentBytes(seg, pseudo, SerializeSegment(seg, pseudo).value)
  {
    HeaderLayout(Checked(seg, pseudo));
    SegmentVerifies(seg, pseudo);
    BytesTogether(seg, pseudo, Checked(seg, pseudo), SerializeHeader(Checked(seg, pseudo)).value);
  }

  /** A buffer of at least twenty bytes is rejected exactly if it does not verify; otherwise
      the header and what follows it are taken as they are, and only a data offset beyond
      the end is an error. */
  lemma {:induction false} ParsedSegmentLayout(s: seq<byte>, pseudo: nat)
    requires Octets(s) && |s| >= 20 && pseudo + SumOfWords(s) < TWO32
    ensures var (result, seg) := ParseSegment(s, pseudo);
      && (!Verified(s, pseudo) ==> result == BadChecksum && seg.None?)
      && (Verified(s, pseudo) ==>
            && seg.Some? && ReadFrom(seg.value.header, s)
            && (if 4 * (s[12] / 16) > |s| then result == PacketTooShort
                else result == NoError && seg.value.payload == s[Max(20, 4 * (s[12] / 16))..]))
  {
    VerifiesExactly(pseudo, s);
    ParsedLayout(s);
  }
}
