/** Exactly what `fill_window` sends. */
module TcpFilling {
  import opened Types
  import opened WrappingIntegers
  import opened ByteStreams
  import opened TcpSegments
  import opened TcpSenders
  import opened TcpSenderInvariant

  /** How many numbers still fit the window. */
  function Room(s: Sender, window: nat): nat {
    Max(0, window - (s.next - s.acked))
  }

  /** How many bytes go out: as many as there are and fit. */
  function Bytes(s: Sender, window: nat): nat
    requires s.stream.Valid()
  {
    Min(|s.stream.written| - s.stream.read, Room(s, window))
  }

  /** The FIN goes out: the stream has ended, all of it goes out or is out, there is room for
      one number more, and the FIN is not out yet. */
  predicate WithFin(s: Sender, window: nat)
    requires s.stream.Valid()
  {
    && s.stream.ended && Bytes(s, window) == |s.stream.written| - s.stream.read
    && Bytes(s, window) < Room(s, window) && s.next < |s.stream.written| + 2
  }

  /** The number of segments: as few as possible, and one for a FIN alone. */
  function Count(bytes: nat, fin: bool): nat {
    if bytes > 0 then (bytes + 999) / 1000 else if fin then 1 else 0
  }

  /** Segment `i` of those that carry the next `bytes` bytes: a thousand of them each, the
      rest in the last, with the FIN there if there is one. */
  ghost predicate Carries(q: Segment, st: Stream, bytes: nat, fin: bool, i: nat)
    requires st.read + bytes <= |st.written|
  {
    && !q.header.syn
    && 1000 * i <= bytes
    && q.payload == st.written[st.read + 1000 * i..st.read + Min(1000 * (i + 1), bytes)]
    && (q.header.fin <==> fin && i + 1 == Count(bytes, fin))
  }

  ghost predicate CarriesAt(s: Sender, f: Sender, bytes: nat, fin: bool, i: nat)
    requires s.stream.read + bytes <= |s.stream.written| && |s.out| + i < |f.out|
  {
    Carries(f.out[|s.out| + i], s.stream, bytes, fin, i)
  }

  /** `f` is `s` after the next bytes, and the FIN if it fits, were put into segments. */
  ghost predicate SentExactly(s: Sender, window: nat, f: Sender)
    requires s.stream.Valid()
  {
    var bytes, fin := Bytes(s, window), WithFin(s, window);
    && f.stream == s.stream.(read := s.stream.read + bytes)
    && f.next == s.next + bytes + (if fin then 1 else 0)
    && |f.out| == |s.out| + Count(bytes, fin) && s.out <= f.out
    && forall i: nat :: i < Count(bytes, fin) ==> CarriesAt(s, f, bytes, fin, i)
  }

  lemma {:induction false} CountStep(bytes: nat, fin: bool)
    requires bytes > 1000
    ensures Count(bytes, fin) == 1 + Count(bytes - 1000, fin)
  {
    assert (bytes + 999) / 1000 == 1 + (bytes - 1) / 1000;
  }

  lemma {:induction false} CountOne(bytes: nat, fin: bool)
    requires 0 < bytes <= 1000
    ensures Count(bytes, fin) == 1
  {
  }

  /** Nothing goes out. */
  lemma {:induction false} SentNothing(s: Sender, window: nat)
    requires s.stream.Valid() && Bytes(s, window) == 0 && !WithFin(s, window)
    ensures SentExactly(s, window, s)
  {
  }

  /** One segment takes all that goes out. */
  lemma {:induction false} SentOne(s: Sender, window: nat, q: Segment, f: Sender)
    requires s.stream.Valid() && Bytes(s, window) <= 1000 && (Bytes(s, window) > 0 || WithFin(s, window))
    requires !q.header.syn && (q.header.fin <==> WithFin(s, window))
    requires q.payload == s.stream.written[s.stream.read..s.stream.read + Bytes(s, window)]
    requires f.stream == s.stream.(read := s.stream.read + Bytes(s, window))
    requires f.next == s.next + q.Length() && f.out == s.out + [q]
    ensures SentExactly(s, window, f)
  {
    var bytes, fin := Bytes(s, window), WithFin(s, window);
    assert CarriesAt(s, f, bytes, fin, 0);
  }

  /** A full segment goes out, and then what is left. */
  lemma {:induction false} SentFull(s: Sender, window: nat, q: Segment, m: Sender, f: Sender)
    requires s.stream.Valid() && m.stream.Valid() && Bytes(s, window) > 1000 && s.next <= s.stream.read + 1
    requires !q.header.syn && !q.header.fin
    requires q.payload == s.stream.written[s.stream.read..s.stream.read + 1000]
    requires m.stream == s.stream.(read := s.stream.read + 1000) && m.acked == s.acked
    requires m.next == s.next + 1000 && m.out == s.out + [q]
    requires SentExactly(m, window, f)
    ensures SentExactly(s, window, f)
  {
    var bytes, fin := Bytes(s, window), WithFin(s, window);
    assert Bytes(m, window) == bytes - 1000 && WithFin(m, window) == fin;
    CountStep(bytes, fin);
    forall i: nat | i < Count(bytes, fin)
      ensures CarriesAt(s, f, bytes, fin, i)
    {
      if i == 0 {
        assert f.out[|s.out|] == m.out[|s.out|] == q;
        assert Count(bytes - 1000, fin) > 0;
      } else {
        assert CarriesAt(m, f, bytes - 1000, fin, i - 1);
        assert f.out[|s.out| + i] == f.out[|m.out| + (i - 1)];
      }
    }
  }

  /** A turn that sends data sends as much as fits one segment, and the FIN with the last. */
  lemma {:induction false} TurnSends(s: Sender, window: nat, q: Segment)
    requires SenderInv(s) && s.next > 0 && window == EffectiveWindow(s)
    requires !s.stream.Eof() && FillTurn(s, window).More?
    requires q == FillTurn(s, window).s.out[|s.out|]
    ensures var m, b := FillTurn(s, window).s, Min(Bytes(s, window), 1000);
      && b > 0 && !q.header.syn && q.payload == s.stream.written[s.stream.read..s.stream.read + b]
      && (q.header.fin <==> WithFin(s, window) && Bytes(s, window) <= 1000)
      && m.stream == s.stream.(read := s.stream.read + b) && m.acked == s.acked
      && m.next == s.next + q.Length() && m.out == s.out + [q]
      && s.next == s.stream.read + 1
  {
    var remain := window - (s.next - s.acked);
    var size := Min(remain, MAX_PAYLOAD_SIZE);
    assert |s.stream.Peek(size)| == Min(Bytes(s, window), 1000);
  }

  lemma {:induction false} AfterTurn(s: Sender, window: nat, q: Segment, m: Sender, f: Sender)
    requires s.stream.Valid() && m.stream.Valid() && s.next == s.stream.read + 1
    requires SentExactly(m, window, f) && (f.next == m.next ==> f == m)
    requires var b := Min(Bytes(s, window), 1000);
      && b > 0 && !q.header.syn && q.payload == s.stream.written[s.stream.read..s.stream.read + b]
      && (q.header.fin <==> WithFin(s, window) && Bytes(s, window) <= 1000)
      && m.stream == s.stream.(read := s.stream.read + b) && m.acked == s.acked
      && m.next == s.next + q.Length() && m.out == s.out + [q]
    ensures SentExactly(s, window, f)
  {
    if Bytes(s, window) > 1000 {
      SentFull(s, window, q, m, f);
    } else {
      assert Bytes(m, window) == 0 && !WithFin(m, window);
      SentOne(s, window, q, m);
    }
  }

  lemma {:induction false} LoopSends(s: Sender, window: nat)
    requires SenderInv(s) && s.next > 0 && window == EffectiveWindow(s)
    ensures SentExactly(s, window, FillLoop(s, window))
    decreases Max(0, window - (s.next - s.acked))
  {
    var t := FillTurn(s, window);
    FillTurnKeeps(s, window);
    if t == Done(s) {
      SentNothing(s, window);
    } else if s.stream.Eof() {
      var q := MakeSegment(Wrap(s.next, s.isn), false, s.stream.Peek(0), true);
      SentOne(s, window, q, t.s);
    } else {
      var m := t.s;
      TurnSends(s, window, m.out[|s.out|]);
      LoopSends(m, window);
      FillLoopGrows(m, window);
      AfterTurn(s, window, m.out[|s.out|], m, FillLoop(m, window));
    }
  }

  /** Exactly what filling sends, once the SYN is acknowledged: the next bytes of the stream,
      as many as are there and fit the window, in segments of a thousand bytes but for the
      last, with the FIN on the last one (or alone) if the stream has ended and it fits. */
  lemma {:induction false} FillSendsExactly(s: Sender)
    requires SenderInv(s) && s.acked > 0
    ensures SentExactly(s, EffectiveWindow(s), FillWindow(s))
  {
    SynSentMeansUnacked(s);
    LoopSends(s, EffectiveWindow(s));
  }

  /** Before that it sends the SYN once, by itself as far as the window held allows. */
  lemma {:induction false} FillOpensOnce(s: Sender)
    requires SenderInv(s) && s.acked == 0
    ensures s.next > 0 ==> FillWindow(s) == s
    ensures s.next == 0 ==>
      && |s.out| < |FillWindow(s).out| && s.out <= FillWindow(s).out
      && FillWindow(s).out[|s.out|] == MakeSegment(s.isn, true, [], false)
      && (s.window <= 1 ==> FillWindow(s).next == 1)
  {
    if s.next > 0 {
      SynSentMeansUnacked(s);
    } else {
      var m := Emit(s, true, [], false);
      SynKeeps(s);
      LoopSends(m, EffectiveWindow(s));
      assert Wrap(0, s.isn) == s.isn;
      assert m.out[|s.out|] == MakeSegment(s.isn, true, [], false);
    }
  }
}
