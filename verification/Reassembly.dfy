/** What reassembly is supposed to do, said with a set of known indices and a
    byte for each, with no strings and no intervals. */
module Reassembly {
  import opened Types
  import opened ByteStreams

  /** `stream.written` is the assembled prefix; `buffered` holds the bytes that
      arrived ahead of it. */
  datatype Assembly = Assembly(stream: Stream, buffered: map<nat, byte>, eof: Option<nat>) {
    function Next(): nat { |stream.written| }

    /** First index that does not fit any more. */
    function Limit(): nat { stream.read + stream.capacity }

    predicate Known(i: nat) { i < Next() || i in buffered }

    function ByteAt(i: nat): byte
      requires Known(i)
    {
      if i < Next() then stream.written[i] else buffered[i]
    }

    /** Waiting bytes lie strictly after the first unknown index and inside the
        window, and the end of the stream is signalled as soon as it is reached. */
    ghost predicate Valid() {
      && stream.Valid()
      && (forall i :: i in buffered ==> Next() < i < Limit())
      && (eof.Some? && Next() >= eof.value ==> stream.ended)
    }

    function Read(len: nat): Assembly
      requires stream.Valid()
    {
      this.(stream := stream.Pop(len))
    }
  }

  function NewAssembly(capacity: nat): Assembly {
    Assembly(NewStream(capacity), map[], None)
  }

  datatype Push = Push(data: seq<byte>, index: nat, eof: bool) {
    predicate Covers(i: nat) { index <= i < index + |data| }
  }

  /** What a string at a 64-bit index amounts to. Where its end leaves 64 bits it wraps to
      a small number, so that the string looks as if it were known already: its bytes are
      lost, and only the wrapped end counts. */
  function Arriving(data: seq<byte>, index: nat, eof: bool): Push {
    if index + |data| < TWO64 then Push(data, index, eof)
    else Push([], (index + |data|) % TWO64, eof)
  }

  lemma {:induction false} ArrivingEnd(data: seq<byte>, index: nat, eof: bool)
    ensures var p := Arriving(data, index, eof); p.eof == eof && p.index + |p.data| == (index + |data|) % TWO64
  {
  }

  /** The bytes of `b` at indices not yet assembled in `a` come from `a` or from
      the push. */
  ghost predicate BytesFrom(a: Assembly, p: Push, b: Assembly) {
    forall i: nat | b.Known(i) && a.Next() <= i ::
      || (a.Known(i) && b.ByteAt(i) == a.ByteAt(i))
      || (p.Covers(i) && b.ByteAt(i) == p.data[i - p.index])
  }

  /** The known indices of `b` are those of `a` and those of the push below the limit. */
  ghost predicate KnownGrows(a: Assembly, p: Push, b: Assembly) {
    forall i: nat :: b.Known(i) <==> a.Known(i) || (p.Covers(i) && i < a.Limit())
  }

  /** Pushing `p` may turn `a` into `b`. */
  ghost predicate Pushed(a: Assembly, p: Push, b: Assembly) {
    && b.Valid()
    && a.stream.written <= b.stream.written
    && b.stream.(written := a.stream.written, ended := a.stream.ended) == a.stream
    && KnownGrows(a, p, b)
    && BytesFrom(a, p, b)
    && b.eof == (if p.eof then Some(p.index + |p.data|) else a.eof)
    && (b.stream.ended <==> a.stream.ended || (b.eof.Some? && b.Next() >= b.eof.value))
  }

  /** Delivery is eager: the assembled prefix ends at the least unknown index. */
  lemma {:induction false} NextIsLeastUnknown(a: Assembly, n: nat)
    requires a.Valid()
    ensures n == a.Next() <==> !a.Known(n) && forall i: nat :: i < n ==> a.Known(i)
  {
    if !a.Known(n) && n > a.Next() {
      assert !a.Known(a.Next());
    }
  }

  lemma {:induction false} Range(lo: nat, n: nat) returns (r: set<nat>)
    ensures forall i: nat :: i in r <==> lo <= i < lo + n
    ensures |r| == n
  {
    if n == 0 {
      r := {};
    } else {
      var r' := Range(lo, n - 1);
      r := r' + {lo + n - 1};
    }
  }

  lemma {:induction false} SubsetSize(a: set<nat>, b: set<nat>)
    requires a <= b
    ensures |a| <= |b|
  {
    assert b == a + (b - a);
  }

  /** Assembled and waiting bytes together never exceed the capacity. */
  lemma {:induction false} StorageIsBounded(a: Assembly)
    requires a.Valid()
    ensures |a.buffered| + a.stream.BufferSize() <= a.stream.capacity
  {
    var window := Range(a.Next(), a.Limit() - a.Next());
    assert a.buffered.Keys <= window;
    SubsetSize(a.buffered.Keys, window);
    assert |a.buffered.Keys| == |a.buffered|;
  }

  // ---- every push has an outcome

  predicate KnownAfter(a: Assembly, p: Push, i: nat) {
    a.Known(i) || (p.Covers(i) && i < a.Limit())
  }

  function ByteAfter(a: Assembly, p: Push, i: nat): byte
    requires KnownAfter(a, p, i)
  {
    if a.Known(i) then a.ByteAt(i) else p.data[i - p.index]
  }

  /** The least index from `from` on that stays unknown. */
  lemma {:induction false} NextAfter(a: Assembly, p: Push, from: nat) returns (n: nat)
    requires a.Valid() && a.Next() <= from <= a.Limit()
    ensures from <= n <= a.Limit() && !KnownAfter(a, p, n)
    ensures forall i: nat :: from <= i < n ==> KnownAfter(a, p, i)
    decreases a.Limit() - from
  {
    if KnownAfter(a, p, from) {
      n := NextAfter(a, p, from + 1);
    } else {
      n := from;
    }
  }

  lemma {:induction false} BytesAfter(a: Assembly, p: Push, n: nat) returns (written: seq<byte>)
    requires forall i: nat :: i < n ==> KnownAfter(a, p, i)
    ensures |written| == n && forall i: nat :: i < n ==> written[i] == ByteAfter(a, p, i)
  {
    if n == 0 {
      written := [];
    } else {
      written := BytesAfter(a, p, n - 1);
      written := written + [ByteAfter(a, p, n - 1)];
    }
  }

  lemma {:induction false} WaitingAfter(a: Assembly, p: Push, n: nat) returns (waiting: map<nat, byte>)
    requires a.Next() <= n
    ensures forall i: nat :: i in waiting <==> n < i && KnownAfter(a, p, i)
    ensures forall i: nat :: i in waiting ==> waiting[i] == ByteAfter(a, p, i)
  {
    var covered := Range(p.index, |p.data|);
    waiting := map i: nat | i in a.buffered.Keys + covered && n < i && KnownAfter(a, p, i) :: ByteAfter(a, p, i);
  }

  /** The push can always be taken in. */
  lemma {:induction false} PushHasOutcome(a: Assembly, p: Push) returns (b: Assembly)
    requires a.Valid()
    ensures Pushed(a, p, b)
  {
    var n := NextAfter(a, p, a.Next());
    assert forall i: nat :: i < n ==> KnownAfter(a, p, i);
    var written := BytesAfter(a, p, n);
    var waiting := WaitingAfter(a, p, n);
    var eof := if p.eof then Some(p.index + |p.data|) else a.eof;
    var ended := a.stream.ended || (eof.Some? && n >= eof.value);
    b := Assembly(a.stream.(written := written, ended := ended), waiting, eof);
    assert forall i: nat :: b.Known(i) <==> KnownAfter(a, p, i);
    forall i: nat | i < a.Next()
      ensures written[i] == a.stream.written[i]
    {
      assert KnownAfter(a, p, i);
    }
  }

  /** Every known byte is the byte of the true stream. */
  ghost predicate Consistent(a: Assembly, truth: seq<byte>) {
    && (forall i: nat :: a.Known(i) ==> i < |truth| && a.ByteAt(i) == truth[i])
    && (a.eof.Some? ==> a.eof.value == |truth|)
    && (a.stream.ended ==> a.Next() == |truth|)
  }

  predicate TruePush(p: Push, truth: seq<byte>) {
    && p.index + |p.data| <= |truth|
    && p.data == truth[p.index..p.index + |p.data|]
    && (p.eof ==> p.index + |p.data| == |truth|)
  }

  lemma {:induction false} PushKeepsConsistent(a: Assembly, p: Push, b: Assembly, truth: seq<byte>)
    requires Pushed(a, p, b) && Consistent(a, truth) && TruePush(p, truth)
    ensures Consistent(b, truth)
  {
    forall i: nat | b.Known(i)
      ensures i < |truth| && b.ByteAt(i) == truth[i]
    {
      if i < a.Next() {
        assert b.stream.written[i] == a.stream.written[i];
        assert a.Known(i);
      }
    }
    if b.stream.ended {
      assert |truth| == 0 || b.Known(|truth| - 1);
      assert b.Next() == 0 || b.Known(b.Next() - 1);
    }
  }

  /** Known indices and the shared settings determine the whole assembly. */
  lemma {:induction false} KnownDetermines(a: Assembly, b: Assembly, truth: seq<byte>)
    requires a.Valid() && b.Valid() && Consistent(a, truth) && Consistent(b, truth)
    requires forall i: nat :: a.Known(i) <==> b.Known(i)
    ensures a.stream.written == b.stream.written && a.buffered == b.buffered
  {
    NextIsLeastUnknown(a, a.Next());
    NextIsLeastUnknown(b, a.Next());
    forall i: nat | i < a.Next()
      ensures a.stream.written[i] == b.stream.written[i]
    {
      assert a.Known(i) && b.Known(i);
    }
    forall i: nat
      ensures i in a.buffered <==> i in b.buffered
      ensures i in a.buffered ==> a.buffered[i] == b.buffered[i]
    {
      assert a.Known(i) <==> b.Known(i);
      if a.Known(i) {
        assert a.ByteAt(i) == truth[i] == b.ByteAt(i);
      }
    }
  }

  /** What happens to a reassembler: a string arrives, or the application reads. */
  datatype Access = Arrives(push: Push) | Reads(len: nat)

  ghost predicate Accessed(a: Assembly, x: Access, b: Assembly) {
    match x
    case Arrives(p) => Pushed(a, p, b)
    case Reads(len) => a.stream.Valid() && b == a.Read(len)
  }

  /** `states` is what one reassembler goes through under `accesses`. */
  ghost predicate AccessRun(states: seq<Assembly>, accesses: seq<Access>) {
    && |states| == |accesses| + 1
    && forall k {:trigger accesses[k]} :: 0 <= k < |accesses| ==> Accessed(states[k], accesses[k], states[k + 1])
  }

  function Last<T>(s: seq<T>): T
    requires s != []
  {
    s[|s| - 1]
  }

  predicate FitsNow(p: Push, truth: seq<byte>, limit: nat) {
    TruePush(p, truth) && p.index + |p.data| <= limit
  }

  /** Every arriving string is cut from the true stream and lies below the limit of its
      moment. */
  ghost predicate AllFit(states: seq<Assembly>, accesses: seq<Access>, truth: seq<byte>)
    requires |states| == |accesses| + 1
  {
    forall k {:trigger accesses[k]} :: 0 <= k < |accesses| && accesses[k].Arrives? ==>
      FitsNow(accesses[k].push, truth, states[k].Limit())
  }

  ghost predicate AnyCovers(accesses: seq<Access>, i: nat) {
    exists x :: x in accesses && x.Arrives? && x.push.Covers(i)
  }

  ghost predicate AnyEof(accesses: seq<Access>) {
    exists x :: x in accesses && x.Arrives? && x.push.eof
  }

  ghost predicate RunResult(a: Assembly, accesses: seq<Access>, b: Assembly, truth: seq<byte>) {
    && b.Valid() && Consistent(b, truth)
    && b.stream.(written := a.stream.written, ended := a.stream.ended, read := a.stream.read) == a.stream
    && (forall i: nat :: b.Known(i) <==> a.Known(i) || AnyCovers(accesses, i))
    && b.eof == (if AnyEof(accesses) then Some(|truth|) else a.eof)
    && (b.stream.ended <==> a.stream.ended || (b.eof.Some? && b.Next() >= b.eof.value))
  }

  lemma {:induction false} ArrivalExtends(a: Assembly, front: seq<Access>, m: Assembly, p: Push, b: Assembly,
                                          truth: seq<byte>)
    requires RunResult(a, front, m, truth) && Pushed(m, p, b) && FitsNow(p, truth, m.Limit())
    ensures RunResult(a, front + [Arrives(p)], b, truth)
  {
    var all := front + [Arrives(p)];
    PushKeepsConsistent(m, p, b, truth);
    assert Arrives(p) in all;
    forall i: nat
      ensures b.Known(i) <==> a.Known(i) || AnyCovers(all, i)
    {
      assert AnyCovers(all, i) <==> AnyCovers(front, i) || p.Covers(i);
    }
    assert AnyEof(all) <==> AnyEof(front) || p.eof;
  }

  lemma {:induction false} ReadExtends(a: Assembly, front: seq<Access>, m: Assembly, len: nat, truth: seq<byte>)
    requires RunResult(a, front, m, truth)
    ensures RunResult(a, front + [Reads(len)], m.Read(len), truth)
  {
    var b, all := m.Read(len), front + [Reads(len)];
    assert forall i: nat :: b.Known(i) <==> m.Known(i);
    assert forall i: nat :: b.Known(i) ==> b.ByteAt(i) == m.ByteAt(i);
    assert forall i: nat :: AnyCovers(all, i) <==> AnyCovers(front, i);
    assert AnyEof(all) <==> AnyEof(front);
  }

  lemma {:induction false} RunReaches(states: seq<Assembly>, accesses: seq<Access>, truth: seq<byte>)
    requires AccessRun(states, accesses)
    requires states[0].Valid() && Consistent(states[0], truth)
    requires AllFit(states, accesses, truth)
    ensures RunResult(states[0], accesses, Last(states), truth)
  {
    var n := |accesses|;
    if n > 0 {
      var front, last := accesses[..n - 1], accesses[n - 1];
      assert accesses == front + [last];
      RunReaches(states[..n], front, truth);
      match last
      case Arrives(p) => ArrivalExtends(states[0], front, states[n - 1], p, states[n], truth);
      case Reads(len) => ReadExtends(states[0], front, states[n - 1], len, truth);
    }
  }

  /** When everything fits, neither the order nor the repetition nor the cutting of the
      strings, nor the reads in between, leave a trace: two runs whose strings cover the
      same indices end in the same assembly, up to how far it has been read. */
  lemma {:induction false} OrderDoesNotMatter(states: seq<Assembly>, accesses: seq<Access>,
                           states': seq<Assembly>, accesses': seq<Access>, truth: seq<byte>)
    requires AccessRun(states, accesses) && AccessRun(states', accesses')
    requires states[0] == states'[0]
    requires states[0].Valid() && Consistent(states[0], truth)
    requires AllFit(states, accesses, truth) && AllFit(states', accesses', truth)
    requires forall i: nat :: AnyCovers(accesses, i) <==> AnyCovers(accesses', i)
    requires AnyEof(accesses) <==> AnyEof(accesses')
    ensures var b, b' := Last(states), Last(states'); b' == b.(stream := b.stream.(read := b'.stream.read))
  {
    RunReaches(states, accesses, truth);
    RunReaches(states', accesses', truth);
    KnownDetermines(Last(states), Last(states'), truth);
  }
}
