/** The reassembler as it is built: an ordered map of strings, a counter kept
    beside it, and a byte stream that takes whatever has become contiguous. */
module StreamReassemblers {
  import opened Types
  import opened ByteStreams
  import opened Reassembly

  type StringMap = map<nat, seq<byte>>

  predicate Holds(m: StringMap, k: nat, i: nat) {
    k in m && k <= i < k + |m[k]|
  }

  /** The string at `k` ends before the one at `k'` begins. */
  predicate Apart(m: StringMap, k: nat, k': nat) {
    k in m && k' in m && k < k' ==> k + |m[k]| <= k'
  }

  /** The byte at `i`, if there is one, sits in a string. */
  ghost predicate Placed(m: StringMap, g: map<nat, byte>, i: nat) {
    i in g ==> exists k: nat :: Holds(m, k, i)
  }

  /** Non-empty, pairwise disjoint strings that together hold exactly the bytes `g`. */
  ghost predicate Represents(m: StringMap, g: map<nat, byte>) {
    && (forall k :: k in m ==> m[k] != [])
    && (forall k: nat, k': nat {:trigger Apart(m, k, k')} :: Apart(m, k, k'))
    && (forall k: nat, i: nat {:trigger Holds(m, k, i)} :: Holds(m, k, i) ==> i in g && g[i] == m[k][i - k])
    && (forall i: nat {:trigger Placed(m, g, i)} :: Placed(m, g, i))
  }

  /** `g'` is `g` without the indices [k, k + n). */
  ghost predicate Without(g: map<nat, byte>, k: nat, n: nat, g': map<nat, byte>) {
    && (forall i: nat :: i in g' <==> i in g && !(k <= i < k + n))
    && (forall i: nat :: i in g' ==> g'[i] == g[i])
  }

  /** `g'` is `g` and the bytes of `s` from index `k` on. */
  ghost predicate With(g: map<nat, byte>, k: nat, s: seq<byte>, g': map<nat, byte>) {
    && (forall i: nat :: i in g' <==> i in g || k <= i < k + |s|)
    && (forall i: nat :: i in g && !(k <= i < k + |s|) ==> g'[i] == g[i])
    && (forall i: nat {:trigger g'[i]} :: k <= i < k + |s| ==> g'[i] == s[i - k])
  }

  lemma {:induction false} RemoveBytes(g: map<nat, byte>, k: nat, n: nat) returns (g': map<nat, byte>)
    requires forall i: nat :: k <= i < k + n ==> i in g
    ensures Without(g, k, n, g') && |g'| == |g| - n
  {
    var r := Range(k, n);
    g' := g - r;
    assert g.Keys == g'.Keys + r;
    assert |g.Keys| == |g'.Keys| + |r|;
  }

  lemma {:induction false} Overlay(g: map<nat, byte>, k: nat, s: seq<byte>, r: set<nat>)
    returns (g': map<nat, byte>)
    requires forall i: nat :: i in r <==> k <= i < k + |s|
    ensures With(g, k, s, g')
  {
    g' := map i: nat | i in g.Keys + r :: if i in r then s[i - k] else g[i];
  }

  lemma {:induction false} DisjointSize(g: map<nat, byte>, r: set<nat>, g': map<nat, byte>)
    requires g.Keys !! r
    requires forall i: nat :: i in g' <==> i in g || i in r
    ensures |g'| == |g| + |r|
  {
    assert g'.Keys == g.Keys + r;
    assert |g'.Keys| == |g.Keys| + |r|;
  }

  lemma {:induction false} AddBytes(g: map<nat, byte>, k: nat, s: seq<byte>) returns (g': map<nat, byte>)
    requires forall i: nat :: k <= i < k + |s| ==> i !in g
    ensures With(g, k, s, g') && |g'| == |g| + |s|
  {
    var r := Range(k, |s|);
    g' := Overlay(g, k, s, r);
    DisjointSize(g, r, g');
  }

  lemma {:induction false} ErasedRepresents(m: StringMap, g: map<nat, byte>, k: nat, g': map<nat, byte>)
    requires Represents(m, g) && k in m && Without(g, k, |m[k]|, g')
    ensures Represents(m - {k}, g')
  {
    var m' := m - {k};
    forall j: nat, j': nat
      ensures Apart(m', j, j')
    {
      assert Apart(m, j, j');
    }
    forall i: nat
      ensures Placed(m', g', i)
    {
      if i in g' {
        assert Placed(m, g, i);
        var j: nat :| Holds(m, j, i);
        assert Holds(m', j, i);
      }
    }
    forall j: nat, i: nat | Holds(m', j, i)
      ensures i in g' && g'[i] == m'[j][i - j]
    {
      assert Holds(m, j, i);
      assert Apart(m, j, k) && Apart(m, k, j);
    }
  }

  lemma {:induction false} EraseString(m: StringMap, g: map<nat, byte>, k: nat) returns (g': map<nat, byte>)
    requires Represents(m, g) && k in m
    ensures Represents(m - {k}, g')
    ensures Without(g, k, |m[k]|, g') && |g'| == |g| - |m[k]|
  {
    forall i: nat | k <= i < k + |m[k]|
      ensures i in g
    {
      assert Holds(m, k, i);
    }
    g' := RemoveBytes(g, k, |m[k]|);
    ErasedRepresents(m, g, k, g');
  }

  lemma {:induction false} InsertedRepresents(m: StringMap, g: map<nat, byte>, k: nat, s: seq<byte>,
                                              g': map<nat, byte>)
    requires Represents(m, g) && s != [] && With(g, k, s, g')
    requires forall j :: j in m ==> j + |m[j]| <= k || k + |s| <= j
    ensures k !in m && Represents(m[k := s], g')
  {
    var m' := m[k := s];
    forall j: nat, j': nat
      ensures Apart(m', j, j')
    {
      assert Apart(m, j, j');
    }
    forall i: nat
      ensures Placed(m', g', i)
    {
      if k <= i < k + |s| {
        assert Holds(m', k, i);
      } else if i in g' {
        assert Placed(m, g, i);
        var j: nat :| Holds(m, j, i);
        assert Holds(m', j, i);
      }
    }
    forall j: nat, i: nat | Holds(m', j, i)
      ensures i in g' && g'[i] == m'[j][i - j]
    {
      assert j != k ==> Holds(m, j, i);
    }
  }

  /** Strings stay clear of an interval that holds none of their bytes. */
  lemma {:induction false} StringsAvoid(m: StringMap, g: map<nat, byte>, k: nat, n: nat)
    requires Represents(m, g) && n > 0
    requires forall i: nat :: k <= i < k + n ==> i !in g
    ensures forall j :: j in m ==> j + |m[j]| <= k || k + n <= j
  {
    forall j | j in m
      ensures j + |m[j]| <= k || k + n <= j
    {
      assert Holds(m, j, j);
      if j < k < j + |m[j]| {
        assert Holds(m, j, k);
      }
    }
  }

  lemma {:induction false} InsertString(m: StringMap, g: map<nat, byte>, k: nat, s: seq<byte>)
    returns (g': map<nat, byte>)
    requires Represents(m, g) && s != []
    requires forall i: nat :: k <= i < k + |s| ==> i !in g
    ensures k !in m && Represents(m[k := s], g')
    ensures With(g, k, s, g') && |g'| == |g| + |s|
  {
    g' := AddBytes(g, k, s);
    StringsAvoid(m, g, k, |s|);
    InsertedRepresents(m, g, k, s, g');
  }

  ghost predicate IsUpperBound(m: StringMap, k: int, r: Option<nat>) {
    match r
    case None => forall j :: j in m ==> j <= k
    case Some(v) => v in m && v > k && forall j :: j in m && j > k ==> v <= j
  }

  ghost predicate IsGreatestAtMost(m: StringMap, k: int, r: Option<nat>) {
    match r
    case None => forall j :: j in m ==> j > k
    case Some(v) => v in m && v <= k && forall j :: j in m && j <= k ==> j <= v
  }

  /** `std::map::upper_bound`: the least key above `k` (`begin()` for -1). */
  method UpperBound(m: StringMap, k: int) returns (r: Option<nat>)
    ensures IsUpperBound(m, k, r)
  {
    r := None;
    var rest := m.Keys;
    while rest != {}
      invariant rest <= m.Keys
      invariant match r
        case None => forall j :: j in m && j !in rest ==> j <= k
        case Some(v) => v in m && v > k && forall j :: j in m && j !in rest && j > k ==> v <= j
      decreases rest
    {
      var j :| j in rest;
      if j > k && (r.None? || j < r.value) {
        r := Some(j);
      }
      rest := rest - {j};
    }
  }

  /** The entry before the upper bound: the greatest key not above `k`. */
  method GreatestAtMost(m: StringMap, k: int) returns (r: Option<nat>)
    ensures IsGreatestAtMost(m, k, r)
  {
    r := None;
    var rest := m.Keys;
    while rest != {}
      invariant rest <= m.Keys
      invariant match r
        case None => forall j :: j in m && j !in rest ==> j > k
        case Some(v) => v in m && v <= k && forall j :: j in m && j !in rest && j <= k ==> j <= v
      decreases rest
    {
      var j :| j in rest;
      if j <= k && (r.None? || j > r.value) {
        r := Some(j);
      }
      rest := rest - {j};
    }
  }

  /** Strings that begin up to `index` end by `newIndex`; the others begin there or later. */
  ghost predicate Split(m: StringMap, index: nat, newIndex: nat) {
    forall k :: k in m ==> if k <= index then k + |m[k]| <= newIndex else newIndex <= k
  }

  /** `g` is `g0` less some indices of [lo, hi). */
  ghost predicate Thinned(g0: map<nat, byte>, lo: int, hi: int, g: map<nat, byte>) {
    && (forall i :: i in g ==> i in g0 && g[i] == g0[i])
    && (forall i :: i in g0 && i !in g ==> lo <= i < hi)
  }

  ghost predicate Gap(g: map<nat, byte>, lo: nat, hi: nat) {
    forall i: nat :: lo <= i < hi ==> i !in g
  }

  ghost predicate Full(g: map<nat, byte>, lo: nat, hi: nat) {
    forall i: nat :: lo <= i < hi ==> i in g
  }

  ghost predicate Within(g: map<nat, byte>, lo: nat, hi: nat) {
    forall i :: i in g ==> lo <= i < hi
  }

  ghost predicate AllKnown(a: Assembly, lo: nat, hi: nat) {
    forall i: nat :: lo <= i < hi ==> a.Known(i)
  }

  lemma {:induction false} GapIsClear(m: StringMap, g: map<nat, byte>, index: nat, newIndex: nat, end: nat)
    requires Represents(m, g) && Split(m, index, newIndex)
    requires forall k :: k in m && k > index ==> end <= k
    ensures Gap(g, newIndex, end)
  {
    forall i: nat | newIndex <= i < end
      ensures i !in g
    {
      assert Placed(m, g, i);
      assert forall k: nat :: !Holds(m, k, i);
    }
  }

  lemma {:induction false} StringFills(m: StringMap, g: map<nat, byte>, k: nat, hi: nat)
    requires Represents(m, g) && k in m && hi <= k + |m[k]|
    ensures Full(g, k, hi)
  {
    forall i: nat | k <= i < hi
      ensures i in g
    {
      assert Holds(m, k, i);
    }
  }

  lemma {:induction false} ThinnedOnce(g0: map<nat, byte>, lo: nat, hi: nat, g: map<nat, byte>, k: nat, n: nat, g': map<nat, byte>)
    requires Thinned(g0, lo, hi, g) && Without(g, k, n, g')
    requires lo <= k && hi <= k
    ensures Thinned(g0, lo, k + n, g')
  {
  }

  /** `b` knows what `a` had assembled, what is left in `g`, and `n` bytes of the
      push from `newIndex` on. */
  ghost predicate Spliced(a: Assembly, g: map<nat, byte>, p: Push, newIndex: nat, n: nat, b: Assembly)
    requires p.index <= newIndex && newIndex + n <= p.index + |p.data|
  {
    && (forall i: nat :: b.Known(i) <==> i < a.Next() || i in g || newIndex <= i < newIndex + n)
    && (forall i: nat :: i in g && a.Next() <= i ==> b.ByteAt(i) == g[i])
    && (forall i: nat :: newIndex <= i < newIndex + n ==> b.ByteAt(i) == p.data[i - p.index])
  }

  /** `n` bytes of the data from `start` on. */
  function Slice(data: seq<byte>, start: nat, n: nat): (r: seq<byte>)
    requires start + n <= |data|
    ensures |r| == n
  {
    data[start..start + n]
  }

  /** The data was written, because it came next, or stored. */
  ghost predicate Took(a: Assembly, g: map<nat, byte>, newIndex: nat, newData: seq<byte>, b: Assembly) {
    if newIndex == a.Next()
    then b == a.(buffered := g, stream := a.stream.(written := a.stream.written + newData))
    else b == a.(buffered := b.buffered) && With(g, newIndex, newData, b.buffered)
  }

  lemma {:induction false} TookIsSpliced(a: Assembly, g: map<nat, byte>, p: Push, newIndex: nat, n: nat, b: Assembly)
    requires p.index <= newIndex && newIndex + n <= p.index + |p.data|
    requires a.Next() <= newIndex && Gap(g, newIndex, newIndex + n)
    requires forall i :: i in g ==> a.Next() <= i
    requires Took(a, g, newIndex, Slice(p.data, newIndex - p.index, n), b)
    ensures Spliced(a, g, p, newIndex, n, b)
  {
    var d := Slice(p.data, newIndex - p.index, n);
    forall i: nat | newIndex <= i < newIndex + n
      ensures b.Known(i) && b.ByteAt(i) == p.data[i - p.index]
    {
      assert d[i - newIndex] == p.data[i - p.index];
      if newIndex == a.Next() {
        assert b.stream.written[i] == d[i - newIndex];
      } else {
        assert b.buffered[i] == d[i - newIndex];
      }
    }
    forall i: nat
      ensures b.Known(i) <==> i < a.Next() || i in g || newIndex <= i < newIndex + n
    {
    }
  }

  lemma {:induction false} SplicedExplains(a: Assembly, g: map<nat, byte>, p: Push, newIndex: nat,
                                           newLength: nat, n: nat, b: Assembly)
    requires a.Valid()
    requires p.index <= newIndex && newIndex + newLength <= p.index + |p.data|
    requires n == Min(a.Limit() - newIndex, newLength)
    requires a.Next() <= newIndex && AllKnown(a, p.index, newIndex)
    requires Thinned(a.buffered, newIndex, newIndex + newLength, g)
    requires Full(g, newIndex + newLength, p.index + |p.data|)
    requires Spliced(a, g, p, newIndex, n, b)
    ensures KnownGrows(a, p, b) && BytesFrom(a, p, b)
  {
    forall i: nat
      ensures b.Known(i) <==> a.Known(i) || (p.Covers(i) && i < a.Limit())
    {
      assert i in a.buffered && i !in g ==> newIndex <= i < newIndex + n;
    }
    forall i: nat | b.Known(i) && a.Next() <= i
      ensures (a.Known(i) && b.ByteAt(i) == a.ByteAt(i)) || (p.Covers(i) && b.ByteAt(i) == p.data[i - p.index])
    {
      assert i in g || newIndex <= i < newIndex + n;
    }
  }

  /** What `InsertPair` does: the push is taken in, whether waiting or assembled. */
  ghost predicate Inserted(a: Assembly, p: Push, b: Assembly) {
    && a.stream.written <= b.stream.written
    && b.(stream := a.stream, buffered := a.buffered) == a
    && b.stream.(written := a.stream.written) == a.stream
    && KnownGrows(a, p, b) && BytesFrom(a, p, b)
  }

  lemma {:induction false} TookInserts(a: Assembly, g: map<nat, byte>, p: Push, newIndex: nat,
                                       newLength: nat, n: nat, b: Assembly)
    requires a.Valid()
    requires p.index <= newIndex && newIndex + newLength <= p.index + |p.data|
    requires newIndex < a.Limit() && n == Min(a.Limit() - newIndex, newLength)
    requires a.Next() <= newIndex && AllKnown(a, p.index, newIndex)
    requires Thinned(a.buffered, newIndex, newIndex + newLength, g)
    requires Gap(g, newIndex, newIndex + newLength)
    requires Full(g, newIndex + newLength, p.index + |p.data|)
    requires Took(a, g, newIndex, Slice(p.data, newIndex - p.index, n), b)
    ensures Inserted(a, p, b)
  {
    TookIsSpliced(a, g, p, newIndex, n, b);
    SplicedExplains(a, g, p, newIndex, newLength, n, b);
  }

  lemma {:induction false} NothingInserts(a: Assembly, data: seq<byte>, index: nat, eof: bool, newIndex: nat)
    requires a.Valid() && index < TWO64 && AllKnown(a, index, newIndex)
    requires newIndex >= (index + |data|) % TWO64 || a.Limit() <= newIndex
    ensures Inserted(a, Arriving(data, index, eof), a)
  {
  }

  /** Bytes moved from the waiting ones to the assembled ones; nothing else changed. */
  ghost predicate Drained(a: Assembly, b: Assembly) {
    && a.stream.written <= b.stream.written
    && b.(stream := a.stream, buffered := a.buffered) == a
    && b.stream.(written := a.stream.written) == a.stream
    && (forall i: nat :: b.Known(i) <==> a.Known(i))
    && (forall i: nat :: b.Known(i) ==> b.ByteAt(i) == a.ByteAt(i))
  }

  /** Taking in, draining and signalling the end make up one push. */
  lemma {:induction false} StepsMakePush(a: Assembly, p: Push, b: Assembly, c: Assembly, d: Assembly)
    requires a.Valid() && Inserted(a, p, b) && Drained(b, c)
    requires c.stream.Valid() && forall i :: i in c.buffered ==> c.Next() < i < c.Limit()
    requires d == c.(eof := d.eof, stream := c.stream.(ended := d.stream.ended))
    requires d.eof == (if p.eof then Some(p.index + |p.data|) else c.eof)
    requires d.stream.ended == (c.stream.ended || (d.eof.Some? && d.Next() >= d.eof.value))
    ensures Pushed(a, p, d)
  {
    assert forall i: nat :: d.Known(i) <==> c.Known(i);
    forall i: nat | d.Known(i) && a.Next() <= i
      ensures (a.Known(i) && d.ByteAt(i) == a.ByteAt(i)) || (p.Covers(i) && d.ByteAt(i) == p.data[i - p.index])
    {
      assert c.Known(i) && b.Known(i) && d.ByteAt(i) == b.ByteAt(i);
    }
  }

  // ---- which of two conflicting bytes is kept

  /** A push replaces a waiting string of `n` bytes at `k` if it starts before it and
      covers it whole. */
  predicate Replaces(p: Push, k: nat, n: nat) {
    p.index < k && k + n <= p.index + |p.data|
  }

  /** Every byte of the waiting strings `m` is now the push's own, if its string was
      replaced, and else what it was. */
  ghost predicate Decided(m: StringMap, p: Push, b: Assembly) {
    forall k: nat, i: nat {:trigger Holds(m, k, i)} :: Holds(m, k, i) ==>
      && b.Known(i)
      && b.ByteAt(i) == if Replaces(p, k, |m[k]|) then p.data[i - p.index] else m[k][i - k]
  }

  /** Of the strings after `index`, those that end by `end` lie before `cut` and the
      others do not. */
  ghost predicate CutBetween(m: StringMap, index: nat, end: nat, cut: nat) {
    forall k :: k in m && index < k ==> if k + |m[k]| <= end then k + |m[k]| <= cut else cut <= k
  }

  lemma {:induction false} SplicedDecides(m: StringMap, a: Assembly, g: map<nat, byte>, p: Push, newIndex: nat,
                                          newLength: nat, n: nat, b: Assembly)
    requires a.Valid() && Represents(m, a.buffered) && Split(m, p.index, newIndex)
    requires p.index <= newIndex && newIndex + newLength <= p.index + |p.data|
    requires CutBetween(m, p.index, p.index + |p.data|, newIndex + newLength)
    requires newIndex < a.Limit() && n == Min(a.Limit() - newIndex, newLength)
    requires Thinned(a.buffered, newIndex, newIndex + newLength, g)
    requires Spliced(a, g, p, newIndex, n, b)
    ensures Decided(m, p, b)
  {
    forall k: nat, i: nat | Holds(m, k, i)
      ensures b.Known(i) && b.ByteAt(i) == if Replaces(p, k, |m[k]|) then p.data[i - p.index] else m[k][i - k]
    {
      assert i in a.buffered;
      if Replaces(p, k, |m[k]|) {
        assert newIndex <= i < newIndex + n;
      } else {
        assert i in g && g[i] == a.buffered[i];
      }
    }
  }

  lemma {:induction false} NothingDecides(m: StringMap, a: Assembly, data: seq<byte>, index: nat, eof: bool, newIndex: nat)
    requires a.Valid() && Represents(m, a.buffered) && index < TWO64 && Split(m, index, newIndex)
    requires newIndex >= (index + |data|) % TWO64 || a.Limit() <= newIndex
    ensures Decided(m, Arriving(data, index, eof), a)
  {
    var p := Arriving(data, index, eof);
    forall k: nat, i: nat | Holds(m, k, i)
      ensures a.Known(i) && a.ByteAt(i) == if Replaces(p, k, |m[k]|) then p.data[i - p.index] else m[k][i - k]
    {
      assert Holds(m, k, k) && k in a.buffered;
      assert !Replaces(p, k, |m[k]|);
    }
  }

  lemma {:induction false} DecidedLater(m: StringMap, p: Push, b: Assembly, c: Assembly)
    requires Decided(m, p, b)
    requires forall i: nat :: b.Known(i) ==> c.Known(i) && c.ByteAt(i) == b.ByteAt(i)
    ensures Decided(m, p, c)
  {
  }

  lemma {:induction false} SameByte(a: Assembly, m: StringMap, p: Push, b: Assembly, b': Assembly, i: nat)
    requires Represents(m, a.buffered)
    requires Pushed(a, p, b) && Decided(m, p, b) && Pushed(a, p, b') && Decided(m, p, b')
    requires b.Known(i) && b'.Known(i)
    ensures b.ByteAt(i) == b'.ByteAt(i)
  {
    if i < a.Next() {
      assert b.stream.written[i] == a.stream.written[i] == b'.stream.written[i];
    } else if i in a.buffered {
      assert Placed(m, a.buffered, i);
      var k: nat :| Holds(m, k, i);
    }
  }

  lemma {:induction false} SameKnown(b: Assembly, b': Assembly)
    requires b.Valid() && b'.Valid() && b.Next() == b'.Next()
    requires forall i: nat :: b.Known(i) <==> b'.Known(i)
    requires forall i: nat :: b.Known(i) ==> b.ByteAt(i) == b'.ByteAt(i)
    ensures b.stream.written == b'.stream.written && b.buffered == b'.buffered
  {
    forall i: nat | i < b.Next()
      ensures b.stream.written[i] == b'.stream.written[i]
    {
      assert b.Known(i);
    }
    forall i: nat
      ensures i in b.buffered <==> i in b'.buffered
      ensures i in b.buffered ==> b.buffered[i] == b'.buffered[i]
    {
      assert b.Known(i) <==> b'.Known(i);
    }
  }

  /** With that rule, the waiting strings and the push determine the outcome. */
  lemma {:induction false} PushIsDetermined(a: Assembly, m: StringMap, p: Push, b: Assembly, b': Assembly)
    requires Represents(m, a.buffered)
    requires Pushed(a, p, b) && Decided(m, p, b) && Pushed(a, p, b') && Decided(m, p, b')
    ensures b == b'
  {
    assert forall i: nat :: b.Known(i) <==> b'.Known(i);
    NextIsLeastUnknown(b, b.Next());
    NextIsLeastUnknown(b', b.Next());
    forall i: nat | b.Known(i)
      ensures b.ByteAt(i) == b'.ByteAt(i)
    {
      SameByte(a, m, p, b, b', i);
    }
    SameKnown(b, b');
  }

  ghost predicate StringHeld(g: map<nat, byte>, k: nat, s: seq<byte>) {
    forall i: nat :: k <= i < k + |s| ==> i in g && g[i] == s[i - k]
  }

  lemma {:induction false} StringIsHeld(m: StringMap, g: map<nat, byte>, k: nat)
    requires Represents(m, g) && k in m
    ensures StringHeld(g, k, m[k])
  {
    forall i: nat | k <= i < k + |m[k]|
      ensures i in g && g[i] == m[k][i - k]
    {
      assert Holds(m, k, i);
    }
  }

  lemma {:induction false} NextNotWaiting(m: StringMap, g: map<nat, byte>, next: nat, limit: nat, it: Option<nat>)
    requires Represents(m, g) && IsUpperBound(m, -1, it)
    requires Within(g, next, limit)
    requires it.Some? && it.value == next ==> next >= limit
    ensures next !in g
  {
    assert Placed(m, g, next);
    if next in g {
      var k: nat :| Holds(m, k, next);
      assert Holds(m, k, k) && Holds(m, it.value, it.value);
      assert false;
    }
  }

  lemma {:induction false} DrainedOnce(a0: Assembly, a: Assembly, s: seq<byte>, b: Assembly)
    requires Drained(a0, a)
    requires b == a.(stream := a.stream.(written := a.stream.written + s), buffered := b.buffered)
    requires StringHeld(a.buffered, a.Next(), s)
    requires Without(a.buffered, a.Next(), |s|, b.buffered)
    requires forall i :: i in a.buffered ==> a.Next() <= i
    ensures Drained(a0, b)
  {
    assert forall i: nat :: b.Known(i) <==> a.Known(i);
    assert forall i: nat :: b.Known(i) ==> b.ByteAt(i) == a.ByteAt(i);
  }

  /** `m` is `strings` without some that end by `done`. */
  ghost predicate ErasedBefore(strings: StringMap, m: StringMap, done: nat) {
    && (forall k :: k in m ==> k in strings && m[k] == strings[k])
    && (forall k :: k in strings && k !in m ==> k + |strings[k]| <= done)
  }

  lemma {:induction false} ErasedOneMore(strings: StringMap, m: StringMap, done: nat, key: nat)
    requires ErasedBefore(strings, m, done) && key in m && done <= key
    ensures ErasedBefore(strings, m - {key}, key + |m[key]|)
  {
  }

  /** Where the loop below stops: the first string left, `post`, begins at or after the
      end, or is where the interval is cut. */
  lemma {:induction false} CutsThere(strings: StringMap, m: StringMap, index: nat, newIndex: nat, end: nat, cut: nat,
                                     done: nat, post: Option<nat>)
    requires Split(strings, index, newIndex) && ErasedBefore(strings, m, done)
    requires (forall k :: k in m ==> m[k] != []) && forall k: nat, k': nat {:trigger Apart(m, k, k')} :: Apart(m, k, k')
    requires IsUpperBound(m, index, post) && done <= cut <= end
    requires if post.Some? && post.value < end then cut == post.value && end < cut + |m[cut]| else cut == end
    ensures CutBetween(strings, index, end, cut)
  {
    forall k | k in strings && index < k
      ensures if k + |strings[k]| <= end then k + |strings[k]| <= cut else cut <= k
    {
      if k in m && post.Some? {
        assert Apart(m, post.value, k);
      }
    }
  }

  /** In the middle of the loop below: `m`, holding `g`, is left of `strings`, which held
      `g0`; everything up to `done` is dealt with. */
  ghost predicate Absorbing(strings: StringMap, g0: map<nat, byte>, index: nat, newIndex: nat,
                            m: StringMap, g: map<nat, byte>, erased: nat, done: nat) {
    && Represents(m, g) && |g| + erased == |g0|
    && Split(m, index, newIndex) && ErasedBefore(strings, m, done)
    && newIndex <= done && Thinned(g0, newIndex, done, g)
  }

  lemma {:induction false} AbsorbOne(strings: StringMap, g0: map<nat, byte>, index: nat, newIndex: nat,
                                     m: StringMap, g: map<nat, byte>, erased: nat, done: nat, key: nat)
    returns (g': map<nat, byte>)
    requires Absorbing(strings, g0, index, newIndex, m, g, erased, done)
    requires IsUpperBound(m, index, Some(key)) && done <= key
    ensures Absorbing(strings, g0, index, newIndex, m - {key}, g', erased + |m[key]|, key + |m[key]|)
    ensures forall k :: k in m - {key} && index < k ==> key + |m[key]| <= k
  {
    g' := EraseString(m, g, key);
    ThinnedOnce(g0, newIndex, done, g, key, |m[key]|, g');
    ErasedOneMore(strings, m, done, key);
    forall k | k in m - {key} && index < k
      ensures key + |m[key]| <= k
    {
      assert Apart(m, key, k);
    }
  }

  /** Erases the strings that [newIndex, newIndex + length) covers whole and cuts that
      interval where a string it covers only partly begins. */
  method AbsorbFollowing(strings: StringMap, ghost g0: map<nat, byte>, index: nat, newIndex: nat, length: nat)
    returns (m: StringMap, erased: nat, newLength: nat, ghost g: map<nat, byte>)
    requires Represents(strings, g0) && index <= newIndex && Split(strings, index, newIndex)
    ensures Represents(m, g) && |g| + erased == |g0|
    ensures newLength <= length && Thinned(g0, newIndex, newIndex + newLength, g)
    ensures Gap(g, newIndex, newIndex + newLength)
    ensures Full(g, newIndex + newLength, newIndex + length)
    ensures CutBetween(strings, index, newIndex + length, newIndex + newLength)
  {
    m, g, erased, newLength := strings, g0, 0, length;
    var post := UpperBound(m, index);
    ghost var done: nat := newIndex;
    while post.Some? && newIndex <= post.value
      invariant Absorbing(strings, g0, index, newIndex, m, g, erased, done)
      invariant newLength == length && IsUpperBound(m, index, post)
      invariant done <= newIndex + length && (post.Some? ==> done <= post.value)
      decreases m.Keys
    {
      var key: nat := post.value;
      var keyEnd := key + |m[key]|;
      var dataEnd := newIndex + newLength;
      if key >= dataEnd {
        break;
      }
      if keyEnd > dataEnd {
        newLength := key - newIndex;
        StringFills(m, g, key, newIndex + length);
        break;
      }
      g := AbsorbOne(strings, g0, index, newIndex, m, g, erased, done, key);
      erased := erased + |m[key]|;
      m, done := m - {key}, keyEnd;
      post := UpperBound(m, index);
    }
    GapIsClear(m, g, index, newIndex, newIndex + newLength);
    CutsThere(strings, m, index, newIndex, newIndex + length, newIndex + newLength, done, post);
  }

  class StreamReassembler {
    const output: ByteStream
    const capacity: nat
    var unassembled: StringMap
    var nextPos: nat
    var unassembledBytes: nat
    var eofIndex: nat
    var eofAppeared: bool
    ghost var buffered: map<nat, byte>

    constructor (capacity: nat)
      ensures Valid() && Model() == NewAssembly(capacity)
      ensures fresh(output) && fresh(output.buffer)
    {
      output := new ByteStream(capacity);
      this.capacity := capacity;
      unassembled, buffered := map[], map[];
      nextPos, unassembledBytes, eofIndex, eofAppeared := 0, 0, 0, false;
    }

    ghost function Model(): Assembly
      reads this, output
    {
      Assembly(output.Model(), buffered, if eofAppeared then Some(eofIndex) else None)
    }

    /** Holds also between `InsertPair` and `WriteOutput`, when the next byte may
        already be waiting. */
    ghost predicate Coherent()
      reads this, output, output.buffer
    {
      && output.Valid()
      && output.capacity == capacity
      && nextPos == output.bytesWritten
      && Represents(unassembled, buffered)
      && unassembledBytes == |buffered|
      && Within(buffered, nextPos, output.bytesRead + capacity)
    }

    ghost predicate Valid()
      reads this, output, output.buffer
    {
      Coherent() && Model().Valid()
    }

    method PushSubstring(data: seq<byte>, index: nat, eof: bool)
      requires Valid()
      requires index < TWO64 && |data| < TWO64
      modifies this, output, output.buffer
      ensures Valid()
      ensures Pushed(old(Model()), Arriving(data, index, eof), Model())
      ensures Decided(old(unassembled), Arriving(data, index, eof), Model())
    {
      ghost var a, p := Model(), Arriving(data, index, eof);
      InsertPair(data, index, eof);
      ghost var b := Model();
      WriteOutput();
      ghost var c := Model();
      ArrivingEnd(data, index, eof);
      SignalEnd((index + |data|) % TWO64, eof);
      StepsMakePush(a, p, b, c, Model());
      DecidedLater(old(unassembled), p, b, Model());
    }

    /** Notes the end of the stream, if it came, and ends the output once it is reached. */
    method SignalEnd(end: nat, eof: bool)
      requires Coherent()
      modifies `eofIndex, `eofAppeared, output
      ensures Coherent()
      ensures Model() == old(Model()).(eof := Model().eof, stream := old(Model()).stream.(ended := output.endInput))
      ensures Model().eof == if eof then Some(end) else old(Model()).eof
      ensures output.endInput <==> old(output.endInput) || (Model().eof.Some? && nextPos >= Model().eof.value)
    {
      if eof {
        eofIndex := end;
        eofAppeared := true;
      }
      if eofAppeared && nextPos >= eofIndex {
        output.EndInput();
      }
    }

    method InsertPair(data: seq<byte>, index: nat, ghost eof: bool)
      requires Valid()
      requires index < TWO64 && |data| < TWO64
      modifies this, output, output.buffer
      ensures Coherent()
      ensures Inserted(old(Model()), Arriving(data, index, eof), Model())
      ensures Decided(old(unassembled), Arriving(data, index, eof), Model())
    {
      ghost var a, p := Model(), Arriving(data, index, eof);
      var newIndex := SkipKnown(index);
      var firstUnacceptable := nextPos + capacity - output.bufferSize;
      if newIndex >= (index + |data|) % TWO64 || firstUnacceptable <= newIndex {
        NothingInserts(a, data, index, eof, newIndex);
        NothingDecides(unassembled, a, data, index, eof, newIndex);
        return;
      }
      Splice(data, index, newIndex, firstUnacceptable, p);
    }

    /** Takes in the part of the data from `newIndex` on. */
    method Splice(data: seq<byte>, index: nat, newIndex: nat, firstUnacceptable: nat, ghost p: Push)
      requires Valid() && p.data == data && p.index == index
      requires index <= newIndex < index + |data| && nextPos <= newIndex < firstUnacceptable
      requires firstUnacceptable == Model().Limit()
      requires AllKnown(Model(), index, newIndex) && Split(unassembled, index, newIndex)
      modifies this, output, output.buffer
      ensures Coherent()
      ensures Inserted(old(Model()), p, Model()) && Decided(old(unassembled), p, Model())
    {
      ghost var a, m := Model(), unassembled;
      var newLength := Absorb(index, newIndex, |data| - (newIndex - index));
      PlaceCut(data, index, newIndex, newLength, firstUnacceptable, p, a, m);
    }

    /** Cuts the data at the window and places it; `a` is how things were before the
        strings in its way were erased. */
    method PlaceCut(data: seq<byte>, index: nat, newIndex: nat, newLength: nat, firstUnacceptable: nat,
                    ghost p: Push, ghost a: Assembly, ghost m: StringMap)
      requires Coherent() && p.data == data && p.index == index
      requires a.Valid() && Model() == a.(buffered := buffered) && firstUnacceptable == a.Limit()
      requires index <= newIndex && newIndex + newLength <= index + |data| && nextPos <= newIndex < firstUnacceptable
      requires AllKnown(a, index, newIndex)
      requires Thinned(a.buffered, newIndex, newIndex + newLength, buffered)
      requires Gap(buffered, newIndex, newIndex + newLength)
      requires Full(buffered, newIndex + newLength, index + |data|)
      requires Represents(m, a.buffered) && Split(m, index, newIndex)
      requires CutBetween(m, index, index + |data|, newIndex + newLength)
      modifies this, output, output.buffer
      ensures Coherent()
      ensures Inserted(a, p, Model()) && Decided(m, p, Model())
    {
      ghost var g := buffered;
      var n := Min(firstUnacceptable - newIndex, newLength);
      Place(newIndex, Slice(data, newIndex - index, n));
      TookInserts(a, g, p, newIndex, newLength, n, Model());
      TookIsSpliced(a, g, p, newIndex, n, Model());
      SplicedDecides(m, a, g, p, newIndex, newLength, n, Model());
    }

    method Absorb(index: nat, newIndex: nat, length: nat) returns (newLength: nat)
      requires Coherent() && index <= newIndex && Split(unassembled, index, newIndex)
      modifies `unassembled, `unassembledBytes, `buffered
      ensures Coherent()
      ensures newLength <= length && Thinned(old(buffered), newIndex, newIndex + newLength, buffered)
      ensures Gap(buffered, newIndex, newIndex + newLength)
      ensures Full(buffered, newIndex + newLength, newIndex + length)
      ensures CutBetween(old(unassembled), index, newIndex + length, newIndex + newLength)
    {
      var m, erased, count, g := AbsorbFollowing(unassembled, buffered, index, newIndex, length);
      unassembled, buffered, newLength := m, g, count;
      unassembledBytes := unassembledBytes - erased;
    }

    /** Writes the data if it comes next, else keeps it waiting; does nothing for no
        data. It always fits, so the source's handling of a partial write is never
        reached. */
    method Place(newIndex: nat, newData: seq<byte>)
      requires Coherent()
      requires nextPos <= newIndex && newIndex + |newData| <= output.bytesRead + capacity
      requires Gap(buffered, newIndex, newIndex + |newData|)
      modifies this, output, output.buffer
      ensures Coherent()
      ensures Took(old(Model()), old(buffered), newIndex, newData, Model())
    {
      if newData == [] {
        return;
      }
      if newIndex == nextPos {
        var written := output.Write(newData);
        assert written == |newData|;
        nextPos := nextPos + written;
      } else {
        Store(newIndex, newData);
      }
    }

    method Store(newIndex: nat, newData: seq<byte>)
      requires Coherent() && newData != []
      requires nextPos < newIndex && newIndex + |newData| <= output.bytesRead + capacity
      requires Gap(buffered, newIndex, newIndex + |newData|)
      modifies `unassembled, `unassembledBytes, `buffered
      ensures Coherent()
      ensures With(old(buffered), newIndex, newData, buffered)
    {
      ghost var g := InsertString(unassembled, buffered, newIndex, newData);
      unassembled := unassembled[newIndex := newData];
      unassembledBytes := unassembledBytes + |newData|;
      buffered := g;
    }

    /** The first index from `index` on that neither the assembled prefix nor the
        string just before accounts for. */
    method SkipKnown(index: nat) returns (newIndex: nat)
      requires Valid()
      ensures index <= newIndex && nextPos <= newIndex
      ensures AllKnown(Model(), index, newIndex)
      ensures Split(unassembled, index, newIndex)
    {
      newIndex := index;
      var pre := GreatestAtMost(unassembled, index);
      if pre.Some? {
        var k: nat := pre.value;
        assert Holds(unassembled, k, k);
        var preEnd := k + |unassembled[k]|;
        forall j | j in unassembled
          ensures j < k ==> j + |unassembled[j]| <= k
          ensures k < j ==> preEnd <= j
        {
          assert Apart(unassembled, j, k) && Apart(unassembled, k, j);
        }
        if index < preEnd {
          newIndex := preEnd;
          forall i: nat | index <= i < newIndex
            ensures i in buffered
          {
            assert Holds(unassembled, k, i);
          }
        }
      } else if index < nextPos {
        newIndex := nextPos;
        forall k | k in unassembled
          ensures nextPos <= k
        {
          assert Holds(unassembled, k, k);
        }
      }
    }

    method WriteOutput()
      requires Coherent()
      modifies `unassembled, `unassembledBytes, `buffered, `nextPos, output, output.buffer
      ensures Coherent()
      ensures nextPos !in buffered
      ensures Drained(old(Model()), Model())
    {
      var it := UpperBound(unassembled, -1);
      while it.Some? && it.value == nextPos && output.RemainingCapacity() > 0
        invariant Coherent()
        invariant IsUpperBound(unassembled, -1, it)
        invariant Drained(old(Model()), Model())
        decreases unassembled.Keys
      {
        ghost var a := Model();
        ghost var s := unassembled[nextPos];
        WriteFirst();
        DrainedOnce(old(Model()), a, s, Model());
        it := UpperBound(unassembled, -1);
      }
      NextNotWaiting(unassembled, buffered, nextPos, output.bytesRead + capacity, it);
    }

    /** Moves the string at the front of the map to the output. All of it fits. */
    method WriteFirst()
      requires Coherent() && nextPos in unassembled
      modifies `unassembled, `unassembledBytes, `buffered, `nextPos, output, output.buffer
      ensures Coherent()
      ensures unassembled == old(unassembled - {nextPos})
      ensures Model() == old(Model()).(stream := Model().stream, buffered := buffered)
      ensures Model().stream == old(Model().stream.(written := Model().stream.written + unassembled[nextPos]))
      ensures StringHeld(old(buffered), old(nextPos), old(unassembled[nextPos]))
      ensures Without(old(buffered), old(nextPos), |old(unassembled[nextPos])|, buffered)
    {
      var key, s := nextPos, unassembled[nextPos];
      StringIsHeld(unassembled, buffered, key);
      ghost var g := EraseString(unassembled, buffered, key);
      assert key + |s| - 1 in buffered;
      var written := output.Write(s);
      assert written == |s|;
      unassembledBytes := unassembledBytes - written;
      nextPos := nextPos + written;
      unassembled := unassembled - {key};
      buffered := g;
    }
  }
}
