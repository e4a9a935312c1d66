/** A discontiguous string that can discard bytes from the front. */
module Buffers {
  import opened Types

  /** A string of which a prefix may already be discarded; the storage is dropped
      once nothing of it is left. */
  datatype Buffer = Buffer(storage: Option<seq<byte>>, offset: nat) {
    predicate Valid() {
      storage.Some? ==> offset <= |storage.value|
    }

    function Str(): seq<byte>
      requires Valid()
    {
      if storage.None? then [] else storage.value[offset..]
    }

    /** `None` is the out_of_range exception. */
    function RemovePrefix(n: nat): (r: Option<Buffer>)
      requires Valid()
      ensures r.Some? <==> n <= |Str()|
      ensures r.Some? ==> r.value.Valid() && r.value.Str() == Str()[n..]
    {
      if n > |Str()| then None
      else if storage.Some? && offset + n == |storage.value| then Some(Buffer(None, offset + n))
      else Some(Buffer(storage, offset + n))
    }
  }

  function FromString(s: seq<byte>): Buffer {
    Buffer(Some(s), 0)
  }

  predicate AllValid(bufs: seq<Buffer>) {
    forall i :: 0 <= i < |bufs| ==> bufs[i].Valid()
  }

  /** The bytes of a list of buffers, in order. */
  function Flatten(bufs: seq<Buffer>): seq<byte>
    requires AllValid(bufs)
  {
    if bufs == [] then [] else bufs[0].Str() + Flatten(bufs[1..])
  }

  lemma {:induction false} FlattenAppend(a: seq<Buffer>, b: seq<Buffer>)
    requires AllValid(a) && AllValid(b)
    ensures AllValid(a + b)
    ensures Flatten(a + b) == Flatten(a) + Flatten(b)
  {
    if a == [] {
      assert a + b == b;
    } else {
      assert (a + b)[1..] == a[1..] + b;
      FlattenAppend(a[1..], b);
    }
  }

  lemma {:induction false} FlattenSnoc(bufs: seq<Buffer>, i: nat)
    requires AllValid(bufs) && i < |bufs|
    ensures Flatten(bufs[..i + 1]) == Flatten(bufs[..i]) + bufs[i].Str()
    ensures Flatten(bufs[..i + 1]) <= Flatten(bufs)
  {
    assert bufs[..i + 1] == bufs[..i] + [bufs[i]];
    FlattenAppend(bufs[..i], [bufs[i]]);
    assert Flatten([bufs[i]]) == bufs[i].Str();
    assert bufs == bufs[..i + 1] + bufs[i + 1..];
    FlattenAppend(bufs[..i + 1], bufs[i + 1..]);
  }

  /** The first `n` elements, or all of them when there are fewer. */
  function Prefix(s: seq<byte>, n: nat): (r: seq<byte>)
    ensures r <= s && |r| == Min(n, |s|)
  {
    s[..Min(n, |s|)]
  }

  lemma {:induction false} PrefixSnoc(s: seq<byte>, t: seq<byte>, n: nat)
    ensures |Prefix(s, n)| + |t| <= n ==> Prefix(s + t, n) == Prefix(s, n) + t
    ensures |Prefix(s, n)| + |t| > n ==> Prefix(s + t, n) == Prefix(s, n) + t[..n - |Prefix(s, n)|]
  {
  }

  lemma {:induction false} TrimFront(bufs: seq<Buffer>, trimmed: Buffer, k: nat)
    requires AllValid(bufs) && bufs != [] && k <= |bufs[0].Str()|
    requires trimmed.Valid() && trimmed.Str() == bufs[0].Str()[k..]
    ensures k <= |Flatten(bufs)|
    ensures AllValid([trimmed] + bufs[1..]) && Flatten([trimmed] + bufs[1..]) == Flatten(bufs)[k..]
  {
    assert ([trimmed] + bufs[1..])[1..] == bufs[1..];
  }

  lemma {:induction false} PopFront(bufs: seq<Buffer>)
    requires AllValid(bufs) && bufs != []
    ensures |bufs[0].Str()| <= |Flatten(bufs)|
    ensures Flatten(bufs[1..]) == Flatten(bufs)[|bufs[0].Str()|..]
  {
  }

  lemma {:induction false} DropTwice(s: seq<byte>, a: nat, b: nat)
    requires a + b <= |s|
    ensures s[a..][b..] == s[a + b..]
  {
  }

  class BufferList {
    var buffers: seq<Buffer>

    constructor ()
      ensures Valid() && Contents() == []
    {
      buffers := [];
    }

    ghost predicate Valid()
      reads this
    {
      AllValid(buffers)
    }

    ghost function Contents(): seq<byte>
      reads this
      requires Valid()
    {
      Flatten(buffers)
    }

    /** A list of one buffer that holds `s`. */
    constructor OfString(s: seq<byte>)
      ensures Valid() && Contents() == s
    {
      buffers := [FromString(s)];
      new;
      assert Flatten(buffers) == buffers[0].Str() + Flatten([]);
    }

    /** Appends every buffer of another list. */
    method Append(other: BufferList)
      requires Valid() && other.Valid() && other != this
      modifies this
      ensures Valid()
      ensures Contents() == old(Contents()) + other.Contents()
    {
      ghost var start := buffers;
      for i := 0 to |other.buffers|
        invariant buffers == start + other.buffers[..i]
      {
        buffers := buffers + [other.buffers[i]];
      }
      assert buffers == start + other.buffers;
      FlattenAppend(start, other.buffers);
    }

    /** The total number of bytes, buffer by buffer. */
    method Size() returns (n: nat)
      requires Valid()
      ensures n == |Contents()|
    {
      n := 0;
      for i := 0 to |buffers|
        invariant n == |Flatten(buffers[..i])|
      {
        FlattenSnoc(buffers, i);
        n := n + |buffers[i].Str()|;
      }
      assert buffers[..|buffers|] == buffers;
    }

    /** The first `n` bytes, or all of them when there are fewer. */
    method Concatenate(n: nat) returns (ret: seq<byte>)
      requires Valid()
      ensures ret == Prefix(Contents(), n)
    {
      ret := [];
      for i := 0 to |buffers|
        invariant ret == Prefix(Flatten(buffers[..i]), n)
      {
        FlattenSnoc(buffers, i);
        var str := buffers[i].Str();
        PrefixSnoc(Flatten(buffers[..i]), str, n);
        if |ret| + |str| <= n {
          ret := ret + str;
        } else {
          ret := ret + str[..n - |ret|];
        }
      }
      assert buffers[..|buffers|] == buffers;
    }

    /** Discards up to `n` bytes of the first buffer, which goes when it is used up;
        `left` are still to be discarded. */
    method RemoveFront(n: nat) returns (left: nat)
      requires Valid() && buffers != []
      modifies this
      ensures Valid()
      ensures left <= n && n - left <= |old(Contents())|
      ensures Contents() == old(Contents())[n - left..]
      ensures left == 0 || |buffers| < |old(buffers)|
    {
      var front := buffers[0];
      if n < |front.Str()| {
        var trimmed := front.RemovePrefix(n).value;
        TrimFront(buffers, trimmed, n);
        buffers := [trimmed] + buffers[1..];
        left := 0;
      } else {
        PopFront(buffers);
        left := n - |front.Str()|;
        buffers := buffers[1..];
      }
    }

    /** Discards `n` bytes; `ok` is false where the source throws, which is exactly
        when there are fewer than `n` (the list has been emptied by then). */
    method RemovePrefix(n: nat) returns (ok: bool)
      requires Valid()
      modifies this
      ensures Valid()
      ensures ok <==> n <= |old(Contents())|
      ensures Contents() == if ok then old(Contents())[n..] else []
    {
      var left: nat := n;
      ghost var whole := Contents();
      while left > 0
        invariant Valid()
        invariant left <= n && n - left <= |whole|
        invariant Contents() == whole[n - left..]
        decreases left > 0, |buffers|
      {
        if |buffers| == 0 {
          return false;
        }
        ghost var before := left;
        left := RemoveFront(left);
        DropTwice(whole, n - before, before - left);
      }
      ok := true;
    }
  }
}
