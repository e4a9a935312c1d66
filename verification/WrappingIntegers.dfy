/** 32-bit sequence numbers and their 64-bit absolute counterparts
    (section 3.3 of RFC 793). */
module WrappingIntegers {
  import opened Types

  /** Checkpoints stay below this bound, so `checkpoint + offset` does not leave 64 bits. */
  const CHECKPOINT_BOUND: int := TWO64 - TWO32

  /** The point `b` steps past `a`. */
  function Plus(a: U32, b: nat): U32 {
    (a + b) % TWO32
  }

  /** The signed 32-bit offset of `a` relative to `b`. */
  function Difference(a: U32, b: U32): int {
    var d := (a - b) % TWO32;
    if d < TWO31 then d else d - TWO32
  }

  function Wrap(n: nat, isn: U32): U32 {
    Plus(isn, n % TWO32)
  }

  function Unwrap(n: U32, isn: U32, checkpoint: nat): nat
    requires checkpoint < CHECKPOINT_BOUND
  {
    var offset := Difference(n, Wrap(checkpoint, isn)) % TWO32;
    var ret := checkpoint + offset;
    if offset >= TWO31 && ret >= TWO32 then ret - TWO32 else ret
  }

  /** How far `a` is from `b`. */
  function Distance(a: int, b: int): nat {
    if a <= b then b - a else a - b
  }

  /** `v` lies in the half-open window of 2^32 numbers centred on the checkpoint. */
  predicate Near(v: int, checkpoint: int) {
    -TWO31 <= v - checkpoint < TWO31
  }

  /** Two absolute numbers wrap alike exactly when they differ by a multiple of 2^32. */
  lemma {:induction false} WrapCongruent(a: nat, b: nat, isn: U32)
    ensures Wrap(a, isn) == Wrap(b, isn) <==> (a - b) % TWO32 == 0
  {
    var q, r := a / TWO32, a % TWO32;
    var q', r' := b / TWO32, b % TWO32;
    assert a - b == (q - q') * TWO32 + (r - r');
  }

  lemma {:induction false} ModuloAbsorbs(x: int, y: int)
    ensures (x % TWO32 + y) % TWO32 == (x + y) % TWO32
  {
    var q := x / TWO32;
    assert x + y == (x % TWO32 + y) + q * TWO32;
  }

  lemma {:induction false} WrapPlus(n: nat, d: nat, isn: U32)
    ensures Wrap(n + d, isn) == (Wrap(n, isn) + d) % TWO32
  {
    ModuloAbsorbs(n, isn);
    ModuloAbsorbs(isn + n, d);
    ModuloAbsorbs(n + d, isn);
  }

  lemma {:induction false} DifferenceModulo(a: U32, b: U32)
    ensures Difference(a, b) % TWO32 == (a - b) % TWO32
  {
  }

  /** Going the offset of `n` from `w` past `w` leads to `n`. */
  lemma {:induction false} OffsetReaches(n: U32, w: U32)
    ensures (w + (n - w) % TWO32) % TWO32 == n
  {
    ModuloAbsorbs(n - w, w);
  }

  lemma {:induction false} WrapOneTurn(v: nat, isn: U32)
    requires v >= TWO32
    ensures Wrap(v - TWO32, isn) == Wrap(v, isn)
  {
    assert v % TWO32 == (v - TWO32) % TWO32;
  }

  lemma {:induction false} UnwrapOffset(n: U32, isn: U32, checkpoint: nat)
    requires checkpoint < CHECKPOINT_BOUND
    ensures Wrap(Unwrap(n, isn, checkpoint), isn) == n
  {
    var w := Wrap(checkpoint, isn);
    var offset := (n - w) % TWO32;
    DifferenceModulo(n, w);
    OffsetReaches(n, w);
    WrapPlus(checkpoint, offset, isn);
    if checkpoint + offset >= TWO32 {
      WrapOneTurn(checkpoint + offset, isn);
    }
  }

  /** The result wraps to `n`, and no other number that does is as near the
      checkpoint, except that the lower of two equally near ones is taken. */
  lemma {:induction false} UnwrapIsNearest(n: U32, isn: U32, checkpoint: nat)
    requires checkpoint < CHECKPOINT_BOUND
    ensures Wrap(Unwrap(n, isn, checkpoint), isn) == n
    ensures Unwrap(n, isn, checkpoint) < TWO64
    ensures forall v: nat :: Wrap(v, isn) == n && v != Unwrap(n, isn, checkpoint) ==>
      Distance(Unwrap(n, isn, checkpoint), checkpoint) < Distance(v, checkpoint)
      || (Distance(Unwrap(n, isn, checkpoint), checkpoint) == Distance(v, checkpoint)
          && Unwrap(n, isn, checkpoint) < v)
  {
    var u := Unwrap(n, isn, checkpoint);
    UnwrapOffset(n, isn, checkpoint);
    forall v: nat | Wrap(v, isn) == n && v != u
      ensures Distance(u, checkpoint) < Distance(v, checkpoint)
        || (Distance(u, checkpoint) == Distance(v, checkpoint) && u < v)
    {
      WrapCongruent(u, v, isn);
      var k := (u - v) / TWO32;
      assert u - v == k * TWO32;
      assert k != 0;
    }
  }

  /** Unwrapping undoes wrapping exactly for the numbers near the checkpoint, and
      for the low numbers that have no smaller rival. */
  lemma {:induction false} UnwrapUndoesWrap(v: nat, isn: U32, checkpoint: nat)
    requires checkpoint < CHECKPOINT_BOUND
    ensures Unwrap(Wrap(v, isn), isn, checkpoint) == v
      <==> Near(v, checkpoint) || (v - checkpoint >= TWO31 && v < TWO32)
  {
    var u := Unwrap(Wrap(v, isn), isn, checkpoint);
    UnwrapIsNearest(Wrap(v, isn), isn, checkpoint);
    if u != v {
      WrapCongruent(u, v, isn);
      var k := (u - v) / TWO32;
      assert u - v == k * TWO32 && k != 0;
    }
  }
}
