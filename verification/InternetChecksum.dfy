/** The Internet checksum (RFC 1071). */
module InternetChecksums {
  import opened Types
  import opened Wire

  /** A 32-bit accumulator that remembers whether the next byte is a low one. */
  datatype Checksum = Checksum(sum: nat, parity: bool)

  function AddByte(c: Checksum, b: byte): Checksum
    requires 0 <= b
  {
    Checksum((c.sum + if c.parity then b else 256 * b) % TWO32, !c.parity)
  }

  function AddAll(c: Checksum, data: seq<byte>): Checksum
    requires forall k :: 0 <= k < |data| ==> 0 <= data[k]
    decreases |data|
  {
    if data == [] then c else AddAll(AddByte(c, data[0]), data[1..])
  }

  /** Folds the carries back in until 16 bits are left. */
  function Fold(x: nat): (r: nat)
    ensures r <= 0xffff
    decreases x
  {
    if x > 0xffff then Fold(x / 0x1_0000 + x % 0x1_0000) else x
  }

  function Value(c: Checksum): nat {
    (0xffff - Fold(c.sum)) % 0x1_0000
  }

  /** It makes no difference how the bytes are cut up. */
  lemma {:induction false} AddSplits(c: Checksum, a: seq<byte>, b: seq<byte>)
    requires forall k :: 0 <= k < |a| ==> 0 <= a[k]
    requires forall k :: 0 <= k < |b| ==> 0 <= b[k]
    ensures AddAll(c, a + b) == AddAll(AddAll(c, a), b)
    decreases |a|
  {
    if a == [] {
      assert a + b == b;
    } else {
      assert (a + b)[1..] == a[1..] + b;
      AddSplits(AddByte(c, a[0]), a[1..], b);
    }
  }

  lemma {:induction false} SameResidue(x: nat, y: nat, k: int)
    requires x - y == k * 0xffff
    ensures x % 0xffff == y % 0xffff
  {
    var qx, qy := x / 0xffff, y / 0xffff;
    assert x % 0xffff - y % 0xffff == (k - qx + qy) * 0xffff;
  }

  /** Folding ends with 16 bits, keeps the residue modulo 65535, and gives 0 only for 0. */
  lemma {:induction false} FoldKeepsResidue(x: nat)
    ensures Fold(x) % 0xffff == x % 0xffff
    ensures Fold(x) == 0 <==> x == 0
    decreases x
  {
    if x > 0xffff {
      var q, r := x / 0x1_0000, x % 0x1_0000;
      FoldKeepsResidue(q + r);
      SameResidue(x, q + r, q);
    }
  }

  // ---- the sum without the 32-bit limit

  function WordSum(data: seq<byte>, parity: bool): int
    decreases |data|
  {
    if data == [] then 0
    else (if parity then data[0] else 256 * data[0]) + WordSum(data[1..], !parity)
  }

  lemma {:induction false} WordSumBound(data: seq<byte>, parity: bool)
    requires Octets(data)
    ensures 0 <= WordSum(data, parity)
    ensures 2 * WordSum(data, parity) <= 65535 * |data| + 65535
    ensures parity ==> 2 * WordSum(data, parity) <= 65535 * |data| + 510
    decreases |data|
  {
    if data != [] {
      WordSumBound(data[1..], !parity);
    }
  }

  /** Below the 32-bit limit the accumulator holds the true sum. */
  lemma {:induction false} AddAllSums(c: Checksum, data: seq<byte>)
    requires Octets(data) && c.sum + WordSum(data, c.parity) < TWO32
    ensures AddAll(c, data).sum == c.sum + WordSum(data, c.parity)
    ensures AddAll(c, data).parity == (c.parity != (|data| % 2 == 1))
    decreases |data|
  {
    if data != [] {
      WordSumBound(data[1..], !c.parity);
      AddAllSums(AddByte(c, data[0]), data[1..]);
    }
  }

  lemma {:induction false} WordSumSplits(a: seq<byte>, b: seq<byte>, parity: bool)
    ensures WordSum(a + b, parity) == WordSum(a, parity) + WordSum(b, parity != (|a| % 2 == 1))
    decreases |a|
  {
    if a == [] {
      assert a + b == b;
    } else {
      assert (a + b)[1..] == a[1..] + b;
      WordSumSplits(a[1..], b, !parity);
    }
  }

  lemma {:induction false} WordSumOfField(v: nat)
    requires v < 0x1_0000
    ensures WordSum(Encode(v, 2), false) == v
  {
    assert Encode(v, 2) == Encode(v / 256, 1) + [v % 256];
    assert Encode(v / 256, 1) == [] + [v / 256 % 256];
    assert Encode(v, 2) == [v / 256, v % 256];
    assert Encode(v, 2)[1..] == [v % 256];
    assert [v % 256][1..] == [];
    assert WordSum([v % 256], true) == v % 256;
  }

  /** The message `before + field + after`, with a 16-bit field at an even place. */
  function Message(before: seq<byte>, field: nat, after: seq<byte>): seq<byte> {
    before + Encode(field, 2) + after
  }

  lemma {:induction false} MessageSum(before: seq<byte>, field: nat, after: seq<byte>)
    requires |before| % 2 == 0 && field < 0x1_0000
    ensures WordSum(Message(before, field, after), false) == WordSum(before, false) + field + WordSum(after, false)
  {
    WordSumSplits(before + Encode(field, 2), after, false);
    WordSumSplits(before, Encode(field, 2), false);
    WordSumOfField(field);
  }

  lemma {:induction false} MessageOctets(before: seq<byte>, field: nat, after: seq<byte>)
    requires Octets(before) && Octets(after)
    ensures Octets(Message(before, field, after))
  {
    EncodeOctets(field, 2);
  }

  /** Adding the complement of the folded sum makes a multiple of 65535. */
  lemma {:induction false} ComplementCancels(sum: nat)
    ensures Fold(sum + (0xffff - Fold(sum))) == 0xffff
  {
    FoldKeepsResidue(sum);
    var total := sum + (0xffff - Fold(sum));
    FoldKeepsResidue(total);
    assert sum % 0xffff == Fold(sum) % 0xffff;
    var k := sum / 0xffff - Fold(sum) / 0xffff + 1;
    assert total == k * 0xffff;
    SameResidue(total, 0, k);
  }

  lemma {:induction false} ValueOfSum(initial: nat, data: seq<byte>)
    requires Octets(data) && initial + WordSum(data, false) < TWO32
    ensures 0 <= WordSum(data, false)
    ensures Value(AddAll(Checksum(initial, false), data)) == 0xffff - Fold(initial + WordSum(data, false))
  {
    WordSumBound(data, false);
    AddAllSums(Checksum(initial, false), data);
  }

  /** A message whose checksum field was computed over the message with that field zero
      verifies, that is, sums to a checksum of 0. */
  lemma {:induction false} ChecksumVerifies(initial: nat, before: seq<byte>, after: seq<byte>)
    requires Octets(before) && Octets(after) && |before| % 2 == 0
    requires initial + WordSum(before, false) + WordSum(after, false) + 0xffff < TWO32
    ensures Octets(Message(before, 0, after))
    ensures var c := Value(AddAll(Checksum(initial, false), Message(before, 0, after)));
      && c < 0x1_0000
      && Octets(Message(before, c, after))
      && Value(AddAll(Checksum(initial, false), Message(before, c, after))) == 0
  {
    WordSumBound(before, false);
    WordSumBound(after, false);
    var sum := initial + WordSum(before, false) + WordSum(after, false);
    MessageOctets(before, 0, after);
    MessageSum(before, 0, after);
    ValueOfSum(initial, Message(before, 0, after));
    var c := 0xffff - Fold(sum);
    MessageOctets(before, c, after);
    MessageSum(before, c, after);
    ValueOfSum(initial, Message(before, c, after));
    ComplementCancels(sum);
  }

  // ---- what the checksum is

  /** The sum of the 16-bit words of `data`, most significant byte first; an odd last byte is
      the high half of a word. */
  function SumOfWords(data: seq<byte>): int
    decreases |data|
  {
    if |data| == 0 then 0
    else if |data| == 1 then 256 * data[0]
    else 256 * data[0] + data[1] + SumOfWords(data[2..])
  }

  lemma {:induction false} WordByWord(data: seq<byte>)
    ensures WordSum(data, false) == SumOfWords(data)
    decreases |data|
  {
    if |data| == 1 {
      assert data[1..] == [];
    } else if |data| > 1 {
      assert data[1..][1..] == data[2..];
      WordByWord(data[2..]);
    }
  }

  lemma {:induction false} ComplementLaw(sum: nat)
    ensures (sum + (0xffff - Fold(sum))) % 0xffff == 0
    ensures Fold(sum) == 0 <==> sum == 0
  {
    FoldKeepsResidue(sum);
    ComplementCancels(sum);
    FoldKeepsResidue(sum + (0xffff - Fold(sum)));
  }

  lemma {:induction false} FoldedMultiple(sum: nat)
    ensures Fold(sum) == 0xffff <==> sum > 0 && sum % 0xffff == 0
  {
    FoldKeepsResidue(sum);
  }

  /** The checksum is the 16-bit number that makes the sum of all words a multiple of 65535,
      and is 65535 exactly for a sum of 0 (as long as the sum fits 32 bits). */
  lemma {:induction false} ChecksumIsComplement(initial: nat, data: seq<byte>)
    requires Octets(data) && initial + SumOfWords(data) < TWO32
    ensures var v, sum := Value(AddAll(Checksum(initial, false), data)), initial + SumOfWords(data);
      && 0 <= v < 0x1_0000 && 0 <= sum
      && (sum + v) % 0xffff == 0
      && (v == 0xffff <==> sum == 0)
  {
    WordByWord(data);
    ValueOfSum(initial, data);
    ComplementLaw(initial + SumOfWords(data));
  }

  /** Data verify exactly if the sum of their words is a positive multiple of 65535. */
  lemma {:induction false} VerifiesExactly(initial: nat, data: seq<byte>)
    requires Octets(data) && initial + SumOfWords(data) < TWO32
    ensures Value(AddAll(Checksum(initial, false), data)) == 0 <==>
      initial + SumOfWords(data) > 0 && (initial + SumOfWords(data)) % 0xffff == 0
  {
    WordByWord(data);
    ValueOfSum(initial, data);
    FoldedMultiple(initial + SumOfWords(data));
  }

  class InternetChecksum {
    var sum: nat
    var parity: bool

    constructor (initialSum: U32)
      ensures Model() == Checksum(initialSum, false)
    {
      sum, parity := initialSum, false;
    }

    ghost function Model(): Checksum
      reads this
    {
      Checksum(sum, parity)
    }

    method Add(data: seq<byte>)
      requires forall k :: 0 <= k < |data| ==> 0 <= data[k]
      modifies this
      ensures Model() == AddAll(old(Model()), data)
    {
      var i := 0;
      while i < |data|
        invariant 0 <= i <= |data|
        invariant AddAll(Model(), data[i..]) == AddAll(old(Model()), data)
      {
        var val := data[i];
        if !parity {
          val := val * 256;
        }
        assert data[i..][1..] == data[i + 1..];
        sum := (sum + val) % TWO32;
        parity := !parity;
        i := i + 1;
      }
    }

    method ComputeValue() returns (v: nat)
      ensures v == Value(Model())
    {
      var ret := sum;
      while ret > 0xffff
        invariant Fold(ret) == Fold(sum)
        decreases ret
      {
        ret := ret / 0x1_0000 + ret % 0x1_0000;
      }
      v := (0xffff - ret) % 0x1_0000;
    }
  }
}
