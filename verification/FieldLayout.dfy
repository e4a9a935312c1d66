/** Where the fields of a header lie in its bytes. */
module FieldLayouts {
  import opened Types
  import opened Wire

  /** The 16-bit and the 32-bit number in network byte order at place `i`. */
  function U16At(s: seq<byte>, i: nat): int
    requires i + 2 <= |s|
  {
    256 * s[i] + s[i + 1]
  }

  function U32At(s: seq<byte>, i: nat): int
    requires i + 4 <= |s|
  {
    0x100_0000 * s[i] + 0x1_0000 * s[i + 1] + 256 * s[i + 2] + s[i + 3]
  }

  /** Fields of the given widths begin at these places. */
  predicate Places(widths: seq<nat>, places: seq<nat>) {
    && |places| == |widths| + 1 && places[0] == 0
    && forall k {:trigger widths[k]} :: 0 <= k < |widths| ==> places[k + 1] == places[k] + widths[k]
  }

  lemma {:induction false} PlacesGrow(widths: seq<nat>, places: seq<nat>, j: nat, k: nat)
    requires Places(widths, places) && j <= k <= |widths|
    ensures places[j] <= places[k]
  {
    if j < k {
      PlacesGrow(widths, places, j, k - 1);
      assert places[k] == places[k - 1] + widths[k - 1];
    }
  }

  // ---- writing

  lemma {:induction false} WrittenUpTo(values: seq<nat>, widths: seq<nat>, places: seq<nat>, k: nat)
    requires |values| == |widths| && Places(widths, places) && k <= |widths|
    ensures |WriteAll(values[..k], widths[..k])| == places[k]
  {
    if k > 0 {
      WrittenUpTo(values, widths, places, k - 1);
      WriteSnoc(values, widths, k - 1);
      assert places[k] == places[k - 1] + widths[k - 1];
    }
  }

  /** Field `k` lies at its place, and the whole is as long as the last place says. */
  lemma {:induction false} FieldWritten(values: seq<nat>, widths: seq<nat>, places: seq<nat>, k: nat)
    requires |values| == |widths| && Places(widths, places) && k < |widths|
    ensures |WriteAll(values, widths)| == places[|widths|] && places[k] + widths[k] <= places[|widths|]
    ensures WriteAll(values, widths)[places[k]..places[k] + widths[k]] == Encode(values[k], widths[k])
  {
    var n := |widths|;
    WrittenUpTo(values, widths, places, k);
    WrittenUpTo(values, widths, places, k + 1);
    WrittenUpTo(values, widths, places, n);
    PlacesGrow(widths, places, k + 1, n);
    WriteSnoc(values, widths, k);
    assert values[..n] == values && widths[..n] == widths;
    assert values == values[..k + 1] + values[k + 1..] && widths == widths[..k + 1] + widths[k + 1..];
    WriteAppend(values[..k + 1], widths[..k + 1], values[k + 1..], widths[k + 1..]);
    assert places[k + 1] == places[k] + widths[k];
  }

  lemma {:induction false} EncodeOne(v: nat)
    ensures Encode(v, 1) == [v % 256]
  {
    assert Encode(v / 256, 0) == [];
  }

  lemma {:induction false} EncodeTwo(v: nat)
    ensures Encode(v, 2) == [v / 256 % 256, v % 256]
  {
    EncodeOne(v / 256);
  }

  lemma {:induction false} EncodeFour(v: nat)
    ensures Encode(v, 4) == [v / 0x100_0000 % 256, v / 0x1_0000 % 256, v / 256 % 256, v % 256]
  {
    EncodeTwo(v / 256 / 256);
    assert Encode(v, 4) == Encode(v / 256, 3) + [v % 256];
    assert Encode(v / 256, 3) == Encode(v / 256 / 256, 2) + [v / 256 % 256];
  }

  lemma {:induction false} FourDigits(v: nat)
    requires v < TWO32
    ensures v == 0x100_0000 * (v / 0x100_0000 % 256) + 0x1_0000 * (v / 0x1_0000 % 256) + 256 * (v / 256 % 256) + v % 256
  {
    var a := v / 256;
    var b := a / 256;
    var c := b / 256;
    assert b == v / 0x1_0000 && c == v / 0x100_0000;
    assert v == 256 * a + v % 256 && a == 256 * b + a % 256 && b == 256 * c + b % 256 && c == c % 256;
  }

  /** A written field, most significant byte first. */
  lemma {:induction false} Written8(s: seq<byte>, i: nat, v: nat)
    requires i + 1 <= |s| && v < 256 && s[i..i + 1] == Encode(v, 1)
    ensures s[i] == v
  {
    EncodeOne(v);
    assert s[i..i + 1][0] == s[i];
  }

  lemma {:induction false} Written16(s: seq<byte>, i: nat, v: nat)
    requires i + 2 <= |s| && v < TWO16 && s[i..i + 2] == Encode(v, 2)
    ensures U16At(s, i) == v
  {
    EncodeTwo(v);
    assert s[i..i + 2][0] == s[i] && s[i..i + 2][1] == s[i + 1];
  }

  lemma {:induction false} Written32(s: seq<byte>, i: nat, v: nat)
    requires i + 4 <= |s| && v < TWO32 && s[i..i + 4] == Encode(v, 4)
    ensures U32At(s, i) == v
  {
    EncodeFour(v);
    FourDigits(v);
    var t := s[i..i + 4];
    assert t[0] == s[i] && t[1] == s[i + 1] && t[2] == s[i + 2] && t[3] == s[i + 3];
  }

  // ---- reading

  lemma {:induction false} SkippedTo(buffer: seq<byte>, widths: seq<nat>, places: seq<nat>, k: nat)
    requires Places(widths, places) && k <= |widths| && places[k] <= |buffer|
    ensures SkipAll(Parser(buffer, NoError), widths[..k]) == Parser(buffer[places[k]..], NoError)
  {
    if k > 0 {
      assert places[k] == places[k - 1] + widths[k - 1];
      SkippedTo(buffer, widths, places, k - 1);
      ReadSnoc(Parser(buffer, NoError), widths, k - 1);
      assert buffer[places[k - 1]..][widths[k - 1]..] == buffer[places[k]..];
    }
  }

  /** Field `k` is read from its place. */
  lemma {:induction false} FieldRead(buffer: seq<byte>, widths: seq<nat>, places: seq<nat>, k: nat)
    requires Places(widths, places) && k < |widths| && places[k] + widths[k] <= |buffer|
    ensures |ReadAll(Parser(buffer, NoError), widths)| == |widths|
    ensures ReadAll(Parser(buffer, NoError), widths)[k] == Decode(buffer[places[k]..places[k] + widths[k]])
  {
    var p := Parser(buffer, NoError);
    SkippedTo(buffer, widths, places, k);
    ReadSnoc(p, widths, k);
    ReadAllLength(p, widths);
    ReadAllLength(p, widths[..k]);
    assert widths == widths[..k + 1] + widths[k + 1..];
    ReadAppend(p, widths[..k + 1], widths[k + 1..]);
    assert buffer[places[k]..][..widths[k]] == buffer[places[k]..places[k] + widths[k]];
  }

  lemma {:induction false} DecodeOne(s: seq<byte>)
    requires |s| == 1
    ensures Decode(s) == s[0]
  {
    assert s[..0] == [];
  }

  lemma {:induction false} Read8(s: seq<byte>, i: nat)
    requires i + 1 <= |s|
    ensures Decode(s[i..i + 1]) == s[i]
  {
    DecodeOne(s[i..i + 1]);
  }

  lemma {:induction false} Read16(s: seq<byte>, i: nat)
    requires i + 2 <= |s|
    ensures Decode(s[i..i + 2]) == U16At(s, i)
  {
    DecodeOne(s[i..i + 2][..1]);
  }

  lemma {:induction false} Read32(s: seq<byte>, i: nat)
    requires i + 4 <= |s|
    ensures Decode(s[i..i + 4]) == U32At(s, i)
  {
    var t := s[i..i + 4];
    assert t[..2][..1] == t[..1] && t[..3][..2] == t[..2];
    DecodeOne(t[..1]);
    assert Decode(t[..2]) == Decode(t[..2][..1]) * 256 + t[..2][1];
    assert Decode(t[..3]) == Decode(t[..3][..2]) * 256 + t[..3][2];
  }

  /** Numbers read from octets fit their width. */
  lemma {:induction false} ReadFits(s: seq<byte>, i: nat)
    requires Octets(s)
    ensures i + 2 <= |s| ==> 0 <= U16At(s, i) < TWO16
    ensures i + 4 <= |s| ==> 0 <= U32At(s, i) < TWO32
  {
  }

  lemma {:induction false} ZerosAreZero(n: nat)
    ensures forall i :: 0 <= i < n ==> Zeros(n)[i] == 0
  {
    if n > 0 {
      ZerosAreZero(n - 1);
    }
  }

  lemma {:induction false} SmallEnough(x: int, n: int)
    requires 0 <= x < n
    ensures x % n == x
  {
  }
}
