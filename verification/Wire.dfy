/** Integers in network byte order, and the parser that reads them. */
module Wire {
  import opened Types

  datatype ParseResult = NoError | BadChecksum | PacketTooShort | WrongIPVersion | HeaderTooShort | TruncatedPacket

  /** Bytes that are bytes. */
  ghost predicate Octets(s: seq<byte>) {
    forall k :: 0 <= k < |s| ==> 0 <= s[k] < 256
  }

  /** 256^n. */
  function Range256(n: nat): nat {
    if n == 0 then 1 else 256 * Range256(n - 1)
  }

  /** The last `n` base-256 digits of `v`, most significant first. */
  function Encode(v: nat, n: nat): (s: seq<byte>)
    ensures |s| == n
  {
    if n == 0 then [] else Encode(v / 256, n - 1) + [v % 256]
  }

  function Decode(s: seq<byte>): int {
    if s == [] then 0 else Decode(s[..|s| - 1]) * 256 + s[|s| - 1]
  }

  lemma {:induction false} EncodeOctets(v: nat, n: nat)
    ensures Octets(Encode(v, n))
  {
    if n > 0 {
      EncodeOctets(v / 256, n - 1);
    }
  }

  lemma {:induction false} DecodeEncode(v: nat, n: nat)
    requires v < Range256(n)
    ensures Decode(Encode(v, n)) == v
  {
    if n > 0 {
      DecodeEncode(v / 256, n - 1);
      assert Encode(v, n)[..n - 1] == Encode(v / 256, n - 1);
    }
  }

  lemma {:induction false} EncodeDecode(s: seq<byte>)
    requires Octets(s)
    ensures 0 <= Decode(s) < Range256(|s|) && Encode(Decode(s), |s|) == s
  {
    if s != [] {
      EncodeDecode(s[..|s| - 1]);
      assert s == s[..|s| - 1] + [s[|s| - 1]];
    }
  }

  datatype Parser = Parser(buffer: seq<byte>, error: ParseResult) {
    function CheckSize(n: nat): Parser {
      if n > |buffer| then this.(error := PacketTooShort) else this
    }

    /** The parser after an integer of `n` bytes; it stays put once there is an error. */
    function Skip(n: nat): (p: Parser)
      ensures p.error == NoError ==> n <= |buffer| && p.buffer == buffer[n..]
      ensures p.error != NoError ==> p.buffer == buffer
    {
      var p := CheckSize(n);
      if p.error != NoError then p else p.(buffer := buffer[n..])
    }

    /** That integer; 0 once there is an error. */
    function Peek(n: nat): int {
      if CheckSize(n).error != NoError then 0 else Decode(buffer[..n])
    }
  }

  /** Integers of the given widths, one after the other. */
  function ReadAll(p: Parser, widths: seq<nat>): seq<int>
    decreases |widths|
  {
    if widths == [] then [] else [p.Peek(widths[0])] + ReadAll(p.Skip(widths[0]), widths[1..])
  }

  function SkipAll(p: Parser, widths: seq<nat>): Parser
    decreases |widths|
  {
    if widths == [] then p else SkipAll(p.Skip(widths[0]), widths[1..])
  }

  function WriteAll(values: seq<nat>, widths: seq<nat>): seq<byte>
    requires |values| == |widths|
    decreases |widths|
  {
    if widths == [] then [] else Encode(values[0], widths[0]) + WriteAll(values[1..], widths[1..])
  }

  ghost predicate Fits(values: seq<nat>, widths: seq<nat>) {
    |values| == |widths| && forall k :: 0 <= k < |values| ==> values[k] < Range256(widths[k])
  }

  /** Reading back what was written gives the same integers and leaves the rest. */
  lemma {:induction false} ReadWritten(values: seq<nat>, widths: seq<nat>, rest: seq<byte>)
    requires Fits(values, widths)
    ensures ReadAll(Parser(WriteAll(values, widths) + rest, NoError), widths) == values
    ensures SkipAll(Parser(WriteAll(values, widths) + rest, NoError), widths) == Parser(rest, NoError)
    decreases |widths|
  {
    if widths == [] {
      assert WriteAll(values, widths) + rest == rest;
    } else {
      var head, tail := Encode(values[0], widths[0]), WriteAll(values[1..], widths[1..]);
      var p := Parser(WriteAll(values, widths) + rest, NoError);
      assert p.buffer == head + (tail + rest);
      assert p.buffer[..widths[0]] == head && p.buffer[widths[0]..] == tail + rest;
      DecodeEncode(values[0], widths[0]);
      ReadWritten(values[1..], widths[1..], rest);
    }
  }

  lemma {:induction false} WrittenOctets(values: seq<nat>, widths: seq<nat>)
    requires |values| == |widths|
    ensures Octets(WriteAll(values, widths))
    decreases |widths|
  {
    if widths != [] {
      EncodeOctets(values[0], widths[0]);
      WrittenOctets(values[1..], widths[1..]);
    }
  }

  /** Writing goes left to right. */
  lemma {:induction false} WriteAppend(vs: seq<nat>, ws: seq<nat>, vs': seq<nat>, ws': seq<nat>)
    requires |vs| == |ws| && |vs'| == |ws'|
    ensures WriteAll(vs + vs', ws + ws') == WriteAll(vs, ws) + WriteAll(vs', ws')
    decreases |ws|
  {
    if ws == [] {
      assert vs + vs' == vs' && ws + ws' == ws';
    } else {
      assert (vs + vs')[1..] == vs[1..] + vs' && (ws + ws')[1..] == ws[1..] + ws';
      WriteAppend(vs[1..], ws[1..], vs', ws');
    }
  }

  function Zeros(n: nat): (s: seq<byte>)
    ensures |s| == n && Octets(s)
  {
    if n == 0 then [] else [0] + Zeros(n - 1)
  }

  datatype Parsed<T> = Parsed(value: T, rest: Parser, result: ParseResult)

  lemma {:induction false} ReadAllLength(p: Parser, widths: seq<nat>)
    ensures |ReadAll(p, widths)| == |widths|
    decreases |widths|
  {
    if widths != [] {
      ReadAllLength(p.Skip(widths[0]), widths[1..]);
    }
  }

  lemma {:induction false} RangeConstants()
    ensures Range256(1) == 256 && Range256(2) == TWO16 && Range256(4) == TWO32
  {
    assert Range256(3) == 256 * Range256(2);
  }

  lemma {:induction false} Regroup(a: seq<byte>, b: seq<byte>, c: seq<byte>)
    ensures a + b + c == a + (b + c)
  {
  }

  function Total(widths: seq<nat>): nat {
    if widths == [] then 0 else widths[0] + Total(widths[1..])
  }

  lemma {:induction false} WrittenLength(values: seq<nat>, widths: seq<nat>, n: nat)
    requires |values| == |widths| && n == Total(widths)
    ensures |WriteAll(values, widths)| == n
    decreases |widths|
  {
    if widths != [] {
      WrittenLength(values[1..], widths[1..], Total(widths[1..]));
    }
  }

  lemma {:induction false} Reassociate(a: seq<byte>, b: seq<byte>, c: seq<byte>, d: seq<byte>, e: seq<byte>)
    ensures a + (b + c) + d + e == a + b + (c + d + e)
  {
  }

  lemma {:induction false} TotalAppend(a: seq<nat>, b: seq<nat>)
    ensures Total(a + b) == Total(a) + Total(b)
    decreases |a|
  {
    if a == [] {
      assert a + b == b;
    } else {
      assert (a + b)[1..] == a[1..] + b;
      TotalAppend(a[1..], b);
    }
  }

  /** `val` without its last `n` base-256 digits. */
  function Shifted(val: nat, n: nat): nat
    decreases n
  {
    if n == 0 then val else Shifted(val / 256, n - 1)
  }

  lemma {:induction false} ShiftedStep(val: nat, n: nat)
    ensures Shifted(val, n + 1) == Shifted(val, n) / 256
    decreases n
  {
    if n > 0 {
      ShiftedStep(val / 256, n - 1);
    }
  }

  /** Appends an integer to a string, most significant byte first. */
  method UnparseInt(s: seq<byte>, val: nat, len: nat) returns (r: seq<byte>)
    ensures r == s + Encode(val, len)
  {
    r := s;
    var i := 0;
    while i < len
      invariant 0 <= i <= len
      invariant r == s + Encode(Shifted(val, len - i), i)
    {
      i := i + 1;
      assert Shifted(val, len - i) / 256 == Shifted(val, len - i + 1) by { ShiftedStep(val, len - i); }
      r := r + [Shifted(val, len - i) % 256];
    }
  }

  class NetParser {
    var buffer: seq<byte>
    var error: ParseResult

    constructor (buffer: seq<byte>)
      ensures Model() == Parser(buffer, NoError)
    {
      this.buffer, error := buffer, NoError;
    }

    ghost function Model(): Parser
      reads this
    {
      Parser(buffer, error)
    }

    method ParseInt(len: nat) returns (ret: int)
      modifies this
      ensures ret == old(Model()).Peek(len)
      ensures Model() == old(Model()).Skip(len)
    {
      if len > |buffer| {
        error := PacketTooShort;
      }
      if error != NoError {
        return 0;
      }
      ret := 0;
      for i := 0 to len
        invariant ret == Decode(buffer[..i])
      {
        assert buffer[..i + 1][..i] == buffer[..i];
        ret := ret * 256 + buffer[i];
      }
      buffer := buffer[len..];
    }

    method RemovePrefix(n: nat)
      modifies this
      ensures Model() == old(Model()).Skip(n)
    {
      if n > |buffer| {
        error := PacketTooShort;
      }
      if error != NoError {
        return;
      }
      buffer := buffer[n..];
    }
  }

  lemma {:induction false} ReadAppend(p: Parser, a: seq<nat>, b: seq<nat>)
    ensures ReadAll(p, a + b) == ReadAll(p, a) + ReadAll(SkipAll(p, a), b)
    ensures SkipAll(p, a + b) == SkipAll(SkipAll(p, a), b)
    decreases |a|
  {
    if a == [] {
      assert a + b == b;
    } else {
      assert (a + b)[1..] == a[1..] + b;
      ReadAppend(p.Skip(a[0]), a[1..], b);
    }
  }

  lemma {:induction false} ReadSnoc(p: Parser, widths: seq<nat>, i: nat)
    requires i < |widths|
    ensures ReadAll(p, widths[..i + 1]) == ReadAll(p, widths[..i]) + [SkipAll(p, widths[..i]).Peek(widths[i])]
    ensures SkipAll(p, widths[..i + 1]) == SkipAll(p, widths[..i]).Skip(widths[i])
  {
    var w := [widths[i]];
    assert widths[..i + 1] == widths[..i] + w;
    ReadAppend(p, widths[..i], w);
    assert w[1..] == [];
  }

  /** Reads fields of the given widths in a row. */
  method ReadFields(p: NetParser, widths: seq<nat>) returns (vs: seq<int>)
    modifies p
    ensures vs == ReadAll(old(p.Model()), widths)
    ensures p.Model() == SkipAll(old(p.Model()), widths)
  {
    vs := [];
    for i := 0 to |widths|
      invariant vs == ReadAll(old(p.Model()), widths[..i])
      invariant p.Model() == SkipAll(old(p.Model()), widths[..i])
    {
      ReadSnoc(old(p.Model()), widths, i);
      var v := p.ParseInt(widths[i]);
      vs := vs + [v];
    }
    assert widths[..|widths|] == widths;
  }

  lemma {:induction false} WriteSnoc(values: seq<nat>, widths: seq<nat>, i: nat)
    requires |values| == |widths| && i < |widths|
    ensures WriteAll(values[..i + 1], widths[..i + 1])
      == WriteAll(values[..i], widths[..i]) + Encode(values[i], widths[i])
  {
    var v, w := [values[i]], [widths[i]];
    assert values[..i + 1] == values[..i] + v && widths[..i + 1] == widths[..i] + w;
    WriteAppend(values[..i], widths[..i], v, w);
    assert v[1..] == [] && w[1..] == [];
    assert WriteAll(v, w) == Encode(values[i], widths[i]) + [];
  }

  /** Writes fields of the given widths in a row. */
  method WriteFields(values: seq<nat>, widths: seq<nat>) returns (r: seq<byte>)
    requires |values| == |widths|
    ensures r == WriteAll(values, widths)
  {
    r := [];
    for i := 0 to |widths|
      invariant r == WriteAll(values[..i], widths[..i])
    {
      WriteSnoc(values, widths, i);
      r := UnparseInt(r, values[i], widths[i]);
    }
    assert values[..|widths|] == values && widths[..|widths|] == widths;
  }
}
