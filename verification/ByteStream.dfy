/** The abstract value of a byte stream: everything ever written, and how much
    of it has been read. */
module ByteStreams {
  import opened Types
  import opened Buffers

  datatype Stream = Stream(capacity: nat, written: seq<byte>, read: nat, ended: bool, error: bool) {
    predicate Valid() {
      read <= |written| && |written| - read <= capacity
    }

    function BufferSize(): int { |written| - read }

    function Remaining(): int { capacity - BufferSize() }

    predicate Eof() { ended && BufferSize() == 0 }

    /** As many bytes as fit. */
    function Write(data: seq<byte>): Stream
      requires Valid()
    {
      this.(written := written + data[..Min(Remaining(), |data|)])
    }

    function Peek(len: nat): seq<byte>
      requires Valid()
    {
      Prefix(written[read..], len)
    }

    function Pop(len: nat): Stream
      requires Valid()
    {
      this.(read := read + Min(len, BufferSize()))
    }

    function EndInput(): Stream { this.(ended := true) }

    function SetError(): Stream { this.(error := true) }
  }

  function NewStream(capacity: nat): Stream {
    Stream(capacity, [], 0, false, false)
  }

  /** What the two ends of a stream do to it. */
  datatype Access = Writing(data: seq<byte>) | Reading(len: nat) | Ending | Failing

  /** The stream after some accesses, the bytes it took in on the way and the bytes it
      gave out. */
  datatype Outcome = Outcome(stream: Stream, taken: seq<byte>, given: seq<byte>)

  function AfterAccess(o: Outcome, a: Access): (r: Outcome)
    requires o.stream.Valid()
    ensures r.stream.Valid()
  {
    match a
    case Writing(data) =>
      Outcome(o.stream.Write(data), o.taken + Prefix(data, o.stream.Remaining()), o.given)
    case Reading(len) => Outcome(o.stream.Pop(len), o.taken, o.given + o.stream.Peek(len))
    case Ending => o.(stream := o.stream.EndInput())
    case Failing => o.(stream := o.stream.SetError())
  }

  function AfterAccesses(s: Stream, accesses: seq<Access>): (r: Outcome)
    requires s.Valid()
    ensures r.stream.Valid()
  {
    if accesses == [] then Outcome(s, [], [])
    else AfterAccess(AfterAccesses(s, accesses[..|accesses| - 1]), accesses[|accesses| - 1])
  }

  /** `o` comes after accesses to `s`: everything taken in follows what was written, and
      what was given out starts where `s` was read to and ends where it is read to now. */
  ghost predicate Follows(s: Stream, o: Outcome) {
    && o.stream.Valid() && o.stream.capacity == s.capacity
    && o.stream.written == s.written + o.taken
    && s.read <= o.stream.read
    && o.given == o.stream.written[s.read..o.stream.read]
  }

  lemma {:induction false} GivenAndHeld(s: Stream, o: Outcome)
    requires s.Valid() && Follows(s, o)
    ensures s.written[s.read..] + o.taken == o.given + o.stream.written[o.stream.read..]
  {
    assert s.written[s.read..] + o.taken == o.stream.written[s.read..];
  }

  lemma {:induction false} AppendedLater(s: Stream, o: Outcome, data: seq<byte>)
    requires s.Valid() && Follows(s, o)
    ensures o.stream.written + data == s.written + (o.taken + data)
    ensures (o.stream.written + data)[s.read..o.stream.read] == o.given
  {
  }

  lemma {:induction false} ReadFurther(w: seq<byte>, lo: nat, hi: nat, data: seq<byte>)
    requires lo <= hi <= |w| && data <= w[hi..]
    ensures w[lo..hi] + data == w[lo..hi + |data|]
  {
  }

  lemma {:induction false} OneMoreAccess(s: Stream, o: Outcome, a: Access)
    requires s.Valid() && Follows(s, o)
    ensures Follows(s, AfterAccess(o, a))
  {
    match a
    case Writing(data) => AppendedLater(s, o, Prefix(data, o.stream.Remaining()));
    case Reading(len) => ReadFurther(o.stream.written, s.read, o.stream.read, o.stream.Peek(len));
    case _ =>
  }

  /** However writes and reads of any sizes alternate, what was given out so far is what
      was taken in so far, in order and each byte once, up to the bytes still held. */
  lemma {:induction false} ReadsAreInOrder(s: Stream, accesses: seq<Access>)
    requires s.Valid()
    ensures Follows(s, AfterAccesses(s, accesses))
    ensures var o := AfterAccesses(s, accesses);
      s.written[s.read..] + o.taken == o.given + o.stream.written[o.stream.read..]
  {
    if accesses != [] {
      ReadsAreInOrder(s, accesses[..|accesses| - 1]);
      OneMoreAccess(s, AfterAccesses(s, accesses[..|accesses| - 1]), accesses[|accesses| - 1]);
    }
    GivenAndHeld(s, AfterAccesses(s, accesses));
  }

  class ByteStream {
    const capacity: nat
    var bytesWritten: nat
    var bytesRead: nat
    const buffer: BufferList
    var bufferSize: nat
    var endInput: bool
    var error: bool
    ghost var history: seq<byte>

    constructor (capacity: nat)
      ensures Valid() && Model() == NewStream(capacity)
      ensures fresh(buffer)
    {
      this.capacity := capacity;
      bytesWritten, bytesRead, bufferSize := 0, 0, 0;
      buffer := new BufferList();
      endInput, error := false, false;
      history := [];
    }

    ghost predicate Valid()
      reads this, buffer
    {
      && bytesWritten == |history|
      && bytesRead <= bytesWritten
      && bufferSize == bytesWritten - bytesRead
      && bufferSize <= capacity
      && buffer.Valid()
      && buffer.Contents() == history[bytesRead..]
    }

    ghost function Model(): Stream
      reads this
    {
      Stream(capacity, history, bytesRead, endInput, error)
    }

    method Write(data: seq<byte>) returns (count: nat)
      requires Valid()
      modifies this, buffer
      ensures Valid()
      ensures Model() == old(Model()).Write(data)
      ensures count == Min(old(Model()).Remaining(), |data|)
    {
      count := Min(capacity - bufferSize, |data|);
      var added := new BufferList.OfString(data[..count]);
      buffer.Append(added);
      bufferSize := bufferSize + count;
      bytesWritten := bytesWritten + count;
      history := history + data[..count];
    }

    method PeekOutput(len: nat) returns (s: seq<byte>)
      requires Valid()
      ensures s == Model().Peek(len)
    {
      var count := Min(len, bufferSize);
      s := buffer.Concatenate(count);
    }

    /** The removal below never reaches the exception. */
    method PopOutput(len: nat)
      requires Valid()
      modifies this, buffer
      ensures Valid()
      ensures Model() == old(Model()).Pop(len)
    {
      var count := Min(len, bufferSize);
      var ok := buffer.RemovePrefix(count);
      assert ok;
      bytesRead := bytesRead + count;
      bufferSize := bufferSize - count;
    }

    method Read(len: nat) returns (s: seq<byte>)
      requires Valid()
      modifies this, buffer
      ensures Valid()
      ensures s == old(Model()).Peek(len)
      ensures Model() == old(Model()).Pop(len)
    {
      s := PeekOutput(len);
      PopOutput(len);
    }

    method EndInput()
      requires Valid()
      modifies this
      ensures Valid()
      ensures Model() == old(Model()).EndInput()
    {
      endInput := true;
    }

    method SetError()
      requires Valid()
      modifies this
      ensures Valid()
      ensures Model() == old(Model()).SetError()
    {
      error := true;
    }

    predicate Eof()
      reads this
    {
      endInput && bufferSize == 0
    }

    function RemainingCapacity(): int
      reads this
    {
      capacity - bufferSize
    }
  }
}
