/**
 The bounded buffer: a ring of bytes with a head, a tail and a count. The methods are what Write and
 Read do while holding the lock, from one test of their loop to the wait or to the signal; calls by
 any number of writers and readers are sequences of these, in the order in which they get the lock.
 */
module BoundedBuffers {
  import opened Bytes

  /** The place i after h on a ring of n. */
  function Slot(h: nat, i: nat, n: nat): (r: nat)
    requires h < n && i <= n
    ensures r < n
  {
    if h + i < n then h + i else h + i - n
  }

  lemma AtLeast(n: nat, q: nat)
    requires q >= 1
    ensures n * q >= n && (q >= 2 ==> n * q >= n + n)
  {
    assert n * q == n + n * (q - 1);
  }

  lemma SlotIsRemainder(h: nat, i: nat, n: nat)
    requires h < n && i <= n
    ensures (h + i) % n == Slot(h, i, n)
  {
    var x := h + i;
    assert x == n * (x / n) + x % n;
    var q := x / n;
    if q >= 1 { AtLeast(n, q); }
    assert q == 0 || n * q == n;
  }

  class BoundedBuffer {
    const maxSize: nat
    const buffer: array<Byte>
    var usedSize: nat
    var head: nat
    var tail: nat
    /** Everything written and everything read so far. */
    ghost var written: seq<Byte>
    ghost var read: seq<Byte>

    ghost function Contents(): (c: seq<Byte>)
      requires maxSize == buffer.Length && head < maxSize && usedSize <= maxSize
      reads this, buffer
    {
      seq(usedSize, i requires 0 <= i < usedSize reads this, buffer
        requires maxSize == buffer.Length && head < maxSize && usedSize <= maxSize => buffer[Slot(head, i, maxSize)])
    }

    /** The buffer holds exactly what has been written and not yet read, in order. */
    ghost predicate Valid()
      reads this, buffer
    {
      && maxSize == buffer.Length && head < maxSize && usedSize <= maxSize
      && tail == Slot(head, usedSize, maxSize)
      && written == read + Contents()
    }

    constructor (maxSize: nat)
      requires maxSize > 0
      ensures Valid() && this.maxSize == maxSize && fresh(buffer)
      ensures Contents() == [] && written == [] && read == []
    {
      this.maxSize := maxSize;
      usedSize, head, tail := 0, 0, 0;
      buffer := new Byte[maxSize](_ => 0);
      written, read := [], [];
    }

    /** The loop of Write: bytes go behind those in use, which keep their places. */
    method CopyIn(data: array<Byte>, size: nat)
      requires Valid() && size <= data.Length && size <= maxSize - usedSize && data != buffer
      modifies buffer
      ensures forall k | 0 <= k < usedSize :: buffer[Slot(head, k, maxSize)] == old(Contents())[k]
      ensures forall k | 0 <= k < size :: buffer[Slot(head, usedSize + k, maxSize)] == data[k]
    {
      ghost var was := Contents();
      var i := 0;
      while i < size
        invariant 0 <= i <= size
        invariant forall k | 0 <= k < usedSize :: buffer[Slot(head, k, maxSize)] == was[k]
        invariant forall k | 0 <= k < i :: buffer[Slot(head, usedSize + k, maxSize)] == data[k]
      {
        SlotIsRemainder(tail, i, maxSize);
        assert Slot(tail, i, maxSize) == Slot(head, usedSize + i, maxSize);
        buffer[(tail + i) % maxSize] := data[i];
        i := i + 1;
      }
    }

    /** Puts in the bytes of data and returns true, or, if they do not fit, goes to wait. */
    method Write(data: array<Byte>, size: nat) returns (done: bool)
      requires Valid() && size <= data.Length && size <= maxSize && data != buffer
      modifies this, buffer
      ensures Valid()
      ensures done <==> size <= maxSize - old(usedSize)
      ensures !done ==> Contents() == old(Contents())
      ensures done ==> Contents() == old(Contents()) + data[..size]
      ensures written == old(written) + if done then data[..size] else []
      ensures read == old(read)
    {
      if maxSize - usedSize < size { return false; }
      ghost var was := Contents();
      CopyIn(data, size);
      SlotIsRemainder(tail, size, maxSize);
      tail := (tail + size) % maxSize;
      usedSize := usedSize + size;
      assert Contents() == was + data[..size];
      written := written + data[..size];
      done := true;
    }

    /** The loop of Read. */
    method CopyOut(data: array<Byte>, size: nat)
      requires Valid() && size <= data.Length && size <= usedSize && data != buffer
      modifies data
      ensures data[..size] == Contents()[..size] && data[size..] == old(data[size..])
    {
      var i := 0;
      while i < size
        invariant 0 <= i <= size
        invariant data[..i] == Contents()[..i] && data[size..] == old(data[size..])
      {
        SlotIsRemainder(head, i, maxSize);
        data[i] := buffer[(head + i) % maxSize];
        i := i + 1;
      }
    }

    method Discard(size: nat)
      requires Valid() && size <= usedSize
      modifies `head, `usedSize
      ensures head < maxSize && usedSize == old(usedSize) - size && tail == Slot(head, usedSize, maxSize)
      ensures Contents() == old(Contents())[size..]
    {
      SlotIsRemainder(head, size, maxSize);
      head := (head + size) % maxSize;
      usedSize := usedSize - size;
    }

    /** Takes the first bytes out and returns true, or, if there are not enough, goes to wait. */
    method Read(data: array<Byte>, size: nat) returns (done: bool)
      requires Valid() && size <= data.Length && data != buffer
      modifies this, data
      ensures Valid()
      ensures done <==> size <= old(usedSize)
      ensures !done ==> Contents() == old(Contents()) && data[..] == old(data[..])
      ensures done ==> data[..size] + Contents() == old(Contents()) && data[size..] == old(data[size..])
      ensures read == old(read) + if done then data[..size] else []
      ensures written == old(written)
    {
      if usedSize - size < 0 { return false; }
      CopyOut(data, size);
      ghost var was := Contents();
      Discard(size);
      assert was == was[..size] + was[size..];
      read := read + data[..size];
      done := true;
    }

    /** Head and tail meet only when the buffer is empty or full, which the count tells apart. */
    lemma HeadMeetsTail()
      requires Valid()
      ensures head == tail <==> usedSize == 0 || usedSize == maxSize
    {
    }
  }
}
