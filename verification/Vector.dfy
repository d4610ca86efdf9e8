/** The growable byte buffer that serves as parser stack, segment and preparse table. */
module Vectors {
  import opened Bytes

  function Max(a: int, b: int): int {
    if a < b then b else a
  }

  /** How much `thsn_vector_grow` adds when `size` bytes do not fit any more. */
  function GrowSize(capacity: nat, offset: nat, size: nat): (g: nat)
    requires offset + size <= PTRDIFF_MAX && offset <= capacity < offset + size
    // The request fits, the buffer at most doubles past the new contents, and the sum fits a size_t.
    ensures offset + size <= capacity + g < 2 * (offset + size) < SIZE_MAX
    // Unless the address space is nearly used up, the capacity at least doubles.
    ensures capacity + offset <= PTRDIFF_MAX ==> capacity <= g
  {
    if capacity < size || capacity > PTRDIFF_MAX - offset then size else capacity
  }

  class Vector {
    var buffer: array<Byte>
    var capacity: nat
    var offset: nat
    /** The capacity asked for at allocation, the largest offset so far, the bytes `realloc` moved so far. */
    ghost const initial: nat
    ghost var peak: nat
    ghost var moved: nat
    /** False once the buffer grew by less than its own size. */
    ghost var doubling: bool

    ghost predicate Valid()
      reads this, buffer
    {
      && buffer.Length == capacity
      && offset <= capacity
      && offset <= peak <= PTRDIFF_MAX
      && capacity <= Max(initial, 2 * peak)
      && (doubling ==> initial + moved <= capacity)
    }

    /** The live bytes, bottom first. */
    ghost function Contents(): (s: seq<Byte>)
      requires Valid()
      reads this, buffer
      ensures |s| == offset
    {
      buffer[..offset]
    }

    constructor Allocate(size: nat)
      requires size <= PTRDIFF_MAX
      ensures Valid() && fresh(buffer) && initial == size && capacity == size
      ensures Contents() == []
    {
      buffer := new Byte[size];
      capacity := size;
      offset := 0;
      initial := size;
      peak := 0;
      moved := 0;
      doubling := true;
    }

    predicate IsEmpty()
      reads this
    {
      offset == 0
    }

    /** No C object is larger than PTRDIFF_MAX, so spare capacity is never used beyond that. */
    ghost predicate Representable(size: nat)
      reads this
    {
      offset + size <= capacity ==> offset + size <= PTRDIFF_MAX
    }

    /** `realloc`: a larger block that starts with the old one. */
    method Reallocated(size: nat) returns (larger: array<Byte>)
      requires Valid() && size >= capacity
      ensures fresh(larger) && larger.Length == size && larger[..capacity] == buffer[..]
    {
      larger := new Byte[size];
      var i := 0;
      while i < capacity
        invariant 0 <= i <= capacity
        invariant forall k :: 0 <= k < i ==> larger[k] == buffer[k]
      {
        larger[i] := buffer[i];
        i := i + 1;
      }
    }

    /** Makes room for `size` more bytes, whose values are whatever the memory held. Fails only when the address space
        is exhausted, and then changes nothing. */
    method Grow(size: nat) returns (ok: bool)
      requires Valid() && Representable(size)
      modifies this
      ensures Valid() && (buffer == old(buffer) || fresh(buffer))
      ensures ok <==> old(offset) + size <= PTRDIFF_MAX
      ensures ok ==> offset == old(offset) + size && Contents()[..old(offset)] == old(Contents())
      ensures !ok ==> Contents() == old(Contents()) && buffer == old(buffer)
      ensures old(capacity) >= old(offset) + size ==> buffer == old(buffer) && moved == old(moved)
    {
      var spaceLeft := capacity - offset;
      if spaceLeft < size {
        var addrSpaceLeft := PTRDIFF_MAX - offset;
        if addrSpaceLeft < size {
          return false;
        }
        var growSize := GrowSize(capacity, offset, size);
        var larger := Reallocated(capacity + growSize);
        moved := moved + capacity;
        doubling := doubling && capacity <= growSize;
        buffer := larger;
        capacity := capacity + growSize;
      }
      offset := offset + size;
      peak := Max(peak, offset);
      ok := true;
    }

    /** Drops the top `size` bytes. They stay readable at `at` until the next growth. */
    method Shrink(size: nat) returns (ok: bool, at: nat)
      requires Valid()
      modifies this`offset
      ensures Valid()
      ensures ok <==> size <= old(offset)
      ensures ok ==> at == offset == old(offset) - size && Contents() == old(Contents())[..at]
      ensures !ok ==> Contents() == old(Contents())
    {
      if offset < size {
        return false, 0;
      }
      offset := offset - size;
      return true, offset;
    }

    method Push(data: seq<Byte>) returns (ok: bool)
      requires Valid() && Representable(|data|)
      modifies this, buffer
      ensures Valid() && (buffer == old(buffer) || fresh(buffer))
      ensures ok <==> old(offset) + |data| <= PTRDIFF_MAX
      ensures Contents() == if ok then old(Contents()) + data else old(Contents())
    {
      var at := offset;
      ok := Grow(|data|);
      if ok {
        Write(at, data);
      }
    }

    method Pop(size: nat) returns (ok: bool, data: seq<Byte>)
      requires Valid()
      modifies this`offset
      ensures Valid()
      ensures ok <==> size <= old(offset)
      ensures ok ==> Contents() + data == old(Contents()) && |data| == size
      ensures !ok ==> Contents() == old(Contents())
    {
      var at;
      ok, at := Shrink(size);
      if ok {
        data := buffer[at..at + size];
      } else {
        data := [];
      }
    }

    /** Overwrites live bytes; `thsn_vector_mut_slice_at_offset` followed by `thsn_mut_slice_write`. */
    method Write(at: nat, data: seq<Byte>)
      requires Valid() && at + |data| <= offset
      modifies buffer
      ensures Valid()
      ensures Contents() == old(Contents())[..at] + data + old(Contents())[at + |data|..]
    {
      var i := 0;
      while i < |data|
        invariant 0 <= i <= |data|
        invariant forall k :: 0 <= k < i ==> buffer[at + k] == data[k]
        invariant forall k :: 0 <= k < at || at + i <= k < buffer.Length ==> buffer[k] == old(buffer[k])
      {
        buffer[at + i] := data[i];
        i := i + 1;
      }
    }
  }
}
