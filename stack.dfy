/** The refactored stack: a growable byte vector with an unsigned char cursor.

    `push` stores at the cursor and then moves it up, so the cursor rests one
    past the last pushed value; `pop` only moves the cursor down (wrapping
    from 0 to 255, with no emptiness check); `peek` reads the cell under the
    cursor.  MEM_CHUNK is a positive constructor argument, as for the heap.
 */
module StackMemory {
  import opened Byte8
  import opened Memory

  class Stack {
    const chunk: nat
    var data: seq<Byte>
    var ptr: Byte

    /** A new stack has no cells and its cursor on 0. */
    constructor (memChunk: nat)
      requires memChunk > 0
      ensures chunk == memChunk
      ensures data == [] && ptr == 0
    {
      chunk := memChunk;
      data := [];
      ptr := 0;
    }

    /** Makes the cell under the cursor exist and returns it; the cursor does
        not move. */
    method Peek() returns (v: Byte)
      requires chunk > 0
      modifies this`data
      ensures data == Grow(old(data), ptr, chunk)
      ensures ptr < |data| && v == data[ptr]
      ensures ptr == old(ptr)
    {
      while ptr >= |data|
        invariant |old(data)| <= |data|
        invariant Grow(data, ptr, chunk) == Grow(old(data), ptr, chunk)
        decreases ptr - |data|
      {
        data := data + Zeros(chunk);
      }
      v := data[ptr];
    }

    /** Moves the cursor down by one; the storage is untouched. */
    method Pop()
      modifies this`ptr
      ensures ptr == Dec(old(ptr))
      ensures data == old(data)
    {
      ptr := Dec(ptr);
    }

    /** Stores val at the cursor, after growing the storage to cover it, and
        moves the cursor up by one. */
    method Push(val: Byte)
      requires chunk > 0
      modifies this`data, this`ptr
      ensures data == Grow(old(data), old(ptr), chunk)[old(ptr) := val]
      ensures ptr == Inc(old(ptr))
    {
      while ptr >= |data|
        invariant |old(data)| <= |data| && ptr == old(ptr)
        invariant Grow(data, ptr, chunk) == Grow(old(data), ptr, chunk)
        decreases ptr - |data|
      {
        data := data + Zeros(chunk);
      }
      // data[ptr++] = val
      data := data[ptr := val];
      ptr := Inc(ptr);
    }
  }

  /** A push, a pop and a peek hand back the pushed value, and leave the
      cursor where it started. */
  method PushPopPeek(s: Stack, v: Byte) returns (r: Byte)
    requires s.chunk > 0
    modifies s
    ensures r == v && s.ptr == old(s.ptr)
  {
    s.Push(v);
    s.Pop();
    IncDecInverse(old(s.ptr));
    r := s.Peek();
  }

  /** A peek right after a push reads the slot above the pushed value, not the
      pushed value: on a new stack it reads 0 whatever was pushed. */
  method PushThenPeek(s: Stack, v: Byte) returns (r: Byte)
    requires s.chunk > 0 && s.data == [] && s.ptr == 0
    modifies s
    ensures s.ptr == 1 && 1 < |s.data| && s.data[0] == v
    ensures r == s.data[1] == 0
  {
    s.Push(v);
    r := s.Peek();
  }

  /** Client view of Push and Peek: the storage covers the accessed index
      afterwards and never shrinks; Push leaves the other cells alone. */
  method PushKeepsCells(s: Stack, v: Byte)
    requires s.chunk > 0
    modifies s
    ensures |old(s.data)| <= |s.data| && old(s.ptr) < |s.data|
    ensures s.data[old(s.ptr)] == v
    ensures forall i | 0 <= i < |old(s.data)| && i != old(s.ptr) :: s.data[i] == old(s.data)[i]
    ensures forall i | |old(s.data)| <= i < |s.data| && i != old(s.ptr) :: s.data[i] == 0
  {
    s.Push(v);
  }
}
