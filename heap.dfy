/** The refactored heap: a growable byte vector with an unsigned char cursor.

    The chunk size MEM_CHUNK is a macro whose value is defined elsewhere; the
    model takes it as a positive constructor argument.
 */
module HeapMemory {
  import opened Byte8
  import opened Memory

  class Heap {
    const chunk: nat
    var data: seq<Byte>
    var ptr: Byte

    /** A new heap has no cells and its cursor on 0. */
    constructor (memChunk: nat)
      requires memChunk > 0
      ensures chunk == memChunk
      ensures data == [] && ptr == 0
    {
      chunk := memChunk;
      data := [];
      ptr := 0;
    }

    /** Makes the cell under the cursor exist and returns it.  The C++ member
        returns a reference to that cell; writing through it is
        `data := data[ptr := v]`, which the postcondition makes in range. */
    method Value() returns (v: Byte)
      requires chunk > 0
      modifies this`data
      ensures data == Grow(old(data), ptr, chunk)
      ensures ptr < |data| && v == data[ptr]
      ensures ptr == old(ptr)
    {
      while ptr >= |data|
        invariant |old(data)| <= |data|
        invariant Grow(data, ptr, chunk) == Grow(old(data), ptr, chunk)
        decreases ptr - |data|
      {
        // data.resize(data.size() + MEM_CHUNK): the new cells are zero
        data := data + Zeros(chunk);
      }
      v := data[ptr];
    }
  }

  /** Client view of Value: growing keeps every stored cell, zero-fills the new
      ones, grows by whole chunks, and does nothing when the cursor was already
      in range. */
  method ValueKeepsCells(h: Heap) returns (v: Byte)
    requires h.chunk > 0
    modifies h
    ensures |old(h.data)| <= |h.data| && h.data[..|old(h.data)|] == old(h.data)
    ensures forall i | |old(h.data)| <= i < |h.data| :: h.data[i] == 0
    ensures WholeChunks(|h.data| - |old(h.data)|, h.chunk)
    ensures h.ptr < |old(h.data)| ==> h.data == old(h.data)
    ensures h.ptr == old(h.ptr) && h.ptr < |h.data| && v == h.data[h.ptr]
  {
    v := h.Value();
  }
}
