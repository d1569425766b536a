/** Chunked, zero-filled growth of a byte vector.

    The heap accessor of the interpreter and the HEAP and STACK structures all
    make index `p` of a `std::vector` exist the same way: while `p` is not a
    valid index, resize the vector by one fixed-size chunk, whose new cells are
    zero.  `Grow` is the vector that loop leaves behind.
 */
module Memory {
  import opened Byte8

  /** n zero cells: what `resize` appends. */
  function Zeros(n: nat): (z: seq<Byte>)
    ensures |z| == n && forall i | 0 <= i < n :: z[i] == 0
  {
    seq(n, _ => 0)
  }

  /** The storage after growing `data` in steps of `chunk` cells until index
      `p` exists. */
  function Grow(data: seq<Byte>, p: nat, chunk: nat): (r: seq<Byte>)
    requires chunk > 0
    // index p exists afterwards
    ensures p < |r|
    // the storage never shrinks and grows by whole chunks only
    ensures |data| <= |r| && WholeChunks(|r| - |data|, chunk)
    // nothing happens when p was already in range
    ensures p < |data| ==> r == data
    // growth stops at the first chunk that covers p
    ensures |data| <= p ==> |r| - chunk <= p
    // old cells keep their values, new cells are zero
    ensures r[..|data|] == data
    ensures forall i | |data| <= i < |r| :: r[i] == 0
    decreases p + 1 - |data|
  {
    if p < |data| then data
    else
      var bigger := data + Zeros(chunk);
      var r := Grow(bigger, p, chunk);
      assert r[..|data|] == bigger[..|bigger|][..|data|];
      r
  }

  /** n is a whole number of chunks. */
  predicate WholeChunks(n: int, chunk: nat)
    decreases if n < 0 then 0 else n
  {
    n == 0 || (chunk > 0 && n >= chunk && WholeChunks(n - chunk, chunk))
  }

  /** For a chunk of 100 cells (the interpreter's TAPE_CHUNK), whole chunks
      are the multiples of 100. */
  lemma {:induction false} WholeChunksOfHundred(n: int)
    requires WholeChunks(n, 100)
    ensures n >= 0 && n % 100 == 0
    decreases if n < 0 then 0 else n
  {
    if n != 0 {
      WholeChunksOfHundred(n - 100);
    }
  }
}
