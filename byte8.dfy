/** Unsigned 8-bit arithmetic.

    The interpreter addresses its heap, its stack and the program grid with
    `unsigned char` values (the PTR_SIZE macro): `++` and `--` on them wrap
    around modulo 256.  The instruction counter is a `size_t`, taken here
    to be 64 bits wide (its width depends on the build), so it wraps modulo
    2^64.
 */
module Byte8 {

  const MODULUS: int := 256

  /** One unsigned char. */
  type Byte = b: int | 0 <= b < 256

  /** `b++` on an unsigned char. */
  function Inc(b: Byte): Byte
  {
    (b + 1) % MODULUS
  }

  /** `b--` on an unsigned char. */
  function Dec(b: Byte): Byte
  {
    (b + MODULUS - 1) % MODULUS
  }

  /** `b++` performed n times. */
  function IncN(b: Byte, n: nat): Byte
  {
    if n == 0 then b else Inc(IncN(b, n - 1))
  }

  /** `b--` performed n times. */
  function DecN(b: Byte, n: nat): Byte
  {
    if n == 0 then b else Dec(DecN(b, n - 1))
  }

  /** Increment and decrement undo each other, including across the wrap
      between 255 and 0. */
  lemma IncDecInverse(b: Byte)
    ensures Dec(Inc(b)) == b && Inc(Dec(b)) == b
    ensures Inc(255) == 0 && Dec(0) == 255
  {
  }

  /** n increments add n modulo 256. */
  lemma {:induction false} IncNIsAddition(b: Byte, n: nat)
    ensures IncN(b, n) == (b + n) % MODULUS
  {
    if n > 0 {
      IncNIsAddition(b, n - 1);
    }
  }

  /** Any whole number of 256-step cycles of increments brings every value
      back to itself. */
  lemma {:induction false} IncNFullCycle(b: Byte, n: nat)
    requires n % MODULUS == 0
    ensures IncN(b, n) == b
    decreases n
  {
    IncNIsAddition(b, n);
    if n > 0 {
      IncNFullCycle(b, n - MODULUS);
      IncNIsAddition(b, n - MODULUS);
      assert (b + n) % 256 == (b + (n - 256)) % 256;
    }
  }

  /** n decrements subtract n modulo 256. */
  lemma {:induction false} DecNIsSubtraction(b: Byte, n: nat)
    ensures DecN(b, n) == (b - n) % MODULUS
  {
    if n > 0 {
      DecNIsSubtraction(b, n - 1);
    }
  }

  /** Any whole number of 256-step cycles of decrements brings every value
      back to itself. */
  lemma {:induction false} DecNFullCycle(b: Byte, n: nat)
    requires n % MODULUS == 0
    ensures DecN(b, n) == b
    decreases n
  {
    DecNIsSubtraction(b, n);
    if n > 0 {
      DecNFullCycle(b, n - MODULUS);
      DecNIsSubtraction(b, n - MODULUS);
      assert (b - n) % 256 == (b - (n - 256)) % 256;
    }
  }

  /** n decrements after n increments give back the start value. */
  lemma {:induction false} DecNUndoesIncN(b: Byte, n: nat)
    ensures DecN(IncN(b, n), n) == b
  {
    if n > 0 {
      DecNAfterInc(IncN(b, n - 1), n - 1);
      DecNUndoesIncN(b, n - 1);
    }
  }

  /** Helper: a decrement chain may peel off its innermost step.  */
  lemma {:induction false} DecNAfterInc(b: Byte, n: nat)
    ensures DecN(Inc(b), n + 1) == DecN(b, n)
  {
    if n == 0 {
      IncDecInverse(b);
    } else {
      DecNAfterInc(b, n - 1);
    }
  }

  // size_t, the type of the instruction counter, on a 64-bit build
  const SIZE_T_MODULUS: int := 0x1_0000_0000_0000_0000

  type SizeT = n: int | 0 <= n < SIZE_T_MODULUS

  /** `n++` on a size_t. */
  function IncSize(n: SizeT): SizeT
  {
    (n + 1) % SIZE_T_MODULUS
  }

  /** `n--` on a size_t. */
  function DecSize(n: SizeT): SizeT
  {
    (n + SIZE_T_MODULUS - 1) % SIZE_T_MODULUS
  }

  /** A decrement followed by an increment nets zero, even from 0. */
  lemma DecSizeThenIncSize(n: SizeT)
    ensures IncSize(DecSize(n)) == n
  {
  }
}
