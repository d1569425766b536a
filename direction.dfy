/** The direction of the instruction pointer (the IP_DIR enumeration) and one
    step of the instruction pointer in that direction.

    IP_DIR packs each direction into a byte code: bit 0 set means the
    horizontal axis, bit 1 set means the vertical axis and bit 2 set means the
    backward sense.  HORIZONTAL and VERTICAL are two more enumerators that
    share the codes of RIGHT and DOWN, and `operator&` tests whether two codes
    have a common bit.
 */
module Direction {
  import opened Byte8

  datatype Dir = Right | Down | Left | Up

  /** The byte each direction is stored as. */
  function Code(d: Dir): bv8
  {
    match d
    case Right => 1
    case Down => 2
    case Left => 5
    case Up => 6
  }

  const HORIZONTAL: bv8 := 1
  const VERTICAL: bv8 := 2
  /** The bit that LEFT and UP have and RIGHT and DOWN lack. */
  const BACKWARD: bv8 := 4

  /** `operator&`: the two codes share a bit.  A code overlaps itself exactly
      when it is not zero, and zero overlaps nothing. */
  predicate Overlap(a: bv8, b: bv8): (r: bool)
    ensures r ==> a != 0 && b != 0
    ensures a == b ==> (r <==> a != 0)
  {
    a & b != 0
  }

  predicate IsVertical(d: Dir)
  {
    Overlap(Code(d), VERTICAL)
  }

  predicate IsHorizontal(d: Dir)
  {
    Overlap(Code(d), HORIZONTAL)
  }

  /** The bit tests put DOWN and UP on the vertical axis, RIGHT and LEFT on the
      horizontal one, and every direction on exactly one axis. */
  lemma AxisClassification(d: Dir)
    ensures IsVertical(d) <==> d == Down || d == Up
    ensures IsHorizontal(d) <==> d == Right || d == Left
    ensures IsVertical(d) != IsHorizontal(d)
  {
  }

  /** Distinct directions have distinct codes. */
  lemma CodeInjective(d: Dir, e: Dir)
    ensures Code(d) == Code(e) <==> d == e
  {
  }

  /** The direction that undoes a step in d. */
  function Opposite(d: Dir): (o: Dir)
    ensures IsVertical(o) == IsVertical(d)
    ensures Overlap(Code(o), BACKWARD) != Overlap(Code(d), BACKWARD)
  {
    match d
    case Right => Left
    case Down => Up
    case Left => Right
    case Up => Down
  }

  /** One step of the instruction pointer (updateIP, IP::update): the
      coordinate on the axis of d moves by one with unsigned char wrap-around. */
  function Advance(x: Byte, y: Byte, d: Dir): (p: (Byte, Byte))
    // the step keeps the coordinate off the direction's axis ...
    ensures d == Right || d == Left ==> p.1 == y
    ensures d == Down || d == Up ==> p.0 == x
    // ... and always changes the one on it
    ensures p != (x, y)
  {
    match d
    case Right => (Inc(x), y)
    case Down => (x, Inc(y))
    case Left => (Dec(x), y)
    case Up => (x, Dec(y))
  }

  /** The step, described by the code bits instead of by cases: the axis bit
      picks the coordinate and the backward bit picks adding 255 instead of 1,
      modulo 256. */
  lemma AdvanceByBits(x: Byte, y: Byte, d: Dir)
    ensures var delta := if Overlap(Code(d), BACKWARD) then 255 else 1;
            Advance(x, y, d) ==
              if IsHorizontal(d) then ((x + delta) % 256, y) else (x, (y + delta) % 256)
  {
  }

  /** A step and a step in the opposite direction cancel out. */
  lemma AdvanceOpposite(x: Byte, y: Byte, d: Dir)
    ensures var (x1, y1) := Advance(x, y, d); Advance(x1, y1, Opposite(d)) == (x, y)
  {
  }

  /** n steps in the same direction. */
  function AdvanceN(x: Byte, y: Byte, d: Dir, n: nat): (Byte, Byte)
  {
    if n == 0 then (x, y)
    else
      var (x1, y1) := AdvanceN(x, y, d, n - 1);
      Advance(x1, y1, d)
  }

  /** n steps move the coordinate of d's axis by n modulo 256, forwards or
      backwards, and leave the other coordinate alone. */
  lemma {:induction false} AdvanceNMoves(x: Byte, y: Byte, d: Dir, n: nat)
    ensures var (x1, y1) := AdvanceN(x, y, d, n);
            match d
            case Right => x1 == IncN(x, n) && y1 == y
            case Down => x1 == x && y1 == IncN(y, n)
            case Left => x1 == DecN(x, n) && y1 == y
            case Up => x1 == x && y1 == DecN(y, n)
  {
    if n > 0 {
      AdvanceNMoves(x, y, d, n - 1);
    }
  }

  /** 256 steps in one direction return to the start. */
  lemma AdvanceFullCycle(x: Byte, y: Byte, d: Dir)
    ensures AdvanceN(x, y, d, MODULUS) == (x, y)
  {
    AdvanceNMoves(x, y, d, MODULUS);
    IncNFullCycle(x, MODULUS);
    IncNFullCycle(y, MODULUS);
    DecNFullCycle(x, MODULUS);
    DecNFullCycle(y, MODULUS);
  }
}
