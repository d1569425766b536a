/** The refactored instruction pointer: one object holding the coordinates and
    the direction, updated in place. */
module InstructionPointer {
  import opened Byte8
  import opened Direction

  class IP {
    var x: Byte
    var y: Byte
    var dir: Dir

    /** A new instruction pointer sits on the origin facing right. */
    constructor ()
      ensures x == 0 && y == 0 && dir == Right
    {
      x, y, dir := 0, 0, Right;
    }

    /** Moves one cell in the current direction; the direction stays. */
    method Update()
      modifies this`x, this`y
      ensures (x, y) == Advance(old(x), old(y), dir)
      ensures dir == old(dir)
    {
      match dir
      case Right =>
        x := Inc(x);
      case Down =>
        y := Inc(y);
      case Left =>
        x := Dec(x);
      case Up =>
        y := Dec(y);
    }
  }

  /** Client view of Update: a RIGHT step undone by a LEFT step and a DOWN
      step undone by an UP step leave the pointer where it was. */
  method StepAndStepBack(ip: IP, forward: Dir)
    requires forward == Right || forward == Down
    modifies ip
    ensures ip.x == old(ip.x) && ip.y == old(ip.y)
    ensures ip.dir == Opposite(forward)
  {
    ip.dir := forward;
    ip.Update();
    ip.dir := Opposite(forward);
    ip.Update();
    AdvanceOpposite(old(ip.x), old(ip.y), forward);
  }
}
