/** The interpreter as the program runs it: the global grid, heap, data
    pointer, stack, instruction pointer, direction and instruction counter,
    updated in place by the process loop.  Each method is proved to do what
    the matching function of module Semantics says.
 */
module Minimal2D {
  import opened Byte8
  import opened Memory
  import opened Direction
  import opened ProgramGrid
  import S = Semantics

  class Interpreter {
    var instructions: Grid
    var iCount: SizeT
    var x: Byte           // _ip.x
    var y: Byte           // _ip.y
    var dir: Dir          // _ip_dir
    var heap: seq<Byte>
    var ptr: Byte
    var stack: seq<Byte>
    var exit: bool
    var input: seq<Byte>  // what `,` will read
    var output: seq<Byte> // what `.` has written

    /** All the globals as one state record. */
    function Snapshot(): S.State
      reads this
    {
      S.State(instructions, heap, ptr, stack, x, y, dir, iCount, exit, input, output)
    }

    /** Start-up: build the grid from the file contents; everything else
        starts empty or at zero, facing right. */
    constructor (contents: seq<char>, supplied: seq<Byte>)
      ensures Snapshot() == S.Init(Parse(contents), supplied)
    {
      var rows := BuildGrid(contents);
      instructions := rows;
      iCount := 0;
      x, y, dir := 0, 0, Right;
      heap, ptr, stack := [], 0, [];
      exit := false;
      input, output := supplied, [];
    }

    /** getHeapValue(): grows the heap in chunks of TAPE_CHUNK zero cells until
        ptr is a valid index, and yields the cell at ptr. */
    method GetHeapValue() returns (v: Byte)
      modifies this`heap
      ensures heap == S.Tape(old(Snapshot()))
      ensures ptr < |heap| && v == heap[ptr]
    {
      while ptr >= |heap|
        invariant |old(heap)| <= |heap|
        invariant Grow(heap, ptr, S.TAPE_CHUNK) == Grow(old(heap), ptr, S.TAPE_CHUNK)
        decreases ptr - |heap|
      {
        // heap.resize(heap.size() + TAPE_CHUNK)
        ghost var before := heap;
        heap := heap + Zeros(S.TAPE_CHUNK);
        // the explicit zero-fill of the new chunk
        var i := |heap| - S.TAPE_CHUNK;
        while i < |heap|
          invariant |before| <= i <= |heap|
          invariant heap == before + Zeros(S.TAPE_CHUNK)
        {
          heap := heap[i := 0];
          i := i + 1;
        }
      }
      v := heap[ptr];
    }

    /** updateIP(): one step in the current direction. */
    method UpdateIP()
      modifies this`x, this`y
      ensures (x, y) == Advance(old(x), old(y), dir)
    {
      match dir {
        case Right => x := Inc(x);
        case Down => y := Inc(y);
        case Left => x := Dec(x);
        case Up => y := Dec(y);
      }
    }

    /** heapDump(): prints the heap (not modelled) and reads the current cell
        twice through getHeapValue(). */
    method HeapDump()
      modifies this`heap
      ensures heap == S.Tape(old(Snapshot()))
    {
      var shown := GetHeapValue();
      shown := GetHeapValue();
    }

    /** The opcode switch on character c. */
    method Execute(c: char)
      modifies this
      ensures Snapshot() == S.Dispatch(old(Snapshot()), c)
    {
      match c {
        // after promotion to int both guards hold, so ptr wraps around
        case '<' =>
          if ptr - 1 < ptr { ptr := Dec(ptr); }
        case '>' =>
          if ptr + 1 > ptr { ptr := Inc(ptr); }
        case '+' =>
          var v := GetHeapValue();
          heap := heap[ptr := Inc(v)];
        case '-' =>
          var v := GetHeapValue();
          heap := heap[ptr := Dec(v)];
        case '.' =>
          var v := GetHeapValue();
          output := output + [v];
        case ',' =>
          var v := GetHeapValue();
          if input != [] {
            heap := heap[ptr := input[0]];
            input := input[1..];
          }
        case '/' =>
          var v := GetHeapValue();
          if v == 0 { UpdateIP(); }
        case 'U' => dir := Up;
        case 'D' => dir := Down;
        case 'L' => dir := Left;
        case 'R' => dir := Right;
        case '#' => HeapDump();
        case '@' =>  // stackDump() only prints
        case 'V' =>
          var v := GetHeapValue();
          stack := stack + [v];
        case '^' =>
          if |stack| > 0 { stack := stack[..|stack| - 1]; }
        case '!' =>
          if |stack| > 0 {
            var v := GetHeapValue();
            heap := heap[ptr := stack[|stack| - 1]];
          }
        case ')' =>
          var v := GetHeapValue();
          heap := heap[ptr := 0];
        case ';' => exit := true;
        case '~' =>
          var v := GetHeapValue();
          ptr := v;
        case '&' => SaveIP();
        case '(' => LoadIP();
        case _ =>
          iCount := DecSize(iCount);
      }
    }

    /** `&`: the instruction pointer's x into the current cell and its y
        into the next one; ptr ends where it started. */
    method SaveIP()
      modifies this
      ensures Snapshot() == S.Dispatch(old(Snapshot()), '&')
    {
      ghost var s := Snapshot();
      var v := GetHeapValue();
      heap := heap[ptr := x];
      ptr := Inc(ptr);
      ghost var s1 := Snapshot();
      assert s1 == S.Store(s, s.x).(ptr := Inc(s.ptr));
      v := GetHeapValue();
      heap := heap[ptr := y];
      assert Snapshot() == S.Store(s1, s.y);
      ptr := Dec(ptr);
    }

    /** `(`: the instruction pointer's x from the current cell and its y
        from the next one; ptr ends where it started. */
    method LoadIP()
      modifies this
      ensures Snapshot() == S.Dispatch(old(Snapshot()), '(')
    {
      ghost var s := Snapshot();
      ghost var next := s.(heap := S.Tape(s), ptr := Inc(s.ptr));
      var v := GetHeapValue();
      x := v;
      ptr := Inc(ptr);
      assert heap == next.heap && ptr == next.ptr && x == S.Current(s);
      v := GetHeapValue();
      y := v;
      assert heap == S.Tape(next) && y == S.Current(next);
      ptr := Dec(ptr);
      IncDecInverse(s.ptr);
      S.JumpLoads(s);
    }

    /** One pass of the process loop body: dispatch the cell under the
        instruction pointer if its row has one there, count it, then step. */
    method Step()
      requires y < |instructions|
      modifies this
      ensures Snapshot() == S.Step(old(Snapshot()))
    {
      if x < |instructions[y]| {
        Execute(instructions[y][x]);
        iCount := IncSize(iCount);
      }
      UpdateIP();
    }

    /** The loop condition.  Travelling horizontally it reads the length of
        row y; when there is no row y the result is Undefined. */
    function Test(): (t: S.Test)
      reads this
      ensures t == S.LoopTest(Snapshot())
    {
      AxisClassification(dir);
      if exit then S.Leave
      else if !IsVertical(dir) && y >= |instructions| then S.Undefined
      else if (if IsVertical(dir) then y < |instructions| else x < |instructions[y]|) then S.Enter
      else S.Leave
    }

    /** One pass of a run whose loop condition holds: what is left of the
        run afterwards is the rest of the run from before. */
    method Pass(ghost fuel: nat)
      requires S.LoopTest(Snapshot()) == S.Enter && fuel > 0
      modifies this
      ensures S.Run(old(Snapshot()), fuel) == S.Run(Snapshot(), fuel - 1)
    {
      S.RunEnters(Snapshot(), fuel);
      Step();
    }

    /** The process loop, cut off after `fuel` passes; a loop condition that
        would read a missing row stops the run with RowOutOfRange. */
    method Run(fuel: nat) returns (outcome: S.Outcome)
      modifies this
      ensures S.Run(old(Snapshot()), fuel) == S.Trace(Snapshot(), outcome)
    {
      var f := fuel;
      while Test() == S.Enter && f > 0
        invariant S.Run(old(Snapshot()), fuel) == S.Run(Snapshot(), f)
        decreases f
      {
        Pass(f);
        f := f - 1;
      }
      outcome := S.Ending(Test());
      S.RunEnds(Snapshot(), f);
    }
  }
}
