/** The meaning of one pass of the interpreter's process loop and of a whole
    run, as functions of one state record holding the interpreter's globals.

    The heap is a byte vector grown on demand in chunks of TAPE_CHUNK cells
    and addressed by an unsigned char `ptr`; the stack is a byte vector used
    through push_back, pop_back and back; the instruction pointer is an
    unsigned char pair with a direction.  Console input is the sequence of
    bytes the `,` command will be given and console output the sequence of
    bytes `.` has written.
 */
module Semantics {
  import opened Byte8
  import opened Memory
  import opened Direction
  import opened ProgramGrid

  /** The heap grows by this many cells at a time. */
  const TAPE_CHUNK: nat := 100

  datatype State = State(
    grid: Grid,           // instructions
    heap: seq<Byte>,      // heap
    ptr: Byte,            // ptr
    stack: seq<Byte>,     // stack
    x: Byte,              // _ip.x
    y: Byte,              // _ip.y
    dir: Dir,             // _ip_dir
    iCount: SizeT,        // iCount
    exit: bool,           // exit
    input: seq<Byte>,     // bytes still to be read by `,`
    output: seq<Byte>)    // bytes written by `.`

  /** The state when the process loop is first reached. */
  function Init(grid: Grid, input: seq<Byte>): (s: State)
    ensures s.heap == [] && s.stack == [] && s.output == []
    ensures s.ptr == 0 && s.x == 0 && s.y == 0 && s.dir == Right
    ensures s.iCount == 0 && !s.exit
  {
    State(grid, [], 0, [], 0, 0, Right, 0, false, input, [])
  }

  // ---------------------------------------------------------------------
  // getHeapValue(): the heap with index ptr made to exist, and the cell there

  function Tape(s: State): (t: seq<Byte>)
    // index ptr exists afterwards and the heap has not shrunk
    // (GetHeapValueGrows: old cells kept, new cells zero)
    ensures s.ptr < |t| && |s.heap| <= |t|
  {
    Grow(s.heap, s.ptr, TAPE_CHUNK)
  }

  /** The value getHeapValue() returns. */
  function Current(s: State): (v: Byte)
    // an existing cell is read as it is; a cell past the end reads as zero
    ensures s.ptr < |s.heap| ==> v == s.heap[s.ptr]
    ensures |s.heap| <= s.ptr ==> v == 0
  {
    Tape(s)[s.ptr]
  }

  /** The state after a call of getHeapValue() whose result is only read. */
  function Touched(s: State): State
  {
    s.(heap := Tape(s))
  }

  /** The state after `getHeapValue() = v`. */
  function Store(s: State, v: Byte): (r: State)
    // the cell at ptr now holds v
    ensures s.ptr < |r.heap| && r.heap[s.ptr] == v
  {
    s.(heap := Tape(s)[s.ptr := v])
  }

  /** The heap sizes reachable from an empty heap: whole chunks, at most
      three of them because ptr never exceeds 255.  The sizes are written as
      numbers, which keeps the solver's arithmetic linear; TapeShapeInChunks
      states them in terms of TAPE_CHUNK. */
  predicate TapeShape(h: seq<Byte>)
  {
    |h| % 100 == 0 && |h| <= 300
  }

  /** The reachable shape is a whole number of TAPE_CHUNK chunks, at most
      3 * TAPE_CHUNK cells; each of the sizes 100, 200 and 300 is what
      getHeapValue makes of an empty heap for some ptr. */
  lemma TapeShapeInChunks(h: seq<Byte>)
    ensures TapeShape(h) <==> |h| % TAPE_CHUNK == 0 && |h| <= 3 * TAPE_CHUNK
    ensures |Grow([], 0, TAPE_CHUNK)| == 100
    ensures |Grow([], 150, TAPE_CHUNK)| == 200
    ensures |Grow([], 255, TAPE_CHUNK)| == 300
  {
  }

  /** Growing a heap of the reachable shape keeps it of that shape. */
  lemma ShapeKept(h: seq<Byte>, p: Byte)
    ensures TapeShape(h) ==> TapeShape(Grow(h, p, TAPE_CHUNK))
  {
    WholeChunksOfHundred(|Grow(h, p, TAPE_CHUNK)| - |h|);
  }

  /** getHeapValue() makes ptr a valid index, keeps the heap's shape, never
      shrinks the heap, keeps the old cells and zero-fills the new ones. */
  lemma GetHeapValueGrows(s: State)
    requires TapeShape(s.heap)
    ensures s.ptr < |Tape(s)| && TapeShape(Tape(s))
    ensures |s.heap| <= |Tape(s)| && Tape(s)[..|s.heap|] == s.heap
    ensures forall i | |s.heap| <= i < |Tape(s)| :: Tape(s)[i] == 0
  {
    ShapeKept(s.heap, s.ptr);
  }

  // ---------------------------------------------------------------------
  // The opcode switch

  /** The characters the switch has a case for. */
  predicate Recognised(c: char)
  {
    c in {'<', '>', '+', '-', '.', ',', '/', 'U', 'D', 'L', 'R', '#', '@',
          'V', '^', '!', ')', ';', '~', '&', '('}
  }

  /** The direction after command c. */
  function Turn(d: Dir, c: char): Dir
  {
    match c
    case 'U' => Up
    case 'D' => Down
    case 'L' => Left
    case 'R' => Right
    case _ => d
  }

  /** The effect of the switch on character c, before iCount++ and the
      loop's own updateIP(). */
  function Dispatch(s: State, c: char): (r: State)
    ensures r.grid == s.grid
    ensures |s.heap| <= |r.heap|
  {
    match c
    // `ptr - 1 < ptr` and `ptr + 1 > ptr` compare values promoted to int,
    // so both guards hold and ptr wraps around
    case '<' => if s.ptr - 1 < s.ptr then s.(ptr := Dec(s.ptr)) else s
    case '>' => if s.ptr + 1 > s.ptr then s.(ptr := Inc(s.ptr)) else s
    case '+' => Store(s, Inc(Current(s)))
    case '-' => Store(s, Dec(Current(s)))
    case '.' => Touched(s).(output := s.output + [Current(s)])
    case ',' =>
      if s.input == [] then Touched(s)
      else Store(s, s.input[0]).(input := s.input[1..])
    case '/' =>
      if Current(s) == 0 then
        var (x1, y1) := Advance(s.x, s.y, s.dir);
        Touched(s).(x := x1, y := y1)
      else Touched(s)
    case 'U' => s.(dir := Up)
    case 'D' => s.(dir := Down)
    case 'L' => s.(dir := Left)
    case 'R' => s.(dir := Right)
    case '#' => Touched(s)  // heapDump() calls getHeapValue()
    case '@' => s           // stackDump() only prints
    case 'V' => Touched(s).(stack := s.stack + [Current(s)])
    case '^' => if |s.stack| > 0 then s.(stack := s.stack[..|s.stack| - 1]) else s
    case '!' => if |s.stack| > 0 then Store(s, s.stack[|s.stack| - 1]) else s
    case ')' => Store(s, 0)
    case ';' => s.(exit := true)
    case '~' => Touched(s).(ptr := Current(s))
    case '&' =>
      var s1 := Store(s, s.x).(ptr := Inc(s.ptr));
      var s2 := Store(s1, s.y);
      s2.(ptr := Dec(s2.ptr))
    case '(' =>
      var s1 := Touched(s).(x := Current(s));
      var s2 := s1.(ptr := Inc(s1.ptr));
      var s3 := Touched(s2).(y := Current(s2));
      s3.(ptr := Dec(s3.ptr))
    case _ => s.(iCount := DecSize(s.iCount))
  }

  /** What each command leaves alone. */
  lemma DispatchEffects(s: State, c: char)
    // only `/` and `(` move the instruction pointer
    ensures c != '/' && c != '(' ==> Dispatch(s, c).x == s.x && Dispatch(s, c).y == s.y
    // only U, D, L and R turn it
    ensures Dispatch(s, c).dir == Turn(s.dir, c)
    // only `;` stops the loop
    ensures Dispatch(s, c).exit == (s.exit || c == ';')
    // only `.` writes output
    ensures Dispatch(s, c).output == if c == '.' then s.output + [Current(s)] else s.output
    // the default case takes one off the counter
    ensures Dispatch(s, c).iCount == if Recognised(c) then s.iCount else DecSize(s.iCount)
  {
    // one case at a time
    match c
    case '<' => case '>' => case '+' => case '-' => case '.' => case ',' =>
    case '/' => case 'U' => case 'D' => case 'L' => case 'R' => case '#' =>
    case '@' => case 'V' => case '^' => case '!' => case ')' => case ';' =>
    case '~' => case '&' => case '(' => case _ =>
  }

  /** Every command keeps the heap at 0, 100, 200 or 300 cells. */
  lemma DispatchKeepsShape(s: State, c: char)
    ensures TapeShape(s.heap) ==> TapeShape(Dispatch(s, c).heap)
  {
    ShapeKept(s.heap, s.ptr);
    // one case at a time; `&` and `(` grow the heap a second time
    match c
    case '<' => case '>' => case '+' => case '-' => case '.' => case ',' =>
    case '/' => case 'U' => case 'D' => case 'L' => case 'R' => case '#' =>
    case '@' => case 'V' => case '^' => case '!' => case ')' => case ';' =>
    case '~' =>
    case '&' =>
      var s1 := Store(s, s.x).(ptr := Inc(s.ptr));
      ShapeKept(s1.heap, s1.ptr);
    case '(' =>
      var s2 := Touched(s).(x := Current(s), ptr := Inc(s.ptr));
      ShapeKept(s2.heap, s2.ptr);
    case _ =>
  }

  // ---------------------------------------------------------------------
  // One pass of the process loop and the loop itself

  /** One pass of the loop body.  The row y must exist: the loop test indexes
      it (see LoopTest). */
  function Step(s: State): (r: State)
    requires s.y < |s.grid|
    ensures r.grid == s.grid
    ensures |s.heap| <= |r.heap|
  {
    var row := s.grid[s.y];
    var t := if s.x < |row| then
               var d := Dispatch(s, row[s.x]);
               d.(iCount := IncSize(d.iCount))
             else s;
    var (x1, y1) := Advance(t.x, t.y, t.dir);
    t.(x := x1, y := y1)
  }

  /** One pass keeps the heap at 0, 100, 200 or 300 cells. */
  lemma StepKeepsShape(s: State)
    requires s.y < |s.grid|
    ensures TapeShape(s.heap) ==> TapeShape(Step(s).heap)
  {
    if s.x < |s.grid[s.y]| {
      DispatchKeepsShape(s, s.grid[s.y][s.x]);
    }
  }

  /** The three ways the loop condition can come out.  Travelling
      horizontally, the condition reads the length of row y without checking
      that row y exists; the model reports that case as Undefined. */
  datatype Test = Enter | Leave | Undefined

  function LoopTest(s: State): (t: Test)
    // after `;` the loop always ends
    ensures s.exit ==> t == Leave
    // the body is entered only on an existing row
    ensures t == Enter ==> !s.exit && s.y < |s.grid|
    // the condition is undefined only when travelling horizontally past the last row
    ensures t == Undefined ==> !s.exit && s.dir != Down && s.dir != Up && |s.grid| <= s.y
  {
    // `_ip_dir & VERTICAL` holds exactly for DOWN and UP (AxisClassification)
    if s.exit then Leave
    else if s.dir == Down || s.dir == Up then (if s.y < |s.grid| then Enter else Leave)
    else if |s.grid| <= s.y then Undefined
    else if s.x < |s.grid[s.y]| then Enter
    else Leave
  }

  /** The loop goes on exactly while `;` has not run and the coordinate on
      the axis of travel is inside the grid: the row count for DOWN and UP,
      the length of row y for RIGHT and LEFT.  This is the source's own
      condition, which picks the axis by `_ip_dir & VERTICAL`. */
  lemma LoopContinues(s: State)
    ensures LoopTest(s) == Enter <==>
              && !s.exit
              && (if IsVertical(s.dir) then s.y < |s.grid|
                  else s.y < |s.grid| && s.x < |s.grid[s.y]|)
    ensures LoopTest(s) == Enter <==>
              && !s.exit
              && s.y < |s.grid|
              && ((s.dir == Down || s.dir == Up) || s.x < |s.grid[s.y]|)
    ensures LoopTest(s) == Undefined <==>
              !s.exit && !IsVertical(s.dir) && |s.grid| <= s.y
    ensures LoopTest(s) == Undefined <==>
              !s.exit && (s.dir == Right || s.dir == Left) && |s.grid| <= s.y
  {
    AxisClassification(s.dir);
  }

  datatype Outcome = Finished | RowOutOfRange | OutOfFuel

  datatype Trace = Trace(final: State, outcome: Outcome)

  /** At most `fuel` passes of the process loop.  A run is written as three
      functions, one per decision (the loop test, the bound, one pass), so
      that a proof unfolds one decision at a time. */
  function Run(s: State, fuel: nat): (t: Trace)
    ensures t.final.grid == s.grid
    decreases fuel, 2
  {
    match LoopTest(s)
    case Leave => Trace(s, Finished)
    case Undefined => Trace(s, RowOutOfRange)
    case Enter => Continue(s, fuel)
  }

  /** The run from a state the loop test lets in: cut off when the bound is
      used up, otherwise one more pass. */
  function Continue(s: State, fuel: nat): (t: Trace)
    requires s.y < |s.grid|
    ensures t.final.grid == s.grid
    decreases fuel, 1
  {
    if fuel == 0 then Trace(s, OutOfFuel) else NextPass(s, fuel)
  }

  /** One pass, then the rest of the run with one pass less. */
  function NextPass(s: State, fuel: nat): (t: Trace)
    requires s.y < |s.grid| && fuel > 0
    ensures t.final.grid == s.grid
    decreases fuel, 0
  {
    Run(Step(s), fuel - 1)
  }

  /** A run keeps the heap's shape; it reports Finished exactly when it stops
      on a false loop condition, RowOutOfRange exactly when it stops on one
      that would read a missing row, and runs out of fuel only while the
      condition still holds. */
  lemma {:induction false} RunReports(s: State, fuel: nat)
    ensures TapeShape(s.heap) ==> TapeShape(Run(s, fuel).final.heap)
    ensures Run(s, fuel).outcome == Finished <==> LoopTest(Run(s, fuel).final) == Leave
    ensures Run(s, fuel).outcome == RowOutOfRange <==> LoopTest(Run(s, fuel).final) == Undefined
    ensures Run(s, fuel).outcome == OutOfFuel ==> LoopTest(Run(s, fuel).final) == Enter
    decreases fuel
  {
    if LoopTest(s) == Enter && fuel > 0 {
      RunEnters(s, fuel);
      StepKeepsShape(s);
      RunReports(Step(s), fuel - 1);
    }
  }

  /** A run that does not enter the loop body ends on the state it starts
      from, with the outcome the loop test (or the fuel) gives. */
  lemma RunEnds(s: State, fuel: nat)
    requires LoopTest(s) != Enter || fuel == 0
    ensures Run(s, fuel) == Trace(s, Ending(LoopTest(s)))
  {
  }

  /** The outcome of a run that stops on a state whose loop test is t. */
  function Ending(t: Test): Outcome
  {
    match t
    case Leave => Finished
    case Undefined => RowOutOfRange
    case Enter => OutOfFuel
  }

  /** A run that enters the loop body is one pass followed by the rest. */
  lemma RunEnters(s: State, fuel: nat)
    requires LoopTest(s) == Enter && fuel > 0
    ensures s.y < |s.grid| && Run(s, fuel) == Run(Step(s), fuel - 1)
  {
    assert Run(s, fuel) == Continue(s, fuel) == NextPass(s, fuel);
  }

  // ---------------------------------------------------------------------
  // Commands executed one after the other, without the instruction pointer
  // moving in between

  function Commands(s: State, cs: seq<char>): State
    decreases |cs|
  {
    if cs == [] then s else Commands(Dispatch(s, cs[0]), cs[1..])
  }

  function Repeat(c: char, n: nat): (cs: seq<char>)
  {
    if n == 0 then [] else [c] + Repeat(c, n - 1)
  }

  lemma {:induction false} CommandsAppend(s: State, a: seq<char>, b: seq<char>)
    ensures Commands(s, a + b) == Commands(Commands(s, a), b)
    decreases |a|
  {
    if a != [] {
      assert (a + b)[0] == a[0] && (a + b)[1..] == a[1..] + b;
      CommandsAppend(Dispatch(s, a[0]), a[1..], b);
    } else {
      assert a + b == b;
    }
  }

  // ---------------------------------------------------------------------
  // Properties of the data pointer commands

  /** `>` adds one to ptr and `<` subtracts one, modulo 256, and nothing else
      changes. */
  lemma PointerCommands(s: State)
    ensures Dispatch(s, '>') == s.(ptr := (s.ptr + 1) % 256)
    ensures Dispatch(s, '<') == s.(ptr := (s.ptr + 255) % 256)
  {
  }

  /** `~` loads ptr from the current cell; apart from the heap's growth,
      nothing else changes. */
  lemma LoadPointer(s: State)
    ensures Dispatch(s, '~') == s.(heap := Tape(s), ptr := Tape(s)[s.ptr])
  {
  }

  lemma {:induction false} RightN(s: State, n: nat)
    decreases n
    ensures Commands(s, Repeat('>', n)) == s.(ptr := IncN(s.ptr, n))
  {
    if n > 0 {
      RightN(s.(ptr := Inc(s.ptr)), n - 1);
      IncNShift(s.ptr, n - 1);
    }
  }

  lemma {:induction false} LeftN(s: State, n: nat)
    decreases n
    ensures Commands(s, Repeat('<', n)) == s.(ptr := DecN(s.ptr, n))
  {
    if n > 0 {
      LeftN(s.(ptr := Dec(s.ptr)), n - 1);
      DecNShift(s.ptr, n - 1);
    }
  }

  /** n `>` followed by n `<` leave the whole state as it was. */
  lemma RightsThenLefts(s: State, n: nat)
    ensures Commands(s, Repeat('>', n) + Repeat('<', n)) == s
  {
    CommandsAppend(s, Repeat('>', n), Repeat('<', n));
    RightN(s, n);
    LeftN(s.(ptr := IncN(s.ptr, n)), n);
    DecNUndoesIncN(s.ptr, n);
  }

  lemma {:induction false} IncNShift(b: Byte, n: nat)
    ensures IncN(Inc(b), n) == IncN(b, n + 1)
  {
    if n > 0 {
      IncNShift(b, n - 1);
    }
  }

  lemma {:induction false} DecNShift(b: Byte, n: nat)
    ensures DecN(Dec(b), n) == DecN(b, n + 1)
  {
    if n > 0 {
      DecNShift(b, n - 1);
    }
  }

  // ---------------------------------------------------------------------
  // Properties of the cell commands

  /** `+` and `-` change the current cell by one modulo 256 and `)` clears it;
      apart from the heap's growth, nothing else changes. */
  lemma CellCommands(s: State)
    ensures Dispatch(s, '+') == s.(heap := Tape(s)[s.ptr := (Current(s) + 1) % 256])
    ensures Dispatch(s, '-') == s.(heap := Tape(s)[s.ptr := (Current(s) + 255) % 256])
    ensures Dispatch(s, ')') == s.(heap := Tape(s)[s.ptr := 0])
  {
  }

  /** `)` followed by `.` writes a zero byte. */
  lemma ClearThenOutput(s: State)
    ensures Dispatch(Dispatch(s, ')'), '.').output == s.output + [0]
  {
    var s1 := Dispatch(s, ')');
    assert Current(s1) == 0 by {
      GrowInRange(s1);
    }
  }

  /** n `+` (n at least one) add n to the current cell modulo 256. */
  lemma {:induction false} PlusN(s: State, n: nat)
    requires n > 0
    decreases n
    ensures Commands(s, Repeat('+', n)) == s.(heap := Tape(s)[s.ptr := (Current(s) + n) % 256])
  {
    var c := Current(s);
    var v := (c + n) % 256;
    var s1 := Dispatch(s, '+');
    assert Commands(s, Repeat('+', n)) == Commands(s1, Repeat('+', n - 1));
    CellCommands(s);
    assert s1 == s.(heap := Tape(s)[s.ptr := Inc(c)]);
    if n == 1 {
      assert Commands(s1, Repeat('+', 0)) == s1;
      assert Inc(c) == v;
    } else {
      PlusN(s1, n - 1);
      GrowInRange(s1);
      assert Current(s1) == Inc(c);
      assert (Inc(c) + (n - 1)) % 256 == v by {
        IncNIsAddition(Inc(c), n - 1);
        IncNShift(c, n - 1);
        IncNIsAddition(c, n);
      }
      assert Commands(s1, Repeat('+', n - 1)) == s1.(heap := Tape(s1)[s.ptr := v]);
      assert Tape(s1)[s.ptr := v] == Tape(s)[s.ptr := v];
      assert s1.(heap := Tape(s)[s.ptr := v]) == s.(heap := Tape(s)[s.ptr := v]);
    }
  }

  /** Any positive whole number of 256-step cycles of `+` leaves every cell
      as it was (the heap may have grown). */
  lemma PlusFullCycle(s: State, n: nat)
    requires n > 0 && n % MODULUS == 0
    ensures Commands(s, Repeat('+', n)) == Touched(s)
  {
    PlusN(s, n);
    assert (Current(s) + n) % 256 == Current(s) by {
      IncNFullCycle(Current(s), n);
      IncNIsAddition(Current(s), n);
    }
    assert Tape(s)[s.ptr := Current(s)] == Tape(s);
  }

  /** Once ptr is in range, getHeapValue() does not grow the heap again. */
  lemma GrowInRange(s: State)
    requires s.ptr < |s.heap|
    ensures Tape(s) == s.heap
  {
  }

  /** `,` stores the next supplied byte in the current cell and consumes it;
      with no byte left it only grows the heap. */
  lemma ReadCommand(s: State)
    ensures s.input != [] ==>
              Dispatch(s, ',') == s.(heap := Tape(s)[s.ptr := s.input[0]], input := s.input[1..])
    ensures s.input == [] ==> Dispatch(s, ',') == Touched(s)
  {
  }

  /** `#` only grows the heap, through heapDump's getHeapValue calls, and
      `@` changes nothing. */
  lemma DebugCommands(s: State)
    ensures Dispatch(s, '#') == Touched(s)
    ensures Dispatch(s, '@') == s
  {
  }

  // ---------------------------------------------------------------------
  // Properties of the stack commands

  /** `V` pushes the current cell; `^` then takes it off again, and `!` then
      copies it back into the current cell, which already holds it. */
  lemma PushThenPopOrCopy(s: State)
    ensures Dispatch(s, 'V').stack == s.stack + [Current(s)]
    ensures Dispatch(Dispatch(s, 'V'), '^') == Touched(s)
    ensures Dispatch(Dispatch(s, 'V'), '!') == Dispatch(s, 'V')
  {
    var v := Dispatch(s, 'V');
    GrowInRange(v);
    assert v.stack[..|v.stack| - 1] == s.stack;
    assert Tape(s)[s.ptr := Current(s)] == Tape(s);
  }

  /** On a non-empty stack `^` drops the last element and changes nothing
      else, and `!` copies the last element into the current cell (after the
      heap's growth) and changes nothing else. */
  lemma StackCommands(s: State)
    requires |s.stack| > 0
    ensures Dispatch(s, '^') == s.(stack := s.stack[..|s.stack| - 1])
    ensures Dispatch(s, '!') == s.(heap := Tape(s)[s.ptr := s.stack[|s.stack| - 1]])
  {
  }

  /** On an empty stack `^` and `!` do nothing at all (in particular `!` does
      not call getHeapValue()). */
  lemma EmptyStackCommands(s: State)
    requires s.stack == []
    ensures Dispatch(s, '^') == s && Dispatch(s, '!') == s
  {
  }

  // ---------------------------------------------------------------------
  // Properties of `&` and `(`

  /** `&` writes x into the current cell and y into the next one (ptr + 1
      modulo 256), keeps every other cell of the grown heap, and leaves ptr
      where it was. */
  lemma AddressRecord(s: State)
    ensures var a := Dispatch(s, '&');
            && a.ptr == s.ptr
            && Inc(s.ptr) < |a.heap| && s.ptr < |a.heap|
            && a.heap[s.ptr] == s.x && a.heap[Inc(s.ptr)] == s.y
            && (forall i | 0 <= i < |s.heap| && i != s.ptr && i != Inc(s.ptr) :: a.heap[i] == s.heap[i])
            && a.x == s.x && a.y == s.y && a.stack == s.stack && a.output == s.output
  {
    IncDecInverse(s.ptr);
  }

  /** `(` loads x from the current cell and y from the cell after it, and
      leaves ptr where it was; the heap grows to cover both cells. */
  lemma JumpLoads(s: State)
    ensures var next := s.(heap := Tape(s), ptr := Inc(s.ptr));
            Dispatch(s, '(') == s.(heap := Tape(next), x := Current(s), y := Current(next))
  {
    IncDecInverse(s.ptr);
  }

  /** `(` executed with ptr where `&` left it, and with the two cells `&`
      wrote untouched, jumps back to the coordinates `&` recorded. */
  lemma AddressRoundTrip(s: State, t: State)
    requires t.ptr == Dispatch(s, '&').ptr
    requires |Dispatch(s, '&').heap| <= |t.heap|
    requires forall i | i == s.ptr || i == Inc(s.ptr) :: 0 <= i < |t.heap| && t.heap[i] == Dispatch(s, '&').heap[i]
    ensures Dispatch(t, '(').x == s.x && Dispatch(t, '(').y == s.y
    ensures Dispatch(t, '(').ptr == s.ptr
  {
    AddressRecord(s);
    IncDecInverse(s.ptr);
    var a := Dispatch(s, '&');
    assert t.heap[s.ptr] == s.x && t.heap[Inc(s.ptr)] == s.y;
    GrowInRange(t);
    GrowInRange(t.(ptr := Inc(t.ptr)));
  }

  // ---------------------------------------------------------------------
  // Properties of one pass of the loop

  /** The character under the instruction pointer, if the row has one. */
  function CellAt(s: State): (o: Option)
    requires s.y < |s.grid|
  {
    if s.x < |s.grid[s.y]| then Some(s.grid[s.y][s.x]) else None
  }

  datatype Option = None | Some(c: char)

  /** iCount goes up by one exactly when a recognised command is under the
      instruction pointer; an unrecognised one and a cell past the end of the
      row leave it unchanged. */
  lemma StepCounts(s: State)
    requires s.y < |s.grid|
    ensures Step(s).iCount ==
              if CellAt(s).Some? && Recognised(CellAt(s).c) then IncSize(s.iCount) else s.iCount
  {
    if CellAt(s).Some? {
      var c := CellAt(s).c;
      if !Recognised(c) {
        assert Dispatch(s, c).iCount == DecSize(s.iCount);
        DecSizeThenIncSize(s.iCount);
      } else {
        assert Dispatch(s, c).iCount == s.iCount;
      }
    }
  }

  /** Every pass moves the instruction pointer one cell in the direction that
      holds after the command, except after `/` (see SlashSkipsOnZero) and
      `(` (which jumps first); only U, D, L and R change the direction. */
  lemma StepAdvancesOnce(s: State)
    requires s.y < |s.grid|
    requires CellAt(s) != Some('/') && CellAt(s) != Some('(')
    ensures (Step(s).x, Step(s).y) == Advance(s.x, s.y, Step(s).dir)
    ensures Step(s).dir ==
              match CellAt(s)
              case Some('U') => Up
              case Some('D') => Down
              case Some('L') => Left
              case Some('R') => Right
              case _ => s.dir
  {
    if s.x < |s.grid[s.y]| {
      DispatchEffects(s, s.grid[s.y][s.x]);
    }
  }

  /** `/` moves the instruction pointer two cells when the current heap cell
      is zero (skipping the next cell) and one cell otherwise. */
  lemma SlashSkipsOnZero(s: State)
    requires s.y < |s.grid| && CellAt(s) == Some('/')
    ensures (Step(s).x, Step(s).y) == AdvanceN(s.x, s.y, s.dir, if Current(s) == 0 then 2 else 1)
    ensures Step(s).dir == s.dir
  {
    var d := Dispatch(s, '/');
    var (x1, y1) := Advance(s.x, s.y, s.dir);
    assert AdvanceN(s.x, s.y, s.dir, 1) == (x1, y1);
    if Current(s) == 0 {
      assert (d.x, d.y) == (x1, y1);
      assert AdvanceN(s.x, s.y, s.dir, 2) == Advance(x1, y1, s.dir);
    } else {
      assert (d.x, d.y) == (s.x, s.y);
    }
  }

  /** `;` ends the loop after the pass that executes it. */
  lemma SemicolonHalts(s: State, fuel: nat)
    requires s.y < |s.grid| && CellAt(s) == Some(';')
    ensures Step(s).exit && Run(Step(s), fuel) == Trace(Step(s), Finished)
  {
  }

  /** Travelling horizontally, row y can stop existing only by a jump: a pass
      that runs anything but `(` never brings the loop test to the case where
      it would index a missing row. */
  lemma OnlyJumpLeavesTheGrid(s: State)
    requires LoopTest(s) == Enter
    requires CellAt(s) != Some('(')
    ensures LoopTest(Step(s)) != Undefined
  {
    if s.x < |s.grid[s.y]| {
      DispatchEffects(s, s.grid[s.y][s.x]);
    }
  }

  // ---------------------------------------------------------------------
  // Whole programs

  /** `;+++.` runs one counted instruction and writes nothing. */
  lemma HaltsImmediately(input: seq<Byte>, fuel: nat)
    requires fuel >= 1
    ensures var t := Run(Init(Parse(";+++."), input), fuel);
            t.outcome == Finished && t.final.iCount == 1 && t.final.output == []
  {
    var s0 := Init([";+++."], input);
    assert Init(Parse(";+++."), input) == s0 by {
      ParseOneRow(";+++.");
    }
    var s1 := Step(s0);
    RunEnters(s0, fuel);
    DispatchEffects(s0, ';');
    assert s1.exit && s1.iCount == 1 && s1.output == [];
    assert Run(s1, fuel - 1) == Trace(s1, Finished);
  }

  /** While travelling right, a run that meets `+` increments the current
      cell, counts the command and goes on one column further. */
  lemma RunPlusRight(s: State, fuel: nat)
    requires fuel > 0 && !s.exit && s.dir == Right
    requires s.y < |s.grid| && s.x < |s.grid[s.y]| && s.grid[s.y][s.x] == '+'
    ensures Run(s, fuel) == Run(Store(s, Inc(Current(s))).(x := Inc(s.x), iCount := IncSize(s.iCount)), fuel - 1)
  {
    RunEnters(s, fuel);
  }

  /** While travelling right, a run that meets `.` outputs the current cell,
      counts the command and goes on one column further. */
  lemma RunDotRight(s: State, fuel: nat)
    requires fuel > 0 && !s.exit && s.dir == Right
    requires s.y < |s.grid| && s.x < |s.grid[s.y]| && s.grid[s.y][s.x] == '.'
    ensures Run(s, fuel) == Run(Touched(s).(output := s.output + [Current(s)], x := Inc(s.x),
                                            iCount := IncSize(s.iCount)), fuel - 1)
  {
    RunEnters(s, fuel);
  }

  /** `+++.` writes the byte 3; all four commands are counted. */
  lemma CountsToThree(input: seq<Byte>, fuel: nat)
    requires fuel >= 4
    ensures var t := Run(Init(Parse("+++."), input), fuel);
            t.outcome == Finished && t.final.iCount == 4 && t.final.output == [3]
  {
    var s0 := Init(["+++."], input);
    assert Init(Parse("+++."), input) == s0 by {
      ParseOneRow("+++.");
    }
    CountsToThreeOnGrid(s0, fuel);
  }

  lemma CountsToThreeOnGrid(s0: State, fuel: nat)
    requires s0 == Init(["+++."], s0.input) && fuel >= 4
    ensures var t := Run(s0, fuel);
            t.outcome == Finished && t.final.iCount == 4 && t.final.output == [3]
  {
    assert Current(s0) == 0;
    var s1 := Store(s0, 1).(x := 1, iCount := 1);
    RunPlusRight(s0, fuel);
    assert Current(s1) == 1 by {
      GrowInRange(s1);
    }
    var s2 := Store(s1, 2).(x := 2, iCount := 2);
    RunPlusRight(s1, fuel - 1);
    assert Current(s2) == 2 by {
      GrowInRange(s1);
      GrowInRange(s2);
    }
    var s3 := Store(s2, 3).(x := 3, iCount := 3);
    RunPlusRight(s2, fuel - 2);
    assert Current(s3) == 3 by {
      GrowInRange(s2);
      GrowInRange(s3);
    }
    var s4 := Touched(s3).(output := [3], x := 4, iCount := 4);
    RunDotRight(s3, fuel - 3);
    RunEnds(s4, fuel - 4);
  }

  /** While travelling right, a run that meets a character the switch has
      no case for (a blank, say) takes it off the counter and puts it back,
      and goes on one column further. */
  lemma RunBlankRight(s: State, fuel: nat)
    requires fuel > 0 && !s.exit && s.dir == Right
    requires s.y < |s.grid| && s.x < |s.grid[s.y]| && !Recognised(s.grid[s.y][s.x])
    ensures Run(s, fuel) == Run(s.(x := Inc(s.x)), fuel - 1)
  {
    RunEnters(s, fuel);
    var c := s.grid[s.y][s.x];
    assert Dispatch(s, c) == s.(iCount := DecSize(s.iCount));
    DecSizeThenIncSize(s.iCount);
  }

  /** A row of blanks is walked off without counting anything. */
  lemma BlanksCountNothing(input: seq<Byte>, fuel: nat)
    requires fuel >= 3
    ensures var t := Run(Init(Parse("   "), input), fuel);
            t.outcome == Finished && t.final.iCount == 0 && t.final.output == []
  {
    var s0 := Init(["   "], input);
    assert Init(Parse("   "), input) == s0 by {
      ParseOneRow("   ");
    }
    BlanksCountNothingOnGrid(s0, fuel);
  }

  lemma BlanksCountNothingOnGrid(s0: State, fuel: nat)
    requires s0 == Init(["   "], s0.input) && fuel >= 3
    ensures var t := Run(s0, fuel);
            t.outcome == Finished && t.final.iCount == 0 && t.final.output == []
  {
    RunBlankRight(s0, fuel);
    RunBlankRight(s0.(x := 1), fuel - 1);
    RunBlankRight(s0.(x := 2), fuel - 2);
    RunEnds(s0.(x := 3), fuel - 3);
  }
}
