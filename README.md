# Minimal-2D interpreter, modelled in Dafny

Minimal-2D is a two-dimensional esoteric language. A program is a grid of
characters, and an instruction pointer walks it in one of four directions. A
byte heap is addressed by an 8-bit data pointer, and an optional byte stack
sits beside it. This project models the interpreter in
`src/Minimal-2D/Minimal-2D.cpp`, in the configuration with the debugging,
stack and extension commands all enabled. It also models the refactored
instruction-pointer, heap and stack structures of `iPtr.h`, `Heap.h` and
`Stack.h`.

| file | module | what it models |
|---|---|---|
| `byte8.dfy` | `Byte8` | `unsigned char` (the `PTR_SIZE` type) `++`/`--` modulo 256, and the `size_t` instruction counter modulo 2^64 (a 64-bit build) |
| `memory.dfy` | `Memory` | chunked, zero-filled growth of a `std::vector` until an index exists (`Grow`) |
| `direction.dfy` | `Direction` | the `IP_DIR` byte codes, `operator&`, and one step of the instruction pointer |
| `grid.dfy` | `ProgramGrid` | the loop in `main` that splits the file contents into rows |
| `semantics.dfy` | `Semantics` | the interpreter's globals as one state record; the opcode switch, one pass of the process loop, and a run with a bound on the number of passes, all as functions; properties of the commands and of whole programs |
| `interpreter.dfy` | `Minimal2D` | the globals as the fields of a class, updated in place by `getHeapValue`, `updateIP`, the switch and the process loop; each method is proved equal to its function in `Semantics` |
| `iptr.dfy` | `InstructionPointer` | `struct IP` of `iPtr.h` |
| `heap.dfy` | `HeapMemory` | `struct HEAP` of `Heap.h` |
| `stack.dfy` | `StackMemory` | `struct STACK` of `Stack.h` |

Facts about the code that the model keeps:

- **The heap chunk is 100 cells.** `getHeapValue` grows the heap by
  `TAPE_CHUNK`, which is 100. Because `ptr` is at most 255, the heap only ever
  holds 0 (before the first access), 100, 200 or 300 cells.
- **`<` and `>` wrap.** Their guards `ptr - 1 < ptr` and `ptr + 1 > ptr` are
  evaluated after promotion to `int`, so they always hold. `<` on 0 therefore
  gives 255. This contradicts the file's header comment, which says `<`
  "does not allow overflow".
- **`STACK::push` writes at the cursor.** It stores the value at the cursor
  and then increments the cursor.
  - So `peek` right after a push reads the slot above the pushed value.
  - The interpreter's own stack is a plain vector used through `push_back`,
    `pop_back` and `back`.
- **Every recognised command counts.** The counter goes up once for each one,
  so `+++.` counts 4 instructions, `.` included.
- **The command set is exactly the switch's cases.** Any other character,
  `[` and `]` among them, is unrecognised and is skipped without being
  counted.
- **A missing row is an explicit outcome.** While travelling right or left,
  the loop condition reads the length of row `y` without checking that the row
  exists. The model reports that case as the outcome `RowOutOfRange`
  (`LoopTest` returns `Undefined`). Only a `(` jump can bring the run there
  (`OnlyJumpLeavesTheGrid`).
- **`,` reads from a supplied byte sequence.** The state carries the bytes
  that `,` will be given. When that sequence is exhausted, the cell keeps its
  value: a failed extraction stores nothing. The heap still grows first.

## Model

| member | source | states |
|---|---|---|
| `Byte8.IncDecInverse` | src/Minimal-2D/Minimal-2D.cpp:243-249 | unsigned char increment and decrement undo each other across the wrap; 255 + 1 is 0 and 0 - 1 is 255 |
| `Byte8.IncNIsAddition` | src/Minimal-2D/Minimal-2D.cpp:251-253 | n increments add n modulo 256 |
| `Byte8.IncNFullCycle` | src/Minimal-2D/Minimal-2D.cpp:251-253 | any whole number of 256-step cycles of increments, 256 itself among them, returns every byte to itself |
| `Byte8.DecNIsSubtraction` | src/Minimal-2D/Minimal-2D.cpp:255-257 | n decrements subtract n modulo 256 |
| `Byte8.DecNFullCycle` | src/Minimal-2D/Minimal-2D.cpp:255-257 | any whole number of 256-step cycles of decrements, 256 itself among them, returns every byte to itself |
| `Byte8.DecNUndoesIncN` | src/Minimal-2D/Minimal-2D.cpp:243-249 | n decrements after n increments give back the starting byte |
| `Byte8.DecSizeThenIncSize` | src/Minimal-2D/Minimal-2D.cpp:344-349 | the default case's `iCount--` followed by `iCount++` leaves the size_t counter unchanged, even from 0 |
| `Memory.Zeros` | src/Minimal-2D/Minimal-2D.cpp:119-121 | the cells appended by one resize have the chunk's length and are all zero |
| `Memory.Grow` | src/Minimal-2D/Minimal-2D.cpp:117-122 | after the growth loop, index p exists; the vector never shrinks and grows only by whole chunks; nothing changes if p was already in range; growth stops at the first chunk covering p; old cells keep their values; new cells are zero |
| `Memory.WholeChunksOfHundred` | src/Minimal-2D/Minimal-2D.cpp:68 | with TAPE_CHUNK = 100, growth by whole chunks means growth by a multiple of 100 |
| `Direction.Overlap` | src/Minimal-2D/Minimal-2D.cpp:98-99 | `operator&` (repeated in iPtr.h:19-20): the bitwise and of two direction codes is non-zero. A true result means both codes are non-zero, and a code overlaps itself exactly when it is non-zero. `AxisClassification` and `Opposite` state what it yields for the VERTICAL, HORIZONTAL and BACKWARD masks |
| `Direction.AxisClassification` | src/Minimal-2D/Minimal-2D.cpp:89-100 | `dir & VERTICAL` holds exactly for DOWN and UP, `dir & HORIZONTAL` exactly for RIGHT and LEFT, and every direction has exactly one axis |
| `Direction.CodeInjective` | src/Minimal-2D/Minimal-2D.cpp:89-98 | the four direction codes 1, 2, 5 and 6 are pairwise distinct |
| `Direction.Opposite` | src/Minimal-2D/iPtr.h:9-18 | the opposite direction keeps the axis bit and flips the backward bit |
| `Direction.Advance` | src/Minimal-2D/Minimal-2D.cpp:131-150 | updateIP (repeated as `IP::update` in iPtr.h:40-60): the position after one step in direction d. RIGHT and LEFT keep y, DOWN and UP keep x, and a step always changes the position. `AdvanceByBits` gives the step as a function of the code's bits, `AdvanceOpposite` states that the opposite step undoes it, and `AdvanceNMoves` and `AdvanceFullCycle` state the effect of n steps |
| `Direction.AdvanceByBits` | src/Minimal-2D/Minimal-2D.cpp:131-150 | updateIP adds 1 (backward bit clear) or 255 (backward bit set) modulo 256 to the coordinate its axis bit selects, and leaves the other coordinate unchanged |
| `Direction.AdvanceOpposite` | src/Minimal-2D/iPtr.h:44-58 | a step followed by a step in the opposite direction restores the position, across the wrap |
| `Direction.AdvanceNMoves` | src/Minimal-2D/iPtr.h:44-58 | n steps move only the coordinate of the direction's axis, by n forwards or backwards modulo 256 |
| `Direction.AdvanceFullCycle` | src/Minimal-2D/iPtr.h:44-58 | 256 steps in one direction return to the start |
| `InstructionPointer.IP.constructor` | src/Minimal-2D/iPtr.h:26-32 | a new instruction pointer is at (0, 0) facing RIGHT |
| `InstructionPointer.IP.Update` | src/Minimal-2D/iPtr.h:40-60 | update moves (x, y) one step in `dir`, modulo 256, and never changes `dir` |
| `InstructionPointer.StepAndStepBack` | src/Minimal-2D/iPtr.h:44-58 | RIGHT then LEFT, or DOWN then UP, leaves the position where it was |
| `HeapMemory.Heap.constructor` | src/Minimal-2D/Heap.h:13-18 | a new HEAP has no cells and its cursor at 0 |
| `HeapMemory.Heap.Value` | src/Minimal-2D/Heap.h:25-30 | value() leaves the storage grown to cover ptr in MEM_CHUNK steps, returns the cell at ptr, and does not move ptr |
| `HeapMemory.ValueKeepsCells` | src/Minimal-2D/Heap.h:27-28 | value() keeps stored cells, zero-fills the new ones, grows only by whole chunks, changes nothing when ptr was in range, and returns data[ptr] |
| `StackMemory.Stack.constructor` | src/Minimal-2D/Stack.h:13-18 | a new STACK has no cells and its cursor at 0 |
| `StackMemory.Stack.Peek` | src/Minimal-2D/Stack.h:21-26 | peek() grows the storage to cover ptr, returns data[ptr] and does not move ptr |
| `StackMemory.Stack.Pop` | src/Minimal-2D/Stack.h:33-36 | pop() only moves the cursor down by one modulo 256, with no emptiness check, and leaves the storage unchanged |
| `StackMemory.Stack.Push` | src/Minimal-2D/Stack.h:39-44 | push(v) grows the storage to cover the old cursor, stores v there, and moves the cursor up by one modulo 256 |
| `StackMemory.PushPopPeek` | src/Minimal-2D/Stack.h:21-44 | push(v), then pop(), then peek() returns v and leaves the cursor where it started |
| `StackMemory.PushThenPeek` | src/Minimal-2D/Stack.h:21-44 | on a new stack, peek() right after push(v) reads the slot above v, which is 0 |
| `StackMemory.PushKeepsCells` | src/Minimal-2D/Stack.h:41-43 | after push, the storage covers the old cursor and has not shrunk; the pushed value is at the old cursor; the other old cells are unchanged and the new cells are zero |
| `ProgramGrid.Feed` | src/Minimal-2D/Minimal-2D.cpp:217-228 | consuming one byte keeps at least one row |
| `ProgramGrid.Parse` | src/Minimal-2D/Minimal-2D.cpp:213-229 | the grid always has at least one row |
| `ProgramGrid.BuildGrid` | src/Minimal-2D/Minimal-2D.cpp:213-229 | the parse loop builds exactly `Parse(contents)` |
| `ProgramGrid.RowCount` | src/Minimal-2D/Minimal-2D.cpp:213-229 | there is one more row than there are line feeds |
| `ProgramGrid.RowsAreClean` | src/Minimal-2D/Minimal-2D.cpp:217-228 | no cell holds a line feed or a carriage return |
| `ProgramGrid.JoinParse` | src/Minimal-2D/Minimal-2D.cpp:213-229 | the rows joined with line feeds equal the input with every carriage return removed |
| `ProgramGrid.ParseOneRow` | src/Minimal-2D/Minimal-2D.cpp:226-227 | a text with no line feed or carriage return parses to a single row holding the text |
| `ProgramGrid.ParseNewRow` | src/Minimal-2D/Minimal-2D.cpp:222-227 | a line feed followed by a clean row appends that row to the grid |
| `ProgramGrid.ParseJoin` | src/Minimal-2D/Minimal-2D.cpp:213-229 | parsing the joined rows of a grid of clean rows gives that grid back |
| `Semantics.Init` | src/Minimal-2D/Minimal-2D.cpp:71-232 | at the start, heap, stack and output are empty; ptr and the coordinates are 0; the direction is RIGHT; the counter is 0; and exit is false. The globals are declared at lines 71-104 and `exit` just before the loop, at line 232 |
| `Semantics.Tape` | src/Minimal-2D/Minimal-2D.cpp:114-126 | the heap as getHeapValue leaves it: `Grow` of the heap to cover ptr in TAPE_CHUNK steps. Index ptr exists afterwards and the heap has not shrunk. `GetHeapValueGrows` adds that old cells are kept, new cells are zero and the shape stays 0, 100, 200 or 300 cells; `GrowInRange` states that nothing changes once ptr is in range |
| `Semantics.Current` | src/Minimal-2D/Minimal-2D.cpp:114-126 | the value getHeapValue returns: the cell at ptr of the grown heap. An existing cell is read as it is, and a cell past the end reads as 0 |
| `Semantics.Store` | src/Minimal-2D/Minimal-2D.cpp:114-126 | a write through the reference getHeapValue returns, as in `getHeapValue() = _ip.x` (line 331): the heap is grown first, and then the cell at ptr holds the written value. `CellCommands`, `StackCommands` and `AddressRecord` state what each writing command leaves unchanged |
| `Semantics.TapeShapeInChunks` | src/Minimal-2D/Minimal-2D.cpp:68 | the reachable heap shape is a whole number of TAPE_CHUNK chunks of at most 3 * TAPE_CHUNK cells; getHeapValue on an empty heap reaches 100, 200 and 300 cells (ptr 0, 150 and 255) |
| `Semantics.ShapeKept` | src/Minimal-2D/Minimal-2D.cpp:117-122 | growing a heap of 100, 200 or 300 cells (or none) keeps it at one of those sizes |
| `Semantics.GetHeapValueGrows` | src/Minimal-2D/Minimal-2D.cpp:114-126 | after getHeapValue, ptr is in range, the size is a multiple of 100 and at most 300, the size has not shrunk, old cells are kept and new cells are zero |
| `Semantics.GrowInRange` | src/Minimal-2D/Minimal-2D.cpp:117 | once ptr is in range, getHeapValue leaves the heap unchanged |
| `Semantics.Dispatch` | src/Minimal-2D/Minimal-2D.cpp:240-346 | the switch keeps the grid and never shrinks the heap |
| `Semantics.DispatchEffects` | src/Minimal-2D/Minimal-2D.cpp:240-346 | only `/` and `(` move the pointer; only U, D, L and R turn it; only `;` sets exit; only `.` writes output, and it writes the current cell; only an unrecognised character changes the counter, by one down |
| `Semantics.DispatchKeepsShape` | src/Minimal-2D/Minimal-2D.cpp:240-346 | every command keeps the heap at 0, 100, 200 or 300 cells, `&` and `(` with their two getHeapValue calls included |
| `Semantics.Step` | src/Minimal-2D/Minimal-2D.cpp:238-355 | one pass keeps the grid and never shrinks the heap |
| `Semantics.StepKeepsShape` | src/Minimal-2D/Minimal-2D.cpp:238-355 | one pass keeps the heap at 0, 100, 200 or 300 cells |
| `Semantics.LoopTest` | src/Minimal-2D/Minimal-2D.cpp:233 | the loop condition as one of Enter, Leave or Undefined. After `;` it is always Leave. Enter implies that exit is false and that row y exists. Undefined implies that exit is false, that the direction is RIGHT or LEFT and that there is no row y. `LoopContinues` gives both directions of each case |
| `Semantics.LoopContinues` | src/Minimal-2D/Minimal-2D.cpp:233 | the loop continues exactly while exit is false and, for DOWN/UP, y is below the row count or, for RIGHT/LEFT, x is below the length of row y; the condition is undefined exactly when travelling horizontally with no row y |
| `Semantics.Run` | src/Minimal-2D/Minimal-2D.cpp:232-356 | the process loop with a bound on the number of passes: the loop test, then `Continue`. A run keeps the grid. `RunReports`, `RunEnds` and `RunEnters` state how it ends and how it proceeds |
| `Semantics.Continue` | src/Minimal-2D/Minimal-2D.cpp:232-356 | a run the loop test lets in is cut off when the bound is used up and otherwise goes on with `NextPass`; the grid is kept |
| `Semantics.NextPass` | src/Minimal-2D/Minimal-2D.cpp:238-356 | one pass followed by the rest of the run with one pass less; the grid is kept |
| `Semantics.RunReports` | src/Minimal-2D/Minimal-2D.cpp:232-356 | a run keeps the heap's shape. It ends Finished exactly when the loop condition is false, and RowOutOfRange exactly when the condition would read a missing row. It is cut off only while the condition still holds |
| `Semantics.RunEnds` | src/Minimal-2D/Minimal-2D.cpp:233 | a run whose loop condition does not hold, or whose bound is used up, ends on its starting state with the outcome the condition gives |
| `Semantics.RunEnters` | src/Minimal-2D/Minimal-2D.cpp:232-356 | a run whose loop condition holds is one pass followed by the rest of the run |
| `Semantics.PointerCommands` | src/Minimal-2D/Minimal-2D.cpp:243-249 | `>` sets ptr to (ptr + 1) mod 256 and `<` to (ptr + 255) mod 256, changing nothing else |
| `Semantics.LoadPointer` | src/Minimal-2D/Minimal-2D.cpp:326-328 | `~` sets ptr to the current cell's value; apart from the heap's growth nothing else changes |
| `Semantics.RightN` | src/Minimal-2D/Minimal-2D.cpp:247-249 | n `>` add n to ptr modulo 256 and change nothing else |
| `Semantics.LeftN` | src/Minimal-2D/Minimal-2D.cpp:243-245 | n `<` subtract n from ptr modulo 256 and change nothing else |
| `Semantics.RightsThenLefts` | src/Minimal-2D/Minimal-2D.cpp:243-249 | n `>` followed by n `<` leave the whole state as it was |
| `Semantics.CellCommands` | src/Minimal-2D/Minimal-2D.cpp:251-320 | `+` and `-` change only the current cell, by one up or down modulo 256, and `)` sets it to 0; apart from the heap's growth nothing else changes |
| `Semantics.ClearThenOutput` | src/Minimal-2D/Minimal-2D.cpp:318-320 | `)` followed by `.` writes a zero byte |
| `Semantics.PlusN` | src/Minimal-2D/Minimal-2D.cpp:251-253 | n `+` add n to the current cell modulo 256 and change no other cell |
| `Semantics.PlusFullCycle` | src/Minimal-2D/Minimal-2D.cpp:251-253 | any positive whole number of 256-step cycles of `+`, 256 itself among them, leaves every cell as it was |
| `Semantics.PushThenPopOrCopy` | src/Minimal-2D/Minimal-2D.cpp:301-313 | `V` appends the current cell to the stack; `V` then `^` leaves the stack and the cells as they were; `V` then `!` leaves the current cell equal to the pushed value |
| `Semantics.StackCommands` | src/Minimal-2D/Minimal-2D.cpp:305-313 | on a non-empty stack, `^` drops the last element and changes nothing else; `!` writes the last element into the current cell of the grown heap and changes nothing else |
| `Semantics.ReadCommand` | src/Minimal-2D/Minimal-2D.cpp:263-265 | `,` stores the next input byte in the current cell of the grown heap and consumes it, changing nothing else; with no input left it only grows the heap |
| `Semantics.DebugCommands` | src/Minimal-2D/Minimal-2D.cpp:287-298 | `#` only grows the heap, through heapDump's two getHeapValue calls, and `@` changes nothing |
| `Semantics.EmptyStackCommands` | src/Minimal-2D/Minimal-2D.cpp:305-313 | on an empty stack `^` and `!` change nothing |
| `Semantics.AddressRecord` | src/Minimal-2D/Minimal-2D.cpp:330-335 | `&` writes x into the cell at ptr and y into the cell at ptr + 1 modulo 256, keeps every other old cell, and leaves ptr, the coordinates, the stack and the output unchanged |
| `Semantics.JumpLoads` | src/Minimal-2D/Minimal-2D.cpp:337-342 | `(` sets x to the current cell and y to the cell at ptr + 1 modulo 256, leaves ptr where it was, and grows the heap to cover both cells; nothing else changes |
| `Semantics.AddressRoundTrip` | src/Minimal-2D/Minimal-2D.cpp:330-342 | `(` at the ptr `&` left, with the two recorded cells untouched, restores the recorded (x, y) and leaves ptr unchanged |
| `Semantics.StepCounts` | src/Minimal-2D/Minimal-2D.cpp:238-349 | a pass raises the counter by exactly one for a recognised command and leaves it unchanged for an unrecognised one or for a cell past the end of the row |
| `Semantics.StepAdvancesOnce` | src/Minimal-2D/Minimal-2D.cpp:271-355 | apart from `/` and `(`, a pass moves the pointer exactly one step in the direction after the command, and only U, D, L and R change that direction |
| `Semantics.SlashSkipsOnZero` | src/Minimal-2D/Minimal-2D.cpp:267-268 | a pass over `/` moves two steps when the current cell is 0, skipping the next cell, and one step otherwise |
| `Semantics.SemicolonHalts` | src/Minimal-2D/Minimal-2D.cpp:322-324 | `;` sets exit, and the run then ends Finished on that state |
| `Semantics.OnlyJumpLeavesTheGrid` | src/Minimal-2D/Minimal-2D.cpp:233-355 | from a state where the loop continues, a pass over anything but `(` never reaches the undefined loop condition |
| `Semantics.HaltsImmediately` | src/Minimal-2D/Minimal-2D.cpp:322-324 | `;+++.` finishes with one counted instruction and no output |
| `Semantics.RunPlusRight` | src/Minimal-2D/Minimal-2D.cpp:251-253 | travelling right, a run meeting `+` increments the current cell, counts it, and goes on one column further |
| `Semantics.RunDotRight` | src/Minimal-2D/Minimal-2D.cpp:259-261 | travelling right, a run meeting `.` writes the current cell, counts it, and goes on one column further |
| `Semantics.CountsToThree` | src/Minimal-2D/Minimal-2D.cpp:232-356 | `+++.` finishes having written the single byte 3 and counted 4 instructions |
| `Semantics.CountsToThreeOnGrid` | src/Minimal-2D/Minimal-2D.cpp:232-356 | from the start state on the one-row grid `+++.`, the run finishes with output [3] and a count of 4 |
| `Semantics.RunBlankRight` | src/Minimal-2D/Minimal-2D.cpp:344-355 | travelling right, a run meeting an unrecognised character counts nothing and goes on one column further |
| `Semantics.BlanksCountNothingOnGrid` | src/Minimal-2D/Minimal-2D.cpp:344-349 | from the start state on the one-row grid of three blanks, the run finishes with nothing counted and nothing written |
| `Semantics.BlanksCountNothing` | src/Minimal-2D/Minimal-2D.cpp:344-349 | a row of three blanks is walked off with no instruction counted and nothing written |
| `Minimal2D.Interpreter.constructor` | src/Minimal-2D/Minimal-2D.cpp:207-229 | start-up builds the grid from the file contents, and every other global is in its initial state |
| `Minimal2D.Interpreter.GetHeapValue` | src/Minimal-2D/Minimal-2D.cpp:114-126 | the resize-and-zero-fill loop leaves the heap equal to `Grow` of the old heap, with ptr in range, and returns the cell at ptr |
| `Minimal2D.Interpreter.UpdateIP` | src/Minimal-2D/Minimal-2D.cpp:131-150 | updateIP moves (x, y) one step in the current direction modulo 256 |
| `Minimal2D.Interpreter.HeapDump` | src/Minimal-2D/Minimal-2D.cpp:166-187 | heapDump only grows the heap, through its getHeapValue calls |
| `Minimal2D.Interpreter.Execute` | src/Minimal-2D/Minimal-2D.cpp:240-346 | the switch, run in place on the globals, produces the state `Dispatch` describes |
| `Minimal2D.Interpreter.SaveIP` | src/Minimal-2D/Minimal-2D.cpp:330-335 | the `&` case, run in place, produces the state `Dispatch` describes for `&` |
| `Minimal2D.Interpreter.LoadIP` | src/Minimal-2D/Minimal-2D.cpp:337-342 | the `(` case, run in place, produces the state `Dispatch` describes for `(` |
| `Minimal2D.Interpreter.Step` | src/Minimal-2D/Minimal-2D.cpp:238-355 | one pass of the loop body, run in place, produces the state `Step` describes |
| `Minimal2D.Interpreter.Test` | src/Minimal-2D/Minimal-2D.cpp:233 | the loop condition, read from the fields, gives the value `LoopTest` describes |
| `Minimal2D.Interpreter.Pass` | src/Minimal-2D/Minimal-2D.cpp:232-356 | one pass of the loop, run in place from a state the loop test lets in, leaves a run with one pass less that ends exactly as the run from the old state |
| `Minimal2D.Interpreter.Run` | src/Minimal-2D/Minimal-2D.cpp:232-356 | the process loop, run in place, ends in the final state and with the outcome that `Run` gives for the same bound |

## Left out

- Reading `input.txt` (src/Minimal-2D/Minimal-2D.cpp:210-211) is file I/O. The model takes the file contents as a `seq<char>`.
- The console I/O behind `.` and `,` (src/Minimal-2D/Minimal-2D.cpp:259-265) is host-library behaviour.
  - Output is modelled as a byte sequence that `.` appends to.
  - Input is modelled as the byte sequence `std::cin >>` would deliver.
  - The whitespace skipping of formatted extraction is not modelled: the supplied sequence stands for the bytes after skipping.
- The debug dumps only print and wait for a key press: `ipDump`, `heapDump`, `stackDump`, `HEAP::dump`, `STACK::dump` and `IP::dump`.
  - The wait is `std::getc(stdin)` (src/Minimal-2D/Minimal-2D.cpp:176, 186 and 201), which takes a byte from the same standard input that `,` reads: two for each `#`, one for each `@`. The model's supplied `input` is what `,` receives after those reads.
  - `#` keeps its one effect on the state: the heap growth from the two `getHeapValue` calls.
  - `@` is a no-op.
  - The "Down" label that `IP::dump` prints for UP is output only.
- The final report and `cin.ignore` (src/Minimal-2D/Minimal-2D.cpp:367-368) are console output. The count they report is the final state's `iCount`.
- The `#if` feature switches: only the configuration with all three enabled (src/Minimal-2D/Minimal-2D.cpp:53-55) is modelled.
- Termination of whole programs is not proved. Many programs loop forever:
  - a `(` jump back to an earlier cell;
  - direction commands alone: on the one-row grid `RL`, two passes bring the pointer back to (0, 0) facing left, and every further two passes repeat this with only `iCount` changing;
  - a row longer than 255 cells, or a grid of 256 or more rows travelled vertically, because the coordinate wraps.
  - So `Semantics.Run` and `Minimal2D.Interpreter.Run` take a bound on the number of passes and report `OutOfFuel` when it is used up.
- The width of `size_t` depends on the build. The instruction counter is modelled as 64 bits wide, wrapping modulo 2^64; a 32-bit build would wrap modulo 2^32.
- The value of `MEM_CHUNK` is not defined in the headers shown. `Heap` and `Stack` take it as a positive constructor argument.
- Allocation failure while a vector grows is not modelled. Storage is unbounded.
- `HeapMemory.Heap.Value`: `HEAP::value()` returns a reference. The model returns the value, and a write through the reference is written out as an update of `data` at `ptr`, which the postcondition keeps in range.
- `Minimal2D.Interpreter.Run`: stops with `RowOutOfRange` where the C++ loop condition would index a missing row. That case is undefined behaviour in the source, so the model does not follow it further.
