# A verified model of the brainfuck.c tape interpreter

brainfuck.c is an early draft of an interpreter for the eight-symbol tape
language. Its three functions are modelled here:

- `execute` performs one instruction on a tape of 30000 byte cells through
  a tape pointer: `>` and `<` move the pointer, `+` and `-` change the
  current cell, `.` writes the current cell out, `,` reads a byte into it.
  Every other byte, the brackets included, reaches `default` and returns
  -1, the stop value.
- `run` sets up a zeroed tape, puts the pointer at cell 0 and the program
  counter at the first byte, and calls `execute` until it returns -1.
- `load` copies a file's bytes into a heap buffer that starts at one byte
  and doubles whenever the next write would leave no spare byte.

The file is unfinished, and the model says where it completes it:

- the `switch` opened at line 28 is never closed, so the file does not
  compile as it stands;
- the cases at lines 29-40 have no `break`, so every case falls through
  to `return -1` (see "## Findings"). The model follows the comment at
  lines 6-7: each instruction does only its own action, and after one of
  the six simple opcodes the run continues with the next byte;
- `execute` never returns a next program counter, and `run` uses the
  pointer `pc` as an index (line 54). The model advances the program
  counter by one after a simple opcode. The loop at line 54 ends only when
  `pc` equals the stop value -1, so `run` returns -1 on every run
  (line 57). The model's `Run` returns something else: the index of the
  instruction that ended the run and the reason it ended (see "## Left
  out");
- `load` never writes a terminator and never returns its buffer (line 24).
  The model's `Load` returns the buffer. The byte after the loaded program
  reads as the terminator 0, which reaches `default` and stops the run.
  The model does not show how C reads past the loaded bytes.

The model follows the code. It does not add bracket matching, loop jumps,
treating unknown bytes as no-ops, or fault status codes, since the code has
none of them. A bracket or any other byte stops the run where it stands.

Files:

- `semantics.dfy` (module `Semantics`): the machine (tape, pointer,
  remaining input, output written), the pure meaning of one instruction and
  of a run, and the lemmas about them.
- `interpreter.dfy` (module `Interpreter`): `execute` and `run` as methods
  over a tape `array`, each proved equal to its function in `Semantics`.
- `loader.dfy` (module `Loader`): `load` and the `realloc` it relies on,
  over arrays.
- `draft.dfy` (module `Draft`): `execute` as written, with its
  fall-through, set against the intended semantics.

Modelling choices:

- A cell is a byte 0..255, the bit pattern of a C `char`. `+` and `-` wrap
  modulo 256 whether `char` is signed or not.
- Standard input is a finite byte sequence that `,` consumes from the
  front. Standard output is a byte sequence that `.` appends to. At end of
  input, `getchar` returns EOF (-1). The code stores that in the cell, which
  leaves the bit pattern 255, so the model's `,` stores 255 and consumes
  nothing.
- A `<` from cell 0 would take the pointer off the tape. The C code has no
  check there, and moving a pointer before the start of an array is
  undefined behaviour. A `>` from the last cell is different: it leaves the
  pointer one past the end of the tape, which C allows. Only a later
  `+`, `-`, `.` or `,` through that pointer would be undefined. The model
  stops the run at either move with the signal `OutOfTape` and leaves the
  pointer where it was, so the pointer always stays in [0, 30000) (see
  "## Left out"). `OutOfTape` marks the edge of the model. It is not a
  status the source reports.
- The file given to `load` is the sequence of bytes `fgetc` returns before
  EOF.

## Model

| member | source | states |
|---|---|---|
| Semantics.Initial | brainfuck.c:49-52 | a run starts with exactly 30000 cells, all zero, the pointer at cell 0, the whole input unread and no output |
| Semantics.Execute | brainfuck.c:27-44 | one instruction: stops exactly on bytes other than the six simple opcodes and leaves the machine unchanged then; leaves the tape exactly when `>` is at the last cell or `<` at cell 0; otherwise keeps the pointer in [0, 30000), changes no cell but the current one, never changes a cell and the pointer together, moves the pointer by at most one, consumes at most the first input byte and appends at most the current cell to the output |
| Semantics.RunFrom | brainfuck.c:54-57 | the loop ends at the first instruction that does not continue; every byte before it is a simple opcode; it stopped on a non-simple byte or moved off the tape at a `>`/`<` at the tape's edge; the program counter stays within the program and its terminator and the pointer stays on the tape |
| Semantics.Run | brainfuck.c:48-58 | a run from the initial machine at program counter 0 ends with the pointer on the tape, at an instruction within the program or at its terminator, after only simple opcodes; it stopped on a non-simple byte, or moved off the tape at a `>` at the last cell or a `<` at cell 0 |
| Semantics.RunFromOutput | brainfuck.c:37-38 | a run only appends to the output, exactly one byte per `.` it executes |
| Semantics.RunFromInput | brainfuck.c:39-40 | a run consumes the input from the front, one byte per `,` it executes until the input is used up |
| Semantics.RightThenLeft | brainfuck.c:29-32 | `>` moves the pointer up one cell without touching the tape, and `<` after it restores the machine |
| Semantics.LeftThenRight | brainfuck.c:29-32 | `<` moves the pointer down one cell without touching the tape, and `>` after it restores the machine |
| Semantics.IncrementThenDecrement | brainfuck.c:33-36 | `+` adds one to the current cell modulo 256, and `-` after it restores the machine |
| Semantics.DecrementThenIncrement | brainfuck.c:33-36 | `-` subtracts one from the current cell modulo 256, and `+` after it restores the machine |
| Semantics.OutputAppendsCell | brainfuck.c:37-38 | on every valid machine, `.` appends the current cell to the output, continues, and changes nothing else |
| Semantics.InputThenOutput | brainfuck.c:37-40 | `,` overwrites only the current cell with the next input byte (255 at end of input) and consumes that byte; `.` then appends that byte to the output and changes nothing else |
| Semantics.IncrementThenOutputRun | brainfuck.c:33-38 | the program `+.` writes the byte 1 and stops at the terminator |
| Semantics.LeftFirstRun | brainfuck.c:31-32 | the program `<` ends at its first instruction, off the tape's edge, with the pointer still at cell 0 and nothing changed |
| Semantics.BracketStopsRun | brainfuck.c:41-44 | in `+[-]` the `[` stops the run at index 1 with cell 0 at 1: there is no loop |
| Interpreter.Execute | brainfuck.c:27-44 | updating the tape array in place and returning the new pointer, the remaining input and the output gives exactly the effect `Semantics.Execute` gives on the old tape |
| Interpreter.Run | brainfuck.c:48-58 | the loop over a fresh zeroed 30000-cell array ends with the signal, program counter and output of `Semantics.Run` |
| Loader.Realloc | brainfuck.c:20 | a fresh buffer of the requested size whose first bytes are the old buffer's contents |
| Loader.Load | brainfuck.c:10-23 | the bytes are stored in order; the capacity is a power of two reached from 1 by doubling, larger than the byte count, so every write left a spare byte; it is the least such power |
| Draft.ExecuteAsWritten | brainfuck.c:28-44 | with the fall-through, no instruction lets the run continue |
| Draft.RightAsWrittenStaysPut | brainfuck.c:29-32 | as written `>` leaves the pointer where it was and stops, where the intended `>` moves it up one cell and continues |
| Draft.FallThroughCounterexample | brainfuck.c:28-44 | on a fresh tape with no input, `>` as written stores 255 in cell 0, writes the byte 0 and stops; as intended it only moves the pointer to cell 1 |

## Findings

| source | as written | input that shows it | evidently intended | confidence | as-written member | corrected member |
|---|---|---|---|---|---|---|
| brainfuck.c:28-44 | no case of the `switch` ends with `break`, so each falls through to the later cases and to `return -1` | the program `>` on a fresh tape with no input: the pointer stays at cell 0, cell 0 becomes 255, the byte 0 is written, and the run stops | each case does only its own action (comment at lines 6-7) and the run continues with the next instruction | high; not executed | Draft.FallThroughCounterexample | Semantics.Execute |

## Left out

- `main` (brainfuck.c:61-85): argument iteration, `fopen`/`fclose`, the exit status. This is command-line plumbing.
- err.c and err.h (`warn`, `die`, `emalloc`): logging to stderr and exiting the process. These are I/O. `emalloc(1)` is modelled as allocating the one-byte first buffer.
- Real `putchar` and `getchar`: they are replaced by an output sequence that grows and an input sequence that is consumed.
- `realloc` failure and freeing the old buffer: Dafny arrays are garbage-collected, and `Realloc` always succeeds with a fresh copy.
- Undefined behaviour: reading past the loaded bytes, where the terminator was never written, and a `<` from cell 0. The model reads a terminator and stops with `OutOfTape`, as described above.
- Semantics.Execute: a `>` from the last cell stops with `OutOfTape`, although C allows the pointer one past the end of the tape. A program that steps out and straight back before touching a cell therefore runs on in C and stops in the model. For example, 29999 `>` followed by `><.` writes the byte 0 in C and nothing in the model. The model keeps the pointer inside the tape at every step so that the pointer's range is an invariant.
- Interpreter.Run: C's `run` returns -1 on every run, because its loop ends only when `pc` equals -1 (brainfuck.c:54-57). The model returns the index of the instruction that ended the run and the reason it ended.
- Semantics.Run: like `Interpreter.Run`, it gives the stopping index and the reason, where C's `run` returns -1.
- Signed `char` arithmetic: cells are modelled by their 8-bit pattern, so a value printed or compared as a negative `char` is out of scope.
