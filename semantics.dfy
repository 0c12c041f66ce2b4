/**
 * The meaning of one run of the tape interpreter in brainfuck.c, as pure
 * functions: the tape machine, the effect of one instruction (`execute`),
 * and the loop that executes instructions until one of them says stop (`run`).
 *
 * Cells hold the bit pattern of a C `char`, written here as a byte 0..255;
 * `+` and `-` wrap modulo 256, which is what incrementing or decrementing an
 * 8-bit cell does to its bit pattern whether `char` is signed or not.
 */
module Semantics {

  type Byte = b: int | 0 <= b < 256

  /** Number of tape cells (`STACKSIZE`). */
  const StackSize: nat := 30000

  /** What `,` stores once the input is exhausted: `getchar()` returns EOF (-1),
      and storing -1 into an 8-bit cell leaves the bit pattern 255. */
  const EofByte: Byte := 255

  /** The byte that ends a loaded program (the string terminator). */
  const Terminator: Byte := 0

  const MoveRight: Byte := '>' as int
  const MoveLeft: Byte := '<' as int
  const Increment: Byte := '+' as int
  const Decrement: Byte := '-' as int
  const Output: Byte := '.' as int
  const Input: Byte := ',' as int

  /** The six opcodes that `execute` handles itself; every other byte, the
      brackets and the terminator included, reaches `default` and stops. */
  predicate IsSimple(op: Byte) {
    op == MoveRight || op == MoveLeft || op == Increment ||
    op == Decrement || op == Output || op == Input
  }

  /** The state `execute` works on: the tape, the tape pointer (an index
      into the tape), the input still to be read and the output written. */
  datatype Machine = Machine(cells: seq<Byte>, ptr: nat, input: seq<Byte>, output: seq<Byte>)

  /** Every tape access stays inside the tape. */
  predicate Valid(m: Machine) {
    |m.cells| == StackSize && m.ptr < StackSize
  }

  /** `Next`: continue with the following instruction; `Stop`: `execute`
      returned -1; `OutOfTape`: the instruction would move the pointer off
      the tape (`<` before cell 0, which C leaves undefined, or `>` one past
      the last cell, which C allows until a cell is accessed there); the
      model stops there without moving. */
  datatype Signal = Next | Stop | OutOfTape

  datatype Effect = Effect(signal: Signal, next: Machine)

  /** The machine a run starts from. */
  function Initial(input: seq<Byte>): (m: Machine)
    ensures Valid(m) && m.ptr == 0
    ensures forall i | 0 <= i < |m.cells| :: m.cells[i] == 0
    ensures m.input == input && m.output == []
  {
    Machine(seq(StackSize, _ => 0), 0, input, [])
  }

  function Wrap(x: int): (b: Byte)
    ensures (b - x) % 256 == 0
  {
    x % 256
  }

  /** One instruction, each case doing only its own action. */
  function Execute(m: Machine, op: Byte): (e: Effect)
    requires Valid(m)
    ensures Valid(e.next)
    ensures e.signal == Stop <==> !IsSimple(op)
    ensures e.signal == OutOfTape <==>
              (op == MoveRight && m.ptr == StackSize - 1) || (op == MoveLeft && m.ptr == 0)
    ensures e.signal != Next ==> e.next == m
    // only the current cell can change, and only when the pointer stays put
    ensures forall i | 0 <= i < StackSize && i != m.ptr :: e.next.cells[i] == m.cells[i]
    ensures e.next.ptr == m.ptr || e.next.cells == m.cells
    ensures e.next.ptr == m.ptr || e.next.ptr == m.ptr + 1 || e.next.ptr + 1 == m.ptr
    // at most one byte consumed, at most the current cell produced
    ensures e.next.input == m.input || (m.input != [] && e.next.input == m.input[1..])
    ensures e.next.output == m.output || e.next.output == m.output + [m.cells[m.ptr]]
  {
    var c := m.cells[m.ptr];
    if op == MoveRight then
      if m.ptr + 1 < StackSize then Effect(Next, m.(ptr := m.ptr + 1)) else Effect(OutOfTape, m)
    else if op == MoveLeft then
      if 0 < m.ptr then Effect(Next, m.(ptr := m.ptr - 1)) else Effect(OutOfTape, m)
    else if op == Increment then
      Effect(Next, m.(cells := m.cells[m.ptr := Wrap(c as int + 1)]))
    else if op == Decrement then
      Effect(Next, m.(cells := m.cells[m.ptr := Wrap(c as int - 1)]))
    else if op == Output then
      Effect(Next, m.(output := m.output + [c]))
    else if op == Input then
      if m.input == [] then Effect(Next, m.(cells := m.cells[m.ptr := EofByte]))
      else Effect(Next, m.(cells := m.cells[m.ptr := m.input[0]], input := m.input[1..]))
    else
      Effect(Stop, m)
  }

  /** The opcode at `pc`; one past the loaded bytes sits the terminator. */
  function Fetch(program: seq<Byte>, pc: nat): Byte {
    if pc < |program| then program[pc] else Terminator
  }

  /** How a run ended: the final machine, the program counter of the
      instruction that ended it, and why. */
  datatype Final = Final(m: Machine, pc: nat, signal: Signal)

  /** Executes instructions from `pc` on until one does not say `Next`. */
  function RunFrom(program: seq<Byte>, m: Machine, pc: nat): (f: Final)
    requires Valid(m) && pc <= |program|
    ensures Valid(f.m) && pc <= f.pc <= |program|
    ensures f.signal != Next
    ensures f.signal == Stop ==> !IsSimple(Fetch(program, f.pc))
    ensures f.signal == OutOfTape ==>
              (Fetch(program, f.pc) == MoveRight && f.m.ptr == StackSize - 1) ||
              (Fetch(program, f.pc) == MoveLeft && f.m.ptr == 0)
    ensures forall k | pc <= k < f.pc :: IsSimple(program[k])
    decreases |program| - pc
  {
    var e := Execute(m, Fetch(program, pc));
    if e.signal == Next then RunFrom(program, e.next, pc + 1)
    else Final(m, pc, e.signal)
  }

  /** A whole run: a fresh zeroed tape, the pointer at cell 0, the program
      counter at the first byte of the program. */
  function Run(program: seq<Byte>, input: seq<Byte>): (f: Final)
    ensures Valid(f.m) && f.pc <= |program| && f.signal != Next
    ensures f.signal == Stop ==> !IsSimple(Fetch(program, f.pc))
    ensures f.signal == OutOfTape ==>
              (Fetch(program, f.pc) == MoveRight && f.m.ptr == StackSize - 1) ||
              (Fetch(program, f.pc) == MoveLeft && f.m.ptr == 0)
    ensures forall k | 0 <= k < f.pc :: IsSimple(program[k])
  {
    RunFrom(program, Initial(input), 0)
  }

  /** Number of occurrences of `b` in `s`. */
  function Count(s: seq<Byte>, b: Byte): nat {
    if s == [] then 0 else (if s[0] == b then 1 else 0) + Count(s[1..], b)
  }

  function Min(x: int, y: int): int {
    if x <= y then x else y
  }

  /** A run only appends to the output, one byte per `.` it executes. */
  lemma {:induction false} RunFromOutput(program: seq<Byte>, m: Machine, pc: nat)
    requires Valid(m) && pc <= |program|
    ensures var f := RunFrom(program, m, pc);
      |f.m.output| == |m.output| + Count(program[pc..f.pc], Output) &&
      f.m.output[..|m.output|] == m.output
    decreases |program| - pc
  {
    var e := Execute(m, Fetch(program, pc));
    if e.signal == Next {
      var f := RunFrom(program, e.next, pc + 1);
      RunFromOutput(program, e.next, pc + 1);
      assert program[pc..f.pc][1..] == program[pc + 1..f.pc];
    }
  }

  /** A run consumes the input from the front, one byte per `,` it executes
      while input remains. */
  lemma {:induction false} RunFromInput(program: seq<Byte>, m: Machine, pc: nat)
    requires Valid(m) && pc <= |program|
    ensures var f := RunFrom(program, m, pc);
      f.m.input == m.input[Min(|m.input|, Count(program[pc..f.pc], Input))..]
    decreases |program| - pc
  {
    var e := Execute(m, Fetch(program, pc));
    if e.signal == Next {
      var f := RunFrom(program, e.next, pc + 1);
      RunFromInput(program, e.next, pc + 1);
      assert program[pc..f.pc][1..] == program[pc + 1..f.pc];
    }
  }

  /** `>` moves the pointer up one cell and `<` moves it back: together they
      leave the machine as it was. */
  lemma RightThenLeft(m: Machine)
    requires Valid(m) && m.ptr + 1 < StackSize
    ensures var e := Execute(m, MoveRight);
      e.signal == Next && e.next.ptr == m.ptr + 1 && e.next.cells == m.cells &&
      Execute(e.next, MoveLeft) == Effect(Next, m)
  {
  }

  lemma LeftThenRight(m: Machine)
    requires Valid(m) && 0 < m.ptr
    ensures var e := Execute(m, MoveLeft);
      e.signal == Next && e.next.ptr == m.ptr - 1 && e.next.cells == m.cells &&
      Execute(e.next, MoveRight) == Effect(Next, m)
  {
  }

  /** `+` and `-` are inverse on every cell value, 255 + 1 wrapping to 0 and
      0 - 1 to 255. */
  lemma IncrementThenDecrement(m: Machine)
    requires Valid(m)
    ensures var e := Execute(m, Increment);
      e.signal == Next && e.next.cells[m.ptr] == (m.cells[m.ptr] as int + 1) % 256 &&
      Execute(e.next, Decrement) == Effect(Next, m)
  {
  }

  lemma DecrementThenIncrement(m: Machine)
    requires Valid(m)
    ensures var e := Execute(m, Decrement);
      e.signal == Next && e.next.cells[m.ptr] == (m.cells[m.ptr] as int + 255) % 256 &&
      Execute(e.next, Increment) == Effect(Next, m)
  {
  }

  /** `.` appends the current cell to the output and changes nothing else. */
  lemma OutputAppendsCell(m: Machine)
    requires Valid(m)
    ensures Execute(m, Output) == Effect(Next, m.(output := m.output + [m.cells[m.ptr]]))
  {
  }

  /** `,` overwrites only the current cell with the next input byte (or with
      EofByte once the input is used up); `.` then writes that byte out. */
  lemma InputThenOutput(m: Machine)
    requires Valid(m)
    ensures var e := Execute(m, Input);
      var b := if m.input == [] then EofByte else m.input[0];
      e.signal == Next && e.next.ptr == m.ptr &&
      e.next.cells == m.cells[m.ptr := b] &&
      e.next.input == (if m.input == [] then [] else m.input[1..]) &&
      e.next.output == m.output &&
      Execute(e.next, Output) == Effect(Next, e.next.(output := m.output + [b]))
  {
  }

  /** `+.` on a fresh tape writes the byte 1 and ends at the terminator. */
  lemma IncrementThenOutputRun()
    ensures var f := Run([Increment, Output], []);
      f.signal == Stop && f.pc == 2 && f.m.output == [1]
  {
    var p := [Increment, Output];
    var m0 := Initial([]);
    var m1 := Execute(m0, Increment).next;
    assert m1.cells[0] == 1;
    var m2 := Execute(m1, Output).next;
    assert m2.output == [1];
    assert RunFrom(p, m2, 2) == Final(m2, 2, Stop);
    assert RunFrom(p, m1, 1) == RunFrom(p, m2, 2);
    assert RunFrom(p, m0, 0) == RunFrom(p, m1, 1);
  }

  /** `<` as the first instruction would leave the tape: the run ends at
      once, the pointer still at cell 0. */
  lemma LeftFirstRun(input: seq<Byte>)
    ensures var f := Run([MoveLeft], input);
      f == Final(Initial(input), 0, OutOfTape)
  {
  }

  /** A bracket, or any byte that is not one of the six simple opcodes,
      ends the run where it stands: `+[-]` stops at `[` with cell 0 at 1. */
  lemma BracketStopsRun()
    ensures var f := Run([Increment, '[' as int, Decrement, ']' as int], []);
      f.signal == Stop && f.pc == 1 && f.m.cells[0] == 1 && f.m.ptr == 0
  {
    var p := [Increment, '[' as int, Decrement, ']' as int];
    var m0 := Initial([]);
    var m1 := Execute(m0, Increment).next;
    assert m1.cells[0] == 1;
    assert RunFrom(p, m1, 1) == Final(m1, 1, Stop);
    assert RunFrom(p, m0, 0) == RunFrom(p, m1, 1);
  }
}
