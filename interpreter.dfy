/**
 * The interpreter of brainfuck.c as the C code runs it: `run` owns a tape
 * array that `execute` updates in place through the tape pointer, and a
 * loop that fetches the next opcode until `execute` says stop. Each method
 * is proved against the functions of module Semantics.
 */
module Interpreter {
  import opened Semantics

  /** One instruction on the tape array `tape` at pointer `sp` (`execute`);
      `sp` is passed by reference in C and is returned updated here, together
      with what is left of the input and the output written so far. */
  method Execute(tape: array<Byte>, sp: nat, op: Byte, input: seq<Byte>, output: seq<Byte>)
      returns (signal: Signal, sp': nat, input': seq<Byte>, output': seq<Byte>)
    requires tape.Length == StackSize && sp < StackSize
    modifies tape
    ensures Semantics.Execute(Machine(old(tape[..]), sp, input, output), op) ==
            Effect(signal, Machine(tape[..], sp', input', output'))
  {
    signal, sp', input', output' := Next, sp, input, output;
    if op == MoveRight {
      if sp + 1 < StackSize { sp' := sp + 1; } else { signal := OutOfTape; }
    } else if op == MoveLeft {
      if 0 < sp { sp' := sp - 1; } else { signal := OutOfTape; }
    } else if op == Increment {
      tape[sp] := (tape[sp] as int + 1) % 256;
    } else if op == Decrement {
      tape[sp] := (tape[sp] as int - 1) % 256;
    } else if op == Output {
      output' := output + [tape[sp]];
    } else if op == Input {
      if input == [] {
        tape[sp] := EofByte;
      } else {
        tape[sp] := input[0];
        input' := input[1..];
      }
    } else {
      signal := Stop;
    }
  }

  /** All of a program's instructions are run (`run`): a fresh tape of
      StackSize zero cells, the pointer at cell 0, the program counter at
      the first byte, and `Execute` until it does not say `Next`. Returns
      why the run ended, the program counter of the instruction that ended
      it, and the output. */
  method Run(program: seq<Byte>, input: seq<Byte>) returns (signal: Signal, pc: nat, output: seq<Byte>)
    ensures var f := Semantics.Run(program, input);
      signal == f.signal && pc == f.pc && output == f.m.output
  {
    var tape := new Byte[StackSize](_ => 0);
    var sp: nat := 0;
    var rest := input;
    pc, output := 0, [];
    assert Machine(tape[..], sp, rest, output) == Initial(input);
    signal := Next;
    while signal == Next
      invariant tape.Length == StackSize && sp < StackSize && pc <= |program|
      invariant signal == Next ==>
        RunFrom(program, Machine(tape[..], sp, rest, output), pc) == Semantics.Run(program, input)
      invariant signal != Next ==>
        Final(Machine(tape[..], sp, rest, output), pc, signal) == Semantics.Run(program, input)
      decreases |program| - pc, if signal == Next then 1 else 0
    {
      var next: Signal;
      next, sp, rest, output := Execute(tape, sp, Fetch(program, pc), rest, output);
      if next == Next {
        pc := pc + 1;
      } else {
        // the instruction had no effect; the run ends where it stands
        signal := next;
      }
    }
  }
}
