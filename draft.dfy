/**
 * The `switch` in `execute` (brainfuck.c:28-44) has no `break`: control
 * entering at one case label runs the statements of every later case and
 * ends at `return -1`. This module models that behaviour and shows how it
 * departs from the intended one-action-per-instruction semantics, which is
 * Semantics.Execute.
 */
module Draft {
  import opened Semantics

  /** The statements from the case `,` to the end of the switch. */
  function FromInput(m: Machine): (r: Machine)
    requires Valid(m)
    ensures Valid(r) && r.ptr == m.ptr
  {
    Semantics.Execute(m, Input).next
  }

  /** The statements from the case `.` to the end of the switch. */
  function FromOutput(m: Machine): (r: Machine)
    requires Valid(m)
    ensures Valid(r) && r.ptr == m.ptr
  {
    FromInput(Semantics.Execute(m, Output).next)
  }

  function FromDecrement(m: Machine): (r: Machine)
    requires Valid(m)
    ensures Valid(r) && r.ptr == m.ptr
  {
    FromOutput(Semantics.Execute(m, Decrement).next)
  }

  function FromIncrement(m: Machine): (r: Machine)
    requires Valid(m)
    ensures Valid(r) && r.ptr == m.ptr
  {
    FromDecrement(Semantics.Execute(m, Increment).next)
  }

  /** `execute` as written: every case falls through to `return -1`. For `>`
      the `++*sp` is undone by the `--*sp` of the next case; for `<` at cell
      0 the following `++**sp` writes before the tape. */
  function ExecuteAsWritten(m: Machine, op: Byte): (e: Effect)
    requires Valid(m)
    ensures Valid(e.next) && e.signal != Next
  {
    if op == MoveRight then Effect(Stop, FromIncrement(m))
    else if op == MoveLeft then
      if m.ptr == 0 then Effect(OutOfTape, m) else Effect(Stop, FromIncrement(m.(ptr := m.ptr - 1)))
    else if op == Increment then Effect(Stop, FromIncrement(m))
    else if op == Decrement then Effect(Stop, FromDecrement(m))
    else if op == Output then Effect(Stop, FromOutput(m))
    else if op == Input then Effect(Stop, FromInput(m))
    else Effect(Stop, m)
  }

  /** As written, `>` never moves the pointer and always stops the run; as
      intended it moves the pointer one cell up and the run goes on. */
  lemma RightAsWrittenStaysPut(m: Machine)
    requires Valid(m) && m.ptr + 1 < StackSize
    ensures ExecuteAsWritten(m, MoveRight).next.ptr == m.ptr
    ensures ExecuteAsWritten(m, MoveRight).signal == Stop
    ensures Semantics.Execute(m, MoveRight) == Effect(Next, m.(ptr := m.ptr + 1))
  {
  }

  /** The program `>` on a fresh tape with no input: as written it reads EOF
      into cell 0, writes the byte 0 and stops at the pointer it started
      from; as intended it only moves the pointer to cell 1 and continues. */
  lemma FallThroughCounterexample()
    ensures var m := Initial([]);
      ExecuteAsWritten(m, MoveRight) ==
        Effect(Stop, m.(cells := m.cells[0 := EofByte], output := [0])) &&
      Semantics.Execute(m, MoveRight) == Effect(Next, m.(ptr := 1))
  {
  }
}
