/**
 * `load` of brainfuck.c: the bytes of a program file are copied into a heap
 * buffer that starts with room for one byte and doubles whenever the next
 * write would leave no spare byte at its end. The file is given as the
 * sequence of bytes `fgetc` would return before EOF.
 */
module Loader {
  import opened Semantics

  predicate IsPowerOfTwo(n: nat)
    decreases n
  {
    n == 1 || (n >= 2 && n % 2 == 0 && IsPowerOfTwo(n / 2))
  }

  /** `realloc`: a new buffer of `size` bytes that starts with the old
      buffer's contents; the bytes after them are unspecified. */
  method Realloc(buf: array<Byte>, size: nat) returns (grown: array<Byte>)
    requires buf.Length <= size
    ensures fresh(grown) && grown.Length == size
    ensures grown[..buf.Length] == buf[..]
  {
    grown := new Byte[size](_ => 0);
    var k := 0;
    while k < buf.Length
      invariant k <= buf.Length
      invariant grown[..k] == buf[..k]
    {
      grown[k] := buf[k];
      k := k + 1;
    }
  }

  /** Loads `file` into a buffer of capacity `program.Length`. The bytes are
      stored in order, every write is in bounds with one byte to spare, and
      the capacity is the least power of two greater than the number of
      bytes loaded. */
  method Load(file: seq<Byte>) returns (program: array<Byte>)
    ensures |file| < program.Length
    ensures program[..|file|] == file
    ensures IsPowerOfTwo(program.Length)
    ensures program.Length == 1 || program.Length <= 2 * |file|
  {
    program := new Byte[1](_ => 0);
    var bufsize: nat := 1;
    var i := 0;
    while i < |file|
      invariant i <= |file|
      invariant program.Length == bufsize && fresh(program)
      invariant IsPowerOfTwo(bufsize)
      invariant i < bufsize && (bufsize == 1 || bufsize <= 2 * i)
      invariant program[..i] == file[..i]
    {
      if bufsize - 1 <= i {
        bufsize := bufsize * 2;
        ghost var before := program[..];
        program := Realloc(program, bufsize);
        assert program[..i] == before[..i];
      }
      assert i + 1 < bufsize;
      program[i] := file[i];
      assert program[..i + 1] == program[..i] + [file[i]];
      i := i + 1;
    }
  }
}
