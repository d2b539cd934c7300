/**
 * src/chunk.c with the layout of include/chunk.h: the instruction set and a
 * chunk of bytecode whose line table runs parallel to its code and whose
 * constants sit in a value list.
 */
module Chunks {
  import opened Memory
  import opened Values

  type Byte = b: int | 0 <= b < 256

  // OpCode, numbered in declaration order.
  const OpAdd: Byte := 0
  const OpSubtract: Byte := 1
  const OpMultiply: Byte := 2
  const OpDivide: Byte := 3
  const OpFalse: Byte := 4
  const OpTrue: Byte := 5
  const OpNot: Byte := 6
  const OpNegate: Byte := 7
  const OpNil: Byte := 8
  const OpEq: Byte := 9
  const OpNotEq: Byte := 10
  const OpLess: Byte := 11
  const OpLessEq: Byte := 12
  const OpGreaterEq: Byte := 13
  const OpGreater: Byte := 14
  const OpConstant: Byte := 15
  const OpPop: Byte := 16
  const OpJumpIfFalse: Byte := 17
  const OpJumpIfTrue: Byte := 18
  const OpJump: Byte := 19
  const OpLoop: Byte := 20
  const OpDefGlobal: Byte := 21
  const OpGetGlobal: Byte := 22
  const OpSetGlobal: Byte := 23
  const OpGetLocal: Byte := 24
  const OpSetLocal: Byte := 25
  const OpGetUpvalue: Byte := 26
  const OpSetUpvalue: Byte := 27
  const OpCloseUpvalue: Byte := 28
  const OpCall: Byte := 29
  const OpClosure: Byte := 30
  const OpPrint: Byte := 31
  const OpReturn: Byte := 32

  class Chunk {
    var capacity: nat
    var count: nat
    var code: array<Byte>
    var lines: array<nat>
    var constants: ValueList
    ghost var Repr: set<object>

    ghost predicate Valid()
      reads this, Repr
      ensures Valid() ==> this in Repr
    {
      && this in Repr && code in Repr && lines in Repr
      && constants in Repr && constants.Repr <= Repr
      && this !in constants.Repr && code !in constants.Repr && lines !in constants.Repr
      && Repr == {this, code, lines} + constants.Repr
      && constants.Valid()
      && code.Length == capacity && lines.Length == capacity && count <= capacity
    }

    /** The bytes written so far. */
    function Code(): seq<Byte>
      reads this, Repr
      requires Valid()
    {
      code[..count]
    }

    /** The source line of each byte written so far. */
    function Lines(): seq<nat>
      reads this, Repr
      requires Valid()
    {
      lines[..count]
    }

    /** The constant pool. */
    function Constants(): seq<Value>
      reads this, Repr
      requires Valid()
    {
      constants.Elements()
    }

    /** initChunk: no code, no lines and an empty constant pool. */
    constructor Init()
      ensures Valid() && fresh(Repr)
      ensures capacity == 0 && count == 0 && code.Length == 0 && lines.Length == 0
      ensures constants.capacity == 0 && constants.count == 0
    {
      capacity, count := 0, 0;
      code := new Byte[0];
      lines := new nat[0];
      constants := new ValueList.Init();
      new;
      Repr := {this, code, lines} + constants.Repr;
    }

    /**
     * appendChunk: grows code and lines together to GROW_CAPACITY only when
     * full, then writes the byte and its line at the old count.
     */
    method Append(byte: Byte, line: nat)
      requires Valid()
      modifies Repr
      ensures Valid() && fresh(Repr - old(Repr))
      ensures Code() == old(Code()) + [byte]
      ensures Lines() == old(Lines()) + [line]
      ensures Constants() == old(Constants()) && constants == old(constants)
      ensures old(count) < old(capacity) ==> capacity == old(capacity)
      ensures old(count) >= old(capacity) ==> capacity == GrowCapacity(old(capacity))
    {
      if count >= capacity {
        var oldCap := capacity;
        capacity := GrowCapacity(oldCap);
        code := GrowArray(code, capacity, 0);
        lines := GrowArray(lines, capacity, 0);
        Repr := {this, code, lines} + constants.Repr;
      }
      code[count] := byte;
      lines[count] := line;
      count := count + 1;
    }

    /**
     * Overwrites one byte that was already written (the compiler's jump
     * back-patching writes through `code[offset]`).
     */
    method Patch(offset: nat, byte: Byte)
      requires Valid() && offset < count
      modifies code
      ensures Valid()
      ensures Code() == old(Code())[offset := byte]
      ensures Lines() == old(Lines()) && Constants() == old(Constants())
    {
      code[offset] := byte;
    }

    /**
     * appendConstant: appends to the constant pool and returns the index the
     * constant was written to.
     */
    method AppendConstant(constant: Value) returns (index: nat)
      requires Valid()
      modifies Repr
      ensures Valid() && fresh(Repr - old(Repr))
      ensures index == |old(Constants())|
      ensures Constants() == old(Constants()) + [constant]
      ensures Constants()[index] == constant
      ensures Code() == old(Code()) && Lines() == old(Lines())
      ensures code == old(code) && lines == old(lines) && constants == old(constants)
    {
      index := constants.count;
      constants.Append(constant);
      Repr := {this, code, lines} + constants.Repr;
    }

    /** freeChunk: back to the state initChunk leaves. */
    method Free()
      requires Valid()
      modifies Repr
      ensures Valid() && fresh(Repr - old(Repr))
      ensures capacity == 0 && count == 0 && code.Length == 0 && lines.Length == 0
      ensures constants.capacity == 0 && constants.count == 0
    {
      capacity, count := 0, 0;
      code := new Byte[0];
      lines := new nat[0];
      constants := new ValueList.Init();
      Repr := {this, code, lines} + constants.Repr;
    }
  }
}
