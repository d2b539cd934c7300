/**
 * src/debug.c without its printing: how far disassembleInstruction moves
 * the offset for each opcode, the target it decodes from a jump's two
 * operand bytes, and the offsets disassembleChunk visits.
 */
module Disassembler {
  import opened Chunks
  import C = Compiler

  /** The operand shapes of disassembleInstruction's switch. */
  datatype Shape = ConstantOperand | ByteOperand | JumpOperand(sign: int) | NoOperand | UnknownOpcode

  /** The case of disassembleInstruction's switch an opcode falls into. */
  function ShapeOf(op: Byte): Shape
  {
    if op == OpDefGlobal || op == OpGetGlobal || op == OpSetGlobal || op == OpConstant then ConstantOperand
    else if op == OpCall || op == OpGetLocal || op == OpSetLocal then ByteOperand
    else if op == OpJump || op == OpJumpIfTrue || op == OpJumpIfFalse then JumpOperand(1)
    else if op == OpLoop then JumpOperand(-1)
    else if op <= OpPop || op == OpPrint || op == OpReturn then NoOperand
    else UnknownOpcode
  }

  /** The offset constant, byte, jump and single return: past the opcode and its operands. */
  function InstrLen(op: Byte): nat
  {
    match ShapeOf(op)
    case ConstantOperand => 2
    case ByteOperand => 2
    case JumpOperand(_) => 3
    case NoOperand => 1
    case UnknownOpcode => 1
  }

  /** Every opcode of the instruction set by the length disassembleInstruction gives it. */
  lemma InstructionLengths(op: Byte)
    ensures op in {OpConstant, OpDefGlobal, OpGetGlobal, OpSetGlobal, OpCall, OpGetLocal, OpSetLocal} <==> InstrLen(op) == 2
    ensures op in {OpJump, OpJumpIfTrue, OpJumpIfFalse, OpLoop} <==> InstrLen(op) == 3
    ensures ShapeOf(op).JumpOperand? ==> (ShapeOf(op).sign == -1 <==> op == OpLoop)
    ensures op in {OpGetUpvalue, OpSetUpvalue, OpCloseUpvalue, OpClosure} || op > OpReturn ==> ShapeOf(op) == UnknownOpcode
  {
  }

  /**
   * jump: `offset + 3 + sign * ((code[offset + 1] << 8) | code[offset + 2])`,
   * the sign -1 for OP_LOOP and +1 for the forward jumps.
   */
  function JumpTarget(code: seq<Byte>, offset: nat): (dest: int)
    requires offset + 2 < |code| && ShapeOf(code[offset]).JumpOperand?
    ensures code[offset] == OpLoop ==> dest == offset + 3 - C.JumpOperand(code, offset + 1)
    ensures code[offset] != OpLoop ==> dest == offset + 3 + C.JumpOperand(code, offset + 1)
  {
    offset + 3 + ShapeOf(code[offset]).sign * (code[offset + 1] as int * 256 + code[offset + 2] as int)
  }

  /** The offsets disassembleChunk's loop visits from `offset` on. */
  function Offsets(code: seq<Byte>, offset: nat): (r: seq<nat>)
    decreases |code| - offset
  {
    if offset >= |code| then [] else [offset] + Offsets(code, offset + InstrLen(code[offset]))
  }

  /**
   * From `offset` on, the visited offsets start at `offset` (when it is
   * inside the code), stay inside the code, and each is the one before
   * moved past that instruction; the last instruction reaches the end.
   */
  lemma {:induction false} OffsetsStep(code: seq<Byte>, offset: nat)
    ensures var r := Offsets(code, offset);
      && (offset < |code| <==> |r| > 0)
      && (forall i :: 0 <= i < |r| ==> offset <= r[i] < |code|)
      && (|r| > 0 ==> r[0] == offset && r[|r| - 1] + InstrLen(code[r[|r| - 1]]) >= |code|)
      && (forall i :: 0 <= i < |r| - 1 ==> r[i + 1] == r[i] + InstrLen(code[r[i]]))
    decreases |code| - offset
  {
    if offset < |code| {
      var next := offset + InstrLen(code[offset]);
      OffsetsStep(code, next);
      var r := Offsets(code, offset);
      var t := Offsets(code, next);
      assert r == [offset] + t;
      forall i | 0 <= i < |r| - 1
        ensures r[i + 1] == r[i] + InstrLen(code[r[i]])
      {
        if i > 0 {
          assert r[i] == t[i - 1] && r[i + 1] == t[i];
        }
      }
    }
  }

  /** The offsets disassembleChunk visits strictly increase. */
  lemma OffsetsIncrease(code: seq<Byte>, offset: nat)
    ensures forall i, j :: 0 <= i < j < |Offsets(code, offset)| ==> Offsets(code, offset)[i] < Offsets(code, offset)[j]
  {
    OffsetsStep(code, offset);
    var r := Offsets(code, offset);
    forall i, j | 0 <= i < j < |r|
      ensures r[i] < r[j]
    {
      IncreasingFrom(code, r, i, j);
    }
  }

  lemma {:induction false} IncreasingFrom(code: seq<Byte>, r: seq<nat>, i: nat, j: nat)
    requires forall k :: 0 <= k < |r| ==> r[k] < |code|
    requires forall k :: 0 <= k < |r| - 1 ==> r[k + 1] == r[k] + InstrLen(code[r[k]])
    requires i < j < |r|
    ensures r[i] < r[j]
    decreases j - i
  {
    if j > i + 1 {
      IncreasingFrom(code, r, i, j - 1);
    }
  }

  /**
   * disassembleChunk: from offset 0, one instruction at a time, until the
   * offset reaches the chunk's count. Returned are the offsets visited,
   * which it prints before each instruction.
   */
  method DisassembleChunk(chunk: Chunk) returns (visited: seq<nat>)
    requires chunk.Valid()
    ensures visited == Offsets(chunk.Code(), 0)
  {
    ghost var code := chunk.Code();
    var offset: nat := 0;
    visited := [];
    while offset < chunk.count
      invariant visited + Offsets(code, offset) == Offsets(code, 0)
      decreases chunk.count - offset
    {
      assert chunk.code[offset] == code[offset];
      visited := visited + [offset];
      offset := offset + InstrLen(chunk.code[offset]);
    }
  }

  /**
   * A forward jump at `at` whose placeholder patchJump filled when the
   * code ended at `|code|` decodes to `|code|`, the offset just after the
   * code the jump skips, whatever is appended later; patchJump rejects
   * the distances over 65535 for which the 16 bits would wrap.
   */
  lemma PatchedJumpTarget(code: seq<Byte>, at: nat, later: seq<Byte>)
    requires at + 3 <= |code| && code[at] in {OpJump, OpJumpIfTrue, OpJumpIfFalse}
    requires |code| - at - 3 <= C.MaxJump
    ensures JumpTarget(C.Patch(code, at + 1) + later, at) == |code|
  {
    var c := C.Patch(code, at + 1) + later;
    var d := |code| - at - 3;
    C.SplitBytes(d);
    assert c[at] == code[at] && c[at + 1] == C.HighByte(d) && c[at + 2] == C.LowByte(d);
  }

  /**
   * The chunk of `while (true) print true;` from a later snapshot's test.
   */
  function WhileLoopChunk(): seq<Byte>
  {
    [OpTrue, OpJumpIfFalse, 0x00, 0x06, OpPop, OpTrue, OpPrint, OpLoop, 0x00, 0x0A, OpPop, OpNil, OpReturn]
  }

  /**
   * In that chunk the OP_JUMP_IF_FALSE at 1 lands on 10, past the loop,
   * and the OP_LOOP at 7 with operand 0x000A lands back on 0.
   */
  lemma WhileLoopTargets()
    ensures JumpTarget(WhileLoopChunk(), 1) == 10 && JumpTarget(WhileLoopChunk(), 7) == 0
  {
  }
}
