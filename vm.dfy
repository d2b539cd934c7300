/**
 * src/vm.c: a value stack of STACK_MAX slots and the dispatch loop that
 * executes a chunk. The loop is specified by a step function over the
 * instruction pointer and the stack; behaviour C leaves undefined (reading
 * past the code, popping an empty stack, pushing onto a full one, a
 * constant index past the pool) is the explicit outcome `Undefined`.
 */
module Machine {
  import opened Values
  import opened Chunks

  /** STACK_MAX of include/vm.h. */
  const StackMax: nat := 256

  datatype InterpretResult = InterpretOk | InterpretCompilerErr | InterpretRuntimeErr

  /**
   * The double arithmetic and comparisons the VM applies to number
   * payloads, as total functions.
   */
  datatype NumOps = NumOps(
    add: (Number, Number) -> Number,
    subtract: (Number, Number) -> Number,
    multiply: (Number, Number) -> Number,
    divide: (Number, Number) -> Number,
    negate: Number -> Number,
    equal: (Number, Number) -> bool,
    less: (Number, Number) -> bool,
    lessEq: (Number, Number) -> bool,
    greater: (Number, Number) -> bool,
    greaterEq: (Number, Number) -> bool)

  /** isFalsy: nil and false are falsy, every other value is truthy. */
  function IsFalsy(v: Value): (r: bool)
    ensures r <==> v == Nil || v == Bool(false)
  {
    v.Nil? || (v.Bool? && !v.b)
  }

  /** The opcodes run() executes through BINARY_OP. */
  predicate IsBinary(op: Byte)
  {
    op == OpAdd || op == OpSubtract || op == OpMultiply || op == OpDivide ||
    op == OpEq || op == OpNotEq || op == OpLess || op == OpLessEq ||
    op == OpGreater || op == OpGreaterEq
  }

  /** The value BINARY_OP pushes for `a op b`, `a` being the deeper operand. */
  function Apply(nums: NumOps, op: Byte, a: Number, b: Number): Value
    requires IsBinary(op)
  {
    if op == OpAdd then Num(nums.add(a, b))
    else if op == OpSubtract then Num(nums.subtract(a, b))
    else if op == OpMultiply then Num(nums.multiply(a, b))
    else if op == OpDivide then Num(nums.divide(a, b))
    else if op == OpEq then Bool(nums.equal(a, b))
    else if op == OpNotEq then Bool(!nums.equal(a, b))
    else if op == OpLess then Bool(nums.less(a, b))
    else if op == OpLessEq then Bool(nums.lessEq(a, b))
    else if op == OpGreater then Bool(nums.greater(a, b))
    else Bool(nums.greaterEq(a, b))
  }

  /** The registers run() works on: the instruction offset and the stack, bottom first. */
  datatype State = State(ip: nat, stack: seq<Value>)

  /**
   * How run() ends: OP_RETURN with the value it pops (and prints) and the
   * stack left below it; a runtime error with the line of the faulting
   * instruction, after which the stack is empty; an unknown instruction,
   * which leaves the stack as it was; or undefined behaviour.
   */
  datatype Outcome =
    | Returned(value: Value, rest: seq<Value>)
    | Faulted(line: nat)
    | UnknownOp(op: Byte, stack: seq<Value>)
    | Undefined

  datatype StepResult = Next(state: State) | Stop(outcome: Outcome)

  /** The InterpretResult run() returns for an outcome. */
  function ResultOf(o: Outcome): InterpretResult
    requires !o.Undefined?
  {
    match o
    case Returned(_, _) => InterpretOk
    case Faulted(_) => InterpretRuntimeErr
    case UnknownOp(_, _) => InterpretRuntimeErr
  }

  /** The stack run() leaves behind for an outcome. */
  function FinalStack(o: Outcome): seq<Value>
    requires !o.Undefined?
  {
    match o
    case Returned(_, rest) => rest
    case Faulted(_) => []
    case UnknownOp(_, stack) => stack
  }

  /** runtimeError: the line recorded for the instruction at `at`. */
  function Fault(lines: seq<nat>, at: nat): StepResult
  {
    if at < |lines| then Stop(Faulted(lines[at])) else Stop(Undefined)
  }

  /**
   * One pass of run()'s loop: read the opcode at `ip` and execute it.
   * BINARY_OP checks the top (peek(0)) before the operand below it
   * (peek(1)), so a non-number on top faults even on a one-value stack.
   */
  function Step(code: seq<Byte>, lines: seq<nat>, constants: seq<Value>, nums: NumOps, s: State): (r: StepResult)
    ensures r.Next? ==> s.ip < r.state.ip <= |code|
    ensures r.Next? && |s.stack| <= StackMax ==> |r.state.stack| <= StackMax
  {
    if s.ip >= |code| then Stop(Undefined)
    else
      var op := code[s.ip];
      var ip := s.ip + 1;
      var st := s.stack;
      var n := |st|;
      if IsBinary(op) then
        if n == 0 then Stop(Undefined)
        else if !st[n - 1].Num? then Fault(lines, s.ip)
        else if n < 2 then Stop(Undefined)
        else if !st[n - 2].Num? then Fault(lines, s.ip)
        else Next(State(ip, st[..n - 2] + [Apply(nums, op, st[n - 2].n, st[n - 1].n)]))
      else if op == OpFalse || op == OpTrue || op == OpNil then
        if n >= StackMax then Stop(Undefined)
        else Next(State(ip, st + [if op == OpFalse then Bool(false) else if op == OpTrue then Bool(true) else Nil]))
      else if op == OpNot then
        if n == 0 then Stop(Undefined)
        else Next(State(ip, st[..n - 1] + [Bool(IsFalsy(st[n - 1]))]))
      else if op == OpNegate then
        if n == 0 then Stop(Undefined)
        else if !st[n - 1].Num? then Fault(lines, s.ip)
        else Next(State(ip, st[..n - 1] + [Num(nums.negate(st[n - 1].n))]))
      else if op == OpConstant then
        if ip >= |code| || code[ip] >= |constants| || n >= StackMax then Stop(Undefined)
        else Next(State(ip + 1, st + [constants[code[ip]]]))
      else if op == OpReturn then
        if n == 0 then Stop(Undefined)
        else Stop(Returned(st[n - 1], st[..n - 1]))
      else Stop(UnknownOp(op, st))
  }

  /** run(): steps until an instruction stops the loop. */
  function RunChunk(code: seq<Byte>, lines: seq<nat>, constants: seq<Value>, nums: NumOps, s: State): Outcome
    requires s.ip <= |code|
    decreases |code| - s.ip
  {
    match Step(code, lines, constants, nums, s)
    case Next(s') => RunChunk(code, lines, constants, nums, s')
    case Stop(o) => o
  }

  /** OP_NOT replaces the top with its falsiness and keeps the depth. */
  lemma NotStep(code: seq<Byte>, lines: seq<nat>, constants: seq<Value>, nums: NumOps, s: State)
    requires s.ip < |code| && code[s.ip] == OpNot && |s.stack| > 0
    ensures var r := Step(code, lines, constants, nums, s);
      && r.Next? && r.state.ip == s.ip + 1 && |r.state.stack| == |s.stack|
      && r.state.stack[..|s.stack| - 1] == s.stack[..|s.stack| - 1]
      && r.state.stack[|s.stack| - 1] == Bool(IsFalsy(s.stack[|s.stack| - 1]))
  {
  }

  /**
   * A binary operator on two numbers pops both and pushes `a op b`, `a`
   * being the deeper one: the depth drops by exactly one.
   */
  lemma BinaryStep(code: seq<Byte>, lines: seq<nat>, constants: seq<Value>, nums: NumOps, s: State)
    requires s.ip < |code| && IsBinary(code[s.ip]) && |s.stack| >= 2
    requires s.stack[|s.stack| - 1].Num? && s.stack[|s.stack| - 2].Num?
    ensures var r := Step(code, lines, constants, nums, s);
      var n := |s.stack|;
      && r.Next? && r.state.ip == s.ip + 1 && |r.state.stack| == n - 1
      && r.state.stack[..n - 2] == s.stack[..n - 2]
      && r.state.stack[n - 2] == Apply(nums, code[s.ip], s.stack[n - 2].n, s.stack[n - 1].n)
  {
  }

  /**
   * A binary operator, OP_EQ and OP_NOT_EQ included, or OP_NEGATE faults
   * whenever an operand it inspects is not a number: run() stops with the
   * line of that instruction and an empty stack.
   */
  lemma TypeFault(code: seq<Byte>, lines: seq<nat>, constants: seq<Value>, nums: NumOps, s: State)
    requires s.ip < |code| && s.ip < |lines| && |s.stack| > 0
    requires (IsBinary(code[s.ip]) && (!s.stack[|s.stack| - 1].Num? || (|s.stack| >= 2 && !s.stack[|s.stack| - 2].Num?)))
          || (code[s.ip] == OpNegate && !s.stack[|s.stack| - 1].Num?)
    ensures Step(code, lines, constants, nums, s) == Stop(Faulted(lines[s.ip]))
    ensures RunChunk(code, lines, constants, nums, s) == Faulted(lines[s.ip])
    ensures ResultOf(Faulted(lines[s.ip])) == InterpretRuntimeErr && FinalStack(Faulted(lines[s.ip])) == []
  {
  }

  /** OP_CONSTANT pushes the constant its operand names and advances past both bytes. */
  lemma ConstantStep(code: seq<Byte>, lines: seq<nat>, constants: seq<Value>, nums: NumOps, s: State)
    requires s.ip + 1 < |code| && code[s.ip] == OpConstant
    requires code[s.ip + 1] < |constants| && |s.stack| < StackMax
    ensures Step(code, lines, constants, nums, s) == Next(State(s.ip + 2, s.stack + [constants[code[s.ip + 1]]]))
  {
  }

  /**
   * OP_RETURN pops the top and ends the run with INTERPRET_OK; an opcode
   * run() has no case for ends it with INTERPRET_RUNTIME_ERR and the stack
   * untouched.
   */
  lemma StopSteps(code: seq<Byte>, lines: seq<nat>, constants: seq<Value>, nums: NumOps, s: State)
    requires s.ip < |code|
    ensures code[s.ip] == OpReturn && |s.stack| > 0 ==>
      RunChunk(code, lines, constants, nums, s) == Returned(s.stack[|s.stack| - 1], s.stack[..|s.stack| - 1])
    ensures code[s.ip] == OpReturn && |s.stack| > 0 ==>
      ResultOf(RunChunk(code, lines, constants, nums, s)) == InterpretOk
    ensures OpPop <= code[s.ip] <= OpPrint || code[s.ip] > OpReturn ==>
      RunChunk(code, lines, constants, nums, s) == UnknownOp(code[s.ip], s.stack)
  {
  }

  /**
   * A run that starts within STACK_MAX and is defined ends with every
   * stack it leaves within STACK_MAX.
   */
  lemma {:induction false} RunStackBound(code: seq<Byte>, lines: seq<nat>, constants: seq<Value>, nums: NumOps, s: State)
    requires s.ip <= |code| && |s.stack| <= StackMax
    requires !RunChunk(code, lines, constants, nums, s).Undefined?
    ensures |FinalStack(RunChunk(code, lines, constants, nums, s))| <= StackMax
    decreases |code| - s.ip
  {
    match Step(code, lines, constants, nums, s)
    case Next(s') => RunStackBound(code, lines, constants, nums, s');
    case Stop(o) =>
  }

  /**
   * A chunk holding two constants, OP_ADD and OP_RETURN: running it
   * returns the sum of the two numbers.
   */
  lemma AddProgram(nums: NumOps, x: Number, y: Number)
    ensures RunChunk([OpConstant, 0, OpConstant, 1, OpAdd, OpReturn], [1, 1, 1, 1, 1, 1], [Num(x), Num(y)], nums, State(0, []))
         == Returned(Num(nums.add(x, y)), [])
  {
    var code: seq<Byte> := [OpConstant, 0, OpConstant, 1, OpAdd, OpReturn];
    var lines: seq<nat> := [1, 1, 1, 1, 1, 1];
    var constants := [Num(x), Num(y)];
    var s1 := State(2, [Num(x)]);
    var s2 := State(4, [Num(x), Num(y)]);
    var s3 := State(5, [Num(nums.add(x, y))]);
    assert Step(code, lines, constants, nums, s3) == Stop(Returned(Num(nums.add(x, y)), []));
    assert RunChunk(code, lines, constants, nums, s3) == Returned(Num(nums.add(x, y)), []);
    assert Step(code, lines, constants, nums, s2) == Next(s3);
    assert RunChunk(code, lines, constants, nums, s2) == RunChunk(code, lines, constants, nums, s3);
    assert Step(code, lines, constants, nums, s1) == Next(s2);
    assert RunChunk(code, lines, constants, nums, s1) == RunChunk(code, lines, constants, nums, s2);
    assert Step(code, lines, constants, nums, State(0, [])) == Next(s1);
  }

  /**
   * The VM's registers: `stack` with `stackTop` slots in use and `ip`, the
   * offset of the next byte of the chunk being run.
   */
  class VM {
    var stack: array<Value>
    var stackTop: nat
    var ip: nat
    ghost var Repr: set<object>

    ghost predicate Valid()
      reads this, Repr
      ensures Valid() ==> this in Repr
    {
      Repr == {this, stack} && stack.Length == StackMax && stackTop <= StackMax
    }

    /** The values on the stack, bottom first. */
    function Stack(): seq<Value>
      reads this, Repr
      requires Valid()
    {
      stack[..stackTop]
    }

    /** initVM: an empty stack. */
    constructor Init()
      ensures Valid() && fresh(Repr) && Stack() == [] && ip == 0
    {
      stack := new Value[StackMax](_ => Nil);
      stackTop, ip := 0, 0;
      Repr := {this, stack};
    }

    /** resetStack: `stackTop` back to the bottom. */
    method ResetStack()
      requires Valid()
      modifies this
      ensures Valid() && Repr == old(Repr) && stack == old(stack) && ip == old(ip)
      ensures Stack() == []
    {
      stackTop := 0;
    }

    /** push: stores at `stackTop` and bumps it; C does no bounds check. */
    method Push(value: Value)
      requires Valid() && stackTop < StackMax
      modifies this, stack
      ensures Valid() && Repr == old(Repr) && stack == old(stack) && ip == old(ip)
      ensures Stack() == old(Stack()) + [value]
      ensures stackTop == old(stackTop) + 1
    {
      stack[stackTop] := value;
      stackTop := stackTop + 1;
    }

    /** pop: drops `stackTop` by one and returns the value there. */
    method Pop() returns (value: Value)
      requires Valid() && stackTop > 0
      modifies this
      ensures Valid() && Repr == old(Repr) && stack == old(stack) && ip == old(ip)
      ensures value == old(Stack())[old(stackTop) - 1]
      ensures Stack() == old(Stack())[..old(stackTop) - 1]
      ensures stackTop == old(stackTop) - 1
    {
      stackTop := stackTop - 1;
      value := stack[stackTop];
    }

    /** peek: the value `dist` slots below the top, the top being 0. */
    method Peek(dist: nat) returns (value: Value)
      requires Valid() && dist < stackTop
      ensures value == Stack()[|Stack()| - 1 - dist]
    {
      value := stack[stackTop - 1 - dist];
    }

    /** `vm.stackTop[-1] = value`: overwrites the top in place. */
    method ReplaceTop(value: Value)
      requires Valid() && stackTop > 0
      modifies stack
      ensures Valid() && Stack() == old(Stack())[..stackTop - 1] + [value]
    {
      stack[stackTop - 1] := value;
      assert Stack() == old(Stack())[..stackTop - 1] + [value];
    }

    /**
     * The registers as step result `r` leaves them, and what run() then
     * does: go on from the new offset and stack, or stop with the result
     * and stack the outcome gives.
     */
    ghost predicate Took(r: StepResult, halted: bool, result: InterpretResult)
      reads this, Repr
      requires Valid()
    {
      && (r.Next? ==> !halted && ip == r.state.ip && Stack() == r.state.stack)
      && (r.Stop? ==> !r.outcome.Undefined? && halted && result == ResultOf(r.outcome) && Stack() == FinalStack(r.outcome))
    }

    /**
     * BINARY_OP: faults unless the top two values are numbers, the top
     * checked first; otherwise pops both and pushes `a op b`.
     */
    method ExecuteBinary(op: Byte, ghost code: seq<Byte>, ghost lines: seq<nat>, ghost constants: seq<Value>, nums: NumOps)
      returns (halted: bool, result: InterpretResult)
      requires Valid() && ip < |code| && code[ip] == op && IsBinary(op)
      requires Step(code, lines, constants, nums, State(ip, Stack())) != Stop(Undefined)
      modifies this, stack
      ensures Valid() && Repr == old(Repr) && stack == old(stack)
      ensures Took(Step(code, lines, constants, nums, State(old(ip), old(Stack()))), halted, result)
    {
      ip := ip + 1;
      var top := Peek(0);
      if !top.Num? {
        ResetStack();
        return true, InterpretRuntimeErr;
      }
      var below := Peek(1);
      if !below.Num? {
        ResetStack();
        return true, InterpretRuntimeErr;
      }
      var b := Pop();
      var a := Pop();
      Push(Apply(nums, op, a.n, b.n));
      return false, InterpretOk;
    }

    /** OP_FALSE, OP_TRUE and OP_NIL: push the literal. */
    method ExecuteLiteral(op: Byte, ghost code: seq<Byte>, ghost lines: seq<nat>, ghost constants: seq<Value>, nums: NumOps)
      returns (halted: bool, result: InterpretResult)
      requires Valid() && ip < |code| && code[ip] == op && (op == OpFalse || op == OpTrue || op == OpNil)
      requires Step(code, lines, constants, nums, State(ip, Stack())) != Stop(Undefined)
      modifies this, stack
      ensures Valid() && Repr == old(Repr) && stack == old(stack)
      ensures Took(Step(code, lines, constants, nums, State(old(ip), old(Stack()))), halted, result)
    {
      ip := ip + 1;
      Push(if op == OpFalse then Bool(false) else if op == OpTrue then Bool(true) else Nil);
      return false, InterpretOk;
    }

    /** OP_NOT: the top replaced in place by its falsiness. */
    method ExecuteNot(ghost code: seq<Byte>, ghost lines: seq<nat>, ghost constants: seq<Value>, nums: NumOps)
      returns (halted: bool, result: InterpretResult)
      requires Valid() && ip < |code| && code[ip] == OpNot
      requires Step(code, lines, constants, nums, State(ip, Stack())) != Stop(Undefined)
      modifies this, stack
      ensures Valid() && Repr == old(Repr) && stack == old(stack)
      ensures Took(Step(code, lines, constants, nums, State(old(ip), old(Stack()))), halted, result)
    {
      ip := ip + 1;
      var top := Peek(0);
      ReplaceTop(Bool(IsFalsy(top)));
      return false, InterpretOk;
    }

    /** OP_NEGATE: faults unless the top is a number, otherwise negates it in place. */
    method ExecuteNegate(ghost code: seq<Byte>, ghost lines: seq<nat>, ghost constants: seq<Value>, nums: NumOps)
      returns (halted: bool, result: InterpretResult)
      requires Valid() && ip < |code| && code[ip] == OpNegate
      requires Step(code, lines, constants, nums, State(ip, Stack())) != Stop(Undefined)
      modifies this, stack
      ensures Valid() && Repr == old(Repr) && stack == old(stack)
      ensures Took(Step(code, lines, constants, nums, State(old(ip), old(Stack()))), halted, result)
    {
      ip := ip + 1;
      var top := Peek(0);
      if !top.Num? {
        ResetStack();
        return true, InterpretRuntimeErr;
      }
      ReplaceTop(Num(nums.negate(top.n)));
      return false, InterpretOk;
    }

    /** OP_CONSTANT: READ_CONSTANT's operand byte names the constant pushed. */
    method ExecuteConstant(chunk: Chunk, nums: NumOps) returns (halted: bool, result: InterpretResult)
      requires Valid() && chunk.Valid() && Repr !! chunk.Repr && ip < |chunk.Code()| && chunk.Code()[ip] == OpConstant
      requires Step(chunk.Code(), chunk.Lines(), chunk.Constants(), nums, State(ip, Stack())) != Stop(Undefined)
      modifies this, stack
      ensures Valid() && Repr == old(Repr) && stack == old(stack)
      ensures Took(Step(chunk.Code(), chunk.Lines(), chunk.Constants(), nums, State(old(ip), old(Stack()))), halted, result)
    {
      ghost var constants := chunk.Constants();
      ip := ip + 1;
      var index := chunk.code[ip];
      ip := ip + 1;
      assert chunk.constants.values[index] == constants[index];
      Push(chunk.constants.values[index]);
      return false, InterpretOk;
    }

    /** OP_RETURN pops (and prints) the top and ends with INTERPRET_OK; an unknown opcode ends with INTERPRET_RUNTIME_ERR. */
    method ExecuteStop(op: Byte, ghost code: seq<Byte>, ghost lines: seq<nat>, ghost constants: seq<Value>, nums: NumOps)
      returns (halted: bool, result: InterpretResult)
      requires Valid() && ip < |code| && code[ip] == op
      requires op == OpReturn || (!IsBinary(op) && OpPop <= op && op != OpConstant)
      requires Step(code, lines, constants, nums, State(ip, Stack())) != Stop(Undefined)
      modifies this, stack
      ensures Valid() && Repr == old(Repr) && stack == old(stack)
      ensures Took(Step(code, lines, constants, nums, State(old(ip), old(Stack()))), halted, result)
    {
      ip := ip + 1;
      if op == OpReturn {
        var top := Pop();
        return true, InterpretOk;
      }
      return true, InterpretRuntimeErr;
    }

    /**
     * One pass of run()'s loop over `chunk`, as Step specifies it: the
     * opcode at `ip` is read and executed.
     */
    method Execute(chunk: Chunk, nums: NumOps) returns (halted: bool, result: InterpretResult)
      requires Valid() && chunk.Valid() && Repr !! chunk.Repr
      requires Step(chunk.Code(), chunk.Lines(), chunk.Constants(), nums, State(ip, Stack())) != Stop(Undefined)
      modifies this, stack
      ensures Valid() && Repr == old(Repr) && stack == old(stack)
      ensures Took(Step(chunk.Code(), chunk.Lines(), chunk.Constants(), nums, State(old(ip), old(Stack()))), halted, result)
    {
      ghost var code, lines, constants := chunk.Code(), chunk.Lines(), chunk.Constants();
      var op := chunk.code[ip];
      assert op == code[ip];
      if IsBinary(op) {
        halted, result := ExecuteBinary(op, code, lines, constants, nums);
      } else if op == OpFalse || op == OpTrue || op == OpNil {
        halted, result := ExecuteLiteral(op, code, lines, constants, nums);
      } else if op == OpNot {
        halted, result := ExecuteNot(code, lines, constants, nums);
      } else if op == OpNegate {
        halted, result := ExecuteNegate(code, lines, constants, nums);
      } else if op == OpConstant {
        halted, result := ExecuteConstant(chunk, nums);
      } else {
        halted, result := ExecuteStop(op, code, lines, constants, nums);
      }
    }

    /**
     * run(): executes `chunk` from `ip` until OP_RETURN, a runtime error or
     * an unknown instruction, with the result and final stack Run gives.
     */
    method Run(chunk: Chunk, nums: NumOps) returns (result: InterpretResult)
      requires Valid() && chunk.Valid() && Repr !! chunk.Repr && ip <= |chunk.Code()|
      requires !RunChunk(chunk.Code(), chunk.Lines(), chunk.Constants(), nums, State(ip, Stack())).Undefined?
      modifies this, stack
      ensures Valid() && Repr == old(Repr)
      ensures var o := RunChunk(chunk.Code(), chunk.Lines(), chunk.Constants(), nums, State(old(ip), old(Stack())));
        result == ResultOf(o) && Stack() == FinalStack(o)
    {
      ghost var o := RunChunk(chunk.Code(), chunk.Lines(), chunk.Constants(), nums, State(ip, Stack()));
      while true
        invariant Valid() && Repr == old(Repr) && ip <= |chunk.Code()|
        invariant RunChunk(chunk.Code(), chunk.Lines(), chunk.Constants(), nums, State(ip, Stack())) == o
        decreases |chunk.Code()| - ip
      {
        var halted;
        halted, result := Execute(chunk, nums);
        if halted {
          return;
        }
      }
    }
  }
}
