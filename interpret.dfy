/**
 * interpret() of src/vm.c: compile the source into a fresh chunk, answer
 * INTERPRET_COMPILER_ERR if that failed, otherwise run the chunk from its
 * first byte.
 */
module Interpreter {
  import opened Wrappers
  import opened Values
  import opened Chunks
  import opened Lexer
  import opened ParserState
  import opened Compiler
  import opened Machine

  /**
   * The values the constant pool holds for the literals of a compile:
   * `number` stands for strtod on a number's lexeme, and `intern` for the
   * handle copyString gives a string's characters.
   */
  function Pool(number: string -> Number, intern: string -> Handle, consts: seq<Literal>): (pool: seq<Value>)
    ensures |pool| == |consts|
    ensures forall i :: 0 <= i < |consts| && consts[i].NumLit? ==> pool[i] == Num(number(consts[i].text))
    ensures forall i :: 0 <= i < |consts| && consts[i].StrLit? ==> pool[i] == Obj(intern(consts[i].chars))
  {
    if consts == [] then []
    else
      var c := consts[|consts| - 1];
      Pool(number, intern, consts[..|consts| - 1]) + [if c.NumLit? then Num(number(c.text)) else Obj(intern(c.chars))]
  }

  /**
   * What interpret answers for `src` on a VM whose stack holds `stack`:
   * None where running the compiled chunk is undefined behaviour.
   */
  function Interpretation(src: string, stale: Token, nums: NumOps, number: string -> Number, intern: string -> Handle, stack: seq<Value>): Option<InterpretResult>
  {
    var (ok, p) := Compile(src, stale, [], [], 0);
    if !ok then Some(InterpretCompilerErr)
    else
      var o := RunChunk(p.code, p.lines, Pool(number, intern, p.consts), nums, State(0, stack));
      if o.Undefined? then None else Some(ResultOf(o))
  }

  /**
   * Where compile as written never returns (its statement loop is stuck on
   * a token no statement consumes), this model of interpret answers
   * INTERPRET_COMPILER_ERR, the answer of the intended compile.
   */
  lemma StuckCompile(src: string, stale: Token, nums: NumOps, number: string -> Number, intern: string -> Handle, stack: seq<Value>)
    requires CompileTokensAsWritten(src, ScanAll(src, InitState()), stale, [], [], 0).None?
    ensures Interpretation(src, stale, nums, number, intern, stack) == Some(InterpretCompilerErr)
  {
  }

  /** A fresh chunk holding `code`, their `lines` and the constant pool `pool`. */
  method Load(code: seq<Byte>, lines: seq<nat>, pool: seq<Value>) returns (chunk: Chunk)
    requires |lines| == |code|
    ensures chunk.Valid() && fresh(chunk.Repr)
    ensures chunk.Code() == code && chunk.Lines() == lines && chunk.Constants() == pool
  {
    chunk := new Chunk.Init();
    var i := 0;
    while i < |code|
      invariant 0 <= i <= |code|
      invariant chunk.Valid() && fresh(chunk.Repr)
      invariant chunk.Code() == code[..i] && chunk.Lines() == lines[..i] && chunk.Constants() == []
    {
      assert code[..i + 1] == code[..i] + [code[i]] && lines[..i + 1] == lines[..i] + [lines[i]];
      chunk.Append(code[i], lines[i]);
      i := i + 1;
    }
    var j := 0;
    while j < |pool|
      invariant 0 <= j <= |pool|
      invariant chunk.Valid() && fresh(chunk.Repr)
      invariant chunk.Code() == code && chunk.Lines() == lines && chunk.Constants() == pool[..j]
    {
      assert pool[..j + 1] == pool[..j] + [pool[j]];
      var _ := chunk.AppendConstant(pool[j]);
      j := j + 1;
    }
  }

  /**
   * interpret: `stale` is the token the global parser still holds from
   * before. The compiled bytes, their lines and the literals' values are
   * written into a fresh chunk, which is run from its first byte and then
   * freed.
   */
  method Interpret(vm: VM, src: string, stale: Token, nums: NumOps, number: string -> Number, intern: string -> Handle) returns (result: InterpretResult)
    requires vm.Valid()
    requires Interpretation(src, stale, nums, number, intern, vm.Stack()).Some?
    modifies vm, vm.stack
    ensures vm.Valid() && vm.Repr == old(vm.Repr)
    ensures Some(result) == Interpretation(src, stale, nums, number, intern, old(vm.Stack()))
  {
    var (ok, p) := Compile(src, stale, [], [], 0);
    if !ok {
      return InterpretCompilerErr;
    }
    var chunk := Load(p.code, p.lines, Pool(number, intern, p.consts));
    vm.ip := 0;
    result := vm.Run(chunk, nums);
    chunk.Free();
  }

  /** A source with nothing but blanks and comments compiles, without error, to the lone OP_RETURN. */
  lemma BlankCompile(src: string, stale: Token)
    requires ScanAll(src, InitState())[0].kind == TokEof
    ensures Compile(src, stale, [], [], 0).0
    ensures Compile(src, stale, [], [], 0).1.code == [OpReturn]
  {
    var toks := ScanAll(src, InitState());
    var p0 := Start(src, toks, stale, [], [], 0);
    var p := Advance(p0);
    assert p.cur.kind == TokEof && !p.hadError && p.code == [];
    var q := CompileLoop(p);
    assert q == Advance(p);
  }

  /** Interpreting such a source on the empty stack of a fresh VM pops that empty stack: undefined. */
  lemma BlankSource(src: string, stale: Token, nums: NumOps, number: string -> Number, intern: string -> Handle)
    requires ScanAll(src, InitState())[0].kind == TokEof
    ensures Interpretation(src, stale, nums, number, intern, []) == None
  {
    BlankCompile(src, stale);
    var p := Compile(src, stale, [], [], 0).1;
    assert Step(p.code, p.lines, Pool(number, intern, p.consts), nums, State(0, [])) == Stop(Undefined);
  }
}
