/**
 * What the precedence functions of src/compiler.c emit for short runs of
 * tokens: each binary level is left-associative, a tighter operator's
 * instruction comes before a looser one's whichever is written first,
 * and `&&` and `||` jump over exactly their right operand.
 */
module Precedence {
  import opened Chunks
  import opened Lexer
  import opened ParserState
  import opened Compiler

  /** The kind of the token `k` places after the last one the scanner handed out; TOK_EOF past the stream. */
  function Ahead(p: PState, k: nat): TokKind
  {
    if p.next + k < |p.input.toks| then p.input.toks[p.next + k].kind else TokEof
  }

  /** A token that ends an expression of `level`: a real one, not TOK_EOF, and no operator up to `level`. */
  predicate Ends(k: TokKind, level: nat)
  {
    k != TokErr && k != TokEof && StopsLevel(level, k)
  }

  /** advance onto a real token other than TOK_EOF: it becomes current, and one more is handed out. */
  lemma AdvanceNext(p: Parser)
    requires Ahead(p, 0) != TokErr && Ahead(p, 0) != TokEof
    ensures Advance(p).next == p.next + 1 && Advance(p).cur == p.input.toks[p.next]
    ensures Advance(p).cur.kind == Ahead(p, 0)
  {
  }

  /** The number literal of the current token. */
  function NumberLit(p: Parser): Literal
  {
    NumLit(LexemeText(p.input.src, p.cur))
  }

  /** `q` after `lit` joined the pool and OP_CONSTANT with its index was emitted. */
  function Constant(q: PState, lit: Literal): PState
    requires q.base + |q.consts| <= MaxConstantIndex
  {
    q.(code := q.code + [OpConstant, q.base + |q.consts|], lines := q.lines + [q.prev.line, q.prev.line], consts := q.consts + [lit])
  }

  /** `q` after emitByte of `b`. */
  function Emitted(q: PState, b: Byte): PState
  {
    q.(code := q.code + [b], lines := q.lines + [q.prev.line])
  }

  /** primary's number case: the lexeme joins the pool and OP_CONSTANT with its index is emitted. */
  lemma MatchedNumber(q: Parser)
    requires q.prev.kind == TokNumber && WellFormedToken(q.input.src, q.prev)
    requires q.base + |q.consts| <= MaxConstantIndex
    ensures Matched(q) == Constant(q, NumLit(LexemeText(q.input.src, q.prev)))
  {
    MatchedIsNumber(q);
    ConstantIs(q, NumLit(LexemeText(q.input.src, q.prev)));
  }

  /** primary on a number is number. */
  lemma MatchedIsNumber(q: Parser)
    requires q.prev.kind == TokNumber && WellFormedToken(q.input.src, q.prev)
    ensures Matched(q) == EmitConstant(q, NumLit(LexemeText(q.input.src, q.prev)))
  {
    assert Matched(q) == Number(q);
  }

  /** emitConstant with room for the index. */
  lemma ConstantIs(q: Parser, lit: Literal)
    requires q.base + |q.consts| <= MaxConstantIndex
    ensures EmitConstant(q, lit) == Constant(q, lit)
  {
    assert EmitConstant(q, lit) == EmitBytes(AddLiteral(q, lit), OpConstant, q.base + |q.consts|);
  }

  /** A number as a unary: advance past it, then its constant. */
  lemma UnaryNumber(p: Parser)
    requires p.cur.kind == TokNumber && p.base + |p.consts| <= MaxConstantIndex
    ensures Unary(p) == Constant(Advance(p), NumberLit(p))
  {
    var q := Advance(p);
    MatchedNumber(q);
    assert Unary(p) == Matched(q);
    assert NumberLit(p) == NumLit(LexemeText(q.input.src, q.prev));
  }

  /** A level whose operand stops where its loop finds no operator is that operand. */
  lemma LevelOver(p: Parser, lower: nat)
    requires lower + 1 <= 6 && StopsLevel(lower + 1, Level(p, lower).cur.kind)
    ensures Level(p, lower + 1) == Level(p, lower)
  {
    assert !IsOperatorAt(lower + 1, Level(p, lower).cur.kind);
  }

  /** Levels `lo` to `hi` agree when the expression of `lo` stops where `hi` also stops. */
  lemma {:induction false} LevelsAbove(p: Parser, lo: nat, hi: nat)
    requires lo <= hi <= 6 && StopsLevel(hi, Level(p, lo).cur.kind)
    ensures Level(p, hi) == Level(p, lo)
    decreases 6 - lo
  {
    if lo < hi {
      OneAbove(p, lo, hi);
      LevelsAbove(p, lo + 1, hi);
    }
  }

  /** The level just above `lo` is the same expression, so it too stops where `hi` stops. */
  lemma OneAbove(p: Parser, lo: nat, hi: nat)
    requires lo < hi <= 6 && StopsLevel(hi, Level(p, lo).cur.kind)
    ensures Level(p, lo + 1) == Level(p, lo) && StopsLevel(hi, Level(p, lo + 1).cur.kind)
  {
    LevelOver(p, lo);
  }

  /** A number followed by a token where `level` stops: an expression of `level` that is just its constant. */
  lemma NumberOperand(q: Parser, level: nat)
    requires level <= 6 && q.cur.kind == TokNumber && q.base + |q.consts| <= MaxConstantIndex
    requires Ends(Ahead(q, 0), level)
    ensures Level(q, level) == Constant(Advance(q), NumberLit(q))
  {
    UnaryNumber(q);
    AdvanceNext(q);
    assert Level(q, 0) == Unary(q);
    LevelsAbove(q, 0, level);
  }

  /** `d` tokens further on, the token `k` ahead is the one `j` = `d + k` ahead before. */
  lemma AheadFrom(q: PState, r: PState, d: nat, k: nat, j: nat)
    requires r.input == q.input && r.next == q.next + d && j == d + k && q.next + j < |q.input.toks|
    ensures Ahead(r, k) == Ahead(q, j)
  {
  }

  /** The index the next constant gets: the constants the chunk held before plus those added. */
  function Slot(q: PState): nat
  {
    q.base + |q.consts|
  }

  /** The literal the number token at `j` stands for. */
  function Lit(input: Stream, j: nat): Literal
  {
    if j < |input.toks| && input.toks[j].lexeme.Source? && input.toks[j].lexeme.start + input.toks[j].len <= |input.src|
    then NumLit(LexemeText(input.src, input.toks[j]))
    else NumLit("")
  }

  /**
   * `r` is `q` after `d` more tokens were handed out, the last of them now
   * current, with `code` emitted and `lits` added to the pool.
   */
  predicate After(q: PState, r: PState, code: seq<Byte>, lits: seq<Literal>, d: nat)
  {
    && r.input == q.input && r.base == q.base
    && r.code == q.code + code && r.consts == q.consts + lits
    && 0 < d && r.next == q.next + d && q.next + d <= |q.input.toks|
    && r.cur == q.input.toks[q.next + d - 1]
  }

  /** A current token other than TOK_EOF, the last one handed out, is the one at `j`. */
  lemma CurIsLast(p: Parser, j: nat)
    requires p.cur.kind != TokEof && j + 1 == p.next
    ensures p.cur == p.input.toks[j]
  {
  }

  /** An operator of the level above `lower` ends an expression of `lower`. */
  lemma OperatorEnds(k: TokKind, lower: nat)
    requires IsOperatorAt(lower + 1, k)
    ensures Ends(k, lower)
  {
  }

  /** advance onto a real token other than TOK_EOF hands out one token and emits nothing. */
  lemma AdvanceAfter(p: Parser)
    requires Ahead(p, 0) != TokErr && Ahead(p, 0) != TokEof
    ensures After(p, Advance(p), [], [], 1)
  {
    AdvanceNext(p);
  }

  /** A constant emitted after tokens that emitted nothing. */
  lemma ConstantAfter(q: PState, x: PState, lit: Literal, d: nat)
    requires After(q, x, [], [], d) && Slot(q) <= MaxConstantIndex
    ensures After(q, Constant(x, lit), [OpConstant, Slot(q)], [lit], d)
  {
    assert x.code == q.code && x.consts == q.consts;
  }

  /** A number, the current token at `j`, as an expression of a level it ends: one token on, its constant emitted. */
  lemma NumberAfter(p: Parser, lower: nat, j: nat)
    requires lower <= 6 && p.cur.kind == TokNumber && j < |p.input.toks| && p.cur == p.input.toks[j]
    requires Slot(p) <= MaxConstantIndex && p.next < |p.input.toks| && Ends(Ahead(p, 0), lower)
    ensures After(p, Level(p, lower), [OpConstant, Slot(p)], [Lit(p.input, j)], 1)
    ensures Slot(Level(p, lower)) == Slot(p) + 1
  {
    NumberOperand(p, lower);
    AdvanceAfter(p);
    ConstantAfter(p, Advance(p), NumberLit(p), 1);
  }

  /** After an operator: the operator and its right operand, the number at `j`, in terms of the state before the operator. */
  lemma EmitAfter(q: PState, a: PState, n: Parser, j: nat, op: Byte)
    requires j < |q.input.toks| && q.input.toks[j].kind == TokNumber && Slot(q) <= MaxConstantIndex
    requires After(q, a, [], [], 1) && After(a, n, [OpConstant, Slot(a)], [Lit(a.input, j)], 1)
    ensures After(q, EmitByte(n, op), [OpConstant, Slot(q), op], [Lit(q.input, j)], 2)
  {
    assert a.code == q.code && a.consts == q.consts;
  }

  /** A round of a binary level: the operator is advanced past, the level below parsed, and the operator's instruction emitted. */
  lemma BinaryStepIs(q: Parser, lower: nat)
    requires lower + 1 <= 4 && IsOperatorAt(lower + 1, q.cur.kind)
    ensures BinaryStep(q, lower + 1) == EmitByte(Level(Advance(q), lower), BinaryOpcode(q.cur.kind))
  {
  }

  /**
   * One round of a binary level's loop whose right operand is a number
   * followed by a token where the level below stops: past the operator and
   * the number, the number's constant, then the operator's instruction.
   */
  lemma BinaryRound(q: Parser, lower: nat, j: nat)
    requires lower + 1 <= 4 && IsOperatorAt(lower + 1, q.cur.kind)
    requires q.next + 1 < |q.input.toks| && Ahead(q, 0) == TokNumber && Ends(Ahead(q, 1), lower)
    requires Slot(q) <= MaxConstantIndex && j == q.next
    ensures After(q, BinaryStep(q, lower + 1), [OpConstant, Slot(q), BinaryOpcode(q.cur.kind)], [Lit(q.input, j)], 2)
  {
    BinaryStepIs(q, lower);
    var a := Advance(q);
    AdvanceAfter(q);
    AheadFrom(q, a, 1, 0, 1);
    NumberAfter(a, lower, j);
    EmitAfter(q, a, Level(a, lower), j, BinaryOpcode(q.cur.kind));
  }

  /** An expression of a level: an operand of the level below, then the level's loop. */
  lemma LevelIs(p: Parser, lower: nat)
    requires lower + 1 <= 6
    ensures Level(p, lower + 1) == Loop(Level(p, lower), lower + 1)
  {
  }

  /** The loop at one of its operators: a round, then the loop again. */
  lemma LoopIs(q: Parser, level: nat)
    requires 1 <= level <= 4 && IsOperatorAt(level, q.cur.kind)
    ensures Loop(q, level) == Loop(BinaryStep(q, level), level)
  {
  }

  /** A loop with one round: the round leaves the parser on a token that is not the level's operator. */
  lemma LoopOnce(q: Parser, lower: nat)
    requires lower + 1 <= 4 && IsOperatorAt(lower + 1, q.cur.kind)
    requires q.next + 1 < |q.input.toks| && Ahead(q, 0) == TokNumber && Ends(Ahead(q, 1), lower)
    requires Slot(q) <= MaxConstantIndex && !IsOperatorAt(lower + 1, Ahead(q, 1))
    ensures Loop(q, lower + 1) == BinaryStep(q, lower + 1)
  {
    LoopIs(q, lower + 1);
    BinaryRound(q, lower, q.next);
  }

  /** Where the parser is after a run of `After`: on the token `j`. */
  lemma CurFrom(q: PState, r: PState, code: seq<Byte>, lits: seq<Literal>, d: nat, j: nat)
    requires After(q, r, code, lits, d) && j + 1 == q.next + d
    ensures r.cur == q.input.toks[j]
  {
  }

  /** A token where a level stops also stops every level below it. */
  lemma EndsBelow(k: TokKind, lo: nat, hi: nat)
    requires lo <= hi && Ends(k, hi)
    ensures Ends(k, lo)
  {
  }

  /** A number before an operator of the level above `lower`: its constant, and the parser on the operator. */
  lemma FirstNumber(p: Parser, lower: nat, j: nat)
    requires lower + 1 <= 6 && p.cur.kind == TokNumber && j + 1 == p.next && p.next < |p.input.toks|
    requires IsOperatorAt(lower + 1, Ahead(p, 0)) && Slot(p) <= MaxConstantIndex
    ensures After(p, Level(p, lower), [OpConstant, Slot(p)], [Lit(p.input, j)], 1)
    ensures Slot(Level(p, lower)) == Slot(p) + 1
  {
    CurIsLast(p, j);
    OperatorEnds(Ahead(p, 0), lower);
    NumberAfter(p, lower, j);
  }

  /** Past a first number, the one at `j`: the parser on the token after it, and the two tokens ahead one further on. */
  lemma SingleSetup(p: PState, n: PState, j: nat)
    requires j < |p.input.toks| && p.input.toks[j].kind == TokNumber && Slot(p) <= MaxConstantIndex
    requires After(p, n, [OpConstant, Slot(p)], [Lit(p.input, j)], 1) && p.next + 2 < |p.input.toks|
    ensures n.cur.kind == Ahead(p, 0) && n.next + 1 < |n.input.toks| && n.next == p.next + 1 && Slot(n) == Slot(p) + 1
    ensures Ahead(n, 0) == Ahead(p, 1) && Ahead(n, 1) == Ahead(p, 2)
  {
    CurFrom(p, n, [OpConstant, Slot(p)], [Lit(p.input, j)], 1, p.next);
    AheadFrom(p, n, 1, 0, 1);
    AheadFrom(p, n, 1, 1, 2);
  }

  /** Past a first number, the one at `j`: the parser on the token after it, and the four tokens ahead one further on. */
  lemma FirstSetup(p: PState, n: PState, j: nat)
    requires j < |p.input.toks| && p.input.toks[j].kind == TokNumber && Slot(p) <= MaxConstantIndex
    requires After(p, n, [OpConstant, Slot(p)], [Lit(p.input, j)], 1) && p.next + 4 < |p.input.toks|
    ensures n.cur.kind == Ahead(p, 0) && n.next + 3 < |n.input.toks| && n.next == p.next + 1 && Slot(n) == Slot(p) + 1
    ensures Ahead(n, 0) == Ahead(p, 1) && Ahead(n, 1) == Ahead(p, 2) && Ahead(n, 2) == Ahead(p, 3) && Ahead(n, 3) == Ahead(p, 4)
  {
    SingleSetup(p, n, j);
    AheadFrom(p, n, 1, 2, 3);
    AheadFrom(p, n, 1, 3, 4);
  }

  /** The last round of a loop, the number at `j`: the loop ends after it, on a token that is not the level's operator. */
  lemma LastRound(b: Parser, lower: nat, j: nat)
    requires lower + 1 <= 4 && IsOperatorAt(lower + 1, b.cur.kind) && b.next + 1 < |b.input.toks| && j == b.next
    requires Ahead(b, 0) == TokNumber && Ends(Ahead(b, 1), lower + 1) && Slot(b) <= MaxConstantIndex
    ensures After(b, Loop(b, lower + 1), [OpConstant, Slot(b), BinaryOpcode(b.cur.kind)], [Lit(b.input, j)], 2)
  {
    LoopOnce(b, lower);
    BinaryRound(b, lower, j);
  }

  /** A number's constant, then a round with the next one; the numbers at `j` and `j + 2`, the parser on the token after them. */
  lemma SingleGlue(p: PState, n: PState, r: PState, op: Byte, j: nat)
    requires j + 2 < |p.input.toks| && p.input.toks[j].kind == TokNumber && p.input.toks[j + 2].kind == TokNumber
    requires Slot(p) + 1 <= MaxConstantIndex && After(p, n, [OpConstant, Slot(p)], [Lit(p.input, j)], 1)
    requires After(n, r, [OpConstant, Slot(n), op], [Lit(n.input, j + 2)], 2) && j + 1 == p.next
    ensures After(p, r, [OpConstant, Slot(p), OpConstant, Slot(p) + 1, op], [Lit(p.input, j), Lit(p.input, j + 2)], 3)
    ensures r.cur.kind == Ahead(p, 2)
  {
    assert r.code == p.code + [OpConstant, Slot(p)] + [OpConstant, Slot(n), op];
    assert r.consts == p.consts + [Lit(p.input, j)] + [Lit(p.input, j + 2)];
  }

  /** Both rounds of `a op b` past the first number's constant, `n` the parser then. */
  lemma SingleFrom(p: Parser, n: Parser, lower: nat, j: nat)
    requires lower + 1 <= 4 && p.cur.kind == TokNumber && j + 1 == p.next && p.next + 2 < |p.input.toks|
    requires IsOperatorAt(lower + 1, Ahead(p, 0)) && Ahead(p, 1) == TokNumber && Ends(Ahead(p, 2), lower + 1)
    requires Slot(p) + 1 <= MaxConstantIndex
    requires After(p, n, [OpConstant, Slot(p)], [Lit(p.input, j)], 1) && Slot(n) == Slot(p) + 1
    ensures After(p, Loop(n, lower + 1), [OpConstant, Slot(p), OpConstant, Slot(p) + 1, BinaryOpcode(Ahead(p, 0))],
                  [Lit(p.input, j), Lit(p.input, j + 2)], 3)
    ensures Loop(n, lower + 1).cur.kind == Ahead(p, 2)
  {
    SingleSetup(p, n, j);
    LastRound(n, lower, j + 2);
    SingleGlue(p, n, Loop(n, lower + 1), BinaryOpcode(Ahead(p, 0)), j);
  }

  /**
   * `a op b` of numbers, `a` the current token at `j` and the operator of
   * the level `lower + 1`, followed by a token where that level stops:
   * both constants, then the operator's instruction, and the parser on
   * that token.
   */
  lemma Single(p: Parser, lower: nat, j: nat)
    requires lower + 1 <= 4 && p.cur.kind == TokNumber && j + 1 == p.next && p.next + 2 < |p.input.toks|
    requires IsOperatorAt(lower + 1, Ahead(p, 0)) && Ahead(p, 1) == TokNumber && Ends(Ahead(p, 2), lower + 1)
    requires Slot(p) + 1 <= MaxConstantIndex
    ensures After(p, Level(p, lower + 1), [OpConstant, Slot(p), OpConstant, Slot(p) + 1, BinaryOpcode(Ahead(p, 0))],
                  [Lit(p.input, j), Lit(p.input, j + 2)], 3)
    ensures Level(p, lower + 1).cur.kind == Ahead(p, 2)
  {
    LevelIs(p, lower);
    FirstNumber(p, lower, j);
    SingleFrom(p, Level(p, lower), lower, j);
  }

  /**
   * The same as an expression of a level `hi` at or above the operator's
   * `lower + 1`, when the token after `b` stops `hi` too.
   */
  lemma SingleAbove(a: Parser, lower: nat, hi: nat, j: nat)
    requires lower + 1 <= hi <= 3 && a.cur.kind == TokNumber && j + 1 == a.next && a.next + 2 < |a.input.toks|
    requires IsOperatorAt(lower + 1, Ahead(a, 0)) && Ahead(a, 1) == TokNumber && Ends(Ahead(a, 2), hi)
    requires Slot(a) + 1 <= MaxConstantIndex
    ensures After(a, Level(a, hi), [OpConstant, Slot(a), OpConstant, Slot(a) + 1, BinaryOpcode(Ahead(a, 0))],
                  [Lit(a.input, j), Lit(a.input, j + 2)], 3)
  {
    EndsBelow(Ahead(a, 2), lower + 1, hi);
    Single(a, lower, j);
    LevelsAbove(a, lower + 1, hi);
  }

  /** After the first of two rounds, the number at `j`: the parser on the second operator, the number and the stopping token still ahead. */
  lemma SecondSetup(n: PState, b: PState, op: Byte, j: nat)
    requires j < |n.input.toks| && n.input.toks[j].kind == TokNumber && Slot(n) <= MaxConstantIndex
    requires After(n, b, [OpConstant, Slot(n), op], [Lit(n.input, j)], 2) && n.next + 3 < |n.input.toks|
    ensures b.cur.kind == Ahead(n, 1) && b.next + 1 < |b.input.toks| && b.next == n.next + 2
    ensures Ahead(b, 0) == Ahead(n, 2) && Ahead(b, 1) == Ahead(n, 3) && Slot(b) == Slot(n) + 1
  {
    CurFrom(n, b, [OpConstant, Slot(n), op], [Lit(n.input, j)], 2, n.next + 1);
    AheadFrom(n, b, 2, 0, 2);
    AheadFrom(n, b, 2, 1, 3);
  }

  /** A round whose right operand is `b op c`: both constants, op's instruction `x`, then the round's `y`. */
  function TightCode(s: nat, x: Byte, y: Byte): seq<Byte>
    requires s + 1 <= MaxConstantIndex
  {
    [OpConstant, s, OpConstant, s + 1, x, y]
  }

  /** `(a op1 b) op2 c`: the first two constants, op1's instruction `x`, the third constant, op2's `y`. */
  function LeftCode(s: nat, x: Byte, y: Byte): seq<Byte>
    requires s + 2 <= MaxConstantIndex
  {
    [OpConstant, s, OpConstant, s + 1, x, OpConstant, s + 2, y]
  }

  /** `a op1 (b op2 c)`: the three constants, op2's instruction `x`, then op1's `y`. */
  function TripleCode(s: nat, x: Byte, y: Byte): seq<Byte>
    requires s + 2 <= MaxConstantIndex
  {
    [OpConstant, s, OpConstant, s + 1, OpConstant, s + 2, x, y]
  }

  /** Two rounds, each a constant and an operator: the constants at `s` and `s + 1`. */
  function RoundsCode(s: nat, x: Byte, y: Byte): seq<Byte>
    requires s + 1 <= MaxConstantIndex
  {
    [OpConstant, s, x, OpConstant, s + 1, y]
  }

  /** Two rounds, each the constant of its number, at `j` and `j + 2`, and its operator's instruction. */
  lemma RoundsGlue(n: PState, b: PState, r: PState, x: Byte, y: Byte, j: nat)
    requires j + 2 < |n.input.toks| && n.input.toks[j].kind == TokNumber && n.input.toks[j + 2].kind == TokNumber
    requires Slot(n) + 1 <= MaxConstantIndex && After(n, b, [OpConstant, Slot(n), x], [Lit(n.input, j)], 2)
    requires After(b, r, [OpConstant, Slot(b), y], [Lit(b.input, j + 2)], 2)
    ensures After(n, r, RoundsCode(Slot(n), x, y), [Lit(n.input, j), Lit(n.input, j + 2)], 4)
  {
    assert r.code == n.code + [OpConstant, Slot(n), x] + [OpConstant, Slot(b), y];
    assert r.consts == n.consts + [Lit(n.input, j)] + [Lit(n.input, j + 2)];
  }

  /**
   * The first of two rounds: its constant and instruction, and the parser
   * left on the second operator with a number and a stopping token ahead.
   */
  lemma FirstRound(n: Parser, lower: nat, j: nat)
    requires lower + 1 <= 4 && IsOperatorAt(lower + 1, n.cur.kind) && n.next + 3 < |n.input.toks| && j == n.next
    requires Ahead(n, 0) == TokNumber && IsOperatorAt(lower + 1, Ahead(n, 1)) && Slot(n) <= MaxConstantIndex
    ensures After(n, BinaryStep(n, lower + 1), [OpConstant, Slot(n), BinaryOpcode(n.cur.kind)], [Lit(n.input, j)], 2)
    ensures var b := BinaryStep(n, lower + 1);
      && b.cur.kind == Ahead(n, 1) && b.next + 1 < |b.input.toks| && b.next == j + 2
      && Ahead(b, 0) == Ahead(n, 2) && Ahead(b, 1) == Ahead(n, 3) && Slot(b) == Slot(n) + 1
  {
    OperatorEnds(Ahead(n, 1), lower);
    BinaryRound(n, lower, j);
    SecondSetup(n, BinaryStep(n, lower + 1), BinaryOpcode(n.cur.kind), j);
  }

  /** The second of two rounds, `b` the parser after the first. */
  lemma TwoFrom(n: Parser, b: Parser, lower: nat, j: nat)
    requires lower + 1 <= 4 && IsOperatorAt(lower + 1, n.cur.kind) && n.next + 3 < |n.input.toks| && j == n.next
    requires Ahead(n, 0) == TokNumber && IsOperatorAt(lower + 1, Ahead(n, 1)) && Ahead(n, 2) == TokNumber
    requires Ends(Ahead(n, 3), lower + 1) && Slot(n) + 1 <= MaxConstantIndex
    requires After(n, b, [OpConstant, Slot(n), BinaryOpcode(n.cur.kind)], [Lit(n.input, j)], 2)
    requires b.cur.kind == Ahead(n, 1) && b.next + 1 < |b.input.toks| && b.next == j + 2
    requires Ahead(b, 0) == Ahead(n, 2) && Ahead(b, 1) == Ahead(n, 3) && Slot(b) == Slot(n) + 1
    ensures After(n, Loop(b, lower + 1), RoundsCode(Slot(n), BinaryOpcode(n.cur.kind), BinaryOpcode(Ahead(n, 1))),
                  [Lit(n.input, j), Lit(n.input, j + 2)], 4)
  {
    LastRound(b, lower, j + 2);
    RoundsGlue(n, b, Loop(b, lower + 1), BinaryOpcode(n.cur.kind), BinaryOpcode(Ahead(n, 1)), j);
  }

  /**
   * The loop of the level `lower + 1` at an operator of that level, with
   * a number, a second operator of the level, a number and a token where
   * the level stops ahead: two rounds, the first operator's first.
   */
  lemma TwoRounds(n: Parser, lower: nat, j: nat)
    requires lower + 1 <= 4 && IsOperatorAt(lower + 1, n.cur.kind) && n.next + 3 < |n.input.toks| && j == n.next
    requires Ahead(n, 0) == TokNumber && IsOperatorAt(lower + 1, Ahead(n, 1)) && Ahead(n, 2) == TokNumber
    requires Ends(Ahead(n, 3), lower + 1) && Slot(n) + 1 <= MaxConstantIndex
    ensures After(n, Loop(n, lower + 1), RoundsCode(Slot(n), BinaryOpcode(n.cur.kind), BinaryOpcode(Ahead(n, 1))),
                  [Lit(n.input, j), Lit(n.input, j + 2)], 4)
  {
    FirstRound(n, lower, j);
    LoopIs(n, lower + 1);
    TwoFrom(n, BinaryStep(n, lower + 1), lower, j);
  }

  /** The first number's constant, then two rounds; the numbers at `j`, `j + 2` and `j + 4`. */
  lemma LeftGlue(p: PState, n: PState, r: PState, x: Byte, y: Byte, j: nat)
    requires j + 4 < |p.input.toks| && p.input.toks[j].kind == TokNumber && p.input.toks[j + 2].kind == TokNumber
    requires p.input.toks[j + 4].kind == TokNumber && Slot(p) + 2 <= MaxConstantIndex
    requires After(p, n, [OpConstant, Slot(p)], [Lit(p.input, j)], 1)
    requires After(n, r, RoundsCode(Slot(n), x, y), [Lit(n.input, j + 2), Lit(n.input, j + 4)], 4)
    ensures After(p, r, LeftCode(Slot(p), x, y),
                  [Lit(p.input, j), Lit(p.input, j + 2), Lit(p.input, j + 4)], 5)
  {
    assert r.code == p.code + [OpConstant, Slot(p)] + [OpConstant, Slot(n), x, OpConstant, Slot(n) + 1, y];
    assert r.consts == p.consts + [Lit(p.input, j)] + [Lit(p.input, j + 2), Lit(p.input, j + 4)];
  }

  /** Both operators of `a op1 b op2 c` past the first number's constant, `n` the parser then. */
  lemma LeftFrom(p: Parser, n: Parser, lower: nat, j: nat)
    requires lower + 1 <= 4 && p.cur.kind == TokNumber && j + 1 == p.next && p.next + 4 < |p.input.toks|
    requires IsOperatorAt(lower + 1, Ahead(p, 0)) && Ahead(p, 1) == TokNumber && IsOperatorAt(lower + 1, Ahead(p, 2))
    requires Ahead(p, 3) == TokNumber && Ends(Ahead(p, 4), lower + 1) && Slot(p) + 2 <= MaxConstantIndex
    requires After(p, n, [OpConstant, Slot(p)], [Lit(p.input, j)], 1) && Slot(n) == Slot(p) + 1
    ensures After(p, Loop(n, lower + 1),
                  LeftCode(Slot(p), BinaryOpcode(Ahead(p, 0)), BinaryOpcode(Ahead(p, 2))),
                  [Lit(p.input, j), Lit(p.input, j + 2), Lit(p.input, j + 4)], 5)
  {
    FirstSetup(p, n, j);
    TwoRounds(n, lower, j + 2);
    LeftGlue(p, n, Loop(n, lower + 1), BinaryOpcode(Ahead(p, 0)), BinaryOpcode(Ahead(p, 2)), j);
  }

  /**
   * Left associativity: `a op1 b op2 c` of numbers, `a` the current token
   * at `j` and both operators of the level `lower + 1`, followed by a
   * token where that level stops, is `(a op1 b) op2 c`: the constants of
   * `a` and `b`, op1's instruction, the constant of `c`, then op2's.
   */
  lemma LeftAssociative(p: Parser, lower: nat, j: nat)
    requires lower + 1 <= 4 && p.cur.kind == TokNumber && j + 1 == p.next && p.next + 4 < |p.input.toks|
    requires IsOperatorAt(lower + 1, Ahead(p, 0)) && Ahead(p, 1) == TokNumber && IsOperatorAt(lower + 1, Ahead(p, 2))
    requires Ahead(p, 3) == TokNumber && Ends(Ahead(p, 4), lower + 1) && Slot(p) + 2 <= MaxConstantIndex
    ensures After(p, Level(p, lower + 1),
                  LeftCode(Slot(p), BinaryOpcode(Ahead(p, 0)), BinaryOpcode(Ahead(p, 2))),
                  [Lit(p.input, j), Lit(p.input, j + 2), Lit(p.input, j + 4)], 5)
  {
    LevelIs(p, lower);
    FirstNumber(p, lower, j);
    LeftFrom(p, Level(p, lower), lower, j);
  }

  /** After advancing onto a number: the tokens ahead are those one further on. */
  lemma AdvanceSetup(q: PState, a: PState)
    requires After(q, a, [], [], 1) && q.next + 3 < |q.input.toks|
    ensures a.cur.kind == Ahead(q, 0) && a.next + 2 < |a.input.toks| && a.next == q.next + 1 && Slot(a) == Slot(q)
    ensures Ahead(a, 0) == Ahead(q, 1) && Ahead(a, 1) == Ahead(q, 2) && Ahead(a, 2) == Ahead(q, 3)
  {
    CurFrom(q, a, [], [], 1, q.next);
    AheadFrom(q, a, 1, 0, 1);
    AheadFrom(q, a, 1, 1, 2);
    AheadFrom(q, a, 1, 2, 3);
  }

  /** An operator, then an expression of three tokens: the operand's code, then the operator's instruction. */
  lemma TightGlue(q: Parser, a: PState, m: Parser, j: nat)
    requires j + 2 < |q.input.toks| && q.input.toks[j].kind == TokNumber && q.input.toks[j + 2].kind == TokNumber
    requires Slot(q) + 1 <= MaxConstantIndex && After(q, a, [], [], 1) && q.next + 3 < |q.input.toks|
    requires After(a, m, [OpConstant, Slot(q), OpConstant, Slot(q) + 1, BinaryOpcode(Ahead(q, 1))], [Lit(a.input, j), Lit(a.input, j + 2)], 3)
    ensures After(q, EmitByte(m, BinaryOpcode(q.cur.kind)), TightCode(Slot(q), BinaryOpcode(Ahead(q, 1)), BinaryOpcode(q.cur.kind)), [Lit(q.input, j), Lit(q.input, j + 2)], 4)
    ensures EmitByte(m, BinaryOpcode(q.cur.kind)).cur.kind == Ahead(q, 3)
  {
    assert a.code == q.code && a.consts == q.consts;
  }

  /** Past the operator of a round of the level `hi + 1`, `a` the parser then: the tighter `b op c`, then the round's instruction. */
  lemma TightFrom(n: Parser, a: Parser, lower: nat, hi: nat, j: nat)
    requires lower + 1 <= hi <= 3 && IsOperatorAt(hi + 1, n.cur.kind) && n.next + 3 < |n.input.toks| && j == n.next
    requires Ahead(n, 0) == TokNumber && IsOperatorAt(lower + 1, Ahead(n, 1)) && Ahead(n, 2) == TokNumber
    requires Ends(Ahead(n, 3), hi + 1) && Slot(n) + 1 <= MaxConstantIndex && After(n, a, [], [], 1)
    ensures After(n, EmitByte(Level(a, hi), BinaryOpcode(n.cur.kind)), TightCode(Slot(n), BinaryOpcode(Ahead(n, 1)), BinaryOpcode(n.cur.kind)),
                  [Lit(n.input, j), Lit(n.input, j + 2)], 4)
    ensures EmitByte(Level(a, hi), BinaryOpcode(n.cur.kind)).cur.kind == Ahead(n, 3)
  {
    AdvanceSetup(n, a);
    EndsBelow(Ahead(n, 3), hi, hi + 1);
    SingleAbove(a, lower, hi, j);
    TightGlue(n, a, Level(a, hi), j);
  }

  /**
   * A round of the level `hi + 1` whose right operand is `b op c` with a
   * tighter operator, of the level `lower + 1`: that operand's code in
   * full, then the round's operator.
   */
  lemma TightRound(n: Parser, lower: nat, hi: nat, j: nat)
    requires lower + 1 <= hi <= 3 && IsOperatorAt(hi + 1, n.cur.kind) && n.next + 3 < |n.input.toks| && j == n.next
    requires Ahead(n, 0) == TokNumber && IsOperatorAt(lower + 1, Ahead(n, 1)) && Ahead(n, 2) == TokNumber
    requires Ends(Ahead(n, 3), hi + 1) && Slot(n) + 1 <= MaxConstantIndex
    ensures After(n, BinaryStep(n, hi + 1), TightCode(Slot(n), BinaryOpcode(Ahead(n, 1)), BinaryOpcode(n.cur.kind)),
                  [Lit(n.input, j), Lit(n.input, j + 2)], 4)
    ensures BinaryStep(n, hi + 1).cur.kind == Ahead(n, 3)
  {
    BinaryStepIs(n, hi);
    AdvanceAfter(n);
    TightFrom(n, Advance(n), lower, hi, j);
  }

  /** The loop of the level `hi + 1` ends after that round. */
  lemma TightLoop(n: Parser, lower: nat, hi: nat, j: nat)
    requires lower + 1 <= hi <= 3 && IsOperatorAt(hi + 1, n.cur.kind) && n.next + 3 < |n.input.toks| && j == n.next
    requires Ahead(n, 0) == TokNumber && IsOperatorAt(lower + 1, Ahead(n, 1)) && Ahead(n, 2) == TokNumber
    requires Ends(Ahead(n, 3), hi + 1) && Slot(n) + 1 <= MaxConstantIndex
    ensures After(n, Loop(n, hi + 1), TightCode(Slot(n), BinaryOpcode(Ahead(n, 1)), BinaryOpcode(n.cur.kind)),
                  [Lit(n.input, j), Lit(n.input, j + 2)], 4)
  {
    LoopIs(n, hi + 1);
    TightRound(n, lower, hi, j);
    TightStop(n, BinaryStep(n, hi + 1), lower, hi, j);
  }

  /** After that round the loop stops: the parser is on a token where the level stops. */
  lemma TightStop(n: Parser, b: Parser, lower: nat, hi: nat, j: nat)
    requires lower + 1 <= hi <= 3 && IsOperatorAt(hi + 1, n.cur.kind) && n.next + 3 < |n.input.toks| && j == n.next
    requires Ahead(n, 0) == TokNumber && IsOperatorAt(lower + 1, Ahead(n, 1)) && Ahead(n, 2) == TokNumber
    requires Ends(Ahead(n, 3), hi + 1) && Slot(n) + 1 <= MaxConstantIndex
    requires After(n, b, TightCode(Slot(n), BinaryOpcode(Ahead(n, 1)), BinaryOpcode(n.cur.kind)),
                  [Lit(n.input, j), Lit(n.input, j + 2)], 4)
    requires b.cur.kind == Ahead(n, 3)
    ensures After(n, Loop(b, hi + 1), TightCode(Slot(n), BinaryOpcode(Ahead(n, 1)), BinaryOpcode(n.cur.kind)),
                  [Lit(n.input, j), Lit(n.input, j + 2)], 4)
  {
    assert Loop(b, hi + 1) == b;
  }

  /** The first number's constant, then a round with a tighter right operand; the numbers at `j`, `j + 2` and `j + 4`. */
  lemma TighterGlue(p: PState, n: PState, r: PState, x: Byte, y: Byte, j: nat)
    requires j + 4 < |p.input.toks| && p.input.toks[j].kind == TokNumber && p.input.toks[j + 2].kind == TokNumber
    requires p.input.toks[j + 4].kind == TokNumber && Slot(p) + 2 <= MaxConstantIndex
    requires After(p, n, [OpConstant, Slot(p)], [Lit(p.input, j)], 1)
    requires After(n, r, TightCode(Slot(n), x, y), [Lit(n.input, j + 2), Lit(n.input, j + 4)], 4)
    ensures After(p, r, TripleCode(Slot(p), x, y),
                  [Lit(p.input, j), Lit(p.input, j + 2), Lit(p.input, j + 4)], 5)
  {
    assert r.code == p.code + [OpConstant, Slot(p)] + [OpConstant, Slot(n), OpConstant, Slot(n) + 1, x, y];
    assert r.consts == p.consts + [Lit(p.input, j)] + [Lit(p.input, j + 2), Lit(p.input, j + 4)];
  }

  /** The round of op1 with the tighter `b op2 c`, past the first number's constant, `n` the parser then. */
  lemma TighterFrom(p: Parser, n: Parser, lower: nat, hi: nat, j: nat)
    requires lower + 1 <= hi <= 3 && p.cur.kind == TokNumber && j + 1 == p.next && p.next + 4 < |p.input.toks|
    requires IsOperatorAt(hi + 1, Ahead(p, 0)) && Ahead(p, 1) == TokNumber && IsOperatorAt(lower + 1, Ahead(p, 2))
    requires Ahead(p, 3) == TokNumber && Ends(Ahead(p, 4), hi + 1) && Slot(p) + 2 <= MaxConstantIndex
    requires After(p, n, [OpConstant, Slot(p)], [Lit(p.input, j)], 1) && Slot(n) == Slot(p) + 1
    ensures After(p, Loop(n, hi + 1),
                  TripleCode(Slot(p), BinaryOpcode(Ahead(p, 2)), BinaryOpcode(Ahead(p, 0))),
                  [Lit(p.input, j), Lit(p.input, j + 2), Lit(p.input, j + 4)], 5)
  {
    FirstSetup(p, n, j);
    TightLoop(n, lower, hi, j + 2);
    TighterGlue(p, n, Loop(n, hi + 1), BinaryOpcode(Ahead(p, 2)), BinaryOpcode(Ahead(p, 0)), j);
  }

  /**
   * A tighter operator on the right: `a op1 b op2 c` of numbers, `a` the
   * current token at `j` and op2 of a level below op1's, followed by a
   * token where op1's level stops, is `a op1 (b op2 c)`: the three
   * constants, op2's instruction, then op1's.
   */
  lemma TighterRight(p: Parser, lower: nat, hi: nat, j: nat)
    requires lower + 1 <= hi <= 3 && p.cur.kind == TokNumber && j + 1 == p.next && p.next + 4 < |p.input.toks|
    requires IsOperatorAt(hi + 1, Ahead(p, 0)) && Ahead(p, 1) == TokNumber && IsOperatorAt(lower + 1, Ahead(p, 2))
    requires Ahead(p, 3) == TokNumber && Ends(Ahead(p, 4), hi + 1) && Slot(p) + 2 <= MaxConstantIndex
    ensures After(p, Level(p, hi + 1),
                  TripleCode(Slot(p), BinaryOpcode(Ahead(p, 2)), BinaryOpcode(Ahead(p, 0))),
                  [Lit(p.input, j), Lit(p.input, j + 2), Lit(p.input, j + 4)], 5)
  {
    LevelIs(p, hi);
    FirstNumber(p, hi, j);
    TighterFrom(p, Level(p, hi), lower, hi, j);
  }

  /** Past `a op b`, the numbers at `j` and `j + 2`: the parser on the token after `b`, and the two tokens ahead. */
  lemma ThirdSetup(p: PState, m: PState, x: Byte, j: nat)
    requires j + 2 < |p.input.toks| && p.input.toks[j].kind == TokNumber && p.input.toks[j + 2].kind == TokNumber
    requires Slot(p) + 1 <= MaxConstantIndex && p.next + 4 < |p.input.toks|
    requires After(p, m, [OpConstant, Slot(p), OpConstant, Slot(p) + 1, x], [Lit(p.input, j), Lit(p.input, j + 2)], 3)
    ensures m.cur.kind == Ahead(p, 2) && m.next + 1 < |m.input.toks| && m.next == p.next + 3 && Slot(m) == Slot(p) + 2
    ensures Ahead(m, 0) == Ahead(p, 3) && Ahead(m, 1) == Ahead(p, 4)
  {
    CurFrom(p, m, [OpConstant, Slot(p), OpConstant, Slot(p) + 1, x], [Lit(p.input, j), Lit(p.input, j + 2)], 3, p.next + 2);
    AheadFrom(p, m, 3, 0, 3);
    AheadFrom(p, m, 3, 1, 4);
  }

  /** `a op1 b`, then a round of op2 with `c`; the numbers at `j`, `j + 2` and `j + 4`. */
  lemma LooseGlue(p: PState, m: PState, r: PState, x: Byte, y: Byte, j: nat)
    requires j + 4 < |p.input.toks| && p.input.toks[j].kind == TokNumber && p.input.toks[j + 2].kind == TokNumber
    requires p.input.toks[j + 4].kind == TokNumber && Slot(p) + 2 <= MaxConstantIndex
    requires After(p, m, [OpConstant, Slot(p), OpConstant, Slot(p) + 1, x], [Lit(p.input, j), Lit(p.input, j + 2)], 3)
    requires After(m, r, [OpConstant, Slot(m), y], [Lit(m.input, j + 4)], 2)
    ensures After(p, r, LeftCode(Slot(p), x, y),
                  [Lit(p.input, j), Lit(p.input, j + 2), Lit(p.input, j + 4)], 5)
  {
    assert r.code == p.code + [OpConstant, Slot(p), OpConstant, Slot(p) + 1, x] + [OpConstant, Slot(m), y];
    assert r.consts == p.consts + [Lit(p.input, j), Lit(p.input, j + 2)] + [Lit(p.input, j + 4)];
  }

  /** The round of op2 with `c`, `m` the parser after the tighter `a op1 b`. */
  lemma LooseFrom(p: Parser, m: Parser, lower: nat, hi: nat, j: nat)
    requires lower + 1 <= hi <= 3 && p.cur.kind == TokNumber && j + 1 == p.next && p.next + 4 < |p.input.toks|
    requires IsOperatorAt(lower + 1, Ahead(p, 0)) && Ahead(p, 1) == TokNumber && IsOperatorAt(hi + 1, Ahead(p, 2))
    requires Ahead(p, 3) == TokNumber && Ends(Ahead(p, 4), hi + 1) && Slot(p) + 2 <= MaxConstantIndex
    requires After(p, m, [OpConstant, Slot(p), OpConstant, Slot(p) + 1, BinaryOpcode(Ahead(p, 0))], [Lit(p.input, j), Lit(p.input, j + 2)], 3)
    ensures After(p, Loop(m, hi + 1),
                  LeftCode(Slot(p), BinaryOpcode(Ahead(p, 0)), BinaryOpcode(Ahead(p, 2))),
                  [Lit(p.input, j), Lit(p.input, j + 2), Lit(p.input, j + 4)], 5)
  {
    ThirdSetup(p, m, BinaryOpcode(Ahead(p, 0)), j);
    LastRound(m, hi, j + 4);
    LooseGlue(p, m, Loop(m, hi + 1), BinaryOpcode(Ahead(p, 0)), BinaryOpcode(Ahead(p, 2)), j);
  }

  /**
   * A tighter operator on the left: `a op1 b op2 c` of numbers, `a` the
   * current token at `j` and op1 of a level below op2's, followed by a
   * token where op2's level stops, is `(a op1 b) op2 c`: the constants of
   * `a` and `b`, op1's instruction, the constant of `c`, then op2's.
   */
  lemma LooserRight(p: Parser, lower: nat, hi: nat, j: nat)
    requires lower + 1 <= hi <= 3 && p.cur.kind == TokNumber && j + 1 == p.next && p.next + 4 < |p.input.toks|
    requires IsOperatorAt(lower + 1, Ahead(p, 0)) && Ahead(p, 1) == TokNumber && IsOperatorAt(hi + 1, Ahead(p, 2))
    requires Ahead(p, 3) == TokNumber && Ends(Ahead(p, 4), hi + 1) && Slot(p) + 2 <= MaxConstantIndex
    ensures After(p, Level(p, hi + 1),
                  LeftCode(Slot(p), BinaryOpcode(Ahead(p, 0)), BinaryOpcode(Ahead(p, 2))),
                  [Lit(p.input, j), Lit(p.input, j + 2), Lit(p.input, j + 4)], 5)
  {
    LevelIs(p, hi);
    OperatorEnds(Ahead(p, 2), hi);
    SingleAbove(p, lower, hi, j);
    LooseFrom(p, Level(p, hi), lower, hi, j);
  }

  /** An expression of a level whose parse stops where `||` (level 6) stops too is the whole expression. */
  lemma ExpressionAt(p: Parser, level: nat)
    requires level <= 6 && StopsLevel(6, Level(p, level).cur.kind)
    ensures Expression(p) == Level(p, level)
  {
    LevelsAbove(p, level, 6);
  }
}
