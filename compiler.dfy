/**
 * src/compiler.c: a single-pass recursive-descent compiler from tokens to
 * bytecode. Module ParserState holds the parser's state and the invariant
 * every parsing step keeps; module Compiler holds the parsing functions.
 * The global parser and the chunk it writes into are threaded through
 * them as a value: each function takes the state before and returns the
 * state after.
 */
module ParserState {
  import opened Wrappers
  import opened Chunks
  import opened Lexer

  /** A constant the compiler adds: a number lexeme (for strtod) or string characters. */
  datatype Literal = NumLit(text: string) | StrLit(chars: string)

  /** The first error errorAt reports: where, at which kind of token, and why. */
  datatype Report = Report(line: nat, col: nat, at: TokKind, message: string)

  /** The source text and the tokens the scanner yields from it, which a compile never changes. */
  datatype Input = Input(src: string, toks: seq<Token>)

  /** An input whose tokens are a scan of its source. */
  type Stream = i: Input | TokenStream(i.src, i.toks)
    witness Input("", [EofToken])

  /**
   * The global parser and the chunk it emits into. `toks` is what the
   * scanner yields from the start of the source up to its TOK_EOF, and
   * `next` is how much of it scanNext has handed out. The chunk held
   * `base` constants before; `consts` are the ones this compile added.
   */
  datatype PState = PState(
    input: Stream, next: nat,
    cur: Token, prev: Token,
    hadError: bool, panicMode: bool, report: Option<Report>,
    code: seq<Byte>, lines: seq<nat>, base: nat, consts: seq<Literal>)

  /**
   * What holds of the parser at every step, whatever token is current:
   * the tokens are a scan of the source and some are left, every code
   * byte has its line, panic mode and the error flag go together (this
   * compiler never leaves panic mode), and every error token handed out
   * so far was reported.
   */
  predicate Base(p: PState)
  {
    && p.next < |p.input.toks|
    && |p.lines| == |p.code|
    && p.panicMode == p.hadError && (p.report.Some? <==> p.hadError)
    && (forall i :: 0 <= i < p.next && p.input.toks[i].kind == TokErr ==> p.hadError)
  }

  /**
   * Between parsing functions: also the current token is a real one, the
   * last the scanner handed out, and once it is TOK_EOF the scanner hands
   * out nothing else.
   */
  predicate Ok(p: PState)
  {
    && Base(p) && WellFormedToken(p.input.src, p.cur) && p.cur.kind != TokErr
    && (p.cur.kind == TokEof ==> p.next == |p.input.toks| - 1 && p.cur == p.input.toks[p.next])
    && (p.cur.kind != TokEof ==> 0 < p.next && p.cur == p.input.toks[p.next - 1])
  }

  const EofToken := Token(TokEof, Source(0), 0, 1, 1)

  /** A parser state between parsing functions. */
  type Parser = p: PState | Ok(p)
    witness PState(Input("", [EofToken]), 0, EofToken, EofToken, false, false, None, [], [], 0, [])

  /** Tokens still to be parsed, counting the current one unless it is TOK_EOF. */
  function Rank(p: PState): nat
  {
    (if p.next < |p.input.toks| then |p.input.toks| - p.next else 0) + (if p.cur.kind == TokEof then 0 else 1)
  }

  /** What was emitted before is kept: code, lines and constants only grow. */
  predicate Extends(p: PState, r: PState)
  {
    p.code <= r.code && p.lines <= r.lines && p.consts <= r.consts
  }

  /** No token consumed: the same current, previous and next token. */
  predicate SameInput(p: PState, r: PState)
  {
    r.next == p.next && r.cur == p.cur && r.prev == p.prev
  }

  /** No token consumed and nothing emitted (the error flags may have changed). */
  predicate Untouched(p: PState, r: PState)
  {
    SameInput(p, r) && r.code == p.code && r.lines == p.lines && r.consts == p.consts
  }

  /**
   * The contract every parsing function keeps: the same source and
   * tokens, no token handed back, earlier output kept, and the error flag
   * and first report never cleared or overwritten.
   */
  predicate Parsed(p: PState, r: PState)
  {
    && r.input == p.input && r.base == p.base
    && Rank(r) <= Rank(p)
    && Extends(p, r)
    && (p.hadError ==> r.hadError && r.report == p.report)
  }

  /** Parsing twice in a row is parsing: Parsed is transitive. */
  lemma ParsedTrans(p: PState, q: PState, r: PState)
    ensures Parsed(p, q) && Parsed(q, r) ==> Parsed(p, r)
  {
    if Parsed(p, q) && Parsed(q, r) {
      assert r.code[..|p.code|] == q.code[..|p.code|];
      assert r.lines[..|p.lines|] == q.lines[..|p.lines|];
      assert r.consts[..|p.consts|] == q.consts[..|p.consts|];
    }
  }
}

/** The parsing functions of src/compiler.c over a ParserState.Parser. */
module Compiler {
  import opened Wrappers
  import opened Chunks
  import opened Lexer
  import opened ParserState

  const ExpectExpression := "expect expression"
  const ExpectRightParen := "expect closing ')' after expression"
  const ExpectSemicolon := "expect ';' at end"
  const JumpTooFar := "exceeded max of 65535 bytes to jump over"
  const TooManyConstants := "exceeded max of 256 constants in one chunk"

  /** UINT16_MAX and UINT8_MAX. */
  const MaxJump := 65535
  const MaxConstantIndex := 255

  /**
   * errorAt: in panic mode nothing happens; otherwise the parser enters
   * panic mode, the error flag is set and this error is the one reported.
   */
  function ErrorAt(p: PState, tok: Token, msg: string): (r: PState)
    ensures r.panicMode
    ensures p.panicMode ==> r == p
    ensures !p.panicMode ==> r.hadError && r.report == Some(Report(tok.line, tok.col, tok.kind, msg))
    ensures r.(hadError := p.hadError, panicMode := p.panicMode, report := p.report) == p
  {
    if p.panicMode then p
    else p.(panicMode := true, hadError := true, report := Some(Report(tok.line, tok.col, tok.kind, msg)))
  }

  /** An error leaves a parser between parsing steps, with no token consumed and nothing emitted. */
  lemma ErrorParsed(p: PState, tok: Token, msg: string)
    ensures Ok(p) ==> Ok(ErrorAt(p, tok, msg)) && Parsed(p, ErrorAt(p, tok, msg)) && Untouched(p, ErrorAt(p, tok, msg))
  {
    var r := ErrorAt(p, tok, msg);
    assert r.code[..|p.code|] == p.code && r.lines[..|p.lines|] == p.lines;
    assert r.consts[..|p.consts|] == p.consts;
  }

  /**
   * The loop of advance: scanNext until a token that is not TOK_ERR,
   * reporting each error token with its message. At the end of input the
   * scanner keeps yielding TOK_EOF, so `next` stays on it. Only the token
   * position and the error state change.
   */
  function Fetch(p: PState): (r: Parser)
    requires Base(p)
    ensures r == p.(next := r.next, cur := r.cur, hadError := r.hadError, panicMode := r.panicMode, report := r.report)
    ensures p.next <= r.next
    ensures r.cur.kind == TokEof ==> r.cur == r.input.toks[r.next]
    ensures r.cur.kind != TokEof ==> p.next < r.next && r.cur == r.input.toks[r.next - 1]
    ensures p.hadError ==> r.hadError && r.report == p.report
    decreases |p.input.toks| - p.next
  {
    var tok := p.input.toks[p.next];
    var p1 := p.(cur := tok, next := if tok.kind == TokEof then p.next else p.next + 1);
    if tok.kind == TokErr then Fetch(ErrorAt(p1, tok, tok.lexeme.text)) else p1
  }

  /** The tokens Fetch passes over are error tokens. */
  lemma {:induction false} FetchSkipsErrors(p: PState)
    requires Base(p)
    ensures forall i :: p.next <= i < Fetch(p).next - 1 ==> p.input.toks[i].kind == TokErr
    decreases |p.input.toks| - p.next
  {
    var tok := p.input.toks[p.next];
    if tok.kind == TokErr {
      var e := ErrorAt(p.(cur := tok, next := p.next + 1), tok, tok.lexeme.text);
      assert Fetch(p) == Fetch(e) && e.next == p.next + 1 && e.input == p.input;
      FetchSkipsErrors(e);
      forall i | p.next <= i < Fetch(p).next - 1
        ensures p.input.toks[i].kind == TokErr
      {
        if i > p.next {
          assert e.next <= i < Fetch(e).next - 1;
        }
      }
    } else {
      assert Fetch(p).next <= p.next + 1;
    }
  }

  /** After Fetch the error flag is set exactly when it was set before or an error token was met. */
  lemma FetchFlags(p: PState)
    requires Base(p)
    ensures Fetch(p).hadError <==> p.hadError || p.input.toks[p.next].kind == TokErr
  {
    var tok := p.input.toks[p.next];
    if tok.kind == TokErr {
      var e := ErrorAt(p.(cur := tok, next := p.next + 1), tok, tok.lexeme.text);
      assert e.hadError && Fetch(p) == Fetch(e);
    }
  }

  /** The first error token Fetch meets, with no error before, is the one reported. */
  lemma FetchReports(p: PState)
    requires Base(p) && !p.hadError && p.input.toks[p.next].kind == TokErr
    ensures Fetch(p).report == Some(Report(p.input.toks[p.next].line, p.input.toks[p.next].col, TokErr, p.input.toks[p.next].lexeme.text))
  {
    var tok := p.input.toks[p.next];
    var e := ErrorAt(p.(cur := tok, next := p.next + 1), tok, tok.lexeme.text);
    assert e.hadError && e.report == Some(Report(tok.line, tok.col, TokErr, tok.lexeme.text));
    assert Fetch(p) == Fetch(e);
  }

  /** advance: the current token becomes the previous one and the next real token is fetched. */
  function Advance(p: PState): (r: Parser)
    requires Base(p)
    ensures r.prev == p.cur && Parsed(p, r)
    ensures r.code == p.code && r.lines == p.lines && r.consts == p.consts
    ensures p.cur.kind != TokEof ==> Rank(r) < Rank(p)
  {
    Fetch(p.(prev := p.cur))
  }

  /** consume: advance past a token of the expected kind, or report `msg` at the current one. */
  function Consume(p: Parser, kind: TokKind, msg: string): (r: Parser)
    requires kind != TokEof
    ensures Parsed(p, r)
    ensures p.cur.kind == kind ==> r.prev == p.cur && Rank(r) < Rank(p)
    ensures p.cur.kind != kind ==> Untouched(p, r) && r.hadError
  {
    if p.cur.kind != kind then
      ErrorParsed(p, p.cur, msg);
      ErrorAt(p, p.cur, msg)
    else Advance(p)
  }

  /** emitByte: one byte at the end of the chunk, with the previous token's line. */
  function EmitByte(p: Parser, b: Byte): Parser
  {
    p.(code := p.code + [b], lines := p.lines + [p.prev.line])
  }

  lemma EmitByteParsed(p: Parser, b: Byte)
    ensures Parsed(p, EmitByte(p, b)) && Rank(EmitByte(p, b)) == Rank(p)
    ensures SameInput(p, EmitByte(p, b))
    ensures |EmitByte(p, b).code| == |p.code| + 1 && EmitByte(p, b).code[|p.code|] == b
  {
    var r := EmitByte(p, b);
    assert r.code[..|p.code|] == p.code && r.lines[..|p.lines|] == p.lines;
    assert r.consts[..|p.consts|] == p.consts;
  }

  /** emitBytes: two emitByte calls in a row. */
  function EmitBytes(p: Parser, b1: Byte, b2: Byte): (r: Parser)
    ensures r == p.(code := p.code + [b1, b2], lines := p.lines + [p.prev.line, p.prev.line])
  {
    EmitByte(EmitByte(p, b1), b2)
  }

  /**
   * emitJump: the jump opcode and a two-byte 0xFF placeholder; the result
   * is the offset of the placeholder's high byte, count - 2.
   */
  function EmitJump(p: Parser, op: Byte): (r: (Parser, nat))
    ensures Parsed(p, r.0) && SameInput(p, r.0) && r.0.consts == p.consts && Rank(r.0) == Rank(p)
    ensures r.0.code == p.code + [op, 0xFF, 0xFF]
    ensures r.1 == |r.0.code| - 2 && r.1 == |p.code| + 1
  {
    var p1 := EmitByte(p, op);
    var p2 := EmitByte(p1, 0xFF);
    var r := EmitByte(p2, 0xFF);
    EmitByteParsed(p, op);
    EmitByteParsed(p1, 0xFF);
    EmitByteParsed(p2, 0xFF);
    ParsedTrans(p, p1, p2);
    ParsedTrans(p, p2, r);
    (r, |r.code| - 2)
  }

  /** The high and low byte of a jump distance, `(d >> 8) & 0xFF` and `d & 0xFF`. */
  function HighByte(d: nat): Byte { (d / 256) % 256 }
  function LowByte(d: nat): Byte { d % 256 }

  /** The placeholder at `offset` holds the distance from after it to the end of `code`. */
  predicate Patched(code: seq<Byte>, offset: nat)
  {
    offset + 2 <= |code|
    && code[offset] == HighByte(|code| - offset - 2) && code[offset + 1] == LowByte(|code| - offset - 2)
  }

  /** The big-endian jump distance in the two bytes at `offset`. */
  function JumpOperand(code: seq<Byte>, offset: nat): nat
    requires offset + 2 <= |code|
  {
    code[offset] as int * 256 + code[offset + 1] as int
  }

  /** Writing the two bytes of `d` and reading them back gives `d` modulo 2^16. */
  lemma SplitBytes(d: nat)
    ensures HighByte(d) as int * 256 + LowByte(d) as int == d % 65536
  {
    var q, l := d / 256, d % 256;
    assert d == 256 * q + l;
    var h, t := q % 256, q / 256;
    assert q == 256 * t + h;
    assert d == 65536 * t + (256 * h + l);
  }

  /**
   * The two bytes at `offset` replaced by the big-endian distance from
   * after them to the end of the code, `(d >> 8) & 0xFF` and `d & 0xFF`,
   * so truncated to 16 bits; every other byte is kept.
   */
  function Patch(code: seq<Byte>, offset: nat): (c: seq<Byte>)
    requires offset + 2 <= |code|
    ensures |c| == |code| && Patched(c, offset)
    ensures forall i :: 0 <= i < |code| && i != offset && i != offset + 1 ==> c[i] == code[i]
  {
    var d := |code| - offset - 2;
    code[offset := HighByte(d)][offset + 1 := LowByte(d)]
  }

  /**
   * patchJump: the placeholder at `offset` is patched; a distance over
   * 65535 is reported at the previous token and still written.
   */
  function PatchJump(p: Parser, offset: nat): (r: Parser)
    requires offset + 2 <= |p.code|
    ensures r == p.(code := Patch(p.code, offset), hadError := r.hadError, panicMode := r.panicMode, report := r.report)
    ensures r.hadError == (p.hadError || |p.code| - offset - 2 > MaxJump)
    ensures !p.hadError && |p.code| - offset - 2 > MaxJump ==> r.report == Some(Report(p.prev.line, p.prev.col, p.prev.kind, JumpTooFar))
    ensures p.hadError || |p.code| - offset - 2 <= MaxJump ==> r.report == p.report
  {
    ErrorParsed(p, p.prev, JumpTooFar);
    var p1: Parser := if |p.code| - offset - 2 > MaxJump then ErrorAt(p, p.prev, JumpTooFar) else p;
    WritePatch(p1, offset)
  }

  /** The write half of patchJump: the two placeholder bytes, in place. */
  function WritePatch(p: Parser, offset: nat): Parser
    requires offset + 2 <= |p.code|
  {
    p.(code := Patch(p.code, offset))
  }

  /** Patching a placeholder emitted after `p` keeps everything `p` had emitted. */
  lemma PatchParsed(p: PState, q: Parser, offset: nat)
    ensures Parsed(p, q) && |p.code| <= offset && offset + 2 <= |q.code| ==> Parsed(p, PatchJump(q, offset))
  {
    if Parsed(p, q) && |p.code| <= offset && offset + 2 <= |q.code| {
      var r := PatchJump(q, offset);
      assert r.code[..|p.code|] == q.code[..|p.code|];
    }
  }

  /** appendConstant's side of emitConstant: the literal joins the pool of this compile. */
  function AddLiteral(p: Parser, lit: Literal): Parser
  {
    p.(consts := p.consts + [lit])
  }

  /**
   * emitConstant: the literal always joins the pool; an index over 255 is
   * reported and no instruction is emitted, otherwise OP_CONSTANT and the index.
   */
  function EmitConstant(p: Parser, lit: Literal): (r: Parser)
    ensures r == p.(code := r.code, lines := r.lines, consts := r.consts, hadError := r.hadError, panicMode := r.panicMode, report := r.report)
    ensures Parsed(p, r) && r.consts == p.consts + [lit]
    ensures p.base + |p.consts| <= MaxConstantIndex ==>
      r.code == p.code + [OpConstant, p.base + |p.consts|] && r.hadError == p.hadError && r.report == p.report
    ensures p.base + |p.consts| > MaxConstantIndex ==> r.code == p.code && r.hadError
  {
    var index := p.base + |p.consts|;
    var p1 := AddLiteral(p, lit);
    if index > MaxConstantIndex then
      ErrorParsed(p1, p1.prev, TooManyConstants);
      ErrorAt(p1, p1.prev, TooManyConstants)
    else
      EmitBytes(p1, OpConstant, index)
  }

  /** The characters of a token read from the source. */
  function LexemeText(src: string, t: Token): string
    requires t.lexeme.Source? && t.lexeme.start + t.len <= |src|
  {
    src[t.lexeme.start .. t.lexeme.start + t.len]
  }

  /** number: the previous token's lexeme, for strtod, as a constant. */
  function Number(p: Parser): (r: Parser)
    requires p.prev.kind == TokNumber && WellFormedToken(p.input.src, p.prev)
    ensures Parsed(p, r)
    ensures r.consts == p.consts + [NumLit(LexemeText(p.input.src, p.prev))]
  {
    EmitConstant(p, NumLit(LexemeText(p.input.src, p.prev)))
  }

  /** string: the previous token's lexeme without its two quotes, as a constant. */
  function String(p: Parser): (r: Parser)
    requires p.prev.kind == TokString && WellFormedToken(p.input.src, p.prev)
    ensures Parsed(p, r)
    ensures r.consts == p.consts + [StrLit(p.input.src[p.prev.lexeme.start + 1 .. p.prev.lexeme.start + p.prev.len - 1])]
  {
    var t := p.prev;
    EmitConstant(p, StrLit(p.input.src[t.lexeme.start + 1 .. t.lexeme.start + t.len - 1]))
  }

  /** The tokens primary accepts. */
  predicate StartsPrimary(k: TokKind)
  {
    k == TokNumber || k == TokString || k == TokLeftParen || k == TokFalse || k == TokTrue || k == TokNil
  }

  /** The tokens unary accepts: a primary or a prefix operator. */
  predicate StartsUnary(k: TokKind)
  {
    StartsPrimary(k) || k == TokBang || k == TokMinus
  }

  /**
   * The precedence level of each binary operator, tightest first: factor
   * 1, term 2, comparison 3, equality 4, logicalAnd 5, logicalOr 6; 0 for
   * a token that is no binary operator.
   */
  function OperatorLevel(k: TokKind): nat
  {
    match k
    case TokStar => 1
    case TokSlash => 1
    case TokPlus => 2
    case TokMinus => 2
    case TokLess => 3
    case TokLessEq => 3
    case TokGreater => 3
    case TokGreaterEq => 3
    case TokEqEq => 4
    case TokBangEq => 4
    case TokAnd => 5
    case TokOr => 6
    case _ => 0
  }

  /** `k` is an operator of the loop of `level`. */
  predicate IsOperatorAt(level: nat, k: TokKind)
  {
    level >= 1 && OperatorLevel(k) == level
  }

  /** The tokens an expression of `level` consumes when it is current (level 0 is unary). */
  predicate StartsLevel(level: nat, k: TokKind)
  {
    StartsUnary(k) || 1 <= OperatorLevel(k) <= level
  }

  /** No operator of levels 1 to `level` is `k`: where an expression of `level` may stop. */
  predicate StopsLevel(level: nat, k: TokKind)
  {
    OperatorLevel(k) == 0 || OperatorLevel(k) > level
  }

  /** The instruction each binary operator of levels 1 to 4 emits. */
  function BinaryOpcode(k: TokKind): Byte
  {
    match k
    case TokStar => OpMultiply
    case TokSlash => OpDivide
    case TokPlus => OpAdd
    case TokMinus => OpSubtract
    case TokLess => OpLess
    case TokLessEq => OpLessEq
    case TokGreaterEq => OpGreaterEq
    case TokGreater => OpGreater
    case TokEqEq => OpEq
    case TokBangEq => OpNotEq
    case _ => OpReturn
  }

  /** grouping: an expression and the closing parenthesis. */
  function Grouping(p: Parser): (r: Parser)
    ensures Parsed(p, r)
    decreases Rank(p), 37
  {
    var q := Expression(p);
    var r := Consume(q, TokRightParen, ExpectRightParen);
    ParsedTrans(p, q, r);
    r
  }

  /**
   * primary: a number, string, parenthesised expression, false, true or
   * nil; anything else is reported at the current token and not consumed.
   */
  function Primary(p: Parser): (r: Parser)
    ensures Parsed(p, r)
    ensures StartsPrimary(p.cur.kind) ==> Rank(r) < Rank(p)
    ensures !StartsPrimary(p.cur.kind) ==> Untouched(p, r) && r.hadError
    decreases Rank(p), 1
  {
    if !StartsPrimary(p.cur.kind) then
      ErrorParsed(p, p.cur, ExpectExpression);
      ErrorAt(p, p.cur, ExpectExpression)
    else
      var q := Advance(p);
      var r := Matched(q);
      ParsedTrans(p, q, r);
      r
  }

  /** What primary does once it has matched the token now previous. */
  function Matched(p: Parser): (r: Parser)
    requires StartsPrimary(p.prev.kind) && WellFormedToken(p.input.src, p.prev)
    ensures Parsed(p, r)
    decreases Rank(p), 38
  {
    var k := p.prev.kind;
    if k == TokNumber then Number(p)
    else if k == TokString then String(p)
    else if k == TokLeftParen then Grouping(p)
    else
      var op := if k == TokFalse then OpFalse else if k == TokTrue then OpTrue else OpNil;
      EmitByteParsed(p, op);
      EmitByte(p, op)
  }

  /** unary: `!` or `-` applied to a unary, the opcode after its operand; otherwise a primary. */
  function Unary(p: Parser): (r: Parser)
    ensures Parsed(p, r)
    ensures StartsUnary(p.cur.kind) ==> Rank(r) < Rank(p)
    ensures !StartsUnary(p.cur.kind) ==> Untouched(p, r) && r.hadError
    ensures p.cur.kind == TokBang ==> |p.code| < |r.code| && r.code[|r.code| - 1] == OpNot
    ensures p.cur.kind == TokMinus ==> |p.code| < |r.code| && r.code[|r.code| - 1] == OpNegate
    decreases Rank(p), 2
  {
    if p.cur.kind == TokBang || p.cur.kind == TokMinus then
      var p1 := Advance(p);
      var q := Unary(p1);
      var op := if p.cur.kind == TokBang then OpNot else OpNegate;
      var r := EmitByte(q, op);
      EmitByteParsed(q, op);
      ParsedTrans(p1, q, r);
      ParsedTrans(p, p1, r);
      r
    else Primary(p)
  }

  /**
   * factor, term, comparison, equality, logicalAnd and logicalOr: an
   * operand of the level below, then the level's operator loop. Level 0
   * is unary.
   */
  function Level(p: Parser, level: nat): (r: Parser)
    requires level <= 6
    ensures Parsed(p, r) && StopsLevel(level, r.cur.kind)
    ensures StartsLevel(level, p.cur.kind) ==> Rank(r) < Rank(p)
    ensures !StartsLevel(level, p.cur.kind) ==> Untouched(p, r) && r.hadError
    decreases Rank(p), 5 * level + 5
  {
    if level == 0 then Unary(p)
    else
      var q := Level(p, level - 1);
      var r := Loop(q, level);
      ParsedTrans(p, q, r);
      r
  }

  /** The `while (match(...))` loop of a level: one operator and its right operand per round. */
  function Loop(p: Parser, level: nat): (r: Parser)
    requires 1 <= level <= 6
    ensures Parsed(p, r) && !IsOperatorAt(level, r.cur.kind)
    ensures StopsLevel(level - 1, p.cur.kind) ==> StopsLevel(level, r.cur.kind)
    ensures IsOperatorAt(level, p.cur.kind) ==> Rank(r) < Rank(p)
    ensures !IsOperatorAt(level, p.cur.kind) ==> r == p
    decreases Rank(p), 5 * level + 4
  {
    if !IsOperatorAt(level, p.cur.kind) then p
    else
      var q := if level <= 4 then BinaryStep(p, level) else LogicalStep(p, level);
      var r := Loop(q, level);
      ParsedTrans(p, q, r);
      r
  }

  /**
   * One round of the factor, term, comparison or equality loop: the
   * operator, the right operand, then the operator's instruction.
   */
  function BinaryStep(p: Parser, level: nat): (r: Parser)
    requires 1 <= level <= 4 && IsOperatorAt(level, p.cur.kind)
    ensures Parsed(p, r) && Rank(r) < Rank(p) && StopsLevel(level - 1, r.cur.kind)
    ensures |p.code| < |r.code| && r.code[|r.code| - 1] == BinaryOpcode(p.cur.kind)
    decreases Rank(p), 5 * level + 3
  {
    assert p.cur.kind != TokEof;
    var p1 := Advance(p);
    var p2 := Level(p1, level - 1);
    var r := EmitByte(p2, BinaryOpcode(p.cur.kind));
    EmitByteParsed(p2, BinaryOpcode(p.cur.kind));
    ParsedTrans(p1, p2, r);
    ParsedTrans(p, p1, r);
    r
  }

  /**
   * One round of the logicalAnd or logicalOr loop: OP_JUMP_IF_FALSE (for
   * `&&`) or OP_JUMP_IF_TRUE (for `||`), OP_POP and the right operand; the
   * jump is then patched to land just after the operand.
   */
  function LogicalStep(p: Parser, level: nat): (r: Parser)
    requires 5 <= level <= 6 && IsOperatorAt(level, p.cur.kind)
    ensures Parsed(p, r) && Rank(r) < Rank(p) && StopsLevel(level - 1, r.cur.kind)
    ensures |p.code| + 4 <= |r.code|
    ensures r.code[|p.code|] == (if level == 5 then OpJumpIfFalse else OpJumpIfTrue)
    ensures r.code[|p.code| + 3] == OpPop
    ensures Patched(r.code, |p.code| + 1)
    decreases Rank(p), 5 * level + 3
  {
    assert p.cur.kind != TokEof;
    var p1 := Advance(p);
    var r := JumpPatched(p1, level);
    ParsedTrans(p, p1, r);
    r
  }

  /** The logicalAnd or logicalOr round after its operator: jump, placeholder, OP_POP, operand, patch. */
  function JumpPatched(p: Parser, level: nat): (r: Parser)
    requires 5 <= level <= 6
    ensures Parsed(p, r) && StopsLevel(level - 1, r.cur.kind)
    ensures |p.code| + 4 <= |r.code|
    ensures r.code[|p.code|] == (if level == 5 then OpJumpIfFalse else OpJumpIfTrue)
    ensures r.code[|p.code| + 3] == OpPop
    ensures Patched(r.code, |p.code| + 1)
    decreases Rank(p), 5 * level + 2
  {
    var q := JumpThenOperand(p, level);
    var offset := |p.code| + 1;
    PatchParsed(p, q, offset);
    PatchJump(q, offset)
  }

  /** The part of a logicalAnd or logicalOr round before the patch: jump, placeholder, OP_POP, operand. */
  function JumpThenOperand(p: Parser, level: nat): (r: Parser)
    requires 5 <= level <= 6
    ensures Parsed(p, r) && StopsLevel(level - 1, r.cur.kind)
    ensures |p.code| + 4 <= |r.code|
    ensures r.code[|p.code|] == (if level == 5 then OpJumpIfFalse else OpJumpIfTrue)
    ensures r.code[|p.code| + 3] == OpPop
    decreases Rank(p), 5 * level + 1
  {
    var (p2, offset) := EmitJump(p, if level == 5 then OpJumpIfFalse else OpJumpIfTrue);
    var p3 := EmitByte(p2, OpPop);
    EmitByteParsed(p2, OpPop);
    assert p3.code[|p.code|] == (if level == 5 then OpJumpIfFalse else OpJumpIfTrue);
    assert p3.code[|p.code| + 3] == OpPop;
    var r := Level(p3, level - 1);
    ParsedTrans(p2, p3, r);
    ParsedTrans(p, p2, r);
    r
  }

  /** expression: logicalOr. */
  function Expression(p: Parser): (r: Parser)
    ensures Parsed(p, r) && StopsLevel(6, r.cur.kind)
    ensures StartsLevel(6, p.cur.kind) ==> Rank(r) < Rank(p)
    ensures !StartsLevel(6, p.cur.kind) ==> Untouched(p, r) && r.hadError
    decreases Rank(p), 36
  {
    Level(p, 6)
  }

  /** The tokens a statement consumes when it is current. */
  predicate StartsStatement(k: TokKind)
  {
    k == TokPrint || k == TokSemicolon || StartsLevel(6, k)
  }

  /**
   * printStmt and exprStmt after their keyword: an expression, the `;`,
   * then OP_PRINT or OP_POP, which is emitted even after an error. A
   * missing `;` is reported; a present one is consumed.
   */
  function Terminated(p: Parser, op: Byte): (r: Parser)
    ensures Parsed(p, r) && |p.code| < |r.code| && r.code[|r.code| - 1] == op
    ensures StartsLevel(6, p.cur.kind) || p.cur.kind == TokSemicolon ==> Rank(r) < Rank(p)
    ensures Expression(p).cur.kind != TokSemicolon ==> r.hadError
    ensures Expression(p).cur.kind == TokSemicolon ==> r.prev == Expression(p).cur && r.prev.kind == TokSemicolon
  {
    var q := Expression(p);
    var q2 := Consume(q, TokSemicolon, ExpectSemicolon);
    var r := EmitByte(q2, op);
    EmitByteParsed(q2, op);
    ParsedTrans(p, q, q2);
    ParsedTrans(p, q2, r);
    r
  }

  /**
   * From a token that starts no expression and is not `;`, a printStmt or
   * exprStmt consumes nothing: it reports the error and emits only its opcode.
   */
  lemma TerminatedStuck(p: Parser, op: Byte)
    requires !StartsLevel(6, p.cur.kind) && p.cur.kind != TokSemicolon
    ensures SameInput(p, Terminated(p, op)) && Terminated(p, op).code == p.code + [op]
    ensures Terminated(p, op).consts == p.consts && Terminated(p, op).hadError
  {
    var q := Expression(p);
    assert Untouched(p, q) && q.hadError;
    var q2 := Consume(q, TokSemicolon, ExpectSemicolon);
    assert Untouched(q, q2) && q2.hadError;
  }

  /** printStmt: `print` consumed, then an expression, `;` and OP_PRINT. */
  function PrintStatement(p: Parser): (r: Parser)
    requires p.cur.kind == TokPrint
    ensures Parsed(p, r) && Rank(r) < Rank(p) && |p.code| < |r.code| && r.code[|r.code| - 1] == OpPrint
    ensures Expression(Advance(p)).cur.kind != TokSemicolon ==> r.hadError
    ensures Expression(Advance(p)).cur.kind == TokSemicolon ==> r.prev.kind == TokSemicolon
  {
    var q := Advance(p);
    var r := Terminated(q, OpPrint);
    ParsedTrans(p, q, r);
    r
  }

  /** statement: `print` and a printStmt, or an exprStmt. */
  function Statement(p: Parser): (r: Parser)
    ensures Parsed(p, r) && |p.code| < |r.code|
    ensures r.code[|r.code| - 1] == (if p.cur.kind == TokPrint then OpPrint else OpPop)
    ensures StartsStatement(p.cur.kind) ==> Rank(r) < Rank(p)
    ensures p.cur.kind == TokPrint ==> r == PrintStatement(p)
    ensures p.cur.kind != TokPrint && Expression(p).cur.kind != TokSemicolon ==> r.hadError
    ensures p.cur.kind != TokPrint && Expression(p).cur.kind == TokSemicolon ==> r.prev.kind == TokSemicolon
  {
    if p.cur.kind == TokPrint then PrintStatement(p) else Terminated(p, OpPop)
  }

  /**
   * From a token no statement consumes, statement consumes nothing: it
   * reports the error and emits only OP_POP.
   */
  lemma StatementStuck(p: Parser)
    requires !StartsStatement(p.cur.kind)
    ensures SameInput(p, Statement(p)) && Statement(p).code == p.code + [OpPop]
    ensures Statement(p).consts == p.consts && Statement(p).hadError
  {
    TerminatedStuck(p, OpPop);
  }

  /** At the end of input advance yields TOK_EOF again. */
  lemma AdvanceAtEof(p: Parser)
    requires p.cur.kind == TokEof
    ensures Advance(p).cur.kind == TokEof
  {
  }

  /**
   * The `while (!match(TOK_EOF)) statement();` loop of compile as
   * written, with the final match's advance. It is None where the C loop
   * never ends: a statement that consumes nothing leaves the parser on the
   * same token (see StuckRepeats).
   */
  function CompileLoopAsWritten(p: Parser): (r: Option<Parser>)
    ensures r.Some? ==> Parsed(p, r.value) && r.value.cur.kind == TokEof
    decreases Rank(p)
  {
    if p.cur.kind == TokEof then
      AdvanceAtEof(p);
      Some(Advance(p))
    else if !StartsStatement(p.cur.kind) then None
    else
      var q := Statement(p);
      var r := CompileLoopAsWritten(q);
      if r.None? then r else ParsedTrans(p, q, r.value); r
  }

  /**
   * The loop as evidently intended: a statement that consumed nothing has
   * reported an error, and its token is skipped, so the loop ends at TOK_EOF.
   */
  function CompileLoop(p: Parser): (r: Parser)
    ensures Parsed(p, r) && r.cur.kind == TokEof
    decreases Rank(p)
  {
    if p.cur.kind == TokEof then
      AdvanceAtEof(p);
      Advance(p)
    else
      var q := Statement(p);
      var q2 := if StartsStatement(p.cur.kind) then q else Advance(q);
      var r := CompileLoop(q2);
      ParsedTrans(p, q, q2);
      ParsedTrans(p, q2, r);
      r
  }

  /** `n` rounds of the loop body. */
  function Rounds(p: Parser, n: nat): Parser
    decreases n
  {
    if n == 0 then p else Rounds(Statement(p), n - 1)
  }

  /** `n` OP_POP instructions. */
  function Pops(n: nat): (r: seq<Byte>)
    ensures |r| == n && forall i :: 0 <= i < n ==> r[i] == OpPop
  {
    if n == 0 then [] else [OpPop] + Pops(n - 1)
  }

  /** One OP_POP, then n - 1 more, is n of them. */
  lemma AppendPop(code: seq<Byte>, n: nat)
    requires n > 0
    ensures code + Pops(n) == (code + [OpPop]) + Pops(n - 1)
  {
  }

  /**
   * From a token no statement consumes, every round of the loop stays on
   * that token and only appends OP_POP: the loop condition never changes,
   * and the code grows without end.
   */
  lemma {:induction false} StuckRepeats(p: Parser, n: nat)
    requires p.cur.kind != TokEof && !StartsStatement(p.cur.kind)
    ensures SameInput(p, Rounds(p, n)) && Rounds(p, n).code == p.code + Pops(n)
    decreases n
  {
    if n > 0 {
      var q := Statement(p);
      StatementStuck(p);
      StuckRepeats(q, n - 1);
      assert Rounds(p, n) == Rounds(q, n - 1);
      AppendPop(p.code, n);
    }
  }

  /** Where the loop as written ends, the intended loop ends in the same state. */
  lemma {:induction false} LoopAgrees(p: Parser)
    ensures CompileLoopAsWritten(p).Some? ==> CompileLoop(p) == CompileLoopAsWritten(p).value
    decreases Rank(p)
  {
    if p.cur.kind != TokEof && StartsStatement(p.cur.kind) {
      LoopAgrees(Statement(p));
    }
  }

  /** Where the loop as written never ends, the intended loop ends with an error. */
  lemma {:induction false} LoopStuckFails(p: Parser)
    ensures CompileLoopAsWritten(p).None? ==> CompileLoop(p).hadError
    decreases Rank(p)
  {
    if p.cur.kind != TokEof && StartsStatement(p.cur.kind) {
      LoopStuckFails(Statement(p));
    }
  }

  /**
   * The parser compile sets up: the scanner at the start of the source,
   * the error flags cleared, and `cur` still the token a previous compile
   * left in the global parser (first advance makes it `prev`).
   */
  function Start(src: string, toks: seq<Token>, stale: Token, code: seq<Byte>, lines: seq<nat>, base: nat): (p: PState)
    requires TokenStream(src, toks) && |lines| == |code|
    ensures Base(p) && !p.hadError && p.next == 0 && p.code == code && p.base == base && p.consts == []
  {
    PState(Input(src, toks), 0, stale, stale, false, false, None, code, lines, base, [])
  }

  /**
   * compile over the tokens the scanner yields, emitting into a chunk
   * that already holds `code`, `lines` and `base` constants: the first advance,
   * the intended statement loop, then endCompiler's OP_RETURN. The result
   * is true exactly when no error was reported, and never true when the
   * scanner yielded an error token.
   */
  function CompileTokens(src: string, toks: seq<Token>, stale: Token, code: seq<Byte>, lines: seq<nat>, base: nat): (r: (bool, PState))
    requires TokenStream(src, toks) && |lines| == |code|
    ensures r.0 == !r.1.hadError && Base(r.1)
    ensures code < r.1.code && r.1.code[|r.1.code| - 1] == OpReturn && r.1.base == base
    ensures r.0 ==> forall i :: 0 <= i < |toks| ==> toks[i].kind != TokErr
  {
    var p0 := Start(src, toks, stale, code, lines, base);
    var p := Advance(p0);
    var q := CompileLoop(p);
    ParsedTrans(p0, p, q);
    EndCompiler(q)
  }

  /**
   * endCompiler, and compile's result: true exactly when no error was
   * reported, which at TOK_EOF means no error token was met either.
   */
  function EndCompiler(q: Parser): (r: (bool, PState))
    requires q.cur.kind == TokEof
    ensures r.1 == q.(code := q.code + [OpReturn], lines := q.lines + [q.prev.line])
    ensures r.0 == !q.hadError && Base(r.1)
    ensures r.0 ==> forall i :: 0 <= i < |q.input.toks| ==> q.input.toks[i].kind != TokErr
  {
    (!q.hadError, EmitByte(q, OpReturn))
  }

  /**
   * compile as written: None where its statement loop never ends. There
   * the intended compile reports an error.
   */
  function CompileTokensAsWritten(src: string, toks: seq<Token>, stale: Token, code: seq<Byte>, lines: seq<nat>, base: nat): (r: Option<(bool, PState)>)
    requires TokenStream(src, toks) && |lines| == |code|
    ensures r.Some? ==> r.value == CompileTokens(src, toks, stale, code, lines, base)
    ensures r.None? ==> !CompileTokens(src, toks, stale, code, lines, base).0
  {
    var p := Advance(Start(src, toks, stale, code, lines, base));
    LoopAgrees(p);
    LoopStuckFails(p);
    match CompileLoopAsWritten(p)
    case None => None
    case Some(q) => Some(EndCompiler(q))
  }

  /** compile: scan the source, then compile its tokens. */
  function Compile(src: string, stale: Token, code: seq<Byte>, lines: seq<nat>, base: nat): (r: (bool, PState))
    requires |lines| == |code|
    ensures r.0 == !r.1.hadError && code < r.1.code && r.1.code[|r.1.code| - 1] == OpReturn
    ensures |r.1.lines| == |r.1.code|
    ensures r.0 ==> forall i :: 0 <= i < |r.1.input.toks| ==> r.1.input.toks[i].kind != TokErr
  {
    CompileTokens(src, ScanAll(src, InitState()), stale, code, lines, base)
  }
}
