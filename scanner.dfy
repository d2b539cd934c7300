/**
 * src/scanner.c: a cursor over a C string that yields one token per call.
 * The pure functions below are the scanner's specification on its four
 * registers (lexeme start, cursor, line, column); class Scanner runs the
 * same steps in place. A character is read as NUL past the end of the
 * text, so a NUL inside the text ends the input as it does in C.
 */
module Lexer {
  import opened Wrappers

  datatype TokKind =
    | TokPlus | TokMinus | TokStar | TokSlash | TokLeftParen | TokRightParen
    | TokLeftBrace | TokRightBrace | TokSemicolon | TokColon | TokQuestion
    | TokEq | TokEqEq | TokBang | TokBangEq | TokLess | TokLessEq
    | TokGreater | TokGreaterEq | TokOr | TokAnd
    | TokNumber | TokString | TokIdentifier
    | TokElse | TokFalse | TokFor | TokIf | TokNil | TokPrint | TokTrue | TokVar | TokWhile
    | TokErr | TokEof

  /**
   * Where a token's characters are: a slice of the source starting at
   * `start`, or, for an error token, the message it carries.
   */
  datatype Lexeme = Source(start: nat) | Message(text: string)

  datatype Token = Token(kind: TokKind, lexeme: Lexeme, len: nat, line: nat, col: nat)

  /** The scanner's registers: lexeme start, cursor, line and column. */
  datatype ScanState = ScanState(start: nat, cur: nat, line: nat, col: nat)

  const ExpectDigits := "expect digits after '.'"
  const Unterminated := "unterminated string"
  const LonePipe := "'|' not supported. Did you mean '||'?"
  const LoneAmp := "'&' not supported. Did you mean '&&'?"
  const Unexpected := "unexpected character"

  /** `*cur`: the character at `i`, NUL at and past the end. */
  function CharAt(src: string, i: nat): char
  {
    if i < |src| then src[i] else '\0'
  }

  predicate AtEnd(src: string, i: nat)
  {
    CharAt(src, i) == '\0'
  }

  /** peekNext: NUL when at the end, otherwise the character after the cursor. */
  function PeekNext(src: string, i: nat): char
  {
    if AtEnd(src, i) then '\0' else CharAt(src, i + 1)
  }

  predicate IsDigit(c: char)
  {
    '0' <= c <= '9'
  }

  predicate IsAlpha(c: char)
  {
    ('a' <= c <= 'z') || ('A' <= c <= 'Z') || c == '_'
  }

  /** initScanner: both pointers at the first character, line 1, column 1. */
  function InitState(): ScanState
  {
    ScanState(0, 0, 1, 1)
  }

  /** advance: one character forward, one column right. */
  function AdvanceState(s: ScanState): ScanState
  {
    s.(cur := s.cur + 1, col := s.col + 1)
  }

  /** token: the lexeme from `start` to the cursor, at the current line and column. */
  function MakeToken(s: ScanState, kind: TokKind): Token
    requires s.start <= s.cur
  {
    Token(kind, Source(s.start), s.cur - s.start, s.line, s.col)
  }

  /** error: a TOK_ERR token whose lexeme is the message. */
  function ErrorToken(s: ScanState, msg: string): Token
  {
    Token(TokErr, Message(msg), |msg|, s.line, s.col)
  }

  /** CONSUME_INLINE_COMMENT: advances up to the next newline or the end. */
  function SkipComment(src: string, s: ScanState): (r: ScanState)
    requires s.cur <= |src|
    ensures s.cur <= r.cur <= |src| && r.start == s.start && r.line == s.line
    ensures CharAt(src, r.cur) == '\n' || AtEnd(src, r.cur)
    decreases |src| - s.cur
  {
    if CharAt(src, s.cur) != '\n' && !AtEnd(src, s.cur) then SkipComment(src, AdvanceState(s)) else s
  }

  /** skipWhitespace: spaces, tabs, carriage returns, newlines and `//` comments. */
  function SkipWs(src: string, s: ScanState): (r: ScanState)
    requires s.cur <= |src|
    ensures s.cur <= r.cur <= |src| && r.start == s.start
    decreases |src| - s.cur
  {
    var c := CharAt(src, s.cur);
    if c == '/' && PeekNext(src, s.cur) == '/' then
      var s' := SkipComment(src, s);
      SkipWs(src, s')
    else if c == '\n' then SkipWs(src, AdvanceState(s).(line := s.line + 1, col := 1))
    else if c == ' ' || c == '\t' || c == '\r' then SkipWs(src, AdvanceState(s))
    else s
  }

  /** CONSUME_DIGITS. */
  function Digits(src: string, s: ScanState): (r: ScanState)
    requires s.cur <= |src|
    ensures s.cur <= r.cur <= |src| && r.start == s.start && r.line == s.line
    ensures !IsDigit(CharAt(src, r.cur))
    ensures forall i :: s.cur <= i < r.cur ==> IsDigit(src[i])
    decreases |src| - s.cur
  {
    if IsDigit(CharAt(src, s.cur)) then Digits(src, AdvanceState(s)) else s
  }

  /** number: digits, then an optional `.` that must be followed by digits. */
  function ScanNumber(src: string, s: ScanState): (r: (Token, ScanState))
    requires s.start <= s.cur <= |src|
    ensures Scanned(src, s, r)
  {
    var s1 := Digits(src, s);
    if CharAt(src, s1.cur) == '.' then
      if !IsDigit(PeekNext(src, s1.cur)) then (ErrorToken(s1, ExpectDigits), s1)
      else
        var s2 := Digits(src, AdvanceState(s1));
        (MakeToken(s2, TokNumber), s2)
    else (MakeToken(s1, TokNumber), s1)
  }

  /** The loop of identifier: letters, digits and underscores. */
  function Word(src: string, s: ScanState): (r: ScanState)
    requires s.cur <= |src|
    ensures s.cur <= r.cur <= |src| && r.start == s.start && r.line == s.line
    ensures forall i :: s.cur <= i < r.cur ==> IsAlpha(src[i]) || IsDigit(src[i])
    ensures !IsAlpha(CharAt(src, r.cur)) && !IsDigit(CharAt(src, r.cur))
    decreases |src| - s.cur
  {
    var c := CharAt(src, s.cur);
    if IsAlpha(c) || IsDigit(c) then Word(src, AdvanceState(s)) else s
  }

  /**
   * checkKeyword: `kind` when the lexeme is exactly `start` characters
   * followed by `rest`, otherwise TOK_IDENTIFIER.
   */
  function CheckKeyword(w: string, start: nat, rest: string, kind: TokKind): TokKind
    requires start <= |w|
  {
    if |w| == start + |rest| && w[start..] == rest then kind else TokIdentifier
  }

  /** identifierType: the keyword trie on the lexeme's first one or two characters. */
  function IdentifierType(w: string): TokKind
    requires |w| > 0
  {
    match w[0]
    case 'e' => CheckKeyword(w, 1, "lse", TokElse)
    case 'f' =>
      if |w| > 1 then
        match w[1]
        case 'a' => CheckKeyword(w, 2, "lse", TokFalse)
        case 'o' => CheckKeyword(w, 2, "r", TokFor)
        case _ => TokIdentifier
      else TokIdentifier
    case 'i' => CheckKeyword(w, 1, "f", TokIf)
    case 'n' => CheckKeyword(w, 1, "il", TokNil)
    case 'p' => CheckKeyword(w, 1, "rint", TokPrint)
    case 't' => CheckKeyword(w, 1, "rue", TokTrue)
    case 'v' => CheckKeyword(w, 1, "ar", TokVar)
    case 'w' => CheckKeyword(w, 1, "hile", TokWhile)
    case _ => TokIdentifier
  }

  /** The keyword table the trie encodes, as a plain lookup. */
  function KeywordKind(w: string): TokKind
  {
    if w == "else" then TokElse
    else if w == "false" then TokFalse
    else if w == "for" then TokFor
    else if w == "if" then TokIf
    else if w == "nil" then TokNil
    else if w == "print" then TokPrint
    else if w == "true" then TokTrue
    else if w == "var" then TokVar
    else if w == "while" then TokWhile
    else TokIdentifier
  }

  /**
   * The trie agrees with the table: a lexeme is a keyword exactly when the
   * whole lexeme spells it, and TOK_IDENTIFIER otherwise.
   */
  lemma IdentifierTypeIsKeywordLookup(w: string)
    requires |w| > 0
    ensures IdentifierType(w) == KeywordKind(w)
  {
    if w[0] == 'f' && |w| > 1 {
      if w[1] == 'a' {
        assert w == "false" <==> |w| == 5 && w[2..] == "lse";
      } else if w[1] == 'o' {
        assert w == "for" <==> |w| == 3 && w[2..] == "r";
      }
    } else if w[0] == 'e' {
      assert w == "else" <==> |w| == 4 && w[1..] == "lse";
    } else if w[0] == 'i' {
      assert w == "if" <==> |w| == 2 && w[1..] == "f";
    } else if w[0] == 'n' {
      assert w == "nil" <==> |w| == 3 && w[1..] == "il";
    } else if w[0] == 'p' {
      assert w == "print" <==> |w| == 5 && w[1..] == "rint";
    } else if w[0] == 't' {
      assert w == "true" <==> |w| == 4 && w[1..] == "rue";
    } else if w[0] == 'v' {
      assert w == "var" <==> |w| == 3 && w[1..] == "ar";
    } else if w[0] == 'w' {
      assert w == "while" <==> |w| == 5 && w[1..] == "hile";
    }
  }

  /** identifier: the rest of the word, then its keyword or TOK_IDENTIFIER. */
  function ScanIdentifier(src: string, s: ScanState): (r: (Token, ScanState))
    requires s.start < s.cur <= |src|
    ensures Scanned(src, s, r)
  {
    var s1 := Word(src, s);
    (MakeToken(s1, IdentifierType(src[s1.start..s1.cur])), s1)
  }

  /** The loop of string: up to the closing quote or the end, counting newlines. */
  function StringBody(src: string, s: ScanState): (r: ScanState)
    requires s.cur <= |src|
    ensures s.cur <= r.cur <= |src| && r.start == s.start
    ensures CharAt(src, r.cur) == '"' || AtEnd(src, r.cur)
    ensures forall i :: s.cur <= i < r.cur ==> src[i] != '"'
    decreases |src| - s.cur
  {
    var c := CharAt(src, s.cur);
    if c != '"' && !AtEnd(src, s.cur) then
      StringBody(src, AdvanceState(s.(line := if c == '\n' then s.line + 1 else s.line)))
    else s
  }

  /** string: the body and the closing quote; an error at the end of input. */
  function StringLit(src: string, s: ScanState): (r: (Token, ScanState))
    requires s.start <= s.cur <= |src|
    ensures Scanned(src, s, r)
    ensures r.0.kind == TokString ==> r.0.len > s.cur - s.start
  {
    var s1 := StringBody(src, s);
    if AtEnd(src, s1.cur) then (ErrorToken(s1, Unterminated), s1)
    else
      var s2 := AdvanceState(s1);
      (MakeToken(s2, TokString), s2)
  }

  /**
   * What every scanning step keeps: the lexeme start stays, the cursor
   * only moves forward, and a token read from the source spans exactly
   * the characters from the lexeme start to the new cursor.
   */
  predicate Scanned(src: string, s: ScanState, r: (Token, ScanState))
  {
    && r.1.start == s.start && s.cur <= r.1.cur <= |src|
    && (r.0.lexeme.Source? ==> r.0.lexeme.start == s.start && s.start + r.0.len == r.1.cur)
    && (r.0.kind == TokErr <==> r.0.lexeme.Message?)
  }

  /**
   * What the parser relies on in a token: error tokens and only they carry
   * a message, any other token is a slice of the source, and a string
   * token holds at least its two quotes.
   */
  predicate WellFormedToken(src: string, t: Token)
  {
    && (t.kind == TokErr <==> t.lexeme.Message?)
    && (t.lexeme.Source? ==> t.lexeme.start + t.len <= |src|)
    && (t.kind == TokString ==> t.len >= 2)
  }

  /** `token(scanner, match(scanner, '=') ? two : one)`. */
  function OneOrTwo(src: string, s: ScanState, one: TokKind, two: TokKind): (r: (Token, ScanState))
    requires s.start <= s.cur <= |src| && one != TokErr && two != TokErr
    ensures Scanned(src, s, r)
  {
    if CharAt(src, s.cur) == '=' then (MakeToken(AdvanceState(s), two), AdvanceState(s))
    else (MakeToken(s, one), s)
  }

  /** `||` and `&&`; the lone character is an error. */
  function Doubled(src: string, s: ScanState, c: char, kind: TokKind, msg: string): (r: (Token, ScanState))
    requires c != '\0' && s.start <= s.cur <= |src| && kind != TokErr
    ensures Scanned(src, s, r)
  {
    if CharAt(src, s.cur) == c then (MakeToken(AdvanceState(s), kind), AdvanceState(s))
    else (ErrorToken(s, msg), s)
  }

  /** The single-character tokens of scanNext's switch. */
  function SingleKind(c: char): Option<TokKind>
  {
    match c
    case '+' => Some(TokPlus)
    case '-' => Some(TokMinus)
    case '*' => Some(TokStar)
    case '/' => Some(TokSlash)
    case '(' => Some(TokLeftParen)
    case ')' => Some(TokRightParen)
    case '{' => Some(TokLeftBrace)
    case '}' => Some(TokRightBrace)
    case ';' => Some(TokSemicolon)
    case ':' => Some(TokColon)
    case '?' => Some(TokQuestion)
    case _ => None
  }

  /**
   * The body of scanNext after the first character `c` of the lexeme has
   * been consumed.
   */
  function ScanAfter(src: string, s: ScanState, c: char): (r: (Token, ScanState))
    requires s.start < s.cur <= |src|
    ensures Scanned(src, s, r)
  {
    if IsDigit(c) then ScanNumber(src, s)
    else if IsAlpha(c) then ScanIdentifier(src, s)
    else if SingleKind(c).Some? then (MakeToken(s, SingleKind(c).value), s)
    else if c == '"' then StringLit(src, s)
    else if c == '=' then OneOrTwo(src, s, TokEq, TokEqEq)
    else if c == '!' then OneOrTwo(src, s, TokBang, TokBangEq)
    else if c == '<' then OneOrTwo(src, s, TokLess, TokLessEq)
    else if c == '>' then OneOrTwo(src, s, TokGreater, TokGreaterEq)
    else if c == '|' then Doubled(src, s, '|', TokOr, LonePipe)
    else if c == '&' then Doubled(src, s, '&', TokAnd, LoneAmp)
    else (ErrorToken(s, Unexpected), s)
  }

  /**
   * scanNext: skips whitespace, marks the lexeme start and scans one token;
   * at the end of input it yields TOK_EOF without moving.
   */
  function ScanToken(src: string, s: ScanState): (r: (Token, ScanState))
    requires s.cur <= |src|
    ensures r.1.cur <= |src|
    ensures SkipWs(src, s).cur <= r.1.start <= r.1.cur
    ensures r.0.kind == TokEof <==> r.1.cur == r.1.start
    ensures r.0.kind != TokEof ==> s.cur < r.1.cur
  {
    var s1 := SkipWs(src, s);
    var s2 := s1.(start := s1.cur);
    if AtEnd(src, s2.cur) then (MakeToken(s2, TokEof), s2)
    else
      var c := CharAt(src, s2.cur);
      ScanAfter(src, AdvanceState(s2), c)
  }

  /**
   * The tokens successive scanNext calls yield from `s`, up to and
   * including the first TOK_EOF.
   */
  function ScanAll(src: string, s: ScanState): (r: seq<Token>)
    requires s.cur <= |src|
    ensures TokenStream(src, r)
    decreases |src| - s.cur
  {
    var (tok, s') := ScanToken(src, s);
    ScanTokenWellFormed(src, s);
    if tok.kind == TokEof then [tok] else
      var rest := ScanAll(src, s');
      ConsStream(src, tok, rest);
      [tok] + rest
  }

  lemma ConsStream(src: string, tok: Token, rest: seq<Token>)
    requires WellFormedToken(src, tok) && tok.kind != TokEof && TokenStream(src, rest)
    ensures TokenStream(src, [tok] + rest)
  {
    var r := [tok] + rest;
    assert forall i :: 1 <= i < |r| ==> r[i] == rest[i - 1];
  }

  /** Every token scanNext yields is well formed. */
  lemma ScanTokenWellFormed(src: string, s: ScanState)
    requires s.cur <= |src|
    ensures WellFormedToken(src, ScanToken(src, s).0)
  {
  }

  /** A token sequence as scanning yields it: well formed, ending in its only TOK_EOF. */
  predicate TokenStream(src: string, toks: seq<Token>)
  {
    && |toks| > 0 && toks[|toks| - 1].kind == TokEof
    && (forall i :: 0 <= i < |toks| - 1 ==> toks[i].kind != TokEof)
    && (forall i :: 0 <= i < |toks| ==> WellFormedToken(src, toks[i]))
  }

  /**
   * ScanAll from a state starts with the token scanNext yields there, and
   * ScanAll from the state it leaves is the rest; after TOK_EOF it is that
   * same TOK_EOF again.
   */
  lemma ScanAllNext(src: string, s: ScanState)
    requires s.cur <= |src|
    ensures var (tok, s') := ScanToken(src, s);
      && ScanAll(src, s)[0] == tok
      && ScanAll(src, s') == if tok.kind == TokEof then ScanAll(src, s) else ScanAll(src, s)[1..]
  {
    var (tok, s') := ScanToken(src, s);
    if tok.kind == TokEof {
      EofIsStable(src, s);
    } else {
      assert ScanAll(src, s) == [tok] + ScanAll(src, s');
    }
  }

  /**
   * At the end of input scanNext returns TOK_EOF with length 0, and from
   * the state it leaves it returns the same token and state again.
   */
  lemma EofIsStable(src: string, s: ScanState)
    requires s.cur <= |src|
    requires ScanToken(src, s).0.kind == TokEof
    ensures ScanToken(src, s).0.len == 0
    ensures ScanToken(src, ScanToken(src, s).1) == ScanToken(src, s)
  {
    var s' := ScanToken(src, s).1;
    assert AtEnd(src, s'.cur);
    assert SkipWs(src, s') == s';
  }

  /**
   * A token read from the source covers exactly the characters scanNext
   * consumed after the whitespace: from the new lexeme start to the cursor.
   */
  lemma TokenCoversLexeme(src: string, s: ScanState)
    requires s.cur <= |src|
    requires ScanToken(src, s).0.lexeme.Source?
    ensures var (tok, s') := ScanToken(src, s);
      && tok.lexeme.start == s'.start == SkipWs(src, s).cur
      && tok.lexeme.start + tok.len == s'.cur
  {
  }

  /** What a line/column pair becomes after reading `w`: a newline starts column 1 of the next line. */
  function Position(line: nat, col: nat, w: string): (nat, nat)
    decreases |w|
  {
    if w == [] then (line, col)
    else
      var (l, c) := Position(line, col, w[..|w| - 1]);
      if w[|w| - 1] == '\n' then (l + 1, 1) else (l, c + 1)
  }

  lemma {:induction false} PositionSnoc(line: nat, col: nat, w: string, c: char)
    ensures Position(line, col, w + [c]) ==
      (if c == '\n' then (Position(line, col, w).0 + 1, 1) else (Position(line, col, w).0, Position(line, col, w).1 + 1))
  {
    assert (w + [c])[..|w + [c]| - 1] == w;
  }

  /** The characters skipWhitespace passes over. */
  predicate IsBlank(c: char)
  {
    c == ' ' || c == '\t' || c == '\r' || c == '\n'
  }

  /**
   * A comment ends before any newline and moves the column one per
   * character.
   */
  lemma {:induction false} SkipCommentPosition(src: string, s: ScanState)
    requires s.cur <= |src|
    ensures var r := SkipComment(src, s);
      && (forall i :: s.cur <= i < r.cur ==> src[i] != '\n')
      && (r.line, r.col) == Position(s.line, s.col, src[s.cur..r.cur])
    decreases |src| - s.cur
  {
    var r := SkipComment(src, s);
    if CharAt(src, s.cur) != '\n' && !AtEnd(src, s.cur) {
      var a := AdvanceState(s);
      SkipCommentPosition(src, a);
      PositionPrepend(s.line, s.col, src[s.cur], src[a.cur..r.cur]);
      assert src[s.cur..r.cur] == [src[s.cur]] + src[a.cur..r.cur];
    }
  }

  /** Reading one character first, then `w`. */
  lemma {:induction false} PositionPrepend(line: nat, col: nat, c: char, w: string)
    ensures var (l, k) := if c == '\n' then (line + 1, 1) else (line, col + 1);
      Position(line, col, [c] + w) == Position(l, k, w)
    decreases |w|
  {
    if w == [] {
      assert ([c] + w)[..|[c] + w| - 1] == [];
    } else {
      var w' := w[..|w| - 1];
      PositionPrepend(line, col, c, w');
      assert ([c] + w)[..|[c] + w| - 1] == [c] + w';
    }
  }

  /**
   * skipWhitespace passes over blanks and comments only, and leaves the
   * line and column that reading those characters gives: each newline
   * bumps the line and resets the column to 1, every other character moves
   * one column right.
   */
  lemma {:induction false} SkipWsPosition(src: string, s: ScanState)
    requires s.cur <= |src|
    ensures var r := SkipWs(src, s);
      && (r.line, r.col) == Position(s.line, s.col, src[s.cur..r.cur])
      && !IsBlank(CharAt(src, r.cur))
      && !(CharAt(src, r.cur) == '/' && PeekNext(src, r.cur) == '/')
    decreases |src| - s.cur
  {
    var r := SkipWs(src, s);
    var c := CharAt(src, s.cur);
    if c == '/' && PeekNext(src, s.cur) == '/' {
      var s' := SkipComment(src, s);
      SkipWsPosition(src, s');
      CommentThenBlanks(src, s, r);
    } else if c == '\n' || c == ' ' || c == '\t' || c == '\r' {
      var a := if c == '\n' then AdvanceState(s).(line := s.line + 1, col := 1) else AdvanceState(s);
      SkipWsPosition(src, a);
      PositionPrepend(s.line, s.col, c, src[a.cur..r.cur]);
      assert src[s.cur..r.cur] == [c] + src[a.cur..r.cur];
    } else {
      assert src[s.cur..r.cur] == [];
    }
  }

  /** The comment branch of SkipWsPosition: a comment, then the rest. */
  lemma CommentThenBlanks(src: string, s: ScanState, r: ScanState)
    requires s.cur <= |src|
    requires var s' := SkipComment(src, s);
      s'.cur <= r.cur <= |src| && (r.line, r.col) == Position(s'.line, s'.col, src[s'.cur..r.cur])
    ensures (r.line, r.col) == Position(s.line, s.col, src[s.cur..r.cur])
  {
    var s' := SkipComment(src, s);
    SkipCommentPosition(src, s);
    PositionAppend(s.line, s.col, src[s.cur..s'.cur], src[s'.cur..r.cur]);
    assert src[s.cur..r.cur] == src[s.cur..s'.cur] + src[s'.cur..r.cur];
  }

  /** Reading `u` and then `w`. */
  lemma {:induction false} PositionAppend(line: nat, col: nat, u: string, w: string)
    ensures Position(line, col, u + w) ==
      Position(Position(line, col, u).0, Position(line, col, u).1, w)
    decreases |w|
  {
    if w == [] {
      assert u + w == u;
    } else {
      var w' := w[..|w| - 1];
      PositionAppend(line, col, u, w');
      assert (u + w)[..|u + w| - 1] == u + w';
    }
  }

  /** A number token is digits, optionally followed by `.` and more digits. */
  ghost predicate IsNumberLexeme(w: string)
  {
    exists k :: NumberSplit(w, k)
  }

  /** `w` is `k` digits, then either nothing or `.` and at least one more digit. */
  predicate NumberSplit(w: string, k: nat)
  {
    0 < k <= |w| && (forall i :: 0 <= i < k ==> IsDigit(w[i])) &&
      (k == |w| || (w[k] == '.' && k + 1 < |w| && forall i :: k < i < |w| ==> IsDigit(w[i])))
  }

  /**
   * What number yields: a number token spelling a number, or the "expect
   * digits after '.'" error exactly when a `.` follows the digits without
   * a digit after it.
   */
  ghost predicate NumberShaped(src: string, r: (Token, ScanState))
    requires r.1.start <= r.1.cur <= |src|
  {
    var (tok, s') := r;
    && (tok.kind == TokNumber || tok.kind == TokErr)
    && (tok.kind == TokNumber ==> IsNumberLexeme(src[s'.start..s'.cur]))
    && (tok.kind == TokErr <==>
          (forall i :: s'.start <= i < s'.cur ==> IsDigit(src[i])) &&
          CharAt(src, s'.cur) == '.' && !IsDigit(PeekNext(src, s'.cur)))
    && (tok.kind == TokErr ==> tok.lexeme == Message(ExpectDigits))
  }

  /** From a digit, scanNext yields what number yields. */
  lemma NumberToken(src: string, s: ScanState)
    requires s.cur <= |src|
    requires IsDigit(CharAt(src, SkipWs(src, s).cur))
    ensures ScanToken(src, s).1.start <= ScanToken(src, s).1.cur <= |src|
    ensures NumberShaped(src, ScanToken(src, s))
  {
    var s1 := SkipWs(src, s);
    var a := AdvanceState(s1.(start := s1.cur));
    assert ScanToken(src, s) == ScanNumber(src, a);
    NumberLitShape(src, a);
  }

  /** number, once the first digit has been read. */
  lemma NumberLitShape(src: string, a: ScanState)
    requires a.start + 1 == a.cur <= |src| && IsDigit(src[a.start])
    ensures NumberShaped(src, ScanNumber(src, a))
  {
    var d := Digits(src, a);
    DigitsFrom(src, a, d);
    if CharAt(src, d.cur) == '.' && IsDigit(PeekNext(src, d.cur)) {
      NumberWithFraction(src, a);
    } else if CharAt(src, d.cur) != '.' {
      assert ScanNumber(src, a) == (MakeToken(d, TokNumber), d);
      DigitRunSplit(src, a.start, d.cur - a.start, d.cur);
    } else {
      assert ScanNumber(src, a) == (ErrorToken(d, ExpectDigits), d);
    }
  }

  /** The digits, `.` and the digits after it. */
  lemma NumberWithFraction(src: string, a: ScanState)
    requires a.start + 1 == a.cur <= |src| && IsDigit(src[a.start])
    requires CharAt(src, Digits(src, a).cur) == '.' && IsDigit(PeekNext(src, Digits(src, a).cur))
    ensures NumberShaped(src, ScanNumber(src, a))
  {
    var d := Digits(src, a);
    DigitsFrom(src, a, d);
    var k := d.cur - a.start;
    var e := Digits(src, AdvanceState(d));
    assert ScanNumber(src, a) == (MakeToken(e, TokNumber), e);
    DigitRunSplit(src, a.start, k, e.cur);
    assert !IsDigit(src[a.start + k]);
  }

  /** `k` digits from `start`, then either the end or `.` and more digits up to `end`, spell a number. */
  lemma DigitRunSplit(src: string, start: nat, k: nat, end: nat)
    requires 0 < k && start + k <= end <= |src|
    requires forall i :: start <= i < start + k ==> IsDigit(src[i])
    requires end == start + k || (src[start + k] == '.' && start + k + 1 < end && forall i :: start + k < i < end ==> IsDigit(src[i]))
    ensures NumberSplit(src[start..end], k)
  {
    var w := src[start..end];
    forall i | 0 <= i < k
      ensures IsDigit(w[i])
    {
      assert w[i] == src[start + i];
    }
    if end > start + k {
      assert w[k] == src[start + k];
      forall i | k < i < |w|
        ensures IsDigit(w[i])
      {
        assert w[i] == src[start + i];
      }
    }
  }

  /** The leading digit and the run CONSUME_DIGITS reads after it are all digits. */
  lemma DigitsFrom(src: string, a: ScanState, d: ScanState)
    requires a.start + 1 == a.cur <= |src| && IsDigit(src[a.start]) && d == Digits(src, a)
    ensures forall i :: a.start <= i < d.cur ==> IsDigit(src[i])
  {
  }

  /**
   * From a letter or underscore, scanNext yields the whole word, and its
   * kind is what the keyword trie says of the whole word (which
   * IdentifierTypeIsKeywordLookup shows is a keyword exactly when the word
   * spells one).
   */
  lemma WordToken(src: string, s: ScanState)
    requires s.cur <= |src|
    requires IsAlpha(CharAt(src, SkipWs(src, s).cur))
    ensures var (tok, s') := ScanToken(src, s);
      && s'.start < s'.cur
      && tok.kind == IdentifierType(src[s'.start..s'.cur])
      && (forall i :: s'.start <= i < s'.cur ==> IsAlpha(src[i]) || IsDigit(src[i]))
      && !IsAlpha(CharAt(src, s'.cur)) && !IsDigit(CharAt(src, s'.cur))
  {
    var w := SkipWs(src, s);
    var a := AdvanceState(w.(start := w.cur));
    assert ScanToken(src, s) == ScanIdentifier(src, a);
    var (tok, s') := ScanToken(src, s);
  }

  /**
   * From a quote, scanNext yields a string token whose lexeme holds both
   * quotes and no other, with the line moved on by the newlines inside;
   * without a closing quote it yields the "unterminated string" error.
   */
  lemma StringToken(src: string, s: ScanState)
    requires s.cur <= |src|
    requires CharAt(src, SkipWs(src, s).cur) == '"'
    ensures var (tok, s') := ScanToken(src, s);
      var w := src[s'.start..s'.cur];
      && (tok.kind == TokString || tok == ErrorToken(s', Unterminated))
      && (tok.kind == TokString ==>
            |w| >= 2 && w[0] == '"' && w[|w| - 1] == '"' && (forall i :: 0 < i < |w| - 1 ==> w[i] != '"') &&
            s'.line == SkipWs(src, s).line + NewlinesIn(w))
  {
    var s1 := SkipWs(src, s);
    var a := AdvanceState(s1.(start := s1.cur));
    assert ScanToken(src, s) == StringLit(src, a);
    StringLitShape(src, a);
  }

  lemma StringLitShape(src: string, a: ScanState)
    requires a.start + 1 == a.cur <= |src| && src[a.start] == '"'
    ensures var (tok, s') := StringLit(src, a);
      var w := src[s'.start..s'.cur];
      && (tok.kind == TokString || tok == ErrorToken(s', Unterminated))
      && (tok.kind == TokString ==>
            |w| >= 2 && w[0] == '"' && w[|w| - 1] == '"' && (forall i :: 0 < i < |w| - 1 ==> w[i] != '"') &&
            s'.line == a.line + NewlinesIn(w))
  {
    var b := StringBody(src, a);
    if !AtEnd(src, b.cur) {
      var s' := StringLit(src, a).1;
      var w := src[s'.start..s'.cur];
      assert w == [src[a.start]] + src[a.cur..b.cur] + [src[b.cur]];
      forall i | 0 < i < |w| - 1 ensures w[i] != '"' {
        assert w[i] == src[s'.start + i];
      }
      StringLitLines(src, a, w);
    }
  }

  /** The line count of a closed string literal. */
  lemma StringLitLines(src: string, a: ScanState, w: string)
    requires a.start + 1 == a.cur <= |src| && src[a.start] == '"'
    requires var b := StringBody(src, a); !AtEnd(src, b.cur) && w == [src[a.start]] + src[a.cur..b.cur] + [src[b.cur]]
    ensures StringLit(src, a).1.line == a.line + NewlinesIn(w)
  {
    var b := StringBody(src, a);
    StringBodyLines(src, a);
    NewlinesAppend([src[a.start]], src[a.cur..b.cur]);
    NewlinesAppend([src[a.start]] + src[a.cur..b.cur], [src[b.cur]]);
    assert NewlinesIn([src[a.start]]) == 0 by {
      assert [src[a.start]][..0] == [];
    }
    assert NewlinesIn([src[b.cur]]) == 0 by {
      assert [src[b.cur]][..0] == [];
    }
  }

  /** The number of newlines in `w`. */
  function NewlinesIn(w: string): nat
    decreases |w|
  {
    if w == [] then 0 else NewlinesIn(w[..|w| - 1]) + (if w[|w| - 1] == '\n' then 1 else 0)
  }

  lemma {:induction false} NewlinesAppend(u: string, w: string)
    ensures NewlinesIn(u + w) == NewlinesIn(u) + NewlinesIn(w)
    decreases |w|
  {
    if w == [] {
      assert u + w == u;
    } else {
      NewlinesAppend(u, w[..|w| - 1]);
      assert (u + w)[..|u + w| - 1] == u + w[..|w| - 1];
    }
  }

  lemma {:induction false} StringBodyLines(src: string, s: ScanState)
    requires s.cur <= |src|
    ensures StringBody(src, s).line == s.line + NewlinesIn(src[s.cur..StringBody(src, s).cur])
    decreases |src| - s.cur
  {
    var r := StringBody(src, s);
    var c := CharAt(src, s.cur);
    if c != '"' && !AtEnd(src, s.cur) {
      var a := AdvanceState(s.(line := if c == '\n' then s.line + 1 else s.line));
      assert r == StringBody(src, a) && c == src[s.cur] && a.cur == s.cur + 1;
      StringBodyLines(src, a);
      NewlinesAppend([c], src[a.cur..r.cur]);
      assert src[s.cur..r.cur] == [c] + src[a.cur..r.cur];
      assert NewlinesIn([c]) == (if c == '\n' then 1 else 0) by {
        assert [c][..0] == [];
      }
    } else {
      assert src[s.cur..r.cur] == [];
    }
  }

  /**
   * `=`, `!`, `<` and `>` form the two-character token when `=` follows and
   * the one-character token otherwise.
   */
  lemma OperatorTokens(src: string, s: ScanState)
    requires s.cur <= |src|
    requires var c := CharAt(src, SkipWs(src, s).cur); c == '=' || c == '!' || c == '<' || c == '>'
    ensures var i := SkipWs(src, s).cur;
      var (tok, s') := ScanToken(src, s);
      var c := CharAt(src, i);
      var (one, two) :=
        if c == '=' then (TokEq, TokEqEq) else if c == '!' then (TokBang, TokBangEq)
        else if c == '<' then (TokLess, TokLessEq) else (TokGreater, TokGreaterEq);
      && (CharAt(src, i + 1) == '=' ==> tok.kind == two && tok.len == 2)
      && (CharAt(src, i + 1) != '=' ==> tok.kind == one && tok.len == 1)
  {
    var w := SkipWs(src, s);
    var c := CharAt(src, w.cur);
    var a := AdvanceState(w.(start := w.cur));
    assert !IsDigit(c) && !IsAlpha(c) && SingleKind(c).None? && c != '"' && !AtEnd(src, w.cur);
    assert ScanToken(src, s) == ScanAfter(src, a, c);
  }

  /**
   * `||` and `&&` are TOK_OR and TOK_AND; a lone `|` or `&`, and any
   * character scanNext has no case for, is an error token.
   */
  lemma LogicalTokens(src: string, s: ScanState)
    requires s.cur <= |src|
    ensures var i := SkipWs(src, s).cur;
      var tok := ScanToken(src, s).0;
      var c := CharAt(src, i);
      && (c == '|' ==> (if CharAt(src, i + 1) == '|' then tok.kind == TokOr && tok.len == 2
                        else tok.kind == TokErr && tok.lexeme == Message(LonePipe)))
      && (c == '&' ==> (if CharAt(src, i + 1) == '&' then tok.kind == TokAnd && tok.len == 2
                        else tok.kind == TokErr && tok.lexeme == Message(LoneAmp)))
      && ((c != '\0' && !IsDigit(c) && !IsAlpha(c) && SingleKind(c).None? && c !in "\"=!<>|&") ==>
            tok.kind == TokErr && tok.lexeme == Message(Unexpected))
  {
    var w := SkipWs(src, s);
    var c := CharAt(src, w.cur);
    if c != '\0' && !IsDigit(c) && !IsAlpha(c) && SingleKind(c).None? && c != '"' {
      var a := AdvanceState(w.(start := w.cur));
      assert ScanToken(src, s) == ScanAfter(src, a, c);
    }
  }

  /** "+ - * / ( ) 123", character by character. */
  predicate TestSource(src: string)
  {
    && |src| == 15 && src[0] == '+' && src[2] == '-' && src[4] == '*' && src[6] == '/'
    && src[8] == '(' && src[10] == ')' && src[12] == '1' && src[13] == '2' && src[14] == '3'
    && src[1] == src[3] == src[5] == src[7] == src[9] == src[11] == ' '
  }

  /**
   * The scanner test "+ - * / ( ) 123": the scans yield `+ - * / ( )`,
   * each one character long at its own column, then the number 123
   * spelled by the last three characters, then TOK_EOF.
   */
  lemma ScanTest(src: string)
    requires src == "+ - * / ( ) 123"
    ensures ScanToken(src, InitState()) == (Token(TokPlus, Source(0), 1, 1, 2), ScanState(0, 1, 1, 2))
    ensures ScanToken(src, ScanState(0, 1, 1, 2)) == (Token(TokMinus, Source(2), 1, 1, 4), ScanState(2, 3, 1, 4))
    ensures ScanToken(src, ScanState(2, 3, 1, 4)) == (Token(TokStar, Source(4), 1, 1, 6), ScanState(4, 5, 1, 6))
    ensures ScanToken(src, ScanState(4, 5, 1, 6)) == (Token(TokSlash, Source(6), 1, 1, 8), ScanState(6, 7, 1, 8))
    ensures ScanToken(src, ScanState(6, 7, 1, 8)) == (Token(TokLeftParen, Source(8), 1, 1, 10), ScanState(8, 9, 1, 10))
    ensures ScanToken(src, ScanState(8, 9, 1, 10)) == (Token(TokRightParen, Source(10), 1, 1, 12), ScanState(10, 11, 1, 12))
    ensures ScanToken(src, ScanState(10, 11, 1, 12)) == (Token(TokNumber, Source(12), 3, 1, 16), ScanState(12, 15, 1, 16))
    ensures ScanToken(src, ScanState(12, 15, 1, 16)).0.kind == TokEof
  {
    assert TestSource(src);
    ScanPlusMinus(src);
    ScanStarSlash(src);
    ScanParens(src);
    ScanNumberThenEof(src);
    ScanEndOfTest(src);
  }

  /** The first two scans of the test source. */
  lemma ScanPlusMinus(src: string)
    requires TestSource(src)
    ensures ScanToken(src, InitState()) == (Token(TokPlus, Source(0), 1, 1, 2), ScanState(0, 1, 1, 2))
    ensures ScanToken(src, ScanState(0, 1, 1, 2)) == (Token(TokMinus, Source(2), 1, 1, 4), ScanState(2, 3, 1, 4))
  {
    assert SkipWs(src, InitState()) == InitState();
    SingleCharToken(src, InitState());
    BlankThenSingle(src, ScanState(0, 1, 1, 2), TokMinus);
  }

  /** The third and fourth scans of the test source. */
  lemma ScanStarSlash(src: string)
    requires TestSource(src)
    ensures ScanToken(src, ScanState(2, 3, 1, 4)) == (Token(TokStar, Source(4), 1, 1, 6), ScanState(4, 5, 1, 6))
    ensures ScanToken(src, ScanState(4, 5, 1, 6)) == (Token(TokSlash, Source(6), 1, 1, 8), ScanState(6, 7, 1, 8))
  {
    BlankThenSingle(src, ScanState(2, 3, 1, 4), TokStar);
    BlankThenSingle(src, ScanState(4, 5, 1, 6), TokSlash);
  }

  /** The parentheses of the test source. */
  lemma ScanParens(src: string)
    requires TestSource(src)
    ensures ScanToken(src, ScanState(6, 7, 1, 8)) == (Token(TokLeftParen, Source(8), 1, 1, 10), ScanState(8, 9, 1, 10))
    ensures ScanToken(src, ScanState(8, 9, 1, 10)) == (Token(TokRightParen, Source(10), 1, 1, 12), ScanState(10, 11, 1, 12))
  {
    BlankThenSingle(src, ScanState(6, 7, 1, 8), TokLeftParen);
    BlankThenSingle(src, ScanState(8, 9, 1, 10), TokRightParen);
  }

  /** The number of the test source. */
  lemma ScanNumberThenEof(src: string)
    requires TestSource(src)
    ensures ScanToken(src, ScanState(10, 11, 1, 12)) == (Token(TokNumber, Source(12), 3, 1, 16), ScanState(12, 15, 1, 16))
  {
    var e := ScanState(12, 15, 1, 16);
    var n := ScanState(10, 11, 1, 12);
    assert SkipWs(src, n) == ScanState(10, 12, 1, 13);
    var a := ScanState(12, 13, 1, 14);
    assert Digits(src, a) == e by {
      assert Digits(src, ScanState(12, 14, 1, 15)) == Digits(src, a);
      assert Digits(src, e) == e;
    }
    assert ScanNumber(src, a) == (Token(TokNumber, Source(12), 3, 1, 16), e);
    assert ScanAfter(src, a, '1') == ScanNumber(src, a);
  }

  /** The end of the test source. */
  lemma ScanEndOfTest(src: string)
    requires TestSource(src)
    ensures ScanToken(src, ScanState(12, 15, 1, 16)).0.kind == TokEof
  {
    assert SkipWs(src, ScanState(12, 15, 1, 16)) == ScanState(12, 15, 1, 16);
  }

  /** One blank, then a single-character token. */
  lemma BlankThenSingle(src: string, s: ScanState, kind: TokKind)
    requires s.cur + 1 < |src| && src[s.cur] == ' ' && SingleKind(src[s.cur + 1]) == Some(kind)
    requires src[s.cur + 1] != '/' || CharAt(src, s.cur + 2) != '/'
    ensures ScanToken(src, s) ==
      (Token(kind, Source(s.cur + 1), 1, s.line, s.col + 2), ScanState(s.cur + 1, s.cur + 2, s.line, s.col + 2))
  {
    var b := ScanState(s.start, s.cur + 1, s.line, s.col + 1);
    assert SkipWs(src, b) == b;
    assert SkipWs(src, s) == b;
    SingleCharToken(src, s);
  }

  /**
   * A single-character token (`+ - * / ( ) { } ; : ?`) after the
   * whitespace has length 1 and leaves the cursor just past it.
   */
  lemma SingleCharToken(src: string, s: ScanState)
    requires s.cur <= |src|
    requires var i := SkipWs(src, s).cur; i < |src| && SingleKind(src[i]).Some?
    ensures var w := SkipWs(src, s);
      ScanToken(src, s) ==
        (Token(SingleKind(src[w.cur]).value, Source(w.cur), 1, w.line, w.col + 1), ScanState(w.cur, w.cur + 1, w.line, w.col + 1))
  {
    var w := SkipWs(src, s);
    var c := src[w.cur];
    var a := ScanState(w.cur, w.cur + 1, w.line, w.col + 1);
    SingleAfter(src, a, c);
    assert ScanToken(src, s) == ScanAfter(src, a, c);
  }

  /** The character read is a single-character token's: the token is that one character. */
  lemma SingleAfter(src: string, a: ScanState, c: char)
    requires a.start < a.cur <= |src| && SingleKind(c).Some?
    ensures ScanAfter(src, a, c) == (MakeToken(a, SingleKind(c).value), a)
  {
    assert c in "+-*/(){};:?";
    assert !IsDigit(c) && !IsAlpha(c);
  }

  /**
   * Scanner: `start` and `cur` index `source`. The methods change the
   * registers exactly as the functions above say.
   */
  class Scanner {
    const source: string
    var start: nat
    var cur: nat
    var line: nat
    var col: nat

    ghost predicate Valid()
      reads this
    {
      start <= cur <= |source|
    }

    function State(): ScanState
      reads this
    {
      ScanState(start, cur, line, col)
    }

    /** initScanner. */
    constructor Init(source: string)
      ensures Valid() && this.source == source && State() == InitState()
    {
      this.source := source;
      start, cur, line, col := 0, 0, 1, 1;
    }

    function Peek(): char
      reads this
    {
      CharAt(source, cur)
    }

    method Advance() returns (c: char)
      requires cur < |source|
      modifies this
      ensures State() == AdvanceState(old(State())) && c == source[old(cur)]
    {
      cur := cur + 1;
      col := col + 1;
      c := source[cur - 1];
    }

    /** match: advances past `c` when it is the current character. */
    method Match(c: char) returns (matched: bool)
      requires c != '\0' && cur <= |source|
      modifies this
      ensures matched <==> CharAt(source, old(cur)) == c
      ensures State() == if matched then AdvanceState(old(State())) else old(State())
    {
      if Peek() == c {
        var _ := Advance();
        return true;
      }
      return false;
    }

    /** skipWhitespace. */
    method SkipWhitespace()
      requires cur <= |source|
      modifies this
      ensures cur <= |source| && State() == SkipWs(source, old(State()))
    {
      while true
        invariant cur <= |source| && SkipWs(source, State()) == SkipWs(source, old(State()))
        decreases |source| - cur
      {
        var c := Peek();
        if c == '/' {
          if PeekNext(source, cur) == '/' {
            ghost var s := State();
            while Peek() != '\n' && !AtEnd(source, cur)
              invariant s.cur <= cur <= |source| && SkipComment(source, State()) == SkipComment(source, s)
              decreases |source| - cur
            {
              var _ := Advance();
            }
            continue;
          }
          return;
        } else if c == '\n' {
          var _ := Advance();
          line := line + 1;
          col := 1;
        } else if c == ' ' || c == '\t' || c == '\r' {
          var _ := Advance();
        } else {
          return;
        }
      }
    }

    /** CONSUME_DIGITS. */
    method ConsumeDigits()
      requires cur <= |source|
      modifies this
      ensures State() == Digits(source, old(State()))
    {
      while IsDigit(Peek())
        invariant cur <= |source| && Digits(source, State()) == Digits(source, old(State()))
        decreases |source| - cur
      {
        var _ := Advance();
      }
    }

    /** number, after the first digit. */
    method Number() returns (tok: Token)
      requires Valid()
      modifies this
      ensures Valid() && (tok, State()) == ScanNumber(source, old(State()))
    {
      ConsumeDigits();
      if Peek() == '.' {
        if !IsDigit(PeekNext(source, cur)) {
          return ErrorToken(State(), ExpectDigits);
        }
        var _ := Advance();
        ConsumeDigits();
      }
      return MakeToken(State(), TokNumber);
    }

    /** identifier, after the first letter. */
    method Identifier() returns (tok: Token)
      requires Valid() && start < cur
      modifies this
      ensures Valid() && (tok, State()) == ScanIdentifier(source, old(State()))
    {
      var c := Peek();
      while IsAlpha(c) || IsDigit(c)
        invariant start < cur <= |source| && c == Peek()
        invariant Word(source, State()) == Word(source, old(State()))
        decreases |source| - cur
      {
        var _ := Advance();
        c := Peek();
      }
      return MakeToken(State(), IdentifierType(source[start..cur]));
    }

    /** string, after the opening quote. */
    method String() returns (tok: Token)
      requires Valid()
      modifies this
      ensures Valid() && (tok, State()) == StringLit(source, old(State()))
    {
      while Peek() != '"' && !AtEnd(source, cur)
        invariant start <= cur <= |source|
        invariant StringBody(source, State()) == StringBody(source, old(State()))
        decreases |source| - cur
      {
        if Peek() == '\n' {
          line := line + 1;
        }
        var _ := Advance();
      }
      if AtEnd(source, cur) {
        return ErrorToken(State(), Unterminated);
      }
      var _ := Advance();
      return MakeToken(State(), TokString);
    }

    /** scanNext. */
    method ScanNext() returns (tok: Token)
      requires Valid()
      modifies this
      ensures Valid() && (tok, State()) == ScanToken(source, old(State()))
    {
      SkipWhitespace();
      start := cur;
      if AtEnd(source, cur) {
        return MakeToken(State(), TokEof);
      }
      var c := Advance();
      if IsDigit(c) {
        tok := Number();
      } else if IsAlpha(c) {
        tok := Identifier();
      } else if SingleKind(c).Some? {
        tok := MakeToken(State(), SingleKind(c).value);
      } else if c == '"' {
        tok := String();
      } else if c == '=' || c == '!' || c == '<' || c == '>' {
        var two := Match('=');
        var kind :=
          if c == '=' then (if two then TokEqEq else TokEq)
          else if c == '!' then (if two then TokBangEq else TokBang)
          else if c == '<' then (if two then TokLessEq else TokLess)
          else (if two then TokGreaterEq else TokGreater);
        tok := MakeToken(State(), kind);
      } else if c == '|' {
        var two := Match('|');
        tok := if two then MakeToken(State(), TokOr) else ErrorToken(State(), LonePipe);
      } else if c == '&' {
        var two := Match('&');
        tok := if two then MakeToken(State(), TokAnd) else ErrorToken(State(), LoneAmp);
      } else {
        tok := ErrorToken(State(), Unexpected);
      }
    }
  }
}
