# asbtl core in Dafny

A model of the front-to-back core of asbtl, a small bytecode interpreter
written in C. The core covers:

- the tagged value and the growable value list;
- the chunk: code bytes, their source lines and a constant pool;
- the `GROW_CAPACITY` growth rule;
- string objects hashed with 32-bit FNV-1a and interned through an open-addressing hash table with tombstones;
- the cursor-driven scanner;
- the recursive-descent compiler with panic-mode errors, precedence levels and back-patched 16-bit jumps;
- the stack VM's dispatch loop and `interpret`;
- the disassembler's offset arithmetic.

The model is split into one module per C file:

| module | file | models |
|---|---|---|
| `Wrappers` | wrappers.dfy | `Option`, for nullable pointers |
| `Memory` | memory.dfy | `GROW_CAPACITY` and `GROW_ARRAY` |
| `Values` | value.dfy | `Value` (Nil, Bool, Num, Obj), `valuesEq`, class `ValueList` |
| `Chunks` | chunk.dfy | opcodes, class `Chunk` (code, lines, constants) |
| `Objects` | objects.dfy | object kinds, FNV-1a, `hashString`, `makeObjString` |
| `HashTables` | hashtable.dfy | entries, the probe specification, the table invariant, class `HashTable` |
| `ObjectHeap` | heap.dfy | class `Heap`: the VM's object list and intern table; `copyString`, `takeString`, `concatenate`, `newFunc` |
| `Lexer` | scanner.dfy | tokens, the scanning functions, class `Scanner` |
| `ParserState`, `Compiler` | compiler.dfy | the parser state and every parsing function of compiler.c |
| `Precedence` | precedence.dfy | what the precedence functions emit for short expressions |
| `Machine` | vm.dfy | the step function of `run`, class `VM` (stack, `stackTop`, `ip`) |
| `Interpreter` | interpret.dfy | `interpret` |
| `Disassembler` | debug.dfy | instruction lengths, jump targets, the `disassembleChunk` loop |

How the C is rendered:

- **Objects.** Object pointers are handles (`nat`) into a heap map, so pointer identity is handle equality.
- **Mutable state.** The C that mutates state is modelled by classes:
  - `ValueList`, `Chunk`, `HashTable`, `Heap`, `Scanner` and `VM`;
  - arrays that grow by `GROW_CAPACITY`;
  - `modifies` clauses on every method.
- **Methods and their specifications.** Each method is proved against a pure function or predicate:
  - the probe `FindEntry` and the mapping `TableContents` for the hash table;
  - `ScanToken` for the scanner;
  - `Step` and `RunChunk` for the VM;
  - `InternResult` for the heap.
- **The compiler** is a family of functions that pass the parser and the emitted code along as a value of type `PState`.
  - `Parser` is the subtype of `PState` values between parsing steps.
  - C's global `parser` starts a compile holding the token left over from the previous compile. That token is the parameter `stale`.
- **Numbers.** Payloads are an abstract type. The VM takes its double arithmetic and comparisons as a `NumOps` record of functions.
- **Number and string literals.** The compiler records each literal as a description: the number's lexeme for `strtod`, or the string's characters for `copyString`. `interpret` takes two functions: `number`, standing for `strtod` on a lexeme, and `intern`, standing for the handle `copyString` gives a string's characters.
- **Undefined behaviour.** Where the C loop's behaviour is undefined, the VM has the explicit outcome `Undefined`:
  - reading past the code;
  - popping an empty stack;
  - pushing onto a full one;
  - a constant index past the pool.

Places where the headers and the code disagree. The model follows the code.

- `include/value.h:6` still declares `typedef double Value`. The model uses the tagged union that `src/value.c` and `include/object.h` use.
- `src/chunk.c` has no `lines` array and no `appendConstant`. `include/chunk.h:48-61` declares both, and the compiler calls `appendChunk` with a line. The model uses the header's layout, with `lines` parallel to `code`.
- `include/token.h` lists only a few token kinds. The model uses every kind `src/scanner.c` produces.
- `run` in `src/vm.c` has no case for `OP_POP`, `OP_PRINT` or the jumps, although the compiler emits them. Such an opcode ends the run as an unknown instruction.
- `valuesEq` has no true case for nil or for objects. Nil is unequal to nil and an object is unequal to itself. The compiler tests that compare interned strings expect a later snapshot.
- The compiler tests also expect a trailing `OP_NIL`, globals, locals, functions, `if`, `while` and `for`. These belong to a later snapshot; `src/compiler.c` has none of them. Its jump-distance bytes do agree with the tests.
- The repository's own description covers closures, call frames and a garbage collector. None of these is implemented in the files modelled here.

## Model

| member | source | states |
|---|---|---|
| Memory.GrowCapacity | include/memory.h:11 | 8 for every capacity below 8, including 0; twice the capacity from 8 on; always at least 8 and always larger than the input |
| Memory.GrowArray | include/memory.h:13-14 | the grown block has the new length and starts with the old block's contents |
| Values.ValuesEq | src/value.c:37-48 | true exactly for two bools with equal payloads or two numbers with equal payloads; values of different types are never equal |
| Values.ValuesEqNotReflexive | src/value.c:42-47 | nil is not equal to nil, and an object value is not equal to itself |
| Values.ValueList.Init | src/value.c:7-11 | capacity 0, count 0, no storage, no elements |
| Values.ValueList.Append | src/value.c:13-22 | the elements become the old ones plus the value; count grows by one; capacity becomes GROW_CAPACITY of the old one exactly when the list was full, otherwise storage and capacity are unchanged |
| Values.ValueList.Free | src/value.c:24-27 | back to capacity 0, count 0, no storage |
| Chunks.Chunk.Init | src/chunk.c:8-13 | capacity 0, count 0, no code, no lines and an empty constant pool |
| Chunks.Chunk.Append | src/chunk.c:15-24 | code and lines each gain one entry at the end, the rest unchanged; the pool is untouched; capacity grows to GROW_CAPACITY only when full |
| Chunks.Chunk.Patch | src/compiler.c:131-132 | one already-written byte is overwritten in place; lines and constants unchanged |
| Chunks.Chunk.AppendConstant | include/chunk.h:60-61 | the constant joins the end of the pool and the returned index is where it was written; code and lines unchanged |
| Chunks.Chunk.Free | src/chunk.c:26-29 | back to the state initChunk leaves |
| Objects.Fnv1aSnoc | src/object.c:63-66 | hashing one more byte is one more FNV round: XOR the byte in, multiply by 16777619 modulo 2^32 |
| Objects.Fnv1aDependsOnBytes | src/object.c:64 | the hash depends only on the bytes: strings whose characters agree modulo 256 hash alike |
| Objects.HashString | src/object.c:60-69 | the loop returns the FNV-1a hash, from offset basis 2166136261, of exactly the first n characters |
| Objects.Fnv1aOfThree | src/object.c:60-69 | the hash of a three-character string is three rounds from the offset basis |
| Objects.Fnv1aOfFoo | unittests/object_test.c:25-34 | hash("foo") is 0xa9f37ed7 |
| Objects.Fnv1aOfBar | unittests/object_test.c:36-45 | hash("bar") is 0x76b77d1a |
| Objects.HashFooDiffersFromBar | unittests/object_test.c:36-45 | "foo" and "bar" hash differently |
| Objects.MakeObjString | src/object.c:52-56 | a string object with the given characters and their length, whose hash is the FNV-1a hash of those characters |
| HashTables.TombstoneIsNotEmpty | include/hashtable.h:12-18 | a tombstone has a NULL key but is not an empty entry |
| HashTables.Home | src/hashtable.c:24 | the probe starts at `hash % capacity`, inside the table |
| HashTables.Slot | src/hashtable.c:49 | the slot a probe visits after t steps lies inside the table |
| HashTables.Dist | src/hashtable.c:49 | the number of steps from the start to a slot, the inverse of Slot |
| HashTables.DistOfSlot | src/hashtable.c:49 | reaching the slot s steps on takes s steps |
| HashTables.NextSlot | src/hashtable.c:49 | `(index + 1) % capacity` is the next step of the probe |
| HashTables.FindStep | src/hashtable.c:27-50 | the probe loop returns, if at all, a slot index inside the table |
| HashTables.FindEntry | src/hashtable.c:22-51 | findEntry from the key's home slot; a result is a slot inside the table |
| HashTables.FindStepShape | src/hashtable.c:27-50 | a returned slot lies past only non-empty slots and holds the key or a NULL key |
| HashTables.FindStepTerminates | src/hashtable.c:27-50 | the probe returns whenever a genuinely empty slot lies ahead |
| HashTables.FindStepFindsKey | src/hashtable.c:44-47 | the probe returns the key's slot when no empty slot lies before it, however many tombstones it passes |
| HashTables.FindStepFirstFree | src/hashtable.c:31-41 | for an absent key the probe returns the first tombstone met, or else the first genuinely empty slot |
| HashTables.CountNonEmpty | include/hashtable.h:22 | the number of live entries plus tombstones, at most the capacity |
| HashTables.CountNonEmptyUpdate | src/hashtable.c:89-91 | overwriting one slot changes the count only by whether that slot was and is non-empty |
| HashTables.EmptySlotExists | src/hashtable.c:82-84 | a count below the capacity leaves a genuinely empty slot |
| HashTables.CountNonEmptyAllEmpty | src/hashtable.c:56-59 | an array of fresh empty entries counts zero |
| HashTables.CountNonEmptyZero | src/hashtable.c:100-101 | with count zero every slot is empty |
| HashTables.UniqueKeysDistinct | src/hashtable.c:44-46 | the two statements of "each key occurs at most once" agree |
| HashTables.InTableContents | include/hashtable.h:7-10 | the key of a slot is in the mapping, bound to that slot's value |
| HashTables.SlotOfKey | include/hashtable.h:7-10 | every key of the mapping sits in some slot |
| HashTables.TableContentsAgree | src/hashtable.c:93-94 | arrays that differ only in one slot agree on every key outside it |
| HashTables.TableContentsAfterSet | src/hashtable.c:93-94 | writing the pair into the key's slot or a NULL-key slot binds the key to the value in the mapping |
| HashTables.TableContentsAfterNullWrite | src/hashtable.c:57-58 | overwriting a NULL-key slot with a NULL-key entry keeps the mapping |
| HashTables.TableContentsAfterRemove | include/hashtable.h:14-18 | tombstoning the key's slot removes exactly that key from the mapping |
| HashTables.TableContentsSnoc | src/hashtable.c:63-73 | one more slot adds its key, if any, to the mapping |
| HashTables.PathClearMonotone | src/hashtable.c:89-94 | filling empty slots keeps every probe path free of empty slots |
| HashTables.FindEntryInTable | src/hashtable.c:22-51 | on a table keeping the invariant the probe terminates, at the key's slot exactly when the key is present, otherwise at a NULL-key slot |
| HashTables.SetEntry | src/hashtable.c:86-96 | the write keeps the invariant, binds key to value, grows count only for a genuinely empty slot, and the slot has a NULL key exactly when the key was absent |
| HashTables.RemoveEntry | src/hashtable.c:115-120 | tombstoning a present key keeps the invariant and count and removes exactly that key |
| HashTables.RemoveAbsentBreaksCount | src/hashtable.c:115-120 | as written, removing an absent key whose probe ends on an empty slot makes the non-empty slots one more than count, breaking the invariant |
| HashTables.TableInvHeapGrowth | src/object.c:14-23 | allocating more objects keeps the table invariant |
| HashTables.RemoveAbsentCounterexample | src/hashtable.c:111-121 | a concrete table of capacity 8 holding one key, where removing an absent key tombstones an empty slot and count no longer matches |
| HashTables.CountNonEmptyAfterFirst | include/hashtable.h:22 | counting the first slot, then the rest |
| HashTables.UniqueKeysPrefix | src/hashtable.c:63-73 | a prefix of a table with unique keys has unique keys |
| HashTables.TableContentsPrefix | src/hashtable.c:63-73 | the mapping of the first i+1 old slots is that of the first i plus slot i's key |
| HashTables.RehashStart | src/hashtable.c:55-62 | the rebuild starts from a larger array of empty slots and count 0 |
| HashTables.RehashDone | src/hashtable.c:75-78 | after the last old slot the new array keeps the invariant without tombstones, holds exactly the old mapping, and count is its number of keys |
| HashTables.RehashSkip | src/hashtable.c:66-67 | a NULL-key old slot, live or tombstone, is skipped |
| HashTables.RehashInsert | src/hashtable.c:69-72 | a key is re-inserted at the slot findEntry picks in the new array |
| HashTables.RehashExtend | src/hashtable.c:69-72 | the rebuild invariant moves past a slot once its key joins the new array |
| HashTables.FindStringAbsent | src/hashtable.c:134-137 | a probe that reaches an empty slot past only non-matching slots proves no key matches |
| HashTables.HashTable.Init | src/hashtable.c:11-15 | capacity 0, count 0, empty mapping |
| HashTables.HashTable.Free | src/hashtable.c:17-20 | back to capacity 0, count 0, empty mapping |
| HashTables.HashTable.FindEntrySlot | src/hashtable.c:22-51 | the loop returns the slot the probe specification selects, and terminates given an empty slot |
| HashTables.HashTable.Reinsert | src/hashtable.c:62-73 | every old key is re-inserted; the rebuild invariant holds over the whole old array |
| HashTables.HashTable.AdjustCapacity | src/hashtable.c:53-79 | the new capacity, the same mapping, no tombstones, and count equal to the number of live keys |
| HashTables.HashTable.Set | src/hashtable.c:81-97 | key bound to value afterwards; true exactly when the key was absent; growth to GROW_CAPACITY exactly when `count >= 0.75 * capacity`; an overwrite without growth keeps count |
| HashTables.HashTable.Put | src/hashtable.c:86-96 | on a table with room: key bound to value, true exactly for a new key, count unchanged on an overwrite |
| HashTables.HashTable.Get | src/hashtable.c:99-109 | found exactly when the key is in the mapping, with its stored value |
| HashTables.HashTable.Remove | include/hashtable.h:36-38 | true exactly when the key was present, which is then removed; count and capacity unchanged |
| HashTables.HashTable.RemoveAsWritten | src/hashtable.c:111-121 | true exactly when count is non-zero, then the slot findEntry returns becomes a tombstone whether or not it held the key |
| HashTables.HashTable.FindString | src/hashtable.c:123-148 | a result is a key with the same length, hash and characters; NULL only when no key matches |
| ObjectHeap.InternTwice | src/object.c:71-77 | interning the same characters again returns the same object and changes nothing |
| ObjectHeap.InternedIdentity | src/object.c:71-96 | two interned strings with the same characters are one object |
| ObjectHeap.Heap.Init | include/vm.h:17-18 | no objects and an empty intern table |
| ObjectHeap.Heap.AllocateObj | src/object.c:14-23 | the object gets a fresh handle and is prepended to the object list; nothing else changes |
| ObjectHeap.Heap.AllocateString | src/object.c:41-50 | a new string with the given characters, length and hash, prepended to the object list and entered in the intern table with nil |
| ObjectHeap.Heap.EnterString | src/object.c:47 | the tableSet of allocateObjString adds the new string with nil and changes no object |
| ObjectHeap.Heap.NewFunc | src/object.c:25-33 | a new function of arity 0, no name and an empty chunk, prepended to the object list; intern table unchanged |
| ObjectHeap.Heap.HashChars | src/object.c:60-69 | the FNV-1a hash of the first n characters; the heap unchanged |
| ObjectHeap.Heap.CopyString | src/object.c:71-84 | an interned string with the first n characters: the existing one, nothing allocated, when present, else a new one |
| ObjectHeap.Heap.TakeString | src/object.c:86-96 | the same interning result for the whole buffer |
| ObjectHeap.Heap.Concatenate | src/object.c:98-107 | an interned string of a's characters followed by b's, of length a.len + b.len |
| ObjectHeap.Heap.Intern | src/object.c:74-83 | tableFindString, then allocateObjString on a miss, gives the interning result |
| ObjectHeap.InternedAfterAllocation | src/object.c:41-50 | a new string with fresh characters keeps the intern table well formed |
| ObjectHeap.DistinctAfterAllocation | src/object.c:41-50 | a new string with fresh characters keeps interned characters distinct |
| ObjectHeap.InternedAfterOther | src/object.c:25-33 | allocating a non-string object keeps the intern table well formed |
| Lexer.SkipComment | src/scanner.c:83-85 | stops at a newline or the end, moving only forward |
| Lexer.SkipWs | src/scanner.c:82-108 | moves only forward and keeps the lexeme start |
| Lexer.Digits | src/scanner.c:62-64 | every character passed is a digit and the next one is not |
| Lexer.ScanNumber | src/scanner.c:61-80 | the token spans exactly the characters from the lexeme start to the new cursor |
| Lexer.Word | src/scanner.c:141-145 | every character passed is a letter, digit or underscore and the next one is not |
| Lexer.IdentifierTypeIsKeywordLookup | src/scanner.c:110-138 | the trie gives a keyword exactly when the whole lexeme spells it, TOK_IDENTIFIER otherwise |
| Lexer.ScanIdentifier | src/scanner.c:140-148 | the token spans exactly the word scanned |
| Lexer.StringBody | src/scanner.c:151-157 | stops at the closing quote or the end, passing no quote |
| Lexer.StringLit | src/scanner.c:150-165 | a string token spans more than the opening quote; the token spans exactly the characters consumed |
| Lexer.OneOrTwo | src/scanner.c:203-209 | the one- or two-character token spans the characters consumed |
| Lexer.Doubled | src/scanner.c:210-217 | `\|\|` or `&&` or the error token, spanning the characters consumed |
| Lexer.ScanAfter | src/scanner.c:181-220 | every branch after the first character yields a token spanning the characters consumed |
| Lexer.ScanToken | src/scanner.c:174-221 | the lexeme starts after the whitespace; TOK_EOF exactly when nothing more is consumed; any other token consumes at least one character |
| Lexer.ScanAll | src/scanner.c:174-179 | successive tokens form a well-formed stream ending in its only TOK_EOF |
| Lexer.ConsStream | src/scanner.c:174-221 | a well-formed token before a stream is a stream |
| Lexer.ScanTokenWellFormed | src/scanner.c:41-59 | error tokens and only they carry a message; every other token is a slice of the source; a string token holds its quotes |
| Lexer.ScanAllNext | src/scanner.c:174-179 | the stream from a state is the next token followed by the stream from the state after it; after TOK_EOF it repeats |
| Lexer.EofIsStable | src/scanner.c:178-179 | at the end TOK_EOF has length 0 and every later call returns it again from the same state |
| Lexer.TokenCoversLexeme | src/scanner.c:41-49 | a token's start and length cover exactly the characters consumed after the whitespace |
| Lexer.PositionSnoc | src/scanner.c:9-13 | a newline moves to column 1 of the next line, any other character one column right |
| Lexer.SkipCommentPosition | src/scanner.c:83-85 | a comment contains no newline and moves the column one per character |
| Lexer.PositionPrepend | src/scanner.c:95-102 | the position after one character, then the rest |
| Lexer.SkipWsPosition | src/scanner.c:82-108 | skipWhitespace passes blanks and comments only, and leaves the line and column that reading them gives: each newline bumps the line and resets the column to 1 |
| Lexer.CommentThenBlanks | src/scanner.c:89-93 | a comment followed by more whitespace gives the combined position |
| Lexer.PositionAppend | src/scanner.c:87-105 | the position after u and then w |
| Lexer.NumberToken | src/scanner.c:183-184 | from a digit, scanNext yields a number lexeme of digits with an optional `.digits`, or "expect digits after '.'" exactly when a `.` follows without a digit |
| Lexer.NumberLitShape | src/scanner.c:61-80 | number yields that shape |
| Lexer.NumberWithFraction | src/scanner.c:69-77 | digits, `.` and digits form a number token |
| Lexer.DigitRunSplit | src/scanner.c:61-80 | a digit run with an optional fraction spells a number |
| Lexer.DigitsFrom | src/scanner.c:62-66 | the first digit and the run after it are all digits |
| Lexer.WordToken | src/scanner.c:186-188 | from a letter or underscore, scanNext yields the whole word, with the kind the keyword trie gives it |
| Lexer.StringToken | src/scanner.c:201 | from a quote, a string lexeme with both quotes and no other, the line moved on by its newlines; otherwise "unterminated string" |
| Lexer.StringLitShape | src/scanner.c:150-165 | the same, once the opening quote is read |
| Lexer.StringLitLines | src/scanner.c:152-154 | the line count of a closed string |
| Lexer.NewlinesAppend | src/scanner.c:152-154 | the newlines of u + w are those of u plus those of w |
| Lexer.StringBodyLines | src/scanner.c:151-157 | the string body moves the line by the newlines it passes |
| Lexer.OperatorTokens | src/scanner.c:203-209 | `=`, `!`, `<` and `>` give the two-character token of length 2 when `=` follows, else the one-character token of length 1 |
| Lexer.LogicalTokens | src/scanner.c:210-220 | `\|\|` and `&&` give TOK_OR and TOK_AND; a lone `\|` or `&` and any unknown character give their error tokens |
| Lexer.ScanTest | unittests/scanner_test.c:26-47 | "+ - * / ( ) 123" scans to the six one-character tokens at their columns, then 123 of length 3, then TOK_EOF |
| Lexer.BlankThenSingle | src/scanner.c:100-102 | one blank, then a one-character token one column further |
| Lexer.SingleCharToken | src/scanner.c:191-202 | a one-character token after whitespace has length 1 and leaves the cursor past it |
| Lexer.SingleAfter | src/scanner.c:190-202 | the one-character cases yield the token of that character |
| Lexer.Scanner.Init | src/scanner.c:167-172 | both pointers at the start, line 1, column 1 |
| Lexer.Scanner.Advance | src/scanner.c:9-13 | one character on, one column right, returning the character passed |
| Lexer.Scanner.Match | src/scanner.c:28-35 | advances exactly when the current character is the one asked for |
| Lexer.Scanner.SkipWhitespace | src/scanner.c:82-108 | the loop leaves the state SkipWs gives |
| Lexer.Scanner.ConsumeDigits | src/scanner.c:62-64 | the loop leaves the state Digits gives |
| Lexer.Scanner.Number | src/scanner.c:61-80 | the token and state ScanNumber gives |
| Lexer.Scanner.Identifier | src/scanner.c:140-148 | the token and state ScanIdentifier gives |
| Lexer.Scanner.String | src/scanner.c:150-165 | the token and state StringLit gives |
| Lexer.Scanner.ScanNext | src/scanner.c:174-221 | the token and state ScanToken gives |
| Compiler.ErrorAt | src/compiler.c:29-47 | in panic mode nothing changes; otherwise panic mode and the error flag are set and this error is the one reported |
| Compiler.ErrorParsed | src/compiler.c:29-47 | an error consumes no token and emits nothing |
| Compiler.Fetch | src/compiler.c:60-69 | the loop of advance stops on a real token, the last handed out, or stays on TOK_EOF; a set error flag stays set with its report |
| Compiler.FetchSkipsErrors | src/compiler.c:63-66 | every token the loop passes over is an error token |
| Compiler.FetchFlags | src/compiler.c:63-66 | after the loop the error flag is set exactly when it was before or an error token was met |
| Compiler.FetchReports | src/compiler.c:63-64 | the first error token met is the one reported, with its message |
| Compiler.Advance | src/compiler.c:57-70 | the current token becomes the previous one; nothing is emitted; a token is consumed unless at TOK_EOF |
| Compiler.Consume | src/compiler.c:72-79 | on the expected kind the token is consumed; otherwise nothing is consumed and the error flag is set |
| Compiler.EmitByteParsed | src/compiler.c:95-97 | emitByte appends exactly that byte and consumes no token |
| Compiler.EmitBytes | src/compiler.c:99-102 | two bytes appended, each with the previous token's line |
| Compiler.EmitJump | src/compiler.c:109-114 | the opcode and two 0xFF bytes appended; the result is count - 2, the offset of the high byte |
| Compiler.SplitBytes | src/compiler.c:131-132 | the high and low byte read back give the distance modulo 2^16 |
| Compiler.Patch | src/compiler.c:130-132 | the two bytes at the offset hold the big-endian distance to the end of the code; every other byte kept |
| Compiler.PatchJump | src/compiler.c:121-133 | the patch is written; the error flag is set exactly when it was before or the distance exceeds 65535, that error then being the one reported |
| Compiler.PatchParsed | src/compiler.c:121-133 | patching a placeholder emitted later keeps everything emitted before |
| Compiler.EmitConstant | src/compiler.c:135-145 | the literal always joins the pool; an index up to 255 emits OP_CONSTANT and the index; above 255 nothing is emitted and the error flag is set |
| Compiler.Number | src/compiler.c:151-154 | the previous token's lexeme joins the pool as a number literal |
| Compiler.String | src/compiler.c:156-163 | the previous token's lexeme without its quotes joins the pool |
| Compiler.Grouping | src/compiler.c:165-168 | an expression and `)`, keeping every parsing invariant |
| Compiler.Primary | src/compiler.c:170-202 | one of its tokens is consumed; any other is reported and not consumed |
| Compiler.Matched | src/compiler.c:171-199 | each primary case after its match keeps every parsing invariant |
| Compiler.Unary | src/compiler.c:204-219 | a unary consumes tokens exactly when it starts with one it accepts, otherwise reports an error; `!` and `-` end with OP_NOT and OP_NEGATE |
| Compiler.Level | src/compiler.c:221-308 | factor through logicalOr: stops on a token no operator of its levels matches; consumes exactly when its first token starts an expression, otherwise reports an error |
| Compiler.Loop | src/compiler.c:224-234 | a level's `while (match(...))` loop ends on a token it does not match; nothing happens when the current token is not its operator |
| Compiler.BinaryStep | src/compiler.c:225-233 | one round of factor, term, comparison or equality ends with the operator's instruction |
| Compiler.LogicalStep | src/compiler.c:291-296 | one round of `&&` or `\|\|`: OP_JUMP_IF_FALSE or OP_JUMP_IF_TRUE, a placeholder patched to land just after the right operand, and OP_POP |
| Compiler.JumpPatched | src/compiler.c:292-295 | the same round after the operator is consumed |
| Compiler.JumpThenOperand | src/compiler.c:292-294 | the jump, its placeholder, OP_POP and the right operand |
| Compiler.Expression | src/compiler.c:310-312 | logicalOr: stops on a token no binary operator matches |
| Compiler.Terminated | src/compiler.c:314-324 | an expression and `;`, then OP_PRINT or OP_POP, emitted even after an error; when the token after the expression is not `;` the error flag is set, and when it is `;` that token is consumed |
| Compiler.TerminatedStuck | src/compiler.c:314-324 | from a token no expression takes and not `;`, nothing is consumed and only the opcode is emitted |
| Compiler.PrintStatement | src/compiler.c:326-329 | `print`, then a statement ending in OP_PRINT; a missing `;` after the expression sets the error flag, a present one is consumed |
| Compiler.Statement | src/compiler.c:326-333 | ends with OP_PRINT after `print`, with OP_POP otherwise; an expression statement whose expression is not followed by `;` sets the error flag, and one followed by `;` consumes it |
| Compiler.StatementStuck | src/compiler.c:320-333 | from a token no statement takes, only OP_POP is emitted and the error flag is set |
| Compiler.AdvanceAtEof | src/compiler.c:57-70 | advancing at TOK_EOF stays on TOK_EOF |
| Compiler.CompileLoopAsWritten | src/compiler.c:350-352 | where the loop ends, it ends on TOK_EOF having kept every parsing invariant |
| Compiler.CompileLoop | src/compiler.c:350-352 | the loop with a stuck token skipped always ends on TOK_EOF |
| Compiler.StuckRepeats | src/compiler.c:350-352 | from a token no statement consumes, every round stays on that token and appends one OP_POP, without end |
| Compiler.LoopAgrees | src/compiler.c:350-352 | where the loop as written ends, the corrected loop ends in the same state |
| Compiler.LoopStuckFails | src/compiler.c:350-352 | where the loop as written never ends, the corrected loop reports an error |
| Compiler.Start | src/compiler.c:339-346 | compile starts at the first token with the error flags cleared and no constants added |
| Compiler.CompileTokens | src/compiler.c:339-356 | the code ends with OP_RETURN after what the chunk held; the result is true exactly when no error was reported, never when an error token was scanned |
| Compiler.EndCompiler | src/compiler.c:335-337 | OP_RETURN appended; the result is the negated error flag |
| Compiler.CompileTokensAsWritten | src/compiler.c:339-356 | where compile as written ends, it agrees with the corrected compile; where it never ends, the corrected compile returns false |
| Compiler.Compile | src/compiler.c:339-356 | the source compiled: OP_RETURN last, lines parallel to code, true exactly when no error was reported |
| Precedence.MatchedNumber | src/compiler.c:151-154 | primary's number case emits OP_CONSTANT with the next index |
| Precedence.MatchedIsNumber | src/compiler.c:171-174 | primary on a number is number() |
| Precedence.ConstantIs | src/compiler.c:135-145 | emitConstant with room for the index |
| Precedence.UnaryNumber | src/compiler.c:204-218 | a number as a unary: advance, then its constant |
| Precedence.LevelOver | src/compiler.c:221-308 | a level whose operand stops where its level stops is that operand |
| Precedence.LevelsAbove | src/compiler.c:221-308 | levels agree when the lower one stops where the higher one stops |
| Precedence.NumberOperand | src/compiler.c:221-308 | a lone number followed by a stopping token is just its constant at every level |
| Precedence.BinaryStepIs | src/compiler.c:225-233 | a round: advance past the operator, parse the level below, emit the operator's instruction |
| Precedence.BinaryRound | src/compiler.c:225-233 | a round with a number operand: its constant, then the operator's instruction |
| Precedence.LevelIs | src/compiler.c:221-224 | a level is the level below followed by its loop |
| Precedence.LoopIs | src/compiler.c:224-234 | the loop at one of its operators is a round followed by the loop |
| Precedence.Single | src/compiler.c:221-286 | `a op b` of numbers emits both constants, then op's instruction, leaving the parser on the following token |
| Precedence.LoopOnce | src/compiler.c:224-234 | a loop whose operand is one number followed by a non-operator runs exactly one round |
| Precedence.SingleAbove | src/compiler.c:221-286 | the same as an expression of any higher level that also stops there |
| Precedence.TwoRounds | src/compiler.c:224-234 | two operators of one level: two rounds, the first operator's first |
| Precedence.LeftAssociative | src/compiler.c:237-251 | `a op1 b op2 c` with both operators of one level is `(a op1 b) op2 c`; `1 + 2 - 3` gives C0 C1 ADD C2 SUB as unittests/compiler_test.c:31-49 expects |
| Precedence.TightRound | src/compiler.c:240-249 | a round whose right operand is `b op c` with a tighter operator emits that operand in full first |
| Precedence.TightLoop | src/compiler.c:240-249 | the loop ends after that round |
| Precedence.TighterRight | src/compiler.c:221-251 | `a op1 (b op2 c)` when op2 binds tighter: three constants, op2, then op1; `1 + 2 * 3` gives C0 C1 C2 MUL ADD as unittests/compiler_test.c:51-69 expects |
| Precedence.LooserRight | src/compiler.c:221-251 | `(a op1 b) op2 c` when op1 binds tighter: two constants, op1, the third constant, then op2 |
| Precedence.ExpressionAt | src/compiler.c:310-312 | an expression that stops where `\|\|` stops is the whole expression |
| Machine.IsFalsy | src/vm.c:29-32 | true exactly for nil and false |
| Machine.Step | src/vm.c:69-103 | a step that goes on advances ip within the code and keeps the stack within STACK_MAX |
| Machine.NotStep | src/vm.c:79 | OP_NOT replaces the top with the bool of its falsiness, depth unchanged |
| Machine.BinaryStep | src/vm.c:59-67 | two numbers are popped and `a op b` pushed, a being the deeper one; the depth drops by exactly one |
| Machine.TypeFault | src/vm.c:59-87 | a non-number operand of a binary operator, OP_EQ and OP_NOT_EQ included, or of OP_NEGATE ends the run with INTERPRET_RUNTIME_ERR, that instruction's line and an empty stack |
| Machine.ConstantStep | src/vm.c:95 | OP_CONSTANT pushes the constant its operand names and advances ip by 2 |
| Machine.StopSteps | src/vm.c:96-103 | OP_RETURN pops the top and gives INTERPRET_OK; an opcode run has no case for gives INTERPRET_RUNTIME_ERR |
| Machine.RunStackBound | include/vm.h:10-13 | a defined run leaves at most STACK_MAX values |
| Machine.AddProgram | src/vm.c:56-109 | the chunk `OP_CONSTANT 0 OP_CONSTANT 1 OP_ADD OP_RETURN` over the numbers x and y returns x + y and leaves an empty stack |
| Machine.VM.Init | src/vm.c:48-50 | an empty stack |
| Machine.VM.ResetStack | src/vm.c:11-13 | the stack emptied, nothing else changed |
| Machine.VM.Push | src/vm.c:20-23 | the value on top, stackTop one higher |
| Machine.VM.Pop | src/vm.c:15-18 | the top returned and removed, stackTop one lower |
| Machine.VM.Peek | src/vm.c:25-27 | the value `dist` below the top |
| Machine.VM.ReplaceTop | src/vm.c:79 | the top overwritten in place |
| Machine.VM.ExecuteBinary | src/vm.c:59-67 | the registers as Step says for a binary operator |
| Machine.VM.ExecuteLiteral | src/vm.c:77-78 | the registers as Step says for OP_FALSE, OP_TRUE and OP_NIL |
| Machine.VM.ExecuteNot | src/vm.c:79 | the registers as Step says for OP_NOT |
| Machine.VM.ExecuteNegate | src/vm.c:80-87 | the registers as Step says for OP_NEGATE |
| Machine.VM.ExecuteConstant | src/vm.c:95 | the registers as Step says for OP_CONSTANT |
| Machine.VM.ExecuteStop | src/vm.c:96-103 | the registers as Step says for OP_RETURN and unknown opcodes |
| Machine.VM.Execute | src/vm.c:70-103 | one pass of the dispatch loop as Step says |
| Machine.VM.Run | src/vm.c:56-109 | the result and final stack RunChunk gives |
| Interpreter.Pool | src/compiler.c:151-163 | one value per literal, in order: a number literal becomes a number, a string literal the object handle of its characters |
| Interpreter.Load | src/compiler.c:95-97 | a chunk holding exactly the compiled code, lines and constants |
| Interpreter.Interpret | src/vm.c:111-128 | INTERPRET_COMPILER_ERR on a failed compile, otherwise the result of running the compiled chunk from its first byte |
| Interpreter.StuckCompile | src/compiler.c:350-352 | where compile as written never returns, the model of interpret answers INTERPRET_COMPILER_ERR |
| Interpreter.BlankCompile | src/compiler.c:339-356 | a blank source compiles without error to the lone OP_RETURN |
| Interpreter.BlankSource | src/vm.c:96-99 | interpreting it pops an empty stack: undefined behaviour |
| Disassembler.InstructionLengths | src/debug.c:43-81 | constant- and byte-operand ops advance by 2, jumps by 3 with sign -1 only for OP_LOOP, everything else and unknown opcodes by 1 |
| Disassembler.JumpTarget | src/debug.c:27-35 | `offset + 3 + sign * ((hi << 8) \| lo)`, backwards for OP_LOOP |
| Disassembler.OffsetsStep | src/debug.c:83-90 | the visited offsets start at 0, stay inside the code, each past the instruction before, the last reaching the end |
| Disassembler.OffsetsIncrease | src/debug.c:83-90 | the visited offsets strictly increase |
| Disassembler.DisassembleChunk | src/debug.c:83-90 | the loop visits exactly those offsets |
| Disassembler.PatchedJumpTarget | src/debug.c:29-31 | a forward jump patched by patchJump decodes to the position the code had reached at the patch |
| Disassembler.WhileLoopTargets | unittests/compiler_test.c:134-145 | in `while (true) print true;` the OP_JUMP_IF_FALSE at 1 lands on 10 and the OP_LOOP at 7 lands on 0 |

## Left out

- Printing is left out: `printValue`, `printObj`, `printFunc`, the `fprintf` calls of `runtimeError` and `errorAt`, and the disassembler's output. Only returned values and state changes are modelled. `errorAt` keeps the first report as a value.
- Double arithmetic and comparisons, `strtod`, `%g` and NaN are left out. Number payloads are abstract and `==` on them stands for C's `==`.
- `reallocate` in `src/memory.c` is left out, as is its failure exit. Storage is Dafny arrays.
- `takeString`'s freeing of the duplicate buffer is left out. It only concerns memory ownership.
- Native functions (`newNative`) are left out. They are host function pointers.
- Garbage collection, closures, upvalues and call frames are left out. Nothing in the files modelled implements them.
- `src/token.c` `tokTypeStr`, `src/main.c` and the unit-test drivers are left out. They only print or drive.
- The compiler is modelled on values, not as a class over the global `parser` and the chunk it writes through. So the model does not capture the in-place writes into the caller's chunk or the aliasing between `parser.chunk` and the `Chunk` given to `compile`.
  - The writes are modelled as the emitted sequence.
  - `Interpreter.Load` then writes that sequence into a fresh `Chunk`.
  - `Chunks.Chunk.Patch` models `patchJump`'s in-place overwrite.
- The scanner is run in full before compiling (`Lexer.ScanAll`), not call by call from `advance`. Its tokens are the same, as `Lexer.ScanAllNext` shows.
- Compiler.CompileLoopAsWritten: returns None where the C loop never ends, instead of growing the chunk without bound.
- Precedence.Single, Precedence.LeftAssociative, Precedence.TighterRight, Precedence.LooserRight: precedence and associativity are proved only for two or three number operands followed by a token other than TOK_EOF. They are not proved for arbitrary operand expressions.
- Compiler.LogicalStep: the bytes `0x00 0x02` of `true && false` are not proved as a concrete compile. Compiler.LogicalStep proves the general property: the placeholder is patched to the distance from after it to the end of the right operand. `true && false` has a one-byte right operand, which gives `0x00 0x02`.
- Machine.VM.Push: requires `stackTop < STACK_MAX`. C does no check, and a push onto a full stack is undefined behaviour.
- Machine.VM.Run: requires that the run is not `Undefined` (no read past the code, no pop of an empty stack, no overflow, no constant past the pool). C's behaviour in those cases is undefined.
- Interpreter.Interpret: requires the same of the compiled chunk, so that its result is defined.
- Compiler.CompileTokens, Compiler.Compile, Interpreter.Interpretation and Interpreter.Interpret: they use the corrected statement loop of the second finding below. On a source whose statement loop sticks, such as `)`, they report a compile error, and `interpret` answers INTERPRET_COMPILER_ERR. The C `compile` never returns there: it appends OP_POP until `reallocate` fails and exits. Compiler.CompileTokensAsWritten and Interpreter.StuckCompile state the relation between the two.
- Interpreter.Pool and Interpreter.Interpret: the `copyString` calls that `string()` makes while compiling are not run. In C they allocate string objects into the VM's object list and intern them in `vm.strings`. The model takes the handles they give as the parameter `intern`, and the heap is not changed. `ObjectHeap.Heap.CopyString` models that call on its own.
- Objects.ByteOf: a Dafny `char` stands for one C byte other than NUL. Non-ASCII text, which C stores as several bytes that are each hashed and counted in `length`, is not modelled. A char is hashed as its code modulo 256.
- HashTables.HashTable.FindString: compares the characters exactly. `strncmp` in `tableFindString` would stop at a NUL byte, but under the reading above no string holds one, so the two agree.
- ObjectHeap.Interned: distinct interned strings have distinct characters, with characters read as non-NUL bytes as above.
- HashTables.HashTable.Get: when the key is absent, C leaves the out-parameter untouched. The model returns nil instead.
- ObjectHeap.Heap.AllocateString: requires that no interned string has these characters, which the callers `copyString` and `takeString` guarantee.
- Objects.MakeObjString: leaves out the `next` pointer, which is NULL. A value built by `makeObjString` is linked into no object list.
- Chunks.Chunk.Free, Values.ValueList.Free and HashTables.HashTable.Free: the storage is replaced by a fresh empty array rather than freed.

## Findings

| source | as written | input that shows it | evidently intended | confidence | as-written member | corrected member |
|---|---|---|---|---|---|---|
| src/hashtable.c:115-117 | `findEntry` never returns NULL, so `hashTableRemove` on a non-empty table tombstones whatever slot the probe returns and reports success, even for an absent key | capacity 8, one live key (hash 0) in slot 0, remove an absent key of hash 1: empty slot 1 becomes a tombstone, true is returned, and `count` (1) no longer counts the 2 non-empty slots | return false unless the slot holds the key, as include/hashtable.h:36-38 documents | not executed; follows from the code | HashTables.RemoveAbsentCounterexample | HashTables.HashTable.Remove |
| src/compiler.c:350-352 | a statement that consumes no token (the source `)`) leaves the parser on the same token, so `while (!match(TOK_EOF)) statement();` repeats forever, appending OP_POP each round | the source `)` | the error is reported and compile ends with false | not executed; follows from the code | Compiler.StuckRepeats | Compiler.CompileLoop |
