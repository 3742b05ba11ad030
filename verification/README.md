# alt: a verified model of the assembly parser and virtual machine

`alt` is a small virtual machine for a line-oriented assembly language. A
program is a list of routines. Each routine is a label line `Name:` followed by
one instruction per line. The machine has three byte registers (`I1`, `I2`,
`O`) and a byte memory that grows on demand. Locations can be indirect:
`**M3` reads cell 3, follows the byte found there as a cell index, and then
follows it once more. Routines call each other on a runtime stack: `RADD`
pushes, `RSWP` replaces and `TERM` returns. `BJMP c` skips everything up to
the next `LAND` when `c` is non-zero. `PRINT` writes a number and `PRINTC` a
character.

This Dafny project models the three core files:

- `src/code.rs`: the instruction set, locations, operands, the routine table, and the token parsers for locations and operands.
- `src/parser.rs`: line sanitation, the grouping of labels and bodies, and the opcode table.
- `src/interpreter.rs`: registers, memory and pointer chasing, and the run loop.

Modules:

| module | file | contents |
|---|---|---|
| `Wrappers` | `wrappers.dfy` | `Result` (with a `Reported` error or a `Panicked` outcome) and `Option` |
| `Text` | `text.dfy` | the parts of Rust's `str` the parser uses: `trim`, `split_whitespace`, unsigned `parse`, decimal `Display` |
| `Code` | `code.dfy` | `code.rs` |
| `Parser` | `parser.dfy` | `parser.rs` |
| `ParserProperties` | `parser_properties.dfy` | what `Routines::parse` accepts and the table it builds, stated without its grouping loop |
| `LineProperties` | `line_properties.dfy` | a disassembler for single instructions and the round trip through `parse_line` |
| `Interpreter` | `interpreter.dfy` | `interpreter.rs` |
| `ExecutionProperties` | `execution_properties.dfy` | arithmetic inverses, reads after writes, the frame rule for calls, skip regions, and the bounded run against single steps |

Modelling choices:

- A Rust panic is an explicit outcome. While parsing, it is `Err(Panicked(..))`. The panics are `split_at(1)` on an empty token, or on one whose first character is not ASCII.
- While running, a panic is `Crashed(reason, m)`. The panics are `unwrap` on an undeclared routine, and `wrapping_div` or `wrapping_rem` by zero.
- `Routines::parse` mutates its table, and a failure leaves in place the routines added before it. Such a call returns an `Update(routines, status)`.
- The run loop's local `jumping` flag is the machine's `skipping` field. The flag is reset each time the outer `loop` of `run` starts again, which happens after `RADD`, `RSWP` and `TERM` break out of the inner `for`, when that `for` runs out of instructions, and after popping an exhausted frame. A `for` that runs dry leaves its frame on the stack, and the next turn of the outer loop pops it. The model's `Step` is finer than that loop: it takes one instruction, or pops one exhausted frame. The model resets `skipping` at exactly those points.
- What `print!` and `eprintln!` write is appended to the machine's `output` and `errors` traces.

## Model

| member | source | states |
|---|---|---|
| Code.NewRoutines | src/code.rs:51-55 | a new routine table is empty |
| Code.AddRoutine | src/code.rs:57-63 | the block is stored under the name even when the name was already present, and every other entry is kept; the call succeeds exactly when the name was new and otherwise reports "Routine with the same name already exist" |
| Code.ParseUnit | src/code.rs:83-97 | exactly `I1`, `I2` and `O` denote registers; `M` followed by a `usize` denotes that cell; `M` followed by anything else is "M follow by invalid memory location"; any other token with an ASCII first character is "Unknown memory location"; an empty token, or one with a non-ASCII first character, panics |
| Code.ParseLocation | src/code.rs:110-118 | leading `*`s count indirection levels modulo 256 (the `as u8` cast), and the rest must be a unit location, whose error is passed on unchanged |
| Code.ParseOperand | src/code.rs:131-139 | a token that reads as a location is that location; after a reported location error it is the token's `u8` literal, or "invalid literal/memory location" when it is not one; a panic in the location parser passes through uncaught |
| Code.UnitRoundTrip | src/code.rs:83-97 | every unit location, written canonically, parses back to itself |
| Code.LocationRoundTrip | src/code.rs:107-118 | every location (any number of `*` below 256), written canonically, parses back to itself |
| Code.DecimalOperand | src/code.rs:128-139 | a decimal number is never a location: it reads as a literal when below 256 and is refused otherwise |
| Code.OperandRoundTrip | src/code.rs:128-139 | every operand, written canonically, parses back to itself |
| Text.TrimIdempotent | src/parser.rs:13-15 | trimming an already trimmed line changes nothing |
| Text.WordsAreWords | src/parser.rs:74 | every token `split_whitespace` yields is non-empty and contains no whitespace |
| Text.WordsOfJoin | src/parser.rs:74 | splitting single-spaced words gives back exactly those words |
| Text.ParseDecimal | src/code.rs:91-93 | `parse` reads back the decimal form of every value that fits the integer type and refuses the others |
| Parser.RoutineName | src/parser.rs:20 | a routine name is the line with all its trailing colons removed: a prefix of the line, followed in the line only by `:`, and not itself ending in `:` |
| Parser.LabelHasName | src/parser.rs:123-125 | `IsLabel` (`ends_with(':')`): a line is a label exactly when dropping its trailing colons shortens it |
| Parser.ParseNullary | src/parser.rs:85-90 | a one-token line is an instruction exactly when the token is one of the eight operand-less opcodes, and otherwise "Unknown keyword" |
| Parser.PrintcOperand | src/parser.rs:105-113 | the tokens `\\n` and `\\s` are bytes 10 and 32, a backslash followed by one ASCII character is that character's code, and every other token is read by the operand parser |
| Parser.ParseUnary | src/parser.rs:91-114 | a two-token line is refused as "Unknown keyword" exactly when its opcode does not take one operand; an accepted line's opcode is its instruction's mnemonic; other errors are line errors or panics |
| Parser.UnaryOperands | src/parser.rs:91-114 | an accepted `BJMP`, `PRINT` or `PRINTC` line holds what the location, operand or `PRINTC` operand parser reads from its token; `RADD` and `RSWP` always succeed and keep the name as written |
| Parser.UnaryErrors | src/parser.rs:91-114 | a `BJMP`, `PRINT` or `PRINTC` line fails exactly when its operand's parser fails, and with that parser's error |
| Parser.ParseBinary | src/parser.rs:77-84 | a three-token line is refused as "Unknown keyword" exactly when its opcode is neither `SET` nor `CPY`; an accepted line's opcode is its instruction's mnemonic |
| Parser.BinaryOperands | src/parser.rs:77-84 | an accepted `SET` holds the destination the location parser reads and the `u8` literal; an accepted `CPY` holds the two locations read |
| Parser.BinaryErrors | src/parser.rs:77-84 | `SET` and `CPY` read their operands left to right: a bad destination gives its error; then a bad `SET` literal gives "Cannot parse value" and a bad `CPY` source gives its error |
| Parser.ParseTokens | src/parser.rs:76-116 | "Unknown keyword" exactly when the first token is not an opcode followed by that opcode's operand count; an accepted line's operands are what the token parsers read from its tokens; any other error is that of the first operand whose parser fails |
| Parser.ParseLine | src/parser.rs:71-116 | a line is "Unknown keyword" exactly when its whitespace-separated tokens are not an opcode with its operand count; an accepted line starts with its instruction's mnemonic; every other error is a line error or a panic |
| Parser.ParseEachSpec | src/parser.rs:58-69 | a code block parses exactly when each of its non-empty lines does; the result is one instruction per line in order, and an error is that of the first failing line |
| Parser.ParseCodeBlock | src/parser.rs:58-69 | a code block is accepted exactly when every non-empty line parses, and otherwise rejected with the error of the first line that does not |
| Parser.ParseRoutine | src/parser.rs:47-55 | a routine is added exactly when its body parses and its name is new, and the table then gains exactly that entry; a failing body leaves the table alone and reports its own error; a duplicate name reports "Routine with the same name already exist" after the new body has replaced the old one |
| Parser.Sanitize | src/parser.rs:13-15 | sanitation never yields more lines than it is given |
| Parser.KeepLineSignificant | src/parser.rs:13-15 | one line is kept exactly when its trimmed text is non-empty and not a comment, and then the trimmed text alone is kept |
| Parser.SanitizeKeepsSignificant | src/parser.rs:13-15 | every kept line is trimmed, non-empty and not a comment |
| Parser.SanitizeKeepsSignificantLines | src/parser.rs:13-15 | every input line that is already trimmed, non-empty and not a comment is kept |
| Parser.NextLabel | src/parser.rs:18 | a body runs up to the next label line, or to the end of the input |
| Parser.ParseKept | src/parser.rs:17-42 | grouping never removes a routine already in the table |
| Parser.Parse | src/parser.rs:8-45 | parsing never removes a routine already in the table, even when it fails |
| ParserProperties.ParseKeptSpec | src/parser.rs:17-42 | from any point of the grouping loop, it succeeds exactly when the remaining lines are well formed, and then it tabulates them |
| ParserProperties.KeptAtLabel | src/parser.rs:19-26 | a label line closes any open label with an empty body, then opens its own |
| ParserProperties.KeptAtBody | src/parser.rs:27-37 | a run of body lines becomes the body of the open label, or fails with "code without routine" when no label is open |
| ParserProperties.KeptAtEnd | src/parser.rs:40-42 | at the end of the input, a label still open gets an empty body |
| ParserProperties.ParseSpec | src/parser.rs:8-45 | parsing succeeds exactly when the kept lines start with a label, every body parses and no name is declared twice or already taken; the table is then the old one plus, under each label's name, the parse of the lines up to the next label |
| ParserProperties.BodyOneForOne | src/parser.rs:58-69 | a parsed routine has one instruction per kept line of its body, each the parse of that line |
| ParserProperties.BodyFailsAtFirstBadLine | src/parser.rs:63-64 | a body that fails, fails with the error of its first bad line |
| ParserProperties.KeptErrors | src/parser.rs:17-42 | the grouping loop fails only with "code without routine", "Routine with the same name already exist", or the error the line parser gives for the first body line, in program order, that it rejects; when the duplicate error happens is stated by `DuplicateNeedsClash` |
| ParserProperties.ParseErrors | src/parser.rs:8-45 | a failing parse reports "code without routine", "Routine with the same name already exist", or the error `parse_line` gives for the first kept body line it rejects, every body line before it having parsed; "Routine with the same name already exist" only when a label's name is already in the table or two labels declare the same name |
| ParserProperties.NoOrphanAfterLabel | src/parser.rs:27-37 | once a label has been read, "code without routine" is never reported |
| ParserProperties.LineNeverOrphan | src/parser.rs:71-116 | no single line is rejected with "code without routine" |
| ParserProperties.CodeWithoutRoutine | src/parser.rs:32-35 | "code without routine" is reported exactly when the first kept line is not a label |
| ParserProperties.DuplicateNeedsClash | src/parser.rs:17-42 | the grouping loop reports "Routine with the same name already exist" only when the pending name is in the table, or a later label's name is in the table, is the pending name, or is declared by another label |
| ParserProperties.DuplicateOnlyOnClash | src/parser.rs:8-45 | parsing reports "Routine with the same name already exist" only when a label declares a name the table already holds, or two labels declare the same name |
| ParserProperties.SanitizeAppend | src/parser.rs:13-15 | sanitation works line by line: the kept lines of a concatenation are the concatenation of the kept lines |
| ParserProperties.DropsIgnored | src/parser.rs:119-121 | `IsComment` (`starts_with('#')`): a line whose trimmed text is blank or starts with `#` keeps nothing |
| ParserProperties.IgnoredLine | src/parser.rs:13-15 | a blank or comment line can be inserted anywhere without changing the result |
| ParserProperties.IndentationIrrelevant | src/parser.rs:13-15 | programs whose lines trim to the same text parse identically |
| LineProperties.LineRoundTrip | src/parser.rs:71-116 | every instruction whose routine name is one word, written canonically, parses back to itself |
| LineProperties.TokensRoundTrip | src/parser.rs:76-116 | the canonical tokens of every instruction parse back to it |
| LineProperties.LineOfWords | src/parser.rs:74 | a line of single-spaced words parses as its word list |
| LineProperties.PrintcOrdinary | src/parser.rs:111 | a `PRINTC` token that does not start with a backslash is read by the plain operand parser |
| LineProperties.PrintcPlainOperand | src/parser.rs:105-112 | a canonical operand is never taken for a `PRINTC` escape |
| LineProperties.PrintcEscapes | src/parser.rs:105-112 | `PRINTC` reads `\\n` as byte 10, `\\s` as byte 32, and a backslash followed by an ASCII character as that character's code |
| LineProperties.UnknownKeyword | src/parser.rs:115 | a line is an unknown keyword exactly when its tokens are not an opcode followed by its operand count |
| LineProperties.SetLiteral | src/parser.rs:77-80 | with a valid destination, `SET` fails with "Cannot parse value" exactly when the literal is not a `u8`, and otherwise stores that literal |
| LineProperties.RoutineNamesVerbatim | src/parser.rs:95-100 | `RADD` and `RSWP` keep the routine name as written, whether or not the routine exists |
| Interpreter.WrappingAdd | src/interpreter.rs:152-154 | the sum, less 256 when it overflows a byte |
| Interpreter.WrappingSub | src/interpreter.rs:156-158 | the difference, plus 256 when it falls below zero |
| Interpreter.WrappingMul | src/interpreter.rs:160-162 | the byte congruent to the product modulo 256 |
| Interpreter.WrappingDiv | src/interpreter.rs:163-165 | panics exactly on a zero divisor; otherwise the quotient rounded down |
| Interpreter.WrappingRem | src/interpreter.rs:167-169 | panics exactly on a zero divisor; otherwise a remainder below the divisor |
| Interpreter.Compare | src/interpreter.rs:74-81 | 0, 1 or 2 exactly when `I1` is less than, equal to or greater than `I2` |
| Interpreter.NewRegisters | src/interpreter.rs:128-130 | all registers start at zero |
| Interpreter.RegSet | src/interpreter.rs:148-150 | the named register takes the value and the other two keep theirs |
| Interpreter.NewMemory | src/interpreter.rs:183-188 | memory starts with zero registers and no cells |
| Interpreter.MemGet | src/interpreter.rs:197-199 | a cell past the end reads as zero |
| Interpreter.PointerChase | src/interpreter.rs:202-223 | without `*` a location is itself; with any `*` it ends in a memory cell whose index is a byte |
| Interpreter.Load | src/interpreter.rs:190-195 | a direct location reads its register or cell, and an indirect one reads the memory cell it resolves to |
| Interpreter.Store | src/interpreter.rs:226-240 | a register write changes only that register; a cell write sets the cell, keeps every other cell, and first grows memory with zeros up to the cell when it lies past the end |
| Interpreter.NewInterpreter | src/interpreter.rs:15-20 | a new machine has an empty stack, fresh memory and no output |
| Interpreter.Arithmetic | src/interpreter.rs:69-81 | the register instructions change only `O`: `ADD`, `SUB` and `MUL` store `I1 op I2` modulo 256, `DIV` the quotient rounded down, `MOD` the remainder, and `CMP` 0, 1 or 2 for less, equal or greater; `DIV` and `MOD` with `I2` zero panic with Rust's messages |
| Interpreter.Execute | src/interpreter.rs:57-111 | one instruction panics exactly for a call or swap of an undeclared routine, or a division or remainder by zero; it never shrinks memory and only appends to the output and error streams |
| Interpreter.Step | src/interpreter.rs:52-116 | the loop stops exactly on an empty stack; one turn changes the stack height by at most one, never shrinks memory, and only appends output |
| Interpreter.Run | src/interpreter.rs:48-117 | the run returns only with an empty stack, and only appends output |
| Interpreter.ExecuteRoutine | src/interpreter.rs:27-45 | refused with "call of undeclared routine" and an untouched machine exactly when the name is undeclared; otherwise the routine's frame is pushed on the stack, `jumping` is cleared and the run loop runs from there; a finished run leaves an empty stack |
| Interpreter.ExecuteMain | src/interpreter.rs:22-45 | refused with "call of undeclared routine" exactly when no routine is called `Main`; otherwise `Main`'s frame is pushed and run |
| ExecutionProperties.SubUndoesAdd | src/interpreter.rs:152-158 | wrapping subtraction and addition undo each other |
| ExecutionProperties.MulIsRepeatedAdd | src/interpreter.rs:152-162 | wrapping multiplication by `b + 1` is one more wrapping addition than by `b` |
| ExecutionProperties.DivRemRecompose | src/interpreter.rs:163-169 | quotient times divisor plus remainder is the dividend |
| ExecutionProperties.CompareSwaps | src/interpreter.rs:74-81 | swapping the operands of `CMP` swaps "less" and "greater" |
| ExecutionProperties.StoreThenLoad | src/interpreter.rs:190-240 | after a write, the cell or register the location resolved to holds the value |
| ExecutionProperties.StoreLeavesOthers | src/interpreter.rs:226-240 | a write changes no other register or cell, including cells past the end |
| ExecutionProperties.DirectRoundTrip | src/interpreter.rs:190-240 | writing and then reading a location without `*` gives the value back |
| ExecutionProperties.PointerStep | src/interpreter.rs:213-221 | one more `*` reads through memory once more |
| ExecutionProperties.ChaseIndex | src/interpreter.rs:202-223 | the location with `k + 1` stars resolves to the cell whose index is the value read at `k` stars, so a write through it lands there |
| ExecutionProperties.RegisterReadOverWrite | src/interpreter.rs:132-150 | `RegGet` (`Registry::get`): reading a register right after `set` gives the written byte for that register and the old byte for the other two |
| ExecutionProperties.StepUnder | src/interpreter.rs:54-111 | the frames below the running one take no part in a step |
| ExecutionProperties.StepsUnder | src/interpreter.rs:52-116 | the same holds over any number of steps that keep a frame to run |
| ExecutionProperties.CallPushes | src/interpreter.rs:83-88 | `RADD` pushes one frame holding the routine's code above the caller, which resumes after the call |
| ExecutionProperties.CallReturns | src/interpreter.rs:83-88 | if the callee, run alone, empties its stack in `k` steps, the caller is back on top after `k + 1` steps, with the callee's effects |
| ExecutionProperties.SwapReplaces | src/interpreter.rs:89-95 | `RSWP` replaces the running frame and drops the rest of it, keeping the stack height |
| ExecutionProperties.UndeclaredCallCrashes | src/interpreter.rs:83-95 | `RADD` or `RSWP` of an undeclared routine panics |
| ExecutionProperties.TermPops | src/interpreter.rs:96-99 | `TERM` returns from the running routine |
| ExecutionProperties.ExhaustedPops | src/interpreter.rs:55 | a routine with no instructions left returns |
| ExecutionProperties.SkipRegion | src/interpreter.rs:58-61 | a `BJMP` with a non-zero condition skips everything up to and including the next `LAND`, changing nothing but the position |
| ExecutionProperties.UnclosedRegion | src/interpreter.rs:58-61 | a region with no closing `LAND` runs to the end of the routine, which then returns |
| ExecutionProperties.ZeroBranch | src/interpreter.rs:82 | a `BJMP` with a zero condition does nothing |
| ExecutionProperties.LandOutsideRegion | src/interpreter.rs:110 | a `LAND` outside a skip region only writes the unknown-code-point warning to the error stream |
| ExecutionProperties.SetStep | src/interpreter.rs:62-64 | `SET dest v` writes `v` where `dest` resolves, and nothing else changes but the position in the frame |
| ExecutionProperties.CpyStep | src/interpreter.rs:65-68 | `CPY dest source` writes the value read at `source` where `dest` resolves |
| ExecutionProperties.ArithStep | src/interpreter.rs:69-81 | `ADD` to `CMP` with a usable divisor change only the registers, as `Arithmetic` states; cells, stack below and streams stay |
| ExecutionProperties.AddWraps | src/interpreter.rs:152-154 | `ADD` with `I1` 250 and `I2` 10 leaves 4 in `O` and the cells unchanged |
| ExecutionProperties.ZeroDivisorStep | src/interpreter.rs:163-169 | `DIV` or `MOD` with `I2` zero panics with Rust's message for that operation |
| ExecutionProperties.PrintStep | src/interpreter.rs:100-103 | `PRINT` appends the decimal form of its operand's value to the output |
| ExecutionProperties.PrintEight | src/interpreter.rs:100-103 | `PRINT 8` writes the single character `8` |
| ExecutionProperties.PrintcStep | src/interpreter.rs:104-109 | `PRINTC` appends the character whose code is its operand's value |
| ExecutionProperties.RunFinishes | src/interpreter.rs:52-116 | if some number of steps within the fuel reaches an empty stack, the run finishes in exactly that state |
| ExecutionProperties.FinishedAfterSteps | src/interpreter.rs:52-116 | a finished run ends in a state reached by some number of single steps within the fuel |
| ExecutionProperties.ExecuteRunsSteps | src/interpreter.rs:27-33 | a routine that `execute_routine` runs to completion ends in a state reached by single steps from the machine with its frame pushed and `jumping` cleared |
| ExecutionProperties.EmptyMainFinishes | src/interpreter.rs:22-33 | an empty `Main` run on an empty stack finishes at once and changes nothing but the skip flag |

## Left out

- The example programs and the command-line entry point are not part of this model. Neither is splitting the source text into lines: `Routines::parse` receives the lines already split.
- `serde` serialisation, `Debug` formatting, `Default`, and the seahash hasher of the routine map. The map is an ordinary Dafny `map`.
- `Vec::with_capacity(32)`: capacity cannot be observed.
- `Registry::get_mut` is folded into `RegSet`, and `CodeBlock::new` and `CodeFrame::new` into the `Frame` datatype. A frame is the sequence of instructions its `IntoIter` has left.
- Interpreter.Run: bounded by a `fuel` count of steps (one instruction, or the pop of one exhausted frame, per step). A program that does not stop ends in `OutOfFuel` instead of running forever.
- Interpreter.Store: `Vec::resize` allocation failure is not modelled, and neither is the overflow of `index + 1` at the largest `usize`. Memory grows without bound.
- Interpreter.Run: a panic ends the run as `Crashed` with the machine as it was before the failing instruction. The real process aborts there, after its frame iterator has already moved past that instruction.
- The streams are traces of characters. `print!` of `u8 as char` writes the UTF-8 encoding of that character; the model records the character itself.
- Characters are Unicode scalar values. `char::is_whitespace` is the Unicode White_Space property.
- LineProperties.PrintcEscapes: stated on the token list of a line rather than on the line text. `LineProperties.LineOfWords` carries a statement over to the text for any line made of words.
- `PRINTC` matches the three-byte tokens `\\n` and `\\s`. A two-character `\n` takes the `\c` arm and prints the letter `n`.
- Code.ParseUnit: `usize` is fixed at 64 bits, the usual target. A memory index of 2^64 or more, such as `M18446744073709551616`, is refused as "M follow by invalid memory location"; on a 32-bit target the bound would be 2^32.
- Interpreter.Execute: its own contract states only the crash conditions, that memory never shrinks and that the streams only grow. The effect of each instruction is stated by the step lemmas `SetStep`, `CpyStep`, `ArithStep`, `ZeroDivisorStep`, `PrintStep`, `PrintcStep`, `CallPushes`, `SwapReplaces`, `TermPops`, `ZeroBranch`, `SkipRegion` and `LandOutsideRegion`.
- Interpreter.PointerChase: its own contract does not say which cell an indirect location resolves to. `ExecutionProperties.ChaseIndex` states that.
- Parser.Sanitize: its own contract bounds only the number of kept lines. Which lines are kept is stated by `KeepLineSignificant`, `SanitizeKeepsSignificant`, `SanitizeKeepsSignificantLines`, `SanitizeAppend` and `DropsIgnored`.
