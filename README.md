# A verified model of a Befunge-93 interpreter

This project models the `Befunge` class of a small C# interpreter for a
dialect of Befunge-93, together with its entry point `Interpret`.

The interpreter cuts the program text into lines and keeps them as a jagged
grid of characters, each row a `char[]` of its own length. It runs an
instruction pointer over the grid. On each pass of its loop it reads the
current cell, stops on `@`, and otherwise either clears a pending trampoline
or executes the cell's instruction. It then moves one cell in the current
direction, wrapping around the edges. The instructions work on a stack of
32-bit integers, the direction, a string-mode flag, a trampoline flag, the
grid itself (`p` writes a cell, `g` reads one) and an output buffer that `.`
and `,` append to.

The project has five files:

- `csharp_int.dfy` (module `CSharpInt`): the C# integer semantics the
  interpreter relies on.
  - 32-bit `int` with unchecked wrap-around for `+`, `-` and `*`.
  - `/` and `%` truncating toward zero.
  - The `(char)` cast to a UTF-16 code unit.
  - The decimal text that `StringBuilder.Append(int)` writes, with a parser
    proved to be its inverse.
- `lines.dfy` (module `Lines`): the line split of the constructor. It is
  proved to lose nothing but the separators, to be inverted by joining with
  LF, and to give one row per line break plus one.
- `machine.dfy` (module `Machine`): the semantics as functions on values.
  - The instruction table.
  - Each instruction's effect on a `State`.
  - Wrap-around movement.
  - One pass of the fetch, dispatch and move loop.
  - A run bounded by fuel, with the `?` draws supplied by an oracle.
- `befunge.dfy` (module `Interpreter`): the class itself.
  - The grid is an `array<array<CodeUnit>>` that `p` writes in place, and
    the stack is a `seq` the methods reassign.
  - The position, direction and flags are mutable fields.
  - There is one method per private method of the original and the `Start`
    loop. Each method is proved to do exactly what the functions of
    `Machine` say.
- `properties.dfy` (module `Properties`): what the semantics guarantee.
  - The effect and faults of each instruction.
  - The `p`/`g` round trip.
  - Decoding.
  - Movement on the wrap-around rows.
  - Halting, the trampoline, and the output and fuel of a whole run.
  - Two complete programs.

A .NET exception is a `Fault`, and an operation that can throw returns a
`Result`. The three faults are:
- `StackUnderflow`, for `Stack<int>.Pop` on an empty stack;
- `AddressOutOfRange`, for an index outside the jagged grid;
- `DivisionOverflow`, for `int.MinValue / -1` and `int.MinValue % -1`.

None of them is caught in the original, so a fault ends the run.

## Model

| member | source | states |
|---|---|---|
| CSharpInt.Wrap | BefungeInterpreter/Program.cs:58 | the unchecked 32-bit sum, difference or product is congruent to the exact value modulo 2^32 and equals it when it fits |
| CSharpInt.ToCodeUnit | BefungeInterpreter/Program.cs:189 | `(char)v` is congruent to `v` modulo 2^16 and is `v` itself when `v` is already a code unit |
| CSharpInt.Quot | BefungeInterpreter/Program.cs:79 | C#'s `b / a` for `a != 0`: the quotient of the magnitudes, negated when the signs differ, so it rounds toward zero |
| CSharpInt.Rem | BefungeInterpreter/Program.cs:86 | C#'s `b % a` for `a != 0`: the remainder of the magnitudes with the sign of the dividend `b` |
| CSharpInt.QuotRem | BefungeInterpreter/Program.cs:79 | truncating `/` and `%` satisfy `b == a*q + r`, with `abs(r) < abs(a)`, `r` carrying the sign of `b`, and `abs(a*q) <= abs(b)` (rounding toward zero) |
| CSharpInt.QuotInRange | BefungeInterpreter/Program.cs:75-87 | every 32-bit quotient and remainder fits in 32 bits except `int.MinValue / -1` |
| CSharpInt.Digits | BefungeInterpreter/Program.cs:308 | the digits are decimal digits, at least one, with no leading zero |
| CSharpInt.Decimal | BefungeInterpreter/Program.cs:308 | the text `Append(int)` writes: a `-` for a negative value, then the digits of its magnitude |
| CSharpInt.DigitsRoundTrip | BefungeInterpreter/Program.cs:308 | the digit string of a natural number reads back as that number |
| CSharpInt.DecimalRoundTrip | BefungeInterpreter/Program.cs:308 | the text `.` appends is an optional minus sign followed by digits, starts with `-` exactly for a negative value, and parses back to the value |
| Lines.SplitLines | BefungeInterpreter/Program.cs:46 | the split gives at least one row and no row contains CR or LF |
| Lines.RowCount | BefungeInterpreter/Program.cs:46-47 | there is one row more than there are line breaks, CR LF counting as one break |
| Lines.JoinSplit | BefungeInterpreter/Program.cs:46 | the rows joined with LF are the text with every CR LF and lone CR turned into LF: only separators are dropped, in order |
| Lines.SplitJoin | BefungeInterpreter/Program.cs:46 | rows free of line breaks come back unchanged from their LF-joined text |
| Lines.TrailingBreak | BefungeInterpreter/Program.cs:46 | text ending in a line break yields a final empty row |
| Machine.Pop | BefungeInterpreter/Program.cs:182-185 | `Pop` succeeds exactly on a non-empty stack and splits it into the rest and the top |
| Machine.Decode | BefungeInterpreter/Program.cs:244-331 | the case the `switch` selects for a character: the six operators, `!`, the four arrows, `?`, `_`, the bar, `"`, `:`, the backslash, `$`, `.`, `,`, `#`, `p`, `g` and the space each have their own case, and every other character, `@` included, falls to the default case |
| Machine.Apply | BefungeInterpreter/Program.cs:54-99 | the value an operator pushes from the top `a` and the value `b` below it: wrapped `a + b`, `b - a` and `a * b`; for `/` and `%` 0 when `a` is 0, `DivisionOverflow` for `int.MinValue` over `-1`, otherwise the truncating `b / a` and `b % a`; for the backtick 1 if `b > a` and 0 otherwise |
| Machine.Binary | BefungeInterpreter/Program.cs:54-99 | a binary operator on the stack: pop `a`, pop `b` (either pop can underflow), then push `Apply`'s value or fail with its fault |
| Machine.LogicalNot | BefungeInterpreter/Program.cs:89-92 | `!` outside string mode: pop a value (or underflow) and push 1 if it was 0, else 0 |
| Machine.Dup | BefungeInterpreter/Program.cs:155-158 | `:` pushes a copy of the top, or 0 on an empty stack |
| Machine.SwapTop | BefungeInterpreter/Program.cs:160-175 | the backslash swaps the top two values when there are two or more; a single value `a` becomes `[0, a]`; an empty stack underflows |
| Machine.PushValue | BefungeInterpreter/Program.cs:207-210 | the value the default case pushes: the character code in string mode, its offset from `'0'` otherwise |
| Machine.Load | BefungeInterpreter/Program.cs:204 | a grid read succeeds exactly inside the jagged grid |
| Machine.Store | BefungeInterpreter/Program.cs:197 | a grid write succeeds exactly inside the jagged grid and never changes the grid's shape |
| Machine.PutCell | BefungeInterpreter/Program.cs:192-198 | `p` never changes the grid's shape |
| Machine.GetCell | BefungeInterpreter/Program.cs:200-205 | `g` pops the row, then the column, and pushes the code of that cell, or fails with underflow or `AddressOutOfRange` |
| Machine.Initial | BefungeInterpreter/Program.cs:36-52 | the initial state is well formed (at least one row, pointer on a row) |
| Machine.Advance | BefungeInterpreter/Program.cs:103 | one step right or down is `+1` modulo the ring length |
| Machine.Retreat | BefungeInterpreter/Program.cs:108 | one step left or up is `-1` modulo the ring length |
| Machine.Move | BefungeInterpreter/Program.cs:212-231 | a move keeps the state well formed and changes only the row and column |
| Machine.Execute | BefungeInterpreter/Program.cs:244-331 | no instruction moves the pointer or changes the grid's shape |
| Machine.Operate | BefungeInterpreter/Program.cs:244-331 | every case but `?` keeps the state well formed, the pointer and the grid's shape |
| Machine.ExecArith | BefungeInterpreter/Program.cs:246-260 | the six operator cases: the stack becomes `Binary`'s result and nothing else changes, or the fault |
| Machine.ExecNot | BefungeInterpreter/Program.cs:261-270 | `!` pushes its own code in string mode and is `LogicalNot` outside it |
| Machine.ExecHorizontalIf | BefungeInterpreter/Program.cs:126-136 | `_` pops a value (or underflows) and heads right on 0 and left otherwise |
| Machine.ExecVerticalIf | BefungeInterpreter/Program.cs:138-148 | the bar pops a value (or underflows) and heads down on 0 and up otherwise |
| Machine.ExecToggleString | BefungeInterpreter/Program.cs:150-153 | `"` flips the string-mode flag and changes nothing else |
| Machine.ExecDuplicate | BefungeInterpreter/Program.cs:298-300 | the `:` case applies `Dup` to the stack and never fails |
| Machine.ExecSwap | BefungeInterpreter/Program.cs:301-303 | the backslash case applies `SwapTop` to the stack, or fails with its underflow |
| Machine.ExecDiscard | BefungeInterpreter/Program.cs:177-180 | `$` pops and drops the top, or underflows |
| Machine.ExecPut | BefungeInterpreter/Program.cs:192-198 | `p` replaces the grid and stack with those of `PutCell`, or fails with its fault |
| Machine.ExecGet | BefungeInterpreter/Program.cs:200-205 | `g` replaces the stack with that of `GetCell`, or fails with its fault |
| Machine.Fetch | BefungeInterpreter/Program.cs:236 | the loop's read of the current cell fails exactly when the column is past the end of the row |
| Machine.Body | BefungeInterpreter/Program.cs:238-333 | a completed pass leaves the state well formed and the grid's shape unchanged |
| Machine.Step | BefungeInterpreter/Program.cs:236-333 | one turn of the loop: a failing read of the current cell is a fault, `@` halts, and otherwise `Body` gives the next state and text or the fault |
| Machine.Run | BefungeInterpreter/Program.cs:236-334 | the `while` loop from a state with output already written: a failing read crashes, `@` finishes with the output, otherwise a pass runs while fuel is left |
| Machine.Resume | BefungeInterpreter/Program.cs:238-334 | one pass of the loop body with the draw `oracle(steps)`: a fault crashes the run, otherwise the run goes on from the next state with the emitted text appended |
| Machine.RunOnward | BefungeInterpreter/Program.cs:236-334 | a completed pass hands the rest of the run, with one pass less and the emitted text appended, to the next state |
| Machine.RunCrashes | BefungeInterpreter/Program.cs:236-334 | a pass that throws ends the run with that fault |
| Machine.RunContinues | BefungeInterpreter/Program.cs:236-334 | on a cell other than `@` with fuel left, a run either crashes or equals the run from the state the pass leaves, with one pass less and the emitted text appended |
| Machine.RunSteps | BefungeInterpreter/Program.cs:236-334 | with fuel left, `Run` takes exactly the turn `Step` describes: `Halt` finishes with the output so far, `Fail` crashes with the fault, `Next` continues from the state it gives with its text appended |
| Machine.Interpretation | BefungeInterpreter/Program.cs:339-343 | `Interpret`: the run from the initial state of the text with no output written |
| Interpreter.ToCharArray | BefungeInterpreter/Program.cs:50 | a fresh array holding exactly the row |
| Interpreter.Befunge.constructor | BefungeInterpreter/Program.cs:36-52 | the object holds the split text as distinct fresh row arrays, an empty stack, position (0,0), heading right, both flags clear |
| Interpreter.Befunge.Pop | BefungeInterpreter/Program.cs:182-185 | the popped value and the new stack are those of `Machine.Pop`, or the underflow |
| Interpreter.Befunge.PopASCII | BefungeInterpreter/Program.cs:187-190 | as `Pop`, with the value cast to `char` |
| Interpreter.Befunge.Push | BefungeInterpreter/Program.cs:207-210 | pushes the character in string mode and its offset from '0' otherwise |
| Interpreter.Befunge.Additional | BefungeInterpreter/Program.cs:54-59 | the new state, or the fault, is `+` applied to the old state |
| Interpreter.Befunge.Subtraction | BefungeInterpreter/Program.cs:61-66 | the new state, or the fault, is `-` applied to the old state |
| Interpreter.Befunge.Multiplication | BefungeInterpreter/Program.cs:68-73 | the new state, or the fault, is `*` applied to the old state |
| Interpreter.Befunge.Division | BefungeInterpreter/Program.cs:75-80 | the new state, or the fault, is `/` applied to the old state |
| Interpreter.Befunge.Modulo | BefungeInterpreter/Program.cs:82-87 | the new state, or the fault, is `%` applied to the old state |
| Interpreter.Befunge.LogicalNot | BefungeInterpreter/Program.cs:89-92 | the new state, or the fault, is `!` applied to the old state |
| Interpreter.Befunge.Backtrick | BefungeInterpreter/Program.cs:94-99 | the new state, or the fault, is the backtick applied to the old state |
| Interpreter.Befunge.Duplicate | BefungeInterpreter/Program.cs:155-158 | the new state is `:` applied to the old state, which never fails |
| Interpreter.Befunge.Swap | BefungeInterpreter/Program.cs:160-175 | the new state, or the fault, is the backslash applied to the old state |
| Interpreter.Befunge.DiscardPop | BefungeInterpreter/Program.cs:177-180 | the new state, or the fault, is `$` applied to the old state |
| Interpreter.Befunge.Write | BefungeInterpreter/Program.cs:197 | the in-place write of one row array gives the grid `Machine.Store` computes, or its fault |
| Interpreter.Befunge.Put | BefungeInterpreter/Program.cs:192-198 | the new grid and stack, or the fault, are `p` applied to the old state |
| Interpreter.Befunge.Get | BefungeInterpreter/Program.cs:200-205 | the new stack, or the fault, is `g` applied to the old state |
| Interpreter.Befunge.RandomDirection | BefungeInterpreter/Program.cs:121-124 | the direction becomes the drawn one, as `?` does |
| Interpreter.Befunge.RightOrLeft | BefungeInterpreter/Program.cs:126-136 | the new state, or the fault, is `_` applied to the old state |
| Interpreter.Befunge.DownOrUp | BefungeInterpreter/Program.cs:138-148 | the new state, or the fault, is the bar applied to the old state |
| Interpreter.Befunge.StringMode | BefungeInterpreter/Program.cs:150-153 | the new state is `"` applied to the old state |
| Interpreter.Befunge.Right | BefungeInterpreter/Program.cs:101-104 | the column advances by one, wrapping on the current row's length |
| Interpreter.Befunge.Left | BefungeInterpreter/Program.cs:106-109 | the column goes back by one, wrapping on the current row's length |
| Interpreter.Befunge.Down | BefungeInterpreter/Program.cs:111-114 | the row advances by one, wrapping on the number of rows |
| Interpreter.Befunge.Up | BefungeInterpreter/Program.cs:116-119 | the row goes back by one, wrapping on the number of rows |
| Interpreter.Befunge.Move | BefungeInterpreter/Program.cs:212-231 | the new state is `Machine.Move` of the old one |
| Interpreter.Befunge.Arithmetic | BefungeInterpreter/Program.cs:246-260 | each of the six operator cases gives that operator's new state or fault |
| Interpreter.Befunge.Steer | BefungeInterpreter/Program.cs:274-315 | the direction, string-mode and trampoline cases give the new state or fault that `Machine.Execute` gives |
| Interpreter.Befunge.Operand | BefungeInterpreter/Program.cs:246-330 | the stack and grid cases (including `!`, space and the default push in string mode) give the new state or fault of `Machine.Operate` |
| Interpreter.Befunge.Dispatch | BefungeInterpreter/Program.cs:244-331 | the `switch` on the current cell gives the new state, the appended text or the fault of `Machine.Execute` |
| Interpreter.Befunge.Pass | BefungeInterpreter/Program.cs:238-333 | one loop body (trampoline or dispatch, then move) gives the state, text or fault of `Machine.Body` |
| Interpreter.Befunge.Start | BefungeInterpreter/Program.cs:233-336 | the loop's outcome (output at `@`, a fault, or fuel spent) is `Machine.Run` from the initial state |
| Interpreter.Interpret | BefungeInterpreter/Program.cs:339-343 | the result is `Machine.Interpretation` of the text |
| Properties.BinaryEffect | BefungeInterpreter/Program.cs:54-99 | a binary operator underflows on fewer than two values, and otherwise replaces the top two by its value (or fails with its fault), leaving the rest of the stack |
| Properties.ApplyFails | BefungeInterpreter/Program.cs:75-87 | an operator fails exactly for `/` or `%` with `int.MinValue` over `-1`, and then with `DivisionOverflow` |
| Properties.WrappingArithmetic | BefungeInterpreter/Program.cs:54-73 | `+`, `-` and `*` push `a+b`, `b-a` and `a*b` modulo 2^32, and the exact value whenever it fits in 32 bits |
| Properties.DivideByZero | BefungeInterpreter/Program.cs:75-87 | `/` and `%` by zero push 0 |
| Properties.DivisionIdentity | BefungeInterpreter/Program.cs:75-87 | away from zero and the overflow, `/` and `%` satisfy the truncating division identity and the remainder bounds |
| Properties.GreaterIsComparison | BefungeInterpreter/Program.cs:94-99 | the backtick pushes 1 exactly when `b > a` and 0 exactly when `b <= a` |
| Properties.NotTwice | BefungeInterpreter/Program.cs:89-92 | `!` always succeeds on a non-empty stack, and twice it normalises the top to 0 or 1 |
| Properties.DupKeeps | BefungeInterpreter/Program.cs:155-158 | `:` keeps the stack and pushes the top, or 0 on an empty stack |
| Properties.SwapTwice | BefungeInterpreter/Program.cs:160-168 | with two or more values `\` is an involution |
| Properties.SwapShort | BefungeInterpreter/Program.cs:169-175 | `\` turns `[a]` into `[0, a]` and fails on an empty stack |
| Properties.PutInRange | BefungeInterpreter/Program.cs:192-198 | with three values, `p` succeeds exactly when the popped row and column are inside the grid |
| Properties.PutWritesOneCell | BefungeInterpreter/Program.cs:192-198 | `p` pops three values, writes `(char)v` into exactly the addressed cell and keeps every other cell and the shape |
| Properties.PutThenGet | BefungeInterpreter/Program.cs:192-205 | `g` at the address `p` wrote pushes the written character's code |
| Properties.GetReads | BefungeInterpreter/Program.cs:200-205 | `g` pushes the cell's code inside the grid and fails outside it |
| Properties.GlyphOfDecode | BefungeInterpreter/Program.cs:244-331 | decoding loses nothing: every character is recovered from its instruction |
| Properties.DecodeOfGlyph | BefungeInterpreter/Program.cs:244-331 | every labelled case is selected by its own character |
| Properties.OnlyOutputInstructionsEmit | BefungeInterpreter/Program.cs:307-312 | only `.` and `,` append output: the decimal text of the popped value, or the value cast to `char` |
| Properties.OutputIntReadsBack | BefungeInterpreter/Program.cs:307-309 | the text `.` appends parses back to the popped value |
| Properties.ChoiceOnlyForRandom | BefungeInterpreter/Program.cs:286-288 | the drawn direction matters to `?` alone, which takes it as the new direction |
| Properties.DigitsPushTheirValue | BefungeInterpreter/Program.cs:207-210 | outside string mode a digit pushes its value, inside it its code |
| Properties.StringModeQuirks | BefungeInterpreter/Program.cs:261-330 | in string mode `!` and the space push their own codes, an unlabelled character pushes its code rather than its offset from `'0'`, and `"` turns string mode off |
| Properties.StringModeIgnored | BefungeInterpreter/Program.cs:244-331 | every other instruction (the operators, arrows, `?`, `_`, the bar, `:`, the backslash, `$`, `.`, `,`, `#`, `p`, `g`) succeeds or fails exactly as outside string mode, with the same fault, the same new state apart from the flag, which stays set, and the same output |
| Properties.OutsideStringMode | BefungeInterpreter/Program.cs:261-270 | outside string mode space does nothing and `!` is logical negation, failing exactly on an empty stack |
| Properties.DefaultPush | BefungeInterpreter/Program.cs:328-330 | a character without a case of its own pushes its code in string mode and its offset from '0' outside it |
| Properties.MoveAxes | BefungeInterpreter/Program.cs:101-119 | horizontal moves keep the row and wrap on its length, vertical moves keep the column and wrap on the row count, and the next fetch fails exactly when the new row is too short |
| Properties.WalkRight | BefungeInterpreter/Program.cs:101-104 | heading right, `k` moves advance the column by `k` modulo the row length |
| Properties.MovesUndo | BefungeInterpreter/Program.cs:101-119 | a move left undoes a move right, and a move up undoes a move down |
| Properties.TerminatorHalts | BefungeInterpreter/Program.cs:236 | `@` ends the run with the output so far, before the trampoline is consulted and whatever the fuel |
| Properties.StartsAtTerminator | BefungeInterpreter/Program.cs:36-52 | a program starting with `@` returns the empty string: the run starts at the top left corner |
| Properties.TrampolineSkips | BefungeInterpreter/Program.cs:238-241 | a set trampoline is cleared and the cell is not dispatched: stack, grid, direction and string mode are kept, nothing is emitted, and the pointer still moves to where `Move` takes it |
| Properties.MoreFuel | BefungeInterpreter/Program.cs:236-334 | fuel bounds a run but never changes a result reached within it |
| Properties.OutputGrows | BefungeInterpreter/Program.cs:235-335 | output is only appended to: a finished run's output extends the output written before it |
| Properties.ShapeKept | BefungeInterpreter/Program.cs:197 | a pass of the loop never changes the grid's shape |
| Properties.HaltAtOnce | BefungeInterpreter/Program.cs:236 | the program `@` writes nothing |
| Properties.DigitStep | BefungeInterpreter/Program.cs:328-333 | a digit cell pushes its value and the pointer moves on |
| Properties.BinaryStep | BefungeInterpreter/Program.cs:246-260 | a binary operator cell replaces the top two values by its value and the pointer moves on |
| Properties.PrintStep | BefungeInterpreter/Program.cs:307-309 | a `.` cell appends the decimal text of the popped value and the pointer moves on |
| Properties.AddAndPrint | BefungeInterpreter/Program.cs:339-343 | the program `91+.@` prints `10` |

## Left out

- `Main` and its console output are not modelled. It is a driver over sample programs.
- `System.Random` is not modelled. `?` takes its direction from a caller-supplied oracle, indexed by the number of passes made so far. The `directions` array is therefore not modelled either.
- `Regex.Split` is not called. The split it performs with the pattern of line 46 is written out as `Lines.SplitLines`.
- `StringBuilder` is modelled as a sequence of code units that is appended to.
- `Append(int)` writes the value in the invariant format: a `-` sign and ASCII digits. Culture-specific negative signs are not modelled.
- Exceptions are not modelled as control flow. They become a `Fault` that ends the run.
- The state a throwing method leaves behind is not modelled. A method's contract says nothing about the state when it returns a fault, because the original never resumes after one.
- Non-termination is not modelled. A run takes fuel, counted in passes through the loop body, and reports `OutOfFuel` when the fuel is spent.
- Characters are UTF-16 code units (0 to 0xFFFF). Surrogate pairs are two units, as in `char[]`, and no encoding is modelled.
- Interpreter.Befunge.LogicalNot: requires string mode to be off. The original calls it only from the `!` case outside string mode.
- Integer arithmetic is modelled as C#'s default unchecked context. A build with overflow checking, which would throw on `+`, `-` and `*`, is not modelled.

## Notes on the original

- Swap on an empty stack does not fall back to zero: it pops and throws (line 171). The model keeps this.
- String mode is consulted only by `!`, the space and the default case. Inside a string, characters such as `+`, `.` or `>` still act as instructions, and `"` ends the string.
- The default case pushes `c - '0'` outside string mode for every unlabelled character, letters included. This is how digits push their values.
