/**
  The interpreter's semantics as functions on values: the instruction table,
  the stack discipline, wrap-around movement, one pass of the fetch, dispatch
  and move loop, and a run bounded by fuel. The class in `befunge.dfy` is
  proved to do exactly what these functions say.
 */
module Machine {
  import opened CSharpInt
  import Lines

  datatype Direction = Right | Left | Down | Up

  /** The exceptions that end a run. None of them is caught. */
  datatype Fault =
    | StackUnderflow     // `Stack<int>.Pop` on an empty stack
    | AddressOutOfRange  // an index outside the grid, on a fetch or in `p`/`g`
    | DivisionOverflow   // `int.MinValue / -1` or `int.MinValue % -1`

  datatype Result<T> = Ok(value: T) | Err(fault: Fault) {
    predicate IsFailure() {
      Err?
    }

    function PropagateFailure<U>(): Result<U>
      requires Err?
    {
      Err(fault)
    }

    function Extract(): T
      requires Ok?
    {
      value
    }
  }

  // ---------------------------------------------------------------------
  // Instructions

  datatype BinOp = Plus | Minus | Times | Over | Modulo | Greater

  /** The cases of the interpreter's `switch`. `Other` is its default case. */
  datatype Instr =
    | Arith(op: BinOp)    // + - * / % `
    | Not                 // !
    | Go(dir: Direction)  // > < v ^
    | GoRandom            // ?
    | HorizontalIf        // _
    | VerticalIf          // |
    | ToggleString        // "
    | Duplicate           // :
    | Swap                // \
    | Discard             // $
    | OutputInt           // .
    | OutputChar          // ,
    | Trampoline          // #
    | Put                 // p
    | Get                 // g
    | Space               // the space character
    | Other(c: CodeUnit)  // every other character, the terminator `@` included

  /** The case label the `switch` selects for the character `c`. */
  function Decode(c: CodeUnit): Instr
  {
    if c == Code('+') then Arith(Plus)
    else if c == Code('-') then Arith(Minus)
    else if c == Code('*') then Arith(Times)
    else if c == Code('/') then Arith(Over)
    else if c == Code('%') then Arith(Modulo)
    else if c == Code('!') then Not
    else if c == Code('`') then Arith(Greater)
    else if c == Code('>') then Go(Right)
    else if c == Code('<') then Go(Left)
    else if c == Code('v') then Go(Down)
    else if c == Code('^') then Go(Up)
    else if c == Code('?') then GoRandom
    else if c == Code('_') then HorizontalIf
    else if c == Code('|') then VerticalIf
    else if c == Code('"') then ToggleString
    else if c == Code(':') then Duplicate
    else if c == Code('\\') then Swap
    else if c == Code('$') then Discard
    else if c == Code('.') then OutputInt
    else if c == Code(',') then OutputChar
    else if c == Code('#') then Trampoline
    else if c == Code('p') then Put
    else if c == Code('g') then Get
    else if c == Code(' ') then Space
    else Other(c)
  }

  /** The character that selects an instruction: the inverse of `Decode`. */
  function Glyph(i: Instr): CodeUnit
  {
    match i
    case Arith(op) =>
      (match op
       case Plus => Code('+')
       case Minus => Code('-')
       case Times => Code('*')
       case Over => Code('/')
       case Modulo => Code('%')
       case Greater => Code('`'))
    case Not => Code('!')
    case Go(d) =>
      (match d
       case Right => Code('>')
       case Left => Code('<')
       case Down => Code('v')
       case Up => Code('^'))
    case GoRandom => Code('?')
    case HorizontalIf => Code('_')
    case VerticalIf => Code('|')
    case ToggleString => Code('"')
    case Duplicate => Code(':')
    case Swap => Code('\\')
    case Discard => Code('$')
    case OutputInt => Code('.')
    case OutputChar => Code(',')
    case Trampoline => Code('#')
    case Put => Code('p')
    case Get => Code('g')
    case Space => Code(' ')
    case Other(c) => c
  }

  /** The terminator: the loop stops when the current cell holds it. */
  const At: CodeUnit := '@' as int

  // ---------------------------------------------------------------------
  // The stack: a sequence of 32-bit integers whose LAST element is the top.

  type Stack = seq<Int32>

  datatype Popped = Popped(top: Int32, rest: Stack)

  /** `Stack<int>.Pop`: fails on an empty stack, otherwise removes the top. */
  function Pop(st: Stack): (r: Result<Popped>)
    ensures r.Ok? <==> |st| > 0
    ensures r.Ok? ==> r.value.rest + [r.value.top] == st
  {
    if |st| == 0 then Err(StackUnderflow) else Ok(Popped(st[|st| - 1], st[..|st| - 1]))
  }

  /** `:`: pushes a copy of the top, or 0 on an empty stack. */
  function Dup(st: Stack): Stack
  {
    st + [if |st| > 0 then st[|st| - 1] else 0]
  }

  /** `\`: with two or more values the top two trade places; a single value `a`
      is popped, then 0 and `a` are pushed; an empty stack fails. */
  function SwapTop(st: Stack): Result<Stack>
  {
    if |st| > 1 then Ok(st[..|st| - 2] + [st[|st| - 1], st[|st| - 2]])
    else if |st| == 1 then Ok([0, st[0]])
    else Err(StackUnderflow)
  }

  /** The value a binary operator pushes, `a` being the top and `b` the value
      below it. */
  function Apply(op: BinOp, a: Int32, b: Int32): Result<Int32>
  {
    match op
    case Plus => Ok(Wrap(a + b))
    case Minus => Ok(Wrap(b - a))
    case Times => Ok(Wrap(a * b))
    case Over =>
      if a == 0 then Ok(0)
      else if b == MinInt32 && a == -1 then Err(DivisionOverflow)
      else QuotInRange(b, a); Ok(Quot(b, a))
    case Modulo =>
      if a == 0 then Ok(0)
      else if b == MinInt32 && a == -1 then Err(DivisionOverflow)
      else QuotInRange(b, a); Ok(Rem(b, a))
    case Greater => Ok(if b > a then 1 else 0)
  }

  /** `+ - * / % \``: pop `a`, pop `b`, push the operator's value. */
  function Binary(op: BinOp, st: Stack): Result<Stack>
  {
    var a :- Pop(st);
    var b :- Pop(a.rest);
    var v :- Apply(op, a.top, b.top);
    Ok(b.rest + [v])
  }

  /** `!` outside string mode: pop a value, push 1 if it was 0 and 0 otherwise. */
  function LogicalNot(st: Stack): Result<Stack>
  {
    var a :- Pop(st);
    Ok(a.rest + [if a.top == 0 then 1 else 0])
  }

  /** The push rule of the default case: the character itself in string mode,
      its offset from '0' otherwise. */
  function PushValue(c: CodeUnit, stringMode: bool): Int32
  {
    if stringMode then c else c - Zero
  }

  // ---------------------------------------------------------------------
  // The grid: rows of independent lengths.

  predicate SameShape(g: seq<seq<CodeUnit>>, h: seq<seq<CodeUnit>>)
  {
    |g| == |h| && forall i :: 0 <= i < |g| ==> |g[i]| == |h[i]|
  }

  predicate InGrid(g: seq<seq<CodeUnit>>, row: int, col: int)
  {
    0 <= row < |g| && 0 <= col < |g[row]|
  }

  /** `code[row][col]`. */
  function Load(g: seq<seq<CodeUnit>>, row: int, col: int): (r: Result<CodeUnit>)
    ensures r.Ok? <==> InGrid(g, row, col)
  {
    if InGrid(g, row, col) then Ok(g[row][col]) else Err(AddressOutOfRange)
  }

  /** `code[row][col] = u`: one cell changes, the shape does not. */
  function Store(g: seq<seq<CodeUnit>>, row: int, col: int, u: CodeUnit): (r: Result<seq<seq<CodeUnit>>>)
    ensures r.Ok? <==> InGrid(g, row, col)
    ensures r.Ok? ==> SameShape(r.value, g)
  {
    if InGrid(g, row, col) then
      var line: seq<CodeUnit> := g[row][col := u];
      Ok(g[row := line])
    else Err(AddressOutOfRange)
  }

  /** The grid and the stack, the two things `p` changes. */
  datatype Memory = Memory(grid: seq<seq<CodeUnit>>, stack: Stack)

  /** `p`: pop the row index, then the column index, then the value, and write
      the value, cast to `char`, into that cell. */
  function PutCell(g: seq<seq<CodeUnit>>, st: Stack): (r: Result<Memory>)
    ensures r.Ok? ==> SameShape(r.value.grid, g)
  {
    var row :- Pop(st);
    var col :- Pop(row.rest);
    var v :- Pop(col.rest);
    var g' :- Store(g, row.top, col.top, ToCodeUnit(v.top));
    Ok(Memory(g', v.rest))
  }

  /** `g`: pop the row index, then the column index, and push that cell. */
  function GetCell(g: seq<seq<CodeUnit>>, st: Stack): Result<Stack>
  {
    var row :- Pop(st);
    var col :- Pop(row.rest);
    var u :- Load(g, row.top, col.top);
    Ok(col.rest + [u])
  }

  // ---------------------------------------------------------------------
  // The machine state and movement

  datatype State = State(
    grid: seq<seq<CodeUnit>>,
    stack: Stack,
    row: nat,           // `x` in the source
    col: nat,           // `y` in the source
    dir: Direction,
    stringMode: bool,
    trampoline: bool)

  /** The grid has a row and the current row index is inside it. The column
      is not bounded: a vertical move may leave it past the end of a shorter
      row, and the next fetch then fails. */
  predicate WellFormed(s: State)
  {
    |s.grid| >= 1 && s.row < |s.grid|
  }

  /** What the constructor builds: the split text, an empty stack, the top
      left corner, heading right, both flags clear. */
  function Initial(text: seq<CodeUnit>): (s: State)
    ensures WellFormed(s)
  {
    State(Lines.SplitLines(text), [], 0, 0, Right, false, false)
  }

  /** One step forward on a ring of `n` positions (`Right`, `Down`). */
  function Advance(i: nat, n: nat): (j: nat)
    requires i < n
    ensures j == (i + 1) % n
  {
    if i == n - 1 then 0 else i + 1
  }

  /** One step back on a ring of `n` positions (`Left`, `Up`). */
  function Retreat(i: nat, n: nat): (j: nat)
    requires i < n
    ensures j == (i - 1) % n
  {
    if i == 0 then n - 1 else i - 1
  }

  /** `Move`: horizontal steps wrap on the current row's length, vertical
      steps on the number of rows and keep the column. */
  function Move(s: State): (t: State)
    requires WellFormed(s) && s.col < |s.grid[s.row]|
    ensures WellFormed(t)
    ensures t == s.(row := t.row, col := t.col)
  {
    match s.dir
    case Right => s.(col := Advance(s.col, |s.grid[s.row]|))
    case Left => s.(col := Retreat(s.col, |s.grid[s.row]|))
    case Down => s.(row := Advance(s.row, |s.grid|))
    case Up => s.(row := Retreat(s.row, |s.grid|))
  }

  // ---------------------------------------------------------------------
  // Dispatch and the loop

  /** The state after an instruction and the text it appended to the output. */
  datatype Effect = Effect(next: State, emitted: seq<CodeUnit>)

  function Silent(s: State): Effect
  {
    Effect(s, [])
  }

  /** The `switch` of the loop body: what instruction `i` does to the state.
      `choice` is the direction `?` draws; no other instruction consults it.
      It never moves the pointer and never changes the shape of the grid. */
  function Execute(s: State, i: Instr, choice: Direction): (r: Result<Effect>)
    requires WellFormed(s)
    ensures r.Ok? ==> var t := r.value.next;
      WellFormed(t) && SameShape(t.grid, s.grid) && t.row == s.row && t.col == s.col
  {
    if i.GoRandom? then Ok(Silent(s.(dir := choice))) else Operate(s, i)
  }

  /** The instructions that change only the direction, string mode or the
      trampoline (popping at most one value). */
  predicate IsSteering(i: Instr)
  {
    i.Go? || i.GoRandom? || i.HorizontalIf? || i.VerticalIf? || i.ToggleString? || i.Trampoline?
  }

  /** The instructions that work on the stack and the grid and emit nothing. */
  predicate IsOperand(i: Instr)
  {
    !IsSteering(i) && !i.OutputInt? && !i.OutputChar?
  }

  /** What every instruction but `?` does: the cases of the `switch` that
      need no random draw. A case that the original hands to a private
      method has a function of its own below. */
  function Operate(s: State, i: Instr): (r: Result<Effect>)
    requires WellFormed(s) && !i.GoRandom?
    ensures r.Ok? ==> var t := r.value.next;
      WellFormed(t) && SameShape(t.grid, s.grid) && t.row == s.row && t.col == s.col
  {
    match i
    case Arith(op) => ExecArith(s, op)
    case Not => ExecNot(s)
    case Go(d) => Ok(Silent(s.(dir := d)))
    case HorizontalIf => ExecHorizontalIf(s)
    case VerticalIf => ExecVerticalIf(s)
    case ToggleString => ExecToggleString(s)
    case Duplicate => ExecDuplicate(s)
    case Swap => ExecSwap(s)
    case Discard => ExecDiscard(s)
    case OutputInt =>
      var a :- Pop(s.stack);
      Ok(Effect(s.(stack := a.rest), Decimal(a.top)))
    case OutputChar =>
      var a :- Pop(s.stack);
      Ok(Effect(s.(stack := a.rest), [ToCodeUnit(a.top)]))
    case Trampoline => Ok(Silent(s.(trampoline := true)))
    case Put => ExecPut(s)
    case Get => ExecGet(s)
    case Space =>
      if s.stringMode then Ok(Silent(s.(stack := s.stack + [Code(' ')]))) else Ok(Silent(s))
    case Other(c) => Ok(Silent(s.(stack := s.stack + [PushValue(c, s.stringMode)])))
  }

  /** `+ - * / % \``: replace the top two values by the operator's value. */
  function ExecArith(s: State, op: BinOp): Result<Effect>
  {
    var st :- Binary(op, s.stack);
    Ok(Silent(s.(stack := st)))
  }

  /** `ExecArith` once both operands are off the stack: what is left is `Apply`. */
  lemma ArithAfterPops(s: State, op: BinOp, mid: Stack)
    requires Pop(s.stack).Ok? && Pop(s.stack).value.rest == mid && Pop(mid).Ok?
    ensures var a, b := Pop(s.stack).value.top, Pop(mid).value;
      ExecArith(s, op) == match Apply(op, a, b.top)
        case Ok(v) => Ok(Silent(s.(stack := b.rest + [v])))
        case Err(f) => Err(f)
  {
  }

  /** `!`: in string mode the character itself is pushed. */
  function ExecNot(s: State): Result<Effect>
  {
    if s.stringMode then Ok(Silent(s.(stack := s.stack + [Code('!')])))
    else
      var st :- LogicalNot(s.stack);
      Ok(Silent(s.(stack := st)))
  }

  /** `_`: pop a value and head right if it is 0, left otherwise. */
  function ExecHorizontalIf(s: State): Result<Effect>
  {
    var a :- Pop(s.stack);
    Ok(Silent(s.(stack := a.rest, dir := if a.top == 0 then Right else Left)))
  }

  /** `|`: pop a value and head down if it is 0, up otherwise. */
  function ExecVerticalIf(s: State): Result<Effect>
  {
    var a :- Pop(s.stack);
    Ok(Silent(s.(stack := a.rest, dir := if a.top == 0 then Down else Up)))
  }

  /** `"`: string mode on or off. */
  function ExecToggleString(s: State): Result<Effect>
  {
    Ok(Silent(s.(stringMode := !s.stringMode)))
  }

  /** `:`. */
  function ExecDuplicate(s: State): Result<Effect>
  {
    Ok(Silent(s.(stack := Dup(s.stack))))
  }

  /** `\`. */
  function ExecSwap(s: State): Result<Effect>
  {
    var st :- SwapTop(s.stack);
    Ok(Silent(s.(stack := st)))
  }

  /** `$`: pop and drop. */
  function ExecDiscard(s: State): Result<Effect>
  {
    var a :- Pop(s.stack);
    Ok(Silent(s.(stack := a.rest)))
  }

  /** `p`: a write into the grid. */
  function ExecPut(s: State): Result<Effect>
  {
    var m :- PutCell(s.grid, s.stack);
    Ok(Silent(s.(grid := m.grid, stack := m.stack)))
  }

  /** `g`: a read from the grid. */
  function ExecGet(s: State): Result<Effect>
  {
    var st :- GetCell(s.grid, s.stack);
    Ok(Silent(s.(stack := st)))
  }

  /** The loop condition's read of `code[x][y]`. */
  function Fetch(s: State): (r: Result<CodeUnit>)
    requires WellFormed(s)
    ensures r.Ok? <==> s.col < |s.grid[s.row]|
  {
    Load(s.grid, s.row, s.col)
  }

  /** The loop body once the fetched cell is known not to be `@`: a set
      trampoline is cleared instead of dispatching, and the move follows
      either way. */
  function Body(s: State, choice: Direction): (r: Result<Effect>)
    requires WellFormed(s) && s.col < |s.grid[s.row]|
    ensures r.Ok? ==> WellFormed(r.value.next) && SameShape(r.value.next.grid, s.grid)
  {
    if s.trampoline then Ok(Silent(Move(s.(trampoline := false))))
    else
      var e :- Execute(s, Decode(s.grid[s.row][s.col]), choice);
      Ok(Effect(Move(e.next), e.emitted))
  }

  /** How one turn of the loop ends. */
  datatype Transition = Halt | Fail(fault: Fault) | Next(effect: Effect)

  /** One turn of the loop: test the current cell, then run the body. */
  function Step(s: State, choice: Direction): Transition
    requires WellFormed(s)
  {
    match Fetch(s)
    case Err(f) => Fail(f)
    case Ok(c) =>
      if c == At then Halt
      else match Body(s, choice)
        case Err(f) => Fail(f)
        case Ok(e) => Next(e)
  }

  /** How a run ends: `@` reached with the accumulated output, an exception,
      or the fuel spent. Fuel counts passes through the loop body; a program
      without `@` otherwise never stops. */
  datatype Outcome = Finished(output: seq<CodeUnit>) | Crashed(fault: Fault) | OutOfFuel

  /** `Start` from state `s`, with `output` already written, at most `fuel`
      further passes, and `oracle(k)` the direction drawn by a `?` on the
      k-th pass. This is the loop condition; `Resume` is the loop body. */
  function Run(s: State, output: seq<CodeUnit>, fuel: nat, oracle: nat -> Direction, steps: nat): Outcome
    requires WellFormed(s)
    decreases fuel, 1
  {
    match Fetch(s)
    case Err(f) => Crashed(f)
    case Ok(c) =>
      if c == At then Finished(output)
      else if fuel == 0 then OutOfFuel
      else Resume(s, output, fuel, oracle, steps)
  }

  /** One pass through the loop body, then the rest of the run. */
  function Resume(s: State, output: seq<CodeUnit>, fuel: nat, oracle: nat -> Direction, steps: nat): Outcome
    requires WellFormed(s) && s.col < |s.grid[s.row]| && fuel > 0
    decreases fuel, 0
  {
    match Body(s, oracle(steps))
    case Err(f) => Crashed(f)
    case Ok(e) => Run(e.next, output + e.emitted, fuel - 1, oracle, steps + 1)
  }

  /** A pass that completes hands the rest of the run, with one pass less
      and the emitted text appended, to the next state. */
  lemma RunOnward(s: State, output: seq<CodeUnit>, fuel: nat, oracle: nat -> Direction, steps: nat, e: Effect)
    requires WellFormed(s) && s.col < |s.grid[s.row]| && s.grid[s.row][s.col] != At && fuel > 0
    requires Body(s, oracle(steps)) == Ok(e)
    ensures WellFormed(e.next)
    ensures Run(s, output, fuel, oracle, steps) == Run(e.next, output + e.emitted, fuel - 1, oracle, steps + 1)
  {
    RunResumes(s, output, fuel, oracle, steps);
    ResumeOk(s, output, fuel, oracle, steps, e);
  }

  /** A run handed on with one pass less, restated with the remaining fuel
      and the pass count as the caller names them. */
  lemma RunOnwardTo(s: State, output: seq<CodeUnit>, fuel: nat, oracle: nat -> Direction, steps: nat,
                    next: State, emitted: seq<CodeUnit>, fuel': nat, steps': nat)
    requires WellFormed(s) && WellFormed(next) && fuel > 0 && fuel' == fuel - 1 && steps' == steps + 1
    requires Run(s, output, fuel, oracle, steps) == Run(next, output + emitted, fuel - 1, oracle, steps + 1)
    ensures Run(s, output, fuel, oracle, steps) == Run(next, output + emitted, fuel', oracle, steps')
  {
    RunArguments(next, output + emitted, fuel - 1, fuel', oracle, steps + 1, steps');
  }

  lemma RunArguments(s: State, output: seq<CodeUnit>, fuel: nat, fuel': nat, oracle: nat -> Direction,
                     steps: nat, steps': nat)
    requires WellFormed(s) && fuel == fuel' && steps == steps'
    ensures Run(s, output, fuel, oracle, steps) == Run(s, output, fuel', oracle, steps')
  {
  }

  /** On a cell other than `@`, with fuel left, the loop condition passes
      and the body runs. */
  lemma RunResumes(s: State, output: seq<CodeUnit>, fuel: nat, oracle: nat -> Direction, steps: nat)
    requires WellFormed(s) && s.col < |s.grid[s.row]| && s.grid[s.row][s.col] != At && fuel > 0
    ensures Run(s, output, fuel, oracle, steps) == Resume(s, output, fuel, oracle, steps)
  {
    assert Fetch(s) == Ok(s.grid[s.row][s.col]);
  }

  /** A pass that completes continues the run from the state it leaves. */
  lemma ResumeOk(s: State, output: seq<CodeUnit>, fuel: nat, oracle: nat -> Direction, steps: nat, e: Effect)
    requires WellFormed(s) && s.col < |s.grid[s.row]| && fuel > 0
    requires Body(s, oracle(steps)) == Ok(e)
    ensures WellFormed(e.next)
    ensures Resume(s, output, fuel, oracle, steps) == Run(e.next, output + e.emitted, fuel - 1, oracle, steps + 1)
  {
  }

  /** A pass that faults ends the run with that fault. */
  lemma RunCrashes(s: State, output: seq<CodeUnit>, fuel: nat, oracle: nat -> Direction, steps: nat, f: Fault)
    requires WellFormed(s) && s.col < |s.grid[s.row]| && s.grid[s.row][s.col] != At && fuel > 0
    requires Body(s, oracle(steps)) == Err(f)
    ensures Run(s, output, fuel, oracle, steps) == Crashed(f)
  {
    RunResumes(s, output, fuel, oracle, steps);
  }

  /** On a cell other than `@`, with fuel left, a run either ends on a
      fault or carries on, one pass later, from the state the pass leaves. */
  lemma RunContinues(s: State, output: seq<CodeUnit>, fuel: nat, oracle: nat -> Direction, steps: nat)
    returns (passed: bool, next: State, emitted: seq<CodeUnit>)
    requires WellFormed(s) && s.col < |s.grid[s.row]| && s.grid[s.row][s.col] != At && fuel > 0
    ensures passed ==> (WellFormed(next) &&
      Run(s, output, fuel, oracle, steps) == Run(next, output + emitted, fuel - 1, oracle, steps + 1))
    ensures !passed ==> Run(s, output, fuel, oracle, steps).Crashed?
  {
    match Body(s, oracle(steps))
    case Err(f) =>
      RunCrashes(s, output, fuel, oracle, steps, f);
      passed, next, emitted := false, s, [];
    case Ok(e) =>
      RunOnward(s, output, fuel, oracle, steps, e);
      passed, next, emitted := true, e.next, e.emitted;
  }

  /** With fuel left, `Run` takes the turn `Step` describes: it stops at `@`,
      ends on a fault, or carries on from the state the pass leaves. */
  lemma RunSteps(s: State, output: seq<CodeUnit>, fuel: nat, oracle: nat -> Direction, steps: nat)
    requires WellFormed(s) && fuel > 0
    ensures match Step(s, oracle(steps))
      case Halt => Run(s, output, fuel, oracle, steps) == Finished(output)
      case Fail(f) => Run(s, output, fuel, oracle, steps) == Crashed(f)
      case Next(e) => (WellFormed(e.next) &&
        Run(s, output, fuel, oracle, steps) == Run(e.next, output + e.emitted, fuel - 1, oracle, steps + 1))
  {
    if s.col < |s.grid[s.row]| && s.grid[s.row][s.col] != At {
      match Body(s, oracle(steps))
      case Err(f) => RunCrashes(s, output, fuel, oracle, steps, f);
      case Ok(e) => RunOnward(s, output, fuel, oracle, steps, e);
    }
  }

  /** `Interpret`: a fresh machine on the program text, run from the start. */
  function Interpretation(text: seq<CodeUnit>, fuel: nat, oracle: nat -> Direction): Outcome
  {
    Run(Initial(text), [], fuel, oracle, 0)
  }
}
