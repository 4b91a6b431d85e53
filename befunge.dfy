/**
  The interpreter object: the program grid as jagged arrays written in place
  by `p`, the integer stack, the instruction pointer and the two flags, with
  one method per private operation of the original and the `Start` loop.
  Every method is proved against the functions of module `Machine`.
 */
module Interpreter {
  import opened CSharpInt
  import opened Machine
  import Lines

  /** `string.ToCharArray`: a fresh array holding the row. */
  method ToCharArray(s: seq<CodeUnit>) returns (a: array<CodeUnit>)
    ensures fresh(a) && a[..] == s
  {
    a := new CodeUnit[|s|](i requires 0 <= i < |s| => s[i]);
  }

  class Befunge {
    const StartXPosition: nat := 0
    const StartYPosition: nat := 0
    const DefaultDirection: Direction := Direction.Right

    var st: Stack
    const code: array<array<CodeUnit>>

    var direction: Direction
    var isStringMode: bool
    var isTrampoline: bool
    /** The row of the instruction pointer (an `int` that never goes negative). */
    var x: nat
    /** The column of the instruction pointer (likewise never negative). */
    var y: nat

    /** The grid's contents, row by row. */
    ghost var Cells: seq<seq<CodeUnit>>

    /** The rows are distinct arrays whose contents `Cells` records, there is
        at least one row and the pointer's row is one of them. */
    ghost predicate Valid()
      reads this`Cells, this`x, code, code[..]
    {
      code.Length == |Cells| >= 1 &&
      (forall i :: 0 <= i < code.Length ==> code[i][..] == Cells[i]) &&
      (forall i, j :: 0 <= i < j < code.Length ==> code[i] != code[j]) &&
      x < code.Length
    }

    /** The machine state this object represents. */
    ghost function State(): Machine.State
      reads this
    {
      Machine.State(Cells, st, x, y, direction, isStringMode, isTrampoline)
    }

    constructor (text: seq<CodeUnit>)
      ensures Valid() && State() == Initial(text)
      ensures fresh(code) && forall i :: 0 <= i < code.Length ==> fresh(code[i])
    {
      x := StartXPosition;
      y := StartYPosition;
      isTrampoline := false;
      isStringMode := false;
      st := [];
      direction := DefaultDirection;
      var codeLines := Lines.SplitLines(text);
      var empty := new CodeUnit[0];
      var rows := new array<CodeUnit>[|codeLines|](_ => empty);
      for i := 0 to |codeLines|
        invariant forall j :: 0 <= j < i ==> fresh(rows[j]) && rows[j][..] == codeLines[j]
        invariant forall j, k :: 0 <= j < k < i ==> rows[j] != rows[k]
      {
        rows[i] := ToCharArray(codeLines[i]);
      }
      code := rows;
      Cells := codeLines;
    }

    // -------------------------------------------------------------------
    // The stack

    /** `st.Pop()`, also the private `Pop`. */
    method Pop() returns (r: Result<Int32>)
      requires Valid()
      modifies this`st
      ensures Valid()
      ensures match Machine.Pop(old(st))
        case Ok(p) => r == Ok(p.top) && st == p.rest
        case Err(f) => r == Err(f)
    {
      if |st| == 0 {
        return Err(StackUnderflow);
      }
      r := Ok(st[|st| - 1]);
      st := st[..|st| - 1];
    }

    /** `PopASCII`: the popped value cast to `char`. */
    method PopASCII() returns (r: Result<CodeUnit>)
      requires Valid()
      modifies this`st
      ensures Valid()
      ensures match Machine.Pop(old(st))
        case Ok(p) => r == Ok(ToCodeUnit(p.top)) && st == p.rest
        case Err(f) => r == Err(f)
    {
      var v :- Pop();
      r := Ok(ToCodeUnit(v));
    }

    /** `Push(char)`: the push rule of the default case. */
    method Push(val: CodeUnit)
      requires Valid()
      modifies this`st
      ensures Valid() && st == old(st) + [PushValue(val, isStringMode)]
    {
      st := st + [if isStringMode then val else val - Zero];
    }

    method Additional() returns (r: Result<()>)
      requires Valid()
      modifies this`st
      ensures r.Ok? ==> Valid() && ExecArith(old(State()), Plus) == Ok(Silent(State()))
      ensures r.Err? ==> ExecArith(old(State()), Plus) == Err(r.fault)
    {
      var a :- Pop();
      var b :- Pop();
      st := st + [Wrap(a as int + b)];
      r := Ok(());
    }

    method Subtraction() returns (r: Result<()>)
      requires Valid()
      modifies this`st
      ensures r.Ok? ==> Valid() && ExecArith(old(State()), Minus) == Ok(Silent(State()))
      ensures r.Err? ==> ExecArith(old(State()), Minus) == Err(r.fault)
    {
      var a :- Pop();
      var b :- Pop();
      st := st + [Wrap(b as int - a)];
      r := Ok(());
    }

    method Multiplication() returns (r: Result<()>)
      requires Valid()
      modifies this`st
      ensures r.Ok? ==> Valid() && ExecArith(old(State()), Times) == Ok(Silent(State()))
      ensures r.Err? ==> ExecArith(old(State()), Times) == Err(r.fault)
    {
      var a :- Pop();
      var b :- Pop();
      st := st + [Wrap(a as int * b)];
      r := Ok(());
    }

    method Division() returns (r: Result<()>)
      requires Valid()
      modifies this`st
      ensures r.Ok? ==> Valid() && ExecArith(old(State()), Over) == Ok(Silent(State()))
      ensures r.Err? ==> ExecArith(old(State()), Over) == Err(r.fault)
    {
      var a :- Pop();
      ghost var mid := st;
      var b :- Pop();
      ArithAfterPops(old(State()), Over, mid);
      if a == 0 {
        st := st + [0];
      } else if b == MinInt32 && a == -1 {
        return Err(DivisionOverflow);
      } else {
        QuotInRange(b, a);
        st := st + [Quot(b, a)];
      }
      r := Ok(());
    }

    method Modulo() returns (r: Result<()>)
      requires Valid()
      modifies this`st
      ensures r.Ok? ==> Valid() && ExecArith(old(State()), BinOp.Modulo) == Ok(Silent(State()))
      ensures r.Err? ==> ExecArith(old(State()), BinOp.Modulo) == Err(r.fault)
    {
      var a :- Pop();
      ghost var mid := st;
      var b :- Pop();
      ArithAfterPops(old(State()), BinOp.Modulo, mid);
      if a == 0 {
        st := st + [0];
      } else if b == MinInt32 && a == -1 {
        return Err(DivisionOverflow);
      } else {
        QuotInRange(b, a);
        st := st + [Rem(b, a)];
      }
      r := Ok(());
    }

    /** `!` outside string mode, the only place it is called from. */
    method LogicalNot() returns (r: Result<()>)
      requires Valid() && !isStringMode
      modifies this`st
      ensures r.Ok? ==> Valid() && ExecNot(old(State())) == Ok(Silent(State()))
      ensures r.Err? ==> ExecNot(old(State())) == Err(r.fault)
    {
      var v :- Pop();
      st := st + [if v == 0 then 1 else 0];
      r := Ok(());
    }

    /** The backtick: greater-than. */
    method Backtrick() returns (r: Result<()>)
      requires Valid()
      modifies this`st
      ensures r.Ok? ==> Valid() && ExecArith(old(State()), Greater) == Ok(Silent(State()))
      ensures r.Err? ==> ExecArith(old(State()), Greater) == Err(r.fault)
    {
      var a :- Pop();
      var b :- Pop();
      st := st + [if b > a then 1 else 0];
      r := Ok(());
    }

    method Duplicate()
      requires Valid()
      modifies this`st
      ensures Valid() && ExecDuplicate(old(State())) == Ok(Silent(State()))
    {
      st := st + [if |st| > 0 then st[|st| - 1] else 0];
    }

    method Swap() returns (r: Result<()>)
      requires Valid()
      modifies this`st
      ensures r.Ok? ==> Valid() && ExecSwap(old(State())) == Ok(Silent(State()))
      ensures r.Err? ==> ExecSwap(old(State())) == Err(r.fault)
    {
      ghost var before := st;
      if |st| > 1 {
        var a :- Pop();
        var b :- Pop();
        st := st + [a];
        st := st + [b];
        assert st == before[..|before| - 2] + [before[|before| - 1], before[|before| - 2]];
      } else {
        var a :- Pop();
        st := st + [0];
        st := st + [a];
        assert st == [0, before[0]];
      }
      r := Ok(());
    }

    method DiscardPop() returns (r: Result<()>)
      requires Valid()
      modifies this`st
      ensures r.Ok? ==> Valid() && ExecDiscard(old(State())) == Ok(Silent(State()))
      ensures r.Err? ==> ExecDiscard(old(State())) == Err(r.fault)
    {
      var _ :- Pop();
      r := Ok(());
    }

    // -------------------------------------------------------------------
    // The grid

    /** The assignment `code[row][col] = u`, which throws when the indices
        fall outside the jagged grid: one cell of one row array changes. */
    method Write(row: Int32, col: Int32, u: CodeUnit) returns (r: Result<()>)
      requires Valid()
      modifies this`Cells, code[..]
      ensures Valid()
      ensures Store(old(Cells), row, col, u) == if r.Ok? then Ok(Cells) else Err(r.fault)
    {
      if !(0 <= row < code.Length && 0 <= col < code[row].Length) {
        return Err(AddressOutOfRange);
      }
      code[row][col] := u;
      ghost var line: seq<CodeUnit> := Cells[row][col := u];
      Cells := Cells[row := line];
      r := Ok(());
    }

    /** `p`: the only write to the grid. */
    method Put() returns (r: Result<()>)
      requires Valid()
      modifies this`st, this`Cells, code[..]
      ensures r.Ok? ==> Valid() && ExecPut(old(State())) == Ok(Silent(State()))
      ensures r.Err? ==> ExecPut(old(State())) == Err(r.fault)
    {
      var row :- Pop();
      var col :- Pop();
      var v :- Pop();
      r := Write(row, col, ToCodeUnit(v));
    }

    /** `g`: push the character code of a cell. */
    method Get() returns (r: Result<()>)
      requires Valid()
      modifies this`st
      ensures r.Ok? ==> Valid() && ExecGet(old(State())) == Ok(Silent(State()))
      ensures r.Err? ==> ExecGet(old(State())) == Err(r.fault)
    {
      var row :- Pop();
      var col :- Pop();
      if !(0 <= row < code.Length && 0 <= col < code[row].Length) {
        return Err(AddressOutOfRange);
      }
      st := st + [code[row][col]];
      r := Ok(());
    }

    // -------------------------------------------------------------------
    // Direction and movement

    /** `?`: the direction comes from `draw` instead of a random generator. */
    method RandomDirection(draw: Direction)
      requires Valid()
      modifies this`direction
      ensures Valid() && Execute(old(State()), GoRandom, draw) == Ok(Silent(State()))
    {
      direction := draw;
    }

    method RightOrLeft() returns (r: Result<()>)
      requires Valid()
      modifies this`st, this`direction
      ensures r.Ok? ==> Valid() && ExecHorizontalIf(old(State())) == Ok(Silent(State()))
      ensures r.Err? ==> ExecHorizontalIf(old(State())) == Err(r.fault)
    {
      var v :- Pop();
      if v == 0 {
        direction := Direction.Right;
      } else {
        direction := Direction.Left;
      }
      r := Ok(());
    }

    method DownOrUp() returns (r: Result<()>)
      requires Valid()
      modifies this`st, this`direction
      ensures r.Ok? ==> Valid() && ExecVerticalIf(old(State())) == Ok(Silent(State()))
      ensures r.Err? ==> ExecVerticalIf(old(State())) == Err(r.fault)
    {
      var v :- Pop();
      if v == 0 {
        direction := Direction.Down;
      } else {
        direction := Direction.Up;
      }
      r := Ok(());
    }

    method StringMode()
      requires Valid()
      modifies this`isStringMode
      ensures Valid() && ExecToggleString(old(State())) == Ok(Silent(State()))
    {
      isStringMode := !isStringMode;
    }

    method Right()
      requires Valid() && y < code[x].Length
      modifies this`y
      ensures Valid() && y == Advance(old(y), code[x].Length)
    {
      y := if y == code[x].Length - 1 then 0 else y + 1;
    }

    method Left()
      requires Valid() && y < code[x].Length
      modifies this`y
      ensures Valid() && y == Retreat(old(y), code[x].Length)
    {
      y := if y == 0 then code[x].Length - 1 else y - 1;
    }

    method Down()
      requires Valid()
      modifies this`x
      ensures Valid() && x == Advance(old(x), code.Length)
    {
      x := if x == code.Length - 1 then 0 else x + 1;
    }

    method Up()
      requires Valid()
      modifies this`x
      ensures Valid() && x == Retreat(old(x), code.Length)
    {
      x := if x == 0 then code.Length - 1 else x - 1;
    }

    method Move()
      requires Valid() && y < code[x].Length
      modifies this`x, this`y
      ensures Valid() && State() == Machine.Move(old(State()))
    {
      match direction
      case Right => Right();
      case Left => Left();
      case Down => Down();
      case Up => Up();
    }

    /** The six binary operators of the `switch`, each by its own method. */
    method Arithmetic(op: BinOp) returns (r: Result<()>)
      requires Valid()
      modifies this`st
      ensures r.Ok? ==> Valid() && ExecArith(old(State()), op) == Ok(Silent(State()))
      ensures r.Err? ==> ExecArith(old(State()), op) == Err(r.fault)
    {
      match op
      case Plus => r := Additional();
      case Minus => r := Subtraction();
      case Times => r := Multiplication();
      case Over => r := Division();
      case Modulo => r := Modulo();
      case Greater => r := Backtrick();
    }

    // -------------------------------------------------------------------
    // The loop

    /** The cases of the `switch` that only steer: they change the direction,
        string mode or the trampoline, popping at most one value. */
    method Steer(i: Instr, draw: Direction) returns (r: Result<()>)
      requires Valid() && IsSteering(i)
      modifies this`st, this`direction, this`isStringMode, this`isTrampoline
      ensures r.Ok? ==> Valid() && Execute(old(State()), i, draw) == Ok(Silent(State()))
      ensures r.Err? ==> Execute(old(State()), i, draw) == Err(r.fault)
    {
      r := Ok(());
      match i
      case Go(d) => direction := d;
      case GoRandom => RandomDirection(draw);
      case HorizontalIf => r := RightOrLeft();
      case VerticalIf => r := DownOrUp();
      case ToggleString => StringMode();
      case Trampoline => isTrampoline := true;
    }

    /** The cases of the `switch` that work on the stack and the grid and
        write no output; `c` is the cell the instruction was read from. */
    method Operand(i: Instr, c: CodeUnit) returns (r: Result<()>)
      requires Valid() && i == Decode(c) && IsOperand(i)
      modifies this`st, this`Cells, code[..]
      ensures r.Ok? ==> Valid() && Operate(old(State()), i) == Ok(Silent(State()))
      ensures r.Err? ==> Operate(old(State()), i) == Err(r.fault)
    {
      r := Ok(());
      match i
      case Arith(op) => r := Arithmetic(op);
      case Not =>
        if isStringMode {
          st := st + [c];
        } else {
          r := LogicalNot();
        }
      case Duplicate => Duplicate();
      case Swap => r := Swap();
      case Discard => r := DiscardPop();
      case Put => r := Put();
      case Get => r := Get();
      case Space =>
        if isStringMode {
          Push(c);
        }
      case Other(_) => Push(c);
    }

    /** The `switch` on the current cell, `draw` being what `?` would draw.
        Returns the text appended to the output. */
    method Dispatch(draw: Direction) returns (r: Result<seq<CodeUnit>>)
      requires Valid() && y < code[x].Length
      modifies this`st, this`direction, this`isStringMode, this`isTrampoline, this`Cells, code[..]
      ensures r.Ok? ==> Valid() && Execute(old(State()), Decode(old(code[x][y])), draw) == Ok(Effect(State(), r.value))
      ensures r.Err? ==> Execute(old(State()), Decode(old(code[x][y])), draw) == Err(r.fault)
    {
      var c := code[x][y];
      var i := Decode(c);
      if i.OutputInt? {
        var v := Pop();
        if v.Err? {
          return Err(v.fault);
        }
        return Ok(Decimal(v.value));
      } else if i.OutputChar? {
        var u := PopASCII();
        if u.Err? {
          return Err(u.fault);
        }
        return Ok([u.value]);
      }
      var status: Result<()>;
      if IsSteering(i) {
        status := Steer(i, draw);
      } else {
        status := Operand(i, c);
      }
      if status.Err? {
        return Err(status.fault);
      }
      r := Ok([]);
    }

    /** The loop body once the current cell is known not to be `@`: clear
        a set trampoline or dispatch, then move. */
    method Pass(draw: Direction) returns (r: Result<seq<CodeUnit>>)
      requires Valid() && y < code[x].Length
      modifies this`st, this`direction, this`isStringMode, this`isTrampoline, this`Cells
      modifies this`x, this`y, code[..]
      ensures r.Ok? ==> Valid() && Body(old(State()), draw) == Ok(Effect(State(), r.value))
      ensures r.Err? ==> Body(old(State()), draw) == Err(r.fault)
    {
      r := Ok([]);
      if isTrampoline {
        isTrampoline := false;
      } else {
        r := Dispatch(draw);
        if r.Err? {
          return;
        }
      }
      Move();
    }

    /** The fetch, dispatch and move loop, stopped after `fuel` passes.
        `oracle(k)` is the direction a `?` draws on the k-th pass. */
    method Start(fuel: nat, oracle: nat -> Direction) returns (r: Outcome)
      requires Valid()
      modifies this`st, this`direction, this`isStringMode, this`isTrampoline, this`Cells
      modifies this`x, this`y, code[..]
      ensures r == Run(old(State()), [], fuel, oracle, 0)
    {
      ghost var start := State();
      var output: seq<CodeUnit> := [];
      var steps: nat := 0;
      var left: nat := fuel;
      while true
        invariant Valid()
        invariant Run(start, [], fuel, oracle, 0) == Run(State(), output, left, oracle, steps)
        decreases left
      {
        if y >= code[x].Length {
          return Crashed(AddressOutOfRange);
        }
        if code[x][y] == At {
          return Finished(output);
        }
        if left == 0 {
          return OutOfFuel;
        }
        ghost var before, output0, left0, steps0 := State(), output, left, steps;
        var emitted := Pass(oracle(steps));
        if emitted.Err? {
          RunCrashes(before, output, left, oracle, steps, emitted.fault);
          return Crashed(emitted.fault);
        }
        RunOnward(before, output, left, oracle, steps, Effect(State(), emitted.value));
        output := output + emitted.value;
        steps := steps + 1;
        left := left - 1;
        RunOnwardTo(before, output0, left0, oracle, steps0, State(), emitted.value, left, steps);
      }
    }
  }

  /** `Interpret`: a fresh interpreter on the program text, run to the end. */
  method Interpret(code: seq<CodeUnit>, fuel: nat, oracle: nat -> Direction) returns (r: Outcome)
    ensures r == Interpretation(code, fuel, oracle)
  {
    var befunge := new Befunge(code);
    r := befunge.Start(fuel, oracle);
  }
}
