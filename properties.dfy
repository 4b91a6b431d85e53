/**
  What the interpreter's semantics guarantee, stated over the functions of
  module `Machine`: the effect of each stack instruction, the faults and when
  they occur, the round trip of `p` and `g`, the decoding of instructions,
  wrap-around movement and the behaviour of a whole run.
 */
module Properties {
  import opened CSharpInt
  import opened Machine
  import Lines

  // ---------------------------------------------------------------------
  // Arithmetic

  /** A binary operator needs two values: with fewer it underflows; with two
      or more it replaces the top two by the operator's value, `a` being the
      top and `b` the value below it. */
  lemma BinaryEffect(op: BinOp, st: Stack)
    ensures |st| < 2 ==> Binary(op, st) == Err(StackUnderflow)
    ensures |st| >= 2 ==>
      var a, b := st[|st| - 1], st[|st| - 2];
      match Apply(op, a, b)
      case Ok(v) => Binary(op, st) == Ok(st[..|st| - 2] + [v])
      case Err(f) => Binary(op, st) == Err(f)
  {
    if |st| >= 2 {
      assert st[..|st| - 1][..|st| - 2] == st[..|st| - 2];
    }
  }

  /** Only `/` and `%` can fail, and only on `int.MinValue` over `-1`. */
  lemma ApplyFails(op: BinOp, a: Int32, b: Int32)
    ensures Apply(op, a, b).Err? <==> (op == Over || op == Modulo) && a == -1 && b == MinInt32
    ensures Apply(op, a, b).Err? ==> Apply(op, a, b).fault == DivisionOverflow
  {
  }

  /** `+`, `-` and `*` agree with exact arithmetic modulo 2^32, and exactly
      when the exact value fits in 32 bits. */
  lemma WrappingArithmetic(a: Int32, b: Int32)
    ensures (Apply(Plus, a, b).value - (b + a)) % 0x1_0000_0000 == 0
    ensures (Apply(Minus, a, b).value - (b - a)) % 0x1_0000_0000 == 0
    ensures (Apply(Times, a, b).value - a * b) % 0x1_0000_0000 == 0
    ensures MinInt32 <= a + b <= MaxInt32 ==> Apply(Plus, a, b) == Ok(a + b)
    ensures MinInt32 <= b - a <= MaxInt32 ==> Apply(Minus, a, b) == Ok(b - a)
    ensures MinInt32 <= a * b <= MaxInt32 ==> Apply(Times, a, b) == Ok(a * b)
  {
  }

  /** Division and remainder by zero push 0 instead of throwing. */
  lemma DivideByZero(b: Int32)
    ensures Apply(Over, 0, b) == Ok(0) && Apply(Modulo, 0, b) == Ok(0)
  {
  }

  /** Away from zero and the overflowing pair, `/` and `%` are C#'s truncating
      division: the division identity holds, the remainder is smaller than the
      divisor and carries the dividend's sign. */
  lemma DivisionIdentity(a: Int32, b: Int32)
    requires a != 0 && !(b == MinInt32 && a == -1)
    ensures Apply(Over, a, b).Ok? && Apply(Modulo, a, b).Ok?
    ensures b == a * Apply(Over, a, b).value + Apply(Modulo, a, b).value
    ensures Abs(Apply(Modulo, a, b).value) < Abs(a)
    ensures Apply(Modulo, a, b).value == 0 || (Apply(Modulo, a, b).value < 0 <==> b < 0)
    ensures Abs(a) * Abs(Apply(Over, a, b).value) <= Abs(b)
  {
    QuotRem(b, a);
  }

  /** `` ` `` pushes 1 exactly when the lower value is greater than the top. */
  lemma GreaterIsComparison(a: Int32, b: Int32)
    ensures Apply(Greater, a, b) == Ok(1) <==> b > a
    ensures Apply(Greater, a, b) == Ok(0) <==> b <= a
  {
  }

  /** `!` pushes 1 for 0 and 0 for anything else; applied twice it maps every
      value to 0 or 1 according to its truth. */
  lemma NotTwice(st: Stack)
    requires |st| >= 1
    ensures LogicalNot(st).Ok?
    ensures var v := st[|st| - 1];
      LogicalNot(LogicalNot(st).value) == Ok(st[..|st| - 1] + [if v == 0 then 0 else 1])
  {
    var once := LogicalNot(st).value;
    assert once[..|once| - 1] == st[..|st| - 1];
  }

  // ---------------------------------------------------------------------
  // Stack shuffling

  /** `:` never fails, keeps the stack below and pushes a copy of the top or 0. */
  lemma DupKeeps(st: Stack)
    ensures |Dup(st)| == |st| + 1 && Dup(st)[..|st|] == st
    ensures Dup(st)[|st|] == if |st| > 0 then st[|st| - 1] else 0
  {
  }

  /** `\` exchanges the top two values, so doing it twice changes nothing. */
  lemma SwapTwice(st: Stack)
    requires |st| >= 2
    ensures SwapTop(st).Ok? && SwapTop(SwapTop(st).value) == Ok(st)
  {
    var n := |st|;
    var once := SwapTop(st).value;
    assert once[..n - 2] == st[..n - 2];
    assert once[n - 1] == st[n - 2] && once[n - 2] == st[n - 1];
    assert st[..n - 2] + [st[n - 2], st[n - 1]] == st;
  }

  /** `\` on a single value pushes a 0 beneath it; on no value it underflows. */
  lemma SwapShort(st: Stack)
    requires |st| < 2
    ensures |st| == 0 <==> SwapTop(st) == Err(StackUnderflow)
    ensures |st| == 1 ==> SwapTop(st) == Ok([0] + st)
  {
    if |st| == 1 {
      assert [0] + st == [0, st[0]];
    }
  }

  // ---------------------------------------------------------------------
  // The grid: `p` and `g`

  /** `p` fails only on a short stack or when the popped row and column are
      outside the grid. */
  lemma PutInRange(g: seq<seq<CodeUnit>>, st: Stack, v: Int32, col: Int32, row: Int32)
    ensures PutCell(g, st + [v, col, row]).Ok? <==> InGrid(g, row, col)
    ensures !InGrid(g, row, col) ==> PutCell(g, st + [v, col, row]) == Err(AddressOutOfRange)
  {
    var s := st + [v, col, row];
    assert s[..|s| - 1] == st + [v, col];
    assert s[..|s| - 1][..|s| - 2] == st + [v];
    assert s[..|s| - 1][..|s| - 2][..|s| - 3] == st;
  }

  /** `p` writes the value cast to `char` into exactly one cell, pops three
      values, and leaves every other cell as it was. */
  lemma PutWritesOneCell(g: seq<seq<CodeUnit>>, st: Stack, v: Int32, col: Int32, row: Int32)
    requires InGrid(g, row, col)
    ensures PutCell(g, st + [v, col, row]).Ok?
    ensures var m := PutCell(g, st + [v, col, row]).value;
      m.stack == st && SameShape(m.grid, g) && m.grid[row][col] == ToCodeUnit(v) &&
      forall i, j :: InGrid(g, i, j) && (i, j) != (row, col) ==> m.grid[i][j] == g[i][j]
  {
    PutInRange(g, st, v, col, row);
    var s := st + [v, col, row];
    assert s[..|s| - 1] == st + [v, col];
    assert s[..|s| - 1][..|s| - 2] == st + [v];
    assert s[..|s| - 1][..|s| - 2][..|s| - 3] == st;
  }

  /** `g` at the cell `p` just wrote reads back the written value cast to
      `char`, whatever the stack below. */
  lemma PutThenGet(g: seq<seq<CodeUnit>>, st: Stack, v: Int32, col: Int32, row: Int32, rest: Stack)
    requires InGrid(g, row, col)
    ensures PutCell(g, st + [v, col, row]).Ok?
    ensures var m := PutCell(g, st + [v, col, row]).value;
      GetCell(m.grid, rest + [col, row]) == Ok(rest + [ToCodeUnit(v)])
  {
    PutWritesOneCell(g, st, v, col, row);
    var m := PutCell(g, st + [v, col, row]).value;
    var s := rest + [col, row];
    assert s[..|s| - 1] == rest + [col];
    assert s[..|s| - 1][..|s| - 2] == rest;
    assert InGrid(m.grid, row, col);
  }

  /** `g` pushes the cell's character code, or fails when the cell is outside
      the grid. */
  lemma GetReads(g: seq<seq<CodeUnit>>, rest: Stack, col: Int32, row: Int32)
    ensures InGrid(g, row, col) ==> GetCell(g, rest + [col, row]) == Ok(rest + [g[row][col]])
    ensures !InGrid(g, row, col) ==> GetCell(g, rest + [col, row]) == Err(AddressOutOfRange)
  {
    var s := rest + [col, row];
    assert s[..|s| - 1] == rest + [col];
    assert s[..|s| - 1][..|s| - 2] == rest;
  }

  // ---------------------------------------------------------------------
  // Instructions

  /** Every character is the glyph of the instruction it decodes to. */
  lemma GlyphOfDecode(c: CodeUnit)
    ensures Glyph(Decode(c)) == c
  {
  }

  /** Every instruction but a default case that shadows a labelled one
      decodes back from its glyph. */
  lemma DecodeOfGlyph(i: Instr)
    requires i.Other? ==> Decode(i.c).Other?
    ensures Decode(Glyph(i)) == i
  {
  }

  /** Only `.` and `,` write output; `.` writes the decimal text of the top
      and `,` the top cast to `char`. */
  lemma OnlyOutputInstructionsEmit(s: State, i: Instr, choice: Direction)
    requires WellFormed(s)
    ensures Execute(s, i, choice).Ok? && Execute(s, i, choice).value.emitted != [] ==>
      i.OutputInt? || i.OutputChar?
    ensures |s.stack| > 0 && i.OutputInt? ==>
      Execute(s, i, choice) == Ok(Effect(s.(stack := s.stack[..|s.stack| - 1]), Decimal(s.stack[|s.stack| - 1])))
    ensures |s.stack| > 0 && i.OutputChar? ==>
      Execute(s, i, choice) == Ok(Effect(s.(stack := s.stack[..|s.stack| - 1]), [ToCodeUnit(s.stack[|s.stack| - 1])]))
  {
  }

  /** The text `.` writes reads back as the popped number. */
  lemma OutputIntReadsBack(s: State, choice: Direction)
    requires WellFormed(s) && |s.stack| > 0
    ensures Execute(s, OutputInt, choice).Ok?
    ensures var text := Execute(s, OutputInt, choice).value.emitted;
      (forall k :: 0 <= k < |text| ==> IsDigit(text[k]) || (k == 0 && text[k] == CSharpInt.Minus)) &&
      ParseDecimal(text) == s.stack[|s.stack| - 1]
  {
    DecimalRoundTrip(s.stack[|s.stack| - 1]);
  }

  /** The draw of `?` is consulted by `?` alone. */
  lemma ChoiceOnlyForRandom(s: State, i: Instr, c1: Direction, c2: Direction)
    requires WellFormed(s)
    ensures !i.GoRandom? ==> Execute(s, i, c1) == Execute(s, i, c2)
    ensures i.GoRandom? ==> Execute(s, i, c1) == Ok(Silent(s.(dir := c1)))
  {
  }

  /** In string mode a character without a case label is pushed as its code;
      outside it, its offset from '0' is pushed, so a digit pushes its value. */
  lemma DigitsPushTheirValue(s: State, d: nat)
    requires WellFormed(s) && d < 10
    ensures Decode(Zero + d) == Other(Zero + d)
    ensures !s.stringMode ==> Execute(s, Decode(Zero + d), Up) == Ok(Silent(s.(stack := s.stack + [d])))
    ensures s.stringMode ==> Execute(s, Decode(Zero + d), Up) == Ok(Silent(s.(stack := s.stack + [Zero + d])))
  {
  }

  /** In string mode `!` and the space push their own codes, a character
      without a case label pushes its code, and `"` leaves string mode. */
  lemma StringModeQuirks(s: State, c: CodeUnit, choice: Direction)
    requires WellFormed(s) && s.stringMode
    ensures Execute(s, Not, choice) == Ok(Silent(s.(stack := s.stack + [Code('!')])))
    ensures Execute(s, Space, choice) == Ok(Silent(s.(stack := s.stack + [Code(' ')])))
    ensures Decode(c).Other? ==> Execute(s, Decode(c), choice) == Ok(Silent(s.(stack := s.stack + [c])))
    ensures Execute(s, ToggleString, choice) == Ok(Silent(s.(stringMode := false)))
  {
  }

  /** String mode only changes `!`, the space, `"` and the default case: every
      other instruction acts on the stack, the grid, the direction and the
      output exactly as it does outside string mode, and keeps the flag set. */
  lemma StringModeIgnored(s: State, i: Instr, choice: Direction)
    requires WellFormed(s) && s.stringMode
    requires !i.Not? && !i.Space? && !i.Other? && !i.ToggleString?
    ensures var plain := s.(stringMode := false);
      var r, q := Execute(s, i, choice), Execute(plain, i, choice);
      r.Ok? == q.Ok? &&
      (r.Ok? ==> r.value.next == q.value.next.(stringMode := true) && r.value.emitted == q.value.emitted) &&
      (r.Err? ==> r.fault == q.fault)
  {
  }

  /** Outside string mode `!` is logical negation and the space does nothing. */
  lemma OutsideStringMode(s: State, choice: Direction)
    requires WellFormed(s) && !s.stringMode
    ensures Execute(s, Space, choice) == Ok(Silent(s))
    ensures |s.stack| == 0 <==> Execute(s, Not, choice) == Err(StackUnderflow)
    ensures |s.stack| > 0 ==>
      var top := s.stack[|s.stack| - 1];
      Execute(s, Not, choice) == Ok(Silent(s.(stack := s.stack[..|s.stack| - 1] + [if top == 0 then 1 else 0])))
  {
  }

  /** A character without a case label of its own pushes its code in string
      mode and its offset from '0' outside it; nothing else changes. */
  lemma DefaultPush(s: State, c: CodeUnit, choice: Direction)
    requires WellFormed(s) && Decode(c).Other?
    ensures s.stringMode ==> Execute(s, Decode(c), choice) == Ok(Silent(s.(stack := s.stack + [c])))
    ensures !s.stringMode ==> Execute(s, Decode(c), choice) == Ok(Silent(s.(stack := s.stack + [c - Zero])))
  {
    assert Decode(c) == Other(c);
  }

  // ---------------------------------------------------------------------
  // Movement

  /** A horizontal move keeps the row and a vertical one keeps the column;
      a vertical move wraps on the number of rows, so on a jagged grid the
      next fetch fails exactly when the new row is too short. */
  lemma MoveAxes(s: State)
    requires WellFormed(s) && s.col < |s.grid[s.row]|
    ensures (s.dir.Right? || s.dir.Left?) ==> Move(s).row == s.row
    ensures s.dir.Right? ==> Move(s).col == (s.col + 1) % |s.grid[s.row]|
    ensures s.dir.Left? ==> Move(s).col == (s.col - 1) % |s.grid[s.row]|
    ensures (s.dir.Down? || s.dir.Up?) ==> Move(s).col == s.col
    ensures s.dir.Down? ==> Move(s).row == (s.row + 1) % |s.grid|
    ensures s.dir.Up? ==> Move(s).row == (s.row - 1) % |s.grid|
    ensures (s.dir.Down? || s.dir.Up?) ==>
      (Fetch(Move(s)) == Err(AddressOutOfRange) <==> s.col >= |s.grid[Move(s).row]|)
  {
  }

  /** The pointer after `k` moves. */
  function Walk(s: State, k: nat): (t: State)
    requires WellFormed(s) && s.col < |s.grid[s.row]| && s.dir.Right?
    ensures WellFormed(t) && t.col < |t.grid[t.row]| && t == s.(col := t.col)
    decreases k
  {
    if k == 0 then s else Walk(Move(s), k - 1)
  }

  /** Heading right, `k` moves advance the column by `k` modulo the length of
      the row: the row is a ring. */
  lemma {:induction false} WalkRight(s: State, k: nat)
    requires WellFormed(s) && s.col < |s.grid[s.row]| && s.dir.Right?
    ensures Walk(s, k).col == (s.col + k) % |s.grid[s.row]|
    decreases k
  {
    var n := |s.grid[s.row]|;
    if k == 0 {
      RemainderUnique(s.col, n, 0, s.col);
    } else {
      var t := Move(s);
      assert t.col == (s.col + 1) % n && t.grid == s.grid && t.row == s.row;
      assert Walk(s, k) == Walk(t, k - 1);
      WalkRight(t, k - 1);
      ModuloShift(s.col, k, n);
    }
  }

  /** A position one step on, then `k - 1` further, is `k` steps on. */
  lemma ModuloShift(c: nat, k: nat, n: nat)
    requires n > 0 && k > 0
    ensures ((c + 1) % n + (k - 1)) % n == (c + k) % n
  {
    var q, r := (c + 1) / n, (c + 1) % n;
    var y := r + (k - 1);
    var q', r' := y / n, y % n;
    assert c + k == (q + q') * n + r' by {
      assert c + 1 == q * n + r;
      assert y == q' * n + r';
      assert (q + q') * n == q * n + q' * n;
    }
    RemainderUnique(c + k, n, q + q', r');
  }

  /** The remainder is the one value in range that completes the division. */
  lemma RemainderUnique(y: int, n: int, d: int, r: int)
    requires n > 0 && 0 <= r < n && y == d * n + r
    ensures y % n == r
  {
    var d', r' := y / n, y % n;
    assert y == d' * n + r' && 0 <= r' < n;
    assert (d - d') * n == r' - r;
    MultipleBound(d - d', n);
  }

  lemma MultipleBound(m: int, n: int)
    requires n > 0
    ensures m >= 1 ==> m * n >= n
    ensures m <= -1 ==> m * n <= -n
  {
    if m >= 1 {
      assert m * n == (m - 1) * n + n;
    } else if m <= -1 {
      assert m * n == (m + 1) * n - n;
    }
  }

  /** A move left undoes a move right, and a move up undoes a move down. */
  lemma MovesUndo(s: State)
    requires WellFormed(s) && s.col < |s.grid[s.row]|
    ensures s.dir.Right? ==> Move(Move(s).(dir := Left)) == s.(dir := Left)
    ensures s.dir.Down? ==> |s.grid[Move(s).row]| > s.col ==> Move(Move(s).(dir := Up)) == s.(dir := Up)
  {
  }

  // ---------------------------------------------------------------------
  // The loop

  /** A cell holding `@` stops the loop before the body runs, even when the
      trampoline is set and whatever fuel is left. */
  lemma TerminatorHalts(s: State, output: seq<CodeUnit>, fuel: nat, oracle: nat -> Direction, steps: nat)
    requires WellFormed(s) && s.col < |s.grid[s.row]| && s.grid[s.row][s.col] == At
    ensures Run(s, output, fuel, oracle, steps) == Finished(output)
    ensures Step(s, oracle(steps)) == Halt
  {
  }

  /** A program whose first character is `@` writes nothing, whatever the
      rest of the text and the fuel: the run starts at the top left corner. */
  lemma StartsAtTerminator(text: seq<CodeUnit>, fuel: nat, oracle: nat -> Direction)
    requires |text| >= 1 && text[0] == At
    ensures Interpretation(text, fuel, oracle) == Finished([])
  {
    var rows := Lines.SplitLines(text[1..]);
    assert Lines.SplitLines(text) == [[At] + rows[0]] + rows[1..];
    TerminatorHalts(Initial(text), [], fuel, oracle, 0);
  }

  /** A set trampoline skips the current cell: the flag is cleared, the
      pointer moves, and nothing else changes. */
  lemma TrampolineSkips(s: State, choice: Direction)
    requires WellFormed(s) && s.col < |s.grid[s.row]| && s.trampoline
    ensures Body(s, choice).Ok?
    ensures var t := Body(s, choice).value;
      t.emitted == [] && !t.next.trampoline &&
      t.next.stack == s.stack && t.next.grid == s.grid && t.next.dir == s.dir &&
      t.next.stringMode == s.stringMode &&
      t.next.row == Move(s).row && t.next.col == Move(s).col
  {
  }

  /** A run that does not exhaust its fuel has the same outcome with more
      fuel: fuel only bounds the run and never changes its result. */
  lemma {:induction false} MoreFuel(s: State, output: seq<CodeUnit>, fuel: nat, oracle: nat -> Direction, steps: nat)
    requires WellFormed(s)
    requires Run(s, output, fuel, oracle, steps) != OutOfFuel
    ensures Run(s, output, fuel + 1, oracle, steps) == Run(s, output, fuel, oracle, steps)
    decreases fuel
  {
    if s.col < |s.grid[s.row]| && s.grid[s.row][s.col] != At {
      assert fuel > 0;
      var passed, next, emitted := PassWithMoreFuel(s, output, fuel, oracle, steps);
      if passed {
        MoreFuel(next, output + emitted, fuel - 1, oracle, steps + 1);
      }
    }
  }

  /** The first pass of a run, taken with the given fuel and with one more:
      both continue from the same state, or both end on the same fault. */
  lemma PassWithMoreFuel(s: State, output: seq<CodeUnit>, fuel: nat, oracle: nat -> Direction, steps: nat)
    returns (passed: bool, next: State, emitted: seq<CodeUnit>)
    requires WellFormed(s) && s.col < |s.grid[s.row]| && s.grid[s.row][s.col] != At && fuel > 0
    ensures passed ==> (WellFormed(next) &&
      Run(s, output, fuel, oracle, steps) == Run(next, output + emitted, fuel - 1, oracle, steps + 1) &&
      Run(s, output, fuel + 1, oracle, steps) == Run(next, output + emitted, fuel, oracle, steps + 1))
    ensures !passed ==> Run(s, output, fuel + 1, oracle, steps) == Run(s, output, fuel, oracle, steps)
  {
    match Body(s, oracle(steps))
    case Err(f) =>
      RunCrashes(s, output, fuel, oracle, steps, f);
      RunCrashes(s, output, fuel + 1, oracle, steps, f);
      passed, next, emitted := false, s, [];
    case Ok(e) =>
      RunOnward(s, output, fuel, oracle, steps, e);
      RunOnward(s, output, fuel + 1, oracle, steps, e);
      RunOnwardTo(s, output, fuel + 1, oracle, steps, e.next, e.emitted, fuel, steps + 1);
      passed, next, emitted := true, e.next, e.emitted;
  }

  /** Output is only ever appended to: a finished run's output starts with
      the output written before it. */
  lemma {:induction false} OutputGrows(s: State, output: seq<CodeUnit>, fuel: nat, oracle: nat -> Direction, steps: nat)
    requires WellFormed(s)
    ensures Run(s, output, fuel, oracle, steps).Finished? ==>
      |output| <= |Run(s, output, fuel, oracle, steps).output| &&
      Run(s, output, fuel, oracle, steps).output[..|output|] == output
    decreases fuel
  {
    if s.col < |s.grid[s.row]| && s.grid[s.row][s.col] != At && fuel > 0 {
      var passed, next, emitted := RunContinues(s, output, fuel, oracle, steps);
      if passed {
        var more := output + emitted;
        OutputGrows(next, more, fuel - 1, oracle, steps + 1);
        var r := Run(next, more, fuel - 1, oracle, steps + 1);
        if r.Finished? {
          AppendPrefix(output, emitted, more, r.output);
        }
      }
    }
  }

  /** What starts with `b`, which is `a + d`, starts with `a`. */
  lemma AppendPrefix(a: seq<CodeUnit>, d: seq<CodeUnit>, b: seq<CodeUnit>, c: seq<CodeUnit>)
    requires b == a + d && |b| <= |c| && c[..|b|] == b
    ensures |a| <= |c| && c[..|a|] == a
  {
    assert c[..|a|] == c[..|b|][..|a|] == b[..|a|];
  }

  /** The grid never changes shape during a run: `p` writes inside it. */
  lemma {:induction false} ShapeKept(s: State, choice: Direction)
    requires WellFormed(s) && s.col < |s.grid[s.row]|
    ensures match Step(s, choice)
      case Next(e) => SameShape(e.next.grid, s.grid)
      case _ => true
  {
  }

  // ---------------------------------------------------------------------
  // Whole programs

  function Oracle(k: nat): Direction
  {
    Right
  }

  /** A lone terminator writes nothing. */
  lemma HaltAtOnce()
    ensures Interpretation([At], 0, Oracle) == Finished([])
  {
    Lines.SplitJoin([[At]]);
  }

  /** Outside string mode a digit pushes its value and the pointer moves on. */
  lemma DigitStep(s: State, d: nat, choice: Direction)
    requires WellFormed(s) && s.col + 1 < |s.grid[s.row]| && d < 10
    requires s.grid[s.row][s.col] == Zero + d && s.dir == Right && !s.stringMode && !s.trampoline
    ensures Body(s, choice) == Ok(Silent(s.(stack := s.stack + [d], col := s.col + 1)))
  {
    assert Decode(Zero + d) == Other(Zero + d);
  }

  /** A binary operator with two values on the stack replaces them by its
      value, and the pointer moves on. */
  lemma BinaryStep(s: State, op: BinOp, v: Int32, choice: Direction)
    requires WellFormed(s) && s.col + 1 < |s.grid[s.row]| && |s.stack| >= 2
    requires s.grid[s.row][s.col] == Glyph(Arith(op)) && s.dir == Right && !s.trampoline
    requires Apply(op, s.stack[|s.stack| - 1], s.stack[|s.stack| - 2]) == Ok(v)
    ensures Body(s, choice) == Ok(Silent(s.(stack := s.stack[..|s.stack| - 2] + [v], col := s.col + 1)))
  {
    DecodeOfGlyph(Arith(op));
    BinaryEffect(op, s.stack);
  }

  /** `.` with a value on the stack writes its decimal text and moves on. */
  lemma PrintStep(s: State, choice: Direction)
    requires WellFormed(s) && s.col + 1 < |s.grid[s.row]| && |s.stack| >= 1
    requires s.grid[s.row][s.col] == Code('.') && s.dir == Right && !s.trampoline
    ensures Body(s, choice) ==
      Ok(Effect(s.(stack := s.stack[..|s.stack| - 1], col := s.col + 1), Decimal(s.stack[|s.stack| - 1])))
  {
    assert Decode(Code('.')) == OutputInt;
  }

  lemma TenInDecimal()
    ensures Decimal(10) == [Zero + 1, Zero]
  {
    assert 10 / 10 == 1 && 10 % 10 == 0;
    assert Digits(1) == [Zero + 1];
    assert Digits(10) == Digits(1) + [Zero + 0];
  }

  const AddProgram: seq<CodeUnit> := [Zero + 9, Zero + 1, Code('+'), Code('.'), At]

  /** The second half of `91+.@`: with 9 and 1 on the stack, `+` adds them,
      `.` prints 10 and `@` stops. */
  lemma AddAndPrintTail()
    ensures Run(State([AddProgram], [9, 1], 0, 2, Right, false, false), [], 2, Oracle, 2) ==
      Finished([Zero + 1, Zero])
  {
    var s2 := State([AddProgram], [9, 1], 0, 2, Right, false, false);
    var s3 := s2.(stack := [10], col := 3);
    var s4 := s3.(stack := [], col := 4);
    BinaryStep(s2, Plus, 10, Oracle(2));
    assert s2.(stack := s2.stack[..0] + [10], col := 3) == s3;
    PrintStep(s3, Oracle(3));
    TenInDecimal();
    var none: seq<CodeUnit> := [];
    assert none + none == none && none + [Zero + 1, Zero] == [Zero + 1, Zero];
    RunOnward(s2, [], 2, Oracle, 2, Silent(s3));
    RunOnward(s3, [], 1, Oracle, 3, Effect(s4, [Zero + 1, Zero]));
    TerminatorHalts(s4, [Zero + 1, Zero], 0, Oracle, 4);
  }

  /** `91+.@` prints the sum of 9 and 1. */
  lemma AddAndPrint()
    ensures Interpretation(AddProgram, 4, Oracle) == Finished([Zero + 1, Zero])
  {
    var g := [AddProgram];
    Lines.SplitJoin(g);
    var s0 := State(g, [], 0, 0, Right, false, false);
    var s1 := s0.(stack := [9], col := 1);
    var s2 := s1.(stack := [9, 1], col := 2);
    assert Initial(AddProgram) == s0;
    DigitStep(s0, 9, Oracle(0));
    assert s0.(stack := [] + [9], col := 1) == s1;
    DigitStep(s1, 1, Oracle(1));
    assert s1.(stack := [9] + [1], col := 2) == s2;
    var none: seq<CodeUnit> := [];
    assert none + none == none;
    RunOnward(s0, [], 4, Oracle, 0, Silent(s1));
    RunOnward(s1, [], 3, Oracle, 1, Silent(s2));
    AddAndPrintTail();
  }
}
