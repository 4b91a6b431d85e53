/**
  How the interpreter cuts its program text into grid rows: a split on the
  pattern `(?:\r\n)|(?:\r)|(?:\n)`. At each position the alternatives are tried
  in order, so CR LF is one break, a lone CR or a lone LF is one break, and
  LF CR is two. The separators are dropped, empty rows are kept, and the rows
  are not padded to a common length.
 */
module Lines {
  import opened CSharpInt

  const CR: CodeUnit := 13
  const LF: CodeUnit := 10

  predicate IsBreak(c: CodeUnit)
  {
    c == CR || c == LF
  }

  predicate BreakFree(line: seq<CodeUnit>)
  {
    forall i :: 0 <= i < |line| ==> !IsBreak(line[i])
  }

  /** The rows of `text`: never none, and none holding a line break. */
  function SplitLines(text: seq<CodeUnit>): (rows: seq<seq<CodeUnit>>)
    ensures |rows| >= 1
    ensures forall i :: 0 <= i < |rows| ==> BreakFree(rows[i])
    decreases |text|
  {
    if text == [] then [[]]
    else if text[0] == LF then [[]] + SplitLines(text[1..])
    else if text[0] == CR then
      if |text| >= 2 && text[1] == LF then [[]] + SplitLines(text[2..])
      else [[]] + SplitLines(text[1..])
    else
      var rows := SplitLines(text[1..]);
      [[text[0]] + rows[0]] + rows[1..]
  }

  /** The number of line breaks in `text`, a CR LF pair counting once. */
  function BreakCount(text: seq<CodeUnit>): nat
    decreases |text|
  {
    if text == [] then 0
    else if text[0] == CR && |text| >= 2 && text[1] == LF then 1 + BreakCount(text[2..])
    else if IsBreak(text[0]) then 1 + BreakCount(text[1..])
    else BreakCount(text[1..])
  }

  /** `text` with every CR LF pair and every lone CR replaced by LF. */
  function Normalize(text: seq<CodeUnit>): seq<CodeUnit>
    decreases |text|
  {
    if text == [] then []
    else if text[0] == CR && |text| >= 2 && text[1] == LF then [LF] + Normalize(text[2..])
    else if text[0] == CR then [LF] + Normalize(text[1..])
    else [text[0]] + Normalize(text[1..])
  }

  /** The rows written back as text, separated by LF. */
  function JoinLines(rows: seq<seq<CodeUnit>>): seq<CodeUnit>
    requires |rows| >= 1
    decreases |rows|
  {
    if |rows| == 1 then rows[0] else rows[0] + [LF] + JoinLines(rows[1..])
  }

  /** There is one row per line: one more than there are line breaks. */
  lemma {:induction false} RowCount(text: seq<CodeUnit>)
    ensures |SplitLines(text)| == BreakCount(text) + 1
    decreases |text|
  {
    if text == [] {
    } else if text[0] == CR && |text| >= 2 && text[1] == LF {
      RowCount(text[2..]);
    } else {
      RowCount(text[1..]);
    }
  }

  /** Putting a character in front of the first row puts it in front of
      the joined text. */
  lemma JoinCons(c: CodeUnit, rows: seq<seq<CodeUnit>>)
    requires |rows| >= 1
    ensures JoinLines([[c] + rows[0]] + rows[1..]) == [c] + JoinLines(rows)
  {
    var rows' := [[c] + rows[0]] + rows[1..];
    if |rows| > 1 {
      var tail := JoinLines(rows[1..]);
      calc {
        JoinLines(rows');
      == { assert rows'[0] == [c] + rows[0] && rows'[1..] == rows[1..]; }
        ([c] + rows[0]) + [LF] + tail;
      == { Associative(c, rows[0], tail); }
        [c] + (rows[0] + [LF] + tail);
      }
    } else {
      assert rows'[0] == [c] + rows[0] && |rows'| == 1;
    }
  }

  lemma Associative(c: CodeUnit, row: seq<CodeUnit>, tail: seq<CodeUnit>)
    ensures ([c] + row) + [LF] + tail == [c] + (row + [LF] + tail)
  {
  }

  /** Splitting keeps every character except the separators, in order: the
      rows joined with LF are the text with its line breaks normalised. */
  lemma {:induction false} JoinSplit(text: seq<CodeUnit>)
    ensures JoinLines(SplitLines(text)) == Normalize(text)
    decreases |text|
  {
    if text == [] {
    } else if text[0] == LF {
      JoinSplit(text[1..]);
      assert ([[]] + SplitLines(text[1..]))[1..] == SplitLines(text[1..]);
    } else if text[0] == CR && |text| >= 2 && text[1] == LF {
      JoinSplit(text[2..]);
      assert ([[]] + SplitLines(text[2..]))[1..] == SplitLines(text[2..]);
    } else if text[0] == CR {
      JoinSplit(text[1..]);
      assert ([[]] + SplitLines(text[1..]))[1..] == SplitLines(text[1..]);
    } else {
      JoinSplit(text[1..]);
      JoinCons(text[0], SplitLines(text[1..]));
    }
  }

  lemma {:induction false} SplitBreakFree(line: seq<CodeUnit>, rest: seq<CodeUnit>)
    requires BreakFree(line)
    ensures SplitLines(line + rest) == [line + SplitLines(rest)[0]] + SplitLines(rest)[1..]
    decreases |line|
  {
    if line != [] {
      assert (line + rest)[1..] == line[1..] + rest;
      SplitBreakFree(line[1..], rest);
      assert [line[0]] + (line[1..] + SplitLines(rest)[0]) == line + SplitLines(rest)[0];
    } else {
      var rows := SplitLines(rest);
      assert line + rest == rest && line + rows[0] == rows[0];
      assert [rows[0]] + rows[1..] == rows;
    }
  }

  /** Rows free of line breaks come back unchanged from their LF-joined text:
      the split is a left inverse of joining. */
  lemma {:induction false} SplitJoin(rows: seq<seq<CodeUnit>>)
    requires |rows| >= 1
    requires forall i :: 0 <= i < |rows| ==> BreakFree(rows[i])
    ensures SplitLines(JoinLines(rows)) == rows
    decreases |rows|
  {
    if |rows| == 1 {
      SplitBreakFree(rows[0], []);
      assert rows[0] + [] == rows[0];
    } else {
      var tail := [LF] + JoinLines(rows[1..]);
      assert JoinLines(rows) == rows[0] + tail;
      SplitBreakFree(rows[0], tail);
      SplitJoin(rows[1..]);
      assert tail[0] == LF && tail[1..] == JoinLines(rows[1..]);
      assert SplitLines(tail) == [[]] + rows[1..];
      assert rows[0] + [] == rows[0];
      assert [rows[0]] + rows[1..] == rows;
    }
  }

  /** Text that ends in a line break yields a final empty row. */
  lemma {:induction false} TrailingBreak(text: seq<CodeUnit>)
    requires |text| >= 1 && IsBreak(text[|text| - 1])
    ensures SplitLines(text)[|SplitLines(text)| - 1] == []
    decreases |text|, 1
  {
    if !IsBreak(text[0]) {
      TrailingBreakAfter(text);
    } else {
      var rest := if text[0] == CR && |text| >= 2 && text[1] == LF then text[2..] else text[1..];
      assert SplitLines(text) == [[]] + SplitLines(rest);
      if rest != [] {
        TrailingBreak(rest);
      }
      LastAfter([], SplitLines(rest));
    }
  }

  /** The case of `TrailingBreak` where the text starts with an ordinary
      character, which joins the first row of the rest. */
  lemma {:induction false} TrailingBreakAfter(text: seq<CodeUnit>)
    requires |text| >= 1 && IsBreak(text[|text| - 1]) && !IsBreak(text[0])
    ensures SplitLines(text)[|SplitLines(text)| - 1] == []
    decreases |text|, 0
  {
    var rest := text[1..];
    var rows := SplitLines(rest);
    assert SplitLines(text) == [[text[0]] + rows[0]] + rows[1..];
    TrailingBreak(rest);
    assert |rows| >= 2 by {
      RowCount(rest);
      BreakCountPositive(rest);
    }
    LastAfter([text[0]] + rows[0], rows[1..]);
  }

  lemma LastAfter(first: seq<CodeUnit>, rows: seq<seq<CodeUnit>>)
    requires |rows| >= 1
    ensures ([first] + rows)[|rows|] == rows[|rows| - 1]
  {
  }

  lemma {:induction false} BreakCountPositive(text: seq<CodeUnit>)
    requires |text| >= 1 && IsBreak(text[|text| - 1])
    ensures BreakCount(text) >= 1
    decreases |text|
  {
    if text[0] == CR && |text| >= 2 && text[1] == LF {
    } else if IsBreak(text[0]) {
    } else {
      BreakCountPositive(text[1..]);
    }
  }
}
