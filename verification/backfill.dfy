/** `Curator.fill_empty_rows` (backend/master/curator.py): a row-major walk
    over a copy of the dataset that asks the model for a value once per empty
    cell and writes the answer only when it is non-empty.

    The scoped research and the completion call per cell are one oracle. It
    sees the ORIGINAL row (the loop iterates `dataset`, not the copy being
    written) and the column name, and threads a session state `S` that stands
    for everything the call changes (the visited-URL set among others). A call
    that raises is not caught in the source, so it ends the whole walk. */
module Backfill {
  import opened Base
  import opened Frames

  type Generator<!S> = (S, seq<Cell>, string) -> (Result<string, Raised>, S)

  datatype Filled<T, S> = Filled(outcome: Result<T, Raised>, state: S, calls: nat)

  /** `after` differs from `before` only in cells that were empty, and only by a filled value. */
  predicate Backfilled(before: seq<Cell>, after: seq<Cell>) {
    && |after| == |before|
    && forall k | 0 <= k < |before| ::
         (!IsEmptyCell(before[k]) ==> after[k] == before[k])
         && (after[k] != before[k] ==> !IsEmptyCell(after[k]))
  }

  predicate GridBackfilled(before: seq<seq<Cell>>, after: seq<seq<Cell>>) {
    |after| == |before| && forall i | 0 <= i < |before| :: Backfilled(before[i], after[i])
  }

  /** The generator answers every call with non-empty text. */
  ghost predicate AlwaysAnswers<S(!new)>(gen: Generator<S>) {
    forall s, row, column :: gen(s, row, column).0.Ok? && gen(s, row, column).0.value != ""
  }

  /** The inner loop over the columns `j..` of one row. */
  function FillCells<S(!new)>(gen: Generator<S>, s: S, columns: seq<string>, row: seq<Cell>, j: nat): (r: Filled<seq<Cell>, S>)
    requires |row| == |columns| && j <= |row|
    ensures r.outcome.Ok? ==> Backfilled(row[j..], r.outcome.value)
    ensures r.outcome.Ok? ==> r.calls == EmptyCells(row[j..])
    ensures r.outcome.Err? ==> 0 < r.calls <= EmptyCells(row[j..])
    ensures EmptyCells(row[j..]) == 0 ==> r == Filled(Ok(row[j..]), s, 0)
    ensures AlwaysAnswers(gen) ==> r.outcome.Ok? && EmptyCells(r.outcome.value) == 0
    decreases |row| - j
  {
    if j == |row| then Filled(Ok([]), s, 0)
    else
      assert row[j..] == [row[j]] + row[j + 1..];
      if IsEmptyCell(row[j]) then
        var (answer, s1) := gen(s, row, columns[j]);
        match answer
        case Err(e) => Filled(Err(e), s1, 1)
        case Ok(v) =>
          var cell := if v != "" then Some(v) else row[j];
          var rest := FillCells(gen, s1, columns, row, j + 1);
          match rest.outcome
          case Err(e) => Filled(Err(e), rest.state, 1 + rest.calls)
          case Ok(cells) => Filled(Ok([cell] + cells), rest.state, 1 + rest.calls)
      else
        var rest := FillCells(gen, s, columns, row, j + 1);
        match rest.outcome
        case Err(e) => Filled(Err(e), rest.state, rest.calls)
        case Ok(cells) => Filled(Ok([row[j]] + cells), rest.state, rest.calls)
  }

  /** The outer loop over the rows `i..`. */
  function FillRows<S(!new)>(gen: Generator<S>, s: S, columns: seq<string>, rows: seq<seq<Cell>>, i: nat): (r: Filled<seq<seq<Cell>>, S>)
    requires forall k | 0 <= k < |rows| :: |rows[k]| == |columns|
    requires i <= |rows|
    ensures r.outcome.Ok? ==> GridBackfilled(rows[i..], r.outcome.value)
    ensures r.outcome.Ok? ==> r.calls == EmptyCellsOf(rows[i..])
    ensures r.outcome.Err? ==> 0 < r.calls <= EmptyCellsOf(rows[i..])
    ensures EmptyCellsOf(rows[i..]) == 0 ==> r == Filled(Ok(rows[i..]), s, 0)
    ensures AlwaysAnswers(gen) ==> r.outcome.Ok? && EmptyCellsOf(r.outcome.value) == 0
    decreases |rows| - i
  {
    if i == |rows| then Filled(Ok([]), s, 0)
    else
      assert rows[i..] == [rows[i]] + rows[i + 1..];
      assert rows[i][0..] == rows[i];
      var first := FillCells(gen, s, columns, rows[i], 0);
      match first.outcome
      case Err(e) => Filled(Err(e), first.state, first.calls)
      case Ok(row') =>
        var rest := FillRows(gen, first.state, columns, rows, i + 1);
        match rest.outcome
        case Err(e) => Filled(Err(e), rest.state, first.calls + rest.calls)
        case Ok(rows') => Filled(Ok([row'] + rows'), rest.state, first.calls + rest.calls)
  }

  /** `fill_empty_rows`: same columns and shape, only empty cells change and
      only to filled values, one generation call per empty cell, and a
      dataset with no empty cell comes back unchanged without any call. */
  function FillEmptyRows<S(!new)>(gen: Generator<S>, s: S, f: Frame): (r: Filled<Frame, S>)
    requires WellFormed(f)
    ensures r.outcome.Ok? ==> r.outcome.value.columns == f.columns && WellFormed(r.outcome.value)
    ensures r.outcome.Ok? ==> GridBackfilled(f.rows, r.outcome.value.rows)
    ensures r.outcome.Ok? ==> r.calls == EmptyCellsOf(f.rows)
    ensures r.outcome.Err? ==> 0 < r.calls <= EmptyCellsOf(f.rows)
    ensures EmptyCellsOf(f.rows) == 0 ==> r == Filled(Ok(f), s, 0)
    ensures AlwaysAnswers(gen) ==> r.outcome.Ok? && EmptyCellsOf(r.outcome.value.rows) == 0
  {
    assert f.rows[0..] == f.rows;
    var rows := FillRows(gen, s, f.columns, f.rows, 0);
    match rows.outcome
    case Err(e) => Filled(Err(e), rows.state, rows.calls)
    case Ok(rows') => Filled(Ok(Frame(f.columns, rows')), rows.state, rows.calls)
  }

  /** The generator's answer for a row and a column does not depend on the
      session state: `ans` gives it. */
  ghost predicate AnswersBy<S(!new)>(gen: Generator<S>, ans: (seq<Cell>, string) -> Result<string, Raised>) {
    forall s, row, column :: gen(s, row, column).0 == ans(row, column)
  }

  /** A cell after backfill, given the generator's answer for it: an empty
      cell takes a non-empty answer, every other cell stays. */
  function Answered(c: Cell, a: Result<string, Raised>): Cell {
    if IsEmptyCell(c) && a.Ok? && a.value != "" then Some(a.value) else c
  }

  /** The walk along `row` from column `j` ended in `r` as the answers
      `ans` dictate: it succeeded iff every empty cell's answer did, and then
      each cell is its own answer when it was empty and the answer non-empty,
      and the cell as it was otherwise. */
  ghost predicate RowWritten(r: Result<seq<Cell>, Raised>, ans: (seq<Cell>, string) -> Result<string, Raised>,
                             columns: seq<string>, row: seq<Cell>, j: nat)
    requires |row| == |columns| && j <= |row|
  {
    && (r.Ok? <==> forall k | j <= k < |row| :: IsEmptyCell(row[k]) ==> ans(row, columns[k]).Ok?)
    && (r.Ok? ==> |r.value| == |row| - j
                  && forall k | j <= k < |row| :: r.value[k - j] == Answered(row[k], ans(row, columns[k])))
  }

  /** The same for the rows `i..` of a grid. */
  ghost predicate GridWritten(r: Result<seq<seq<Cell>>, Raised>, ans: (seq<Cell>, string) -> Result<string, Raised>,
                              columns: seq<string>, rows: seq<seq<Cell>>, i: nat)
    requires forall k | 0 <= k < |rows| :: |rows[k]| == |columns|
    requires i <= |rows|
  {
    && (r.Ok? <==> forall a, k | i <= a < |rows| && 0 <= k < |columns| ::
                     IsEmptyCell(rows[a][k]) ==> ans(rows[a], columns[k]).Ok?)
    && (r.Ok? ==> |r.value| == |rows| - i
                  && forall b | 0 <= b < |r.value| ::
                       |r.value[b]| == |columns|
                       && forall k | 0 <= k < |columns| ::
                            r.value[b][k] == Answered(rows[i + b][k], ans(rows[i + b], columns[k])))
  }

  /** With state-independent answers, the walk along a row writes each
      empty cell's own answer: the one for its row and its column. */
  lemma {:induction false} FillCellsWrites<S(!new)>(
    gen: Generator<S>, ans: (seq<Cell>, string) -> Result<string, Raised>,
    s: S, columns: seq<string>, row: seq<Cell>, j: nat)
    requires |row| == |columns| && j <= |row|
    requires AnswersBy(gen, ans)
    ensures RowWritten(FillCells(gen, s, columns, row, j).outcome, ans, columns, row, j)
    decreases |row| - j
  {
    if j < |row| {
      var s1 := if IsEmptyCell(row[j]) then gen(s, row, columns[j]).1 else s;
      if IsEmptyCell(row[j]) && ans(row, columns[j]).Err? {
        assert gen(s, row, columns[j]).0 == ans(row, columns[j]);
      } else {
        FillCellsWrites(gen, ans, s1, columns, row, j + 1);
        FillCellsStep(gen, ans, s, s1, columns, row, j);
        var r := FillCells(gen, s, columns, row, j).outcome;
        var rest := FillCells(gen, s1, columns, row, j + 1).outcome;
        if r.Ok? {
          forall k | j <= k < |row| ensures r.value[k - j] == Answered(row[k], ans(row, columns[k])) {
            if k > j {
              assert r.value[k - j] == rest.value[k - (j + 1)];
            }
          }
        }
      }
    }
  }

  /** One step of the row walk: a cell that is not empty, or empty with a
      successful answer, is followed by the walk from the next column. */
  lemma {:induction false} FillCellsStep<S(!new)>(
    gen: Generator<S>, ans: (seq<Cell>, string) -> Result<string, Raised>,
    s: S, s1: S, columns: seq<string>, row: seq<Cell>, j: nat)
    requires |row| == |columns| && j < |row|
    requires AnswersBy(gen, ans)
    requires IsEmptyCell(row[j]) ==> ans(row, columns[j]).Ok? && gen(s, row, columns[j]).1 == s1
    requires !IsEmptyCell(row[j]) ==> s1 == s
    ensures var r, rest := FillCells(gen, s, columns, row, j).outcome, FillCells(gen, s1, columns, row, j + 1).outcome;
      (r.Ok? <==> rest.Ok?)
      && (r.Ok? ==> r.value == [Answered(row[j], ans(row, columns[j]))] + rest.value)
  {
  }

  /** The same over the rows `i..`: every empty cell of the grid gets its own
      answer, and the walk fails iff some empty cell's answer is an error. */
  lemma {:induction false} FillRowsWrites<S(!new)>(
    gen: Generator<S>, ans: (seq<Cell>, string) -> Result<string, Raised>,
    s: S, columns: seq<string>, rows: seq<seq<Cell>>, i: nat)
    requires forall k | 0 <= k < |rows| :: |rows[k]| == |columns|
    requires i <= |rows|
    requires AnswersBy(gen, ans)
    ensures GridWritten(FillRows(gen, s, columns, rows, i).outcome, ans, columns, rows, i)
    decreases |rows| - i
  {
    if i < |rows| {
      var first := FillCells(gen, s, columns, rows[i], 0);
      FillCellsWrites(gen, ans, s, columns, rows[i], 0);
      if first.outcome.Ok? {
        var rest := FillRows(gen, first.state, columns, rows, i + 1);
        FillRowsWrites(gen, ans, first.state, columns, rows, i + 1);
        FillRowsCombine(gen, ans, s, columns, rows, i, first, rest);
      } else {
        assert rows[i][0..] == rows[i];
        var k :| 0 <= k < |columns| && IsEmptyCell(rows[i][k]) && !ans(rows[i], columns[k]).Ok?;
      }
    }
  }

  /** The grid walk from row `i`, put together from its first row and the
      walk from the next row. */
  lemma {:induction false} FillRowsCombine<S(!new)>(
    gen: Generator<S>, ans: (seq<Cell>, string) -> Result<string, Raised>,
    s: S, columns: seq<string>, rows: seq<seq<Cell>>, i: nat,
    first: Filled<seq<Cell>, S>, rest: Filled<seq<seq<Cell>>, S>)
    requires forall k | 0 <= k < |rows| :: |rows[k]| == |columns|
    requires i < |rows|
    requires first == FillCells(gen, s, columns, rows[i], 0) && first.outcome.Ok?
    requires rest == FillRows(gen, first.state, columns, rows, i + 1)
    requires RowWritten(first.outcome, ans, columns, rows[i], 0)
    requires GridWritten(rest.outcome, ans, columns, rows, i + 1)
    ensures GridWritten(FillRows(gen, s, columns, rows, i).outcome, ans, columns, rows, i)
  {
    FillRowsStep(gen, s, columns, rows, i);
    var r := FillRows(gen, s, columns, rows, i).outcome;
    if r.Ok? {
      forall b, k | 0 <= b < |r.value| && 0 <= k < |columns|
        ensures r.value[b][k] == Answered(rows[i + b][k], ans(rows[i + b], columns[k]))
      {
        if b > 0 {
          assert r.value[b] == rest.outcome.value[b - 1];
          assert i + b == (i + 1) + (b - 1);
        } else {
          assert r.value[0] == first.outcome.value;
          assert first.outcome.value[k - 0] == Answered(rows[i][k], ans(rows[i], columns[k]));
        }
      }
    }
  }

  /** One step of the grid walk: after a row filled without error comes the
      walk from the next row. */
  lemma {:induction false} FillRowsStep<S(!new)>(gen: Generator<S>, s: S, columns: seq<string>, rows: seq<seq<Cell>>, i: nat)
    requires forall k | 0 <= k < |rows| :: |rows[k]| == |columns|
    requires i < |rows|
    requires FillCells(gen, s, columns, rows[i], 0).outcome.Ok?
    ensures var first := FillCells(gen, s, columns, rows[i], 0);
      var r, rest := FillRows(gen, s, columns, rows, i).outcome, FillRows(gen, first.state, columns, rows, i + 1).outcome;
      (r.Ok? <==> rest.Ok?)
      && (r.Ok? ==> r.value == [first.outcome.value] + rest.value)
  {
  }

  /** `fill_empty_rows` with state-independent answers: it fails iff some
      empty cell's answer raises, and otherwise every cell of the result is
      the cell's own answer when the cell was empty and the answer
      non-empty, and the cell as it was in every other case. */
  lemma {:induction false} FillEmptyRowsWrites<S(!new)>(
    gen: Generator<S>, ans: (seq<Cell>, string) -> Result<string, Raised>, s: S, f: Frame)
    requires WellFormed(f)
    requires AnswersBy(gen, ans)
    ensures FillEmptyRows(gen, s, f).outcome.Ok?
      <==> forall a, k | 0 <= a < |f.rows| && 0 <= k < |f.columns| ::
             IsEmptyCell(f.rows[a][k]) ==> ans(f.rows[a], f.columns[k]).Ok?
    ensures FillEmptyRows(gen, s, f).outcome.Ok? ==>
      forall a, k | 0 <= a < |f.rows| && 0 <= k < |f.columns| ::
        FillEmptyRows(gen, s, f).outcome.value.rows[a][k] == Answered(f.rows[a][k], ans(f.rows[a], f.columns[k]))
  {
    FillRowsWrites(gen, ans, s, f.columns, f.rows, 0);
    assert f.rows[0..] == f.rows;
  }

  /** Backfill is idempotent once it has filled everything: a second pass over
      its output makes no call and returns the output unchanged. */
  lemma {:induction false} BackfillIdempotent<S(!new)>(gen: Generator<S>, s: S, s': S, f: Frame)
    requires WellFormed(f)
    requires AlwaysAnswers(gen)
    ensures FillEmptyRows(gen, s, f).outcome.Ok?
    ensures var once := FillEmptyRows(gen, s, f).outcome.value;
      FillEmptyRows(gen, s', once) == Filled(Ok(once), s', 0)
  {
  }

  /** The missing-value sentinel counts as filled, so it is never sent for backfill. */
  lemma {:induction false} NotFoundIsKept<S(!new)>(gen: Generator<S>, s: S, f: Frame, i: nat, k: nat)
    requires WellFormed(f)
    requires i < |f.rows| && k < |f.columns| && f.rows[i][k] == Some(NotFound)
    requires FillEmptyRows(gen, s, f).outcome.Ok?
    ensures FillEmptyRows(gen, s, f).outcome.value.rows[i][k] == Some(NotFound)
  {
    assert Backfilled(f.rows[i], FillEmptyRows(gen, s, f).outcome.value.rows[i]);
  }
}
