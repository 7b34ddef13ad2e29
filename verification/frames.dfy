/** The pandas DataFrame as the curator uses it: named columns and rows of
    cells, where a cell is either null (`None`) or a string. */
module Frames {
  import opened Base
  import opened Seqs

  type Cell = Option<string>

  /** The value the row synthesizer writes for a value it could not find. */
  const NotFound: string := "Not found"

  /** A missing value or the empty string: the cells the backfill tries to fill. */
  predicate IsEmptyCell(c: Cell) {
    c == None || c == Some("")
  }

  datatype Frame = Frame(columns: seq<string>, rows: seq<seq<Cell>>)

  /** Distinct column names and every row as wide as the header. */
  predicate WellFormed(f: Frame) {
    Distinct(f.columns) && forall i | 0 <= i < |f.rows| :: |f.rows[i]| == |f.columns|
  }

  /** `DataFrame.empty`: no rows or no columns. */
  predicate IsEmptyFrame(f: Frame) {
    |f.rows| == 0 || |f.columns| == 0
  }

  function EmptyCells(row: seq<Cell>): nat {
    if |row| == 0 then 0 else (if IsEmptyCell(row[0]) then 1 else 0) + EmptyCells(row[1..])
  }

  function EmptyCellsOf(rows: seq<seq<Cell>>): nat {
    if |rows| == 0 then 0 else EmptyCells(rows[0]) + EmptyCellsOf(rows[1..])
  }
}
