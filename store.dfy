// A worksheet of the spreadsheet as the app sees it: a list of rows of
// cells that three calls change in place: `append_row` adds a row after
// the last one, `update(A<k>, [values])` overwrites one row from column A,
// and `clear` empties the sheet (`append_rows` is a loop of `append_row`).
module Store {

  /** Row `row` with its first |vals| cells overwritten by `vals`; cells to the right stay. */
  function Overwrite<T>(row: seq<T>, vals: seq<T>): (r: seq<T>)
    ensures |r| == if |vals| >= |row| then |vals| else |row|
    ensures r[..|vals|] == vals
    ensures forall k :: |vals| <= k < |row| ==> r[k] == row[k]
  {
    if |vals| >= |row| then vals else vals + row[|vals|..]
  }

  class Worksheet<T> {
    var rows: seq<seq<T>>

    constructor(initial: seq<seq<T>>)
      ensures rows == initial
    {
      rows := initial;
    }

    /** `append_row(values)`. */
    method AppendRow(values: seq<T>)
      modifies this
      ensures rows == old(rows) + [values]
    {
      rows := rows + [values];
    }

    /**
     * `update(f"A{k + 1}", [values])`: row `k` (0-based) is overwritten from
     * its first cell; rows of the grid below the data are empty until written.
     */
    method UpdateRow(k: nat, values: seq<T>)
      modifies this
      ensures |rows| == if k < |old(rows)| then |old(rows)| else k + 1
      ensures rows[k] == Overwrite(if k < |old(rows)| then old(rows)[k] else [], values)
      ensures forall j :: 0 <= j < |old(rows)| && j != k ==> rows[j] == old(rows)[j]
      ensures forall j :: |old(rows)| <= j < k ==> rows[j] == []
    {
      if k < |rows| {
        rows := rows[k := Overwrite(rows[k], values)];
      } else {
        var gap := seq(k - |rows|, _ => []);
        rows := rows + gap + [Overwrite([], values)];
      }
    }

    /** `clear()`. */
    method Clear()
      modifies this
      ensures rows == []
    {
      rows := [];
    }
  }
}
