/**
  The static topology of a key matrix: row and column pin tables, the
  key map from (row, column) to an optional symbol, the row-major order in
  which a sweep visits the cells, and the label a diagnostic prints.
 */
module Matrix {
  import opened Wrappers

  datatype Cell = Cell(row: nat, col: nat)

  /** Symbols by row then column; `None` marks a position with no key. */
  type KeyMap = seq<seq<Option<string>>>

  /** `keys` has exactly `rows` rows of `cols` entries each. */
  predicate Fits(keys: KeyMap, rows: nat, cols: nat)
  {
    |keys| == rows && forall r :: 0 <= r < rows ==> |keys[r]| == cols
  }

  /** Every position of `keys` carries a non-empty symbol. */
  predicate FullyMapped(keys: KeyMap)
  {
    forall r, c :: 0 <= r < |keys| && 0 <= c < |keys[r]| ==> keys[r][c].Some? && keys[r][c].value != ""
  }

  predicate InBounds(keys: KeyMap, cell: Cell)
  {
    cell.row < |keys| && cell.col < |keys[cell.row]|
  }

  // ---------------------------------------------------------------------
  // Pin tables and key maps
  // ---------------------------------------------------------------------

  /** Row and column pins of the game, in physical board numbering. */
  const GameRowPins: seq<nat> := [8, 10, 12, 16, 18]
  const GameColPins: seq<nat> := [7, 11, 13, 15, 19, 21]

  const GameKeys: KeyMap := [
    [Some("A"), Some("B"), Some("C"), Some("D"), Some("E"), Some("F")],
    [Some("G"), Some("H"), Some("I"), Some("J"), Some("K"), Some("L")],
    [Some("M"), Some("N"), Some("O"), Some("P"), Some("Q"), Some("R")],
    [Some("S"), Some("T"), Some("U"), Some("V"), Some("W"), Some("X")],
    [Some("Y"), Some("Z"), Some("1"), Some("2"), Some("3"), Some("4")]
  ]

  /** Row and column pins of the three diagnostic scanners, in chip numbering. */
  const DiagRowPins: seq<nat> := [5, 6, 13, 19, 26, 22]
  const DiagColPins: seq<nat> := [12, 16, 15, 21, 25]

  const DiagKeys: KeyMap := [
    [Some("A"), Some("B"), Some("C"), Some("D"), Some("E")],
    [Some("F"), Some("G"), Some("H"), Some("I"), Some("J")],
    [Some("K"), Some("L"), Some("M"), Some("N"), Some("O")],
    [Some("P"), Some("Q"), Some("R"), Some("S"), Some("T")],
    [Some("U"), Some("V"), Some("W"), Some("X"), Some("Y")],
    [Some("Z"), None, None, None, None]
  ]

  /**
    The game's key map matches its pin tables (5 rows of 6) and every
    position holds a symbol, so a lookup at a scanned cell is always in
    range and always yields a symbol.
   */
  lemma GameKeysFit()
    ensures |GameRowPins| == 5 && |GameColPins| == 6
    ensures Fits(GameKeys, |GameRowPins|, |GameColPins|)
    ensures FullyMapped(GameKeys)
  {
  }

  /** The diagnostic key map matches its pin tables (6 rows of 5). */
  lemma DiagKeysFit()
    ensures |DiagRowPins| == 6 && |DiagColPins| == 5
    ensures Fits(DiagKeys, |DiagRowPins|, |DiagColPins|)
  {
  }

  // ---------------------------------------------------------------------
  // Labels
  // ---------------------------------------------------------------------

  const OutOfBounds: string := "OUT OF BOUNDS"
  const NoneLabel: string := "None"

  /**
    The text a diagnostic prints for a detected cell: the symbol, "None"
    for an absent or empty entry, "OUT OF BOUNDS" when the key map has no
    such position.
   */
  function Label(keys: KeyMap, cell: Cell): (text: string)
  {
    if !InBounds(keys, cell) then OutOfBounds
    else match keys[cell.row][cell.col]
      case Some(s) => if s != "" then s else NoneLabel
      case None => NoneLabel
  }

  /**
    Every cell a diagnostic sweep can report gets a real label: the map
    fits the pins, so "OUT OF BOUNDS" is never printed; the absent entries
    of the last row print as "None"; mapped entries print their symbol.
   */
  lemma DiagLabels(cell: Cell)
    requires cell.row < |DiagRowPins| && cell.col < |DiagColPins|
    ensures Label(DiagKeys, cell) != OutOfBounds
    ensures Label(DiagKeys, cell) == NoneLabel <==> cell.row == 5 && cell.col > 0
    ensures DiagKeys[cell.row][cell.col].Some? ==> Label(DiagKeys, cell) == DiagKeys[cell.row][cell.col].value
  {
  }

  /** For any key map that fits its pins, no in-range cell is labelled out of bounds. */
  lemma FittingMapNeverOutOfBounds(keys: KeyMap, rows: nat, cols: nat, cell: Cell)
    requires Fits(keys, rows, cols)
    requires cell.row < rows && cell.col < cols
    requires forall r, c :: 0 <= r < rows && 0 <= c < cols && keys[r][c].Some? ==> keys[r][c].value != OutOfBounds
    ensures Label(keys, cell) != OutOfBounds
    ensures keys[cell.row][cell.col].None? ==> Label(keys, cell) == NoneLabel
  {
  }

  // ---------------------------------------------------------------------
  // Row-major scan order
  // ---------------------------------------------------------------------

  /** The first `n` cells of row `r`, left to right. */
  function RowCells(r: nat, n: nat): (cs: seq<Cell>)
    ensures |cs| == n
    ensures forall j :: 0 <= j < n ==> cs[j] == Cell(r, j)
  {
    if n == 0 then [] else RowCells(r, n - 1) + [Cell(r, n - 1)]
  }

  /** Every cell of the first `rows` rows: row by row, each row column by column. */
  function RowMajor(rows: nat, cols: nat): (cs: seq<Cell>)
  {
    if rows == 0 then [] else RowMajor(rows - 1, cols) + RowCells(rows - 1, cols)
  }

  /** `a` comes strictly before `b` in row-major, column-minor order. */
  predicate Before(a: Cell, b: Cell)
  {
    a.row < b.row || (a.row == b.row && a.col < b.col)
  }

  /** The row-major order of `rows` rows of `cols` columns has `rows * cols` cells. */
  lemma {:induction false} RowMajorLength(rows: nat, cols: nat)
    ensures |RowMajor(rows, cols)| == rows * cols
  {
    if rows > 0 {
      RowMajorLength(rows - 1, cols);
      assert (rows - 1) * cols + cols == rows * cols;
    }
  }

  /** Every cell of the row-major order is in range. */
  lemma {:induction false} RowMajorInRange(rows: nat, cols: nat)
    ensures forall i :: 0 <= i < |RowMajor(rows, cols)| ==>
      RowMajor(rows, cols)[i].row < rows && RowMajor(rows, cols)[i].col < cols
  {
    if rows > 0 {
      RowMajorInRange(rows - 1, cols);
    }
  }

  /** The row-major order is strictly increasing, so no cell appears twice. */
  lemma {:induction false} RowMajorOrdered(rows: nat, cols: nat)
    ensures forall i, j :: 0 <= i < j < |RowMajor(rows, cols)| ==> Before(RowMajor(rows, cols)[i], RowMajor(rows, cols)[j])
  {
    if rows > 0 {
      RowMajorOrdered(rows - 1, cols);
      RowMajorInRange(rows - 1, cols);
      var prev := RowMajor(rows - 1, cols);
      var last := RowCells(rows - 1, cols);
      var all := RowMajor(rows, cols);
      forall i, j | 0 <= i < j < |all|
        ensures Before(all[i], all[j])
      {
        if j < |prev| {
          assert all[i] == prev[i] && all[j] == prev[j];
        } else if i < |prev| {
          assert all[i] == prev[i];
          assert all[j] == last[j - |prev|];
        } else {
          assert all[i] == last[i - |prev|] && all[j] == last[j - |prev|];
        }
      }
    }
  }

  /** Every cell in range appears in the row-major order. */
  lemma {:induction false} RowMajorComplete(rows: nat, cols: nat)
    ensures forall r, c :: 0 <= r < rows && 0 <= c < cols ==> Cell(r, c) in RowMajor(rows, cols)
  {
    if rows > 0 {
      RowMajorComplete(rows - 1, cols);
      var prev := RowMajor(rows - 1, cols);
      var last := RowCells(rows - 1, cols);
      forall r, c | 0 <= r < rows && 0 <= c < cols
        ensures Cell(r, c) in RowMajor(rows, cols)
      {
        if r < rows - 1 {
          assert Cell(r, c) in prev;
        } else {
          assert last[c] == Cell(r, c);
        }
      }
    }
  }

  /**
    The row-major order lists exactly the `rows * cols` cells in range,
    each once, in strictly increasing row-major position.
   */
  lemma RowMajorEnumerates(rows: nat, cols: nat)
    ensures |RowMajor(rows, cols)| == rows * cols
    ensures forall i :: 0 <= i < |RowMajor(rows, cols)| ==>
      RowMajor(rows, cols)[i].row < rows && RowMajor(rows, cols)[i].col < cols
    ensures forall i, j :: 0 <= i < j < |RowMajor(rows, cols)| ==> Before(RowMajor(rows, cols)[i], RowMajor(rows, cols)[j])
    ensures forall r, c :: 0 <= r < rows && 0 <= c < cols ==> Cell(r, c) in RowMajor(rows, cols)
  {
    RowMajorLength(rows, cols);
    RowMajorInRange(rows, cols);
    RowMajorOrdered(rows, cols);
    RowMajorComplete(rows, cols);
  }

  /** Row `r` scanned up to column `c` is a prefix of the full sweep order. */
  lemma {:induction false} RowMajorPrefix(r: nat, c: nat, rows: nat, cols: nat)
    requires r < rows && c <= cols
    ensures RowMajor(r, cols) + RowCells(r, c) <= RowMajor(rows, cols)
    decreases rows
  {
    assert RowCells(r, c) <= RowCells(r, cols);
    assert RowMajor(r, cols) + RowCells(r, c) <= RowMajor(r + 1, cols);
    if rows > r + 1 {
      RowMajorPrefix(r, c, rows - 1, cols);
    }
  }
}
