/**
  The wiring tests: a plain probe of every cell (raise its row, wait,
  read its column once, lower the row) and the row-toggling pin test of
  the active-low board.
 */
module ProbeGrid {
  import opened Lines
  import opened Matrix

  /** Settle time of a single-cell probe, in microseconds. */
  const ProbeSettle: nat := 10000

  /** The level one column showed when its cell was probed, and when. */
  datatype Reading = Reading(cell: Cell, at: int, value: Level)

  /**
    Probe one cell from the drive state `ls`: raise row `r`, wait, read
    column `c` once, lower row `r` again.
   */
  method SingleProbe(o: Oracle, ls: seq<Level>, r: nat, c: nat, t: int) returns (value: Level, log: seq<Drive>, t': int)
    requires r < |ls|
    ensures log == [Drive(r, High), Drive(r, Low)]
    ensures t' == t + ProbeSettle
    ensures value == o(ls[r := High], c, t')
    ensures ls == Uniform(|ls|, Low) ==> value == o(OneActive(|ls|, r, High), c, t')
    ensures Replay(ls, log) == ls[r := Low]
  {
    log := [Drive(r, High)];
    ReplaySnoc(ls, [], Drive(r, High));
    var raised := Replay(ls, log);
    assert raised == ls[r := High];
    t' := t + ProbeSettle;
    value := o(raised, c, t');
    ReplaySnoc(ls, log, Drive(r, Low));
    log := log + [Drive(r, Low)];
  }

  /** What a probe grid records: each reading, and the two drives that framed it. */
  ghost predicate Probed(o: Oracle, rows: nat, t0: int, readings: seq<Reading>, log: seq<Drive>)
  {
    && |log| == 2 * |readings|
    && forall i :: 0 <= i < |readings| ==>
      && readings[i].cell.row < rows
      && readings[i].at == t0 + ProbeSettle * (i + 1)
      && readings[i].value == o(OneActive(rows, readings[i].cell.row, High), readings[i].cell.col, readings[i].at)
      && log[2 * i] == Drive(readings[i].cell.row, High)
      && log[2 * i + 1] == Drive(readings[i].cell.row, Low)
  }

  /** The cells of the readings, in order. */
  function CellsOf(readings: seq<Reading>): (cs: seq<Cell>)
    ensures |cs| == |readings|
    ensures forall i :: 0 <= i < |readings| ==> cs[i] == readings[i].cell
  {
    if readings == [] then [] else CellsOf(readings[..|readings| - 1]) + [readings[|readings| - 1].cell]
  }

  /** The state a probe grid keeps between cells: its record, every row back LOW, and the clock. */
  ghost predicate GridState(o: Oracle, rows: nat, lines: seq<Level>, t0: int, readings: seq<Reading>, log: seq<Drive>, t: int)
  {
    && Probed(o, rows, t0, readings, log)
    && OneHot(lines, log, High)
    && Replay(lines, log) == lines
    && t == t0 + ProbeSettle * |readings|
  }

  /** One more probe of cell (r, c) from an all-LOW state keeps the grid state. */
  lemma ProbeStep(o: Oracle, rows: nat, lines: seq<Level>, t0: int, readings: seq<Reading>, log: seq<Drive>, t: int, r: nat, c: nat)
    requires lines == Uniform(rows, Low) && r < rows
    requires GridState(o, rows, lines, t0, readings, log, t)
    ensures GridState(o, rows, lines, t0,
      readings + [Reading(Cell(r, c), t + ProbeSettle, o(OneActive(rows, r, High), c, t + ProbeSettle))],
      log + [Drive(r, High), Drive(r, Low)], t + ProbeSettle)
  {
    var reading := Reading(Cell(r, c), t + ProbeSettle, o(OneActive(rows, r, High), c, t + ProbeSettle));
    RaiseKeepsOneHot(lines, log, r, High);
    DropKeepsOneHot(lines, log + [Drive(r, High)], r, High);
    assert log + [Drive(r, High), Drive(r, Low)] == log + [Drive(r, High)] + [Drive(r, Low)];
  }

  /** A reading of cell (r, c) extends readings of the row so far by that cell. */
  lemma CellsStep(readings: seq<Reading>, reading: Reading, before: seq<Cell>, r: nat, c: nat)
    requires CellsOf(readings) == before + RowCells(r, c)
    requires reading.cell == Cell(r, c)
    ensures CellsOf(readings + [reading]) == before + RowCells(r, c + 1)
  {
    assert (readings + [reading])[..|readings|] == readings;
  }

  /** Probe the cells of row `r`, columns `0` to `cols - 1`, in order. */
  method ProbeRow(o: Oracle, rows: nat, cols: nat, lines: seq<Level>, t0: int, r: nat,
                  readings0: seq<Reading>, log0: seq<Drive>, t1: int) returns (readings: seq<Reading>, log: seq<Drive>, t: int)
    requires lines == Uniform(rows, Low) && r < rows
    requires GridState(o, rows, lines, t0, readings0, log0, t1)
    ensures GridState(o, rows, lines, t0, readings, log, t)
    ensures CellsOf(readings) == CellsOf(readings0) + RowCells(r, cols)
  {
    readings, log, t := readings0, log0, t1;
    var c := 0;
    while c < cols
      invariant c <= cols
      invariant CellsOf(readings) == CellsOf(readings0) + RowCells(r, c)
      invariant GridState(o, rows, lines, t0, readings, log, t)
    {
      // the rows are all LOW between probes, so the probe starts from `lines`
      var value, probe, t' := SingleProbe(o, lines, r, c, t);
      ProbeStep(o, rows, lines, t0, readings, log, t, r, c);
      CellsStep(readings, Reading(Cell(r, c), t', value), CellsOf(readings0), r, c);
      readings, log, t := readings + [Reading(Cell(r, c), t', value)], log + probe, t';
      c := c + 1;
    }
  }

  /**
    Probe every cell of a `rows` by `cols` grid, starting with every row
    LOW: the cells come in row-major order, each reading is what its
    column showed while only its own row was HIGH, and at most one row is
    HIGH at any moment.
   */
  method MatrixTest(o: Oracle, rows: nat, cols: nat, lines: seq<Level>, t0: int) returns (readings: seq<Reading>, log: seq<Drive>, t: int)
    requires lines == Uniform(rows, Low)
    ensures CellsOf(readings) == RowMajor(rows, cols)
    ensures Probed(o, rows, t0, readings, log)
    ensures OneHot(lines, log, High)
    ensures Replay(lines, log) == lines
    ensures t == t0 + ProbeSettle * |readings|
  {
    readings, log, t := [], [], t0;
    var r := 0;
    while r < rows
      invariant r <= rows
      invariant CellsOf(readings) == RowMajor(r, cols)
      invariant GridState(o, rows, lines, t0, readings, log, t)
    {
      readings, log, t := ProbeRow(o, rows, cols, lines, t0, r, readings, log, t);
      r := r + 1;
    }
  }

  /**
    Readings taken in row-major order cover the grid exactly once: one per
    cell, each cell strictly after the one before.
   */
  lemma GridCoversOnce(rows: nat, cols: nat, readings: seq<Reading>)
    requires CellsOf(readings) == RowMajor(rows, cols)
    ensures |readings| == rows * cols
    ensures forall i, j :: 0 <= i < j < |readings| ==> Before(readings[i].cell, readings[j].cell)
    ensures forall r, c :: 0 <= r < rows && 0 <= c < cols ==> exists i :: 0 <= i < |readings| && readings[i].cell == Cell(r, c)
  {
    RowMajorEnumerates(rows, cols);
  }

  /** The grid over the game's pins is 5 by 6, so a full test takes thirty readings. */
  lemma GameGridSize(readings: seq<Reading>)
    requires CellsOf(readings) == RowMajor(|GameRowPins|, |GameColPins|)
    ensures |readings| == 30
  {
    GridCoversOnce(|GameRowPins|, |GameColPins|, readings);
  }

  /** Idle time of the pin test, in microseconds: 1 s with the row LOW, 0.5 s after restoring it. */
  const PinLowHold: nat := 1000000
  const PinHighHold: nat := 500000

  /** Rows below `i` are HIGH, the others as they started. */
  ghost predicate ToggledBelow(lines: seq<Level>, log: seq<Drive>, i: nat)
  {
    forall k :: 0 <= k < |lines| ==> Replay(lines, log)[k] == if k < i then High else lines[k]
  }

  /** Toggling row `i` LOW then HIGH leaves rows up to `i` HIGH, with at most one LOW row throughout when all started HIGH. */
  lemma {:induction false} ToggleStep(lines: seq<Level>, log: seq<Drive>, i: nat)
    requires i < |lines|
    requires ToggledBelow(lines, log, i)
    requires lines == Uniform(|lines|, High) ==> OneHot(lines, log, Low)
    ensures ToggledBelow(lines, log + [Drive(i, Low), Drive(i, High)], i + 1)
    ensures lines == Uniform(|lines|, High) ==> OneHot(lines, log + [Drive(i, Low), Drive(i, High)], Low)
  {
    assert log + [Drive(i, Low), Drive(i, High)] == log + [Drive(i, Low)] + [Drive(i, High)];
    ReplaySnoc(lines, log, Drive(i, Low));
    ReplaySnoc(lines, log + [Drive(i, Low)], Drive(i, High));
    if lines == Uniform(|lines|, High) {
      assert Replay(lines, log) == Uniform(|lines|, Flip(Low));
      RaiseKeepsOneHot(lines, log, i, Low);
      DropKeepsOneHot(lines, log + [Drive(i, Low)], i, Low);
    }
  }

  /** Toggle each row LOW and back HIGH in turn; afterwards every row is HIGH. */
  method TogglePins(lines: seq<Level>, t0: int) returns (log: seq<Drive>, t: int)
    ensures |log| == 2 * |lines|
    ensures forall i :: 0 <= i < |lines| ==> log[2 * i] == Drive(i, Low) && log[2 * i + 1] == Drive(i, High)
    ensures Replay(lines, log) == Uniform(|lines|, High)
    ensures lines == Uniform(|lines|, High) ==> OneHot(lines, log, Low)
    ensures t == t0 + (PinLowHold + PinHighHold) * |lines|
  {
    var n := |lines|;
    log, t := [], t0;
    var i := 0;
    while i < n
      invariant i <= n
      invariant |log| == 2 * i
      invariant forall k :: 0 <= k < i ==> log[2 * k] == Drive(k, Low) && log[2 * k + 1] == Drive(k, High)
      invariant ToggledBelow(lines, log, i)
      invariant lines == Uniform(n, High) ==> OneHot(lines, log, Low)
      invariant t == t0 + (PinLowHold + PinHighHold) * i
    {
      ToggleStep(lines, log, i);
      log := log + [Drive(i, Low), Drive(i, High)];
      t := t + PinLowHold + PinHighHold;
      i := i + 1;
    }
  }

  /** Driving a row HIGH when every row is HIGH changes nothing. */
  lemma RaiseStep(lines: seq<Level>, log: seq<Drive>, j: nat)
    requires Replay(lines, log) == Uniform(|lines|, High)
    ensures Replay(lines, log + [Drive(j, High)]) == Uniform(|lines|, High)
    ensures OneHot(lines, log, Low) ==> OneHot(lines, log + [Drive(j, High)], Low)
  {
    ReplaySnoc(lines, log, Drive(j, High));
    assert Apply(Uniform(|lines|, High), Drive(j, High)) == Uniform(|lines|, High);
    IdleAtMostOne(|lines|, Low);
    OneHotSnoc(lines, log, Drive(j, High), Low);
  }

  /** Drive every row HIGH once more, after `log0`, which left every row HIGH already. */
  method RaiseAll(lines: seq<Level>, log0: seq<Drive>) returns (log: seq<Drive>)
    requires Replay(lines, log0) == Uniform(|lines|, High)
    ensures |log| == |log0| + |lines|
    ensures log[..|log0|] == log0
    ensures forall i :: 0 <= i < |lines| ==> log[|log0| + i] == Drive(i, High)
    ensures Replay(lines, log) == Uniform(|lines|, High)
    ensures OneHot(lines, log0, Low) ==> OneHot(lines, log, Low)
  {
    var n := |lines|;
    log := log0;
    var j := 0;
    while j < n
      invariant j <= n
      invariant |log| == |log0| + j
      invariant log[..|log0|] == log0
      invariant forall k :: 0 <= k < j ==> log[|log0| + k] == Drive(k, High)
      invariant Replay(lines, log) == Uniform(n, High)
      invariant OneHot(lines, log0, Low) ==> OneHot(lines, log, Low)
    {
      RaiseStep(lines, log, j);
      log := log + [Drive(j, High)];
      j := j + 1;
    }
  }

  /**
    The pin test: toggle each row LOW and back HIGH in turn, then drive
    every row HIGH once more; every row ends HIGH, and starting from all
    HIGH at most one row is LOW at any moment.
   */
  method TestIndividualPins(lines: seq<Level>, t0: int) returns (log: seq<Drive>, t: int)
    ensures |log| == 3 * |lines|
    ensures forall i :: 0 <= i < |lines| ==> log[2 * i] == Drive(i, Low) && log[2 * i + 1] == Drive(i, High)
    ensures forall i :: 0 <= i < |lines| ==> log[2 * |lines| + i] == Drive(i, High)
    ensures Replay(lines, log) == Uniform(|lines|, High)
    ensures lines == Uniform(|lines|, High) ==> OneHot(lines, log, Low)
    ensures t == t0 + (PinLowHold + PinHighHold) * |lines|
  {
    var toggles;
    toggles, t := TogglePins(lines, t0);
    log := RaiseAll(lines, toggles);
    assert forall i :: 0 <= i < 2 * |lines| ==> log[i] == toggles[i];
  }
}
