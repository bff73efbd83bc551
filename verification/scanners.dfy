/**
  The four scanners of the repository as instances of the one sweep: the
  game's `scan_keys` and the three diagnostic scanners, which report every
  confirmed position through the de-duplication rule and print its label.
  Ticks are microseconds.
 */
module Scanners {
  import opened Wrappers
  import opened Lines
  import opened Matrix
  import opened Dedup
  import opened Release
  import opened Scan

  // ---------------------------------------------------------------------
  // The game's scanner
  // ---------------------------------------------------------------------

  /**
    Rows idle LOW and are raised HIGH one at a time; columns have pull-down
    resistors, so HIGH means pressed.  Settle 800 us, debounce 50 ms; on a
    confirmed press the row is dropped, the column polled every 1 ms for at
    most 2 s, and the sweep ends.
   */
  const GameScheme: Scheme := Scheme(High, High, 800, 50000, true, DropThenWait, Bounded(1000, 2000000))

  /**
    The same scanner with the release wait moved before the row is
    dropped, so that the wait can actually see the key (see `Physics`).
   */
  const GameSchemeHeld: Scheme := Scheme(High, High, 800, 50000, true, WaitThenDrop, Bounded(1000, 2000000))

  /**
    A stopping scan with a bounded release wait over any fitting key map:
    the entry of the first confirmed cell in row-major order, or nothing
    when the whole matrix was examined without a confirmed press.
   */
  method ScanFirst(s: Scheme, keys: KeyMap, rows: nat, cols: nat, o: Oracle, lines: seq<Level>, t0: int)
    returns (key: Option<string>, sw: SweepRecord)
    requires s.Valid() && s.StopsAtFirst() && s.resetFirst && s.release.Bounded?
    requires |lines| == rows && Fits(keys, rows, cols)
    ensures SweepOk(s, rows, cols, o, lines, t0, sw)
    ensures Found(s, sw.probes).None? ==>
      && key.None? && sw.waits == []
      && |sw.probes| == rows * cols && forall i :: 0 <= i < |sw.probes| ==> !Confirmed(s, sw.probes[i])
    ensures Found(s, sw.probes).Some? ==>
      var cell := Found(s, sw.probes).value;
      && cell.row < rows && cell.col < cols
      && key == keys[cell.row][cell.col]
      && |sw.waits| == 1 && sw.waits[0].cell == cell
    ensures forall w :: w in sw.waits ==> w.end - w.start <= s.release.limit + s.release.poll
    ensures t0 <= sw.end
    ensures sw.end - t0 <= rows * s.settle + rows * cols * s.debounce + s.release.limit + s.release.poll
  {
    sw := Sweep(s, rows, cols, o, lines, t0, 0);
    FoundIsFirstConfirmed(s, rows, cols, o, lines, t0, sw);
    StoppingSweepWaits(s, rows, cols, o, lines, t0, sw);
    BoundedWaitsEnd(s, rows, o, Hits(s, sw.probes), sw.waits);
    SweepDuration(s, rows, cols, o, lines, t0, sw);
    var found := Found(s, sw.probes);
    if found.Some? {
      key := keys[found.value.row][found.value.col];
    } else {
      key := None;
    }
  }

  /**
    One call of the game's scanner from any row levels: the symbol of the
    first confirmed cell in row-major order, or nothing when the whole
    matrix was examined without a confirmed press.  The release wait is
    bounded by the 2 s timeout plus one poll.
   */
  method ScanGame(s: Scheme, o: Oracle, lines: seq<Level>, t0: int) returns (key: Option<string>, sw: SweepRecord)
    requires s == GameScheme || s == GameSchemeHeld
    requires |lines| == |GameRowPins|
    ensures SweepOk(s, |GameRowPins|, |GameColPins|, o, lines, t0, sw)
    ensures key.Some? <==> Found(s, sw.probes).Some?
    ensures key.None? ==> |sw.probes| == 30 && forall i :: 0 <= i < |sw.probes| ==> !Confirmed(s, sw.probes[i])
    ensures key.Some? ==>
      var cell := Found(s, sw.probes).value;
      && cell.row < 5 && cell.col < 6
      && key == GameKeys[cell.row][cell.col] && key.value != ""
      && |sw.waits| == 1 && sw.waits[0].cell == cell
    ensures key.None? ==> sw.waits == []
    ensures forall w :: w in sw.waits ==> w.end - w.start <= 2000000 + 1000
    ensures t0 <= sw.end <= t0 + 5 * 800 + 30 * 50000 + 2000000 + 1000
  {
    GameKeysFit();
    key, sw := ScanFirst(s, GameKeys, |GameRowPins|, |GameColPins|, o, lines, t0);
  }

  /** The game's scanner as written: the row is dropped before the release wait. */
  method ScanKeys(o: Oracle, lines: seq<Level>, t0: int) returns (key: Option<string>, sw: SweepRecord)
    requires |lines| == |GameRowPins|
    ensures SweepOk(GameScheme, |GameRowPins|, |GameColPins|, o, lines, t0, sw)
    ensures key.Some? <==> Found(GameScheme, sw.probes).Some?
    ensures key.None? ==> |sw.probes| == 30 && forall i :: 0 <= i < |sw.probes| ==> !Confirmed(GameScheme, sw.probes[i])
    ensures key.Some? ==>
      var cell := Found(GameScheme, sw.probes).value;
      && cell.row < 5 && cell.col < 6
      && key == GameKeys[cell.row][cell.col] && key.value != ""
      && |sw.waits| == 1 && sw.waits[0].cell == cell && sw.waits[0].lines == Uniform(5, Low)
    ensures forall w :: w in sw.waits ==> w.end - w.start <= 2000000 + 1000
    ensures t0 <= sw.end <= t0 + 5 * 800 + 30 * 50000 + 2000000 + 1000
  {
    key, sw := ScanGame(GameScheme, o, lines, t0);
  }

  /** The corrected game scanner: the release wait polls with the row still raised. */
  method ScanKeysHeld(o: Oracle, lines: seq<Level>, t0: int) returns (key: Option<string>, sw: SweepRecord)
    requires |lines| == |GameRowPins|
    ensures SweepOk(GameSchemeHeld, |GameRowPins|, |GameColPins|, o, lines, t0, sw)
    ensures key.Some? <==> Found(GameSchemeHeld, sw.probes).Some?
    ensures key.Some? ==>
      var cell := Found(GameSchemeHeld, sw.probes).value;
      && cell.row < 5 && cell.col < 6
      && key == GameKeys[cell.row][cell.col]
      && |sw.waits| == 1 && sw.waits[0].cell == cell && sw.waits[0].lines == OneActive(5, cell.row, High)
    ensures forall w :: w in sw.waits ==> w.end - w.start <= 2000000 + 1000
    ensures t0 <= sw.end <= t0 + 5 * 800 + 30 * 50000 + 2000000 + 1000
  {
    key, sw := ScanGame(GameSchemeHeld, o, lines, t0);
  }

  // ---------------------------------------------------------------------
  // The diagnostic scanners
  // ---------------------------------------------------------------------

  /** Rows idle LOW, raised HIGH one at a time; pull-down columns, HIGH means pressed; no release wait. */
  const ReversedScheme: Scheme := Scheme(High, High, 1000, 25000, true, KeepScanning, NoWait)

  /** Rows idle HIGH, pulled LOW one at a time; pull-down columns, HIGH means pressed; no release wait. */
  const DiodeScheme: Scheme := Scheme(Low, High, 1000, 25000, true, KeepScanning, NoWait)

  /**
    Rows idle HIGH, pulled LOW one at a time, never reset before a sweep;
    pull-up columns, LOW means pressed; after a confirmed press the column
    is polled every 10 ms until released, with no timeout, then a 100 ms pause.
   */
  const GpioScheme: Scheme := Scheme(Low, Low, 1000, 25000, false, KeepScanning, UntilReleased(10000, 100000))

  /** Report windows, in ticks: 0.3 s for the two diode scanners, 0.5 s for the pull-up scanner. */
  const DiodeWindow: int := 300000
  const GpioWindow: int := 500000

  /** A printed report: position, tick of confirmation and label. */
  datatype Report = Report(cell: Cell, at: int, text: string)

  /**
    One sweep of a diagnostic scanner over the 6 x 5 matrix, followed by
    the de-duplication of its confirmed positions in scan order.  Every
    position is examined; the reports are exactly the detections the rule
    lets through, labelled from the key map, never out of bounds.
   */
  method Diagnose(s: Scheme, window: int, o: Oracle, lines: seq<Level>, t0: int, m: Memory, ghost horizon: int)
    returns (reports: seq<Report>, m': Memory, sw: SweepRecord)
    requires s.Valid() && !s.StopsAtFirst()
    requires s.release.UntilReleased? ==> QuietFrom(o, s.pressed, horizon)
    requires |lines| == |DiagRowPins|
    requires !s.resetFirst ==> lines == Uniform(|DiagRowPins|, s.Idle())
    ensures SweepOk(s, |DiagRowPins|, |DiagColPins|, o, lines, t0, sw)
    ensures |sw.probes| == 30
    ensures m' == Filter(m, Hits(s, sw.probes), window).0
    ensures |reports| == |Filter(m, Hits(s, sw.probes), window).1|
    ensures forall i :: 0 <= i < |reports| ==>
      var h := Filter(m, Hits(s, sw.probes), window).1[i];
      reports[i] == Report(h.cell, h.at, Label(DiagKeys, h.cell))
    ensures forall i :: 0 <= i < |reports| ==> reports[i].text != OutOfBounds
    ensures t0 <= sw.end
    ensures s.release.NoWait? ==> sw.end - t0 <= 6 * s.settle + 30 * s.debounce
  {
    DiagKeysFit();
    sw := Sweep(s, |DiagRowPins|, |DiagColPins|, o, lines, t0, horizon);
    if s.release.NoWait? {
      SweepDuration(s, 6, 5, o, lines, t0, sw);
    }
    RowMajorLength(6, 5);
    var hits := Hits(s, sw.probes);
    var (m1, shown) := Filter(m, hits, window);
    m' := m1;
    reports := seq(|shown|, i requires 0 <= i < |shown| => Report(shown[i].cell, shown[i].at, Label(DiagKeys, shown[i].cell)));
    ShownInBounds(s, m, window, sw.probes);
  }

  /** Every position the de-duplication lets through was examined, so its label is never out of bounds. */
  lemma ShownInBounds(s: Scheme, m: Memory, window: int, probes: seq<Probe>)
    requires InOrder(probes, 6, 5)
    ensures forall h :: h in Filter(m, Hits(s, probes), window).1 ==> Label(DiagKeys, h.cell) != OutOfBounds
  {
    var hits := Hits(s, probes);
    FilterReportsAndMemory(m, hits, window);
    HitsFromProbes(s, probes);
    RowMajorInRange(6, 5);
    forall h | h in Filter(m, hits, window).1
      ensures Label(DiagKeys, h.cell) != OutOfBounds
    {
      assert h in hits;
      var p :| p in probes && Confirmed(s, p) && h == HitOf(s, p);
      var j :| 0 <= j < |probes| && probes[j] == p;
      DiagLabels(h.cell);
    }
  }

  /** The reversed diode scanner: one sweep and its reports. */
  method ScanMatrixReversed(o: Oracle, lines: seq<Level>, t0: int, m: Memory)
    returns (reports: seq<Report>, m': Memory, sw: SweepRecord)
    requires |lines| == 6
    ensures SweepOk(ReversedScheme, 6, 5, o, lines, t0, sw)
    ensures |sw.probes| == 30
    ensures m' == Filter(m, Hits(ReversedScheme, sw.probes), DiodeWindow).0
    ensures |reports| == |Filter(m, Hits(ReversedScheme, sw.probes), DiodeWindow).1|
    ensures forall i :: 0 <= i < |reports| ==>
      var h := Filter(m, Hits(ReversedScheme, sw.probes), DiodeWindow).1[i];
      reports[i] == Report(h.cell, h.at, Label(DiagKeys, h.cell))
    ensures forall i :: 0 <= i < |reports| ==> reports[i].text != OutOfBounds
    ensures t0 <= sw.end <= t0 + 6 * 1000 + 30 * 25000
  {
    reports, m', sw := Diagnose(ReversedScheme, DiodeWindow, o, lines, t0, m, 0);
  }

  /** The diode scanner: one sweep and its reports. */
  method ScanMatrix(o: Oracle, lines: seq<Level>, t0: int, m: Memory)
    returns (reports: seq<Report>, m': Memory, sw: SweepRecord)
    requires |lines| == 6
    ensures SweepOk(DiodeScheme, 6, 5, o, lines, t0, sw)
    ensures |sw.probes| == 30
    ensures m' == Filter(m, Hits(DiodeScheme, sw.probes), DiodeWindow).0
    ensures |reports| == |Filter(m, Hits(DiodeScheme, sw.probes), DiodeWindow).1|
    ensures forall i :: 0 <= i < |reports| ==>
      var h := Filter(m, Hits(DiodeScheme, sw.probes), DiodeWindow).1[i];
      reports[i] == Report(h.cell, h.at, Label(DiagKeys, h.cell))
    ensures forall i :: 0 <= i < |reports| ==> reports[i].text != OutOfBounds
    ensures t0 <= sw.end <= t0 + 6 * 1000 + 30 * 25000
  {
    reports, m', sw := Diagnose(DiodeScheme, DiodeWindow, o, lines, t0, m, 0);
  }

  /**
    The pull-up scanner: one sweep and its reports.  Rows must already be
    idle HIGH (set up once and restored after every row), and every key
    must eventually be let go, since its release wait has no timeout.
   */
  method TestGpioMatrix(o: Oracle, lines: seq<Level>, t0: int, m: Memory, ghost horizon: int)
    returns (reports: seq<Report>, m': Memory, sw: SweepRecord)
    requires lines == Uniform(6, High)
    requires QuietFrom(o, Low, horizon)
    ensures SweepOk(GpioScheme, 6, 5, o, lines, t0, sw)
    ensures |sw.probes| == 30
    ensures m' == Filter(m, Hits(GpioScheme, sw.probes), GpioWindow).0
    ensures |reports| == |Filter(m, Hits(GpioScheme, sw.probes), GpioWindow).1|
    ensures forall i :: 0 <= i < |reports| ==>
      var h := Filter(m, Hits(GpioScheme, sw.probes), GpioWindow).1[i];
      reports[i] == Report(h.cell, h.at, Label(DiagKeys, h.cell))
    ensures forall i :: 0 <= i < |reports| ==> reports[i].text != OutOfBounds
    ensures |sw.waits| == |Hits(GpioScheme, sw.probes)|
    ensures forall i, j :: 0 <= i < j < |sw.probes| && Confirmed(GpioScheme, sw.probes[i]) ==>
      |Hits(GpioScheme, sw.probes[..i])| < |sw.waits| &&
      sw.probes[j].at >= sw.waits[|Hits(GpioScheme, sw.probes[..i])|].end + 100000
    ensures forall k :: 0 <= k < |sw.waits| ==> sw.waits[k].end + 100000 <= sw.end
  {
    reports, m', sw := Diagnose(GpioScheme, GpioWindow, o, lines, t0, m, horizon);
    GpioWaitsInOrder(o, lines, t0, sw);
  }

  /** In a pull-up sweep each release wait and its 0.1 s pause come before every later probe and before the end. */
  lemma GpioWaitsInOrder(o: Oracle, lines: seq<Level>, t0: int, sw: SweepRecord)
    requires SweepOk(GpioScheme, 6, 5, o, lines, t0, sw)
    ensures |sw.waits| == |Hits(GpioScheme, sw.probes)|
    ensures forall i, j :: 0 <= i < j < |sw.probes| && Confirmed(GpioScheme, sw.probes[i]) ==>
      |Hits(GpioScheme, sw.probes[..i])| < |sw.waits| &&
      sw.probes[j].at >= sw.waits[|Hits(GpioScheme, sw.probes[..i])|].end + 100000
    ensures forall k :: 0 <= k < |sw.waits| ==> sw.waits[k].end + 100000 <= sw.end
  {
    var s := GpioScheme;
    assert s.Pause() == 100000 && !s.release.NoWait?;
    WaitsPrecedeLaterProbes(s, 6, 5, o, lines, t0, sw);
  }
}
