/**
  One sweep of a key matrix, parameterised by polarity and policy so that
  a single algorithm covers the game's scanner and the three diagnostic
  scanners.  The sweep raises one row at a time to its active level, lets
  it settle, samples each column, re-samples a column that reads pressed
  after a debounce delay, and handles a confirmed press according to the
  scheme: stop the sweep (dropping the row before or after waiting for the
  release) or keep scanning.
 */
module Scan {
  import opened Wrappers
  import opened Lines
  import opened Matrix
  import opened Dedup
  import opened Release

  /** What the sweep does after a confirmed press. */
  datatype OnHit =
    | DropThenWait   // drop the row, wait for release, end the sweep
    | WaitThenDrop   // wait for release with the row still raised, drop it, end the sweep
    | KeepScanning   // wait for release with the row raised (if the policy waits), go on to the next column

  /** How the release of a confirmed press is awaited. */
  datatype ReleasePolicy =
    | NoWait
    | Bounded(poll: nat, limit: nat)              // poll until released or more than `limit` ticks elapsed
    | UntilReleased(poll: nat, afterward: nat)    // poll until released, then pause `afterward` ticks

  /**
    The configuration of a scanner.  `active` is the level a probed row is
    driven to (idle rows sit at the other level); `pressed` is the column
    level that means a closed key; delays are in ticks; `resetFirst` says
    whether every row is driven idle before the sweep.
   */
  datatype Scheme = Scheme(active: Level, pressed: Level, settle: nat, debounce: nat,
                           resetFirst: bool, onHit: OnHit, release: ReleasePolicy)
  {
    function Idle(): (l: Level) { Flip(active) }

    predicate Valid() { !release.NoWait? ==> release.poll > 0 }

    predicate StopsAtFirst() { onHit != KeepScanning }

    /** The pause taken after a release wait before the sweep goes on. */
    function Pause(): (ticks: nat)
    {
      match release
      case UntilReleased(_, afterward) => afterward
      case _ => 0
    }
  }

  /**
    One examined cell: the tick of its first sample, that sample, the
    re-sample taken a debounce delay later (present only when the first
    sample read pressed), and the tick `done` at which the sweep moved on
    from the cell, after any release wait it caused.
   */
  datatype Probe = Probe(cell: Cell, at: int, first: Level, second: Option<Level>, done: int)

  /** A release wait after a confirmed press: the row levels held during it, its start, its polls and its end. */
  datatype WaitRecord = WaitRecord(cell: Cell, lines: seq<Level>, start: int, polls: seq<int>, end: int)

  /** Everything one sweep did: the idle-reset drives, the drive log of the row scan, the probes, the waits, the final tick. */
  datatype SweepRecord = SweepRecord(prelude: seq<Drive>, log: seq<Drive>, probes: seq<Probe>,
                                     waits: seq<WaitRecord>, end: int)

  /** A press is confirmed only when both samples read the pressed level. */
  predicate Confirmed(s: Scheme, p: Probe)
  {
    p.first == s.pressed && p.second == Some(s.pressed)
  }

  /** The detection a confirmed probe yields, stamped at its re-sample. */
  function HitOf(s: Scheme, p: Probe): (h: Hit)
  {
    Hit(p.cell, p.at + s.debounce)
  }

  /** The confirmed probes of a sweep, in scan order, as detections. */
  function Hits(s: Scheme, probes: seq<Probe>): (hs: seq<Hit>)
    decreases |probes|
  {
    if |probes| == 0 then []
    else
      var last := probes[|probes| - 1];
      Hits(s, probes[..|probes| - 1]) + (if Confirmed(s, last) then [HitOf(s, last)] else [])
  }

  lemma HitsSnoc(s: Scheme, probes: seq<Probe>, p: Probe)
    ensures Hits(s, probes + [p]) == Hits(s, probes) + (if Confirmed(s, p) then [HitOf(s, p)] else [])
  {
    assert (probes + [p])[..|probes|] == probes;
  }

  /** The row levels a sweep holds while it samples row `r`. */
  function Probing(s: Scheme, rows: nat, r: nat): (ls: seq<Level>)
    requires r < rows
  {
    OneActive(rows, r, s.active)
  }

  /**
    A probe's samples are what the column read with only its own row
    active: the first at the probe's tick, the second a debounce delay
    later, and the second taken exactly when the first read pressed.
   */
  ghost predicate Sampled(s: Scheme, rows: nat, o: Oracle, p: Probe)
  {
    && p.cell.row < rows
    && p.first == o(Probing(s, rows, p.cell.row), p.cell.col, p.at)
    && p.second == (if p.first == s.pressed
                    then Some(o(Probing(s, rows, p.cell.row), p.cell.col, p.at + s.debounce))
                    else None)
  }

  /** The probes are the first cells of the row-major order, one each. */
  ghost predicate InOrder(probes: seq<Probe>, rows: nat, cols: nat)
  {
    && |probes| <= |RowMajor(rows, cols)|
    && forall i :: 0 <= i < |probes| ==> probes[i].cell == RowMajor(rows, cols)[i]
  }

  /**
    A stopping sweep ends on its first confirmed cell: no probe but the last
    is confirmed, and the sweep stops short of the whole matrix only on a
    confirmed probe.
   */
  predicate EndsAtFirstHit(s: Scheme, probes: seq<Probe>, total: nat)
  {
    && (forall i :: 0 <= i < |probes| - 1 ==> !Confirmed(s, probes[i]))
    && (|probes| < total ==> |probes| > 0 && Confirmed(s, probes[|probes| - 1]))
  }

  /** Probe ticks lie in `[t0, t]` and never go backwards. */
  predicate Chronological(probes: seq<Probe>, t0: int, t: int)
  {
    && t0 <= t
    && (forall i :: 0 <= i < |probes| ==> t0 <= probes[i].at <= t)
    && (forall i, j :: 0 <= i < j < |probes| ==> probes[i].at <= probes[j].at)
  }

  /**
    A release wait followed the scheme: the key was polled with the rows as
    the on-hit policy leaves them (all idle after an early drop, the probed
    row still raised otherwise) and the wait ended as the policy says.
   */
  ghost predicate WaitedAsScheme(s: Scheme, rows: nat, o: Oracle, w: WaitRecord)
  {
    && w.cell.row < rows
    && w.start <= w.end
    && w.lines == (if s.onHit == DropThenWait then Uniform(rows, s.Idle()) else Probing(s, rows, w.cell.row))
    && match s.release
       case NoWait => false
       case Bounded(poll, lim) => Waited(o, w.lines, w.cell.col, s.pressed, w.start, poll, Some(lim), w.polls, w.end)
       case UntilReleased(poll, _) => Waited(o, w.lines, w.cell.col, s.pressed, w.start, poll, None, w.polls, w.end)
  }

  /** Exactly one release wait per confirmed press, starting at its re-sample, unless the policy never waits. */
  ghost predicate WaitsMatchHits(s: Scheme, rows: nat, o: Oracle, hits: seq<Hit>, waits: seq<WaitRecord>)
  {
    && |waits| == (if s.release.NoWait? then 0 else |hits|)
    && forall i :: 0 <= i < |waits| ==>
         waits[i].cell == hits[i].cell && waits[i].start == hits[i].at && WaitedAsScheme(s, rows, o, waits[i])
  }

  /**
    Each examined cell is first sampled when the step before it ended (the
    start tick for the first cell), after the settle delay when the cell
    opens a row.
   */
  predicate Paced(s: Scheme, t0: int, probes: seq<Probe>)
  {
    && (|probes| > 0 ==> probes[0].at == t0 + SettleBefore(s, probes[0]))
    && forall i :: 0 < i < |probes| ==> probes[i].at == probes[i - 1].done + SettleBefore(s, probes[i])
  }

  /** The settle delay spent before sampling `p`: the whole delay when `p` opens a row, none otherwise. */
  function SettleBefore(s: Scheme, p: Probe): (ticks: nat)
  {
    if p.cell.col == 0 then s.settle else 0
  }

  /**
    When the step of probe `p`, examined after the probes `before`, ended:
    on a confirmed press the policy waits on, at the end of that press's
    release wait (the next one in `waits`, started at the re-sample) plus
    the pause; otherwise at the first sample when it read idle and at the
    re-sample when it read pressed.
   */
  ghost predicate StepTimed(s: Scheme, p: Probe, before: seq<Probe>, waits: seq<WaitRecord>)
  {
    if Confirmed(s, p) && !s.release.NoWait? then
      var k := |Hits(s, before)|;
      && k < |waits|
      && waits[k].cell == p.cell && waits[k].start == p.at + s.debounce
      && p.done == waits[k].end + s.Pause()
    else
      p.done == p.at + (if p.first == s.pressed then s.debounce else 0)
  }

  /** Every step of the sweep ended as `StepTimed` says. */
  ghost predicate StepsTimed(s: Scheme, probes: seq<Probe>, waits: seq<WaitRecord>)
  {
    forall i :: 0 <= i < |probes| ==> StepTimed(s, probes[i], probes[..i], waits)
  }

  /**
    The tick after the probes so far: the end of the last step, or, before
    any cell was examined, the start tick plus the settle delays of the
    `raised` rows raised without a column to read.
   */
  function Clock(s: Scheme, t0: int, raised: nat, probes: seq<Probe>): (t: int)
  {
    if |probes| == 0 then t0 + raised * s.settle else probes[|probes| - 1].done
  }

  /**
    The row drives of a scan that opened its first `n` rows: row `i` is
    raised by entry `2 * i` and dropped by entry `2 * i + 1`, so each row
    is dropped before the next one is raised.
   */
  function RowDrives(s: Scheme, n: nat): (log: seq<Drive>)
    ensures |log| == 2 * n
  {
    if n == 0 then [] else RowDrives(s, n - 1) + [Drive(n - 1, s.active), Drive(n - 1, s.Idle())]
  }

  /**
    How many rows a sweep raised: up to the row of its last probe when a
    stopping scheme ended on a confirmed press, every row otherwise.
   */
  function RowsOpened(s: Scheme, rows: nat, probes: seq<Probe>): (n: nat)
  {
    if s.StopsAtFirst() && |probes| > 0 && Confirmed(s, probes[|probes| - 1])
    then probes[|probes| - 1].cell.row + 1
    else rows
  }

  /**
    Everything a sweep over a `rows` x `cols` matrix promises, starting
    from row levels `lines` at tick `t0`.
   */
  ghost predicate SweepOk(s: Scheme, rows: nat, cols: nat, o: Oracle, lines: seq<Level>, t0: int, sw: SweepRecord)
  {
    var idle := Uniform(rows, s.Idle());
    // every row is idle before any row is probed
    && (s.resetFirst ==> |sw.prelude| == rows && forall i :: 0 <= i < rows ==> sw.prelude[i] == Drive(i, s.Idle()))
    && (!s.resetFirst ==> sw.prelude == [])
    && Replay(lines, sw.prelude) == idle
    // one row at a time, and all rows idle again at the end
    && OneHot(idle, sw.log, s.active)
    && Replay(idle, sw.log) == idle
    // each opened row raised, then dropped, before the next row is raised
    && sw.log == RowDrives(s, RowsOpened(s, rows, sw.probes))
    // which cells were examined, and what was read
    && InOrder(sw.probes, rows, cols)
    && (forall i :: 0 <= i < |sw.probes| ==> Sampled(s, rows, o, sw.probes[i]))
    && (s.StopsAtFirst() ==> EndsAtFirstHit(s, sw.probes, |RowMajor(rows, cols)|))
    && (!s.StopsAtFirst() ==> |sw.probes| == |RowMajor(rows, cols)|)
    // when each cell was sampled and left, and when the sweep ended
    && Chronological(sw.probes, t0, sw.end)
    && Paced(s, t0, sw.probes)
    && StepsTimed(s, sw.probes, sw.waits)
    && sw.end == Clock(s, t0, rows, sw.probes)
    && WaitsMatchHits(s, rows, o, Hits(s, sw.probes), sw.waits)
  }

  /** Drive every row to `level`, one after another. */
  method ResetRows(lines: seq<Level>, idle: Level) returns (drives: seq<Drive>)
    ensures |drives| == |lines|
    ensures forall i :: 0 <= i < |lines| ==> drives[i] == Drive(i, idle)
    ensures Replay(lines, drives) == Uniform(|lines|, idle)
  {
    drives := [];
    var k := 0;
    while k < |lines|
      invariant k <= |lines|
      invariant |drives| == k
      invariant forall i :: 0 <= i < k ==> drives[i] == Drive(i, idle)
      invariant forall i :: 0 <= i < |lines| ==> Replay(lines, drives)[i] == (if i < k then idle else lines[i])
    {
      ReplaySnoc(lines, drives, Drive(k, idle));
      drives := drives + [Drive(k, idle)];
      k := k + 1;
    }
  }

  /** Carry out the release policy after a confirmed press at `cell`, with rows held at `ls`. */
  method AfterHit(s: Scheme, rows: nat, o: Oracle, ls: seq<Level>, cell: Cell, t0: int, ghost horizon: int)
    returns (waits: seq<WaitRecord>, t: int)
    requires s.Valid()
    requires s.release.UntilReleased? ==> QuietFrom(o, s.pressed, horizon)
    requires cell.row < rows
    requires ls == (if s.onHit == DropThenWait then Uniform(rows, s.Idle()) else Probing(s, rows, cell.row))
    ensures |waits| == (if s.release.NoWait? then 0 else 1)
    ensures forall w :: w in waits ==> w.cell == cell && w.start == t0 && WaitedAsScheme(s, rows, o, w)
    ensures t == (if s.release.NoWait? then t0 else waits[0].end + s.Pause())
  {
    match s.release {
      case NoWait =>
        waits, t := [], t0;
      case Bounded(poll, lim) =>
        var polls, t1 := AwaitRelease(o, ls, cell.col, s.pressed, t0, poll, Some(lim), horizon);
        waits, t := [WaitRecord(cell, ls, t0, polls, t1)], t1;
      case UntilReleased(poll, afterward) =>
        var polls, t1 := AwaitRelease(o, ls, cell.col, s.pressed, t0, poll, None, horizon);
        waits, t := [WaitRecord(cell, ls, t0, polls, t1)], t1 + afterward;
    }
  }

  /**
    Sample column `c` of row `r` (raised alone) at tick `t`, and re-sample it
    a debounce delay later if the first sample read pressed.
   */
  method ProbeCell(s: Scheme, rows: nat, o: Oracle, r: nat, c: nat, t: int) returns (p: Probe, t': int)
    requires r < rows
    ensures p.cell == Cell(r, c) && p.at == t
    ensures Sampled(s, rows, o, p)
    ensures t' == (if p.first == s.pressed then t + s.debounce else t) && p.done == t'
  {
    var lines := Probing(s, rows, r);
    var first := o(lines, c, t);
    if first == s.pressed {
      var second := o(lines, c, t + s.debounce);
      p, t' := Probe(Cell(r, c), t, first, Some(second), t + s.debounce), t + s.debounce;
    } else {
      p, t' := Probe(Cell(r, c), t, first, None, t), t;
    }
  }

  /**
    The part of a sweep's promise that holds after every examined cell:
    the probes so far are the cells of `order`, sampled faithfully, in time
    order, with their release waits.
   */
  ghost predicate Trail(s: Scheme, rows: nat, o: Oracle, t0: int, t: int, order: seq<Cell>,
                        probes: seq<Probe>, waits: seq<WaitRecord>)
  {
    && |probes| == |order|
    && (forall i :: 0 <= i < |probes| ==> probes[i].cell == order[i])
    && (forall i :: 0 <= i < |probes| ==> Sampled(s, rows, o, probes[i]))
    && Chronological(probes, t0, t)
    && Paced(s, t0, probes)
    && StepsTimed(s, probes, waits)
    && WaitsMatchHits(s, rows, o, Hits(s, probes), waits)
  }

  /** `Trail`, and no press confirmed yet when the scheme stops at the first one. */
  ghost predicate Progress(s: Scheme, rows: nat, o: Oracle, t0: int, t: int, order: seq<Cell>,
                           probes: seq<Probe>, waits: seq<WaitRecord>)
  {
    && Trail(s, rows, o, t0, t, order, probes, waits)
    && (s.StopsAtFirst() ==> forall i :: 0 <= i < |probes| ==> !Confirmed(s, probes[i]))
  }

  /** One more probe, and the release wait it caused if it was confirmed, extend the trail. */
  lemma ExtendTrail(s: Scheme, rows: nat, o: Oracle, t0: int, t: int, order: seq<Cell>,
                    probes: seq<Probe>, waits: seq<WaitRecord>, p: Probe, ws: seq<WaitRecord>)
    requires Trail(s, rows, o, t0, t, order, probes, waits)
    requires Sampled(s, rows, o, p) && p.at == t
    requires p.at == (if |probes| == 0 then t0 else probes[|probes| - 1].done) + SettleBefore(s, p)
    requires !Confirmed(s, p) ==> ws == []
    requires Confirmed(s, p) ==> |ws| == (if s.release.NoWait? then 0 else 1)
    requires forall w :: w in ws ==> w.cell == p.cell && w.start == HitOf(s, p).at && WaitedAsScheme(s, rows, o, w)
    requires p.done == (if Confirmed(s, p) && !s.release.NoWait? then ws[0].end + s.Pause()
                        else p.at + (if p.first == s.pressed then s.debounce else 0))
    ensures t <= p.done
    ensures Trail(s, rows, o, t0, p.done, order + [p.cell], probes + [p], waits + ws)
  {
    if Confirmed(s, p) && !s.release.NoWait? {
      assert ws[0] in ws;
    }
    ExtendClock(s, t0, t, probes, p);
    ExtendSteps(s, probes, waits, p, ws);
    ExtendWaits(s, rows, o, probes, waits, p, ws);
  }

  /** One more probe, sampled at the current tick and left no earlier, keeps the probes paced and in time order. */
  lemma ExtendClock(s: Scheme, t0: int, t: int, probes: seq<Probe>, p: Probe)
    requires Chronological(probes, t0, t) && Paced(s, t0, probes)
    requires p.at == t && t <= p.done
    requires p.at == (if |probes| == 0 then t0 else probes[|probes| - 1].done) + SettleBefore(s, p)
    ensures Chronological(probes + [p], t0, p.done) && Paced(s, t0, probes + [p])
  {
    var probes' := probes + [p];
    assert forall i :: 0 <= i < |probes| ==> probes'[i] == probes[i];
  }

  /** The step of one more probe ends as `StepTimed` says, and the earlier steps keep their waits. */
  lemma ExtendSteps(s: Scheme, probes: seq<Probe>, waits: seq<WaitRecord>, p: Probe, ws: seq<WaitRecord>)
    requires StepsTimed(s, probes, waits)
    requires !s.release.NoWait? ==> |waits| == |Hits(s, probes)|
    requires Confirmed(s, p) ==> |ws| == (if s.release.NoWait? then 0 else 1)
    requires forall w :: w in ws ==> w.cell == p.cell && w.start == HitOf(s, p).at
    requires p.done == (if Confirmed(s, p) && !s.release.NoWait? then ws[0].end + s.Pause()
                        else p.at + (if p.first == s.pressed then s.debounce else 0))
    ensures StepsTimed(s, probes + [p], waits + ws)
  {
    var probes' := probes + [p];
    forall i | 0 <= i < |probes'|
      ensures StepTimed(s, probes'[i], probes'[..i], waits + ws)
    {
      if i < |probes| {
        assert probes'[i] == probes[i] && probes'[..i] == probes[..i];
        StepKeepsWait(s, probes[i], probes[..i], waits, ws);
      } else {
        assert probes'[..i] == probes;
        if Confirmed(s, p) && !s.release.NoWait? {
          assert ws[0] in ws;
          assert (waits + ws)[|waits|] == ws[0];
        }
      }
    }
  }

  /** A step's timing does not depend on the waits recorded after it. */
  lemma StepKeepsWait(s: Scheme, p: Probe, before: seq<Probe>, waits: seq<WaitRecord>, ws: seq<WaitRecord>)
    requires StepTimed(s, p, before, waits)
    ensures StepTimed(s, p, before, waits + ws)
  {
    if Confirmed(s, p) && !s.release.NoWait? {
      assert (waits + ws)[|Hits(s, before)|] == waits[|Hits(s, before)|];
    }
  }

  /** The waits of one more probe line up with its detection, if any. */
  lemma ExtendWaits(s: Scheme, rows: nat, o: Oracle, probes: seq<Probe>, waits: seq<WaitRecord>, p: Probe, ws: seq<WaitRecord>)
    requires WaitsMatchHits(s, rows, o, Hits(s, probes), waits)
    requires !Confirmed(s, p) ==> ws == []
    requires Confirmed(s, p) ==> |ws| == (if s.release.NoWait? then 0 else 1)
    requires forall w :: w in ws ==> w.cell == p.cell && w.start == HitOf(s, p).at && WaitedAsScheme(s, rows, o, w)
    ensures WaitsMatchHits(s, rows, o, Hits(s, probes + [p]), waits + ws)
  {
    HitsSnoc(s, probes, p);
    var hits' := Hits(s, probes + [p]);
    var waits' := waits + ws;
    forall i | 0 <= i < |waits'|
      ensures waits'[i].cell == hits'[i].cell && waits'[i].start == hits'[i].at && WaitedAsScheme(s, rows, o, waits'[i])
    {
      if i >= |waits| {
        assert waits'[i] in ws;
      }
    }
  }

  /**
    Handle a confirmed press at column `c` of the raised row `r`: drop the
    row and wait, or wait and drop it, or just wait, as the scheme says.
    A stopping scheme leaves every row idle; a scanning one leaves row `r`
    raised.
   */
  method HandleHit(s: Scheme, rows: nat, o: Oracle, r: nat, c: nat, t0: int, ghost horizon: int, log0: seq<Drive>)
    returns (log: seq<Drive>, ws: seq<WaitRecord>, t: int)
    requires s.Valid()
    requires s.release.UntilReleased? ==> QuietFrom(o, s.pressed, horizon)
    requires r < rows
    requires OneHot(Uniform(rows, s.Idle()), log0, s.active)
    requires Replay(Uniform(rows, s.Idle()), log0) == Probing(s, rows, r)
    ensures OneHot(Uniform(rows, s.Idle()), log, s.active)
    ensures Replay(Uniform(rows, s.Idle()), log) == (if s.StopsAtFirst() then Uniform(rows, s.Idle()) else Probing(s, rows, r))
    ensures s.StopsAtFirst() ==> log == log0 + [Drive(r, s.Idle())]
    ensures !s.StopsAtFirst() ==> log == log0
    ensures |ws| == (if s.release.NoWait? then 0 else 1)
    ensures forall w :: w in ws ==> w.cell == Cell(r, c) && w.start == t0 && WaitedAsScheme(s, rows, o, w)
    ensures t == (if s.release.NoWait? then t0 else ws[0].end + s.Pause())
  {
    var idle := Uniform(rows, s.Idle());
    log := log0;
    match s.onHit {
      case DropThenWait =>
        DropKeepsOneHot(idle, log, r, s.active);
        log := log + [Drive(r, s.Idle())];
        ws, t := AfterHit(s, rows, o, idle, Cell(r, c), t0, horizon);
      case WaitThenDrop =>
        ws, t := AfterHit(s, rows, o, Probing(s, rows, r), Cell(r, c), t0, horizon);
        DropKeepsOneHot(idle, log, r, s.active);
        log := log + [Drive(r, s.Idle())];
      case KeepScanning =>
        ws, t := AfterHit(s, rows, o, Probing(s, rows, r), Cell(r, c), t0, horizon);
    }
  }

  /**
    A stopping sweep that ended early: its probes are a prefix of the
    row-major order, sampled faithfully, and only the last is confirmed.
   */
  ghost predicate StoppedOnHit(s: Scheme, rows: nat, cols: nat, o: Oracle, t0: int, t: int,
                               probes: seq<Probe>, waits: seq<WaitRecord>)
  {
    && InOrder(probes, rows, cols)
    && (forall i :: 0 <= i < |probes| ==> Sampled(s, rows, o, probes[i]))
    && |probes| > 0 && Confirmed(s, probes[|probes| - 1])
    && (forall i :: 0 <= i < |probes| - 1 ==> !Confirmed(s, probes[i]))
    && Chronological(probes, t0, t)
    && Paced(s, t0, probes)
    && StepsTimed(s, probes, waits)
    && t == probes[|probes| - 1].done
    && WaitsMatchHits(s, rows, o, Hits(s, probes), waits)
  }

  /**
    After probing cell (r, c): the sweep either goes on with its progress
    kept or, on a stopping scheme's first confirmed press, has stopped on
    that hit.
   */
  lemma Advance(s: Scheme, rows: nat, cols: nat, o: Oracle, t0: int, t: int, r: nat, c: nat,
                probes: seq<Probe>, waits: seq<WaitRecord>, p: Probe, ws: seq<WaitRecord>)
    requires r < rows && c < cols
    requires Progress(s, rows, o, t0, t, RowMajor(r, cols) + RowCells(r, c), probes, waits)
    requires Trail(s, rows, o, t0, p.done, RowMajor(r, cols) + RowCells(r, c + 1), probes + [p], waits + ws)
    ensures !(Confirmed(s, p) && s.StopsAtFirst()) ==>
      Progress(s, rows, o, t0, p.done, RowMajor(r, cols) + RowCells(r, c + 1), probes + [p], waits + ws)
    ensures Confirmed(s, p) && s.StopsAtFirst() ==> StoppedOnHit(s, rows, cols, o, t0, p.done, probes + [p], waits + ws)
  {
    var probes' := probes + [p];
    assert forall i :: 0 <= i < |probes| ==> probes'[i] == probes[i];
    if Confirmed(s, p) && s.StopsAtFirst() {
      RowMajorPrefix(r, c + 1, rows, cols);
    }
  }

  /**
    Where the scan of row `r` stands after its first `c` columns, given the
    drive log `raised` that ends by raising it: still scanning, with the
    log unchanged and the promise kept for the cells so far, the clock at
    the end of the last step once a column was read; or stopped on a
    stopping scheme's first confirmed press in row `r`, with the row
    dropped as the one drive after `raised`.
   */
  ghost predicate RowSoFar(s: Scheme, rows: nat, cols: nat, o: Oracle, r: nat, t0: int, c: nat, raised: seq<Drive>,
                           log: seq<Drive>, probes: seq<Probe>, waits: seq<WaitRecord>, t: int, stopped: bool)
  {
    && (!stopped ==>
          && log == raised
          && Progress(s, rows, o, t0, t, RowMajor(r, cols) + RowCells(r, c), probes, waits)
          && (c > 0 ==> |probes| > 0 && t == probes[|probes| - 1].done))
    && (stopped ==>
          && log == raised + [Drive(r, s.Idle())]
          && s.StopsAtFirst() && StoppedOnHit(s, rows, cols, o, t0, t, probes, waits)
          && |probes| > 0 && probes[|probes| - 1].cell.row == r)
  }

  /**
    Examine cell (r, c) of the raised row `r`: probe it and, on a confirmed
    press, handle the hit.  `stopped` reports that a stopping scheme ended
    the sweep on this cell, with the row already dropped.
   */
  method ScanCell(s: Scheme, rows: nat, cols: nat, o: Oracle, r: nat, c: nat, t0: int, ghost horizon: int,
                  log0: seq<Drive>, probes0: seq<Probe>, waits0: seq<WaitRecord>, t1: int)
    returns (log: seq<Drive>, probes: seq<Probe>, waits: seq<WaitRecord>, t: int, stopped: bool)
    requires s.Valid()
    requires s.release.UntilReleased? ==> QuietFrom(o, s.pressed, horizon)
    requires r < rows && c < cols
    requires OneHot(Uniform(rows, s.Idle()), log0, s.active)
    requires Replay(Uniform(rows, s.Idle()), log0) == Probing(s, rows, r)
    requires Progress(s, rows, o, t0, t1, RowMajor(r, cols) + RowCells(r, c), probes0, waits0)
    requires t1 == (if |probes0| == 0 then t0 else probes0[|probes0| - 1].done) + (if c == 0 then s.settle else 0)
    ensures RowSoFar(s, rows, cols, o, r, t0, c + 1, log0, log, probes, waits, t, stopped)
  {
    var p, ws;
    p, log, ws := ExamineCell(s, rows, o, r, c, t1, horizon, log0);
    CellStep(s, rows, cols, o, t0, t1, r, c, probes0, waits0, p, ws);
    probes, waits, t := probes0 + [p], waits0 + ws, p.done;
    stopped := Confirmed(s, p) && s.StopsAtFirst();
  }

  /**
    Probe cell (r, c) of the raised row `r` at tick `t1` and, on a confirmed
    press, handle the hit; the probe's `done` tick is when the sweep can go on.
   */
  method ExamineCell(s: Scheme, rows: nat, o: Oracle, r: nat, c: nat, t1: int, ghost horizon: int, log0: seq<Drive>)
    returns (p: Probe, log: seq<Drive>, ws: seq<WaitRecord>)
    requires s.Valid()
    requires s.release.UntilReleased? ==> QuietFrom(o, s.pressed, horizon)
    requires r < rows
    requires OneHot(Uniform(rows, s.Idle()), log0, s.active)
    requires Replay(Uniform(rows, s.Idle()), log0) == Probing(s, rows, r)
    ensures p.cell == Cell(r, c) && p.at == t1 && Sampled(s, rows, o, p)
    ensures !Confirmed(s, p) ==> ws == []
    ensures Confirmed(s, p) ==> |ws| == (if s.release.NoWait? then 0 else 1)
    ensures forall w :: w in ws ==> w.cell == p.cell && w.start == HitOf(s, p).at && WaitedAsScheme(s, rows, o, w)
    ensures p.done == (if Confirmed(s, p) && !s.release.NoWait? then ws[0].end + s.Pause()
                       else p.at + (if p.first == s.pressed then s.debounce else 0))
    ensures OneHot(Uniform(rows, s.Idle()), log, s.active)
    ensures Replay(Uniform(rows, s.Idle()), log) ==
      (if Confirmed(s, p) && s.StopsAtFirst() then Uniform(rows, s.Idle()) else Probing(s, rows, r))
    ensures Confirmed(s, p) && s.StopsAtFirst() ==> log == log0 + [Drive(r, s.Idle())]
    ensures !(Confirmed(s, p) && s.StopsAtFirst()) ==> log == log0
  {
    var t2;
    p, t2 := ProbeCell(s, rows, o, r, c, t1);
    ws, log := [], log0;
    if Confirmed(s, p) {
      var t;
      log, ws, t := HandleHit(s, rows, o, r, c, t2, horizon, log0);
      p := p.(done := t);
    }
  }

  /** `ExtendTrail` followed by `Advance`, for the probe of cell (r, c) and the waits it caused. */
  lemma CellStep(s: Scheme, rows: nat, cols: nat, o: Oracle, t0: int, t1: int, r: nat, c: nat,
                 probes: seq<Probe>, waits: seq<WaitRecord>, p: Probe, ws: seq<WaitRecord>)
    requires r < rows && c < cols
    requires Progress(s, rows, o, t0, t1, RowMajor(r, cols) + RowCells(r, c), probes, waits)
    requires t1 == (if |probes| == 0 then t0 else probes[|probes| - 1].done) + (if c == 0 then s.settle else 0)
    requires p.cell == Cell(r, c) && p.at == t1 && Sampled(s, rows, o, p)
    requires !Confirmed(s, p) ==> ws == []
    requires Confirmed(s, p) ==> |ws| == (if s.release.NoWait? then 0 else 1)
    requires forall w :: w in ws ==> w.cell == p.cell && w.start == HitOf(s, p).at && WaitedAsScheme(s, rows, o, w)
    requires p.done == (if Confirmed(s, p) && !s.release.NoWait? then ws[0].end + s.Pause()
                        else p.at + (if p.first == s.pressed then s.debounce else 0))
    ensures !(Confirmed(s, p) && s.StopsAtFirst()) ==>
      Progress(s, rows, o, t0, p.done, RowMajor(r, cols) + RowCells(r, c + 1), probes + [p], waits + ws)
    ensures Confirmed(s, p) && s.StopsAtFirst() ==> StoppedOnHit(s, rows, cols, o, t0, p.done, probes + [p], waits + ws)
  {
    var order := RowMajor(r, cols) + RowCells(r, c);
    assert order + [Cell(r, c)] == RowMajor(r, cols) + RowCells(r, c + 1);
    ExtendTrail(s, rows, o, t0, t1, order, probes, waits, p, ws);
    Advance(s, rows, cols, o, t0, t1, r, c, probes, waits, p, ws);
  }

  /**
    Scan row `r`: raise it, let it settle, probe its columns left to right,
    and drop it.  `stopped` reports that a stopping scheme confirmed a press
    and ended the sweep there, with the row already dropped.
   */
  method ScanRow(s: Scheme, rows: nat, cols: nat, o: Oracle, r: nat, t0: int, ghost horizon: int,
                 log0: seq<Drive>, probes0: seq<Probe>, waits0: seq<WaitRecord>, t1: int)
    returns (log: seq<Drive>, probes: seq<Probe>, waits: seq<WaitRecord>, t: int, stopped: bool)
    requires s.Valid()
    requires s.release.UntilReleased? ==> QuietFrom(o, s.pressed, horizon)
    requires r < rows
    requires OneHot(Uniform(rows, s.Idle()), log0, s.active)
    requires Replay(Uniform(rows, s.Idle()), log0) == Uniform(rows, s.Idle())
    requires Progress(s, rows, o, t0, t1, RowMajor(r, cols), probes0, waits0)
    requires t1 == Clock(s, t0, r, probes0)
    ensures OneHot(Uniform(rows, s.Idle()), log, s.active)
    ensures Replay(Uniform(rows, s.Idle()), log) == Uniform(rows, s.Idle())
    ensures log == log0 + [Drive(r, s.active), Drive(r, s.Idle())]
    ensures stopped ==> |probes| > 0 && probes[|probes| - 1].cell.row == r
    ensures !stopped ==> Progress(s, rows, o, t0, t, RowMajor(r + 1, cols), probes, waits)
    ensures !stopped ==> t == Clock(s, t0, r + 1, probes)
    ensures stopped ==> s.StopsAtFirst() && StoppedOnHit(s, rows, cols, o, t0, t, probes, waits)
  {
    var idle := Uniform(rows, s.Idle());
    RaiseKeepsOneHot(idle, log0, r, s.active);
    var raised := log0 + [Drive(r, s.active)];
    RowOpens(s, rows, cols, o, t0, t1, r, probes0, waits0);
    log, probes, waits, t, stopped := ScanColumns(s, rows, cols, o, r, t0, horizon, raised, probes0, waits0, t1 + s.settle);
    DropKeepsOneHot(idle, raised, r, s.active);
    assert raised + [Drive(r, s.Idle())] == log0 + [Drive(r, s.active), Drive(r, s.Idle())];
    if !stopped {
      log := log + [Drive(r, s.Idle())];
      if cols == 0 {
        assert (r + 1) * s.settle == r * s.settle + s.settle;
      }
    }
  }

  /**
    Probe the columns of the raised, settled row `r` left to right from
    tick `t1`, handling each confirmed press, until the row is done or a
    stopping scheme ends the sweep.
   */
  method ScanColumns(s: Scheme, rows: nat, cols: nat, o: Oracle, r: nat, t0: int, ghost horizon: int,
                     log0: seq<Drive>, probes0: seq<Probe>, waits0: seq<WaitRecord>, t1: int)
    returns (log: seq<Drive>, probes: seq<Probe>, waits: seq<WaitRecord>, t: int, stopped: bool)
    requires s.Valid()
    requires s.release.UntilReleased? ==> QuietFrom(o, s.pressed, horizon)
    requires r < rows
    requires OneHot(Uniform(rows, s.Idle()), log0, s.active)
    requires Replay(Uniform(rows, s.Idle()), log0) == Probing(s, rows, r)
    requires Progress(s, rows, o, t0, t1, RowMajor(r, cols) + RowCells(r, 0), probes0, waits0)
    requires cols > 0 ==> t1 == (if |probes0| == 0 then t0 else probes0[|probes0| - 1].done) + s.settle
    ensures RowSoFar(s, rows, cols, o, r, t0, cols, log0, log, probes, waits, t, stopped)
    ensures !stopped && cols == 0 ==> t == t1 && probes == probes0
  {
    log, probes, waits, t, stopped := log0, probes0, waits0, t1, false;
    var c := 0;
    while c < cols && !stopped
      invariant c <= cols
      invariant !stopped && c == 0 ==> t == t1 && probes == probes0
      invariant RowSoFar(s, rows, cols, o, r, t0, c, log0, log, probes, waits, t, stopped)
    {
      ColumnStep(s, rows, cols, o, r, t0, c, log0, log, probes, waits, t, probes0, t1);
      log, probes, waits, t, stopped := ScanCell(s, rows, cols, o, r, c, t0, horizon, log0, probes, waits, t);
      c := c + 1;
    }
    if stopped {
      RowSoFarStopped(s, rows, cols, o, r, t0, c, cols, log0, log, probes, waits, t);
    }
  }

  /** While the row scan goes on, the next cell can be examined from where it stands. */
  lemma ColumnStep(s: Scheme, rows: nat, cols: nat, o: Oracle, r: nat, t0: int, c: nat, raised: seq<Drive>,
                   log: seq<Drive>, probes: seq<Probe>, waits: seq<WaitRecord>, t: int, probes0: seq<Probe>, t1: int)
    requires RowSoFar(s, rows, cols, o, r, t0, c, raised, log, probes, waits, t, false)
    requires c == 0 ==> t == t1 && probes == probes0
    requires c < cols && t1 == (if |probes0| == 0 then t0 else probes0[|probes0| - 1].done) + s.settle
    ensures log == raised
    ensures Progress(s, rows, o, t0, t, RowMajor(r, cols) + RowCells(r, c), probes, waits)
    ensures t == (if |probes| == 0 then t0 else probes[|probes| - 1].done) + (if c == 0 then s.settle else 0)
  {
  }

  /** Once stopped, where the row scan stands does not depend on the column count. */
  lemma RowSoFarStopped(s: Scheme, rows: nat, cols: nat, o: Oracle, r: nat, t0: int, c: nat, c': nat, raised: seq<Drive>,
                        log: seq<Drive>, probes: seq<Probe>, waits: seq<WaitRecord>, t: int)
    requires r < rows
    requires RowSoFar(s, rows, cols, o, r, t0, c, raised, log, probes, waits, t, true)
    ensures RowSoFar(s, rows, cols, o, r, t0, c', raised, log, probes, waits, t, true)
  {
  }

  /**
    Once row `r` is raised and settled, the promise so far still holds, and
    its first cell is sampled one settle delay after the last step ended
    (after the start tick when it is the first cell of the sweep).
   */
  lemma RowOpens(s: Scheme, rows: nat, cols: nat, o: Oracle, t0: int, t1: int, r: nat,
                 probes: seq<Probe>, waits: seq<WaitRecord>)
    requires Progress(s, rows, o, t0, t1, RowMajor(r, cols), probes, waits)
    requires t1 == Clock(s, t0, r, probes)
    ensures Progress(s, rows, o, t0, t1 + s.settle, RowMajor(r, cols) + RowCells(r, 0), probes, waits)
    ensures cols > 0 ==> t1 == (if |probes| == 0 then t0 else probes[|probes| - 1].done)
    ensures cols == 0 ==> |probes| == 0
    ensures RowMajor(r, cols) + RowCells(r, cols) == RowMajor(r + 1, cols)
  {
    assert RowMajor(r, cols) + RowCells(r, 0) == RowMajor(r, cols);
    RowMajorLength(r, cols);
    if cols > 0 && |probes| == 0 {
      assert r == 0;
    }
  }

  /** What the probes and waits of a finished row scan promise. */
  ghost predicate ProbesOk(s: Scheme, rows: nat, cols: nat, o: Oracle, t0: int, t: int,
                           probes: seq<Probe>, waits: seq<WaitRecord>)
  {
    && InOrder(probes, rows, cols)
    && (forall i :: 0 <= i < |probes| ==> Sampled(s, rows, o, probes[i]))
    && (s.StopsAtFirst() ==> EndsAtFirstHit(s, probes, |RowMajor(rows, cols)|))
    && (!s.StopsAtFirst() ==> |probes| == |RowMajor(rows, cols)|)
    && Chronological(probes, t0, t)
    && Paced(s, t0, probes)
    && StepsTimed(s, probes, waits)
    && t == Clock(s, t0, rows, probes)
    && WaitsMatchHits(s, rows, o, Hits(s, probes), waits)
  }

  lemma StoppedIsOk(s: Scheme, rows: nat, cols: nat, o: Oracle, t0: int, t: int,
                    probes: seq<Probe>, waits: seq<WaitRecord>)
    requires s.StopsAtFirst()
    requires StoppedOnHit(s, rows, cols, o, t0, t, probes, waits)
    ensures ProbesOk(s, rows, cols, o, t0, t, probes, waits)
  {
  }

  lemma CompleteIsOk(s: Scheme, rows: nat, cols: nat, o: Oracle, t0: int, t: int,
                     probes: seq<Probe>, waits: seq<WaitRecord>)
    requires Progress(s, rows, o, t0, t, RowMajor(rows, cols), probes, waits)
    requires t == Clock(s, t0, rows, probes)
    ensures ProbesOk(s, rows, cols, o, t0, t, probes, waits)
  {
  }

  /** Before the first probe there is nothing to promise but the start tick. */
  lemma NothingYet(s: Scheme, rows: nat, cols: nat, o: Oracle, t0: int)
    ensures Progress(s, rows, o, t0, t0, RowMajor(0, cols), [], [])
  {
  }

  /**
    The row scan of one sweep, starting with every row idle.  Returns the
    drive log, the probes, the release waits and the final tick.
   */
  method ScanRows(s: Scheme, rows: nat, cols: nat, o: Oracle, t0: int, ghost horizon: int)
    returns (log: seq<Drive>, probes: seq<Probe>, waits: seq<WaitRecord>, t: int)
    requires s.Valid()
    requires s.release.UntilReleased? ==> QuietFrom(o, s.pressed, horizon)
    ensures OneHot(Uniform(rows, s.Idle()), log, s.active)
    ensures Replay(Uniform(rows, s.Idle()), log) == Uniform(rows, s.Idle())
    ensures log == RowDrives(s, RowsOpened(s, rows, probes))
    ensures ProbesOk(s, rows, cols, o, t0, t, probes, waits)
  {
    log, probes, waits, t := [], [], [], t0;
    NothingYet(s, rows, cols, o, t0);
    var r := 0;
    var stopped := false;
    while r < rows && !stopped
      invariant RowsSoFar(s, rows, cols, o, t0, r, log, probes, waits, t, stopped)
    {
      RowDrivesAreOneHot(s, rows, r);
      log, probes, waits, t, stopped := ScanRow(s, rows, cols, o, r, t0, horizon, log, probes, waits, t);
      r := r + 1;
    }
    RowsDone(s, rows, cols, o, t0, r, log, probes, waits, t, stopped);
  }

  /**
    Where the row scan stands after its first `r` rows: each of them raised
    and dropped in turn, and either the promise kept for their cells with
    the clock at the end of the last step, or stopped on a stopping
    scheme's first confirmed press, in the last row raised.
   */
  ghost predicate RowsSoFar(s: Scheme, rows: nat, cols: nat, o: Oracle, t0: int, r: nat,
                            log: seq<Drive>, probes: seq<Probe>, waits: seq<WaitRecord>, t: int, stopped: bool)
  {
    && r <= rows
    && log == RowDrives(s, r)
    && (!stopped ==> Progress(s, rows, o, t0, t, RowMajor(r, cols), probes, waits) && t == Clock(s, t0, r, probes))
    && (stopped ==>
          && s.StopsAtFirst() && StoppedOnHit(s, rows, cols, o, t0, t, probes, waits)
          && |probes| > 0 && probes[|probes| - 1].cell.row + 1 == r)
  }

  /** When the row scan ends, every row it raised was dropped in turn and its probes keep the promise. */
  lemma RowsDone(s: Scheme, rows: nat, cols: nat, o: Oracle, t0: int, r: nat,
                 log: seq<Drive>, probes: seq<Probe>, waits: seq<WaitRecord>, t: int, stopped: bool)
    requires RowsSoFar(s, rows, cols, o, t0, r, log, probes, waits, t, stopped)
    requires !stopped ==> r == rows
    ensures OneHot(Uniform(rows, s.Idle()), log, s.active)
    ensures Replay(Uniform(rows, s.Idle()), log) == Uniform(rows, s.Idle())
    ensures log == RowDrives(s, RowsOpened(s, rows, probes))
    ensures ProbesOk(s, rows, cols, o, t0, t, probes, waits)
  {
    RowDrivesAreOneHot(s, rows, r);
    if stopped {
      StoppedIsOk(s, rows, cols, o, t0, t, probes, waits);
    } else {
      CompleteIsOk(s, rows, cols, o, t0, t, probes, waits);
    }
  }

  /** Raising and then dropping each of the first `n` rows in turn keeps at most one row active and ends all idle. */
  lemma {:induction false} RowDrivesAreOneHot(s: Scheme, rows: nat, n: nat)
    requires n <= rows
    ensures OneHot(Uniform(rows, s.Idle()), RowDrives(s, n), s.active)
    ensures Replay(Uniform(rows, s.Idle()), RowDrives(s, n)) == Uniform(rows, s.Idle())
  {
    if n == 0 {
      IdleAtMostOne(rows, s.active);
    } else {
      RowDrivesAreOneHot(s, rows, n - 1);
      RowDrivesStep(s, rows, RowDrives(s, n - 1), n - 1);
    }
  }

  /** Raising row `r` from an all-idle state and dropping it again keeps the rule and ends all idle. */
  lemma RowDrivesStep(s: Scheme, rows: nat, log: seq<Drive>, r: nat)
    requires r < rows
    requires OneHot(Uniform(rows, s.Idle()), log, s.active)
    requires Replay(Uniform(rows, s.Idle()), log) == Uniform(rows, s.Idle())
    ensures OneHot(Uniform(rows, s.Idle()), log + [Drive(r, s.active), Drive(r, s.Idle())], s.active)
    ensures Replay(Uniform(rows, s.Idle()), log + [Drive(r, s.active), Drive(r, s.Idle())]) == Uniform(rows, s.Idle())
  {
    var idle := Uniform(rows, s.Idle());
    RaiseKeepsOneHot(idle, log, r, s.active);
    DropKeepsOneHot(idle, log + [Drive(r, s.active)], r, s.active);
    assert log + [Drive(r, s.active)] + [Drive(r, s.Idle())] == log + [Drive(r, s.active), Drive(r, s.Idle())];
  }

  /** The drives of the first `i` rows open the drives of the first `n`. */
  lemma {:induction false} RowDrivesPrefix(s: Scheme, n: nat, i: nat)
    requires i <= n
    ensures RowDrives(s, n)[..2 * i] == RowDrives(s, i)
    decreases n
  {
    if i < n {
      RowDrivesPrefix(s, n - 1, i);
      assert RowDrives(s, n)[..2 * (n - 1)] == RowDrives(s, n - 1);
      assert RowDrives(s, n)[..2 * i] == RowDrives(s, n)[..2 * (n - 1)][..2 * i];
    }
  }

  /** Entry `2 * r` of the drives of the first `n` rows raises row `r`, and the entry after it drops it. */
  lemma RowDrivesAt(s: Scheme, n: nat, r: nat)
    requires r < n
    ensures RowDrives(s, n)[2 * r] == Drive(r, s.active) && RowDrives(s, n)[2 * r + 1] == Drive(r, s.Idle())
  {
    RowDrivesPrefix(s, n, r + 1);
    assert RowDrives(s, n)[2 * r] == RowDrives(s, r + 1)[2 * r];
    assert RowDrives(s, n)[2 * r + 1] == RowDrives(s, r + 1)[2 * r + 1];
  }

  /**
    Row `r` is framed by the drive log: it is raised by entry `2 * r` from
    a state with every row idle, the state it is raised into has it alone
    active, and entry `2 * r + 1` drops it again.
   */
  ghost predicate RowFramed(s: Scheme, rows: nat, log: seq<Drive>, r: nat)
  {
    && r < rows && 2 * r + 1 < |log|
    && log[2 * r] == Drive(r, s.active) && log[2 * r + 1] == Drive(r, s.Idle())
    && Replay(Uniform(rows, s.Idle()), log[..2 * r]) == Uniform(rows, s.Idle())
    && Replay(Uniform(rows, s.Idle()), log[..2 * r + 1]) == Probing(s, rows, r)
  }

  /** Every row the drives of the first `n` rows open is framed by them, and all rows are idle after its drop. */
  lemma RowFramedIn(s: Scheme, rows: nat, n: nat, r: nat)
    requires r < n <= rows
    ensures RowFramed(s, rows, RowDrives(s, n), r)
    ensures Replay(Uniform(rows, s.Idle()), RowDrives(s, n)[..2 * r + 2]) == Uniform(rows, s.Idle())
  {
    RowDrivesAt(s, n, r);
    RowDrivesIdleAt(s, rows, n, r);
    RowDrivesIdleAt(s, rows, n, r + 1);
    RowDrivesRaised(s, rows, n, r);
  }

  /** After the drives of the first `r` rows, every row is idle again. */
  lemma RowDrivesIdleAt(s: Scheme, rows: nat, n: nat, r: nat)
    requires r <= n <= rows
    ensures Replay(Uniform(rows, s.Idle()), RowDrives(s, n)[..2 * r]) == Uniform(rows, s.Idle())
  {
    RowDrivesPrefix(s, n, r);
    RowDrivesAreOneHot(s, rows, r);
  }

  /** Just after the drive that raises row `r`, row `r` alone is active. */
  lemma RowDrivesRaised(s: Scheme, rows: nat, n: nat, r: nat)
    requires r < n <= rows
    ensures Replay(Uniform(rows, s.Idle()), RowDrives(s, n)[..2 * r + 1]) == Probing(s, rows, r)
  {
    var log := RowDrives(s, n);
    var before := RowDrives(s, r);
    RowDrivesPrefix(s, n, r + 1);
    assert log[..2 * r + 1] == before + [Drive(r, s.active)] by {
      assert log[..2 * r + 1] == log[..2 * r + 2][..2 * r + 1];
    }
    RowDrivesAreOneHot(s, rows, r);
    ReplaySnoc(Uniform(rows, s.Idle()), before, Drive(r, s.active));
  }

  /**
    One full sweep from row levels `lines`: the idle reset (for the schemes
    that do it) followed by the row scan.  A scheme without the reset relies
    on its rows already being idle.
   */
  method Sweep(s: Scheme, rows: nat, cols: nat, o: Oracle, lines: seq<Level>, t0: int, ghost horizon: int)
    returns (sw: SweepRecord)
    requires s.Valid()
    requires s.release.UntilReleased? ==> QuietFrom(o, s.pressed, horizon)
    requires |lines| == rows
    requires !s.resetFirst ==> lines == Uniform(rows, s.Idle())
    ensures SweepOk(s, rows, cols, o, lines, t0, sw)
  {
    var prelude: seq<Drive> := [];
    if s.resetFirst {
      prelude := ResetRows(lines, s.Idle());
    }
    var log, probes, waits, t := ScanRows(s, rows, cols, o, t0, horizon);
    sw := SweepRecord(prelude, log, probes, waits, t);
  }

  // ---------------------------------------------------------------------
  // What a sweep's contract implies
  // ---------------------------------------------------------------------

  /** The cell a stopping sweep settles on: its last probe, when that probe is confirmed. */
  function Found(s: Scheme, probes: seq<Probe>): (cell: Option<Cell>)
  {
    if |probes| > 0 && Confirmed(s, probes[|probes| - 1]) then Some(probes[|probes| - 1].cell) else None
  }

  /**
    A stopping sweep finds nothing exactly when it examined every cell and
    confirmed none; when it finds a cell, that cell is confirmed, every
    cell before it in row-major order was examined and not confirmed, and
    no cell after it was examined.
   */
  lemma {:induction false} FoundIsFirstConfirmed(s: Scheme, rows: nat, cols: nat, o: Oracle, lines: seq<Level>, t0: int, sw: SweepRecord)
    requires s.StopsAtFirst()
    requires SweepOk(s, rows, cols, o, lines, t0, sw)
    ensures Found(s, sw.probes).None? <==>
      (|sw.probes| == rows * cols && forall i :: 0 <= i < |sw.probes| ==> !Confirmed(s, sw.probes[i]))
    ensures Found(s, sw.probes).Some? ==>
      var k := |sw.probes| - 1;
      && Confirmed(s, sw.probes[k])
      && sw.probes[k].cell == RowMajor(rows, cols)[k]
      && (forall i :: 0 <= i < k ==> sw.probes[i].cell == RowMajor(rows, cols)[i] && !Confirmed(s, sw.probes[i]))
  {
    RowMajorLength(rows, cols);
    var n := |sw.probes|;
    if Found(s, sw.probes).None? {
      assert !(n < rows * cols);
    }
  }

  /**
    Debounce rejects glitches: if no column ever reads pressed at two ticks
    a debounce delay apart, no probe is confirmed and no press is reported.
   */
  lemma {:induction false} GlitchesNeverConfirmed(s: Scheme, rows: nat, cols: nat, o: Oracle, lines: seq<Level>, t0: int, sw: SweepRecord)
    requires SweepOk(s, rows, cols, o, lines, t0, sw)
    requires forall ls, c, t :: o(ls, c, t) == s.pressed ==> o(ls, c, t + s.debounce) != s.pressed
    ensures forall i :: 0 <= i < |sw.probes| ==> !Confirmed(s, sw.probes[i])
    ensures Hits(s, sw.probes) == []
    ensures s.StopsAtFirst() ==> Found(s, sw.probes).None?
  {
    forall i | 0 <= i < |sw.probes|
      ensures !Confirmed(s, sw.probes[i])
    {
      assert Sampled(s, rows, o, sw.probes[i]);
    }
    NoConfirmedNoHits(s, sw.probes);
  }

  lemma {:induction false} NoConfirmedNoHits(s: Scheme, probes: seq<Probe>)
    requires forall i :: 0 <= i < |probes| ==> !Confirmed(s, probes[i])
    ensures Hits(s, probes) == []
    decreases |probes|
  {
    if |probes| > 0 {
      NoConfirmedNoHits(s, probes[..|probes| - 1]);
    }
  }

  /**
    A key held down is found: if the column of `cell` reads pressed at
    every tick from `t0` on while its row is probed, a stopping sweep finds
    that cell or an earlier one in row-major order, never nothing.
   */
  lemma {:induction false} HeldKeyIsFound(s: Scheme, rows: nat, cols: nat, o: Oracle, lines: seq<Level>, t0: int,
                                         sw: SweepRecord, cell: Cell)
    requires s.StopsAtFirst()
    requires SweepOk(s, rows, cols, o, lines, t0, sw)
    requires cell.row < rows && cell.col < cols
    requires forall t :: t >= t0 ==> o(Probing(s, rows, cell.row), cell.col, t) == s.pressed
    ensures Found(s, sw.probes).Some?
    ensures Found(s, sw.probes).value == cell || Before(Found(s, sw.probes).value, cell)
  {
    FirstHeldCell(s, rows, cols, o, t0, sw.end, sw.probes, cell);
  }

  lemma FirstHeldCell(s: Scheme, rows: nat, cols: nat, o: Oracle, t0: int, t: int, probes: seq<Probe>, cell: Cell)
    requires InOrder(probes, rows, cols)
    requires forall i :: 0 <= i < |probes| ==> Sampled(s, rows, o, probes[i])
    requires EndsAtFirstHit(s, probes, |RowMajor(rows, cols)|)
    requires Chronological(probes, t0, t)
    requires cell.row < rows && cell.col < cols
    requires forall t :: t >= t0 ==> o(Probing(s, rows, cell.row), cell.col, t) == s.pressed
    ensures Found(s, probes).Some?
    ensures Found(s, probes).value == cell || Before(Found(s, probes).value, cell)
  {
    RowMajorComplete(rows, cols);
    RowMajorOrdered(rows, cols);
    var order := RowMajor(rows, cols);
    var j :| 0 <= j < |order| && order[j] == cell;
    var k := |probes| - 1;
    if j < |probes| {
      var p := probes[j];
      assert Sampled(s, rows, o, p);
      assert p.at >= t0;
      assert Confirmed(s, p);
      assert j == k;
    } else {
      assert |probes| < |order|;
      assert Before(order[k], order[j]);
    }
  }

  /** When only the last probe can be confirmed, the sweep has at most that one detection. */
  lemma OnlyHitIsLast(s: Scheme, probes: seq<Probe>)
    requires |probes| > 0
    requires forall i :: 0 <= i < |probes| - 1 ==> !Confirmed(s, probes[i])
    ensures Hits(s, probes) == (if Confirmed(s, probes[|probes| - 1]) then [HitOf(s, probes[|probes| - 1])] else [])
  {
    NoConfirmedNoHits(s, probes[..|probes| - 1]);
  }

  /**
    A stopping sweep that waits for release waits exactly once when it
    finds a cell, for that cell, and not at all when it finds nothing.
   */
  lemma StoppingSweepWaits(s: Scheme, rows: nat, cols: nat, o: Oracle, lines: seq<Level>, t0: int, sw: SweepRecord)
    requires s.StopsAtFirst() && !s.release.NoWait?
    requires SweepOk(s, rows, cols, o, lines, t0, sw)
    ensures Found(s, sw.probes).Some? ==>
      && Found(s, sw.probes).value.row < rows && Found(s, sw.probes).value.col < cols
      && |sw.waits| == 1 && sw.waits[0].cell == Found(s, sw.probes).value
    ensures Found(s, sw.probes).None? ==> sw.waits == []
  {
    FoundIsFirstConfirmed(s, rows, cols, o, lines, t0, sw);
    if Found(s, sw.probes).Some? {
      RowMajorInRange(rows, cols);
      OnlyHitIsLast(s, sw.probes);
    } else {
      NoConfirmedNoHits(s, sw.probes);
    }
  }

  /** Under a bounded policy no release wait lasts longer than the timeout plus one poll. */
  lemma BoundedWaitsEnd(s: Scheme, rows: nat, o: Oracle, hits: seq<Hit>, waits: seq<WaitRecord>)
    requires s.release.Bounded?
    requires WaitsMatchHits(s, rows, o, hits, waits)
    ensures forall w :: w in waits ==> w.end - w.start <= s.release.limit + s.release.poll
  {
    forall w | w in waits
      ensures w.end - w.start <= s.release.limit + s.release.poll
    {
      var i :| 0 <= i < |waits| && waits[i] == w;
      assert WaitedAsScheme(s, rows, o, w);
    }
  }

  /** Every detection comes from a confirmed probe of the sweep. */
  lemma {:induction false} HitsFromProbes(s: Scheme, probes: seq<Probe>)
    ensures forall h :: h in Hits(s, probes) ==> exists p :: p in probes && Confirmed(s, p) && h == HitOf(s, p)
    decreases |probes|
  {
    if |probes| > 0 {
      var init := probes[..|probes| - 1];
      HitsFromProbes(s, init);
      forall h | h in Hits(s, probes)
        ensures exists p :: p in probes && Confirmed(s, p) && h == HitOf(s, p)
      {
        if h in Hits(s, init) {
          var p :| p in init && Confirmed(s, p) && h == HitOf(s, p);
          assert p in probes;
        } else {
          assert probes[|probes| - 1] in probes;
        }
      }
    }
  }

  /**
    Probe `p` read its column with the row levels the drive log reached just
    after raising its row, at its first tick and, when that read pressed,
    a debounce delay later.
   */
  ghost predicate ReadUnderLog(s: Scheme, rows: nat, o: Oracle, log: seq<Drive>, p: Probe)
  {
    && 2 * p.cell.row + 1 <= |log|
    && var ls := Replay(Uniform(rows, s.Idle()), log[..2 * p.cell.row + 1]);
       && p.first == o(ls, p.cell.col, p.at)
       && p.second == (if p.first == s.pressed then Some(o(ls, p.cell.col, p.at + s.debounce)) else None)
  }

  /** The rows a sweep opened are rows of the matrix, and they include the row of every probe. */
  lemma RowsOpenedCover(s: Scheme, rows: nat, cols: nat, probes: seq<Probe>)
    requires InOrder(probes, rows, cols)
    ensures RowsOpened(s, rows, probes) <= rows
    ensures forall i :: 0 <= i < |probes| ==> probes[i].cell.row < RowsOpened(s, rows, probes)
  {
    var order := RowMajor(rows, cols);
    RowMajorInRange(rows, cols);
    RowMajorOrdered(rows, cols);
    forall i | 0 <= i < |probes|
      ensures probes[i].cell.row < RowsOpened(s, rows, probes)
    {
      assert probes[i].cell == order[i];
      if i < |probes| - 1 {
        assert Before(order[i], order[|probes| - 1]);
      }
    }
  }

  /**
    The drive log frames every read of a sweep (every record that meets
    `SweepOk` meets the requirements): each row with a probe is
    raised from an all-idle state and dropped by the very next drive; every
    probe's samples see exactly the row levels the log reached when its row
    was raised; and every release wait polls with the levels the log
    reached at that point, or just after the drop for a scheme that drops
    the row before waiting.
   */
  lemma ReadsFramedByDrives(s: Scheme, rows: nat, cols: nat, o: Oracle, sw: SweepRecord)
    requires sw.log == RowDrives(s, RowsOpened(s, rows, sw.probes))
    requires InOrder(sw.probes, rows, cols)
    requires forall i :: 0 <= i < |sw.probes| ==> Sampled(s, rows, o, sw.probes[i])
    requires WaitsMatchHits(s, rows, o, Hits(s, sw.probes), sw.waits)
    ensures forall i :: 0 <= i < |sw.probes| ==>
      RowFramed(s, rows, sw.log, sw.probes[i].cell.row) && ReadUnderLog(s, rows, o, sw.log, sw.probes[i])
    ensures forall k :: 0 <= k < |sw.waits| ==>
      && RowFramed(s, rows, sw.log, sw.waits[k].cell.row)
      && sw.waits[k].lines ==
         Replay(Uniform(rows, s.Idle()), sw.log[..2 * sw.waits[k].cell.row + (if s.onHit == DropThenWait then 2 else 1)])
  {
    var n := RowsOpened(s, rows, sw.probes);
    RowsOpenedCover(s, rows, cols, sw.probes);
    ProbesFramed(s, rows, o, n, sw.probes);
    WaitsFramed(s, rows, o, n, sw.probes, sw.waits);
  }

  lemma ProbesFramed(s: Scheme, rows: nat, o: Oracle, n: nat, probes: seq<Probe>)
    requires n <= rows
    requires forall i :: 0 <= i < |probes| ==> probes[i].cell.row < n && Sampled(s, rows, o, probes[i])
    ensures forall i :: 0 <= i < |probes| ==>
      RowFramed(s, rows, RowDrives(s, n), probes[i].cell.row) && ReadUnderLog(s, rows, o, RowDrives(s, n), probes[i])
  {
    forall i | 0 <= i < |probes|
      ensures RowFramed(s, rows, RowDrives(s, n), probes[i].cell.row) && ReadUnderLog(s, rows, o, RowDrives(s, n), probes[i])
    {
      RowFramedIn(s, rows, n, probes[i].cell.row);
    }
  }

  lemma WaitsFramed(s: Scheme, rows: nat, o: Oracle, n: nat, probes: seq<Probe>, waits: seq<WaitRecord>)
    requires n <= rows
    requires forall i :: 0 <= i < |probes| ==> probes[i].cell.row < n
    requires WaitsMatchHits(s, rows, o, Hits(s, probes), waits)
    ensures forall k :: 0 <= k < |waits| ==>
      && RowFramed(s, rows, RowDrives(s, n), waits[k].cell.row)
      && waits[k].lines ==
         Replay(Uniform(rows, s.Idle()), RowDrives(s, n)[..2 * waits[k].cell.row + (if s.onHit == DropThenWait then 2 else 1)])
  {
    HitsFromProbes(s, probes);
    forall k | 0 <= k < |waits|
      ensures RowFramed(s, rows, RowDrives(s, n), waits[k].cell.row)
      ensures waits[k].lines ==
        Replay(Uniform(rows, s.Idle()), RowDrives(s, n)[..2 * waits[k].cell.row + (if s.onHit == DropThenWait then 2 else 1)])
    {
      var h := Hits(s, probes)[k];
      assert h in Hits(s, probes);
      var p :| p in probes && Confirmed(s, p) && h == HitOf(s, p);
      var j :| 0 <= j < |probes| && probes[j] == p;
      WaitFramed(s, rows, o, n, waits[k]);
    }
  }

  lemma WaitFramed(s: Scheme, rows: nat, o: Oracle, n: nat, w: WaitRecord)
    requires w.cell.row < n <= rows
    requires WaitedAsScheme(s, rows, o, w)
    ensures RowFramed(s, rows, RowDrives(s, n), w.cell.row)
    ensures w.lines == Replay(Uniform(rows, s.Idle()), RowDrives(s, n)[..2 * w.cell.row + (if s.onHit == DropThenWait then 2 else 1)])
  {
    RowFramedIn(s, rows, n, w.cell.row);
  }

  // ---------------------------------------------------------------------
  // How long a sweep takes
  // ---------------------------------------------------------------------

  /**
    A step never ends before its first sample; one that read idle or needed
    no wait lasts at most the debounce delay, and one that waited under a
    bounded policy lasts at most the debounce delay, the timeout and one poll.
   */
  lemma StepLength(s: Scheme, rows: nat, o: Oracle, probes: seq<Probe>, waits: seq<WaitRecord>, i: nat)
    requires StepsTimed(s, probes, waits)
    requires WaitsMatchHits(s, rows, o, Hits(s, probes), waits)
    requires i < |probes|
    ensures probes[i].at <= probes[i].done
    ensures !(Confirmed(s, probes[i]) && !s.release.NoWait?) ==> probes[i].done - probes[i].at <= s.debounce
    ensures Confirmed(s, probes[i]) && s.release.Bounded? ==>
      probes[i].done - probes[i].at <= s.debounce + s.release.limit + s.release.poll
  {
    var p := probes[i];
    assert StepTimed(s, p, probes[..i], waits);
    if Confirmed(s, p) && !s.release.NoWait? {
      var k := |Hits(s, probes[..i])|;
      assert WaitedAsScheme(s, rows, o, waits[k]);
    }
  }

  /** Every probe after a step is sampled no earlier than that step ended. */
  lemma {:induction false} LaterProbesAfterStep(s: Scheme, t0: int, probes: seq<Probe>, i: nat, j: nat)
    requires Paced(s, t0, probes)
    requires forall k :: 0 <= k < |probes| ==> probes[k].at <= probes[k].done
    requires i < j < |probes|
    ensures probes[i].done <= probes[j].at
    decreases j
  {
    if j > i + 1 {
      LaterProbesAfterStep(s, t0, probes, i, j - 1);
    }
  }

  /** The `k`-th detection of a sweep comes from a confirmed probe with `k` detections before it. */
  lemma {:induction false} HitSource(s: Scheme, probes: seq<Probe>, k: nat) returns (i: nat)
    requires k < |Hits(s, probes)|
    ensures i < |probes| && Confirmed(s, probes[i]) && |Hits(s, probes[..i])| == k
    decreases |probes|
  {
    var init := probes[..|probes| - 1];
    if k < |Hits(s, init)| {
      i := HitSource(s, init, k);
      assert init[..i] == probes[..i];
    } else {
      i := |probes| - 1;
      assert probes[..i] == init;
    }
  }

  /**
    A release wait comes between the press that caused it and the rest of
    the sweep: every cell probed after a confirmed press is sampled no
    earlier than the end of that press's wait plus the pause, and the sweep
    ends no earlier than the end of any wait plus the pause.
   */
  lemma WaitsPrecedeLaterProbes(s: Scheme, rows: nat, cols: nat, o: Oracle, lines: seq<Level>, t0: int, sw: SweepRecord)
    requires !s.release.NoWait?
    requires SweepOk(s, rows, cols, o, lines, t0, sw)
    ensures forall i, j :: 0 <= i < j < |sw.probes| && Confirmed(s, sw.probes[i]) ==>
      |Hits(s, sw.probes[..i])| < |sw.waits| &&
      sw.probes[j].at >= sw.waits[|Hits(s, sw.probes[..i])|].end + s.Pause()
    ensures forall k :: 0 <= k < |sw.waits| ==> sw.waits[k].end + s.Pause() <= sw.end
  {
    StepsForward(s, rows, o, sw.probes, sw.waits);
    WaitsBeforeLaterProbes(s, t0, sw.probes, sw.waits);
    WaitsBeforeEnd(s, rows, o, t0, sw.probes, sw.waits, sw.end);
  }

  /** No step ends before its first sample. */
  lemma StepsForward(s: Scheme, rows: nat, o: Oracle, probes: seq<Probe>, waits: seq<WaitRecord>)
    requires StepsTimed(s, probes, waits)
    requires WaitsMatchHits(s, rows, o, Hits(s, probes), waits)
    ensures forall k :: 0 <= k < |probes| ==> probes[k].at <= probes[k].done
  {
    forall k | 0 <= k < |probes|
      ensures probes[k].at <= probes[k].done
    {
      StepLength(s, rows, o, probes, waits, k);
    }
  }

  lemma WaitsBeforeLaterProbes(s: Scheme, t0: int, probes: seq<Probe>, waits: seq<WaitRecord>)
    requires !s.release.NoWait?
    requires Paced(s, t0, probes) && StepsTimed(s, probes, waits)
    requires forall k :: 0 <= k < |probes| ==> probes[k].at <= probes[k].done
    ensures forall i, j :: 0 <= i < j < |probes| && Confirmed(s, probes[i]) ==>
      |Hits(s, probes[..i])| < |waits| &&
      probes[j].at >= waits[|Hits(s, probes[..i])|].end + s.Pause()
  {
    forall i, j | 0 <= i < j < |probes| && Confirmed(s, probes[i])
      ensures |Hits(s, probes[..i])| < |waits|
      ensures probes[j].at >= waits[|Hits(s, probes[..i])|].end + s.Pause()
    {
      assert StepTimed(s, probes[i], probes[..i], waits);
      LaterProbesAfterStep(s, t0, probes, i, j);
    }
  }

  lemma WaitsBeforeEnd(s: Scheme, rows: nat, o: Oracle, t0: int, probes: seq<Probe>, waits: seq<WaitRecord>, end: int)
    requires !s.release.NoWait?
    requires Paced(s, t0, probes) && StepsTimed(s, probes, waits)
    requires WaitsMatchHits(s, rows, o, Hits(s, probes), waits)
    requires forall k :: 0 <= k < |probes| ==> probes[k].at <= probes[k].done
    requires end == Clock(s, t0, rows, probes)
    ensures forall k :: 0 <= k < |waits| ==> waits[k].end + s.Pause() <= end
  {
    if |probes| > 0 {
      DoneBeforeLast(s, t0, probes);
    }
    forall k | 0 <= k < |waits|
      ensures waits[k].end + s.Pause() <= end
    {
      WaitEndsBeforeLast(s, probes, waits, k);
    }
  }

  /** No step ends after the last one. */
  lemma DoneBeforeLast(s: Scheme, t0: int, probes: seq<Probe>)
    requires |probes| > 0 && Paced(s, t0, probes)
    requires forall k :: 0 <= k < |probes| ==> probes[k].at <= probes[k].done
    ensures forall i :: 0 <= i < |probes| ==> probes[i].done <= probes[|probes| - 1].done
  {
    forall i | 0 <= i < |probes| - 1
      ensures probes[i].done <= probes[|probes| - 1].done
    {
      LaterProbesAfterStep(s, t0, probes, i, |probes| - 1);
    }
  }

  lemma WaitEndsBeforeLast(s: Scheme, probes: seq<Probe>, waits: seq<WaitRecord>, k: nat)
    requires !s.release.NoWait?
    requires StepsTimed(s, probes, waits)
    requires |waits| == |Hits(s, probes)| && k < |waits|
    requires forall i :: 0 <= i < |probes| ==> probes[i].done <= probes[|probes| - 1].done
    ensures |probes| > 0 && waits[k].end + s.Pause() <= probes[|probes| - 1].done
  {
    var i := HitSource(s, probes, k);
    assert StepTimed(s, probes[i], probes[..i], waits);
  }

  lemma MulLe(a: nat, b: nat, c: nat)
    requires a <= b
    ensures a * c <= b * c
  {
    assert b * c == a * c + (b - a) * c;
  }

  /** Row-major probes open a new row exactly at column 0. */
  predicate RowsAscend(probes: seq<Probe>)
  {
    forall i :: 0 < i < |probes| ==>
      probes[i - 1].cell.row + (if probes[i].cell.col == 0 then 1 else 0) <= probes[i].cell.row
  }

  lemma ProbesAscend(probes: seq<Probe>, rows: nat, cols: nat)
    requires InOrder(probes, rows, cols)
    ensures RowsAscend(probes)
  {
    RowMajorOrdered(rows, cols);
    forall i | 0 < i < |probes|
      ensures probes[i - 1].cell.row + (if probes[i].cell.col == 0 then 1 else 0) <= probes[i].cell.row
    {
      assert Before(RowMajor(rows, cols)[i - 1], RowMajor(rows, cols)[i]);
    }
  }

  /**
    While no step lasts longer than the debounce delay, probe `k` is sampled
    at most one settle delay per row opened so far and one debounce delay per
    earlier probe after the start.
   */
  lemma {:induction false} SpanTo(s: Scheme, t0: int, probes: seq<Probe>, k: nat)
    requires Paced(s, t0, probes) && RowsAscend(probes)
    requires k < |probes|
    requires forall i :: 0 <= i < k ==> probes[i].done - probes[i].at <= s.debounce
    ensures probes[k].at - t0 <= (probes[k].cell.row + 1) * s.settle + k * s.debounce
    decreases k
  {
    var row := probes[k].cell.row;
    if k == 0 {
      MulLe(1, row + 1, s.settle);
    } else {
      SpanTo(s, t0, probes, k - 1);
      var prev := probes[k - 1].cell.row;
      var step := if probes[k].cell.col == 0 then 1 else 0;
      assert SettleBefore(s, probes[k]) == step * s.settle;
      MulLe(prev + 1 + step, row + 1, s.settle);
      assert (prev + 1 + step) * s.settle == (prev + 1) * s.settle + step * s.settle;
      assert k * s.debounce == (k - 1) * s.debounce + s.debounce;
    }
  }

  /**
    A sweep that never waits, or stops on its first press and waits at most
    the timeout, ends within one settle delay per row and one debounce delay
    per cell of the start, plus the timeout and one poll when it waits.
   */
  lemma SweepDuration(s: Scheme, rows: nat, cols: nat, o: Oracle, lines: seq<Level>, t0: int, sw: SweepRecord)
    requires s.release.NoWait? || (s.StopsAtFirst() && s.release.Bounded?)
    requires SweepOk(s, rows, cols, o, lines, t0, sw)
    ensures t0 <= sw.end
    ensures sw.end - t0 <= rows * s.settle + rows * cols * s.debounce
                           + (if s.release.Bounded? then s.release.limit + s.release.poll else 0)
  {
    var probes := sw.probes;
    var n := |probes|;
    var extra := if s.release.Bounded? then s.release.limit + s.release.poll else 0;
    RowMajorLength(rows, cols);
    MulLe(0, rows * cols, s.debounce);
    if n > 0 {
      forall i | 0 <= i < n
        ensures probes[i].done - probes[i].at <= s.debounce + (if i == n - 1 then extra else 0)
      {
        StepLength(s, rows, o, probes, sw.waits, i);
      }
      ProbesAscend(probes, rows, cols);
      RowMajorInRange(rows, cols);
      LastStepEnds(s, rows, cols, t0, probes, extra);
    }
  }

  /** The bound of `SweepDuration`, from the pacing of the probes and the length of each step. */
  lemma LastStepEnds(s: Scheme, rows: nat, cols: nat, t0: int, probes: seq<Probe>, extra: nat)
    requires |probes| > 0 && Paced(s, t0, probes) && RowsAscend(probes)
    requires |probes| <= rows * cols && probes[|probes| - 1].cell.row < rows
    requires forall i :: 0 <= i < |probes| ==>
      probes[i].done - probes[i].at <= s.debounce + (if i == |probes| - 1 then extra else 0)
    ensures probes[|probes| - 1].done - t0 <= rows * s.settle + rows * cols * s.debounce + extra
  {
    var n := |probes|;
    SpanTo(s, t0, probes, n - 1);
    MulLe(probes[n - 1].cell.row + 1, rows, s.settle);
    MulLe(n, rows * cols, s.debounce);
    assert n * s.debounce == (n - 1) * s.debounce + s.debounce;
  }
}
