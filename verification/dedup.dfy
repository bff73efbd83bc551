/**
  The report de-duplication rule of the diagnostic scanners: a confirmed
  position is reported only if it differs from the last one reported or
  enough time has passed since that report.
 */
module Dedup {
  import opened Wrappers
  import opened Matrix

  /** A confirmed detection: the cell and the tick at which it was confirmed. */
  datatype Hit = Hit(cell: Cell, at: int)

  /** The last reported position (none before the first report) and its tick. */
  datatype Memory = Memory(last: Option<Cell>, lastAt: int)

  /** The state a scanner starts with: nothing reported yet, time zero. */
  const Fresh: Memory := Memory(None, 0)

  /** Whether `h` is reported, given what was reported last and the window in ticks. */
  predicate Reports(m: Memory, h: Hit, window: int)
  {
    m.last != Some(h.cell) || h.at - m.lastAt > window
  }

  /**
    One detection: the memory afterwards and whether it was reported.  The
    memory moves to the detection exactly when it is reported and is left
    untouched by a suppressed one.
   */
  function Observe(m: Memory, h: Hit, window: int): (r: (Memory, bool))
    ensures r.1 <==> (m.last != Some(h.cell) || h.at - m.lastAt > window)
    ensures r.1 ==> r.0 == Memory(Some(h.cell), h.at)
    ensures !r.1 ==> r.0 == m
  {
    if Reports(m, h, window) then (Memory(Some(h.cell), h.at), true) else (m, false)
  }

  /** A run of detections in order: the final memory and the detections reported. */
  function Filter(m: Memory, hits: seq<Hit>, window: int): (r: (Memory, seq<Hit>))
    decreases |hits|
  {
    if |hits| == 0 then (m, [])
    else
      var (m1, shown) := Observe(m, hits[0], window);
      var (m2, rest) := Filter(m1, hits[1..], window);
      (m2, (if shown then [hits[0]] else []) + rest)
  }

  /** The very first detection a scanner makes is always reported. */
  lemma FirstAlwaysReported(h: Hit, window: int)
    ensures Observe(Fresh, h, window) == (Memory(Some(h.cell), h.at), true)
  {
  }

  /**
    There are no more reports than detections and every report is one of
    the detections; the final memory is the last report, or the starting
    memory when nothing was reported.
   */
  lemma {:induction false} FilterReportsAndMemory(m: Memory, hits: seq<Hit>, window: int)
    ensures |Filter(m, hits, window).1| <= |hits|
    ensures forall h :: h in Filter(m, hits, window).1 ==> h in hits
    ensures var (m', reps) := Filter(m, hits, window);
      if |reps| == 0 then m' == m else m' == Memory(Some(reps[|reps| - 1].cell), reps[|reps| - 1].at)
    decreases |hits|
  {
    if |hits| > 0 {
      var (m1, shown) := Observe(m, hits[0], window);
      FilterReportsAndMemory(m1, hits[1..], window);
      var (m2, rest) := Filter(m1, hits[1..], window);
      assert Filter(m, hits, window) == (m2, (if shown then [hits[0]] else []) + rest);
      forall h | h in rest ensures h in hits {
        assert h in hits[1..];
      }
    }
  }

  /** Each report of the same cell as the one before it comes more than `window` ticks later. */
  ghost predicate Spaced(m: Memory, reps: seq<Hit>, window: int)
    decreases |reps|
  {
    |reps| == 0 ||
    ((m.last == Some(reps[0].cell) ==> reps[0].at - m.lastAt > window)
     && Spaced(Memory(Some(reps[0].cell), reps[0].at), reps[1..], window))
  }

  /**
    The rule does what it is for: a position that keeps being detected is
    reported again only once the window has passed since its last report.
   */
  lemma {:induction false} FilterSpacesRepeats(m: Memory, hits: seq<Hit>, window: int)
    ensures Spaced(m, Filter(m, hits, window).1, window)
    decreases |hits|
  {
    if |hits| > 0 {
      var (m1, shown) := Observe(m, hits[0], window);
      FilterSpacesRepeats(m1, hits[1..], window);
      var (m2, rest) := Filter(m1, hits[1..], window);
      if shown {
        assert Filter(m, hits, window).1 == [hits[0]] + rest;
        assert ([hits[0]] + rest)[1..] == rest;
      } else {
        assert Filter(m, hits, window).1 == rest;
      }
    }
  }

  /** `Spaced` read pairwise: two consecutive reports of one cell are more than `window` apart. */
  lemma {:induction false} SpacedPairwise(m: Memory, reps: seq<Hit>, window: int)
    requires Spaced(m, reps, window)
    ensures forall i :: 0 <= i < |reps| - 1 && reps[i].cell == reps[i + 1].cell ==> reps[i + 1].at - reps[i].at > window
    decreases |reps|
  {
    if |reps| > 1 {
      SpacedPairwise(Memory(Some(reps[0].cell), reps[0].at), reps[1..], window);
      forall i | 0 <= i < |reps| - 1 && reps[i].cell == reps[i + 1].cell
        ensures reps[i + 1].at - reps[i].at > window
      {
        if i > 0 {
          assert reps[i] == reps[1..][i - 1] && reps[i + 1] == reps[1..][i];
        }
      }
    }
  }

  /**
    Detections that each differ in position from the one before (and from
    the last report) are all reported: several keys can be reported in one
    sweep.
   */
  lemma {:induction false} ChangingPositionsAllReported(m: Memory, hits: seq<Hit>, window: int)
    requires |hits| > 0 ==> m.last != Some(hits[0].cell)
    requires forall i :: 0 <= i < |hits| - 1 ==> hits[i].cell != hits[i + 1].cell
    ensures Filter(m, hits, window).1 == hits
    decreases |hits|
  {
    if |hits| > 0 {
      var m1 := Memory(Some(hits[0].cell), hits[0].at);
      assert Observe(m, hits[0], window) == (m1, true);
      ChangingPositionsAllReported(m1, hits[1..], window);
      assert [hits[0]] + hits[1..] == hits;
    }
  }
}
