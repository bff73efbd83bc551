/**
  Digital line levels, the drive events a scanner issues on its row lines,
  and the sense oracle that stands in for reading a column line.
 */
module Lines {

  datatype Level = Low | High

  /** The opposite level. */
  function Flip(l: Level): (r: Level)
    ensures r != l
  {
    if l == Low then High else Low
  }

  /** Every one of `n` rows at level `l`. */
  function Uniform(n: nat, l: Level): (ls: seq<Level>)
    ensures |ls| == n
    ensures forall i :: 0 <= i < n ==> ls[i] == l
  {
    seq(n, _ => l)
  }

  /** All `n` rows idle except row `r`, which is driven to `active`. */
  function OneActive(n: nat, r: nat, active: Level): (ls: seq<Level>)
    requires r < n
    ensures |ls| == n
    ensures ls[r] == active
    ensures forall i :: 0 <= i < n && i != r ==> ls[i] == Flip(active)
  {
    Uniform(n, Flip(active))[r := active]
  }

  /** No two distinct rows sit at the active level. */
  predicate AtMostOne(ls: seq<Level>, active: Level)
  {
    forall i, j :: 0 <= i < |ls| && 0 <= j < |ls| && ls[i] == active && ls[j] == active ==> i == j
  }

  /** One call that sets a row line to a level. */
  datatype Drive = Drive(row: nat, level: Level)

  /**
    What a column line reads, given the levels currently driven on the row
    lines, the column index and the tick at which it is sampled.  The
    hardware, the pull resistors and the diodes are all hidden behind it.
   */
  type Oracle = (seq<Level>, nat, int) -> Level

  /** The row levels after one drive event; a drive of a row that does not exist changes nothing. */
  function Apply(ls: seq<Level>, d: Drive): (r: seq<Level>)
    ensures |r| == |ls|
    ensures d.row < |ls| ==> r[d.row] == d.level
    ensures forall i :: 0 <= i < |ls| && i != d.row ==> r[i] == ls[i]
  {
    if d.row < |ls| then ls[d.row := d.level] else ls
  }

  /** The row levels after every drive event of `log`, in order. */
  function Replay(ls: seq<Level>, log: seq<Drive>): (r: seq<Level>)
    ensures |r| == |ls|
    decreases |log|
  {
    if |log| == 0 then ls else Apply(Replay(ls, log[..|log| - 1]), log[|log| - 1])
  }

  /**
    At most one row is at the active level in the starting state and after
    each drive event of `log`: the single-active-row rule at every moment.
   */
  ghost predicate OneHot(ls: seq<Level>, log: seq<Drive>, active: Level)
    decreases |log|
  {
    if |log| == 0 then AtMostOne(ls, active)
    else OneHot(ls, log[..|log| - 1], active) && AtMostOne(Replay(ls, log), active)
  }

  /**
    What a replay leaves on each row: a row that no event of the log drives
    keeps its starting level, and a row that some event drives is at the
    level of the last such event.
   */
  lemma {:induction false} ReplayRows(ls: seq<Level>, log: seq<Drive>)
    ensures forall i :: 0 <= i < |ls| && (forall k :: 0 <= k < |log| ==> log[k].row != i) ==> Replay(ls, log)[i] == ls[i]
    ensures forall k :: 0 <= k < |log| && log[k].row < |ls| && (forall k' :: k < k' < |log| ==> log[k'].row != log[k].row) ==>
      Replay(ls, log)[log[k].row] == log[k].level
    decreases |log|
  {
    if |log| > 0 {
      var init := log[..|log| - 1];
      ReplayRows(ls, init);
      assert forall k :: 0 <= k < |init| ==> init[k] == log[k];
    }
  }

  lemma ReplaySnoc(ls: seq<Level>, log: seq<Drive>, d: Drive)
    ensures Replay(ls, log + [d]) == Apply(Replay(ls, log), d)
  {
    assert (log + [d])[..|log|] == log;
  }

  lemma OneHotSnoc(ls: seq<Level>, log: seq<Drive>, d: Drive, active: Level)
    ensures OneHot(ls, log + [d], active) <==> OneHot(ls, log, active) && AtMostOne(Apply(Replay(ls, log), d), active)
  {
    assert (log + [d])[..|log|] == log;
    ReplaySnoc(ls, log, d);
  }

  /** A state with one raised row keeps the rule. */
  lemma OneActiveAtMostOne(n: nat, r: nat, active: Level)
    requires r < n
    ensures AtMostOne(OneActive(n, r, active), active)
  {
  }

  lemma IdleAtMostOne(n: nat, active: Level)
    ensures AtMostOne(Uniform(n, Flip(active)), active)
  {
  }

  /** Appending a drive that raises row `r` to an idle state, or drops it back, keeps the rule. */
  lemma RaiseKeepsOneHot(ls: seq<Level>, log: seq<Drive>, r: nat, active: Level)
    requires r < |ls|
    requires OneHot(ls, log, active)
    requires Replay(ls, log) == Uniform(|ls|, Flip(active))
    ensures OneHot(ls, log + [Drive(r, active)], active)
    ensures Replay(ls, log + [Drive(r, active)]) == OneActive(|ls|, r, active)
  {
    ReplaySnoc(ls, log, Drive(r, active));
    OneHotSnoc(ls, log, Drive(r, active), active);
    OneActiveAtMostOne(|ls|, r, active);
  }

  lemma DropKeepsOneHot(ls: seq<Level>, log: seq<Drive>, r: nat, active: Level)
    requires r < |ls|
    requires OneHot(ls, log, active)
    requires Replay(ls, log) == OneActive(|ls|, r, active)
    ensures OneHot(ls, log + [Drive(r, Flip(active))], active)
    ensures Replay(ls, log + [Drive(r, Flip(active))]) == Uniform(|ls|, Flip(active))
  {
    ReplaySnoc(ls, log, Drive(r, Flip(active)));
    OneHotSnoc(ls, log, Drive(r, Flip(active)), active);
    IdleAtMostOne(|ls|, active);
  }

  /**
    `OneHot` really speaks of every moment: after every prefix of the log at
    most one row is active.
   */
  lemma {:induction false} OneHotAtEveryStep(ls: seq<Level>, log: seq<Drive>, active: Level)
    requires OneHot(ls, log, active)
    ensures forall k :: 0 <= k <= |log| ==> AtMostOne(Replay(ls, log[..k]), active)
    decreases |log|
  {
    if |log| == 0 {
      assert log[..0] == log;
    } else {
      var init := log[..|log| - 1];
      OneHotAtEveryStep(ls, init, active);
      forall k | 0 <= k <= |log|
        ensures AtMostOne(Replay(ls, log[..k]), active)
      {
        if k == |log| {
          assert log[..k] == log;
        } else {
          assert log[..k] == init[..k];
        }
      }
    }
  }
}
