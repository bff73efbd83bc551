/**
  A physical reading of the matrix, used to examine the game scanner's
  release wait.  Each key is a contact between a row and a column (with a
  series diode from row to column); a column reads the pressed level
  exactly when some row at the active level reaches it through a closed
  contact, and otherwise rests at the level of its pull resistor.
 */
module Physics {
  import opened Wrappers
  import opened Lines
  import opened Matrix
  import opened Scan
  import opened Scanners

  /** Whether the contact at (row, column) is closed at a tick. */
  type Contacts = (nat, nat, int) -> bool

  /** Some row below `n` is at the active level and reaches column `c` through a closed contact. */
  function Reaches(ls: seq<Level>, active: Level, closed: Contacts, c: nat, t: int, n: nat): (b: bool)
    requires n <= |ls|
  {
    n > 0 && ((ls[n - 1] == active && closed(n - 1, c, t)) || Reaches(ls, active, closed, c, t, n - 1))
  }

  /** The column levels the wiring produces. */
  function Wired(closed: Contacts, active: Level, pressed: Level): (o: Oracle)
  {
    (ls: seq<Level>, c: nat, t: int) =>
      if Reaches(ls, active, closed, c, t, |ls|) then pressed else Flip(pressed)
  }

  /** With every row idle nothing reaches any column. */
  lemma {:induction false} IdleReachesNothing(n: nat, k: nat, active: Level, closed: Contacts, c: nat, t: int)
    requires k <= n
    ensures !Reaches(Uniform(n, Flip(active)), active, closed, c, t, k)
  {
    if k > 0 {
      IdleReachesNothing(n, k - 1, active, closed, c, t);
    }
  }

  /** With one row raised, a column is reached exactly when that row's contact to it is closed. */
  lemma {:induction false} LoneRowReaches(n: nat, k: nat, r: nat, active: Level, closed: Contacts, c: nat, t: int)
    requires r < n && k <= n
    ensures Reaches(OneActive(n, r, active), active, closed, c, t, k) <==> (r < k && closed(r, c, t))
  {
    if k > 0 {
      LoneRowReaches(n, k - 1, r, active, closed, c, t);
    }
  }

  lemma IdleRowsReadIdle(closed: Contacts, active: Level, pressed: Level, n: nat, c: nat, t: int)
    ensures Wired(closed, active, pressed)(Uniform(n, Flip(active)), c, t) == Flip(pressed)
  {
    IdleReachesNothing(n, n, active, closed, c, t);
  }

  lemma LoneRowReadsItsKey(closed: Contacts, active: Level, pressed: Level, n: nat, r: nat, c: nat, t: int)
    requires r < n
    ensures Wired(closed, active, pressed)(OneActive(n, r, active), c, t) == (if closed(r, c, t) then pressed else Flip(pressed))
  {
    LoneRowReaches(n, n, r, active, closed, c, t);
  }

  /**
    The game scanner as written drops the row before waiting for release;
    with every row LOW and pull-down columns, the column reads LOW at once,
    so the wait always ends on its first read, with no poll, whether or not
    the key is still held.
   */
  lemma AsWrittenWaitEndsAtOnce(closed: Contacts, lines: seq<Level>, t0: int, sw: SweepRecord)
    requires SweepOk(GameScheme, 5, 6, Wired(closed, High, High), lines, t0, sw)
    ensures forall w :: w in sw.waits ==> w.polls == [] && w.end == w.start
  {
    forall w | w in sw.waits
      ensures w.polls == [] && w.end == w.start
    {
      var i :| 0 <= i < |sw.waits| && sw.waits[i] == w;
      assert WaitedAsScheme(GameScheme, 5, Wired(closed, High, High), w);
      IdleRowsReadIdle(closed, High, High, 5, w.cell.col, w.start);
    }
  }

  /** The key 'A' (row 0, column 0) held down at every tick. */
  function HoldA(): (closed: Contacts)
  {
    (r: nat, c: nat, t: int) => r == 0 && c == 0
  }

  /**
    Counterexample: with 'A' held down for good, the game scanner as written
    finds 'A' and then leaves its release wait at the tick it began, while
    the key is still held, so the next call finds 'A' again.
   */
  lemma HeldKeyReleasedAtOnce(lines: seq<Level>, t0: int, key: Option<string>, sw: SweepRecord)
    requires SweepOk(GameScheme, 5, 6, Wired(HoldA(), High, High), lines, t0, sw)
    requires key.Some? <==> Found(GameScheme, sw.probes).Some?
    requires key.Some? ==> |sw.waits| == 1 && sw.waits[0].cell == Found(GameScheme, sw.probes).value
    ensures Found(GameScheme, sw.probes) == Some(Cell(0, 0))
    ensures key.Some? && sw.waits[0].end == sw.waits[0].start
    ensures HoldA()(0, 0, sw.waits[0].end)
  {
    var o := Wired(HoldA(), High, High);
    forall t | t >= t0
      ensures o(Probing(GameScheme, 5, 0), 0, t) == High
    {
      LoneRowReadsItsKey(HoldA(), High, High, 5, 0, 0, t);
    }
    HeldKeyIsFound(GameScheme, 5, 6, o, lines, t0, sw, Cell(0, 0));
    AsWrittenWaitEndsAtOnce(HoldA(), lines, t0, sw);
    assert sw.waits[0] in sw.waits;
  }

  /**
    The corrected scanner waits with the row still HIGH, so its polls see
    the key itself: every poll found the key closed, and the wait ends only
    once the key is open or the 2 s timeout has passed.
   */
  lemma HeldWaitTracksKey(closed: Contacts, lines: seq<Level>, t0: int, sw: SweepRecord)
    requires SweepOk(GameSchemeHeld, 5, 6, Wired(closed, High, High), lines, t0, sw)
    ensures forall w :: w in sw.waits ==>
      && (forall k :: 0 <= k < |w.polls| ==> closed(w.cell.row, w.cell.col, w.polls[k]))
      && (!closed(w.cell.row, w.cell.col, w.end) || w.end - w.start > 2000000)
  {
    var o := Wired(closed, High, High);
    forall w | w in sw.waits
      ensures forall k :: 0 <= k < |w.polls| ==> closed(w.cell.row, w.cell.col, w.polls[k])
      ensures !closed(w.cell.row, w.cell.col, w.end) || w.end - w.start > 2000000
    {
      var i :| 0 <= i < |sw.waits| && sw.waits[i] == w;
      assert WaitedAsScheme(GameSchemeHeld, 5, o, w);
      forall k | 0 <= k < |w.polls|
        ensures closed(w.cell.row, w.cell.col, w.polls[k])
      {
        LoneRowReadsItsKey(closed, High, High, 5, w.cell.row, w.cell.col, w.polls[k]);
      }
      LoneRowReadsItsKey(closed, High, High, 5, w.cell.row, w.cell.col, w.end);
    }
  }

  /** With 'A' held down for good, the corrected scanner finds 'A' and keeps waiting until the timeout. */
  lemma HeldKeyWaitedOut(lines: seq<Level>, t0: int, sw: SweepRecord)
    requires SweepOk(GameSchemeHeld, 5, 6, Wired(HoldA(), High, High), lines, t0, sw)
    requires Found(GameSchemeHeld, sw.probes).Some? ==> |sw.waits| == 1 && sw.waits[0].cell == Found(GameSchemeHeld, sw.probes).value
    ensures Found(GameSchemeHeld, sw.probes) == Some(Cell(0, 0))
    ensures sw.waits[0].end - sw.waits[0].start > 2000000
  {
    var o := Wired(HoldA(), High, High);
    forall t | t >= t0
      ensures o(Probing(GameSchemeHeld, 5, 0), 0, t) == High
    {
      LoneRowReadsItsKey(HoldA(), High, High, 5, 0, 0, t);
    }
    HeldKeyIsFound(GameSchemeHeld, 5, 6, o, lines, t0, sw, Cell(0, 0));
    HeldWaitTracksKey(HoldA(), lines, t0, sw);
    assert sw.waits[0] in sw.waits;
  }
}
