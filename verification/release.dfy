/**
  Waiting for a confirmed key to be released: poll the column until it no
  longer reads the pressed level, optionally giving up once a safety
  timeout has elapsed.
 */
module Release {
  import opened Wrappers
  import opened Lines

  /** After tick `horizon` no column reads `pressed`, whatever rows are driven: every key is eventually let go. */
  ghost predicate QuietFrom(o: Oracle, pressed: Level, horizon: int)
  {
    forall ls, c, t :: t >= horizon ==> o(ls, c, t) != pressed
  }

  /** `polls` starts at `t0` and steps by `poll`. */
  predicate Evenly(polls: seq<int>, t0: int, poll: nat)
  {
    && (|polls| > 0 ==> polls[0] == t0)
    && forall k :: 0 < k < |polls| ==> polls[k] == polls[k - 1] + poll
  }

  lemma EvenlySnoc(polls: seq<int>, t0: int, poll: nat, t: int)
    requires Evenly(polls, t0, poll)
    requires t == (if |polls| == 0 then t0 else polls[|polls| - 1] + poll)
    ensures Evenly(polls + [t], t0, poll)
  {
    var ps := polls + [t];
    assert forall k :: 0 <= k < |polls| ==> ps[k] == polls[k];
  }

  /**
    The outcome of a release wait on column `c` with rows driven at `ls`,
    started at tick `t0`: `polls` are the ticks of the reads that still saw
    the key pressed, one poll interval apart from `t0` on; the wait ends at
    `t`, either on a read that no longer sees the key or, with a `limit`,
    once more than `limit` ticks have elapsed.  With a limit it never lasts
    longer than the limit plus one poll interval.
   */
  ghost predicate Waited(o: Oracle, ls: seq<Level>, c: nat, pressed: Level, t0: int, poll: nat,
                         limit: Option<nat>, polls: seq<int>, t: int)
  {
    && Evenly(polls, t0, poll)
    && (forall k :: 0 <= k < |polls| ==> o(ls, c, polls[k]) == pressed)
    && t == (if |polls| == 0 then t0 else polls[|polls| - 1] + poll)
    && match limit
       case None => o(ls, c, t) != pressed
       case Some(lim) =>
         && (o(ls, c, t) != pressed || t - t0 > lim)
         && (forall k :: 0 <= k < |polls| ==> polls[k] - t0 <= lim)
         && t - t0 <= lim + poll
  }

  /**
    Poll column `c` every `poll` ticks while it reads `pressed`.  With a
    limit the loop also stops once the elapsed time exceeds the limit; with
    none it runs until the key is let go, which `QuietFrom` guarantees.
   */
  method AwaitRelease(o: Oracle, ls: seq<Level>, c: nat, pressed: Level, t0: int, poll: nat,
                      limit: Option<nat>, ghost horizon: int)
    returns (polls: seq<int>, t: int)
    requires poll > 0
    requires limit.None? ==> QuietFrom(o, pressed, horizon)
    ensures Waited(o, ls, c, pressed, t0, poll, limit, polls, t)
    ensures t >= t0
  {
    polls := [];
    t := t0;
    while o(ls, c, t) == pressed
      invariant t >= t0
      invariant Evenly(polls, t0, poll)
      invariant forall k :: 0 <= k < |polls| ==> o(ls, c, polls[k]) == pressed
      invariant t == (if |polls| == 0 then t0 else polls[|polls| - 1] + poll)
      invariant limit.Some? ==> t - t0 <= limit.value
      invariant limit.Some? ==> forall k :: 0 <= k < |polls| ==> polls[k] - t0 <= limit.value
      decreases if limit.Some? then limit.value - (t - t0) + 1 else horizon - t
    {
      EvenlySnoc(polls, t0, poll, t);
      polls := polls + [t];
      t := t + poll;
      if limit.Some? && t - t0 > limit.value {
        return;
      }
    }
  }
}
