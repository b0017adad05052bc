/**
 * The expanding lookback window: Options in seaplane-dynamo/dynamodb/watcher.go and the windows
 * that successive fast polls query after one relist.
 */
module LookbackWindows {
  import opened Common
  import opened StubCache

  const SECOND := 1_000_000_000
  const DEFAULT_POLL_INTERVAL := 15 * SECOND
  const DEFAULT_RELIST_INTERVAL := 300 * SECOND
  const GSI_SHARD_COUNT := 4

  datatype Options = Options(pollInterval: int, relistInterval: int, maxLookbackWindow: int, shardCount: int) {

    function PollInterval(): (d: int)
      ensures d > 0 && (pollInterval > 0 ==> d == pollInterval)
      ensures pollInterval <= 0 ==> d == 15_000_000_000
    {
      if pollInterval <= 0 then DEFAULT_POLL_INTERVAL else pollInterval
    }

    function RelistInterval(): (d: int)
      ensures d > 0 && (relistInterval > 0 ==> d == relistInterval)
      ensures relistInterval <= 0 ==> d == 300_000_000_000
    {
      if relistInterval <= 0 then DEFAULT_RELIST_INTERVAL else relistInterval
    }

    function MaxLookbackWindow(): (d: int)
      ensures 0 < d <= RelistInterval()
      ensures 0 < maxLookbackWindow <= RelistInterval() ==> d == maxLookbackWindow
      ensures !(0 < maxLookbackWindow <= RelistInterval()) ==> d == RelistInterval()
    {
      var relist := RelistInterval();
      if maxLookbackWindow <= 0 || maxLookbackWindow > relist then relist else maxLookbackWindow
    }

    function ShardCount(): (n: int)
      ensures n > 0 && (shardCount > 0 ==> n == shardCount)
      ensures shardCount <= 0 ==> n == 4
    {
      if shardCount <= 0 then GSI_SHARD_COUNT else shardCount
    }
  }

  // The lower end of the window of a poll that reads the clock once, at `now`.
  function Since(stamp: Time, cap: int, now: Time): Time {
    now - Lookback(Some(stamp), cap, now)
  }

  ghost predicate InWindow(stamp: Time, cap: int, now: Time, t: Time) {
    Since(stamp, cap, now) <= t <= now
  }

  ghost predicate Ordered(stamp: Time, polls: seq<Time>) {
    && (|polls| > 0 ==> stamp <= polls[0])
    && (forall i | 0 < i < |polls| :: polls[i - 1] <= polls[i])
  }

  // Instants are whole nanoseconds, so two windows meet when the later begins at most one after
  // the end of the earlier.
  ghost predicate Spaced(stamp: Time, cap: int, polls: seq<Time>) {
    && (|polls| > 0 ==> polls[0] - stamp <= cap)
    && (forall i | 0 < i < |polls| :: polls[i] - polls[i - 1] <= cap + 1)
  }

  ghost predicate Seen(stamp: Time, cap: int, polls: seq<Time>, t: Time) {
    exists k :: 0 <= k < |polls| && InWindow(stamp, cap, polls[k], t)
  }

  ghost predicate NoHole(stamp: Time, cap: int, polls: seq<Time>) {
    forall t | |polls| > 0 && stamp <= t <= polls[|polls| - 1] :: Seen(stamp, cap, polls, t)
  }

  lemma {:induction false} SpacedPollsSee(stamp: Time, cap: nat, polls: seq<Time>, t: Time)
    requires |polls| > 0 && Ordered(stamp, polls) && Spaced(stamp, cap, polls)
    requires stamp <= t <= polls[|polls| - 1]
    ensures Seen(stamp, cap, polls, t)
  {
    var last := |polls| - 1;
    if InWindow(stamp, cap, polls[last], t) {
    } else {
      assert last > 0;
      var earlier := polls[..last];
      SpacedPollsSee(stamp, cap, earlier, t);
      var k :| 0 <= k < |earlier| && InWindow(stamp, cap, earlier[k], t);
      assert polls[k] == earlier[k];
    }
  }

  lemma {:induction false} OrderedUpTo(stamp: Time, polls: seq<Time>, i: nat, j: nat)
    requires Ordered(stamp, polls) && i <= j < |polls|
    ensures stamp <= polls[i] <= polls[j]
    decreases j
  {
    if i < j {
      OrderedUpTo(stamp, polls, i, j - 1);
    } else if i > 0 {
      OrderedUpTo(stamp, polls, i - 1, i - 1);
    }
  }

  // A gap that is too wide leaves the first instant after the earlier poll unseen.
  lemma WideGapIsAHole(stamp: Time, cap: nat, polls: seq<Time>, i: nat)
    requires Ordered(stamp, polls) && i < |polls|
    requires if i == 0 then polls[0] - stamp > cap else polls[i] - polls[i - 1] > cap + 1
    ensures !NoHole(stamp, cap, polls)
  {
    var t := if i == 0 then stamp else polls[i - 1] + 1;
    forall k | 0 <= k < |polls|
      ensures !InWindow(stamp, cap, polls[k], t)
    {
      if k < i {
        OrderedUpTo(stamp, polls, k, i - 1);
      } else {
        OrderedUpTo(stamp, polls, i, k);
      }
    }
    OrderedUpTo(stamp, polls, if i == 0 then 0 else i - 1, i);
    OrderedUpTo(stamp, polls, i, |polls| - 1);
    assert stamp <= t <= polls[|polls| - 1];
    assert !Seen(stamp, cap, polls, t);
  }

  /**
   * After a relist stamped `stamp`, the windows of the polls leave no hole between the stamp and the
   * latest poll exactly when the polls keep up with the cap. No window exceeds the cap, and none
   * reaches before the relist.
   */
  lemma WindowsLeaveNoHole(stamp: Time, cap: nat, polls: seq<Time>)
    requires Ordered(stamp, polls)
    ensures NoHole(stamp, cap, polls) <==> Spaced(stamp, cap, polls)
    ensures forall k | 0 <= k < |polls| ::
              stamp <= Since(stamp, cap, polls[k]) <= polls[k] && polls[k] - Since(stamp, cap, polls[k]) <= cap
  {
    forall k | 0 <= k < |polls|
      ensures stamp <= Since(stamp, cap, polls[k]) <= polls[k]
    {
      OrderedUpTo(stamp, polls, k, k);
    }
    if Spaced(stamp, cap, polls) {
      forall t | |polls| > 0 && stamp <= t <= polls[|polls| - 1]
        ensures Seen(stamp, cap, polls, t)
      {
        SpacedPollsSee(stamp, cap, polls, t);
      }
    } else if polls[0] - stamp > cap {
      WideGapIsAHole(stamp, cap, polls, 0);
    } else {
      var i :| 0 < i < |polls| && polls[i] - polls[i - 1] > cap + 1;
      WideGapIsAHole(stamp, cap, polls, i);
    }
  }
}
