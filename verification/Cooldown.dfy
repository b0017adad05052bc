/** internal/controllerutils/cooldown.go: the cooldown gate over a bounded LRU cache. */
module Cooldown {
  import opened Common
  import opened Keys

  // The LRU cache of k8s.io/utils/lru: a map, and its keys with the most recently used first.
  datatype Lru = Lru(times: map<Key, Time>, order: seq<Key>)

  function Remove(order: seq<Key>, key: Key): seq<Key> {
    if order == [] then []
    else if order[0] == key then Remove(order[1..], key)
    else [order[0]] + Remove(order[1..], key)
  }

  predicate Distinct(order: seq<Key>) {
    order == [] || (order[0] !in order[1..] && Distinct(order[1..]))
  }

  // The map and the recency list hold the same keys.
  ghost predicate Consistent(cache: Lru) {
    Distinct(cache.order) && Elements(cache.order) == cache.times.Keys
  }

  function Find(cache: Lru, key: Key): Option<Time> {
    if key in cache.times then Some(cache.times[key]) else None
  }

  // Get moves a hit to the front.
  function Touched(cache: Lru, key: Key): Lru {
    if key in cache.times then cache.(order := [key] + Remove(cache.order, key)) else cache
  }

  function InFirstPlace(cache: Lru, key: Key, next: Time): Lru {
    Lru(cache.times[key := next], [key] + Remove(cache.order, key))
  }

  // The oldest key beyond the capacity is dropped.
  function Trimmed(all: Lru, capacity: nat): Lru {
    if capacity != 0 && |all.order| > capacity then
      Lru(all.times - {all.order[|all.order| - 1]}, all.order[..|all.order| - 1])
    else all
  }

  // Add puts the key in front.
  function Added(cache: Lru, key: Key, next: Time, capacity: nat): Lru {
    Trimmed(InFirstPlace(cache, key, next), capacity)
  }

  // CanSync: whether a call is granted, and the cache afterwards.
  predicate Allowed(cache: Lru, key: Key, now: Time) {
    match Find(cache, key) case None => true case Some(next) => next < now
  }

  function After(cache: Lru, key: Key, now: Time, period: int, capacity: nat): Lru {
    if Allowed(cache, key, now) then Added(Touched(cache, key), key, now + period, capacity)
    else Touched(cache, key)
  }

  const CAPACITY := 1_000_000

  class TimeBasedCooldownChecker {
    const period: int
    const capacity: nat
    var cache: Lru

    ghost predicate Valid()
      reads this
    {
      Consistent(cache)
    }

    constructor (period: int, capacity: nat := CAPACITY)
      ensures Valid() && this.period == period && this.capacity == capacity && cache == Lru(map[], [])
    {
      this.period := period;
      this.capacity := capacity;
      this.cache := Lru(map[], []);
    }

    method MoveToFront(key: Key)
      modifies this
      ensures cache == old(cache).(order := [key] + Remove(old(cache).order, key))
      ensures Distinct(old(cache).order) ==> Distinct(cache.order)
      ensures forall k | k in cache.order :: k == key || k in old(cache).order
      ensures forall k | k == key || k in old(cache).order :: k in cache.order
    {
      RemovedOnce(cache.order, key);
      assert ([key] + Remove(cache.order, key))[1..] == Remove(cache.order, key);
      cache := cache.(order := [key] + Remove(cache.order, key));
    }

    method Get(key: Key) returns (r: Option<Time>)
      requires Valid()
      modifies this
      ensures Valid() && cache == Touched(old(cache), key) && r == Find(old(cache), key)
    {
      if key !in cache.times {
        return None;
      }
      MoveToFront(key);
      return Some(cache.times[key]);
    }

    method Add(key: Key, next: Time)
      requires Valid()
      modifies this
      ensures Valid() && cache == Added(old(cache), key, next, capacity)
    {
      MoveToFront(key);
      cache := cache.(times := cache.times[key := next]);
      if capacity != 0 && |cache.order| > capacity {
        var n := |cache.order| - 1;
        LastOut(cache.order, cache.times);
        cache := Lru(cache.times - {cache.order[n]}, cache.order[..n]);
      }
    }

    method CanSync(key: Key, now: Time) returns (granted: bool)
      requires Valid()
      modifies this
      ensures Valid() && granted == Allowed(old(cache), key, now)
      ensures cache == if granted then Added(Touched(old(cache), key), key, now + period, capacity)
              else Touched(old(cache), key)
    {
      var next := Get(key);
      if next.None? || now > next.value {
        Add(key, now + period);
        return true;
      }
      return false;
    }
  }

  lemma {:induction false} DistinctPrefix(kept: seq<Key>, last: Key)
    requires Distinct(kept + [last])
    ensures Distinct(kept) && last !in kept
  {
    if kept != [] {
      var all := kept + [last];
      assert all[1..] == kept[1..] + [last];
      DistinctPrefix(kept[1..], last);
      assert forall k | k in kept[1..] :: k in all[1..];
      assert last in all[1..] && kept[0] == all[0];
      assert kept == [kept[0]] + kept[1..];
    }
  }

  lemma {:induction false} DistinctCount(order: seq<Key>)
    requires Distinct(order)
    ensures |Elements(order)| == |order|
  {
    if order != [] {
      DistinctCount(order[1..]);
      assert order == [order[0]] + order[1..];
      ElementsOfConcat([order[0]], order[1..]);
      assert Elements([order[0]]) == {order[0]};
    }
  }

  lemma LastOut(order: seq<Key>, times: map<Key, Time>)
    requires order != [] && Consistent(Lru(times, order))
    ensures var n := |order| - 1; Consistent(Lru(times - {order[n]}, order[..n]))
  {
    var kept, last := order[..|order| - 1], order[|order| - 1];
    assert order == kept + [last];
    DistinctPrefix(kept, last);
    assert forall k :: k in order <==> k in kept || k == last;
  }

  lemma {:induction false} RemovedOnce(order: seq<Key>, key: Key)
    ensures forall k | k in Remove(order, key) :: k in order && k != key
    ensures forall k | k in order && k != key :: k in Remove(order, key)
    ensures Distinct(order) ==> Distinct(Remove(order, key))
    ensures |Remove(order, key)| <= |order|
  {
    if order != [] {
      var tail := order[1..];
      RemovedOnce(tail, key);
      assert order == [order[0]] + tail;
      assert ([order[0]] + Remove(tail, key))[1..] == Remove(tail, key);
    }
  }

  lemma Subset(a: set<Key>, b: set<Key>)
    requires a <= b
    ensures |a| <= |b|
  {
    assert b == a + (b - a);
  }

  // The key that was just added is not the one that is dropped.
  lemma FirstIsNotTrimmed(all: Lru, key: Key, capacity: nat)
    requires Consistent(all) && capacity != 0 && all.order != [] && all.order[0] == key
    ensures key in all.times && Find(Trimmed(all, capacity), key) == Some(all.times[key])
  {
    assert key in Elements(all.order);
    if |all.order| > capacity {
      var kept, last := all.order[..|all.order| - 1], all.order[|all.order| - 1];
      assert all.order == kept + [last];
      DistinctPrefix(kept, last);
      assert kept[0] == key;
    }
  }

  lemma AddedIsFound(cache: Lru, key: Key, next: Time, capacity: nat)
    requires Consistent(cache) && capacity != 0
    ensures Find(Added(cache, key, next, capacity), key) == Some(next)
  {
    var all := InFirstPlace(cache, key, next);
    FrontIsConsistent(cache, all, key);
    FirstIsNotTrimmed(all, key, capacity);
  }

  // A key that was just granted is granted again exactly when the period is over.
  lemma RefusedWithinThePeriod(cache: Lru, key: Key, now: Time, later: Time, period: int, capacity: nat)
    requires Consistent(cache) && Allowed(cache, key, now) && capacity != 0
    ensures Allowed(After(cache, key, now, period, capacity), key, later) <==> later - now > period
  {
    var after := After(cache, key, now, period, capacity);
    GrantedOrRefused(cache, after, key, now, period, capacity);
    AddedIsFound(cache, key, now + period, capacity);
  }

  // ---- recency ---------------------------------------------------------------------------------

  // The keys in front of a key in the recency list; all of them when it is not there.
  function InFront(order: seq<Key>, key: Key): set<Key> {
    if order == [] || order[0] == key then {} else {order[0]} + InFront(order[1..], key)
  }

  lemma {:induction false} InFrontAfterRemove(order: seq<Key>, key: Key, other: Key)
    requires other != key
    ensures InFront(Remove(order, key), other) == InFront(order, other) - {key}
  {
    if order != [] {
      InFrontAfterRemove(order[1..], key, other);
      if order[0] != key {
        var rest := Remove(order[1..], key);
        assert ([order[0]] + rest)[1..] == rest;
      }
    }
  }

  lemma {:induction false} InFrontAreOthers(order: seq<Key>, key: Key)
    ensures InFront(order, key) <= Elements(order) - {key}
  {
    if order != [] && order[0] != key {
      InFrontAreOthers(order[1..], key);
      assert forall k | k in order[1..] :: k in order;
    }
  }

  // Keys added at the end stand behind those that are there.
  lemma {:induction false} InFrontOfPrefix(order: seq<Key>, rest: seq<Key>, key: Key)
    requires key in order
    ensures InFront(order + rest, key) == InFront(order, key)
  {
    if order[0] != key {
      assert (order + rest)[1..] == order[1..] + rest;
      InFrontOfPrefix(order[1..], rest, key);
    }
  }

  lemma {:induction false} InFrontOfLast(order: seq<Key>, key: Key)
    requires key !in order
    ensures InFront(order + [key], key) == Elements(order)
  {
    if order != [] {
      assert (order + [key])[1..] == order[1..] + [key];
      InFrontOfLast(order[1..], key);
      assert order == [order[0]] + order[1..];
      ElementsOfConcat([order[0]], order[1..]);
      assert Elements([order[0]]) == {order[0]};
    } else {
      assert [] + [key] == [key];
    }
  }

  lemma FewerInFront(order: seq<Key>, key: Key)
    requires Distinct(order) && key in order
    ensures |InFront(order, key)| < |order|
  {
    InFrontAreOthers(order, key);
    DistinctCount(order);
    Subset(InFront(order, key), Elements(order) - {key});
  }

  // ---- runs ------------------------------------------------------------------------------------

  datatype Ask = Ask(key: Key, now: Time)

  ghost predicate Step(cache: Lru, cache': Lru, a: Ask, granted: bool, period: int, capacity: nat) {
    granted == Allowed(cache, a.key, a.now) && cache' == After(cache, a.key, a.now, period, capacity)
  }

  // Calls one after the other under a clock that never goes back; granted[i] is the answer to call i.
  ghost predicate Run(states: seq<Lru>, asks: seq<Ask>, granted: seq<bool>, period: int, capacity: nat) {
    && |states| == |asks| + 1 && |granted| == |asks|
    && states[0] == Lru(map[], [])
    && (forall i | 0 <= i < |asks| ::
         Step(states[i], states[i + 1], asks[i], granted[i], period, capacity))
    && (forall i | 0 < i < |asks| :: asks[i - 1].now <= asks[i].now)
  }

  predicate Asked(asks: seq<Ask>, n: nat, key: Key)
    requires n <= |asks|
  {
    n > 0 && (asks[n - 1].key == key || Asked(asks, n - 1, key))
  }

  // The other keys asked since the key was last asked, among the first n calls.
  function OthersSince(asks: seq<Ask>, n: nat, key: Key): set<Key>
    requires n <= |asks|
  {
    if n == 0 || asks[n - 1].key == key then {} else OthersSince(asks, n - 1, key) + {asks[n - 1].key}
  }

  // The latest of the first n calls that was granted for the key.
  function LastGrant(asks: seq<Ask>, granted: seq<bool>, n: nat, key: Key): Option<Time>
    requires n <= |asks| == |granted|
  {
    if n == 0 then None
    else if granted[n - 1] && asks[n - 1].key == key then Some(asks[n - 1].now)
    else LastGrant(asks, granted, n - 1, key)
  }

  function NextTime(last: Option<Time>, period: int): Option<Time> {
    match last case None => None case Some(t) => Some(t + period)
  }

  // So many other keys push a key out; a capacity of 0 is no limit.
  predicate PushedOut(asks: seq<Ask>, n: nat, key: Key, capacity: nat)
    requires n <= |asks|
  {
    capacity != 0 && |OthersSince(asks, n, key)| >= capacity
  }

  // In front of a listed key stand the keys asked since; the other asked keys are pushed out.
  ghost predicate ByRecency(order: seq<Key>, asks: seq<Ask>, n: nat, capacity: nat)
    requires n <= |asks|
  {
    && (forall k | k in order :: Asked(asks, n, k) && OthersSince(asks, n, k) == InFront(order, k))
    && (forall k | k !in order && Asked(asks, n, k) :: PushedOut(asks, n, k, capacity))
  }

  ghost predicate Recency(cache: Lru, asks: seq<Ask>, n: nat, capacity: nat)
    requires n <= |asks|
  {
    && Consistent(cache)
    && (capacity != 0 ==> |cache.order| <= capacity)
    && ByRecency(cache.order, asks, n, capacity)
  }

  // Asking for a key puts it in front; the cache still holds every key.
  lemma FrontKeepsRecency(cache: Lru, asks: seq<Ask>, n: nat, front: seq<Key>, k: Key)
    requires n < |asks| && Consistent(cache)
    requires front == [asks[n].key] + Remove(cache.order, asks[n].key)
    requires k in cache.order ==> Asked(asks, n, k) && OthersSince(asks, n, k) == InFront(cache.order, k)
    ensures k in front <==> k == asks[n].key || k in cache.order
    ensures k in front ==> Asked(asks, n + 1, k) && OthersSince(asks, n + 1, k) == InFront(front, k)
  {
    var key := asks[n].key;
    RemovedOnce(cache.order, key);
    assert front[1..] == Remove(cache.order, key);
    if k in front && k != key {
      assert k in front[1..];
      InFrontAfterRemove(cache.order, key, k);
    }
  }

  // A key that is not held stays pushed out until it is asked again.
  lemma PushedOutStays(asks: seq<Ask>, n: nat, key: Key, capacity: nat)
    requires n < |asks| && asks[n].key != key && PushedOut(asks, n, key, capacity)
    ensures PushedOut(asks, n + 1, key, capacity)
  {
    Subset(OthersSince(asks, n, key), OthersSince(asks, n + 1, key));
  }

  lemma FrontIsConsistent(cache: Lru, all: Lru, key: Key)
    requires Consistent(cache) && all.order == [key] + Remove(cache.order, key)
    requires forall k :: k in all.times <==> k == key || k in cache.times
    ensures Consistent(all) && |all.order| <= |cache.order| + 1
  {
    RemovedOnce(cache.order, key);
    assert all.order[1..] == Remove(cache.order, key);
  }

  // The cache after a call, before the oldest key is dropped.
  lemma AskKeepsRecency(cache: Lru, all: Lru, asks: seq<Ask>, n: nat, capacity: nat)
    requires n < |asks| && Recency(cache, asks, n, capacity)
    requires all.order == [asks[n].key] + Remove(cache.order, asks[n].key)
    requires forall k :: k in all.times <==> k == asks[n].key || k in cache.times
    ensures Consistent(all) && |all.order| <= |cache.order| + 1
    ensures ByRecency(all.order, asks, n + 1, capacity)
  {
    FrontIsConsistent(cache, all, asks[n].key);
    forall k | k in all.order
      ensures Asked(asks, n + 1, k) && OthersSince(asks, n + 1, k) == InFront(all.order, k)
    {
      FrontKeepsRecency(cache, asks, n, all.order, k);
    }
    forall k | k !in all.order && Asked(asks, n + 1, k)
      ensures PushedOut(asks, n + 1, k, capacity)
    {
      FrontKeepsRecency(cache, asks, n, all.order, k);
      PushedOutStays(asks, n, k, capacity);
    }
  }

  // Dropping the oldest key of a cache that is one over.
  lemma DropKeepsRecency(all: Lru, asks: seq<Ask>, n: nat, capacity: nat, cache': Lru)
    requires n <= |asks| && Consistent(all) && 0 < capacity == |all.order| - 1
    requires ByRecency(all.order, asks, n, capacity)
    requires cache' == Lru(all.times - {all.order[capacity]}, all.order[..capacity])
    ensures Recency(cache', asks, n, capacity)
  {
    LastOut(all.order, all.times);
    var kept, last := cache'.order, all.order[capacity];
    assert all.order == kept + [last];
    forall k | k in kept
      ensures Asked(asks, n, k) && OthersSince(asks, n, k) == InFront(kept, k)
    {
      assert k in all.order;
      InFrontOfPrefix(kept, [last], k);
    }
    DistinctPrefix(kept, last);
    InFrontOfLast(kept, last);
    DistinctCount(kept);
    assert last in all.order;
    assert PushedOut(asks, n, last, capacity);
    assert forall k | k in all.order :: k in kept || k == last;
  }

  lemma TouchedIsRemoved(cache: Lru, key: Key)
    requires Consistent(cache)
    ensures [key] + Remove(Touched(cache, key).order, key) == [key] + Remove(cache.order, key)
  {
    if key in cache.times {
      RemovedOnce(cache.order, key);
      var rest := Remove(cache.order, key);
      assert ([key] + rest)[1..] == rest;
      RemovedIsGone(rest, key);
    }
  }

  lemma {:induction false} RemovedIsGone(order: seq<Key>, key: Key)
    requires key !in order
    ensures Remove(order, key) == order
  {
    if order != [] {
      RemovedIsGone(order[1..], key);
    }
  }

  lemma TrimKeepsRecency(all: Lru, cache': Lru, asks: seq<Ask>, n: nat, capacity: nat)
    requires n <= |asks| && Consistent(all)
    requires capacity != 0 ==> |all.order| <= capacity + 1
    requires ByRecency(all.order, asks, n, capacity) && cache' == Trimmed(all, capacity)
    ensures Recency(cache', asks, n, capacity)
  {
    if capacity != 0 && |all.order| > capacity {
      DropKeepsRecency(all, asks, n, capacity, cache');
    }
  }

  lemma AddKeepsRecency(cache: Lru, cache': Lru, asks: seq<Ask>, n: nat, next: Time, capacity: nat)
    requires n < |asks| && Recency(cache, asks, n, capacity)
    requires cache' == Added(cache, asks[n].key, next, capacity)
    ensures Recency(cache', asks, n + 1, capacity)
  {
    var all := InFirstPlace(cache, asks[n].key, next);
    AskKeepsRecency(cache, all, asks, n, capacity);
    TrimKeepsRecency(all, cache', asks, n + 1, capacity);
  }

  lemma TouchKeepsRecency(cache: Lru, cache': Lru, asks: seq<Ask>, n: nat, capacity: nat)
    requires n < |asks| && Recency(cache, asks, n, capacity)
    requires asks[n].key in cache.times && cache' == Touched(cache, asks[n].key)
    ensures Recency(cache', asks, n + 1, capacity)
  {
    AskKeepsRecency(cache, cache', asks, n, capacity);
    DistinctCount(cache.order);
    DistinctCount(cache'.order);
  }

  // A grant adds, a refusal touches.
  lemma GrantedOrRefused(cache: Lru, cache': Lru, key: Key, now: Time, period: int, capacity: nat)
    requires Consistent(cache) && cache' == After(cache, key, now, period, capacity)
    ensures if Allowed(cache, key, now) then cache' == Added(cache, key, now + period, capacity)
            else key in cache.times && cache' == Touched(cache, key)
  {
    TouchedIsRemoved(cache, key);
  }

  lemma StepKeepsRecency(cache: Lru, cache': Lru, asks: seq<Ask>, n: nat, period: int, capacity: nat)
    requires n < |asks| && Recency(cache, asks, n, capacity)
    requires cache' == After(cache, asks[n].key, asks[n].now, period, capacity)
    ensures Recency(cache', asks, n + 1, capacity)
  {
    var a := asks[n];
    GrantedOrRefused(cache, cache', a.key, a.now, period, capacity);
    if Allowed(cache, a.key, a.now) {
      AddKeepsRecency(cache, cache', asks, n, a.now + period, capacity);
    } else {
      TouchKeepsRecency(cache, cache', asks, n, capacity);
    }
  }

  // What is held is the time of the latest grant.
  lemma StepKeepsTimes(
      cache: Lru, cache': Lru, a: Ask, granted: bool, period: int, capacity: nat, key: Key, last: Option<Time>)
    requires Step(cache, cache', a, granted, period, capacity)
    requires key in cache.times ==> Find(cache, key) == NextTime(last, period)
    ensures key in cache'.times ==>
            Find(cache', key) == NextTime(if granted && a.key == key then Some(a.now) else last, period)
  {
  }

  lemma {:induction false} CacheHoldsLastGrants(
      states: seq<Lru>, asks: seq<Ask>, granted: seq<bool>, period: int, capacity: nat, n: nat, key: Key)
    requires Run(states, asks, granted, period, capacity) && n <= |asks|
    ensures Recency(states[n], asks, n, capacity)
    ensures key in states[n].times ==> Find(states[n], key) == NextTime(LastGrant(asks, granted, n, key), period)
  {
    if n > 0 {
      CacheHoldsLastGrants(states, asks, granted, period, capacity, n - 1, key);
      assert Step(states[n - 1], states[n], asks[n - 1], granted[n - 1], period, capacity);
      StepKeepsRecency(states[n - 1], states[n], asks, n - 1, period, capacity);
      StepKeepsTimes(states[n - 1], states[n], asks[n - 1], granted[n - 1], period, capacity, key,
                     LastGrant(asks, granted, n - 1, key));
    }
  }

  /** The LRU cache holds exactly the keys that were asked and not pushed out since. */
  lemma HeldExactly(
      states: seq<Lru>, asks: seq<Ask>, granted: seq<bool>, period: int, capacity: nat, n: nat, key: Key)
    requires Run(states, asks, granted, period, capacity) && n <= |asks|
    ensures key in states[n].times <==> Asked(asks, n, key) && !PushedOut(asks, n, key, capacity)
  {
    CacheHoldsLastGrants(states, asks, granted, period, capacity, n, key);
    if key in states[n].times {
      FewerInFront(states[n].order, key);
    }
  }

  lemma {:induction false} ClockNeverGoesBack(
      states: seq<Lru>, asks: seq<Ask>, granted: seq<bool>, period: int, capacity: nat, i: nat, j: nat)
    requires Run(states, asks, granted, period, capacity) && i <= j < |asks|
    ensures asks[i].now <= asks[j].now
  {
    if i < j {
      ClockNeverGoesBack(states, asks, granted, period, capacity, i, j - 1);
    }
  }

  lemma {:induction false} LastGrantIsLatest(
      states: seq<Lru>, asks: seq<Ask>, granted: seq<bool>, period: int, capacity: nat, n: nat, key: Key)
    requires Run(states, asks, granted, period, capacity) && n <= |asks|
    ensures match LastGrant(asks, granted, n, key)
            case None => forall i | 0 <= i < n && granted[i] :: asks[i].key != key
            case Some(t) =>
              && (forall i | 0 <= i < n && granted[i] && asks[i].key == key :: asks[i].now <= t)
              && (exists i :: 0 <= i < n && granted[i] && asks[i].key == key && asks[i].now == t)
  {
    if n > 0 {
      LastGrantIsLatest(states, asks, granted, period, capacity, n - 1, key);
      forall i | 0 <= i < n
        ensures asks[i].now <= asks[n - 1].now
      {
        ClockNeverGoesBack(states, asks, granted, period, capacity, i, n - 1);
      }
    }
  }

  // A key that was granted was asked.
  lemma {:induction false} GrantedWasAsked(asks: seq<Ask>, n: nat, i: nat)
    requires i < n <= |asks|
    ensures Asked(asks, n, asks[i].key)
  {
    if i < n - 1 {
      GrantedWasAsked(asks, n - 1, i);
    }
  }

  /**
   * A call is granted if and only if every earlier grant of the same key is more than the period ago,
   * or at least `capacity` distinct other keys were asked since the key was last asked. Refused calls
   * and fewer other keys have no say in it.
   */
  lemma GrantedExactly(states: seq<Lru>, asks: seq<Ask>, granted: seq<bool>, period: int, capacity: nat, n: nat)
    requires Run(states, asks, granted, period, capacity) && n < |asks|
    ensures granted[n] <==>
            || (forall i | 0 <= i < n && granted[i] && asks[i].key == asks[n].key :: asks[n].now - asks[i].now > period)
            || PushedOut(asks, n, asks[n].key, capacity)
  {
    var a := asks[n];
    CacheHoldsLastGrants(states, asks, granted, period, capacity, n, a.key);
    HeldExactly(states, asks, granted, period, capacity, n, a.key);
    LastGrantIsLatest(states, asks, granted, period, capacity, n, a.key);
    assert Step(states[n], states[n + 1], a, granted[n], period, capacity);
    forall i | 0 <= i < n && granted[i] && asks[i].key == a.key
      ensures Asked(asks, n, a.key)
    {
      GrantedWasAsked(asks, n, i);
    }
  }

  // The cache has room for every key that is ever asked about.
  ghost predicate Room(asks: seq<Ask>, known: set<Key>, capacity: nat) {
    |known| <= capacity && forall i | 0 <= i < |asks| :: asks[i].key in known
  }

  lemma {:induction false} OthersAreKnown(asks: seq<Ask>, known: set<Key>, capacity: nat, n: nat, key: Key)
    requires Room(asks, known, capacity) && n <= |asks|
    ensures OthersSince(asks, n, key) <= known - {key}
  {
    if n > 0 {
      OthersAreKnown(asks, known, capacity, n - 1, key);
    }
  }

  // With room for all keys only the period counts.
  lemma GrantedExactlyAfterThePeriod(
      states: seq<Lru>, asks: seq<Ask>, granted: seq<bool>, period: int, capacity: nat, known: set<Key>, n: nat)
    requires Run(states, asks, granted, period, capacity) && Room(asks, known, capacity) && n < |asks|
    ensures granted[n] <==>
            forall i | 0 <= i < n && granted[i] && asks[i].key == asks[n].key :: asks[n].now - asks[i].now > period
  {
    GrantedExactly(states, asks, granted, period, capacity, n);
    OthersAreKnown(asks, known, capacity, n, asks[n].key);
    assert |known - {asks[n].key}| == |known| - 1;
    Subset(OthersSince(asks, n, asks[n].key), known - {asks[n].key});
  }

  // Grants of the key among the first n calls at or after `from`.
  function Grants(asks: seq<Ask>, granted: seq<bool>, n: nat, key: Key, from: Time): nat
    requires n <= |asks| == |granted|
  {
    if n == 0 then 0
    else Grants(asks, granted, n - 1, key, from)
         + (if granted[n - 1] && asks[n - 1].key == key && asks[n - 1].now >= from then 1 else 0)
  }

  lemma {:induction false} GrantsSpreadOut(
      states: seq<Lru>, asks: seq<Ask>, granted: seq<bool>, period: nat, capacity: nat,
      known: set<Key>, n: nat, key: Key, from: Time) returns (last: nat)
    requires Run(states, asks, granted, period, capacity) && Room(asks, known, capacity) && n <= |asks|
    requires Grants(asks, granted, n, key, from) > 0
    ensures last < n && granted[last] && asks[last].key == key && asks[last].now >= from
    ensures asks[last].now - from >= (Grants(asks, granted, n, key, from) - 1) * (period + 1)
  {
    var a := asks[n - 1];
    if granted[n - 1] && a.key == key && a.now >= from {
      last := n - 1;
      var earlier := Grants(asks, granted, n - 1, key, from);
      if earlier > 0 {
        var before := GrantsSpreadOut(states, asks, granted, period, capacity, known, n - 1, key, from);
        GrantedExactlyAfterThePeriod(states, asks, granted, period, capacity, known, n - 1);
        assert (earlier - 1) * (period + 1) + (period + 1) == earlier * (period + 1);
      }
    } else {
      last := GrantsSpreadOut(states, asks, granted, period, capacity, known, n - 1, key, from);
    }
  }

  /**
   * The rate bound: among calls no later than `from + w`, at most w / period + 1 grants of one key
   * fall at or after `from`.
   */
  lemma RateBound(
      states: seq<Lru>, asks: seq<Ask>, granted: seq<bool>, period: nat, capacity: nat,
      known: set<Key>, n: nat, key: Key, from: Time, w: nat)
    requires Run(states, asks, granted, period, capacity) && Room(asks, known, capacity) && n <= |asks|
    requires period > 0 && forall i | 0 <= i < n :: asks[i].now <= from + w
    ensures Grants(asks, granted, n, key, from) <= w / period + 1
  {
    var count := Grants(asks, granted, n, key, from);
    if count > 0 {
      var last := GrantsSpreadOut(states, asks, granted, period, capacity, known, n, key, from);
      assert (count - 1) * (period + 1) == (count - 1) * period + (count - 1);
      Quotient(count - 1, period, w);
    }
  }

  lemma Quotient(k: nat, period: nat, w: nat)
    requires period > 0 && k * period <= w
    ensures k <= w / period
  {
    var q := w / period;
    assert w == q * period + w % period;
    assert (k - q) * period == k * period - q * period;
    LessThanOne(k - q, period);
  }

  lemma LessThanOne(d: int, period: nat)
    requires d * period < period
    ensures d < 1
  {
  }

  // Any calls at one instant, answered by the cache.
  lemma {:induction false} Answered(asks: seq<Ask>, period: int, capacity: nat)
      returns (states: seq<Lru>, granted: seq<bool>)
    requires forall i | 0 <= i < |asks| :: asks[i].now == 0
    ensures Run(states, asks, granted, period, capacity)
  {
    if asks == [] {
      states, granted := [Lru(map[], [])], [];
    } else {
      var n := |asks| - 1;
      var earlier, answers := Answered(asks[..n], period, capacity);
      var a := asks[n];
      states := earlier + [After(earlier[n], a.key, a.now, period, capacity)];
      granted := answers + [Allowed(earlier[n], a.key, a.now)];
      forall i | 0 <= i < |asks|
        ensures Step(states[i], states[i + 1], asks[i], granted[i], period, capacity)
      {
        if i < n {
          assert asks[..n][i] == asks[i] && states[i] == earlier[i] && states[i + 1] == earlier[i + 1]
                 && granted[i] == answers[i];
          assert Step(earlier[i], earlier[i + 1], asks[..n][i], answers[i], period, capacity);
        }
      }
    }
  }

  lemma {:induction false} OthersAreTheRest(asks: seq<Ask>, keys: seq<Key>, n: nat)
    requires keys != [] && keys[0] !in keys[1..] && 0 < n <= |keys| <= |asks|
    requires forall i | 0 <= i < |keys| :: asks[i].key == keys[i]
    ensures OthersSince(asks, n, keys[0]) == Elements(keys[1..n])
  {
    if n > 1 {
      OthersAreTheRest(asks, keys, n - 1);
      var before, key := keys[1..n - 1], keys[n - 1];
      assert keys[1..n] == before + [key];
      ElementsOfConcat(before, [key]);
      assert Elements([key]) == {key};
      assert key == keys[1..][n - 2];
    } else {
      assert keys[1..1] == [];
    }
  }

  lemma FirstIsPushedOut(asks: seq<Ask>, keys: seq<Key>, capacity: nat)
    requires capacity > 0 && |keys| == capacity + 1 <= |asks| && Distinct(keys)
    requires forall i | 0 <= i < |keys| :: asks[i].key == keys[i]
    ensures PushedOut(asks, |keys|, keys[0], capacity)
  {
    OthersAreTheRest(asks, keys, |keys|);
    assert keys[1..|keys|] == keys[1..];
    DistinctCount(keys[1..]);
  }

  // Room for all keys is needed, for every capacity and period: asked once more after `capacity` other
  // keys, a key is granted a second time within the same instant.
  lemma EvictionForgets(keys: seq<Key>, period: int, capacity: nat)
    returns (states: seq<Lru>, asks: seq<Ask>, granted: seq<bool>)
    requires capacity > 0 && |keys| == capacity + 1 && Distinct(keys)
    ensures Run(states, asks, granted, period, capacity) && |asks| == capacity + 2
    ensures asks[0] == asks[capacity + 1] == Ask(keys[0], 0) && granted[0] && granted[capacity + 1]
  {
    asks := seq(|keys|, i requires 0 <= i < |keys| => Ask(keys[i], 0)) + [Ask(keys[0], 0)];
    states, granted := Answered(asks, period, capacity);
    FirstIsPushedOut(asks, keys, capacity);
    GrantedExactly(states, asks, granted, period, capacity, |keys|);
    assert Step(states[0], states[1], asks[0], granted[0], period, capacity);
  }
}
