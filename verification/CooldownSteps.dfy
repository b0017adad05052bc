/**
 * internal/controllerutils/cooldown.go with several callers: CanSync takes the lock of the LRU cache
 * twice, once to look and once to stamp, and calls interleave between the two. The clock may have been
 * read at any time before the look.
 */
module CooldownSteps {
  import opened Common
  import opened Keys
  import opened Cooldown

  type Thread = nat

  // waiting holds the granted calls that have not stamped yet; grants lists the stamped ones in the order
  // of their stamps.
  datatype State = State(cache: Lru, waiting: map<Thread, Ask>, grants: seq<Ask>)

  datatype Label = Looks(t: Thread, a: Ask) | Stamps(t: Thread)

  ghost predicate Init(s: State) {
    s.cache == Lru(map[], []) && s.waiting == map[] && s.grants == []
  }

  ghost predicate Acts(s: State, s': State, l: Label, period: int, capacity: nat) {
    match l
    case Looks(t, a) =>
      && t !in s.waiting
      && s' == s.(cache := Touched(s.cache, a.key),
                  waiting := if Allowed(s.cache, a.key, a.now) then s.waiting[t := a] else s.waiting)
    case Stamps(t) =>
      && t in s.waiting
      && var a := s.waiting[t];
         s' == s.(cache := Added(s.cache, a.key, a.now + period, capacity), waiting := s.waiting - {t},
                  grants := s.grants + [a])
  }

  ghost predicate Interleaving(states: seq<State>, labels: seq<Label>, period: int, capacity: nat) {
    && |states| == |labels| + 1 && Init(states[0])
    && (forall i | 0 <= i < |labels| :: Acts(states[i], states[i + 1], labels[i], period, capacity))
  }

  // The cache has room for every key that is ever asked about.
  ghost predicate Roomy(labels: seq<Label>, known: set<Key>, capacity: nat) {
    |known| <= capacity && forall i | 0 <= i < |labels| && labels[i].Looks? :: labels[i].a.key in known
  }

  // The latest stamped grant of the key.
  function LastStamped(grants: seq<Ask>, key: Key): Option<Time> {
    if grants == [] then None
    else
      var a := grants[|grants| - 1];
      if a.key == key then Some(a.now) else LastStamped(grants[..|grants| - 1], key)
  }

  ghost predicate Inv(s: State, period: int, known: set<Key>) {
    && Consistent(s.cache) && s.cache.times.Keys <= known
    && (forall t | t in s.waiting :: s.waiting[t].key in known)
    && (forall k :: Find(s.cache, k) == NextTime(LastStamped(s.grants, k), period))
  }

  lemma TouchKeeps(cache: Lru, key: Key)
    requires Consistent(cache)
    ensures Consistent(Touched(cache, key)) && Touched(cache, key).times == cache.times
  {
    if key in cache.times {
      FrontIsConsistent(cache, Touched(cache, key), key);
    }
  }

  lemma AddKeeps(cache: Lru, key: Key, next: Time, capacity: nat, known: set<Key>)
    requires Consistent(cache) && cache.times.Keys <= known && key in known && |known| <= capacity
    ensures Consistent(Added(cache, key, next, capacity))
            && Added(cache, key, next, capacity).times == cache.times[key := next]
  {
    var all := InFirstPlace(cache, key, next);
    FrontIsConsistent(cache, all, key);
    DistinctCount(all.order);
    Subset(all.times.Keys, known);
  }

  lemma ActsKeepsInv(s: State, s': State, l: Label, period: int, capacity: nat, known: set<Key>)
    requires Inv(s, period, known) && Acts(s, s', l, period, capacity) && |known| <= capacity
    requires l.Looks? ==> l.a.key in known
    ensures Inv(s', period, known)
  {
    match l
    case Looks(t, a) =>
      TouchKeeps(s.cache, a.key);
      assert forall k :: Find(s'.cache, k) == Find(s.cache, k);
    case Stamps(t) =>
      var a := s.waiting[t];
      AddKeeps(s.cache, a.key, a.now + period, capacity, known);
      assert s'.grants[..|s'.grants| - 1] == s.grants;
      assert forall k | k != a.key :: Find(s'.cache, k) == Find(s.cache, k);
  }

  lemma {:induction false} InterleavingKeepsInv(
      states: seq<State>, labels: seq<Label>, period: int, capacity: nat, known: set<Key>, n: nat)
    requires Interleaving(states, labels, period, capacity) && Roomy(labels, known, capacity) && n <= |labels|
    ensures Inv(states[n], period, known)
  {
    if n > 0 {
      InterleavingKeepsInv(states, labels, period, capacity, known, n - 1);
      ActsKeepsInv(states[n - 1], states[n], labels[n - 1], period, capacity, known);
    }
  }

  /**
   * In any interleaving, with room for all keys, a call is granted if and only if the grant of its key
   * that was stamped last is more than the period ago: grants that are not stamped yet have no say.
   */
  lemma GrantedByTheLastStamp(
      states: seq<State>, labels: seq<Label>, period: int, capacity: nat, known: set<Key>, n: nat)
    requires Interleaving(states, labels, period, capacity) && Roomy(labels, known, capacity)
    requires n < |labels| && labels[n].Looks?
    ensures labels[n].t in states[n + 1].waiting <==>
            match LastStamped(states[n].grants, labels[n].a.key)
            case None => true
            case Some(last) => labels[n].a.now - last > period
  {
    InterleavingKeepsInv(states, labels, period, capacity, known, n);
    assert Acts(states[n], states[n + 1], labels[n], period, capacity);
  }

  // No call looks while another call of its key has looked and not stamped.
  ghost predicate OneAtATime(states: seq<State>, labels: seq<Label>)
    requires |labels| < |states|
  {
    forall i, t | 0 <= i < |labels| && labels[i].Looks? && t in states[i].waiting ::
      states[i].waiting[t].key != labels[i].a.key
  }

  // The stamped grants of one key, and the granted call still to be stamped, are spread out in order.
  ghost predicate Spread(s: State, period: int) {
    && (forall i, j | 0 <= i < j < |s.grants| && s.grants[i].key == s.grants[j].key ::
         s.grants[j].now - s.grants[i].now > period)
    && (forall i, t | 0 <= i < |s.grants| && t in s.waiting && s.waiting[t].key == s.grants[i].key ::
         s.waiting[t].now - s.grants[i].now > period)
    && (forall t, u | t in s.waiting && u in s.waiting && s.waiting[t].key == s.waiting[u].key :: t == u)
  }

  lemma {:induction false} LastStampedIsLast(grants: seq<Ask>, key: Key, period: nat)
    requires forall i, j | 0 <= i < j < |grants| && grants[i].key == grants[j].key ::
               grants[j].now - grants[i].now > period
    ensures match LastStamped(grants, key)
            case None => forall i | 0 <= i < |grants| :: grants[i].key != key
            case Some(last) => forall i | 0 <= i < |grants| && grants[i].key == key :: grants[i].now <= last
  {
    if grants != [] && grants[|grants| - 1].key != key {
      var front := grants[..|grants| - 1];
      LastStampedIsLast(front, key, period);
      assert forall i | 0 <= i < |front| :: front[i] == grants[i];
    }
  }

  lemma ActsKeepsSpread(s: State, s': State, l: Label, period: nat, capacity: nat, known: set<Key>)
    requires Inv(s, period, known) && Acts(s, s', l, period, capacity) && Spread(s, period)
    requires l.Looks? ==> forall t | t in s.waiting :: s.waiting[t].key != l.a.key
    ensures Spread(s', period)
  {
    if l.Looks? {
      LastStampedIsLast(s.grants, l.a.key, period);
      assert Find(s.cache, l.a.key) == NextTime(LastStamped(s.grants, l.a.key), period);
    }
  }

  /**
   * When calls of one key come one at a time, its grants are more than the period apart however the
   * calls of different keys interleave.
   */
  lemma {:induction false} GrantsSpreadOneAtATime(
      states: seq<State>, labels: seq<Label>, period: nat, capacity: nat, known: set<Key>, n: nat)
    requires Interleaving(states, labels, period, capacity) && Roomy(labels, known, capacity) && n <= |labels|
    requires OneAtATime(states, labels)
    ensures Spread(states[n], period)
  {
    if n > 0 {
      GrantsSpreadOneAtATime(states, labels, period, capacity, known, n - 1);
      InterleavingKeepsInv(states, labels, period, capacity, known, n - 1);
      ActsKeepsSpread(states[n - 1], states[n], labels[n - 1], period, capacity, known);
    }
  }

  // Otherwise two callers can both be granted at one instant, for every key, period and capacity.
  lemma TwoCallersAreBothGranted(a: Ask, period: int, capacity: nat)
    returns (states: seq<State>, labels: seq<Label>)
    ensures Interleaving(states, labels, period, capacity) && |labels| == 4
    ensures states[4].grants == [a, a]
  {
    var empty := Lru(map[], []);
    var s0 := State(empty, map[], []);
    var s1 := s0.(waiting := map[0 := a]);
    var s2 := s0.(waiting := map[0 := a, 1 := a]);
    var one := Added(empty, a.key, a.now + period, capacity);
    var s3 := State(one, map[1 := a], [a]);
    var s4 := State(Added(one, a.key, a.now + period, capacity), map[], [a, a]);
    states, labels := [s0, s1, s2, s3, s4], [Looks(0, a), Looks(1, a), Stamps(0), Stamps(1)];
    assert s0.waiting[0 := a] == s1.waiting && s1.waiting[1 := a] == s2.waiting;
    assert s2.waiting - {0} == s3.waiting && s3.waiting - {1} == s4.waiting;
    assert Acts(s0, s1, labels[0], period, capacity);
    assert Acts(s1, s2, labels[1], period, capacity);
    assert Acts(s2, s3, labels[2], period, capacity);
    assert Acts(s3, s4, labels[3], period, capacity);
  }
}
