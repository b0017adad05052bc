/**
 * seaplane-dynamo/dynamodb/watcher.go with both goroutines running: the relist and the fast poll
 * interleave at every lock boundary. Scans, queries and batch gets may return anything, stale or
 * fresh, but a batch get returns only requested ids.
 */
module Doorbell {
  import opened Common
  import opened StubCache
  import opened Items

  datatype RelistPhase =
    | RelistIdle
    | Scanned(full: Documents)
    | RelistEmitting

  datatype PollPhase =
    | PollIdle
    | Queried(stubs: Stubs)
    | Chosen(changed: seq<DocId>)
    | Fetched(changed: seq<DocId>, docs: Documents)
    | PollEmitting

  // The pending lists are what the emit loops of the two passes still have to deliver.
  datatype State = State(
    cache: Stubs,
    relist: RelistPhase,
    relistPending: seq<Event>,
    poll: PollPhase,
    pollPending: seq<Event>,
    emitted: seq<Event>)

  ghost predicate Init(s: State) {
    s == State(map[], RelistIdle, [], PollIdle, [], [])
  }

  datatype Label =
    | Scan(full: Documents)
    | ScanFails
    | ApplyRelist(ids: seq<DocId>)
    | RelistEmit
    | RelistEnds
    | Query(stubs: Stubs)
    | FindChanged(ids: seq<DocId>)
    | PollQuits
    | BatchGet(docs: Documents)
    | ApplyStubs(ids: seq<DocId>)
    | PollEmit
    | PollEnds

  ghost predicate Step(s: State, s': State, l: Label) {
    match l
    case Scan(full) =>
      && s.relist == RelistIdle && Keyed(full)
      && s' == s.(relist := Scanned(full))
    case ScanFails =>
      s.relist == RelistIdle && s' == s
    case ApplyRelist(ids) =>
      && s.relist.Scanned? && Keyed(s.relist.full)
      && var stubs := StubsOf(s.relist.full);
      && Enumerates(ids, Changed(s.cache, stubs) + (s.cache.Keys - stubs.Keys))
      && s' == s.(cache := stubs, relist := RelistEmitting, relistPending := Announce(ids, s.relist.full))
    case RelistEmit =>
      && s.relist == RelistEmitting && s.relistPending != []
      && s' == s.(emitted := s.emitted + [s.relistPending[0]], relistPending := s.relistPending[1..])
    case RelistEnds =>
      s.relist == RelistEmitting && s.relistPending == [] && s' == s.(relist := RelistIdle)
    case Query(stubs) =>
      s.poll == PollIdle && s' == s.(poll := Queried(stubs))
    case FindChanged(ids) =>
      && s.poll.Queried? && Enumerates(ids, Changed(s.cache, s.poll.stubs))
      && s' == s.(poll := Chosen(ids))
    case PollQuits =>
      // a failed query or batch get, or nothing changed
      && (s.poll.PollIdle? || s.poll.Chosen?)
      && s' == s.(poll := PollIdle)
    case BatchGet(docs) =>
      && s.poll.Chosen? && s.poll.changed != [] && Keyed(docs)
      && docs.Keys <= Elements(s.poll.changed)
      && s' == s.(poll := Fetched(s.poll.changed, docs))
    case ApplyStubs(ids) =>
      // ids missing from the batch get are skipped by the emit loop
      && s.poll.Fetched? && Keyed(s.poll.docs)
      && Enumerates(ids, Elements(s.poll.changed) * s.poll.docs.Keys)
      && s' == s.(cache := s.cache + StubsOf(s.poll.docs), poll := PollEmitting,
                  pollPending := Announce(ids, s.poll.docs))
    case PollEmit =>
      && s.poll == PollEmitting && s.pollPending != []
      && s' == s.(emitted := s.emitted + [s.pollPending[0]], pollPending := s.pollPending[1..])
    case PollEnds =>
      s.poll == PollEmitting && s.pollPending == [] && s' == s.(poll := PollIdle)
  }

  ghost predicate Run(states: seq<State>, labels: seq<Label>) {
    && |states| == |labels| + 1
    && Init(states[0])
    && (forall i | 0 <= i < |labels| :: Step(states[i], states[i + 1], labels[i]))
  }

  ghost predicate Inv(s: State) {
    && (s.relist != RelistEmitting ==> s.relistPending == [])
    && (s.poll != PollEmitting ==> s.pollPending == [])
    && (s.poll.Fetched? ==> s.poll.docs.Keys <= Elements(s.poll.changed))
  }

  ghost predicate Pending(s: State, id: DocId) {
    Mentions(s.relistPending, id) || Mentions(s.pollPending, id)
  }

  // Step i of the run changed what the cache holds for the id.
  ghost predicate Changes(states: seq<State>, i: nat, id: DocId)
    requires i + 1 < |states|
  {
    Cached(states[i].cache, id) != Cached(states[i + 1].cache, id)
  }

  // Step i of the run delivered an event for the id.
  ghost predicate Rings(states: seq<State>, i: nat, id: DocId)
    requires i + 1 < |states|
  {
    var before, after := states[i].emitted, states[i + 1].emitted;
    |after| == |before| + 1 && after[|before|].id == id
  }

  lemma StepKeepsInv(s: State, s': State, l: Label)
    requires Inv(s) && Step(s, s', l)
    ensures Inv(s')
  {
  }

  lemma {:induction false} RunKeepsInv(states: seq<State>, labels: seq<Label>, n: nat)
    requires Run(states, labels) && n <= |labels|
    ensures Inv(states[n])
  {
    if n > 0 {
      RunKeepsInv(states, labels, n - 1);
      StepKeepsInv(states[n - 1], states[n], labels[n - 1]);
    }
  }

  // Whatever changes a cache entry leaves its id pending.
  lemma ChangeIsPending(s: State, s': State, l: Label, id: DocId)
    requires Inv(s) && Step(s, s', l)
    requires Cached(s.cache, id) != Cached(s'.cache, id)
    ensures Pending(s', id)
  {
    match l
    case ApplyRelist(ids) => ViewOfAnnounce(ids, s.relist.full, id);
    case ApplyStubs(ids) => ViewOfAnnounce(ids, s.poll.docs, id);
    case _ =>
  }

  // A pending id stays pending until it is delivered.
  lemma PendingUntilRung(s: State, s': State, l: Label, id: DocId)
    requires Inv(s) && Step(s, s', l) && Pending(s, id)
    ensures Pending(s', id) || (|s'.emitted| == |s.emitted| + 1 && s'.emitted[|s.emitted|].id == id)
  {
    match l
    case RelistEmit =>
      if Mentions(s.relistPending, id) && s.relistPending[0].id != id {
        var i :| 0 <= i < |s.relistPending| && s.relistPending[i].id == id;
        assert s'.relistPending[i - 1].id == id;
      }
    case PollEmit =>
      if Mentions(s.pollPending, id) && s.pollPending[0].id != id {
        var i :| 0 <= i < |s.pollPending| && s.pollPending[i].id == id;
        assert s'.pollPending[i - 1].id == id;
      }
    case _ =>
  }

  /**
   * No lost doorbell. In every interleaving, an id whose cache entry changed at step i and for which
   * nothing was delivered since is still pending in one of the two emit loops.
   */
  lemma {:induction false} NoLostDoorbell(states: seq<State>, labels: seq<Label>, i: nat, n: nat, id: DocId)
    requires Run(states, labels) && i < n <= |labels|
    requires Changes(states, i, id)
    requires forall j | i < j < n :: !Rings(states, j, id)
    ensures Pending(states[n], id)
  {
    RunKeepsInv(states, labels, n - 1);
    if n == i + 1 {
      ChangeIsPending(states[i], states[n], labels[i], id);
    } else {
      NoLostDoorbell(states, labels, i, n - 1, id);
      assert !Rings(states, n - 1, id);
      PendingUntilRung(states[n - 1], states[n], labels[n - 1], id);
    }
  }

  // With nothing pending, every id was delivered after the last change of its cache entry.
  lemma EveryChangeIsRung(states: seq<State>, labels: seq<Label>, i: nat, n: nat, id: DocId)
    requires Run(states, labels) && i < n <= |labels|
    requires states[n].relistPending == [] && states[n].pollPending == []
    requires Changes(states, i, id)
    ensures exists j :: i < j < n && Rings(states, j, id)
  {
    if forall j | i < j < n :: !Rings(states, j, id) {
      NoLostDoorbell(states, labels, i, n, id);
      assert false;
    }
  }

  // Both passes are about to deliver the same id.
  ghost predicate Races(s: State, id: DocId) {
    Mentions(s.relistPending, id) && Mentions(s.pollPending, id)
  }

  // Both passes are about to deliver the id, with different contents.
  ghost predicate Conflicts(s: State, id: DocId) {
    Races(s, id) && View(s.relistPending, id) != View(s.pollPending, id)
  }

  // Whatever is delivered last for the id is what the cache holds.
  ghost predicate InStep(s: State, id: DocId) {
    && (Mentions(s.relistPending, id) ==> View(s.relistPending, id) == Cached(s.cache, id))
    && (Mentions(s.pollPending, id) ==> View(s.pollPending, id) == Cached(s.cache, id))
    && (!Mentions(s.relistPending, id) && !Mentions(s.pollPending, id) ==> View(s.emitted, id) == Cached(s.cache, id))
  }

  // Delivering the head of a list.
  lemma ViewOfEmit(emitted: seq<Event>, pending: seq<Event>, id: DocId)
    requires pending != []
    ensures Mentions(pending, id) <==> pending[0].id == id || Mentions(pending[1..], id)
    ensures Mentions(pending[1..], id) ==> View(pending[1..], id) == View(pending, id)
    ensures View(emitted + [pending[0]], id) ==
            if pending[0].id != id then View(emitted, id)
            else if Mentions(pending[1..], id) then EventStamp(pending[0]) else View(pending, id)
  {
    assert pending == [pending[0]] + pending[1..];
    ViewOfConcat([pending[0]], pending[1..], id);
    ViewOfConcat(emitted, [pending[0]], id);
    MentionsOfConcat([pending[0]], pending[1..], id);
    assert Mentions([pending[0]], id) <==> pending[0].id == id by { assert [pending[0]][0] == pending[0]; }
  }

  lemma MentionsOfConcat(first: seq<Event>, second: seq<Event>, id: DocId)
    ensures Mentions(first + second, id) <==> Mentions(first, id) || Mentions(second, id)
  {
    var all := first + second;
    if Mentions(first, id) {
      var i :| 0 <= i < |first| && first[i].id == id;
      assert all[i].id == id;
    }
    if Mentions(second, id) {
      var i :| 0 <= i < |second| && second[i].id == id;
      assert all[|first| + i].id == id;
    }
    if Mentions(all, id) {
      var i :| 0 <= i < |all| && all[i].id == id;
      assert if i < |first| then first[i].id == id else second[i - |first|].id == id;
    }
  }

  lemma EmitKeepsInStep(s: State, s': State, l: Label, id: DocId)
    requires Step(s, s', l) && IsEmit(l) && InStep(s, id)
    ensures InStep(s', id)
  {
    ViewOfEmit(s.emitted, if l.RelistEmit? then s.relistPending else s.pollPending, id);
  }

  lemma StepKeepsInStep(s: State, s': State, l: Label, id: DocId)
    requires Inv(s) && Step(s, s', l) && InStep(s, id)
    requires !Conflicts(s', id)
    ensures InStep(s', id)
  {
    match l
    case ApplyRelist(ids) =>
      ViewOfAnnounce(ids, s.relist.full, id);
    case ApplyStubs(ids) =>
      ViewOfAnnounce(ids, s.poll.docs, id);
    case RelistEmit =>
      EmitKeepsInStep(s, s', l, id);
    case PollEmit =>
      EmitKeepsInStep(s, s', l, id);
    case _ =>
  }

  lemma {:induction false} RunKeepsInStep(states: seq<State>, labels: seq<Label>, n: nat, id: DocId)
    requires Run(states, labels) && n <= |labels|
    requires forall i | 0 <= i <= n :: !Conflicts(states[i], id)
    ensures InStep(states[n], id)
  {
    if n > 0 {
      RunKeepsInStep(states, labels, n - 1, id);
      RunKeepsInv(states, labels, n - 1);
      StepKeepsInStep(states[n - 1], states[n], labels[n - 1], id);
    }
  }

  predicate Drained(s: State) {
    s.relistPending == [] && s.pollPending == []
  }

  /**
   * Replayed emits equal the cache, one id at a time. In every interleaving in which the two passes
   * never held the id for delivery with different contents, a consumer that has received everything
   * holds exactly the update time in the cache.
   */
  lemma ReplayEqualsCacheWithoutConflicts(states: seq<State>, labels: seq<Label>, n: nat, id: DocId)
    requires Run(states, labels) && n <= |labels| && Drained(states[n])
    requires forall i | 0 <= i <= n :: !Conflicts(states[i], id)
    ensures View(states[n].emitted, id) == Cached(states[n].cache, id)
  {
    RunKeepsInStep(states, labels, n, id);
  }

  ghost predicate NonOverlapping(states: seq<State>) {
    forall i | 0 <= i < |states| :: states[i].relist == RelistIdle || states[i].poll == PollIdle
  }

  // Passes that do not overlap never race, whatever the reads return.
  lemma ReplayEqualsCache(states: seq<State>, labels: seq<Label>, n: nat, id: DocId)
    requires Run(states, labels) && n <= |labels| && NonOverlapping(states)
    requires Drained(states[n])
    ensures View(states[n].emitted, id) == Cached(states[n].cache, id)
  {
    forall i | 0 <= i <= n
      ensures !Conflicts(states[i], id)
    {
      RunKeepsInv(states, labels, i);
    }
    ReplayEqualsCacheWithoutConflicts(states, labels, n, id);
  }

  ghost predicate Path(states: seq<State>, labels: seq<Label>) {
    && |states| == |labels| + 1
    && (forall i | 0 <= i < |labels| :: Step(states[i], states[i + 1], labels[i]))
  }

  predicate IsEmit(l: Label) {
    l.RelistEmit? || l.PollEmit?
  }

  ghost predicate Links(states: seq<State>, labels: seq<Label>, s: State, t: State, emitsOnly: bool) {
    && Path(states, labels) && states[0] == s && states[|labels|] == t
    && (emitsOnly ==> forall i | 0 <= i < |labels| :: IsEmit(labels[i]))
  }

  // Some steps lead from s to t; with emitsOnly, steps of the two emit loops alone.
  ghost predicate Reaches(s: State, t: State, emitsOnly: bool := false) {
    exists states: seq<State>, labels: seq<Label> :: Links(states, labels, s, t, emitsOnly)
  }

  lemma ReachesFirst(s: State, l: Label, mid: State, t: State, emitsOnly: bool := false)
    requires Step(s, mid, l) && Reaches(mid, t, emitsOnly) && (emitsOnly ==> IsEmit(l))
    ensures Reaches(s, t, emitsOnly)
  {
    var states: seq<State>, labels: seq<Label> :| Links(states, labels, mid, t, emitsOnly);
    var states', labels' := [s] + states, [l] + labels;
    forall i | 0 <= i < |labels'|
      ensures Step(states'[i], states'[i + 1], labels'[i])
    {
      if i > 0 {
        assert Step(states[i - 1], states[i], labels[i - 1]);
      }
    }
    assert Links(states', labels', s, t, emitsOnly);
  }

  lemma ReachesItself(s: State, emitsOnly: bool := false)
    ensures Reaches(s, s, emitsOnly)
  {
    assert Links([s], [], s, s, emitsOnly);
  }

  lemma {:induction false} ReachesAfterRun(
      states: seq<State>, labels: seq<Label>, i: nat, t: State, emitsOnly: bool := false)
    requires Path(states, labels) && i <= |labels| && Reaches(states[|labels|], t, emitsOnly)
    requires emitsOnly ==> forall k | 0 <= k < |labels| :: IsEmit(labels[k])
    ensures Reaches(states[i], t, emitsOnly)
    decreases |labels| - i
  {
    if i < |labels| {
      ReachesAfterRun(states, labels, i + 1, t, emitsOnly);
      ReachesFirst(states[i], labels[i], states[i + 1], t, emitsOnly);
    }
  }

  lemma ReachesThrough(s: State, mid: State, t: State, emitsOnly: bool := false)
    requires Reaches(s, mid, emitsOnly) && Reaches(mid, t, emitsOnly)
    ensures Reaches(s, t, emitsOnly)
  {
    var states: seq<State>, labels: seq<Label> :| Links(states, labels, s, mid, emitsOnly);
    ReachesAfterRun(states, labels, 0, t, emitsOnly);
  }

  lemma EmitsAreSteps(s: State, t: State)
    requires Reaches(s, t, true)
    ensures Reaches(s, t)
  {
    var states: seq<State>, labels: seq<Label> :| Links(states, labels, s, t, true);
    assert Links(states, labels, s, t, false);
  }

  // An emit loop runs to its end.
  lemma {:induction false} DrainRelist(s: State)
    requires s.relist == RelistEmitting
    ensures Reaches(s, s.(relistPending := [], emitted := s.emitted + s.relistPending), true)
    decreases |s.relistPending|
  {
    var r := s.relistPending;
    var t := s.(relistPending := [], emitted := s.emitted + r);
    if r == [] {
      assert t == s;
      ReachesItself(s, true);
    } else {
      var mid := s.(emitted := s.emitted + [r[0]], relistPending := r[1..]);
      assert Step(s, mid, RelistEmit);
      DrainRelist(mid);
      assert s.emitted + [r[0]] + r[1..] == s.emitted + r;
      ReachesFirst(s, RelistEmit, mid, t, true);
    }
  }

  lemma {:induction false} DrainPoll(s: State)
    requires s.poll == PollEmitting
    ensures Reaches(s, s.(pollPending := [], emitted := s.emitted + s.pollPending), true)
    decreases |s.pollPending|
  {
    var p := s.pollPending;
    var t := s.(pollPending := [], emitted := s.emitted + p);
    if p == [] {
      assert t == s;
      ReachesItself(s, true);
    } else {
      var mid := s.(emitted := s.emitted + [p[0]], pollPending := p[1..]);
      assert Step(s, mid, PollEmit);
      DrainPoll(mid);
      assert s.emitted + [p[0]] + p[1..] == s.emitted + p;
      ReachesFirst(s, PollEmit, mid, t, true);
    }
  }

  // Out of step, some order of delivery ends wrong: the loop that holds the wrong contents goes last.
  lemma SomeOrderEndsWrong(s: State, id: DocId) returns (t: State)
    requires Inv(s) && !InStep(s, id)
    ensures Reaches(s, t, true) && Drained(t) && t.cache == s.cache && View(t.emitted, id) != Cached(t.cache, id)
  {
    var r, p := s.relistPending, s.pollPending;
    if Mentions(r, id) && View(r, id) != Cached(s.cache, id) {
      var mid := s.(pollPending := [], emitted := s.emitted + p);
      t := mid.(relistPending := [], emitted := mid.emitted + r);
      if p != [] { DrainPoll(s); } else { assert mid == s; ReachesItself(s, true); }
      DrainRelist(mid);
      ReachesThrough(s, mid, t, true);
      ViewOfConcat(mid.emitted, r, id);
    } else {
      var mid := s.(relistPending := [], emitted := s.emitted + r);
      t := mid.(pollPending := [], emitted := mid.emitted + p);
      if r != [] { DrainRelist(s); } else { assert mid == s; ReachesItself(s, true); }
      if p != [] { DrainPoll(mid); } else { assert t == mid; ReachesItself(mid, true); }
      ReachesThrough(s, mid, t, true);
      ViewOfConcat(s.emitted, r, id);
      ViewOfConcat(mid.emitted, p, id);
    }
  }

  lemma {:induction false} DeliveriesKeepInStep(states: seq<State>, labels: seq<Label>, n: nat, id: DocId)
    requires Path(states, labels) && n <= |labels| && InStep(states[0], id)
    requires forall i | 0 <= i < |labels| :: IsEmit(labels[i])
    ensures InStep(states[n], id)
  {
    if n > 0 {
      DeliveriesKeepInStep(states, labels, n - 1, id);
      EmitKeepsInStep(states[n - 1], states[n], labels[n - 1], id);
    }
  }

  // Whatever order the two emit loops take, the consumer ends with the cached update time.
  ghost predicate EveryOrderEndsRight(s: State, id: DocId) {
    forall t | Reaches(s, t, true) && Drained(t) :: View(t.emitted, id) == Cached(t.cache, id)
  }

  // In any state, the pending lists alone decide whether every order of delivery ends right.
  lemma InStepExactly(s: State, id: DocId)
    requires Inv(s)
    ensures EveryOrderEndsRight(s, id) <==> InStep(s, id)
  {
    if InStep(s, id) {
      forall t | Reaches(s, t, true) && Drained(t)
        ensures View(t.emitted, id) == Cached(t.cache, id)
      {
        var states: seq<State>, labels: seq<Label> :| Links(states, labels, s, t, true);
        DeliveriesKeepInStep(states, labels, |labels|, id);
      }
    } else {
      var t := SomeOrderEndsWrong(s, id);
    }
  }

  /**
   * The exact condition. In a run without a conflict so far, every order in which the pending events
   * can still be delivered leaves the consumer with the cached update time if and only if the two
   * passes do not now hold the id with different contents.
   */
  lemma EveryOrderEndsRightExactlyWithoutConflict(states: seq<State>, labels: seq<Label>, n: nat, id: DocId)
    requires Run(states, labels) && n <= |labels|
    requires forall i | 0 <= i < n :: !Conflicts(states[i], id)
    ensures EveryOrderEndsRight(states[n], id) <==> !Conflicts(states[n], id)
  {
    RunKeepsInv(states, labels, n);
    InStepExactly(states[n], id);
    if !Conflicts(states[n], id) {
      RunKeepsInStep(states, labels, n, id);
    }
  }

  function Doc(id: DocId, stamp: Time): Item {
    map["documentID" := S(id, None), "updateTime" := S("", Some(stamp))]
  }

  lemma OneDoc(stamp: Time)
    ensures Keyed(map["a" := Doc("a", stamp)]) && StubsOf(map["a" := Doc("a", stamp)]) == map["a" := stamp]
  {
    assert Extract(Doc("a", stamp)) == Some(("a", stamp));
  }

  // The cache after a pass that found only "a".
  function OnlyA(u: Time): (cache: Stubs) { map["a" := u] }

  // The poll's part of the race: it has fetched the older version and put it in the cache.
  lemma RacingPoll(older: Documents) returns (states: seq<State>, labels: seq<Label>)
    requires Keyed(older) && StubsOf(older) == OnlyA(1)
    ensures |states| == 5 && |labels| == 4 && Run(states, labels)
    ensures states[4] == State(OnlyA(1), RelistIdle, [], PollEmitting, Announce(["a"], older), [])
  {
    var s0 := State(map[], RelistIdle, [], PollIdle, [], []);
    var s1 := s0.(poll := Queried(OnlyA(1)));
    var s2 := s1.(poll := Chosen(["a"]));
    var s3 := s2.(poll := Fetched(["a"], older));
    var s4 := s3.(cache := OnlyA(1), poll := PollEmitting, pollPending := Announce(["a"], older));
    states := [s0, s1, s2, s3, s4];
    labels := [Query(OnlyA(1)), FindChanged(["a"]), BatchGet(older), ApplyStubs(["a"])];
    assert older.Keys == StubsOf(older).Keys;
    assert Elements(["a"]) == {"a"};
    assert Changed(map[], OnlyA(1)) == {"a"};
    assert Step(s1, s2, labels[1]);
    assert Step(s2, s3, labels[2]);
    assert Elements(["a"]) * older.Keys == {"a"};
    assert Step(s3, s4, labels[3]);
  }

  // The relist's part: before the poll emits, a scan that saw the newer version is put in the cache.
  lemma RacingRelist(s4: State, newer: Documents) returns (s5: State, s6: State)
    requires s4.cache == OnlyA(1) && s4.relist == RelistIdle && s4.relistPending == []
    requires Keyed(newer) && StubsOf(newer) == OnlyA(2)
    ensures Step(s4, s5, Scan(newer)) && Step(s5, s6, ApplyRelist(["a"]))
    ensures s6 == s4.(cache := OnlyA(2), relist := RelistEmitting, relistPending := Announce(["a"], newer))
  {
    s5 := s4.(relist := Scanned(newer));
    s6 := s5.(cache := OnlyA(2), relist := RelistEmitting, relistPending := Announce(["a"], newer));
    assert newer.Keys == StubsOf(newer).Keys;
    assert Elements(["a"]) == {"a"};
    assert Changed(s5.cache, StubsOf(newer)) == {"a"};
  }

  // Overlapping passes do race: the poll fetched an older version than the relist scanned.
  lemma RacingRun(older: Documents, newer: Documents) returns (states: seq<State>, labels: seq<Label>)
    requires Keyed(older) && StubsOf(older) == OnlyA(1)
    requires Keyed(newer) && StubsOf(newer) == OnlyA(2)
    ensures Run(states, labels)
    ensures var s := states[|labels|];
            Conflicts(s, "a") && View(s.relistPending, "a") == Some(2) && View(s.pollPending, "a") == Some(1)
  {
    states, labels := RacingPoll(older);
    var s5, s6 := RacingRelist(states[4], newer);
    states, labels := states + [s5, s6], labels + [Scan(newer), ApplyRelist(["a"])];
    assert older.Keys == StubsOf(older).Keys && newer.Keys == StubsOf(newer).Keys;
    ViewOfAnnounce(["a"], older, "a");
    ViewOfAnnounce(["a"], newer, "a");
  }

  // So the unrestricted claim is false of the code: a run from the start ends, with everything
  // delivered, in a consumer that disagrees with the cache.
  lemma ConsumerCanFallBehind() returns (start: State, end: State)
    ensures Init(start) && Reaches(start, end)
    ensures Drained(end) && View(end.emitted, "a") != Cached(end.cache, "a")
  {
    OneDoc(1);
    OneDoc(2);
    var states, labels := RacingRun(map["a" := Doc("a", 1)], map["a" := Doc("a", 2)]);
    RunKeepsInv(states, labels, |labels|);
    end := SomeOrderEndsWrong(states[|labels|], "a");
    EmitsAreSteps(states[|labels|], end);
    start := states[0];
    ReachesAfterRun(states, labels, 0, end);
  }
}
