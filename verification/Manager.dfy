/**
 * pkg/controllers/read_desire_manager/controller.go: workers, the informer's delete handler and
 * stopAll share the map of running instances. Each transition is one section under the mutex, or one
 * cancel, wait, build or go statement between two of them.
 */
module Manager {
  import opened Common
  import opened Keys
  import opened Codec

  type Target = ResourceReference

  type Thread = nat

  // A goroutine of a per-instance controller: created, running, or returned with done closed.
  datatype Life = Starting | Live | Exited

  datatype Instance = Instance(key: Key, target: Target, cancelled: bool, life: Life)

  // Where a thread goes on once stopByKey returns.
  datatype Then = Return | Rebuild(target: Target) | StopNext(keys: seq<Key>)

  datatype Pc =
    | Idle
    | Looking(target: Target)
    | Stopping(key: Key, next: Then)
    | Cancelling(inst: nat, next: Then)
    | Waiting(inst: nat, next: Then)
    | Building(target: Target)
    | Inserting(target: Target)
    | Spawning(inst: nat)

  // busy holds the key each worker is processing; claims records which thread took an instance out
  // of the map.
  datatype State = State(
    insts: seq<Instance>,
    running: map<Key, nat>,
    claims: map<nat, Thread>,
    busy: map<Thread, Key>,
    pcs: map<Thread, Pc>)

  function PcOf(s: State, t: Thread): Pc {
    if t in s.pcs then s.pcs[t] else Idle
  }

  function Go(s: State, t: Thread, pc: Pc): State {
    s.(pcs := s.pcs[t := pc])
  }

  // SyncOnce returns, and the queue may hand the key out again.
  function Finish(s: State, t: Thread): State {
    s.(pcs := s.pcs[t := Idle], busy := s.busy - {t})
  }

  function Continue(s: State, t: Thread, next: Then): State {
    match next
    case Return => Finish(s, t)
    case Rebuild(target) => Go(s, t, Building(target))
    case StopNext(keys) =>
      if keys == [] then Finish(s, t) else Go(s, t, Stopping(keys[0], StopNext(keys[1..])))
  }

  ghost predicate Init(s: State) {
    s == State([], map[], map[], map[], map[])
  }

  datatype Label =
    | BeginSync(t: Thread, key: Key, desire: Option<Target>)  // the fetched spec, or its absence
    | Look(t: Thread)
    | Claim(t: Thread)
    | Cancel(t: Thread)
    | Joined(t: Thread)
    | BuildEnds(t: Thread, ok: bool)
    | Insert(t: Thread)
    | Spawn(t: Thread)
    | HandleDelete(t: Thread, clusterID: string, documentID: string)
    | StopAll(t: Thread, keys: seq<Key>)
    | MirrorPass(i: nat)
    | InstanceExits(i: nat)

  ghost predicate Step(s: State, s': State, l: Label) {
    match l
    case BeginSync(t, key, desire) =>
      // the queue hands a key to one worker at a time
      && PcOf(s, t) == Idle && t !in s.busy && key !in s.busy.Values
      && s' == Go(s.(busy := s.busy[t := key]), t,
                  if desire.Some? then Looking(desire.value) else Stopping(key, Return))
    case Look(t) =>
      && PcOf(s, t).Looking? && t in s.busy
      && var key, target := s.busy[t], PcOf(s, t).target;
      if key in s.running then
        && s.running[key] < |s.insts|
        && s' == if s.insts[s.running[key]].target == target then Finish(s, t)
                 else Go(s, t, Stopping(key, Rebuild(target)))
      else s' == Go(s, t, Building(target))
    case Claim(t) =>
      && PcOf(s, t).Stopping?
      && var key, next := PcOf(s, t).key, PcOf(s, t).next;
      s' == if key in s.running then
              Go(s.(running := s.running - {key}, claims := s.claims[s.running[key] := t]), t,
                 Cancelling(s.running[key], next))
            else Continue(s, t, next)
    case Cancel(t) =>
      && PcOf(s, t).Cancelling? && PcOf(s, t).inst < |s.insts|
      && var i := PcOf(s, t).inst;
      s' == Go(s.(insts := s.insts[i := s.insts[i].(cancelled := true)]), t, Waiting(i, PcOf(s, t).next))
    case Joined(t) =>
      && PcOf(s, t).Waiting? && PcOf(s, t).inst < |s.insts| && s.insts[PcOf(s, t).inst].life == Exited
      && s' == Continue(s, t, PcOf(s, t).next)
    case BuildEnds(t, ok) =>
      && PcOf(s, t).Building?
      && s' == if ok then Go(s, t, Inserting(PcOf(s, t).target)) else Finish(s, t)
    case Insert(t) =>
      && PcOf(s, t).Inserting? && t in s.busy
      && var i, key := |s.insts|, s.busy[t];
      s' == Go(s.(insts := s.insts + [Instance(key, PcOf(s, t).target, false, Starting)],
                  running := s.running[key := i]), t, Spawning(i))
    case Spawn(t) =>
      && PcOf(s, t).Spawning? && PcOf(s, t).inst < |s.insts|
      && var i := PcOf(s, t).inst;
      s' == Finish(s.(insts := s.insts[i := s.insts[i].(life := Live)]), t)
    case HandleDelete(t, clusterID, documentID) =>
      // the key is built without a node pool
      && PcOf(s, t) == Idle && t !in s.busy
      && s' == Go(s, t, Stopping(Key(clusterID, "", documentID), Return))
    case StopAll(t, keys) =>
      && PcOf(s, t) == Idle && t !in s.busy && Enumerates(keys, s.running.Keys)
      && s' == Continue(s, t, StopNext(keys))
    case MirrorPass(i) =>
      // a running instance works on the status record of its desire
      i < |s.insts| && s.insts[i].life == Live && s' == s
    case InstanceExits(i) =>
      && i < |s.insts| && s.insts[i].life == Live
      && s' == s.(insts := s.insts[i := s.insts[i].(life := Exited)])
  }

  ghost predicate Run(states: seq<State>, labels: seq<Label>) {
    && |states| == |labels| + 1
    && Init(states[0])
    && (forall n | 0 <= n < |labels| :: Step(states[n], states[n + 1], labels[n]))
  }

  // ---- invariant -------------------------------------------------------------------------------

  ghost predicate IsStopping(s: State, t: Thread, i: nat) {
    var pc := PcOf(s, t);
    (pc.Cancelling? || pc.Waiting?) && pc.inst == i
  }

  // Every instance is either the map's entry for its key, or was claimed by one thread, which is
  // still stopping it unless it has exited.
  ghost predicate Owned(s: State, i: nat)
    requires i < |s.insts|
  {
    var key := s.insts[i].key;
    if i in s.claims then
      && (key in s.running ==> s.running[key] != i)
      && (s.insts[i].life == Exited || IsStopping(s, s.claims[i], i))
    else key in s.running && s.running[key] == i
  }

  ghost predicate WorkerAt(s: State, t: Thread, key: Key) {
    match PcOf(s, t)
    case Idle => false
    case Looking(_) => true
    case Stopping(k, next) => k == key && !next.StopNext?
    case Cancelling(i, next) => i < |s.insts| && s.insts[i].key == key && !next.StopNext? && key !in s.running
    case Waiting(i, next) => i < |s.insts| && s.insts[i].key == key && !next.StopNext? && key !in s.running
    case Building(_) => key !in s.running
    case Inserting(_) => key !in s.running
    case Spawning(i) => i < |s.insts| && s.insts[i].key == key && s.insts[i].life == Starting
  }

  ghost predicate StopperAt(s: State, t: Thread) {
    match PcOf(s, t)
    case Idle => true
    case Stopping(_, next) => !next.Rebuild?
    case Cancelling(i, next) => i < |s.insts| && !next.Rebuild?
    case Waiting(i, next) => i < |s.insts| && !next.Rebuild?
    case _ => false
  }

  ghost predicate ThreadInv(s: State, t: Thread) {
    && (if t in s.busy then WorkerAt(s, t, s.busy[t]) else StopperAt(s, t))
    && (forall i | IsStopping(s, t, i) :: i in s.claims && s.claims[i] == t)
  }

  ghost predicate Inv(s: State) {
    && (forall k | k in s.running :: s.running[k] < |s.insts| && s.insts[s.running[k]].key == k)
    && (forall i | 0 <= i < |s.insts| :: Owned(s, i))
    && (forall i | i in s.claims :: i < |s.insts|)
    && (forall t, u | t in s.busy && u in s.busy && s.busy[t] == s.busy[u] :: t == u)
    && (forall t: Thread :: ThreadInv(s, t))
  }

  // ---- every step keeps the invariant ------------------------------------------------------------

  // A step that moves one thread on and leaves instances, map and claims as they are.
  lemma MovedOn(s: State, s': State, t: Thread)
    requires Inv(s)
    requires s'.insts == s.insts && s'.running == s.running && s'.claims == s.claims
    requires forall u: Thread | u != t :: PcOf(s', u) == PcOf(s, u)
    requires s'.busy - {t} == s.busy - {t} && (t in s'.busy ==> s'.busy[t] !in (s.busy - {t}).Values)
    requires if t in s'.busy then WorkerAt(s', t, s'.busy[t]) else StopperAt(s', t)
    requires forall i: nat | IsStopping(s', t, i) :: IsStopping(s, t, i)
    requires forall i: nat | IsStopping(s, t, i) && !IsStopping(s', t, i) :: i < |s.insts| && s.insts[i].life == Exited
    ensures Inv(s')
  {
    assert ThreadInv(s, t);
    forall u: Thread
      ensures ThreadInv(s', u)
    {
      assert ThreadInv(s, u);
      if u != t {
        SameBusy(s, s', t, u);
      }
    }
    forall i | 0 <= i < |s'.insts|
      ensures Owned(s', i)
    {
      assert Owned(s, i);
    }
    forall u, v | u in s'.busy && v in s'.busy && s'.busy[u] == s'.busy[v]
      ensures u == v
    {
      SameBusy(s, s', t, u);
      SameBusy(s, s', t, v);
    }
  }

  lemma SameBusy(s: State, s': State, t: Thread, u: Thread)
    requires s'.busy - {t} == s.busy - {t}
    ensures u != t ==>
              && (u in s'.busy <==> u in s.busy)
              && (u in s.busy ==> s'.busy[u] == s.busy[u] && s.busy[u] in (s.busy - {t}).Values)
  {
    if u != t {
      assert u in s.busy <==> u in s.busy - {t};
      assert u in s'.busy <==> u in s'.busy - {t};
      if u in s.busy {
        assert (s.busy - {t})[u] == s.busy[u];
        assert (s'.busy - {t})[u] == s'.busy[u];
      }
    }
  }

  lemma WorkersHoldDistinctKeys(s: State, t: Thread)
    requires Inv(s) && t in s.busy
    ensures s.busy[t] !in (s.busy - {t}).Values
  {
  }

  lemma BeginKeepsInv(s: State, s': State, t: Thread, key: Key, desire: Option<Target>)
    requires Inv(s) && Step(s, s', BeginSync(t, key, desire))
    ensures Inv(s')
  {
    assert s'.busy - {t} == s.busy - {t};
    MovedOn(s, s', t);
  }

  // A thread that moves on under the key it has.
  lemma WorkerMovedOn(s: State, s': State, t: Thread, pc: Pc)
    requires Inv(s) && s' == Go(s, t, pc) && !pc.Cancelling? && !pc.Waiting?
    requires if t in s.busy then WorkerAt(s', t, s.busy[t]) else StopperAt(s', t)
    requires forall i: nat | IsStopping(s, t, i) :: i < |s.insts| && s.insts[i].life == Exited
    ensures Inv(s')
  {
    if t in s.busy {
      WorkersHoldDistinctKeys(s, t);
    }
    MovedOn(s, s', t);
  }

  lemma FinishKeepsInv(s: State, t: Thread)
    requires Inv(s)
    requires forall i: nat | IsStopping(s, t, i) :: i < |s.insts| && s.insts[i].life == Exited
    ensures Inv(Finish(s, t))
  {
    var s' := Finish(s, t);
    assert s'.busy - {t} == s.busy - {t};
    MovedOn(s, s', t);
  }

  // A thread whose stop is over goes on.
  lemma ContinueKeepsInv(s: State, t: Thread, next: Then)
    requires Inv(s)
    requires forall i: nat | IsStopping(s, t, i) :: i < |s.insts| && s.insts[i].life == Exited
    requires if t in s.busy then !next.StopNext? && (next.Rebuild? ==> s.busy[t] !in s.running) else !next.Rebuild?
    ensures Inv(Continue(s, t, next))
  {
    match next
    case Return => FinishKeepsInv(s, t);
    case Rebuild(target) => WorkerMovedOn(s, Continue(s, t, next), t, Building(target));
    case StopNext(keys) =>
      if keys == [] {
        FinishKeepsInv(s, t);
      } else {
        WorkerMovedOn(s, Continue(s, t, next), t, Stopping(keys[0], StopNext(keys[1..])));
      }
  }

  lemma LookKeepsInv(s: State, s': State, t: Thread)
    requires Inv(s) && Step(s, s', Look(t))
    ensures Inv(s')
  {
    assert ThreadInv(s, t);
    WorkersHoldDistinctKeys(s, t);
    assert s'.busy - {t} == s.busy - {t};
    MovedOn(s, s', t);
  }

  lemma JoinedKeepsInv(s: State, s': State, t: Thread)
    requires Inv(s) && Step(s, s', Joined(t))
    ensures Inv(s')
  {
    assert ThreadInv(s, t);
    ContinueKeepsInv(s, t, PcOf(s, t).next);
  }

  lemma BuildKeepsInv(s: State, s': State, t: Thread, ok: bool)
    requires Inv(s) && Step(s, s', BuildEnds(t, ok))
    ensures Inv(s')
  {
    assert ThreadInv(s, t);
    WorkersHoldDistinctKeys(s, t);
    assert s'.busy - {t} == s.busy - {t};
    MovedOn(s, s', t);
  }

  lemma StopperKeepsInv(s: State, s': State, l: Label)
    requires Inv(s) && (l.HandleDelete? || l.StopAll?) && Step(s, s', l)
    ensures Inv(s')
  {
    assert ThreadInv(s, l.t);
    if l.StopAll? {
      ContinueKeepsInv(s, l.t, StopNext(l.keys));
    } else {
      MovedOn(s, s', l.t);
    }
  }

  // A thread takes the entry of its key out of the map.
  lemma ClaimKeepsThreads(s: State, s': State, t: Thread, u: Thread)
    requires Inv(s) && Step(s, s', Claim(t)) && PcOf(s, t).key in s.running
    ensures ThreadInv(s', u)
  {
    assert ThreadInv(s, t) && ThreadInv(s, u);
    assert Owned(s, s.running[PcOf(s, t).key]);
  }

  lemma ClaimKeepsOwners(s: State, s': State, t: Thread, j: nat)
    requires Inv(s) && Step(s, s', Claim(t)) && PcOf(s, t).key in s.running && j < |s.insts|
    ensures Owned(s', j)
  {
    assert ThreadInv(s, t) && Owned(s, j);
    assert Owned(s, s.running[PcOf(s, t).key]);
  }

  lemma ClaimKeepsInv(s: State, s': State, t: Thread)
    requires Inv(s) && Step(s, s', Claim(t))
    ensures Inv(s')
  {
    assert ThreadInv(s, t);
    if PcOf(s, t).key in s.running {
      forall u: Thread
        ensures ThreadInv(s', u)
      {
        ClaimKeepsThreads(s, s', t, u);
      }
      forall j | 0 <= j < |s'.insts|
        ensures Owned(s', j)
      {
        ClaimKeepsOwners(s, s', t, j);
      }
    } else {
      ContinueKeepsInv(s, t, PcOf(s, t).next);
    }
  }

  lemma CancelKeepsInv(s: State, s': State, t: Thread)
    requires Inv(s) && Step(s, s', Cancel(t))
    ensures Inv(s')
  {
    forall u: Thread
      ensures ThreadInv(s', u)
    {
      assert ThreadInv(s, u);
    }
    forall i | 0 <= i < |s'.insts|
      ensures Owned(s', i)
    {
      assert Owned(s, i);
    }
  }

  lemma InsertKeepsInv(s: State, s': State, t: Thread)
    requires Inv(s) && Step(s, s', Insert(t))
    ensures Inv(s')
  {
    assert ThreadInv(s, t);
    forall u: Thread
      ensures ThreadInv(s', u)
    {
      assert ThreadInv(s, u);
    }
    forall i | 0 <= i < |s'.insts|
      ensures Owned(s', i)
    {
      if i < |s.insts| {
        assert Owned(s, i);
      }
    }
  }

  lemma SpawnKeepsInv(s: State, s': State, t: Thread)
    requires Inv(s) && Step(s, s', Spawn(t))
    ensures Inv(s')
  {
    assert ThreadInv(s, t);
    forall u: Thread
      ensures ThreadInv(s', u)
    {
      assert ThreadInv(s, u);
    }
    forall i | 0 <= i < |s'.insts|
      ensures Owned(s', i)
    {
      assert Owned(s, i);
    }
  }

  lemma ExitKeepsInv(s: State, s': State, i: nat)
    requires Inv(s) && Step(s, s', InstanceExits(i))
    ensures Inv(s')
  {
    forall u: Thread
      ensures ThreadInv(s', u)
    {
      assert ThreadInv(s, u);
    }
    forall j | 0 <= j < |s'.insts|
      ensures Owned(s', j)
    {
      assert Owned(s, j);
    }
  }

  lemma StepKeepsInv(s: State, s': State, l: Label)
    requires Inv(s) && Step(s, s', l)
    ensures Inv(s')
  {
    match l
    case BeginSync(t, key, desire) => BeginKeepsInv(s, s', t, key, desire);
    case Look(t) => LookKeepsInv(s, s', t);
    case Claim(t) => ClaimKeepsInv(s, s', t);
    case Cancel(t) => CancelKeepsInv(s, s', t);
    case Joined(t) => JoinedKeepsInv(s, s', t);
    case BuildEnds(t, ok) => BuildKeepsInv(s, s', t, ok);
    case Insert(t) => InsertKeepsInv(s, s', t);
    case Spawn(t) => SpawnKeepsInv(s, s', t);
    case HandleDelete(t, _, _) => StopperKeepsInv(s, s', l);
    case StopAll(t, _) => StopperKeepsInv(s, s', l);
    case MirrorPass(_) =>
    case InstanceExits(i) => ExitKeepsInv(s, s', i);
  }

  lemma {:induction false} RunKeepsInv(states: seq<State>, labels: seq<Label>, n: nat)
    requires Run(states, labels) && n <= |labels|
    ensures Inv(states[n])
  {
    if n > 0 {
      RunKeepsInv(states, labels, n - 1);
      StepKeepsInv(states[n - 1], states[n], labels[n - 1]);
    }
  }

  // ---- results -----------------------------------------------------------------------------------

  /**
   * Instance ownership in every interleaving: each started instance is either the one entry of the
   * map for its key, or was claimed by one thread, which is still stopping it until it has exited.
   */
  lemma EveryInstanceIsOwned(states: seq<State>, labels: seq<Label>, n: nat, i: nat)
    requires Run(states, labels) && n <= |labels| && i < |states[n].insts|
    ensures var s := states[n];
            var key := s.insts[i].key;
            && (i in s.claims <==> !(key in s.running && s.running[key] == i))
            && (forall k | k in s.running && s.running[k] == i :: k == key)
            && (i in s.claims ==> s.insts[i].life == Exited || IsStopping(s, s.claims[i], i))
  {
    RunKeepsInv(states, labels, n);
    assert Owned(states[n], i);
  }

  // A claim is made once and for all.
  lemma {:induction false} ClaimsAreFinal(states: seq<State>, labels: seq<Label>, m: nat, n: nat, i: nat)
    requires Run(states, labels) && m <= n <= |labels| && i in states[m].claims
    ensures i in states[n].claims && states[n].claims[i] == states[m].claims[i]
    decreases n
  {
    if m < n {
      ClaimsAreFinal(states, labels, m, n - 1, i);
      RunKeepsInv(states, labels, n - 1);
      var s := states[n - 1];
      assert Step(s, states[n], labels[n - 1]);
      assert i < |s.insts| && Owned(s, i);
    }
  }

  // A thread that is not a worker is stopping the instance: the delete handler, or stopAll.
  ghost predicate StoppedFromOutside(s: State, i: nat) {
    i in s.claims && s.claims[i] !in s.busy && IsStopping(s, s.claims[i], i)
  }

  /**
   * Two instances of one key that have both not exited: at least one of them is just being stopped by
   * a delete handler or by stopAll. Without such a stopper at most one instance per key is live.
   */
  lemma AtMostOneLivePerKey(states: seq<State>, labels: seq<Label>, n: nat, i: nat, j: nat)
    requires Run(states, labels) && n <= |labels| && i < j < |states[n].insts|
    requires var s := states[n];
             s.insts[i].key == s.insts[j].key && s.insts[i].life != Exited && s.insts[j].life != Exited
    ensures StoppedFromOutside(states[n], i) || StoppedFromOutside(states[n], j)
  {
    RunKeepsInv(states, labels, n);
    var s := states[n];
    assert Owned(s, i) && Owned(s, j);
    if i in s.claims {
      assert ThreadInv(s, s.claims[i]);
    }
    if j in s.claims {
      assert ThreadInv(s, s.claims[j]);
    }
  }

  /**
   * A replacement is put in place only when every earlier instance of the key has exited, except one
   * that a delete handler or stopAll is just stopping.
   */
  lemma ReplacementWaitsForTheOld(states: seq<State>, labels: seq<Label>, n: nat, t: Thread, i: nat)
    requires Run(states, labels) && n < |labels| && labels[n] == Insert(t)
    requires t in states[n].busy && i < |states[n].insts| && states[n].insts[i].key == states[n].busy[t]
    ensures states[n].insts[i].life == Exited || StoppedFromOutside(states[n], i)
  {
    RunKeepsInv(states, labels, n);
    var s := states[n];
    assert Step(s, states[n + 1], labels[n]);
    assert ThreadInv(s, t) && Owned(s, i);
    if i in s.claims {
      assert ThreadInv(s, s.claims[i]);
    }
  }

  // The keys under which the worker and the delete handler know one desire.
  function WorkerKey(clusterID: string, nodePool: string, documentID: string): Key {
    Key(clusterID, nodePool, documentID)
  }

  // ---- the delete handler ------------------------------------------------------------------------

  ghost predicate ActsFor(l: Label, t: Thread) {
    !l.InstanceExits? && !l.MirrorPass? && l.t == t
  }

  // Thread t runs handleDelete from step h on and takes its one look at the map at step c.
  ghost predicate Handles(
      states: seq<State>, labels: seq<Label>, t: Thread, clusterID: string, documentID: string, h: nat, c: nat)
  {
    && Run(states, labels) && h < c < |labels|
    && labels[h] == HandleDelete(t, clusterID, documentID) && labels[c] == Claim(t)
    && (forall m | h < m < c :: !ActsFor(labels[m], t))
  }

  // It returns at state r.
  ghost predicate Returns(states: seq<State>, t: Thread, c: nat, r: nat)
  {
    c < r < |states| && PcOf(states[r], t) == Idle && (forall m | c < m < r :: PcOf(states[m], t) != Idle)
  }

  // A worker puts a new instance of the key into the map.
  ghost predicate Inserts(s: State, l: Label, key: Key) {
    l.Insert? && l.t in s.busy && s.busy[l.t] == key
  }

  ghost predicate AllExited(s: State, key: Key) {
    forall i | 0 <= i < |s.insts| && s.insts[i].key == key :: s.insts[i].life == Exited
  }

  // Some thread has not finished stopping an instance of the key that it claimed.
  ghost predicate BeingStopped(s: State, key: Key) {
    exists i: nat, u: Thread ::
      i < |s.insts| && s.insts[i].key == key && s.insts[i].life != Exited && IsStopping(s, u, i)
  }

  lemma {:induction false} HandlerWaitsToClaim(
      states: seq<State>, labels: seq<Label>, t: Thread, clusterID: string, documentID: string, h: nat, c: nat, m: nat)
    requires Handles(states, labels, t, clusterID, documentID, h, c) && h < m <= c
    ensures PcOf(states[m], t) == Stopping(Key(clusterID, "", documentID), Return)
  {
    if m == h + 1 {
      assert Step(states[h], states[m], labels[h]);
    } else {
      HandlerWaitsToClaim(states, labels, t, clusterID, documentID, h, c, m - 1);
      assert Step(states[m - 1], states[m], labels[m - 1]);
      assert !ActsFor(labels[m - 1], t);
    }
  }

  // Only an insert brings a key into the map, and it always does.
  lemma EntriesComeByInsert(states: seq<State>, labels: seq<Label>, m: nat, key: Key)
    requires Run(states, labels) && m < |labels|
    requires key !in states[m].running && !Inserts(states[m], labels[m], key)
    ensures key !in states[m + 1].running
  {
    assert Step(states[m], states[m + 1], labels[m]);
  }

  lemma InsertBringsTheEntry(states: seq<State>, labels: seq<Label>, m: nat, key: Key)
    requires Run(states, labels) && m < |labels| && Inserts(states[m], labels[m], key)
    ensures key in states[m + 1].running
  {
    assert Step(states[m], states[m + 1], labels[m]);
  }

  lemma {:induction false} OutUntilInserted(states: seq<State>, labels: seq<Label>, key: Key, c: nat, n: nat)
    requires Run(states, labels) && c <= n <= |labels| && key !in states[c].running
    requires forall m | c <= m < n :: !Inserts(states[m], labels[m], key)
    ensures key !in states[n].running
    decreases n
  {
    if c < n {
      var m := n - 1;
      OutUntilInserted(states, labels, key, c, m);
      assert !Inserts(states[m], labels[m], key);
      EntriesComeByInsert(states, labels, m, key);
    }
  }

  lemma HandlerClaims(
      states: seq<State>, labels: seq<Label>, t: Thread, clusterID: string, documentID: string, h: nat, c: nat)
    requires Handles(states, labels, t, clusterID, documentID, h, c)
    ensures var s, key := states[c], Key(clusterID, "", documentID);
            && states[c + 1].running == s.running - {key}
            && PcOf(states[c + 1], t) == if key in s.running then Cancelling(s.running[key], Return) else Idle
  {
    HandlerWaitsToClaim(states, labels, t, clusterID, documentID, h, c, c);
    assert Step(states[c], states[c + 1], labels[c]);
    var s, key := states[c], Key(clusterID, "", documentID);
    if key !in s.running {
      assert s.running - {key} == s.running;
    }
  }

  // The handler looks under the desire's own key, or there is nothing under that key.
  ghost predicate Reached(s: State, nodePool: string, key: Key) {
    nodePool == "" || key !in s.running
  }

  ghost predicate NoInserts(states: seq<State>, labels: seq<Label>, key: Key, c: nat, n: nat)
    requires n <= |labels| < |states|
  {
    forall m | c < m < n :: !Inserts(states[m], labels[m], key)
  }

  ghost predicate StaysOut(states: seq<State>, key: Key, c: nat, n: nat)
    requires n < |states|
  {
    forall m | c < m <= n :: key !in states[m].running
  }

  /**
   * From the handler's claim on, up to any later state, the entry of the deleted desire stays out of
   * the map if and only if the desire has no node pool, or no entry at the claim, and no worker inserts
   * it.
   */
  lemma EntryStaysOutExactly(
      states: seq<State>, labels: seq<Label>, t: Thread, clusterID: string, nodePool: string, documentID: string,
      h: nat, c: nat, n: nat)
    requires Handles(states, labels, t, clusterID, documentID, h, c) && c < n <= |labels|
    ensures var key := WorkerKey(clusterID, nodePool, documentID);
            StaysOut(states, key, c, n) <==> Reached(states[c], nodePool, key) && NoInserts(states, labels, key, c, n)
  {
    var key := WorkerKey(clusterID, nodePool, documentID);
    HandlerClaims(states, labels, t, clusterID, documentID, h, c);
    if !Reached(states[c], nodePool, key) {
      assert key in states[c + 1].running;
    } else if m :| c < m < n && Inserts(states[m], labels[m], key) {
      InsertBringsTheEntry(states, labels, m, key);
      assert key in states[m + 1].running;
    } else {
      forall m | c < m <= n
        ensures key !in states[m].running
      {
        OutUntilInserted(states, labels, key, c + 1, m);
      }
    }
  }

  lemma {:induction false} InstancesPersist(states: seq<State>, labels: seq<Label>, m: nat, n: nat, i: nat)
    requires Run(states, labels) && m <= n <= |labels| && i < |states[m].insts|
    ensures i < |states[n].insts| && states[n].insts[i].key == states[m].insts[i].key
    ensures states[m].insts[i].life == Exited ==> states[n].insts[i].life == Exited
    decreases n
  {
    if m < n {
      InstancesPersist(states, labels, m, n - 1, i);
      RunKeepsInv(states, labels, n - 1);
      assert Step(states[n - 1], states[n], labels[n - 1]);
      if labels[n - 1].Spawn? {
        assert ThreadInv(states[n - 1], labels[n - 1].t);
      }
    }
  }

  // A thread that stops an instance on its own account goes on stopping it until it has exited.
  lemma StopperGoesOn(s: State, s': State, l: Label, t: Thread, i: nat)
    requires Step(s, s', l) && i < |s.insts|
    requires PcOf(s, t) == Cancelling(i, Return) || PcOf(s, t) == Waiting(i, Return)
    ensures PcOf(s', t) == Cancelling(i, Return) || PcOf(s', t) == Waiting(i, Return)
            || (PcOf(s', t) == Idle && s.insts[i].life == Exited)
  {
    if ActsFor(l, t) {
      assert l.Cancel? || l.Joined?;
    }
  }

  // Until it returns the handler is stopping the instance it claimed, and returns when that has exited.
  lemma {:induction false} HandlerWaitsForItsInstance(
      states: seq<State>, labels: seq<Label>, t: Thread, clusterID: string, documentID: string,
      h: nat, c: nat, r: nat, m: nat)
    requires Handles(states, labels, t, clusterID, documentID, h, c) && Returns(states, t, c, r) && c < m <= r
    requires Key(clusterID, "", documentID) in states[c].running
    ensures var i := states[c].running[Key(clusterID, "", documentID)];
            && i < |states[m].insts|
            && (if m < r then PcOf(states[m], t) == Cancelling(i, Return) || PcOf(states[m], t) == Waiting(i, Return)
                else states[m].insts[i].life == Exited)
  {
    var i := states[c].running[Key(clusterID, "", documentID)];
    RunKeepsInv(states, labels, c);
    InstancesPersist(states, labels, c, m, i);
    if m == c + 1 {
      HandlerClaims(states, labels, t, clusterID, documentID, h, c);
    } else {
      HandlerWaitsForItsInstance(states, labels, t, clusterID, documentID, h, c, r, m - 1);
      assert Step(states[m - 1], states[m], labels[m - 1]);
      StopperGoesOn(states[m - 1], states[m], labels[m - 1], t, i);
      InstancesPersist(states, labels, m - 1, m, i);
    }
  }

  /**
   * From the handler's claim up to any later state: the entry of the deleted desire has stayed out of
   * the map and every instance of it has exited, if and only if the desire has no node pool, or no
   * entry at the claim, no worker has inserted it since, and no thread is still stopping an instance
   * of it.
   */
  lemma DeleteHandlerEndsTheDesireExactly(
      states: seq<State>, labels: seq<Label>, t: Thread, clusterID: string, nodePool: string, documentID: string,
      h: nat, c: nat, n: nat)
    requires Handles(states, labels, t, clusterID, documentID, h, c) && c < n <= |labels|
    ensures var key := WorkerKey(clusterID, nodePool, documentID);
            StaysOut(states, key, c, n) && AllExited(states[n], key) <==>
            && Reached(states[c], nodePool, key)
            && NoInserts(states, labels, key, c, n)
            && !BeingStopped(states[n], key)
  {
    var key := WorkerKey(clusterID, nodePool, documentID);
    var s := states[n];
    EntryStaysOutExactly(states, labels, t, clusterID, nodePool, documentID, h, c, n);
    RunKeepsInv(states, labels, n);
    if key !in s.running && !BeingStopped(s, key) {
      forall i | 0 <= i < |s.insts| && s.insts[i].key == key
        ensures s.insts[i].life == Exited
      {
        assert Owned(s, i);
      }
    }
  }

  // ---- what can be checked at the claim ----------------------------------------------------------

  predicate OnlyStops(pc: Pc) {
    match pc
    case Stopping(_, next) => next == Return
    case Cancelling(_, next) => next == Return
    case Waiting(_, next) => next == Return
    case _ => false
  }

  // Whatever works on the key will not start an instance of it.
  ghost predicate NoStarter(s: State, key: Key) {
    forall u | u in s.busy && s.busy[u] == key :: OnlyStops(PcOf(s, u))
  }

  // The queue hands the key out and its spec is found.
  ghost predicate FindsSpec(l: Label, key: Key) {
    l.BeginSync? && l.key == key && l.desire.Some?
  }

  lemma NoStarterStays(states: seq<State>, labels: seq<Label>, m: nat, key: Key)
    requires Run(states, labels) && m < |labels| && NoStarter(states[m], key) && !FindsSpec(labels[m], key)
    ensures NoStarter(states[m + 1], key) && !Inserts(states[m], labels[m], key)
  {
    var s, s', l := states[m], states[m + 1], labels[m];
    assert Step(s, s', l);
    forall u | u in s'.busy && s'.busy[u] == key
      ensures OnlyStops(PcOf(s', u))
    {
      assert l.BeginSync? || (u in s.busy && s.busy[u] == key);
    }
  }

  lemma {:induction false} NoStarterNoInsert(states: seq<State>, labels: seq<Label>, key: Key, c: nat, n: nat)
    requires Run(states, labels) && c <= n <= |labels| && NoStarter(states[c], key)
    requires forall m | c <= m < n :: !FindsSpec(labels[m], key)
    ensures NoStarter(states[n], key) && forall m | c <= m < n :: !Inserts(states[m], labels[m], key)
    decreases n
  {
    if c < n {
      NoStarterNoInsert(states, labels, key, c, n - 1);
      NoStarterStays(states, labels, n - 1, key);
    }
  }

  lemma {:induction false} OldInstances(states: seq<State>, labels: seq<Label>, key: Key, c: nat, n: nat, i: nat)
    requires Run(states, labels) && c <= n <= |labels|
    requires forall m | c <= m < n :: !Inserts(states[m], labels[m], key)
    requires i < |states[n].insts| && states[n].insts[i].key == key
    ensures i < |states[c].insts|
    decreases n
  {
    if c < n {
      assert Step(states[n - 1], states[n], labels[n - 1]) && !Inserts(states[n - 1], labels[n - 1], key);
      assert i < |states[n - 1].insts| && states[n - 1].insts[i].key == key;
      OldInstances(states, labels, key, c, n - 1, i);
    }
  }

  /**
   * The delete handler ends a deleted desire for good if, when it takes its look at the map, it reaches
   * the entry, nobody is about to start an instance or still stopping one, and the spec is not found
   * again afterwards: from its return on nothing of the desire is left.
   */
  lemma QuietDesireEndsForGood(
      states: seq<State>, labels: seq<Label>, t: Thread, clusterID: string, nodePool: string, documentID: string,
      h: nat, c: nat, r: nat, n: nat)
    requires Handles(states, labels, t, clusterID, documentID, h, c) && Returns(states, t, c, r) && r <= n <= |labels|
    requires var key := WorkerKey(clusterID, nodePool, documentID);
             Reached(states[c], nodePool, key) && NoStarter(states[c], key) && !BeingStopped(states[c], key)
    requires forall m | c <= m < n :: !FindsSpec(labels[m], WorkerKey(clusterID, nodePool, documentID))
    ensures var key := WorkerKey(clusterID, nodePool, documentID);
            StaysOut(states, key, c, n) && AllExited(states[n], key)
  {
    var key := WorkerKey(clusterID, nodePool, documentID);
    NoStarterNoInsert(states, labels, key, c, n);
    EntryStaysOutExactly(states, labels, t, clusterID, nodePool, documentID, h, c, n);
    forall i | 0 <= i < |states[n].insts| && states[n].insts[i].key == key
      ensures states[n].insts[i].life == Exited
    {
      OldInstances(states, labels, key, c, n, i);
      InstancesPersist(states, labels, c, n, i);
      RunKeepsInv(states, labels, c);
      assert Owned(states[c], i);
      if i !in states[c].claims {
        HandlerWaitsForItsInstance(states, labels, t, clusterID, documentID, h, c, r, r);
        InstancesPersist(states, labels, r, n, i);
      }
    }
  }

  // ---- each condition is needed ------------------------------------------------------------------

  ghost predicate AllIdle(s: State) {
    s.busy == map[] && forall t: Thread :: PcOf(s, t) == Idle
  }

  // The key has a live instance in the map.
  ghost predicate Running(s: State, key: Key) {
    key in s.running && s.running[key] < |s.insts| && s.insts[s.running[key]].life == Live
  }

  function Last(states: seq<State>): State
    requires states != []
  {
    states[|states| - 1]
  }

  function Before(s: State, more: seq<State>, i: nat): State
    requires i < |more|
  {
    if i == 0 then s else more[i - 1]
  }

  // Steps that lead on from s.
  ghost predicate Follow(s: State, more: seq<State>, labels: seq<Label>) {
    && |more| == |labels|
    && (forall i | 0 <= i < |more| :: Step(Before(s, more, i), more[i], labels[i]))
  }

  lemma ExtendedAt(states: seq<State>, labels: seq<Label>, more: seq<State>, next: seq<Label>, n: nat)
    requires Run(states, labels) && Follow(Last(states), more, next) && n < |labels + next|
    ensures Step((states + more)[n], (states + more)[n + 1], (labels + next)[n])
  {
    var all, every := states + more, labels + next;
    if n < |labels| {
      assert all[n] == states[n] && all[n + 1] == states[n + 1] && every[n] == labels[n];
    } else {
      var i := n - |labels|;
      assert all[n] == Before(Last(states), more, i) && all[n + 1] == more[i] && every[n] == next[i];
    }
  }

  lemma Extended(states: seq<State>, labels: seq<Label>, more: seq<State>, next: seq<Label>)
    requires Run(states, labels) && Follow(Last(states), more, next)
    ensures Run(states + more, labels + next)
  {
    forall n | 0 <= n < |labels + next|
      ensures Step((states + more)[n], (states + more)[n + 1], (labels + next)[n])
    {
      ExtendedAt(states, labels, more, next, n);
    }
  }

  // A worker builds, inserts and starts an instance.
  lemma InstanceStarts(s: State, t: Thread, key: Key, target: Target) returns (more: seq<State>, next: seq<Label>)
    requires PcOf(s, t) == Building(target) && s.busy == map[t := key]
    ensures Follow(s, more, next) && next == [BuildEnds(t, true), Insert(t), Spawn(t)]
    ensures more[2] == State(s.insts + [Instance(key, target, false, Live)], s.running[key := |s.insts|],
                             s.claims, map[], s.pcs[t := Idle])
    ensures forall m, u: Thread | 0 <= m < 3 && u != t :: PcOf(more[m], u) == PcOf(s, u)
  {
    var n := |s.insts|;
    var s1 := Go(s, t, Inserting(target));
    var starting, live := Instance(key, target, false, Starting), Instance(key, target, false, Live);
    var s2 := Go(s1.(insts := s.insts + [starting], running := s.running[key := n]), t, Spawning(n));
    var s3 := State(s.insts + [live], s.running[key := n], s.claims, map[], s.pcs[t := Idle]);
    assert s2.insts[n := s2.insts[n].(life := Live)] == s3.insts;
    assert s2.pcs[t := Idle] == s3.pcs && s2.busy - {t} == map[];
    more, next := [s1, s2, s3], [BuildEnds(t, true), Insert(t), Spawn(t)];
    assert Step(s, s1, next[0]) && Step(s1, s2, next[1]) && Step(s2, s3, next[2]);
  }

  // A worker begins SyncOnce for a key that is not in the map, and has looked at it.
  lemma WorkerLooks(states: seq<State>, labels: seq<Label>, t: Thread, key: Key, target: Target)
    returns (states': seq<State>, labels': seq<Label>)
    requires Run(states, labels)
    requires var s := Last(states); PcOf(s, t) == Idle && s.busy == map[] && key !in s.running
    ensures Run(states', labels') && labels <= labels' && states <= states' && |labels'| == |labels| + 2
    ensures Last(states') == Last(states).(busy := map[t := key], pcs := Last(states).pcs[t := Building(target)])
  {
    var s := Last(states);
    var s1 := Go(s.(busy := map[t := key]), t, Looking(target));
    var s2 := Go(s1, t, Building(target));
    assert s.busy[t := key] == s1.busy;
    assert s2.pcs == s.pcs[t := Building(target)];
    var next := [BeginSync(t, key, Some(target)), Look(t)];
    assert Step(s, s1, next[0]);
    assert Step(s1, s2, next[1]);
    Extended(states, labels, [s1, s2], next);
    states', labels' := states + [s1, s2], labels + next;
  }

  // A worker runs SyncOnce for a key that is not in the map.
  lemma WorkerStarts(states: seq<State>, labels: seq<Label>, t: Thread, key: Key, target: Target)
    returns (states': seq<State>, labels': seq<Label>)
    requires Run(states, labels)
    requires var s := Last(states); PcOf(s, t) == Idle && s.busy == map[] && key !in s.running
    ensures Run(states', labels') && labels <= labels' && states <= states' && |labels'| == |labels| + 5
    ensures var s := Last(states);
            Last(states') == State(s.insts + [Instance(key, target, false, Live)], s.running[key := |s.insts|],
                                   s.claims, map[], s.pcs[t := Idle])
  {
    states', labels' := WorkerLooks(states, labels, t, key, target);
    var s := Last(states');
    var more, next := InstanceStarts(s, t, key, target);
    Extended(states', labels', more, next);
    assert s.pcs[t := Idle] == Last(states).pcs[t := Idle];
    states', labels' := states' + more, labels' + next;
  }

  // A delete handler runs up to its claim of the entry.
  lemma HandlerStarts(
      states: seq<State>, labels: seq<Label>, t: Thread, clusterID: string, documentID: string)
    returns (states': seq<State>, labels': seq<Label>)
    requires Run(states, labels) && PcOf(Last(states), t) == Idle && t !in Last(states).busy
    ensures |labels'| == |labels| + 2 && labels <= labels' && states <= states'
    ensures Handles(states', labels', t, clusterID, documentID, |labels|, |labels| + 1)
    ensures states'[|labels| + 1] == Go(Last(states), t, Stopping(Key(clusterID, "", documentID), Return))
    ensures var s, key := Last(states), Key(clusterID, "", documentID);
            Last(states') ==
            if key in s.running then
              State(s.insts, s.running - {key}, s.claims[s.running[key] := t], s.busy,
                    s.pcs[t := Cancelling(s.running[key], Return)])
            else s.(pcs := s.pcs[t := Idle])
  {
    var s, key := Last(states), Key(clusterID, "", documentID);
    var s1 := Go(s, t, Stopping(key, Return));
    var s2 := if key in s.running then
                State(s.insts, s.running - {key}, s.claims[s.running[key] := t], s.busy,
                      s.pcs[t := Cancelling(s.running[key], Return)])
              else s.(pcs := s.pcs[t := Idle]);
    assert s.busy - {t} == s.busy;
    assert s1.pcs[t := Idle] == s.pcs[t := Idle];
    if key in s.running {
      assert s1.pcs[t := Cancelling(s.running[key], Return)] == s2.pcs;
    }
    var next := [HandleDelete(t, clusterID, documentID), Claim(t)];
    assert Step(s, s1, next[0]) && Step(s1, s2, next[1]);
    Extended(states, labels, [s1, s2], next);
    states', labels' := states + [s1, s2], labels + next;
  }

  // Its instance is cancelled and exits, and the handler returns.
  lemma HandlerEnds(states: seq<State>, labels: seq<Label>, t: Thread, i: nat)
    returns (states': seq<State>, labels': seq<Label>)
    requires Run(states, labels)
    requires var s := Last(states);
             && PcOf(s, t) == Cancelling(i, Return) && t !in s.busy
             && i < |s.insts| && s.insts[i].life == Live
    ensures Run(states', labels') && labels <= labels' && states <= states' && |labels'| == |labels| + 3
    ensures var s := Last(states);
            && Last(states') == s.(insts := s.insts[i := s.insts[i].(cancelled := true, life := Exited)],
                                   pcs := s.pcs[t := Idle])
            && (forall m | |states| <= m < |states'| - 1 ::
                 PcOf(states'[m], t) != Idle && states'[m].running == s.running)
    ensures labels' == labels + [Cancel(t), InstanceExits(i), Joined(t)]
  {
    var s := Last(states);
    var s1 := s.(insts := s.insts[i := s.insts[i].(cancelled := true)], pcs := s.pcs[t := Waiting(i, Return)]);
    var s2 := s1.(insts := s.insts[i := s.insts[i].(cancelled := true, life := Exited)]);
    var s3 := s2.(pcs := s.pcs[t := Idle]);
    assert s1.insts[i := s1.insts[i].(life := Exited)] == s2.insts;
    assert s2.pcs[t := Idle] == s3.pcs && s.busy - {t} == s.busy;
    var next := [Cancel(t), InstanceExits(i), Joined(t)];
    assert Step(s, s1, next[0]);
    assert Step(s1, s2, next[1]);
    assert Step(s2, s3, next[2]);
    Extended(states, labels, [s1, s2, s3], next);
    states', labels' := states + [s1, s2, s3], labels + next;
  }

  // A desire with a node pool: the handler returns at once, and the instance of the deleted desire
  // runs on with nobody left to stop it.
  lemma NodePoolIsMissed(clusterID: string, nodePool: string, documentID: string, target: Target)
    returns (states: seq<State>, labels: seq<Label>)
    requires nodePool != ""
    ensures Handles(states, labels, 1, clusterID, documentID, 5, 6) && Returns(states, 1, 6, 7) && |labels| == 7
    ensures AllIdle(states[7]) && Running(states[7], WorkerKey(clusterID, nodePool, documentID))
  {
    var s0 := State([], map[], map[], map[], map[]);
    var key := WorkerKey(clusterID, nodePool, documentID);
    assert Run([s0], []);
    states, labels := WorkerStarts([s0], [], 0, key, target);
    states, labels := HandlerStarts(states, labels, 1, clusterID, documentID);
  }

  // A worker that saw the old instance with another target has gone past its look at the map: it
  // starts a new instance after the handler's claim.
  lemma WorkerInFlightInsertsAgain(clusterID: string, documentID: string, target: Target, newTarget: Target)
    returns (states: seq<State>, labels: seq<Label>)
    requires target != newTarget
    ensures Handles(states, labels, 1, clusterID, documentID, 7, 8) && Returns(states, 1, 8, 16) && |labels| == 16
    ensures WorkerKey(clusterID, "", documentID) in states[8].running
    ensures AllIdle(states[16]) && Running(states[16], WorkerKey(clusterID, "", documentID))
  {
    var s0 := State([], map[], map[], map[], map[]);
    var key := WorkerKey(clusterID, "", documentID);
    assert Run([s0], []);
    var started, before := WorkerStarts([s0], [], 0, key, target);
    var inFlight, looking := WorkerPastItsLook(started, before, key, target, newTarget);
    var claimed, handling := HandlerStarts(inFlight, looking, 1, clusterID, documentID);
    var inserted, rebuilding := WorkerRebuilds(claimed, handling, key, newTarget);
    states, labels := HandlerEnds(inserted, rebuilding, 1, 0);
    assert Handles(states, labels, 1, clusterID, documentID, 7, 8) by {
      assert forall m | 0 <= m < |handling| :: labels[m] == handling[m];
    }
    assert forall m | 0 <= m < |inserted| :: states[m] == inserted[m];
  }

  // BeginSync and Look of worker 0 on a running instance with another target.
  lemma WorkerPastItsLook(states: seq<State>, labels: seq<Label>, key: Key, target: Target, newTarget: Target)
    returns (states': seq<State>, labels': seq<Label>)
    requires Run(states, labels) && target != newTarget
    requires Last(states) == State([Instance(key, target, false, Live)], map[key := 0], map[], map[], map[0 := Idle])
    ensures Run(states', labels') && labels <= labels' && states <= states' && |labels'| == |labels| + 2
    ensures Last(states') ==
            State([Instance(key, target, false, Live)], map[key := 0], map[], map[0 := key],
                  map[0 := Stopping(key, Rebuild(newTarget))])
  {
    var s := Last(states);
    var s1 := s.(busy := map[0 := key], pcs := map[0 := Looking(newTarget)]);
    var s2 := s1.(pcs := map[0 := Stopping(key, Rebuild(newTarget))]);
    assert s.pcs[0 := Looking(newTarget)] == s1.pcs && s1.pcs[0 := Stopping(key, Rebuild(newTarget))] == s2.pcs;
    assert s.busy[0 := key] == s1.busy;
    var next := [BeginSync(0, key, Some(newTarget)), Look(0)];
    assert Step(s, s1, next[0]) && Step(s1, s2, next[1]);
    Extended(states, labels, [s1, s2], next);
    states', labels' := states + [s1, s2], labels + next;
  }

  lemma AllSame(states: seq<State>, s1: State, more: seq<State>, pc: Pc)
    requires PcOf(s1, 1) == pc && forall m | 0 <= m < |more| :: PcOf(more[m], 1) == pc
    ensures forall m | |states| <= m < |states + [s1] + more| :: PcOf((states + [s1] + more)[m], 1) == pc
  {
    forall m | |states| <= m < |states + [s1] + more|
      ensures PcOf((states + [s1] + more)[m], 1) == pc
    {
      assert (states + [s1] + more)[m] == if m == |states| then s1 else more[m - |states| - 1];
    }
  }

  // Worker 0 finds the entry gone and starts the new instance.
  lemma WorkerRebuilds(states: seq<State>, labels: seq<Label>, key: Key, newTarget: Target)
    returns (states': seq<State>, labels': seq<Label>)
    requires Run(states, labels)
    requires var s := Last(states);
             && PcOf(s, 0) == Stopping(key, Rebuild(newTarget)) && s.busy == map[0 := key] && s.running == map[]
    ensures Run(states', labels') && labels <= labels' && states <= states' && |labels'| == |labels| + 4
    ensures var s := Last(states);
            && Last(states') == State(s.insts + [Instance(key, newTarget, false, Live)], map[key := |s.insts|],
                                      s.claims, map[], s.pcs[0 := Idle])
            && (forall m | |states| <= m < |states'| :: PcOf(states'[m], 1) == PcOf(s, 1))
  {
    var s := Last(states);
    var s1 := Go(s, 0, Building(newTarget));
    assert Step(s, s1, Claim(0));
    Extended(states, labels, [s1], [Claim(0)]);
    var more, next := InstanceStarts(s1, 0, key, newTarget);
    Extended(states + [s1], labels + [Claim(0)], more, next);
    states', labels' := states + [s1] + more, labels + [Claim(0)] + next;
    AllSame(states, s1, more, PcOf(s, 1));
    assert s1.pcs[0 := Idle] == s.pcs[0 := Idle] && s1.running[key := |s.insts|] == map[key := |s.insts|];
  }

  // The first start of a desire: the handler finds no entry, and the worker inserts one afterwards.
  lemma FirstStartComesLater(clusterID: string, documentID: string, target: Target)
    returns (states: seq<State>, labels: seq<Label>)
    ensures Handles(states, labels, 1, clusterID, documentID, 2, 3) && Returns(states, 1, 3, 4) && |labels| == 7
    ensures var key := WorkerKey(clusterID, "", documentID);
            key !in states[3].running && AllIdle(states[7]) && Running(states[7], key)
  {
    var s0 := State([], map[], map[], map[], map[]);
    var key := WorkerKey(clusterID, "", documentID);
    assert Run([s0], []);
    var inFlight, looking := WorkerLooks([s0], [], 0, key, target);
    var returned, handling := HandlerStarts(inFlight, looking, 1, clusterID, documentID);
    var more, next := InstanceStarts(Last(returned), 0, key, target);
    Extended(returned, handling, more, next);
    states, labels := returned + more, handling + next;
    assert Handles(states, labels, 1, clusterID, documentID, 2, 3) by {
      assert forall m | 0 <= m < |handling| :: labels[m] == handling[m];
    }
  }

  // A worker past its look with a new target claims only after the handler has returned, when nothing
  // of the desire is left: it starts a new instance all the same.
  lemma WorkerInsertsAfterTheReturn(clusterID: string, documentID: string, target: Target, newTarget: Target)
    returns (states: seq<State>, labels: seq<Label>)
    requires target != newTarget
    ensures Handles(states, labels, 1, clusterID, documentID, 7, 8) && Returns(states, 1, 8, 12) && |labels| == 16
    ensures var key := WorkerKey(clusterID, "", documentID);
            && key in states[8].running
            && StaysOut(states, key, 8, 12) && AllExited(states[12], key)
            && AllIdle(states[16]) && Running(states[16], key)
  {
    var s0 := State([], map[], map[], map[], map[]);
    var key := WorkerKey(clusterID, "", documentID);
    assert Run([s0], []);
    var started, before := WorkerStarts([s0], [], 0, key, target);
    var inFlight, looking := WorkerPastItsLook(started, before, key, target, newTarget);
    var claimed, handling := HandlerStarts(inFlight, looking, 1, clusterID, documentID);
    var returned, ending := HandlerEnds(claimed, handling, 1, 0);
    states, labels := WorkerRebuilds(returned, ending, key, newTarget);
    assert Handles(states, labels, 1, clusterID, documentID, 7, 8) by {
      assert forall m | 0 <= m < |handling| :: labels[m] == handling[m];
    }
    assert forall m | 0 <= m < |returned| :: states[m] == returned[m];
  }

  // Two delete handlers with a re-creation between their claims: the second returns while the first
  // is still stopping the older instance.
  lemma OtherStopperIsStillAtIt(clusterID: string, documentID: string, target: Target)
    returns (states: seq<State>, labels: seq<Label>)
    ensures Handles(states, labels, 2, clusterID, documentID, 12, 13) && Returns(states, 2, 13, 17) && |labels| == 17
    ensures var key := WorkerKey(clusterID, "", documentID);
            && key in states[13].running
            && StaysOut(states, key, 13, 17)
            && !AllExited(states[17], key) && BeingStopped(states[17], key)
  {
    var s0 := State([], map[], map[], map[], map[]);
    var key := WorkerKey(clusterID, "", documentID);
    assert Run([s0], []);
    var a, la := WorkerStarts([s0], [], 0, key, target);
    var b, lb := HandlerStarts(a, la, 1, clusterID, documentID);
    var d, ld := WorkerStarts(b, lb, 0, key, target);
    var e, le := HandlerStarts(d, ld, 2, clusterID, documentID);
    states, labels := HandlerEnds(e, le, 2, 1);
    assert Handles(states, labels, 2, clusterID, documentID, 12, 13) by {
      assert forall m | 0 <= m < |le| :: labels[m] == le[m];
    }
    assert forall m | 0 <= m < |e| :: states[m] == e[m];
    assert IsStopping(states[17], 1, 0) && states[17].insts[0].life == Live && states[17].insts[0].key == key;
  }
}

/** The same methods as one goroutine alone executes them, from the first statement to the last. */
module ManagerMethods {
  import opened Common
  import opened Keys
  import opened Codec
  import opened Manager
  import Store
  import Conditions
  import StatusWriter
  import Mirror

  datatype Fetch = NoSpec | FetchFailed | Spec(desire: Desire)

  // What is recorded when the per-instance controller of a desire cannot be built.
  function BuildFailure(d: Desire, err: Conditions.Error): StatusWriter.Observation {
    StatusWriter.Observation(d.id, d.updateTime, None, Conditions.SuccessfulReport(Some(err)), None, None)
  }

  class ReadDesireManager {
    var insts: seq<Instance>
    var running: map<Key, nat>
    const statuses: Store.DynamoTable

    // Exactly the instances of the map have not exited.
    ghost predicate Valid()
      reads this, statuses
    {
      && statuses.Valid() && Mirror.ReadDocs(statuses.docs)
      && (forall k | k in running :: running[k] < |insts| && insts[running[k]].key == k)
      && (forall i | 0 <= i < |insts| ::
           insts[i].life == Exited || (insts[i].key in running && running[insts[i].key] == i))
    }

    constructor (statuses: Store.DynamoTable)
      requires statuses.Valid() && Mirror.ReadDocs(statuses.docs)
      ensures Valid() && insts == [] && running == map[] && this.statuses == statuses
    {
      insts, running := [], map[];
      this.statuses := statuses;
    }

    // cur.cancel() and <-cur.done: the instance ends some time after its context is cancelled.
    method CancelAndWait(i: nat)
      requires i < |insts|
      modifies this`insts
      ensures insts == old(insts)[i := old(insts)[i].(cancelled := true, life := Exited)]
    {
      insts := insts[i := insts[i].(cancelled := true)];
      insts := insts[i := insts[i].(life := Exited)];
    }

    method StopByKey(key: Key)
      requires Valid()
      modifies this
      ensures Valid() && running == old(running) - {key}
      ensures insts == if key in old(running) then
                         old(insts)[old(running)[key] :=
                           old(insts)[old(running)[key]].(cancelled := true, life := Exited)]
                       else old(insts)
    {
      if key !in running {
        assert running - {key} == running;
        return;
      }
      var cur := running[key];
      running := running - {key};
      CancelAndWait(cur);
    }

    // The instance for the key already runs with the target.
    predicate Keeps(key: Key, target: Target)
      reads this
      requires key in running ==> running[key] < |insts|
    {
      key in running && insts[running[key]].target == target
    }

    // SyncOnce from the build on: `failure` is the error of the factory when it cannot build the
    // per-instance controller; it goes to the status document.
    method Build(key: Key, desire: Desire, failure: Option<Conditions.Error>, now: Time, stamp: Time) returns (ok: bool)
      requires Valid() && key !in running && desire.id != ""
      modifies this, statuses
      ensures Valid() && running - {key} == old(running) && old(insts) <= insts
      ensures failure == None ==>
                && ok && running == old(running)[key := |old(insts)|] && unchanged(statuses)
                && insts == old(insts) + [Instance(key, desire.spec.target, false, Live)]
      ensures failure != None ==> insts == old(insts) && running == old(running)
      ensures failure != None ==>
                (!statuses.up && statuses.docs == old(statuses.docs) && !ok)
                || (var w := StatusWriter.UpdateOnce(statuses.json, old(statuses.docs), Mirror.ZERO,
                                                     BuildFailure(desire, failure.value), now, stamp);
                    statuses.docs == w.docs && ok == w.ok)
      ensures failure != None && ok ==>
                desire.id in statuses.docs
                && Mirror.Told(statuses.docs[desire.id], desire.id, desire.updateTime, failure)
      ensures failure != None && statuses.up ==> ok
      ensures forall id | id != desire.id ::
                (id in statuses.docs <==> id in old(statuses.docs))
                && (id in statuses.docs ==> statuses.docs[id] == old(statuses.docs)[id])
    {
      if failure.Some? {
        assert running - {key} == running;
        var o := BuildFailure(desire, failure.value);
        ghost var before := if o.id in statuses.docs then statuses.docs[o.id] else Mirror.ZERO;
        ok := Mirror.Write(statuses, o, now, stamp);
        if ok {
          Mirror.ReflectedIsTold(statuses.docs[o.id], o, before, failure);
        }
        return ok;
      }
      running := running[key := |insts|];
      insts := insts + [Instance(key, desire.spec.target, false, Live)];
      return true;
    }

    method SyncOnce(key: Key, fetch: Fetch, failure: Option<Conditions.Error>, now: Time, stamp: Time)
        returns (ok: bool)
      requires Valid() && (fetch.Spec? ==> fetch.desire.id != "")
      modifies this, statuses
      ensures Valid()
      // no other key is touched, and no instance of another key
      ensures running - {key} == old(running) - {key} && |old(insts)| <= |insts|
      ensures forall i | 0 <= i < |old(insts)| && old(insts)[i].key != key :: insts[i] == old(insts)[i]
      ensures fetch.FetchFailed? ==> !ok && unchanged(this)
      ensures fetch.NoSpec? ==> ok && key !in running && |insts| == |old(insts)|
      // the running instance is kept when it already has the target
      ensures fetch.Spec? && old(Keeps(key, fetch.desire.spec.target)) ==> ok && unchanged(this)
      ensures !fetch.Spec? || old(Keeps(key, fetch.desire.spec.target)) || failure == None ==> unchanged(statuses)
      ensures fetch.Spec? && key in old(running) ==>
                (old(insts)[old(running)[key]].target == fetch.desire.spec.target ==> ok && unchanged(this))
      // whatever was there, an instance with the target is in the map when it can be built
      ensures fetch.Spec? && failure == None ==>
                key in running && running[key] < |insts| && insts[running[key]].key == key
                && insts[running[key]].target == fetch.desire.spec.target
      // and replaced otherwise
      ensures fetch.Spec? && !old(Keeps(key, fetch.desire.spec.target)) ==>
                && (key in old(running) ==> insts[old(running)[key]].life == Exited)
                && (key in running <==> failure == None)
                && (failure == None ==>
                     ok && |insts| == |old(insts)| + 1 && running[key] == |old(insts)|
                     && insts[|old(insts)|] == Instance(key, fetch.desire.spec.target, false, Live))
      // or, when it cannot be built, stopped and the failure recorded
      ensures fetch.Spec? && !old(Keeps(key, fetch.desire.spec.target)) && failure != None ==>
                && |insts| == |old(insts)|
                && ((!statuses.up && statuses.docs == old(statuses.docs) && !ok)
                    || (var w := StatusWriter.UpdateOnce(statuses.json, old(statuses.docs), Mirror.ZERO,
                                                         BuildFailure(fetch.desire, failure.value), now, stamp);
                        statuses.docs == w.docs && ok == w.ok))
                && (ok ==>
                     fetch.desire.id in statuses.docs
                     && Mirror.Told(statuses.docs[fetch.desire.id], fetch.desire.id, fetch.desire.updateTime, failure))
    {
      match fetch
      case FetchFailed => return false;
      case NoSpec =>
        StopByKey(key);
        return true;
      case Spec(desire) =>
        if Keeps(key, desire.spec.target) {
          return true;
        }
        if key in running {
          StopByKey(key);
        }
        ok := Build(key, desire, failure, now, stamp);
    }

    // The status record goes first; a failure to delete it is only logged.
    method HandleDelete(clusterID: string, documentID: string)
      requires Valid()
      modifies this, statuses
      ensures Valid() && running == old(running) - {Key(clusterID, "", documentID)}
      ensures statuses.docs == old(statuses.docs) - {documentID}
              || (!statuses.up && statuses.docs == old(statuses.docs))
    {
      var _ := statuses.Delete(documentID);
      StopByKey(Key(clusterID, "", documentID));
    }

    method StopAll()
      requires Valid()
      modifies this
      ensures Valid() && running == map[] && |insts| == |old(insts)|
      ensures forall i | 0 <= i < |insts| :: insts[i].life == Exited
    {
      var allKeys := running.Keys;
      while allKeys != {}
        invariant Valid() && allKeys == running.Keys && |insts| == |old(insts)|
        decreases allKeys
      {
        var k :| k in allKeys;
        StopByKey(k);
        allKeys := allKeys - {k};
      }
    }
  }
}
