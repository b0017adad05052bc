/** pkg/controllers/apply_desire/controller.go: SyncOnce, applyDesired and enqueueWithCooldown. */
module ApplyDesire {
  import opened Common
  import opened Keys
  import opened Codec
  import Store
  import opened Conditions
  import opened StatusWriter
  import DeletePass
  import Cooldown

  const SERVER_SIDE_APPLY := "ServerSideApply"
  const DELETE := "Delete"

  // The zero value of kubeapplier.ApplyDesire.
  const ZERO: Desire :=
    Desire("", 0, 0, 0, ApplySpec("", "", "", ResourceReference("", "", "", "", ""), None), Status([], 0, 0), None)

  // What one pass did; Quiet passes record nothing.
  datatype Pass =
    | Quiet
    | Applied(generation: int, err: Option<Error>)
    | Evaluated(verdict: DeletePass.Verdict)
    | Unknown(applyType: string)

  function UnknownType(applyType: string): Error {
    PreCheck(Plain("unknown desire type " + applyType))
  }

  function VerdictOf(pass: Pass): DeletePass.Verdict
    requires !pass.Quiet?
  {
    match pass
    case Applied(_, err) => DeletePass.FromError(err)
    case Evaluated(v) => v
    case Unknown(t) => DeletePass.Verdict(SuccessfulReport(Some(UnknownType(t))), DegradedReport(None))
  }

  function ObservationOf(pass: Pass, d: Desire): Observation
    requires !pass.Quiet?
  {
    var v := VerdictOf(pass);
    Observation(d.id, d.updateTime, if pass.Applied? then Some(pass.generation) else None,
                v.successful, Some(v.degraded), None)
  }

  // The verdicts a delete pass can reach.
  ghost predicate Reachable(v: DeletePass.Verdict) {
    || (exists err :: v == DeletePass.FromError(err))
    || (exists t, uid :: v == DeletePass.Waiting(t, uid))
  }

  // What the status document of the desire says after a pass, in the words that are stored.
  ghost predicate StatusTells(d: Desire, pass: Pass, doc: Desire, oldGeneration: int)
    requires !pass.Quiet?
  {
    && doc.id == d.id && doc.status.observed == d.updateTime
    && doc.status.generation == (if pass.Applied? then pass.generation else oldGeneration)
    && match (Lookup(doc.status.conditions, "Successful"), Lookup(doc.status.conditions, "Degraded"))
       case (Some(s), Some(g)) => PassTells(pass, s, g)
       case _ => false
  }

  ghost predicate PassTells(pass: Pass, s: Condition, g: Condition)
    requires !pass.Quiet?
  {
    match pass
    case Applied(_, err) =>
      && (s.status <==> err == None)
      && s.reason == (if err == None then "NoErrors"
                      else if err.value.PreCheck? then "PreCheckFailed" else "KubeAPIError")
      && (g.status <==> err.Some? && !ContainsPreCheck(err.value) && !IsClientError(err.value))
    case Evaluated(v) =>
      s.status == v.successful.status && s.reason == v.successful.reason && s.message == v.successful.message
      && g.status == v.degraded.status && g.reason == v.degraded.reason && g.message == v.degraded.message
    case Unknown(_) => !s.status && s.reason == "PreCheckFailed" && !g.status
  }

  lemma VerdictsAreTold(pass: Pass, s: Condition, g: Condition)
    requires !pass.Quiet? && Says(s, VerdictOf(pass).successful) && Says(g, VerdictOf(pass).degraded)
    ensures PassTells(pass, s, g)
  {
  }

  lemma WritesAreTold(j: Json, docs: Store.Docs, d: Desire, pass: Pass, now: Time, stamp: Time)
    requires Lawful(j) && Stored(j, docs) && !pass.Quiet? && ValidObservation(ObservationOf(pass, d))
    requires forall id | id in docs :: Fits(ObservationOf(pass, d), docs[id])
    ensures var w := UpdateOnce(j, docs, ZERO, ObservationOf(pass, d), now, stamp);
            && w.ok && d.id in w.docs
            && StatusTells(d, pass, w.docs[d.id], if d.id in docs then docs[d.id].status.generation else 0)
            && (forall id | id != d.id :: (id in w.docs <==> id in docs) && (id in docs ==> w.docs[id] == docs[id]))
  {
    var o := ObservationOf(pass, d);
    UpdateRecords(j, docs, ZERO, o, now, stamp);
    var conds := UpdateOnce(j, docs, ZERO, o, now, stamp).docs[d.id].status.conditions;
    VerdictsAreTold(pass, Lookup(conds, o.successful.kind).value, Lookup(conds, o.degraded.value.kind).value);
  }

  // A pass whose error is returned, so that the key is retried with backoff.
  predicate Failing(pass: Pass) {
    pass.Unknown? || (pass.Applied? && pass.err.Some?)
  }

  // What the manifest decoder and the apiserver answer: the decode error, and the generation of the
  // applied object or the apply error.
  datatype Answers = Answers(decode: Option<Error>, apply: Result<int, Error>)

  predicate Empty(content: Option<Raw>) {
    content == None || content == Some("")
  }

  // How an apply ends, by its cases.
  predicate AppliedAs(d: Desire, answers: Answers, generation: int, err: Option<Error>)
  {
    var target := d.spec.target;
    var complete := target.resource != "" && target.version != "" && target.name != "";
    var sent := complete && SpecKube(d) != None && SpecKube(d) != Some("") && answers.decode == None;
    && (err == None <==> sent && answers.apply.Ok?)
    && (err == None ==> generation == answers.apply.value)
    && (err != None ==> generation == 0)
    && (err != None && !sent ==> err.value.PreCheck?)
    && (err != None && sent ==> err.value == Wrapped("server-side apply", answers.apply.error))
    && (!complete ==> err == Some(PreCheck(Plain("spec.targetItem requires version, resource, and name"))))
  }

  // The pass that belongs to a desire of the given type; the empty type is a server-side apply.
  ghost predicate Dispatched(d: Desire, answers: Answers, pass: Pass)
    requires d.spec.ApplySpec?
  {
    if d.spec.applyType == SERVER_SIDE_APPLY || d.spec.applyType == "" then
      pass.Applied? && AppliedAs(d, answers, pass.generation, pass.err)
    else if d.spec.applyType == DELETE then pass.Evaluated? && Reachable(pass.verdict)
    else pass == Unknown(d.spec.applyType)
  }

  datatype Fetch = SpecMissing | FetchFailed | Spec(desire: Desire)

  lemma ExpectedIsReachable(calls: seq<DeletePass.Call>)
    ensures DeletePass.Expect(calls).Some? ==> Reachable(DeletePass.Expect(calls).value)
  {
  }

  lemma ObservationsAreValid(d: Desire, answers: Answers, pass: Pass)
    requires d.id != "" && d.spec.ApplySpec? && Dispatched(d, answers, pass)
    ensures ValidObservation(ObservationOf(pass, d))
  {
  }

  class Controller {
    const table: Store.DynamoTable
    const cluster: DeletePass.Cluster
    const cooldown: Cooldown.TimeBasedCooldownChecker
    const deleteCooldown: Cooldown.TimeBasedCooldownChecker
    // the keys handed to queue.Add, in order
    var queued: seq<Key>

    ghost predicate Valid()
      reads this, table, cluster, cooldown, deleteCooldown
    {
      && table.Valid() && cluster.Valid() && cooldown.Valid() && deleteCooldown.Valid()
      && cooldown != deleteCooldown
      && (forall id | id in table.docs :: WellFormed(table.docs[id]))
    }

    constructor (table: Store.DynamoTable, cluster: DeletePass.Cluster, period: int, deletePeriod: int)
      requires table.Valid() && cluster.Valid() && forall id | id in table.docs :: WellFormed(table.docs[id])
      ensures Valid() && this.table == table && this.cluster == cluster && queued == []
      ensures fresh(cooldown) && fresh(deleteCooldown) && cooldown.period == period
              && deleteCooldown.period == deletePeriod
      ensures cooldown.capacity == 1_000_000 && deleteCooldown.capacity == 1_000_000
    {
      this.table, this.cluster := table, cluster;
      cooldown := new Cooldown.TimeBasedCooldownChecker(period);
      deleteCooldown := new Cooldown.TimeBasedCooldownChecker(deletePeriod);
      queued := [];
    }

    method ApplyDesired(d: Desire, answers: Answers) returns (generation: int, err: Option<Error>)
      requires d.spec.ApplySpec?
      ensures AppliedAs(d, answers, generation, err)
    {
      if !DeletePass.Complete(d.spec.target) {
        return 0, Some(DeletePass.INCOMPLETE);
      }
      if Empty(SpecKube(d)) {
        return 0, Some(PreCheck(Plain("spec.serverSideApply.kubeContent is empty")));
      }
      if answers.decode.Some? {
        return 0, Some(PreCheck(Wrapped("decode kubeContent", answers.decode.value)));
      }
      match answers.apply
      case Err(e) => return 0, Some(Wrapped("server-side apply", e));
      case Ok(g) => return g, None;
    }

    method EvaluateDelete(target: ResourceReference, nowText: string) returns (v: DeletePass.Verdict)
      requires cluster.Valid()
      modifies cluster
      ensures cluster.Valid() && Reachable(v) && old(cluster.calls) <= cluster.calls
      ensures DeletePass.Judged(cluster.calls[|old(cluster.calls)|..], target, nowText, v)
      ensures DeletePass.Tells(cluster.calls[|old(cluster.calls)|..], nowText, v)
      ensures v.successful.status ==> DeletePass.AbsentAtSomeInstant(cluster.past, |old(cluster.past)| - 1)
    {
      ghost var n := |cluster.calls|;
      v := DeletePass.EvaluateDelete(cluster, target, nowText);
      ExpectedIsReachable(cluster.calls[n..]);
    }

    method Observe(d: Desire, answers: Answers, nowText: string) returns (pass: Pass)
      requires cluster.Valid() && d.spec.ApplySpec?
      modifies cluster
      ensures cluster.Valid() && Dispatched(d, answers, pass) && old(cluster.calls) <= cluster.calls
      ensures pass.Evaluated? ==>
                DeletePass.Judged(cluster.calls[|old(cluster.calls)|..], d.spec.target, nowText, pass.verdict)
      ensures pass.Evaluated? ==> DeletePass.Tells(cluster.calls[|old(cluster.calls)|..], nowText, pass.verdict)
      ensures !pass.Evaluated? ==> unchanged(cluster)
      ensures pass.Evaluated? && pass.verdict.successful.status ==>
                DeletePass.AbsentAtSomeInstant(cluster.past, |old(cluster.past)| - 1)
    {
      if d.spec.applyType == SERVER_SIDE_APPLY || d.spec.applyType == "" {
        var generation, err := ApplyDesired(d, answers);
        pass := Applied(generation, err);
      } else if d.spec.applyType == DELETE {
        var v := EvaluateDelete(d.spec.target, nowText);
        pass := Evaluated(v);
      } else {
        pass := Unknown(d.spec.applyType);
      }
    }

    // The status write of a pass.
    method Report(d: Desire, pass: Pass, now: Time, stamp: Time) returns (written: bool)
      requires Valid() && !pass.Quiet? && ValidObservation(ObservationOf(pass, d))
      modifies table
      ensures Valid()
      ensures !written ==> !table.up && table.docs == old(table.docs)
      ensures written ==>
                table.docs == UpdateOnce(table.json, old(table.docs), ZERO, ObservationOf(pass, d), now, stamp).docs
      ensures written ==> d.id in table.docs && StatusTells(d, pass, table.docs[d.id],
                if d.id in old(table.docs) then old(table.docs)[d.id].status.generation else 0)
      ensures forall id | id != d.id ::
                (id in table.docs <==> id in old(table.docs))
                && (id in table.docs ==> table.docs[id] == old(table.docs)[id])
    {
      TablesAreStored(table);
      WritesAreTold(table.json, table.docs, d, pass, now, stamp);
      written := UpdateStatus(table, ZERO, ObservationOf(pass, d), now, stamp);
    }

    // One reconcile pass: what it observed goes to the status document of the desire, and a sync
    // error is returned besides being recorded.
    method SyncOnce(fetch: Fetch, answers: Answers, now: Time, nowText: string, stamp: Time)
        returns (pass: Pass, ok: bool, written: bool)
      requires Valid() && (fetch.Spec? ==> fetch.desire.id != "" && fetch.desire.spec.ApplySpec?)
      modifies table, cluster
      ensures Valid()
      ensures !fetch.Spec? ==>
                pass == Quiet && ok == fetch.SpecMissing? && !written && unchanged(table) && unchanged(cluster)
      // the type of the desire selects the pass
      ensures fetch.Spec? ==> Dispatched(fetch.desire, answers, pass) && old(cluster.calls) <= cluster.calls
      ensures fetch.Spec? ==>
                var applyType := fetch.desire.spec.applyType;
                && (pass.Applied? <==> applyType == "ServerSideApply" || applyType == "")
                && (pass.Evaluated? <==> applyType == "Delete")
                && (pass.Unknown? ==> pass.applyType == applyType)
      // a delete pass tells what the cluster answered
      ensures pass.Evaluated? ==>
                && DeletePass.Judged(
                     cluster.calls[|old(cluster.calls)|..], fetch.desire.spec.target, nowText, pass.verdict)
                && DeletePass.Tells(cluster.calls[|old(cluster.calls)|..], nowText, pass.verdict)
      ensures pass.Evaluated? && pass.verdict.successful.status ==>
                DeletePass.AbsentAtSomeInstant(cluster.past, |old(cluster.past)| - 1)
      // the document of the desire says so, every other document is left alone
      ensures written ==>
                && table.docs == UpdateOnce(
                     table.json, old(table.docs), ZERO, ObservationOf(pass, fetch.desire), now, stamp).docs
                && var id := fetch.desire.id;
                   id in table.docs && StatusTells(fetch.desire, pass, table.docs[id],
                     if id in old(table.docs) then old(table.docs)[id].status.generation else 0)
      ensures fetch.Spec? ==>
                && (!written ==> !table.up && table.docs == old(table.docs))
                && (forall id | id != fetch.desire.id ::
                     (id in table.docs <==> id in old(table.docs))
                     && (id in table.docs ==> table.docs[id] == old(table.docs)[id]))
                && (ok <==> written && !pass.Unknown? && !(pass.Applied? && pass.err.Some?))
    {
      if !fetch.Spec? {
        return Quiet, fetch.SpecMissing?, false;
      }
      pass := Observe(fetch.desire, answers, nowText);
      ObservationsAreValid(fetch.desire, answers, pass);
      written := Report(fetch.desire, pass, now, stamp);
      ok := written && !Failing(pass);
    }

    // A changed desire is queued at once; an unchanged one only when its cooldown allows, the shorter
    // one for deletions.
    method EnqueueWithCooldown(d: Desire, changed: bool, now: Time)
      requires Valid() && d.spec.ApplySpec?
      modifies this`queued, cooldown, deleteCooldown
      ensures Valid()
      ensures var key := Key(d.spec.clusterID, d.spec.nodePool, d.id);
              var isDelete := d.spec.applyType == "Delete";
              && (d.id == "" ==> queued == old(queued))
              && (d.id != "" && changed ==> queued == old(queued) + [key])
              && (d.id != "" && !changed ==>
                   queued == old(queued) +
                     if Cooldown.Allowed(old(if isDelete then deleteCooldown.cache else cooldown.cache), key, now)
                       then [key] else [])
              // the gate that was asked has seen the call
              && (d.id != "" && !changed && isDelete ==>
                   deleteCooldown.cache == Cooldown.After(
                     old(deleteCooldown.cache), key, now, deleteCooldown.period, deleteCooldown.capacity))
              && (d.id != "" && !changed && !isDelete ==>
                   cooldown.cache == Cooldown.After(
                     old(cooldown.cache), key, now, cooldown.period, cooldown.capacity))
              && (d.id == "" || changed || isDelete ==> cooldown.cache == old(cooldown.cache))
              && (d.id == "" || changed || !isDelete ==> deleteCooldown.cache == old(deleteCooldown.cache))
    {
      if d.id == "" {
        return;
      }
      var key := Key(d.spec.clusterID, d.spec.nodePool, d.id);
      if changed {
        queued := queued + [key];
        return;
      }
      var allowed: bool;
      if d.spec.applyType == DELETE {
        allowed := deleteCooldown.CanSync(key, now);
      } else {
        allowed := cooldown.CanSync(key, now);
      }
      if allowed {
        queued := queued + [key];
      }
    }
  }
}

/** The conditions of one ApplyDesire over any run of its passes. */
module ApplyStatus {
  import opened Common
  import opened Codec
  import opened Conditions
  import opened StatusWriter
  import opened ApplyDesire
  import DeletePass

  // Between two looks at the stored conditions: a pass recorded its verdict, a write was lost, or
  // the status record was removed together with its spec.
  datatype Event = Recorded(pass: Pass, now: Time) | Lost | Removed

  ghost predicate Possible(pass: Pass) {
    !pass.Quiet? && (pass.Evaluated? ==> Reachable(pass.verdict))
  }

  function AfterPass(conds: seq<Condition>, pass: Pass, now: Time): seq<Condition>
    requires !pass.Quiet?
  {
    var v := VerdictOf(pass);
    SetStatusCondition(SetStatusCondition(conds, v.successful, now), v.degraded, now)
  }

  ghost predicate Step(conds: seq<Condition>, conds': seq<Condition>, e: Event) {
    match e
    case Recorded(pass, now) => Possible(pass) && conds' == AfterPass(conds, pass, now)
    case Lost => conds' == conds
    case Removed => conds' == []
  }

  // From a status without conditions, as a new document has them.
  ghost predicate Run(states: seq<seq<Condition>>, events: seq<Event>) {
    && |states| == |events| + 1 && states[0] == []
    && (forall i | 0 <= i < |events| :: Step(states[i], states[i + 1], events[i]))
  }

  // What the two conditions may say together.
  predicate Consistent(successful: Condition, degraded: Condition) {
    && (degraded.status ==> !successful.status && successful.reason == KUBE_API_ERROR)
    && (successful.reason == PRE_CHECK_FAILED ==> !successful.status && !degraded.status)
    && (successful.reason == WAITING_FOR_DELETION ==> !successful.status && !degraded.status)
    && (successful.status <==> successful.reason == NO_ERRORS)
  }

  ghost predicate Inv(conds: seq<Condition>) {
    && Unique(conds)
    && (forall c | c in conds :: c.kind == SUCCESSFUL || c.kind == DEGRADED)
    && (conds != [] ==>
         match (Lookup(conds, SUCCESSFUL), Lookup(conds, DEGRADED))
         case (Some(s), Some(d)) => Consistent(s, d)
         case _ => false)
  }

  lemma VerdictsAreConsistent(pass: Pass, s: Condition, d: Condition)
    requires Possible(pass) && Says(s, VerdictOf(pass).successful) && Says(d, VerdictOf(pass).degraded)
    ensures s.kind == SUCCESSFUL && d.kind == DEGRADED && Consistent(s, d)
  {
    DeletePass.DistinctReasons();
  }

  lemma PassKeepsInv(conds: seq<Condition>, pass: Pass, now: Time)
    requires Inv(conds) && Possible(pass)
    ensures Inv(AfterPass(conds, pass, now))
  {
    var v := VerdictOf(pass);
    var mid := SetStatusCondition(conds, v.successful, now);
    var after := SetStatusCondition(mid, v.degraded, now);
    DistinctKinds();
    VerdictKinds(pass);
    SettersRecord(conds, v.successful, now);
    SettersRecord(mid, v.degraded, now);
    SettersKeepUnique(conds, v.successful, now);
    SettersKeepUnique(mid, v.degraded, now);
    VerdictsAreConsistent(pass, Lookup(after, SUCCESSFUL).value, Lookup(after, DEGRADED).value);
  }

  lemma VerdictKinds(pass: Pass)
    requires Possible(pass)
    ensures VerdictOf(pass).successful.kind == SUCCESSFUL && VerdictOf(pass).degraded.kind == DEGRADED
  {
  }

  lemma StepKeepsInv(conds: seq<Condition>, conds': seq<Condition>, e: Event)
    requires Inv(conds) && Step(conds, conds', e)
    ensures Inv(conds') && (e.Recorded? ==> conds' != [])
  {
    if e.Recorded? {
      PassKeepsInv(conds, e.pass, e.now);
    }
  }

  /**
   * In every state of every run each condition type occurs at most once, both are present unless
   * nothing was ever recorded, Degraded=True goes only with Successful=False for KubeAPIError, and a
   * failed pre-check or a pending deletion never degrades.
   */
  lemma {:induction false} ConditionsStayConsistent(states: seq<seq<Condition>>, events: seq<Event>, n: nat)
    requires Run(states, events) && n <= |events|
    ensures Inv(states[n])
    ensures n > 0 && events[n - 1].Recorded? ==> states[n] != []
  {
    if n > 0 {
      ConditionsStayConsistent(states, events, n - 1);
      StepKeepsInv(states[n - 1], states[n], events[n - 1]);
    }
  }

  // A transition time moves exactly when its condition's status flips.
  lemma TransitionTimesFollowFlips(states: seq<seq<Condition>>, events: seq<Event>, n: nat, kind: string)
    requires Run(states, events) && n < |events| && events[n].Recorded?
    requires Lookup(states[n], kind).Some?
    ensures Lookup(states[n + 1], kind).Some?
    ensures var before, after := Lookup(states[n], kind).value, Lookup(states[n + 1], kind).value;
            after.since == if after.status == before.status then before.since else events[n].now
  {
    ConditionsStayConsistent(states, events, n);
    assert Step(states[n], states[n + 1], events[n]);
    var pass, now := events[n].pass, events[n].now;
    var v := VerdictOf(pass);
    var mid := SetStatusCondition(states[n], v.successful, now);
    DistinctKinds();
    VerdictKinds(pass);
    SettersRecord(states[n], v.successful, now);
    SettersRecord(mid, v.degraded, now);
  }

  // The mutate function of a pass records exactly its verdict, under the id of the desire.
  lemma PassesRecordTheirVerdict(d: Desire, pass: Pass, stored: Desire, now: Time)
    requires !pass.Quiet?
    ensures var r := Record(ObservationOf(pass, d), stored, now);
            && r.id == d.id && r.status.observed == d.updateTime
            && r.status.generation == (if pass.Applied? then pass.generation else stored.status.generation)
            && r.spec == stored.spec && r.mirrored == stored.mirrored && r.version == stored.version
    ensures Record(ObservationOf(pass, d), stored, now).status.conditions ==
            AfterPass(stored.status.conditions, pass, now)
  {
  }
}
