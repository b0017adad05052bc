/**
 * pkg/controllers/apply_desire/controller.go, evaluateDelete: one delete pass against a cluster in
 * which others may create, delete or release the target before every call.
 */
module DeletePass {
  import opened Common
  import opened Codec
  import opened Conditions

  // Finalizers keep a deleted object in existence, and so does a grace period, as a running pod has
  // one; deletedAt is its deletionTimestamp, as text.
  datatype Object = Object(uid: string, deletedAt: Option<string>, finalizers: set<string>, graceful: bool) {

    predicate Held() {
      finalizers != {} || graceful
    }
  }

  // The apiserver removes an object once it is being deleted and nothing holds it any more.
  predicate CanExist(t: Option<Object>) {
    t.Some? && t.value.deletedAt.Some? ==> t.value.Held()
  }

  type Target = t: Option<Object> | CanExist(t) witness None

  datatype GetAnswer = Found(obj: Object) | Absent | GetFailed(error: Error)

  datatype DeleteAnswer = Deleted | AlreadyGone | DeleteFailed(error: Error)

  datatype Call = GetCall(answer: GetAnswer) | DeleteCall(result: DeleteAnswer)

  function AfterDelete(t: Target, now: string): Target {
    if t == None || !t.value.Held() then None
    else if t.value.deletedAt.Some? then t
    else Some(t.value.(deletedAt := Some(now)))
  }

  class Cluster {
    // a calm cluster answers every call and nobody else touches the target
    const calm: bool
    var target: Target
    // every state the target has been in, the last one current; and every call with its answer
    ghost var past: seq<Target>
    ghost var calls: seq<Call>

    ghost predicate Valid()
      reads this
    {
      past != [] && past[|past| - 1] == target
    }

    constructor (calm: bool, target: Target)
      ensures Valid() && this.calm == calm && this.target == target && calls == []
    {
      this.calm := calm;
      this.target := target;
      this.past := [target];
      this.calls := [];
    }

    // Others act before a call.
    method Interfere()
      requires Valid()
      modifies this`target, this`past
      ensures Valid() && old(past) <= past
      ensures calm ==> target == old(target)
    {
      if !calm {
        var other: Target := *;
        target := other;
      }
      past := past + [target];
    }

    method Get() returns (r: GetAnswer)
      requires Valid()
      modifies this
      ensures Valid() && old(past) <= past
      ensures calls == old(calls) + [GetCall(r)]
      ensures r.Found? ==> target == Some(r.obj)
      ensures r.Absent? ==> target == None
      ensures calm ==> !r.GetFailed? && target == old(target)
    {
      Interfere();
      var fails: bool := *;
      if fails && !calm {
        var e: Error := *;
        r := GetFailed(e);
      } else if target == None {
        r := Absent;
      } else {
        r := Found(target.value);
      }
      calls := calls + [GetCall(r)];
    }

    method Delete(now: string) returns (r: DeleteAnswer)
      requires Valid()
      modifies this
      ensures Valid() && old(past) <= past
      ensures calls == old(calls) + [DeleteCall(r)]
      ensures r.AlreadyGone? ==> target == None
      ensures calm ==>
                r == (if old(target) == None then AlreadyGone else Deleted) && target == AfterDelete(old(target), now)
    {
      Interfere();
      var fails: bool := *;
      if fails && !calm {
        var e: Error := *;
        r := DeleteFailed(e);
      } else if target == None {
        r := AlreadyGone;
      } else {
        target := AfterDelete(target, now);
        past := past + [target];
        r := Deleted;
      }
      calls := calls + [DeleteCall(r)];
    }
  }

  // What the pass writes to the two conditions.
  datatype Verdict = Verdict(successful: Report, degraded: Report)

  function FromError(err: Option<Error>): Verdict {
    Verdict(SuccessfulReport(err), DegradedReport(ClassifyAsDegraded(err)))
  }

  function Gone(): Verdict {
    FromError(None)
  }

  function Waiting(deletedAt: string, uid: string): Verdict {
    Verdict(WaitingReport(deletedAt, uid), DegradedReport(None))
  }

  const INCOMPLETE := PreCheck(Plain("spec.targetItem requires version, resource, and name"))

  predicate Complete(t: ResourceReference) {
    t.resource != "" && t.version != "" && t.name != ""
  }

  ghost predicate AbsentAtSomeInstant(past: seq<Target>, from: nat) {
    exists i :: from <= i < |past| && past[i] == None
  }

  // The calls of one pass: a Get; a Delete only after a Get that found no deletionTimestamp; and
  // one more Get only after a successful Delete.
  ghost predicate OrderlyCalls(calls: seq<Call>) {
    && |calls| <= 3
    && (|calls| > 0 ==> calls[0].GetCall?)
    && (|calls| > 1 ==> calls[1].DeleteCall? && calls[0].answer.Found? && calls[0].answer.obj.deletedAt == None)
    && (|calls| > 2 ==> calls[2].GetCall? && calls[1].result == Deleted)
  }

  function Expect(calls: seq<Call>): Option<Verdict> {
    if calls == [] then Some(FromError(Some(INCOMPLETE)))
    else match calls[|calls| - 1]
      case GetCall(Absent) => Some(Gone())
      case GetCall(GetFailed(e)) =>
        Some(FromError(Some(Wrapped(if |calls| == 1 then "get target" else "post-delete get", e))))
      case GetCall(Found(obj)) =>
        if obj.deletedAt.Some? then Some(Waiting(obj.deletedAt.value, obj.uid)) else None
      case DeleteCall(AlreadyGone) => Some(Gone())
      case DeleteCall(DeleteFailed(e)) => Some(FromError(Some(Wrapped("delete target", e))))
      case DeleteCall(Deleted) => None
  }

  // What the verdict of one pass has to do with the answers to its calls.
  ghost predicate Judged(calls: seq<Call>, target: ResourceReference, now: string, v: Verdict) {
    && OrderlyCalls(calls)
    && (calls == [] <==> !Complete(target))
    && (Expect(calls).Some? ==> v == Expect(calls).value)
    && (Expect(calls).None? ==>
         |calls| == 3 && calls[2].answer.Found? && v == Waiting(now, calls[2].answer.obj.uid))
    && (v.successful.reason == WAITING_FOR_DELETION ==>
         |calls| > 0 && calls[|calls| - 1].GetCall? && calls[|calls| - 1].answer.Found?)
  }

  // The last answer shows that the target is absent.
  predicate ShowsAbsence(calls: seq<Call>) {
    |calls| > 0 && (calls[|calls| - 1] == GetCall(Absent) || calls[|calls| - 1] == DeleteCall(AlreadyGone))
  }

  function Problem(calls: seq<Call>): Option<Error> {
    if calls == [] then None
    else match calls[|calls| - 1]
      case GetCall(GetFailed(e)) => Some(e)
      case DeleteCall(DeleteFailed(e)) => Some(e)
      case _ => None
  }

  // What the two conditions say after the calls, in the words that are stored: success exactly for an
  // absent target, and never a degraded controller without a server-side error.
  ghost predicate Tells(calls: seq<Call>, now: string, v: Verdict) {
    && v.successful.kind == "Successful" && v.degraded.kind == "Degraded"
    && (v.successful.status <==> ShowsAbsence(calls))
    && v.successful.reason ==
       (if ShowsAbsence(calls) then "NoErrors"
        else if calls == [] then "PreCheckFailed"
        else if Problem(calls).Some? then "KubeAPIError"
        else "WaitingForDeletion")
    && (v.degraded.status <==>
         Problem(calls).Some? && !ContainsPreCheck(Problem(calls).value) && !IsClientError(Problem(calls).value))
    && v.degraded.reason == (if v.degraded.status then "Failed" else "NoErrors")
    && (calls != [] && calls[|calls| - 1].GetCall? && calls[|calls| - 1].answer.Found? ==>
         var obj := calls[|calls| - 1].answer.obj;
         v.successful.message ==
           "waiting for deletion: deletionTimestamp=" + (if obj.deletedAt.Some? then obj.deletedAt.value else now)
           + " uid=" + obj.uid)
  }

  lemma JudgedFromDeleteTells(calls: seq<Call>, now: string, v: Verdict)
    requires JudgedFromDelete(calls, now, v)
    ensures Tells(calls, now, v)
  {
  }

  lemma JudgedTells(calls: seq<Call>, target: ResourceReference, now: string, v: Verdict)
    requires Judged(calls, target, now, v)
    ensures Tells(calls, now, v)
  {
    DistinctReasons();
  }

  // The calls of a pass from its Delete on, and the verdict.
  ghost predicate JudgedFromDelete(calls: seq<Call>, now: string, v: Verdict) {
    && 1 <= |calls| <= 2 && calls[0].DeleteCall?
    && (|calls| == 2 <==> calls[0].result == Deleted)
    && (|calls| == 1 ==> v == if calls[0].result.AlreadyGone? then Gone()
                              else FromError(Some(Wrapped("delete target", calls[0].result.error))))
    && (|calls| == 2 ==>
         && calls[1].GetCall?
         && v == match calls[1].answer
                 case Absent => Gone()
                 case GetFailed(e) => FromError(Some(Wrapped("post-delete get", e)))
                 case Found(obj) => Waiting(if obj.deletedAt.Some? then obj.deletedAt.value else now, obj.uid))
  }

  // The second half of a pass: the target was found without a deletionTimestamp.
  method DeleteTarget(cluster: Cluster, now: string) returns (v: Verdict)
    requires cluster.Valid()
    modifies cluster
    ensures cluster.Valid() && old(cluster.past) <= cluster.past && old(cluster.calls) <= cluster.calls
    ensures JudgedFromDelete(cluster.calls[|old(cluster.calls)|..], now, v)
    ensures v.successful.status <==> ShowsAbsence(cluster.calls[|old(cluster.calls)|..])
    ensures v.successful.status ==> v.successful.reason == "NoErrors" && !v.degraded.status
    ensures v.successful.status ==> AbsentAtSomeInstant(cluster.past, |old(cluster.past)| - 1)
    ensures cluster.calm ==>
              var t := old(cluster.target);
              && cluster.target == AfterDelete(t, now)
              && v == if cluster.target == None then Gone()
                      else Waiting(if cluster.target.value.deletedAt.Some?
                                   then cluster.target.value.deletedAt.value else now,
                                   cluster.target.value.uid)
  {
    ghost var c0 := |cluster.calls|;
    DistinctReasons();
    var deleted := cluster.Delete(now);
    assert cluster.calls[c0..] == [DeleteCall(deleted)];
    if deleted.AlreadyGone? {
      assert cluster.past[|cluster.past| - 1] == None;
      return Gone();
    }
    if deleted.DeleteFailed? {
      return FromError(Some(Wrapped("delete target", deleted.error)));
    }
    var post := cluster.Get();
    assert cluster.calls[c0..] == [DeleteCall(deleted), GetCall(post)];
    if post.Absent? {
      assert cluster.past[|cluster.past| - 1] == None;
      return Gone();
    }
    if post.GetFailed? {
      return FromError(Some(Wrapped("post-delete get", post.error)));
    }
    // a re-created object has no deletionTimestamp: the controller reports the current time
    return Waiting(if post.obj.deletedAt.Some? then post.obj.deletedAt.value else now, post.obj.uid);
  }

  /**
   * The pass. Its calls come in order, at most one of them a Delete and only when the Get before saw
   * no deletionTimestamp; its verdict follows from the answers; Successful=True means the target was
   * absent at some instant of the pass, and WaitingForDeletion that the last Get found it.
   */
  method EvaluateDelete(cluster: Cluster, target: ResourceReference, now: string) returns (v: Verdict)
    requires cluster.Valid()
    modifies cluster
    ensures cluster.Valid() && old(cluster.past) <= cluster.past && old(cluster.calls) <= cluster.calls
    ensures Judged(cluster.calls[|old(cluster.calls)|..], target, now, v)
    ensures Tells(cluster.calls[|old(cluster.calls)|..], now, v)
    ensures cluster.calls == old(cluster.calls) <==> target.resource == "" || target.version == "" || target.name == ""
    ensures v.successful.status ==> AbsentAtSomeInstant(cluster.past, |old(cluster.past)| - 1)
    ensures cluster.calm && Complete(target) ==>
              cluster.target == CalmPass(old(cluster.target), now).0 && v == CalmPass(old(cluster.target), now).1
  {
    ghost var c0 := |cluster.calls|;
    v := Evaluate(cluster, target, now);
    JudgedTells(cluster.calls[c0..], target, now, v);
    assert cluster.calls == old(cluster.calls) + cluster.calls[c0..];
  }

  // The calls of a pass and the verdict they lead to.
  method Evaluate(cluster: Cluster, target: ResourceReference, now: string) returns (v: Verdict)
    requires cluster.Valid()
    modifies cluster
    ensures cluster.Valid() && old(cluster.past) <= cluster.past && old(cluster.calls) <= cluster.calls
    ensures Judged(cluster.calls[|old(cluster.calls)|..], target, now, v)
    ensures v.successful.status ==> AbsentAtSomeInstant(cluster.past, |old(cluster.past)| - 1)
    ensures cluster.calm && Complete(target) ==>
              cluster.target == CalmPass(old(cluster.target), now).0 && v == CalmPass(old(cluster.target), now).1
  {
    ghost var c0 := |cluster.calls|;
    DistinctReasons();
    if !Complete(target) {
      assert cluster.calls[c0..] == [];
      return FromError(Some(INCOMPLETE));
    }
    var got := cluster.Get();
    assert cluster.calls[c0..] == [GetCall(got)];
    if got.Absent? {
      assert cluster.past[|cluster.past| - 1] == None;
      return Gone();
    }
    if got.GetFailed? {
      return FromError(Some(Wrapped("get target", got.error)));
    }
    if got.obj.deletedAt.Some? {
      return Waiting(got.obj.deletedAt.value, got.obj.uid);
    }
    ghost var c1 := |cluster.calls|;
    v := DeleteTarget(cluster, now);
    assert cluster.calls[c0..] == [GetCall(got)] + cluster.calls[c1..];
  }

  lemma DistinctReasons()
    ensures |NO_ERRORS| == 8 && |KUBE_API_ERROR| == 12 && |PRE_CHECK_FAILED| == 14 && |WAITING_FOR_DELETION| == 18
  {
  }

  // ---- convergence on a calm cluster -----------------------------------------------------------

  // A whole pass when nothing interferes and no call fails.
  function CalmPass(t: Target, now: string): (Target, Verdict) {
    if t == None then (t, Gone())
    else if t.value.deletedAt.Some? then (t, Waiting(t.value.deletedAt.value, t.value.uid))
    else if !t.value.Held() then (None, Gone())
    else (AfterDelete(t, now), Waiting(now, t.value.uid))
  }

  // Between passes a terminating object loses at least one finalizer or its grace period ends, and
  // nothing is re-created.
  ghost predicate Drains(t: Target, t': Target) {
    if t == None then t' == None
    else
      || t' == None
      || (t'.Some? && t'.value.uid == t.value.uid && t'.value.deletedAt == t.value.deletedAt
          && t'.value.finalizers <= t.value.finalizers && (t'.value.graceful ==> t.value.graceful)
          && (t.value.deletedAt.Some? ==> t'.value != t.value))
  }

  // targets[i] is what pass i finds.
  ghost predicate DrainingRun(targets: seq<Target>, nows: seq<string>) {
    && |targets| == |nows|
    && (forall i | 0 <= i < |targets| - 1 :: Drains(CalmPass(targets[i], nows[i]).0, targets[i + 1]))
  }

  function Remaining(t: Target): nat {
    if t == None then 0 else |t.value.finalizers| + (if t.value.graceful then 1 else 0)
  }

  lemma SmallerSet<T>(a: set<T>, b: set<T>)
    requires a <= b
    ensures |a| <= |b| && (a < b ==> |a| < |b|)
  {
    assert b == a + (b - a) && |b| == |a| + |b - a|;
    if a < b {
      var x :| x in b - a;
      assert |b - a| > 0;
    }
  }

  // What is left after n passes holds an object that is being deleted, and is so much less.
  lemma {:induction false} FinalizersRunOut(targets: seq<Target>, nows: seq<string>, n: nat)
    requires DrainingRun(targets, nows) && n < |targets|
    ensures targets[n] == None
            || (Remaining(targets[n]) + n <= Remaining(targets[0]) && (n > 0 ==> targets[n].value.deletedAt.Some?))
  {
    if n > 0 {
      FinalizersRunOut(targets, nows, n - 1);
      var t, mid, t' := targets[n - 1], CalmPass(targets[n - 1], nows[n - 1]).0, targets[n];
      assert Drains(mid, t');
      if t'.Some? {
        assert mid.value.finalizers == t.value.finalizers && mid.value.graceful == t.value.graceful;
        SmallerSet(t'.value.finalizers, mid.value.finalizers);
      }
    }
  }

  /**
   * On a calm cluster whose finalizers drain and grace periods end, the pass after as many passes as
   * there were finalizers (and one for a grace period), and every later one, reports Successful=True.
   */
  lemma DeletionConverges(targets: seq<Target>, nows: seq<string>, n: nat)
    requires DrainingRun(targets, nows) && n < |targets| && Remaining(targets[0]) <= n
    ensures CalmPass(targets[n], nows[n]) == (None, Gone())
    ensures var v := CalmPass(targets[n], nows[n]).1;
            v.successful.status && v.successful.reason == "NoErrors" && !v.degraded.status
  {
    FinalizersRunOut(targets, nows, n);
  }
}
