/**
 * pkg/controllers/conditions/conditions.go over meta.SetStatusCondition of k8s.io/apimachinery, and
 * the error classification of pkg/controllers/apply_desire/controller.go.
 */
module Conditions {
  import opened Common
  import opened Codec

  const SUCCESSFUL := "Successful"
  const DEGRADED := "Degraded"
  const NO_ERRORS := "NoErrors"
  const KUBE_API_ERROR := "KubeAPIError"
  const PRE_CHECK_FAILED := "PreCheckFailed"
  const WAITING_FOR_DELETION := "WaitingForDeletion"
  const FAILED := "Failed"

  // A Go error and the chain below it: a PreCheckError, an apiserver StatusError, or fmt.Errorf("%w").
  datatype Error =
    | PreCheck(inner: Error)
    | StatusError(code: int, text: string)
    | Wrapped(prefix: string, inner: Error)
    | Plain(text: string)

  function Text(e: Error): string {
    match e
    case PreCheck(inner) => Text(inner)
    case StatusError(_, text) => text
    case Wrapped(prefix, inner) => prefix + ": " + Text(inner)
    case Plain(text) => text
  }

  // errors.As(err, **PreCheckError)
  predicate ContainsPreCheck(e: Error) {
    match e
    case PreCheck(_) => true
    case Wrapped(_, inner) => ContainsPreCheck(inner)
    case _ => false
  }

  // errors.As(err, **StatusError): the first one down the chain
  predicate IsClientError(e: Error) {
    match e
    case StatusError(code, _) => 400 <= code < 500
    case PreCheck(inner) => IsClientError(inner)
    case Wrapped(_, inner) => IsClientError(inner)
    case Plain(_) => false
  }

  function ClassifyAsDegraded(err: Option<Error>): Option<Error> {
    match err
    case None => None
    case Some(e) => if ContainsPreCheck(e) || IsClientError(e) then None else err
  }

  // What a setter wants a condition to say.
  datatype Report = Report(kind: string, status: bool, reason: string, message: string)

  function SuccessfulReport(err: Option<Error>): Report {
    match err
    case None => Report(SUCCESSFUL, true, NO_ERRORS, "As expected.")
    case Some(e) =>
      // a type assertion on the error itself: a wrapped PreCheckError is a KubeAPIError
      Report(SUCCESSFUL, false, if e.PreCheck? then PRE_CHECK_FAILED else KUBE_API_ERROR, Text(e))
  }

  function WaitingReport(deletionTime: string, uid: string): Report {
    Report(SUCCESSFUL, false, WAITING_FOR_DELETION,
           "waiting for deletion: deletionTimestamp=" + deletionTime + " uid=" + uid)
  }

  function DegradedReport(err: Option<Error>): Report {
    match err
    case None => Report(DEGRADED, false, NO_ERRORS, "As expected.")
    case Some(e) => Report(DEGRADED, true, FAILED, "Had an error while syncing: " + Text(e))
  }

  // The errors from the outermost inwards, as Unwrap gives them.
  function Chain(e: Error): seq<Error> {
    match e
    case PreCheck(inner) => [e] + Chain(inner)
    case Wrapped(_, inner) => [e] + Chain(inner)
    case _ => [e]
  }

  // The first StatusError of the chain.
  ghost predicate FirstStatus(e: Error, i: nat) {
    i < |Chain(e)| && Chain(e)[i].StatusError? && forall k | 0 <= k < i :: !Chain(e)[k].StatusError?
  }

  lemma {:induction false} PreCheckIsInTheChain(e: Error)
    ensures ContainsPreCheck(e) <==> exists i :: 0 <= i < |Chain(e)| && Chain(e)[i].PreCheck?
  {
    assert Chain(e)[0] == e;
    if e.Wrapped? {
      PreCheckIsInTheChain(e.inner);
      assert Chain(e)[1..] == Chain(e.inner);
      if i :| 0 <= i < |Chain(e.inner)| && Chain(e.inner)[i].PreCheck? {
        assert Chain(e)[i + 1].PreCheck?;
      }
    }
  }

  ghost predicate ClientAt(e: Error, i: nat) {
    FirstStatus(e, i) && 400 <= Chain(e)[i].code < 500
  }

  lemma StatusOneDeeper(e: Error, i: nat)
    requires e.PreCheck? || e.Wrapped?
    ensures ClientAt(e, i + 1) <==> ClientAt(e.inner, i)
    ensures !ClientAt(e, 0)
  {
    var rest := Chain(e.inner);
    assert Chain(e) == [e] + rest;
    if FirstStatus(e, i + 1) {
      assert forall k | 0 <= k < i :: rest[k] == Chain(e)[k + 1];
    }
  }

  lemma {:induction false} ClientErrorIsFirst(e: Error)
    ensures IsClientError(e) <==> exists i: nat :: ClientAt(e, i)
  {
    if e.PreCheck? || e.Wrapped? {
      ClientErrorIsFirst(e.inner);
      if i: nat :| ClientAt(e.inner, i) {
        StatusOneDeeper(e, i);
        assert ClientAt(e, i + 1);
      }
      if i: nat :| ClientAt(e, i) {
        StatusOneDeeper(e, if i == 0 then 0 else i - 1);
        assert ClientAt(e.inner, i - 1);
      }
    } else {
      assert Chain(e) == [e];
      assert IsClientError(e) ==> ClientAt(e, 0);
    }
  }

  /**
   * What the setters record for an error. Successful=True exactly for none; the reason PreCheckFailed
   * exactly for a PreCheckError that is not wrapped. Degraded=True exactly for an error without a
   * PreCheckError in its chain whose first StatusError, if there is one, is no client error.
   */
  lemma ReportsExactly(err: Option<Error>)
    ensures var s := SuccessfulReport(err);
            && s.kind == "Successful" && (s.status <==> err == None)
            && s.reason == (if err == None then "NoErrors"
                            else if err.value.PreCheck? then "PreCheckFailed" else "KubeAPIError")
            && s.message == (if err == None then "As expected." else Text(err.value))
    ensures var d := DegradedReport(ClassifyAsDegraded(err));
            && d.kind == "Degraded"
            && (d.status <==>
                 && err.Some? && (forall i | 0 <= i < |Chain(err.value)| :: !Chain(err.value)[i].PreCheck?)
                 && !(exists i: nat :: ClientAt(err.value, i)))
            && d.reason == (if d.status then "Failed" else "NoErrors")
            && d.message == (if d.status then "Had an error while syncing: " + Text(err.value) else "As expected.")
  {
    if err.Some? {
      PreCheckIsInTheChain(err.value);
      ClientErrorIsFirst(err.value);
    }
  }

  // The first condition of the kind, as meta.FindStatusCondition finds it.
  function Lookup(conds: seq<Condition>, kind: string): Option<Condition> {
    if conds == [] then None
    else if conds[0].kind == kind then Some(conds[0])
    else Lookup(conds[1..], kind)
  }

  // The transition time moves only with the status.
  function Updated(c: Condition, r: Report, now: Time): Condition {
    Condition(c.kind, r.status, r.reason, r.message, if c.status == r.status then c.since else now)
  }

  function SetStatusCondition(conds: seq<Condition>, r: Report, now: Time): seq<Condition> {
    if conds == [] then [Condition(r.kind, r.status, r.reason, r.message, now)]
    else if conds[0].kind == r.kind then [Updated(conds[0], r, now)] + conds[1..]
    else [conds[0]] + SetStatusCondition(conds[1..], r, now)
  }

  lemma {:induction false} SetAt(conds: seq<Condition>, r: Report, now: Time, i: nat)
    requires i <= |conds| && forall k | 0 <= k < i :: conds[k].kind != r.kind
    requires i < |conds| ==> conds[i].kind == r.kind
    ensures SetStatusCondition(conds, r, now) ==
            if i == |conds| then conds + [Condition(r.kind, r.status, r.reason, r.message, now)]
            else conds[i := Updated(conds[i], r, now)]
  {
    if i > 0 {
      SetAt(conds[1..], r, now, i - 1);
      assert conds == [conds[0]] + conds[1..];
    }
  }

  // The slice a controller hands to the setters.
  class ConditionList {
    var conds: seq<Condition>

    constructor (conds: seq<Condition>)
      ensures this.conds == conds
    {
      this.conds := conds;
    }

    method Set(r: Report, now: Time)
      modifies this
      ensures conds == SetStatusCondition(old(conds), r, now)
    {
      var i := 0;
      while i < |conds| && conds[i].kind != r.kind
        invariant 0 <= i <= |conds|
        invariant conds == old(conds)
        invariant forall k | 0 <= k < i :: conds[k].kind != r.kind
      {
        i := i + 1;
      }
      SetAt(conds, r, now, i);
      if i == |conds| {
        conds := conds + [Condition(r.kind, r.status, r.reason, r.message, now)];
      } else {
        var c := conds[i];
        if c.status != r.status {
          c := c.(status := r.status, since := now);
        }
        c := c.(reason := r.reason, message := r.message);
        conds := conds[i := c];
      }
    }

    method SetSuccessful(err: Option<Error>, now: Time)
      modifies this
      ensures conds == SetStatusCondition(old(conds), SuccessfulReport(err), now)
    {
      if err == None {
        Set(Report(SUCCESSFUL, true, NO_ERRORS, "As expected."), now);
        return;
      }
      var reason := KUBE_API_ERROR;
      if err.value.PreCheck? {
        reason := PRE_CHECK_FAILED;
      }
      Set(Report(SUCCESSFUL, false, reason, Text(err.value)), now);
    }

    method SetSuccessfulWaitingForDeletion(deletionTime: string, uid: string, now: Time)
      modifies this
      ensures conds == SetStatusCondition(old(conds), WaitingReport(deletionTime, uid), now)
    {
      Set(WaitingReport(deletionTime, uid), now);
    }

    method SetDegraded(err: Option<Error>, now: Time)
      modifies this
      ensures conds == SetStatusCondition(old(conds), DegradedReport(err), now)
    {
      if err == None {
        Set(Report(DEGRADED, false, NO_ERRORS, "As expected."), now);
        return;
      }
      Set(Report(DEGRADED, true, FAILED, "Had an error while syncing: " + Text(err.value)), now);
    }
  }

  predicate Says(c: Condition, r: Report) {
    c.kind == r.kind && c.status == r.status && c.reason == r.reason && c.message == r.message
  }

  predicate Recorded(conds: seq<Condition>, r: Report) {
    match Lookup(conds, r.kind) case None => false case Some(c) => Says(c, r)
  }

  /**
   * A setter records its report and leaves every other kind alone; the transition time of its own
   * kind moves exactly when the status flips or the condition is new. Recording again changes nothing.
   */
  lemma {:induction false} SettersRecord(conds: seq<Condition>, r: Report, now: Time)
    ensures var after := SetStatusCondition(conds, r, now);
            && Recorded(after, r)
            && (forall k | k != r.kind :: Lookup(after, k) == Lookup(conds, k))
            && Lookup(after, r.kind).value.since ==
               (match Lookup(conds, r.kind)
                case None => now
                case Some(c) => if c.status == r.status then c.since else now)
            && (Recorded(conds, r) <==> after == conds)
  {
    if conds != [] && conds[0].kind != r.kind {
      SettersRecord(conds[1..], r, now);
      var after := SetStatusCondition(conds, r, now);
      assert after[1..] == SetStatusCondition(conds[1..], r, now);
      assert conds == [conds[0]] + conds[1..];
    } else if conds != [] {
      var after := SetStatusCondition(conds, r, now);
      assert after[1..] == conds[1..];
      assert conds == [conds[0]] + conds[1..];
      assert after[0] == Updated(conds[0], r, now);
    }
  }

  // Each kind occurs at most once.
  ghost predicate Unique(conds: seq<Condition>) {
    forall i, j | 0 <= i < j < |conds| :: conds[i].kind != conds[j].kind
  }

  lemma {:induction false} SettersKeepUnique(conds: seq<Condition>, r: Report, now: Time)
    requires Unique(conds)
    ensures Unique(SetStatusCondition(conds, r, now))
    ensures forall c | c in SetStatusCondition(conds, r, now) :: c.kind == r.kind || c in conds
  {
    if conds != [] && conds[0].kind != r.kind {
      SettersKeepUnique(conds[1..], r, now);
      var rest := SetStatusCondition(conds[1..], r, now);
      forall i | 0 <= i < |rest|
        ensures rest[i].kind != conds[0].kind
      {
        assert rest[i] in rest;
        if rest[i].kind != r.kind {
          assert rest[i] in conds[1..];
        }
      }
    }
  }
}
