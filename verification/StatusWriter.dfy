/** pkg/controllers/desirestatuswriter/desirestatuswriter.go: read, mutate, create or replace. */
module StatusWriter {
  import opened Common
  import opened Codec
  import opened Store
  import opened Conditions

  /**
   * What one reconcile pass observed and records by its mutate function. generation and mirror are
   * None when the pass leaves that field alone; mirror Some(None) clears status.kubeContent.
   */
  datatype Observation = Observation(
    id: string,
    observed: Time,
    generation: Option<int>,
    successful: Report,
    degraded: Option<Report>,
    mirror: Option<Option<Raw>>)

  ghost predicate ValidObservation(o: Observation) {
    && o.id != ""
    && o.successful.kind == SUCCESSFUL
    && (o.degraded.Some? ==> o.degraded.value.kind == DEGRADED)
  }

  function RecordConditions(o: Observation, conds: seq<Condition>, now: Time): seq<Condition> {
    var first := SetStatusCondition(conds, o.successful, now);
    if o.degraded.Some? then SetStatusCondition(first, o.degraded.value, now) else first
  }

  // The mutate function of the pass; `now` is the clock the setters read.
  function Record(o: Observation, d: Desire, now: Time): Desire {
    var status := Status(
      RecordConditions(o, d.status.conditions, now),
      o.observed,
      if o.generation.Some? then o.generation.value else d.status.generation);
    d.(id := o.id, status := status, mirrored := if o.mirror.Some? then o.mirror.value else d.mirrored)
  }

  // A desire of the mirroring kind when the observation mirrors.
  predicate Fits(o: Observation, d: Desire) {
    WellFormed(d) && (o.mirror.Some? ==> d.spec.ReadSpec?)
  }

  datatype Update = Update(docs: Docs, writes: nat, ok: bool)

  // One UpdateStatus whose service calls all answer.
  function UpdateOnce(j: Json, docs: Docs, zero: Desire, o: Observation, now: Time, stamp: Time): Update {
    if o.id !in docs then
      var (docs', r) := DynamoCreate(j, docs, Record(o, zero, now), stamp);
      Update(docs', if r.Returned? then 1 else 0, r.Returned?)
    else if Record(o, docs[o.id], now) == docs[o.id] then Update(docs, 0, true)
    else
      var (docs', r) := DynamoReplace(j, docs, Record(o, docs[o.id], now), stamp);
      Update(docs', if r.Returned? then 1 else 0, r.Returned?)
  }

  // The stored documents are filed under their ids, as DynamoDB returns them.
  ghost predicate Stored(j: Json, docs: Docs) {
    forall id | id in docs ::
      docs[id].id == id && WellFormed(docs[id]) && Encodable(j, docs[id]) && Normal(j, docs[id]) == docs[id]
  }

  // `zero` is the zero value of the desire type; `ok` is a nil error.
  method UpdateStatus(table: DynamoTable, zero: Desire, o: Observation, now: Time, stamp: Time) returns (ok: bool)
    requires table.Valid() && ValidObservation(o) && Fits(o, zero)
    requires forall id | id in table.docs :: Fits(o, table.docs[id])
    modifies table
    ensures table.Valid() && forall id | id in table.docs :: Fits(o, table.docs[id])
    ensures (!table.up && table.docs == old(table.docs) && !ok)
            || (var w := UpdateOnce(table.json, old(table.docs), zero, o, now, stamp);
                table.docs == w.docs && ok == w.ok)
  {
    var existing := table.Get(o.id);
    if existing.Refused? {
      if existing.error != NotFound {
        return false;
      }
      var initial := Record(o, zero, now);
      var created := table.Create(initial, stamp);
      return created.Returned?;
    }
    var desired := Record(o, existing.obj, now);
    if existing.obj == desired {
      return true;
    }
    var replaced := table.Replace(desired, stamp);
    return replaced.Returned?;
  }

  // Recording an observation again, at any later time, changes nothing, and it never touches the
  // version or the timestamps of the document.
  lemma RecordingIsIdempotent(o: Observation, d: Desire, first: Time, second: Time)
    requires ValidObservation(o)
    ensures var r := Record(o, d, first);
            && Record(o, r, second) == r
            && r.version == d.version && r.updateTime == d.updateTime
            && r.createTime == d.createTime && r.spec == d.spec
  {
    ConditionsSettle(o, d.status.conditions, first, second);
  }

  lemma ConditionsSettle(o: Observation, conds: seq<Condition>, first: Time, second: Time)
    requires ValidObservation(o)
    ensures RecordConditions(o, RecordConditions(o, conds, first), second) == RecordConditions(o, conds, first)
    ensures Recorded(RecordConditions(o, conds, first), o.successful)
    ensures o.degraded.Some? ==> Recorded(RecordConditions(o, conds, first), o.degraded.value)
  {
    DistinctKinds();
    var one := SetStatusCondition(conds, o.successful, first);
    SettersRecord(conds, o.successful, first);
    if o.degraded.Some? {
      SettersRecord(one, o.degraded.value, first);
    }
    var after := RecordConditions(o, conds, first);
    SettersRecord(after, o.successful, second);
    if o.degraded.Some? {
      SettersRecord(after, o.degraded.value, second);
    }
  }

  lemma DistinctKinds()
    ensures SUCCESSFUL != DEGRADED
  {
    assert |SUCCESSFUL| == 10 && |DEGRADED| == 8;
  }

  // The mirrored text, if any, is stored as it is written.
  predicate Settled(j: Json, o: Observation) {
    o.mirror.Some? && o.mirror.value.Some? ==> j.reencode(o.mirror.value.value) == Some(o.mirror.value.value)
  }

  // The stored document already says what the observation records.
  ghost predicate UpToDate(docs: Docs, o: Observation) {
    o.id in docs && forall t :: Record(o, docs[o.id], t) == docs[o.id]
  }

  // A table holds stored documents.
  lemma TablesAreStored(table: DynamoTable)
    requires table.Valid()
    ensures Stored(table.json, table.docs)
  {
    assert forall id | id in table.docs :: id in table.items;
  }

  // What the document says once the observation is recorded.
  ghost predicate Reflects(d: Desire, o: Observation, before: Desire) {
    && d.id == o.id && d.status.observed == o.observed
    && d.status.generation == (if o.generation.Some? then o.generation.value else before.status.generation)
    && Recorded(d.status.conditions, o.successful)
    && (o.degraded.Some? ==> Recorded(d.status.conditions, o.degraded.value))
    && (forall k | k != SUCCESSFUL && k != DEGRADED ::
         Lookup(d.status.conditions, k) == Lookup(before.status.conditions, k))
    && d.spec.ReadSpec? == before.spec.ReadSpec?
  }

  lemma RecordSays(o: Observation, before: Desire, now: Time)
    requires ValidObservation(o)
    ensures Reflects(Record(o, before, now), o, before)
  {
    DistinctKinds();
    ConditionsSettle(o, before.status.conditions, now, now);
    var first := SetStatusCondition(before.status.conditions, o.successful, now);
    SettersRecord(before.status.conditions, o.successful, now);
    if o.degraded.Some? {
      SettersRecord(first, o.degraded.value, now);
    }
  }

  /**
   * A status write that succeeds leaves the document of the observation saying what was observed, and
   * every other document alone. It writes exactly when the document did not say it before; and it
   * succeeds exactly when what it would write can be encoded.
   */
  lemma UpdateRecords(j: Json, docs: Docs, zero: Desire, o: Observation, now: Time, stamp: Time)
    requires Lawful(j) && Stored(j, docs) && ValidObservation(o) && Fits(o, zero)
    requires forall id | id in docs :: Fits(o, docs[id])
    ensures var w := UpdateOnce(j, docs, zero, o, now, stamp);
            var before := if o.id in docs then docs[o.id] else zero;
            && (w.ok ==> o.id in w.docs && Reflects(w.docs[o.id], o, before))
            && (forall id | id != o.id :: (id in w.docs <==> id in docs) && (id in docs ==> w.docs[id] == docs[id]))
            && (w.ok && o.id in docs && Record(o, before, now) == before ==> w.writes == 0 && w.docs == docs)
            && (w.ok && !(o.id in docs && Record(o, before, now) == before) ==>
                 w.writes == 1 && w.docs[o.id].updateTime == stamp
                 && w.docs[o.id].version == (if o.id in docs then before.version + 1 else 1))
            && (w.ok <==> Encodable(j, Record(o, before, now)))
            && (o.mirror == None && Encodable(j, zero) ==> w.ok)
            && (!w.ok ==> w.docs == docs && w.writes == 0)
  {
    var before := if o.id in docs then docs[o.id] else zero;
    var d := Record(o, before, now);
    RecordSays(o, before, now);
    var out := if o.id in docs then d.(version := d.version + 1, updateTime := stamp)
               else d.(version := 1, updateTime := stamp, createTime := stamp);
    StampsKeepContent(j, d, out.version, out.updateTime, out.createTime);
    if Encodable(j, d) {
      NormalExactly(j, out);
    }
  }

  lemma StoredAfterWrite(j: Json, docs: Docs, out: Desire)
    requires Lawful(j) && Stored(j, docs) && WellFormed(out) && Encodable(j, out)
    ensures Stored(j, docs[out.id := Normal(j, out)])
    ensures docs[out.id := Normal(j, out)].Keys == docs.Keys + {out.id}
    ensures var n := Normal(j, out); n.status == out.status && n.spec.ReadSpec? == out.spec.ReadSpec? && WellFormed(n)
    ensures out.spec.ReadSpec? ==>
              EncodableRaw(j, out.mirrored) && Normal(j, out).mirrored == NormalRaw(j, out.mirrored)
  {
    NormalIsStable(j, out);
  }

  // What a successful write leaves: the recorded document, re-encoded, with a new version and stamp.
  lemma WriteLeaves(j: Json, docs: Docs, zero: Desire, o: Observation, now: Time, stamp: Time)
    requires Lawful(j) && Stored(j, docs) && ValidObservation(o) && Fits(o, zero)
    requires forall id | id in docs :: Fits(o, docs[id])
    requires UpdateOnce(j, docs, zero, o, now, stamp).writes > 0
    ensures var docs' := UpdateOnce(j, docs, zero, o, now, stamp).docs;
            && o.id in docs' && Stored(j, docs') && docs'.Keys == docs.Keys + {o.id}
            && docs'[o.id].status == Record(o, if o.id in docs then docs[o.id] else zero, now).status
            && Fits(o, docs'[o.id])
            && (o.mirror.Some? ==>
                 EncodableRaw(j, o.mirror.value) && docs'[o.id].mirrored == NormalRaw(j, o.mirror.value))
            && (forall id | id in docs && id != o.id :: docs'[id] == docs[id])
  {
    var d := Record(o, if o.id in docs then docs[o.id] else zero, now);
    var out := if o.id in docs then d.(version := d.version + 1, updateTime := stamp)
               else d.(version := 1, updateTime := stamp, createTime := stamp);
    StampsKeepContent(j, d, out.version, out.updateTime, out.createTime);
    assert Encodable(j, out);
    StoredAfterWrite(j, docs, out);
    assert UpdateOnce(j, docs, zero, o, now, stamp).docs == docs[o.id := Normal(j, out)];
  }

  /**
   * After a write, recording the same observation again writes nothing exactly when the mirrored text
   * is unchanged by re-encoding.
   */
  lemma QuietAfterWrite(j: Json, docs: Docs, zero: Desire, o: Observation, now: Time, stamp: Time)
    requires Lawful(j) && Stored(j, docs) && ValidObservation(o) && Fits(o, zero)
    requires forall id | id in docs :: Fits(o, docs[id])
    requires UpdateOnce(j, docs, zero, o, now, stamp).writes > 0
    ensures UpToDate(UpdateOnce(j, docs, zero, o, now, stamp).docs, o) <==> Settled(j, o)
  {
    var docs' := UpdateOnce(j, docs, zero, o, now, stamp).docs;
    WriteLeaves(j, docs, zero, o, now, stamp);
    forall t
      ensures Record(o, docs'[o.id], t).status == docs'[o.id].status
    {
      RecordingIsIdempotent(o, if o.id in docs then docs[o.id] else zero, now, t);
    }
    if UpToDate(docs', o) {
      assert Record(o, docs'[o.id], 0) == docs'[o.id];
    }
  }

  // A call of UpdateStatus: the two clocks, and whether the service answers.
  datatype Call = Call(now: Time, stamp: Time, up: bool)

  function CallOnce(j: Json, docs: Docs, zero: Desire, o: Observation, c: Call): Update {
    if c.up then UpdateOnce(j, docs, zero, o, c.now, c.stamp) else Update(docs, 0, false)
  }

  function CallAll(j: Json, docs: Docs, zero: Desire, o: Observation, calls: seq<Call>): Update
    decreases calls
  {
    if calls == [] then Update(docs, 0, true)
    else
      var w := CallOnce(j, docs, zero, o, calls[0]);
      var rest := CallAll(j, w.docs, zero, o, calls[1..]);
      Update(rest.docs, w.writes + rest.writes, w.ok && rest.ok)
  }

  lemma {:induction false} UpToDateStays(j: Json, docs: Docs, zero: Desire, o: Observation, calls: seq<Call>)
    requires UpToDate(docs, o)
    ensures CallAll(j, docs, zero, o, calls).writes == 0 && CallAll(j, docs, zero, o, calls).docs == docs
  {
    if calls != [] {
      UpToDateStays(j, docs, zero, o, calls[1..]);
    }
  }

  /**
   * Write quiescence. With one writer, any number of UpdateStatus calls recording the same
   * observation, some of which may fail, write at most once from any starting state.
   */
  lemma {:induction false} SameObservationWritesOnce(
      j: Json, docs: Docs, zero: Desire, o: Observation, calls: seq<Call>)
    requires Lawful(j) && Stored(j, docs) && ValidObservation(o) && Settled(j, o) && Fits(o, zero)
    requires forall id | id in docs :: Fits(o, docs[id])
    ensures CallAll(j, docs, zero, o, calls).writes <= 1
  {
    if calls != [] {
      var w := CallOnce(j, docs, zero, o, calls[0]);
      if w.writes > 0 {
        QuietAfterWrite(j, docs, zero, o, calls[0].now, calls[0].stamp);
        UpToDateStays(j, w.docs, zero, o, calls[1..]);
      } else {
        assert w.docs == docs;
        SameObservationWritesOnce(j, docs, zero, o, calls[1..]);
      }
    }
  }

  /**
   * The restriction to settled text is needed: while re-encoding changes the mirrored text, every
   * call writes.
   */
  lemma {:induction false} UnsettledTextIsWrittenEveryTime(
      j: Json, docs: Docs, zero: Desire, o: Observation, calls: seq<Call>)
    requires Lawful(j) && Stored(j, docs) && ValidObservation(o) && Fits(o, zero) && !Settled(j, o)
    requires EncodableRaw(j, o.mirror.value)
    requires forall id | id in docs :: Fits(o, docs[id])
    requires forall c | c in calls :: c.up
    ensures CallAll(j, docs, zero, o, calls).writes == |calls|
    decreases calls
  {
    if calls != [] {
      assert calls[0] in calls;
      var w := CallOnce(j, docs, zero, o, calls[0]);
      if o.id in docs {
        StoredIsNotUnsettled(j, docs[o.id], o, calls[0].now);
      }
      WriteLeaves(j, docs, zero, o, calls[0].now, calls[0].stamp);
      UnsettledTextIsWrittenEveryTime(j, w.docs, zero, o, calls[1..]);
    }
  }

  lemma StoredIsNotUnsettled(j: Json, d: Desire, o: Observation, now: Time)
    requires Lawful(j) && Fits(o, d) && Encodable(j, d) && Normal(j, d) == d && !Settled(j, o)
    ensures Record(o, d, now) != d
  {
    assert NormalRaw(j, d.mirrored) == d.mirrored;
  }
}
