/**
 * pkg/controllers/read_desire_kubernetes/controller.go: one mirror pass copies the live object of the
 * per-instance informer into status.kubeContent.
 */
module Mirror {
  import opened Common
  import opened Codec
  import Store
  import opened Conditions
  import opened StatusWriter

  // The zero value of kubeapplier.ReadDesire.
  const ZERO: Desire :=
    Desire("", 0, 0, 0, ReadSpec("", "", ResourceReference("", "", "", "", "")), Status([], 0, 0), None)

  // The informer's store for the target: the object as json.Marshal renders it, its absence, or one
  // of the ways in which reading it goes wrong.
  datatype CacheAnswer =
    | StoreError(error: Error)
    | UnexpectedType(name: string)
    | MarshalError(error: Error)
    | Missing
    | Live(raw: Raw)

  function Observed(l: CacheAnswer): Option<Raw>
    requires l.Missing? || l.Live?
  {
    if l.Live? then Some(l.raw) else None
  }

  // bytes.Equal does not tell nil from empty.
  function Bytes(raw: Option<Raw>): string {
    match raw case None => "" case Some(s) => s
  }

  function Problem(l: CacheAnswer): Option<Error> {
    match l
    case StoreError(e) => Some(Wrapped("read cache", e))
    case UnexpectedType(name) => Some(PreCheck(Plain("informer cached unexpected type " + name)))
    case MarshalError(e) => Some(Wrapped("marshal observed object", e))
    case _ => None
  }

  // What the pass records, given the kubeContent it read from the status document.
  function ObservationOf(key: string, specTime: Time, l: CacheAnswer, existing: Option<Raw>): Observation {
    Observation(key, specTime, None, SuccessfulReport(Problem(l)), None,
                if Problem(l).Some? || Bytes(Observed(l)) == Bytes(existing) then None else Some(Observed(l)))
  }

  function Existing(docs: Store.Docs, key: string): Option<Raw> {
    if key in docs then docs[key].mirrored else None
  }

  function MirrorOnce(
      j: Json, docs: Store.Docs, key: string, specTime: Time, l: CacheAnswer, now: Time, stamp: Time): Update
  {
    UpdateOnce(j, docs, ZERO, ObservationOf(key, specTime, l, Existing(docs, key)), now, stamp)
  }

  ghost predicate ReadDocs(docs: Store.Docs) {
    forall id | id in docs :: docs[id].spec.ReadSpec?
  }

  // What the status document says of a pass that ended with the error, or without one.
  ghost predicate Told(doc: Desire, key: string, specTime: Time, err: Option<Error>) {
    && doc.id == key && doc.status.observed == specTime
    && match Lookup(doc.status.conditions, "Successful")
       case None => false
       case Some(s) =>
         && (s.status <==> err == None)
         && s.reason == (if err == None then "NoErrors"
                         else if err.value.PreCheck? then "PreCheckFailed" else "KubeAPIError")
         && s.message == (if err == None then "As expected." else Text(err.value))
  }

  lemma ReflectedIsTold(doc: Desire, o: Observation, before: Desire, err: Option<Error>)
    requires Reflects(doc, o, before) && o.successful == SuccessfulReport(err)
    ensures Told(doc, o.id, o.observed, err)
  {
  }

  method SyncOnce(
      table: Store.DynamoTable, key: string, specTime: Time, synced: bool, l: CacheAnswer, now: Time, stamp: Time)
    returns (ok: bool)
    requires table.Valid() && ReadDocs(table.docs) && key != ""
    modifies table
    ensures table.Valid() && ReadDocs(table.docs)
    ensures !synced ==> ok && table.docs == old(table.docs)
    ensures synced ==>
              (!table.up && table.docs == old(table.docs) && !ok)
              || (var w := MirrorOnce(table.json, old(table.docs), key, specTime, l, now, stamp);
                  table.docs == w.docs && ok == w.ok)
  {
    if !synced {
      return true;
    }
    var fetched := table.Get(key);
    if fetched.Refused? && fetched.error != Store.NotFound {
      return false;
    }
    var existing := if fetched.Returned? then fetched.obj.mirrored else None;
    ok := Write(table, ObservationOf(key, specTime, l, existing), now, stamp);
  }

  method Write(table: Store.DynamoTable, o: Observation, now: Time, stamp: Time) returns (ok: bool)
    requires table.Valid() && ReadDocs(table.docs) && ValidObservation(o)
    modifies table
    ensures table.Valid() && ReadDocs(table.docs)
    ensures (!table.up && table.docs == old(table.docs) && !ok)
            || (var w := UpdateOnce(table.json, old(table.docs), ZERO, o, now, stamp);
                table.docs == w.docs && ok == w.ok)
    ensures ok ==> o.id in table.docs
                   && Reflects(table.docs[o.id], o, if o.id in old(table.docs) then old(table.docs)[o.id] else ZERO)
    ensures forall id | id != o.id ::
              (id in table.docs <==> id in old(table.docs))
              && (id in table.docs ==> table.docs[id] == old(table.docs)[id])
    ensures table.up && o.mirror == None ==> ok
  {
    TablesAreStored(table);
    UpdateRecords(table.json, table.docs, ZERO, o, now, stamp);
    WritesKeepTheType(table.json, table.docs, o, now, stamp);
    ok := UpdateStatus(table, ZERO, o, now, stamp);
  }

  lemma WritesKeepTheType(j: Json, docs: Store.Docs, o: Observation, now: Time, stamp: Time)
    requires ReadDocs(docs)
    ensures ReadDocs(UpdateOnce(j, docs, ZERO, o, now, stamp).docs)
  {
  }

  lemma ObservationsFit(docs: Store.Docs, j: Json, key: string, specTime: Time, l: CacheAnswer)
    requires Stored(j, docs) && ReadDocs(docs) && key != ""
    ensures var o := ObservationOf(key, specTime, l, Existing(docs, key));
            ValidObservation(o) && Fits(o, ZERO) && forall id | id in docs :: Fits(o, docs[id])
  {
  }

  // The stored text is never empty and is its own re-encoding.
  lemma StoredTextIsSettled(j: Json, docs: Store.Docs, key: string)
    requires Lawful(j) && Stored(j, docs) && ReadDocs(docs)
    ensures var e := Existing(docs, key); EncodableRaw(j, e) && NormalRaw(j, e) == e && (e.Some? ==> e.value != "")
  {
    if key in docs {
      assert StatusKube(docs[key]) == docs[key].mirrored;
    }
  }

  /**
   * Mirror convergence. After a pass that reached its comparison and returned no error, the stored
   * kubeContent is the re-encoded live object, and nil exactly when the object is absent; the
   * condition is Successful=True.
   */
  lemma MirroredIsTheLiveObject(
      j: Json, docs: Store.Docs, key: string, specTime: Time, l: CacheAnswer, now: Time, stamp: Time)
    requires Lawful(j) && Stored(j, docs) && ReadDocs(docs) && key != ""
    requires l.Missing? || (l.Live? && l.raw != "")
    requires MirrorOnce(j, docs, key, specTime, l, now, stamp).ok
    ensures var docs' := MirrorOnce(j, docs, key, specTime, l, now, stamp).docs;
            && key in docs' && Stored(j, docs') && ReadDocs(docs')
            && EncodableRaw(j, Observed(l)) && docs'[key].mirrored == NormalRaw(j, Observed(l))
            && (docs'[key].mirrored == None <==> l.Missing?)
            && Recorded(docs'[key].status.conditions, SuccessfulReport(None)) && docs'[key].status.observed == specTime
            && Told(docs'[key], key, specTime, None)
  {
    var o := ObservationOf(key, specTime, l, Existing(docs, key));
    ObservationsFit(docs, j, key, specTime, l);
    StoredTextIsSettled(j, docs, key);
    var w := UpdateOnce(j, docs, ZERO, o, now, stamp);
    var before := if key in docs then docs[key] else ZERO;
    ConditionsSettle(o, before.status.conditions, now, now);
    if w.writes > 0 {
      WriteLeaves(j, docs, ZERO, o, now, stamp);
      if o.mirror == None {
        UntouchedMirror(j, docs, o, now, stamp);
      }
    }
  }

  // When reading the informer's store goes wrong, the mirror is kept and the error recorded.
  lemma ProblemsKeepTheMirror(
      j: Json, docs: Store.Docs, key: string, specTime: Time, l: CacheAnswer, now: Time, stamp: Time)
    requires Lawful(j) && Stored(j, docs) && ReadDocs(docs) && key != ""
    requires l.StoreError? || l.UnexpectedType? || l.MarshalError?
    ensures var w := MirrorOnce(j, docs, key, specTime, l, now, stamp);
            && w.ok && key in w.docs && w.docs[key].mirrored == Existing(docs, key)
            && match l
               case StoreError(e) => Told(w.docs[key], key, specTime, Some(Wrapped("read cache", e)))
               case MarshalError(e) => Told(w.docs[key], key, specTime, Some(Wrapped("marshal observed object", e)))
               case UnexpectedType(name) =>
                 Told(w.docs[key], key, specTime, Some(PreCheck(Plain("informer cached unexpected type " + name))))
               case _ => false
  {
    var o := ObservationOf(key, specTime, l, Existing(docs, key));
    ObservationsFit(docs, j, key, specTime, l);
    UpdateRecords(j, docs, ZERO, o, now, stamp);
    var w := UpdateOnce(j, docs, ZERO, o, now, stamp);
    if w.writes > 0 {
      UntouchedMirror(j, docs, o, now, stamp);
    }
    ReflectedIsTold(w.docs[key], o, if key in docs then docs[key] else ZERO, Problem(l));
  }

  // A write that leaves the mirror alone keeps the stored text.
  lemma UntouchedMirror(j: Json, docs: Store.Docs, o: Observation, now: Time, stamp: Time)
    requires Lawful(j) && Stored(j, docs) && ReadDocs(docs) && ValidObservation(o) && o.mirror == None
    requires UpdateOnce(j, docs, ZERO, o, now, stamp).writes > 0
    ensures var docs' := UpdateOnce(j, docs, ZERO, o, now, stamp).docs;
            o.id in docs' && docs'[o.id].mirrored == Existing(docs, o.id)
  {
    StoredTextIsSettled(j, docs, o.id);
    if o.id in docs {
      assert Normal(j, docs[o.id]) == docs[o.id];
    }
  }

  /**
   * A further pass over the unchanged object writes nothing exactly when the object is absent or
   * re-encoding leaves its text unchanged; otherwise it writes every time.
   */
  lemma FurtherPassWritesNothingWhenSettled(
      j: Json, docs: Store.Docs, key: string, specTime: Time, l: CacheAnswer,
      now: Time, stamp: Time, now': Time, stamp': Time)
    requires Lawful(j) && Stored(j, docs) && ReadDocs(docs) && key != ""
    requires l.Missing? || (l.Live? && l.raw != "")
    requires MirrorOnce(j, docs, key, specTime, l, now, stamp).ok
    ensures var docs' := MirrorOnce(j, docs, key, specTime, l, now, stamp).docs;
            var again := MirrorOnce(j, docs', key, specTime, l, now', stamp');
            again.ok && (again.writes == 0 <==> NormalRaw(j, Observed(l)) == Observed(l))
            && (again.writes == 0 ==> again.docs == docs')
  {
    var docs' := MirrorOnce(j, docs, key, specTime, l, now, stamp).docs;
    MirroredIsTheLiveObject(j, docs, key, specTime, l, now, stamp);
    var o' := ObservationOf(key, specTime, l, Existing(docs', key));
    ObservationsFit(docs', j, key, specTime, l);
    var d := docs'[key];
    SettersRecord(d.status.conditions, SuccessfulReport(None), now');
    assert Record(o', d, now').status == d.status;
  }
}
