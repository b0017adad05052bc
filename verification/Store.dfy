/**
 * internal/database/crud.go against a DynamoDB table, and the in-memory FakeCRUD of
 * internal/database/listertesting/fake_crud.go that stands for it in tests.
 */
module Store {
  import opened Common
  import opened Codec

  datatype Error = NotFound | PreconditionFailed | AlreadyExists | Failed(message: string)

  // A store as its clients see it: what Get returns for each id.
  type Docs = map<string, Desire>

  datatype Op = Create(obj: Desire) | Replace(obj: Desire) | Delete(id: string) | Get(id: string)

  datatype Outcome = Returned(obj: Desire) | Done | Refused(error: Error)

  // ---- specification of the DynamoDB store -----------------------------------------------------

  function DynamoCreate(j: Json, docs: Docs, obj: Desire, now: Time): (Docs, Outcome) {
    if obj.id == "" then (docs, Refused(Failed("DocumentID is empty")))
    else if !Encodable(j, obj) then (docs, Refused(Failed("marshal")))
    else if obj.id in docs then (docs, Refused(AlreadyExists))
    else
      var out := obj.(version := 1, updateTime := now, createTime := now);
      (docs[obj.id := Normal(j, out)], Returned(out))
  }

  function DynamoReplace(j: Json, docs: Docs, obj: Desire, now: Time): (Docs, Outcome) {
    if !Encodable(j, obj) then (docs, Refused(Failed("marshal")))
    else if obj.id in docs && docs[obj.id].version == obj.version then
      var out := obj.(version := obj.version + 1, updateTime := now);
      (docs[obj.id := Normal(j, out)], Returned(out))
    else (docs, Refused(PreconditionFailed))
  }

  function DynamoGet(docs: Docs, id: string): Outcome {
    if id in docs then Returned(docs[id]) else Refused(NotFound)
  }

  function DynamoStep(j: Json, docs: Docs, op: Op, now: Time): (Docs, Outcome) {
    match op
    case Create(obj) => DynamoCreate(j, docs, obj, now)
    case Replace(obj) => DynamoReplace(j, docs, obj, now)
    case Delete(id) => (docs - {id}, Done)
    case Get(id) => (docs, DynamoGet(docs, id))
  }

  // ---- specification of FakeCRUD ---------------------------------------------------------------

  datatype Fake = Fake(docs: Docs, counter: nat)

  function FakeCreate(f: Fake, obj: Desire): (Fake, Outcome) {
    if obj.id == "" then (f, Refused(Failed("DocumentID is empty")))
    else if obj.id in f.docs then (f, Refused(AlreadyExists))
    else
      var now := f.counter + 1;
      var out := obj.(version := 1, updateTime := now, createTime := now);
      (Fake(f.docs[obj.id := out], now), Returned(out))
  }

  function FakeReplace(f: Fake, obj: Desire): (Fake, Outcome) {
    if obj.id !in f.docs then (f, Refused(NotFound))
    else if obj.version != f.docs[obj.id].version then (f, Refused(PreconditionFailed))
    else
      var now := f.counter + 1;
      var out := obj.(version := f.docs[obj.id].version + 1, updateTime := now,
                      createTime := f.docs[obj.id].createTime);
      (Fake(f.docs[obj.id := out], now), Returned(out))
  }

  function FakeStep(f: Fake, op: Op): (Fake, Outcome) {
    match op
    case Create(obj) => FakeCreate(f, obj)
    case Replace(obj) => FakeReplace(f, obj)
    case Delete(id) => if id in f.docs then (f.(docs := f.docs - {id}), Done) else (f, Refused(NotFound))
    case Get(id) => (f, if id in f.docs then Returned(f.docs[id]) else Refused(NotFound))
  }

  // ---- the stores as the source has them --------------------------------------------------------

  // `item` is what the table holds for the document that Get returns as `d`.
  ghost predicate Holds(j: Json, item: Item, d: Desire) {
    WellFormed(d) && Encodable(j, d) && Normal(j, d) == d && Encoded(j, d) == Ok(item)
  }

  lemma HoldsIsRead(j: Json, zero: Desire, item: Item, d: Desire)
    requires Lawful(j) && Holds(j, item, d)
    ensures Decoded(j, zero, item) == Ok(d)
    ensures "version" in item && item["version"] == N(d.version)
  {
    RoundTrip(j, zero, d);
    AddedAttributesAreNew(j, d);
    assert MarshalMap(d)["version"] == N(d.version);
  }

  lemma WrittenIsHeld(j: Json, d: Desire)
    requires Lawful(j) && WellFormed(d)
    ensures Encoded(j, d).Ok? <==> Encodable(j, d)
    ensures Encodable(j, d) ==> Holds(j, Encoded(j, d).value, Normal(j, d))
  {
    RoundTrip(j, d, d);
  }

  // The stamps a store sets have no part in what can be encoded.
  lemma StampsKeepContent(j: Json, d: Desire, version: int, updated: Time, created: Time)
    requires WellFormed(d)
    ensures var out := d.(version := version, updateTime := updated, createTime := created);
            WellFormed(out) && (Encodable(j, out) <==> Encodable(j, d))
  {
  }

  method EncodeForTable(j: Json, d: Desire) returns (r: Result<Item, string>)
    requires Lawful(j) && WellFormed(d)
    ensures r.Ok? <==> Encodable(j, d)
    ensures r.Ok? ==> Holds(j, r.value, Normal(j, d))
  {
    WrittenIsHeld(j, d);
    r := DesireToItem(j, d);
  }

  // DynamoReplace by its outcomes.
  lemma ReplaceOutcomes(j: Json, docs: Docs, obj: Desire, now: Time, out: Desire)
    requires out == obj.(version := obj.version + 1, updateTime := now) && Encodable(j, obj) && Encodable(j, out)
    ensures DynamoReplace(j, docs, obj, now) ==
            if obj.id in docs && docs[obj.id].version == obj.version
              then (docs[obj.id := Normal(j, out)], Returned(out))
            else (docs, Refused(PreconditionFailed))
  {
  }

  // What each write of the DynamoDB store means for later reads, and when it is refused.
  lemma CreateIsRead(j: Json, docs: Docs, obj: Desire, now: Time)
    requires WellFormed(obj)
    ensures var (docs', r) := DynamoCreate(j, docs, obj, now);
            && (r.Returned? <==> obj.id != "" && Encodable(j, obj) && obj.id !in docs)
            && (r.Returned? ==>
                 && r.obj == obj.(version := 1, updateTime := now, createTime := now) && Encodable(j, r.obj)
                 && DynamoGet(docs', obj.id) == Returned(Normal(j, r.obj)))
            && (r == Refused(AlreadyExists) <==> obj.id != "" && Encodable(j, obj) && obj.id in docs)
            && (!r.Returned? ==> docs' == docs)
            && (forall id | id != obj.id :: DynamoGet(docs', id) == DynamoGet(docs, id))
  {
    StampsKeepContent(j, obj, 1, now, now);
  }

  lemma ReplaceIsRead(j: Json, docs: Docs, obj: Desire, now: Time)
    requires WellFormed(obj)
    ensures var (docs', r) := DynamoReplace(j, docs, obj, now);
            && (r.Returned? <==> Encodable(j, obj) && obj.id in docs && docs[obj.id].version == obj.version)
            && (r.Returned? ==>
                 && r.obj == obj.(version := obj.version + 1, updateTime := now) && Encodable(j, r.obj)
                 && DynamoGet(docs', obj.id) == Returned(Normal(j, r.obj)))
            && (r == Refused(PreconditionFailed) <==>
                 Encodable(j, obj) && !(obj.id in docs && docs[obj.id].version == obj.version))
            && (!r.Returned? ==> docs' == docs)
            && (forall id | id != obj.id :: DynamoGet(docs', id) == DynamoGet(docs, id))
  {
    StampsKeepContent(j, obj, obj.version + 1, now, obj.createTime);
  }

  // And of the in-memory store.
  lemma FakeWritesAreRead(f: Fake, obj: Desire)
    ensures var (f', r) := FakeStep(f, Create(obj));
            && (r.Returned? <==> obj.id != "" && obj.id !in f.docs)
            && (r.Returned? ==>
                 && r.obj == obj.(version := 1, updateTime := f'.counter, createTime := f'.counter)
                 && f'.counter > f.counter && FakeStep(f', Get(obj.id)).1 == r)
            && (r == Refused(AlreadyExists) <==> obj.id != "" && obj.id in f.docs) && (!r.Returned? ==> f' == f)
            && (forall id | id != obj.id :: FakeStep(f', Get(id)).1 == FakeStep(f, Get(id)).1)
    ensures var (f', r) := FakeStep(f, Replace(obj));
            && (r.Returned? <==> obj.id in f.docs && f.docs[obj.id].version == obj.version)
            && (r.Returned? ==>
                 && r.obj == obj.(version := obj.version + 1, updateTime := f'.counter,
                                  createTime := f.docs[obj.id].createTime)
                 && f'.counter > f.counter && FakeStep(f', Get(obj.id)).1 == r)
            && (r == Refused(NotFound) <==> obj.id !in f.docs) && (!r.Returned? ==> f' == f)
            && (forall id | id != obj.id :: FakeStep(f', Get(id)).1 == FakeStep(f, Get(id)).1)
  {
  }

  lemma CreateOutcomes(j: Json, docs: Docs, obj: Desire, now: Time, out: Desire)
    requires out == obj.(version := 1, updateTime := now, createTime := now) && Encodable(j, obj) && Encodable(j, out)
    requires obj.id != ""
    ensures DynamoCreate(j, docs, obj, now) ==
            if obj.id in docs then (docs, Refused(AlreadyExists)) else (docs[obj.id := Normal(j, out)], Returned(out))
  {
  }

  datatype Put = Written | ConditionFailed | Unavailable

  // The table keeps encoded items; a service call may fail without an effect unless the service is up.
  class DynamoTable {
    const json: Json
    const up: bool
    // the zero value of the desire type
    const zero: Desire
    var items: map<string, Item>
    // the documents the items stand for
    ghost var docs: Docs

    ghost predicate Valid()
      reads this
    {
      && Lawful(json)
      && docs.Keys == items.Keys
      && (forall id | id in items :: docs[id].id == id && Holds(json, items[id], docs[id]))
    }

    constructor (json: Json, up: bool, zero: Desire)
      requires Lawful(json)
      ensures Valid() && docs == map[] && this.json == json && this.up == up && this.zero == zero
    {
      this.json, this.up, this.zero := json, up, zero;
      this.items := map[];
      this.docs := map[];
    }

    // PutItem on the condition attribute_not_exists(documentID).
    method PutIfAbsent(id: string, item: Item, ghost d: Desire) returns (r: Put)
      requires Valid() && Holds(json, item, d) && d.id == id
      modifies this
      ensures Valid()
      ensures r == Written ==> id !in old(docs) && docs == old(docs)[id := d]
      ensures r != Written ==> items == old(items) && docs == old(docs)
      ensures r == ConditionFailed ==> id in docs
      ensures up ==> r != Unavailable
    {
      var fails: bool := *;
      if fails && !up {
        return Unavailable;
      }
      if id in items {
        return ConditionFailed;
      }
      items := items[id := item];
      docs := docs[id := d];
      return Written;
    }

    // The condition version = :expected, which no absent item meets.
    method VersionIs(id: string, expected: int) returns (holds: bool)
      requires Valid()
      ensures holds <==> id in docs && docs[id].version == expected
    {
      if id !in items {
        return false;
      }
      HoldsIsRead(json, zero, items[id], docs[id]);
      return items[id]["version"] == N(expected);
    }

    method PutIfVersion(id: string, item: Item, expected: int, ghost d: Desire) returns (r: Put)
      requires Valid() && Holds(json, item, d) && d.id == id
      modifies this
      ensures Valid()
      ensures r == Written ==> id in old(docs) && old(docs)[id].version == expected && docs == old(docs)[id := d]
      ensures r != Written ==> items == old(items) && docs == old(docs)
      ensures r == ConditionFailed ==> !(id in docs && docs[id].version == expected)
      ensures up ==> r != Unavailable
    {
      var fails: bool := *;
      if fails && !up {
        return Unavailable;
      }
      var holds := VersionIs(id, expected);
      if !holds {
        return ConditionFailed;
      }
      items := items[id := item];
      docs := docs[id := d];
      return Written;
    }

    method Create(obj: Desire, now: Time) returns (r: Outcome)
      requires Valid() && WellFormed(obj)
      modifies this
      ensures Valid()
      ensures (!up && r == Refused(Failed("service")) && items == old(items) && docs == old(docs))
              || (docs, r) == DynamoCreate(json, old(docs), obj, now)
    {
      if obj.id == "" {
        return Refused(Failed("DocumentID is empty"));
      }
      var out := obj.(version := 1, updateTime := now, createTime := now);
      StampsKeepContent(json, obj, 1, now, now);
      var item := EncodeForTable(json, out);
      if item.Err? {
        return Refused(Failed("marshal"));
      }
      CreateOutcomes(json, docs, obj, now, out);
      var put := PutIfAbsent(obj.id, item.value, Normal(json, out));
      match put
      case Written => return Returned(out);
      case ConditionFailed => return Refused(AlreadyExists);
      case Unavailable => return Refused(Failed("service"));
    }

    method Replace(obj: Desire, now: Time) returns (r: Outcome)
      requires Valid() && WellFormed(obj)
      modifies this
      ensures Valid()
      ensures (!up && r == Refused(Failed("service")) && items == old(items) && docs == old(docs))
              || (docs, r) == DynamoReplace(json, old(docs), obj, now)
    {
      var out := obj.(version := obj.version + 1, updateTime := now);
      StampsKeepContent(json, obj, obj.version + 1, now, obj.createTime);
      var item := EncodeForTable(json, out);
      if item.Err? {
        return Refused(Failed("marshal"));
      }
      ReplaceOutcomes(json, docs, obj, now, out);
      var put := PutIfVersion(obj.id, item.value, obj.version, Normal(json, out));
      match put
      case Written => return Returned(out);
      case ConditionFailed => return Refused(PreconditionFailed);
      case Unavailable => return Refused(Failed("service"));
    }

    method Delete(id: string) returns (r: Outcome)
      requires Valid()
      modifies this
      ensures Valid()
      ensures (!up && r == Refused(Failed("service")) && items == old(items) && docs == old(docs))
              || (docs == old(docs) - {id} && r == Done)
    {
      var fails: bool := *;
      if fails && !up {
        return Refused(Failed("service"));
      }
      items := items - {id};
      docs := docs - {id};
      return Done;
    }

    method Get(id: string) returns (r: Outcome)
      requires Valid()
      ensures (!up && r == Refused(Failed("service"))) || r == DynamoGet(docs, id)
      ensures r.Returned? ==> id in docs && r.obj == docs[id]
      ensures up ==> r == if id in docs then Returned(docs[id]) else Refused(NotFound)
    {
      var fails: bool := *;
      if fails && !up {
        return Refused(Failed("service"));
      }
      if id !in items {
        return Refused(NotFound);
      }
      HoldsIsRead(json, zero, items[id], docs[id]);
      var d := ItemToDesire(json, zero, items[id]);
      return Returned(d.value);
    }
  }

  class FakeCRUD {
    var store: Docs
    var counter: nat

    ghost function State(): Fake
      reads this
    {
      Fake(store, counter)
    }

    constructor ()
      ensures State() == Fake(map[], 0)
    {
      store, counter := map[], 0;
    }

    method NextSeq() returns (n: nat)
      modifies this`counter
      ensures n == counter == old(counter) + 1
    {
      counter := counter + 1;
      n := counter;
    }

    method Create(obj: Desire) returns (r: Outcome)
      modifies this
      ensures (State(), r) == FakeCreate(old(State()), obj)
    {
      if obj.id == "" {
        return Refused(Failed("DocumentID is empty"));
      }
      if obj.id in store {
        return Refused(AlreadyExists);
      }
      var now := NextSeq();
      var stored := obj.(version := 1, updateTime := now, createTime := now);
      store := store[obj.id := stored];
      return Returned(stored);
    }

    method Replace(obj: Desire) returns (r: Outcome)
      modifies this
      ensures (State(), r) == FakeReplace(old(State()), obj)
    {
      if obj.id !in store {
        return Refused(NotFound);
      }
      var stored := store[obj.id];
      if obj.version != stored.version {
        return Refused(PreconditionFailed);
      }
      var replacement := obj.(version := stored.version + 1);
      var now := NextSeq();
      replacement := replacement.(updateTime := now, createTime := stored.createTime);
      store := store[obj.id := replacement];
      return Returned(replacement);
    }

    method Delete(id: string) returns (r: Outcome)
      modifies this
      ensures (State(), r) == FakeStep(old(State()), Op.Delete(id))
      ensures store == old(store) - {id} && r == if id in old(store) then Done else Refused(NotFound)
    {
      if id !in store {
        assert store - {id} == store;
        return Refused(NotFound);
      }
      store := store - {id};
      return Done;
    }

    method Get(id: string) returns (r: Outcome)
      ensures (State(), r) == FakeStep(State(), Op.Get(id))
      ensures r == if id in store then Returned(store[id]) else Refused(NotFound)
    {
      if id !in store {
        return Refused(NotFound);
      }
      return Returned(store[id]);
    }
  }

  // ---- simulation ------------------------------------------------------------------------------

  // `clock` pairs each reading of the counter with the wall-clock reading of the same write.
  type Clock = map<Time, Time>

  function Content(d: Desire): Desire {
    d.(version := 0, updateTime := 0, createTime := 0)
  }

  // The same document up to re-encoding of its kubeContent and the choice of clock.
  predicate SameDocument(j: Json, clock: Clock, dyn: Desire, fake: Desire) {
    && dyn.version == fake.version
    && Encodable(j, dyn) && Encodable(j, fake)
    && Normal(j, Content(dyn)) == Normal(j, Content(fake))
    && fake.updateTime in clock && clock[fake.updateTime] == dyn.updateTime
    && fake.createTime in clock && clock[fake.createTime] == dyn.createTime
  }

  ghost predicate Simulates(j: Json, clock: Clock, docs: Docs, f: Fake) {
    && docs.Keys == f.docs.Keys
    && (forall id | id in docs :: SameDocument(j, clock, docs[id], f.docs[id]) && docs[id].id == id)
    && (forall t | t in clock :: t <= f.counter)
  }

  // Objects that agree up to timestamps and re-encoding; unencodable ones up to timestamps.
  predicate SameObject(j: Json, a: Desire, b: Desire) {
    && WellFormed(a) && a.id == b.id
    && (Encodable(j, a) <==> Encodable(j, b))
    && (if Encodable(j, a) && Encodable(j, b) then Normal(j, Content(a)) == Normal(j, Content(b))
        else Content(a) == Content(b))
  }

  // The same call on both stores.
  predicate SameCall(j: Json, dyn: Op, fake: Op) {
    match (dyn, fake)
    case (Create(a), Create(b)) => SameObject(j, a, b)
    case (Replace(a), Replace(b)) => SameObject(j, a, b) && a.version == b.version
    case (Delete(a), Delete(b)) => a == b
    case (Get(a), Get(b)) => a == b
    case _ => false
  }

  // The calls the in-memory store stands for: the object can be encoded (an object without an id is
  // refused before that), and a Replace of the stored version keeps the stored create time.
  predicate Supported(j: Json, docs: Docs, op: Op) {
    match op
    case Create(a) => a.id == "" || Encodable(j, a)
    case Replace(a) =>
      && Encodable(j, a)
      && (a.id in docs && a.version == docs[a.id].version ==> a.createTime == docs[a.id].createTime)
    case _ => true
  }

  // The outcomes agree, except that the stores word the absence of a document differently.
  predicate SameOutcome(j: Json, clock: Clock, docs: Docs, op: Op, dyn: Outcome, fake: Outcome) {
    if op.Replace? && op.obj.id !in docs then dyn == Refused(PreconditionFailed) && fake == Refused(NotFound)
    else if op.Delete? && op.id !in docs then dyn == Done && fake == Refused(NotFound)
    else
      match (dyn, fake)
      case (Returned(a), Returned(b)) => SameDocument(j, clock, a, b)
      case (Refused(a), Refused(b)) => a == b
      case (Done, Done) => true
      case _ => false
  }

  ghost predicate Extends(clock: Clock, clock': Clock) {
    forall t | t in clock :: t in clock' && clock'[t] == clock[t]
  }

  // The documents the two stores keep after the same write are the same.
  lemma SameWrite(j: Json, clock: Clock, a: Desire, b: Desire)
    requires Lawful(j) && WellFormed(a)
    requires SameDocument(j, clock, a, b)
    ensures SameDocument(j, clock, Normal(j, a), b) && Normal(j, a).id == a.id
  {
    NormalIsStable(j, a);
    assert Content(Normal(j, a)) == Normal(j, Content(a));
    NormalIsStable(j, Content(a));
  }

  lemma PutSimulates(j: Json, clock: Clock, clock': Clock, docs: Docs, f: Fake, a: Desire, b: Desire)
    requires Simulates(j, clock, docs, f) && Extends(clock, clock')
    requires SameDocument(j, clock', a, b) && a.id == b.id
    requires forall t | t in clock' :: t <= f.counter + 1
    ensures Simulates(j, clock', docs[a.id := a], Fake(f.docs[a.id := b], f.counter + 1))
  {
    forall id | id in docs && id != a.id
      ensures SameDocument(j, clock', docs[id], f.docs[id])
    {
      assert SameDocument(j, clock, docs[id], f.docs[id]);
    }
  }

  lemma SameContent(j: Json, a: Desire, a': Desire, b: Desire, b': Desire)
    requires Content(a) == Content(a') && Content(b) == Content(b')
    requires Encodable(j, a) && Encodable(j, b) && Normal(j, Content(a)) == Normal(j, Content(b))
    ensures Encodable(j, a') && Encodable(j, b') && Normal(j, Content(a')) == Normal(j, Content(b'))
  {
    assert Encodable(j, a') == Encodable(j, Content(a')) && Encodable(j, b') == Encodable(j, Content(b'));
  }

  lemma WriteSimulates(j: Json, clock: Clock, docs: Docs, f: Fake, a: Desire, b: Desire)
    requires Lawful(j) && WellFormed(a) && Simulates(j, clock, docs, f)
    requires a.id == b.id && a.version == b.version
    requires Encodable(j, a) && Encodable(j, b) && Normal(j, Content(a)) == Normal(j, Content(b))
    requires b.updateTime == f.counter + 1
    requires (b.createTime == b.updateTime && a.createTime == a.updateTime)
             || (b.createTime in clock && clock[b.createTime] == a.createTime)
    ensures var clock' := clock[b.updateTime := a.updateTime];
            && Extends(clock, clock') && SameDocument(j, clock', a, b)
            && Simulates(j, clock', docs[a.id := Normal(j, a)], Fake(f.docs[a.id := b], f.counter + 1))
  {
    var clock' := clock[b.updateTime := a.updateTime];
    SameWrite(j, clock', a, b);
    PutSimulates(j, clock, clock', docs, f, Normal(j, a), b);
  }

  // Both stores hold the same after the call, and answered alike.
  ghost predicate Agree(j: Json, clock: Clock, clock': Clock, docs: Docs, f: Fake, dyn: Op, fake: Op, now: Time) {
    && Extends(clock, clock')
    && Simulates(j, clock', DynamoStep(j, docs, dyn, now).0, FakeStep(f, fake).0)
    && SameOutcome(j, clock', docs, dyn, DynamoStep(j, docs, dyn, now).1, FakeStep(f, fake).1)
  }

  lemma CreateSimulates(j: Json, clock: Clock, docs: Docs, f: Fake, a: Desire, b: Desire, now: Time)
      returns (clock': Clock)
    requires Lawful(j) && Simulates(j, clock, docs, f)
    requires SameObject(j, a, b) && Supported(j, docs, Create(a))
    ensures Agree(j, clock, clock', docs, f, Create(a), Create(b), now)
  {
    clock' := clock;
    if a.id != "" && a.id !in docs {
      var tick := f.counter + 1;
      var a' := a.(version := 1, updateTime := now, createTime := now);
      var b' := b.(version := 1, updateTime := tick, createTime := tick);
      SameContent(j, a, a', b, b');
      WriteSimulates(j, clock, docs, f, a', b');
      clock' := clock[tick := now];
      assert DynamoCreate(j, docs, a, now) == (docs[a.id := Normal(j, a')], Returned(a'));
      assert FakeCreate(f, b) == (Fake(f.docs[a.id := b'], tick), Returned(b'));
    }
  }

  // Replace of a document at the stored version.
  lemma MatchingReplaceSimulates(j: Json, clock: Clock, docs: Docs, f: Fake, a: Desire, b: Desire, now: Time)
    returns (clock': Clock)
    requires Lawful(j) && Simulates(j, clock, docs, f)
    requires SameObject(j, a, b) && a.version == b.version && Supported(j, docs, Replace(a))
    requires a.id in docs && a.version == docs[a.id].version
    ensures Agree(j, clock, clock', docs, f, Replace(a), Replace(b), now)
  {
    assert SameDocument(j, clock, docs[a.id], f.docs[a.id]);
    var tick := f.counter + 1;
    var a' := a.(version := a.version + 1, updateTime := now);
    var b' := b.(version := a.version + 1, updateTime := tick, createTime := f.docs[a.id].createTime);
    SameContent(j, a, a', b, b');
    WriteSimulates(j, clock, docs, f, a', b');
    clock' := clock[tick := now];
    assert DynamoReplace(j, docs, a, now) == (docs[a.id := Normal(j, a')], Returned(a'));
    assert FakeReplace(f, b) == (Fake(f.docs[a.id := b'], tick), Returned(b'));
  }

  lemma ReplaceSimulates(j: Json, clock: Clock, docs: Docs, f: Fake, a: Desire, b: Desire, now: Time)
      returns (clock': Clock)
    requires Lawful(j) && Simulates(j, clock, docs, f)
    requires SameObject(j, a, b) && a.version == b.version && Supported(j, docs, Replace(a))
    ensures Agree(j, clock, clock', docs, f, Replace(a), Replace(b), now)
  {
    if a.id in docs && a.version == docs[a.id].version {
      clock' := MatchingReplaceSimulates(j, clock, docs, f, a, b, now);
    } else {
      clock' := clock;
      if a.id in docs {
        assert SameDocument(j, clock, docs[a.id], f.docs[a.id]);
      }
    }
  }

  lemma StepSimulates(j: Json, clock: Clock, docs: Docs, f: Fake, dyn: Op, fake: Op, now: Time) returns (clock': Clock)
    requires Lawful(j) && Simulates(j, clock, docs, f) && SameCall(j, dyn, fake) && Supported(j, docs, dyn)
    ensures Agree(j, clock, clock', docs, f, dyn, fake, now)
  {
    match dyn
    case Create(obj) => clock' := CreateSimulates(j, clock, docs, f, obj, fake.obj, now);
    case Replace(obj) => clock' := ReplaceSimulates(j, clock, docs, f, obj, fake.obj, now);
    case _ => clock' := clock;
  }

  // An object that cannot be encoded: only the DynamoDB store refuses it, whether it is created or
  // replaced and whether the id is there or not, and it does so before it looks at the id.
  lemma UnencodableObjectsDiverge(
      j: Json, clock: Clock, clock': Clock, docs: Docs, f: Fake, dyn: Op, fake: Op, now: Time)
    requires Simulates(j, clock, docs, f) && SameCall(j, dyn, fake)
    requires dyn.Replace? || (dyn.Create? && dyn.obj.id != "")
    requires !Encodable(j, dyn.obj)
    ensures DynamoStep(j, docs, dyn, now) == (docs, Refused(Failed("marshal")))
    ensures FakeStep(f, fake).1 != Refused(Failed("marshal"))
    ensures !Agree(j, clock, clock', docs, f, dyn, fake, now)
  {
    assert fake.obj.id == dyn.obj.id;
  }

  // A Replace that brings another create time: the DynamoDB store keeps the caller's, the in-memory
  // store its own.
  lemma CreateTimesDiverge(j: Json, clock: Clock, clock': Clock, docs: Docs, f: Fake, a: Desire, b: Desire, now: Time)
    requires Simulates(j, clock, docs, f) && SameCall(j, Replace(a), Replace(b)) && Encodable(j, a)
    requires a.id in docs && a.version == docs[a.id].version && a.createTime != docs[a.id].createTime
    ensures DynamoReplace(j, docs, a, now).0[a.id].createTime == a.createTime
    ensures FakeReplace(f, b).0.docs[a.id].createTime == f.docs[a.id].createTime
    ensures !Agree(j, clock, clock', docs, f, Replace(a), Replace(b), now)
  {
    assert SameDocument(j, clock, docs[a.id], f.docs[a.id]);
    var docs', f' := DynamoReplace(j, docs, a, now).0, FakeReplace(f, b).0;
    assert Simulates(j, clock', docs', f') ==> SameDocument(j, clock', docs'[a.id], f'.docs[a.id]);
  }

  /** One call: both stores still hold the same and answered alike if and only if it is supported. */
  lemma StepSimulatesExactly(j: Json, clock: Clock, docs: Docs, f: Fake, dyn: Op, fake: Op, now: Time)
    requires Lawful(j) && Simulates(j, clock, docs, f) && SameCall(j, dyn, fake)
    ensures (exists clock' :: Agree(j, clock, clock', docs, f, dyn, fake, now)) <==> Supported(j, docs, dyn)
  {
    if Supported(j, docs, dyn) {
      var clock' := StepSimulates(j, clock, docs, f, dyn, fake, now);
    } else {
      forall clock'
        ensures !Agree(j, clock, clock', docs, f, dyn, fake, now)
      {
        if !Encodable(j, dyn.obj) {
          UnencodableObjectsDiverge(j, clock, clock', docs, f, dyn, fake, now);
        } else {
          CreateTimesDiverge(j, clock, clock', docs, f, dyn.obj, fake.obj, now);
        }
      }
    }
  }

  // The same calls, one after the other, on both stores, both empty at first.
  ghost predicate RunTogether(
      j: Json, dynamo: seq<Docs>, fakes: seq<Fake>, dyn: seq<Op>, fake: seq<Op>, nows: seq<Time>)
  {
    && |dyn| == |fake| == |nows|
    && |dynamo| == |fakes| == |dyn| + 1
    && dynamo[0] == map[] && fakes[0] == Fake(map[], 0)
    && (forall i | 0 <= i < |dyn| ::
         && SameCall(j, dyn[i], fake[i])
         && dynamo[i + 1] == DynamoStep(j, dynamo[i], dyn[i], nows[i]).0
         && fakes[i + 1] == FakeStep(fakes[i], fake[i]).0)
  }

  // Through the first n calls both stores hold the same and answer alike; clocks[i] pairs their clocks
  // before call i.
  ghost predicate Together(
      j: Json, clocks: seq<Clock>, dynamo: seq<Docs>, fakes: seq<Fake>,
      dyn: seq<Op>, fake: seq<Op>, nows: seq<Time>, n: nat)
    requires n <= |dyn| == |fake| == |nows| && |dynamo| == |fakes| == |dyn| + 1
  {
    && |clocks| == n + 1
    && Simulates(j, clocks[0], dynamo[0], fakes[0])
    && (forall i | 0 <= i < n :: Agree(j, clocks[i], clocks[i + 1], dynamo[i], fakes[i], dyn[i], fake[i], nows[i]))
  }

  lemma {:induction false} SupportedCallsSimulate(
      j: Json, dynamo: seq<Docs>, fakes: seq<Fake>, dyn: seq<Op>, fake: seq<Op>, nows: seq<Time>, n: nat)
    returns (clocks: seq<Clock>)
    requires Lawful(j) && RunTogether(j, dynamo, fakes, dyn, fake, nows) && n <= |dyn|
    requires forall i | 0 <= i < n :: Supported(j, dynamo[i], dyn[i])
    ensures Together(j, clocks, dynamo, fakes, dyn, fake, nows, n)
    ensures Simulates(j, clocks[n], dynamo[n], fakes[n])
  {
    if n == 0 {
      clocks := [map[]];
    } else {
      var earlier := SupportedCallsSimulate(j, dynamo, fakes, dyn, fake, nows, n - 1);
      var clock := StepSimulates(j, earlier[n - 1], dynamo[n - 1], fakes[n - 1], dyn[n - 1], fake[n - 1], nows[n - 1]);
      clocks := earlier + [clock];
      forall i | 0 <= i < n
        ensures Agree(j, clocks[i], clocks[i + 1], dynamo[i], fakes[i], dyn[i], fake[i], nows[i])
      {
        if i < n - 1 {
          assert clocks[i] == earlier[i] && clocks[i + 1] == earlier[i + 1];
        }
      }
    }
  }

  lemma TogetherSimulates(
      j: Json, clocks: seq<Clock>, dynamo: seq<Docs>, fakes: seq<Fake>,
      dyn: seq<Op>, fake: seq<Op>, nows: seq<Time>, n: nat, i: nat)
    requires RunTogether(j, dynamo, fakes, dyn, fake, nows) && i <= n <= |dyn|
    requires Together(j, clocks, dynamo, fakes, dyn, fake, nows, n)
    ensures Simulates(j, clocks[i], dynamo[i], fakes[i])
  {
    if i > 0 {
      assert Agree(j, clocks[i - 1], clocks[i], dynamo[i - 1], fakes[i - 1], dyn[i - 1], fake[i - 1], nows[i - 1]);
    }
  }

  /**
   * The in-memory store simulates the DynamoDB store. On any sequence of the same calls both hold the
   * same ids, versions and contents after every call and answer every call alike, up to re-encoding
   * and the choice of clock, if and only if every call is supported; Replace or Delete of a missing
   * document is supported but answered in other words.
   */
  lemma FakeSimulatesDynamo(
      j: Json, dynamo: seq<Docs>, fakes: seq<Fake>, dyn: seq<Op>, fake: seq<Op>, nows: seq<Time>, n: nat)
    requires Lawful(j) && RunTogether(j, dynamo, fakes, dyn, fake, nows) && n <= |dyn|
    ensures (exists clocks :: Together(j, clocks, dynamo, fakes, dyn, fake, nows, n)) <==>
            forall i | 0 <= i < n :: Supported(j, dynamo[i], dyn[i])
  {
    if forall i | 0 <= i < n :: Supported(j, dynamo[i], dyn[i]) {
      var clocks := SupportedCallsSimulate(j, dynamo, fakes, dyn, fake, nows, n);
    }
    forall clocks, i | Together(j, clocks, dynamo, fakes, dyn, fake, nows, n) && 0 <= i < n
      ensures Supported(j, dynamo[i], dyn[i])
    {
      TogetherSimulates(j, clocks, dynamo, fakes, dyn, fake, nows, n, i);
      assert Agree(j, clocks[i], clocks[i + 1], dynamo[i], fakes[i], dyn[i], fake[i], nows[i]);
      StepSimulatesExactly(j, clocks[i], dynamo[i], fakes[i], dyn[i], fake[i], nows[i]);
    }
  }

  lemma MissingDocumentsChangeNothing(j: Json, docs: Docs, f: Fake, op: Op, now: Time)
    requires docs.Keys == f.docs.Keys
    requires op.Replace? || op.Delete?
    requires op.Replace? ==> Encodable(j, op.obj)
    ensures var (docs', r), (f', s) := DynamoStep(j, docs, op, now), FakeStep(f, op);
            s == Refused(NotFound) <==> (if op.Replace? then op.obj.id else op.id) !in docs
    ensures var (docs', r), (f', s) := DynamoStep(j, docs, op, now), FakeStep(f, op);
            s == Refused(NotFound) ==>
              docs' == docs && f' == f && r == (if op.Replace? then Refused(PreconditionFailed) else Done)
  {
    if op.Delete? && op.id !in docs {
      assert docs - {op.id} == docs;
    }
  }
}
