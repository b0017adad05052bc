/**
 * seaplane-dynamo/dynamodb/gsi.go and scan.go: the sharded index query, the batch get with retries
 * and the full scan, each against an abstract table. The three service calls may cut their answers
 * into pages of any size, and unless the service is `up` they may fail or leave keys unprocessed; what
 * they answer is taken from one state of the table or of the index.
 */
module Gsi {
  import opened Common
  import opened StubCache
  import opened Items
  import opened LookbackWindows
  import opened ByteOrder
  import opened Shard

  // A table or an index holds each item under its own documentID.
  predicate IsTable(docs: Documents) {
    forall id | id in docs ::
      "documentID" in docs[id] && docs[id]["documentID"].S? && docs[id]["documentID"].text == id
  }

  // What the extractor can read of the documents with the given ids.
  function Readable(docs: Documents, ids: set<DocId>): (r: Documents)
    requires IsTable(docs)
    ensures Keyed(r) && r.Keys <= ids
  {
    map id | id in docs && id in ids && Extract(docs[id]).Some? :: docs[id]
  }

  // The key condition "#s = :shard AND #t >= :since" of the index query.
  predicate Matches(item: Item, shard: string, since: string) {
    && "shard" in item && item["shard"].S? && item["shard"].text == shard
    && "updateTime" in item && item["updateTime"].S? && AtLeast(item["updateTime"].text, since)
  }

  predicate Hit(item: Item, since: string, shardCount: nat) {
    exists k: nat :: k < shardCount && Matches(item, Decimal(k), since)
  }

  function Hits(index: Documents, since: string, shardCount: nat): set<DocId> {
    set id | id in index && Hit(index[id], since, shardCount)
  }

  // What a query of the buckets 0 .. shardCount-1 finds.
  function Found(index: Documents, since: string, shardCount: nat): Stubs
    requires IsTable(index)
  {
    StubsOf(Readable(index, Hits(index, since, shardCount)))
  }

  // Items are written with the default bucket of their own id (internal/database/crud.go, desireToItem).
  predicate SharedOut(index: Documents) {
    forall id | id in index ::
      "shard" in index[id] && index[id]["shard"].S? && index[id]["shard"].text == ComputeShardDefault(id)
  }

  predicate Recent(item: Item, since: string) {
    "updateTime" in item && item["updateTime"].S? && AtLeast(item["updateTime"].text, since)
  }

  predicate InBucket(item: Item, shardCount: nat) {
    "shard" in item && item["shard"].S? && exists k: nat :: k < shardCount && item["shard"].text == Decimal(k)
  }

  // A readable item of the buckets 0 .. shardCount-1 whose update time does not sort before `since`.
  predicate Wanted(index: Documents, since: string, shardCount: nat, id: DocId) {
    && id in index && Extract(index[id]).Some? && InBucket(index[id], shardCount)
    && !Less(index[id]["updateTime"].text, since)
  }

  lemma HitExactly(item: Item, since: string, shardCount: nat)
    requires Extract(item).Some?
    ensures Hit(item, since, shardCount) <==> InBucket(item, shardCount) && !Less(item["updateTime"].text, since)
  {
    if Hit(item, since, shardCount) {
      var k: nat :| k < shardCount && Matches(item, Decimal(k), since);
      assert item["shard"].text == Decimal(k);
    }
    if InBucket(item, shardCount) && !Less(item["updateTime"].text, since) {
      var k: nat :| k < shardCount && item["shard"].text == Decimal(k);
      assert Matches(item, Decimal(k), since);
    }
  }

  lemma FoundExactly(index: Documents, since: string, shardCount: nat)
    requires IsTable(index)
    ensures forall id :: id in Found(index, since, shardCount) <==> Wanted(index, since, shardCount, id)
    ensures forall id | id in Found(index, since, shardCount) ::
              Found(index, since, shardCount)[id] == Extract(index[id]).value.1
  {
    forall id | id in index && Extract(index[id]).Some?
      ensures Hit(index[id], since, shardCount) <==> Wanted(index, since, shardCount, id)
    {
      HitExactly(index[id], since, shardCount);
    }
  }

  /**
   * When every item lies in its own bucket and all GSIShardCount buckets are queried, the sharded
   * query is one filter over the whole index, and each item is found in one shard only.
   */
  lemma ShardedQueryIsOneFilter(index: Documents, since: string, shardCount: nat)
    requires IsTable(index) && SharedOut(index) && shardCount >= GSI_SHARD_COUNT
    ensures Found(index, since, shardCount) ==
            StubsOf(Readable(index, set id | id in index && Recent(index[id], since)))
    // spelled out: the readable items whose update time does not sort before `since`, with their times
    ensures forall id :: id in Found(index, since, shardCount) <==>
              id in index && Extract(index[id]).Some? && !Less(index[id]["updateTime"].text, since)
    ensures forall id | id in Found(index, since, shardCount) ::
              Found(index, since, shardCount)[id] == Extract(index[id]).value.1
    ensures forall id, j: nat, k: nat | id in index &&
              Matches(index[id], Decimal(j), since) && Matches(index[id], Decimal(k), since) :: j == k
  {
    forall id | id in index && Recent(index[id], since)
      ensures Hit(index[id], since, shardCount)
    {
      var k := ShardIsOneOfTheBuckets(id, GSI_SHARD_COUNT);
      assert Matches(index[id], Decimal(k), since);
    }
    assert Hits(index, since, shardCount) == set id | id in index && Recent(index[id], since);
    forall id, j: nat, k: nat | id in index &&
        Matches(index[id], Decimal(j), since) && Matches(index[id], Decimal(k), since)
      ensures j == k
    {
      DecimalIsInjective(j, k);
    }
  }

  // ---- service calls -------------------------------------------------------------------------

  // Some listing of the given ids, in the order in which the service keeps them.
  method ListIds(ids: set<DocId>) returns (rows: seq<DocId>)
    ensures Elements(rows) == ids
  {
    rows := [];
    var todo := ids;
    while todo != {}
      invariant todo <= ids
      invariant Elements(rows) == ids - todo
      decreases todo
    {
      var id :| id in todo;
      ElementsOfConcat(rows, [id]);
      rows := rows + [id];
      todo := todo - {id};
    }
  }

  // One page of a listing; `rest` stands for LastEvaluatedKey, which names where to go on.
  datatype Page = Page(ids: seq<DocId>, rest: Option<seq<DocId>>)

  // Query and Scan: the next page of what is left of a listing. A page with a key to go on from
  // holds at least one item; the last page may be empty.
  method NextPage(left: seq<DocId>, up: bool) returns (r: Result<Page, string>)
    ensures up ==> r.Ok?
    ensures r.Ok? ==>
              if r.value.rest.None? then r.value.ids == left
              else r.value.ids != [] && left == r.value.ids + r.value.rest.value
  {
    var fails: bool, more: bool := *, *;
    if fails && !up {
      return Err("the service call failed");
    }
    var n: nat :| n <= |left|;
    if n == 0 || (n == |left| && !more) {
      return Ok(Page(left, None));
    }
    return Ok(Page(left[..n], Some(left[n..])));
  }

  // BatchGetItem: some of the requested keys are answered, the rest come back unprocessed.
  method BatchGetItem(request: seq<DocId>, up: bool) returns (r: Result<(seq<DocId>, seq<DocId>), string>)
    ensures up ==> r.Ok? && r.value.1 == []
    ensures r.Ok? ==> Elements(r.value.0) + Elements(r.value.1) == Elements(request)
    ensures r.Ok? ==> Elements(r.value.0) !! Elements(r.value.1)
  {
    var fails: bool := *;
    if up {
      return Ok((request, []));
    }
    if fails {
      return Err("the service call failed");
    }
    var answered: set<DocId> :| answered <= Elements(request);
    var left := ListIds(answered);
    var right := ListIds(Elements(request) - answered);
    return Ok((left, right));
  }

  // ---- gsi.go and scan.go --------------------------------------------------------------------

  // The items of a page are merged into the result map; unreadable ones are skipped.
  method MergeItems(docs: Documents, results: Documents, ids: seq<DocId>) returns (merged: Documents)
    requires IsTable(docs)
    ensures merged == results + Readable(docs, Elements(ids))
  {
    merged := results;
    ghost var read: Documents := map[];
    for i := 0 to |ids|
      invariant read == Readable(docs, Elements(ids[..i]))
      invariant merged == results + read
    {
      assert ids[..i + 1] == ids[..i] + [ids[i]];
      ReadableOneMore(docs, ids[..i], ids[i]);
      if ids[i] in docs {
        match Extract(docs[ids[i]])
        case None =>
        case Some(pair) =>
          UpdateAfterMerge(results, read, ids[i], docs[ids[i]]);
          merged := merged[pair.0 := docs[ids[i]]];
      }
      read := Readable(docs, Elements(ids[..i + 1]));
    }
    assert ids[..|ids|] == ids;
  }

  lemma ReadableOneMore(docs: Documents, ids: seq<DocId>, id: DocId)
    requires IsTable(docs)
    ensures Readable(docs, Elements(ids + [id])) ==
            if id in docs && Extract(docs[id]).Some? then Readable(docs, Elements(ids))[id := docs[id]]
            else Readable(docs, Elements(ids))
  {
    ElementsOfConcat(ids, [id]);
    assert Elements([id]) == {id};
    var more := Readable(docs, Elements(ids + [id]));
    var less := Readable(docs, Elements(ids));
    assert forall x | x in more :: x == id || x in less;
    assert forall x | x in less :: x in more;
  }

  lemma ReadableOfUnion(docs: Documents, xs: set<DocId>, ys: set<DocId>)
    requires IsTable(docs)
    ensures Readable(docs, xs + ys) == Readable(docs, xs) + Readable(docs, ys)
    ensures StubsOf(Readable(docs, xs + ys)) == StubsOf(Readable(docs, xs)) + StubsOf(Readable(docs, ys))
  {
  }

  function Read(docs: Documents, ids: seq<DocId>): Stubs
    requires IsTable(docs)
  {
    StubsOf(Readable(docs, Elements(ids)))
  }

  lemma ReadOneMore(docs: Documents, ids: seq<DocId>, id: DocId)
    requires IsTable(docs)
    ensures Read(docs, ids + [id]) ==
            if id in docs && Extract(docs[id]).Some? then Read(docs, ids)[id := Extract(docs[id]).value.1]
            else Read(docs, ids)
  {
    ElementsOfConcat(ids, [id]);
    assert Elements([id]) == {id};
    var more := Read(docs, ids + [id]);
    var less := Read(docs, ids);
    assert forall x | x in more :: x == id || x in less;
    assert forall x | x in less :: x in more;
  }

  method MergeStubs(index: Documents, results: Stubs, ids: seq<DocId>) returns (merged: Stubs)
    requires IsTable(index)
    ensures merged == results + Read(index, ids)
  {
    merged := results;
    ghost var read: Stubs := map[];
    for i := 0 to |ids|
      invariant read == Read(index, ids[..i])
      invariant merged == results + read
    {
      assert ids[..i + 1] == ids[..i] + [ids[i]];
      ReadOneMore(index, ids[..i], ids[i]);
      if ids[i] in index {
        match Extract(index[ids[i]])
        case None =>
        case Some(pair) =>
          UpdateAfterMerge(results, read, ids[i], pair.1);
          merged := merged[pair.0 := pair.1];
      }
      read := Read(index, ids[..i + 1]);
    }
    assert ids[..|ids|] == ids;
  }

  ghost function Unread(left: seq<seq<DocId>>, running: set<nat>): set<(nat, nat)> {
    set s: nat, i: nat | s in running && s < |left| && i <= |left[s]| :: (s, i)
  }

  // What is still to be read of the hits lies in a shard whose goroutine is running.
  ghost predicate Accounted(hits: set<DocId>, seen: set<DocId>, left: seq<seq<DocId>>, running: set<nat>) {
    && seen <= hits
    && (forall s: nat, id | s < |left| && id in left[s] :: id in hits)
    && (forall id | id in hits :: id in seen || exists s: nat :: s in running && s < |left| && id in left[s])
  }

  method OpenShards(index: Documents, since: string, shardCount: nat) returns (left: seq<seq<DocId>>, running: set<nat>)
    ensures |left| == shardCount
    ensures forall s | s in running :: s < shardCount
    ensures Accounted(Hits(index, since, shardCount), {}, left, running)
  {
    left, running := [], {};
    for k := 0 to shardCount
      invariant |left| == k && forall s: nat :: s in running <==> s < k
      invariant forall s: nat | s < k ::
                  Elements(left[s]) == set id | id in index && Matches(index[id], Decimal(s), since)
    {
      var ids := set id | id in index && Matches(index[id], Decimal(k), since);
      var listing := ListIds(ids);
      left := left + [listing];
      running := running + {k};
    }
    assert forall s: nat, id | s < |left| && id in left[s] :: id in Elements(left[s]);
    assert forall s: nat, id | s < |left| && id in Elements(left[s]) :: id in left[s];
  }

  /**
   * The goroutines of the shards run side by side and merge their pages in any order: the loop takes
   * one locked step of any shard that still has pages. A failed shard fails the whole query.
   */
  method QuerySince(index: Documents, since: string, shardCount: nat, up: bool) returns (r: Result<Stubs, string>)
    requires IsTable(index)
    ensures up ==> r.Ok?
    ensures r.Ok? ==> r.value == Found(index, since, shardCount)
    ensures r.Ok? ==> forall id :: id in r.value <==> Wanted(index, since, shardCount, id)
    ensures r.Ok? ==> forall id | id in r.value :: r.value[id] == Extract(index[id]).value.1
  {
    ghost var hits := Hits(index, since, shardCount);
    ghost var seen: set<DocId> := {};
    var left: seq<seq<DocId>>, running: set<nat> := OpenShards(index, since, shardCount);
    var results: Stubs := map[];
    var error: Option<string> := None;
    while running != {}
      invariant |left| == shardCount
      invariant forall s | s in running :: s < shardCount
      invariant results == StubsOf(Readable(index, seen))
      invariant up ==> error.None?
      invariant error.None? ==> Accounted(hits, seen, left, running)
      decreases Unread(left, running)
    {
      var s :| s in running;
      ghost var unread := Unread(left, running);
      assert (s, |left[s]|) in unread;
      var page := NextPage(left[s], up);
      match page
      case Err(e) =>
        error := Some(e);
        running := running - {s};
      case Ok(p) =>
        results := MergeStubs(index, results, p.ids);
        ReadableOfUnion(index, seen, Elements(p.ids));
        seen := seen + Elements(p.ids);
        match p.rest
        case None =>
          running := running - {s};
        case Some(rest) =>
          left := left[s := rest];
    }
    if error.Some? {
      return Err(error.value);
    }
    assert seen == hits;
    FoundExactly(index, since, shardCount);
    return Ok(results);
  }

  // A full scan returns every readable item of the table, whatever the page sizes.
  method ScanAll(base: Documents, up: bool) returns (r: Result<Documents, string>)
    requires IsTable(base)
    ensures up ==> r.Ok?
    ensures r.Ok? ==> r.value == Readable(base, base.Keys)
    ensures r.Ok? ==> forall id :: id in r.value <==> id in base && Extract(base[id]).Some?
    ensures r.Ok? ==> forall id | id in r.value :: r.value[id] == base[id]
  {
    var results: Documents := map[];
    var left := ListIds(base.Keys);
    ghost var seen: set<DocId> := {};
    while true
      invariant results == Readable(base, seen)
      invariant seen + Elements(left) == base.Keys
      decreases |left|
    {
      var page := NextPage(left, up);
      match page
      case Err(e) => return Err(e);
      case Ok(p) =>
        results := MergeItems(base, results, p.ids);
        ReadableOfUnion(base, seen, Elements(p.ids));
        seen := seen + Elements(p.ids);
        match p.rest
        case None => return Ok(results);
        case Some(rest) =>
          ElementsOfConcat(p.ids, rest);
          left := rest;
    }
  }

  const BATCH_GET_MAX := 100
  const MAX_ATTEMPTS := 10
  const FIRST_BACKOFF := 50  // milliseconds
  const BACKOFF_LIMIT := 2000

  function Doubled(backoff: nat): nat {
    if backoff < BACKOFF_LIMIT then 2 * backoff else backoff
  }

  // The backoff in force after n waits, and all of those waits together.
  function Backoff(n: nat): nat {
    if n == 0 then FIRST_BACKOFF else Doubled(Backoff(n - 1))
  }

  function Waited(n: nat): nat {
    if n == 0 then 0 else Waited(n - 1) + Backoff(n - 1)
  }

  lemma {:induction false} WaitsAreBounded(n: nat)
    requires n < 10
    ensures Backoff(n) <= 3_200 && Waited(n) <= 12_750
    ensures n == 9 ==> Waited(n) == 12_750 && Backoff(n) == 3_200
  {
    assert Backoff(2) == 200 && Waited(2) == 150;
    assert Backoff(4) == 800 && Waited(4) == 750;
    assert Backoff(6) == 3_200 && Waited(6) == 3_150;
    assert Backoff(8) == 3_200 && Waited(8) == 9_550;
  }

  // How one chunk of a batch get went: its keys, the service calls made, the waits between them, the
  // keys left unprocessed, and whether a call failed or the context was cancelled.
  datatype Chunk = Chunk(ids: seq<DocId>, calls: nat, waits: seq<nat>, unprocessed: seq<DocId>, failed: bool)

  function Sum(waits: seq<nat>): nat {
    if waits == [] then 0 else Sum(waits[..|waits| - 1]) + waits[|waits| - 1]
  }

  ghost predicate Bounded(c: Chunk) {
    && 0 < |c.ids| <= 100
    && c.calls <= 10 && |c.waits| == (if c.calls == 0 then 0 else c.calls - 1)
    && (forall i | 0 <= i < |c.waits| ::
         c.waits[i] == if i == 0 then 50 else if c.waits[i - 1] < 2_000 then 2 * c.waits[i - 1] else c.waits[i - 1])
    && (forall i | 0 <= i < |c.waits| :: c.waits[i] <= 3_200)
    && Sum(c.waits) <= 12_750
    && (c.unprocessed != [] && !c.failed ==> c.calls == 10)
  }

  // The service calls and waits so far are those of `calls` attempts.
  ghost predicate Paced(calls: nat, waits: seq<nat>, backoff: nat) {
    && calls <= MAX_ATTEMPTS
    && |waits| == (if calls == 0 then 0 else calls - 1)
    && backoff == Backoff(|waits|)
    && Sum(waits) == Waited(|waits|)
    && (forall i | 0 <= i < |waits| :: waits[i] == Backoff(i))
  }

  method Wait(calls: nat, waits: seq<nat>, backoff: nat) returns (waits': seq<nat>, backoff': nat)
    requires 0 < calls < MAX_ATTEMPTS && Paced(calls, waits, backoff)
    ensures Paced(calls + 1, waits', backoff')
  {
    waits' := waits + [backoff];
    assert waits'[..|waits|] == waits;
    backoff' := if backoff < BACKOFF_LIMIT then backoff * 2 else backoff;
  }

  // A chunk fails with a service call or a cancelled context, or when ten calls left keys unprocessed.
  predicate GaveUp(c: Chunk) {
    c.failed || c.unprocessed != []
  }

  // Retries one chunk until no key is left unprocessed, at most ten times, with growing waits.
  method FetchChunk(base: Documents, results: Documents, ids: seq<DocId>, up: bool)
    returns (r: Result<Documents, string>, chunk: Chunk)
    requires IsTable(base) && 0 < |ids| <= BATCH_GET_MAX
    ensures r.Ok? ==> r.value == results + Readable(base, Elements(ids))
    ensures r.Err? <==> GaveUp(chunk)
    ensures chunk.ids == ids && Bounded(chunk) && (up ==> !GaveUp(chunk))
  {
    var merged := results;
    var remaining := ids;
    ghost var answered: set<DocId>, read: Documents := {}, map[];
    var backoff: nat := FIRST_BACKOFF;
    var attempt: nat, waits: seq<nat> := 0, [];
    while remaining != []
      invariant answered + Elements(remaining) == Elements(ids) && answered !! Elements(remaining)
      invariant read == Readable(base, answered) && merged == results + read
      invariant Paced(attempt, waits, backoff)
      invariant up ==> remaining == [] || attempt == 0
      decreases MAX_ATTEMPTS - attempt
    {
      if attempt >= MAX_ATTEMPTS {
        chunk := Ended(ids, attempt, waits, backoff, remaining, false);
        return Err("unprocessed keys remain"), chunk;
      }
      if attempt > 0 {
        var cancelled: bool := *;
        if cancelled {
          chunk := Ended(ids, attempt, waits, backoff, remaining, true);
          return Err("context cancelled"), chunk;
        }
        waits, backoff := Wait(attempt, waits, backoff);
      }
      var out := BatchGetItem(remaining, up);
      attempt := attempt + 1;
      match out
      case Err(e) =>
        chunk := Ended(ids, attempt, waits, backoff, remaining, true);
        return Err(e), chunk;
      case Ok(answer) =>
        ReadableOfUnion(base, answered, Elements(answer.0));
        MergeIsAssociative(results, read, Readable(base, Elements(answer.0)));
        merged := MergeItems(base, merged, answer.0);
        answered := answered + Elements(answer.0);
        read := Readable(base, answered);
        remaining := answer.1;
    }
    assert answered == Elements(ids);
    chunk := Ended(ids, attempt, waits, backoff, [], false);
    return Ok(merged), chunk;
  }

  // The account of a chunk that is over.
  method Ended(ids: seq<DocId>, calls: nat, waits: seq<nat>, ghost backoff: nat, unprocessed: seq<DocId>, failed: bool)
    returns (c: Chunk)
    requires 0 < |ids| <= BATCH_GET_MAX && Paced(calls, waits, backoff)
    requires unprocessed != [] && !failed ==> calls == MAX_ATTEMPTS
    ensures c == Chunk(ids, calls, waits, unprocessed, failed) && Bounded(c)
  {
    WaitsAreBounded(|waits|);
    forall i | 0 <= i < |waits|
      ensures waits[i] <= 3_200
    {
      WaitsAreBounded(i);
    }
    c := Chunk(ids, calls, waits, unprocessed, failed);
  }

  function Concatenated(chunks: seq<Chunk>): seq<DocId> {
    if chunks == [] then [] else Concatenated(chunks[..|chunks| - 1]) + chunks[|chunks| - 1].ids
  }

  /**
   * The chunks cut the id list, in order, into non-empty blocks of at most 100; each makes at most ten
   * calls, waits at most 3.2 s at a time and 12.75 s in all. On success every requested id was
   * answered: the result is exactly what the table holds readable of them. It fails exactly when one
   * of the chunks does.
   */
  method BatchGetItems(base: Documents, docIDs: seq<DocId>, up: bool)
    returns (r: Result<Documents, string>, chunks: seq<Chunk>)
    requires IsTable(base)
    ensures r.Ok? ==> r.value == Readable(base, Elements(docIDs)) && Concatenated(chunks) == docIDs
    ensures r.Ok? ==> forall id :: id in r.value <==> id in docIDs && id in base && Extract(base[id]).Some?
    ensures r.Ok? ==> forall id | id in r.value :: r.value[id] == base[id]
    ensures Concatenated(chunks) <= docIDs
    ensures forall c | c in chunks :: Bounded(c)
    ensures forall k | 0 <= k < |chunks| - 1 :: |chunks[k].ids| == 100
    ensures r.Err? <==> exists c :: c in chunks && GaveUp(c)
    ensures up ==> r.Ok?
  {
    var results: Documents := map[];
    chunks := [];
    var i := 0;
    while i < |docIDs|
      invariant 0 <= i <= |docIDs|
      invariant results == Readable(base, Elements(docIDs[..i]))
      invariant Concatenated(chunks) == docIDs[..i]
      invariant forall c | c in chunks :: Bounded(c) && !GaveUp(c)
      invariant forall k | 0 <= k < |chunks| :: |chunks[k].ids| == BATCH_GET_MAX || (k == |chunks| - 1 && i == |docIDs|)
    {
      var end := i + BATCH_GET_MAX;
      if end > |docIDs| {
        end := |docIDs|;
      }
      var outcome, chunk := FetchChunk(base, results, docIDs[i..end], up);
      assert (chunks + [chunk])[..|chunks|] == chunks;
      chunks := chunks + [chunk];
      assert docIDs[..end] == docIDs[..i] + docIDs[i..end];
      ElementsOfConcat(docIDs[..i], docIDs[i..end]);
      ReadableOfUnion(base, Elements(docIDs[..i]), Elements(docIDs[i..end]));
      if outcome.Err? {
        return outcome, chunks;
      }
      results := outcome.value;
      i := end;
    }
    assert docIDs[..|docIDs|] == docIDs;
    return Ok(results), chunks;
  }
}
