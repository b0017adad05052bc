/** The passes of class Watcher.Watcher are runs of the two-thread machine of module Doorbell. */
module PassesAreRuns {
  import opened Common
  import opened StubCache
  import opened Items
  import opened Gsi
  import opened Watcher
  import opened Doorbell

  ghost predicate Quiet(s: State) {
    s.relist == RelistIdle && s.poll == PollIdle && s.relistPending == [] && s.pollPending == []
  }

  lemma RelistPassIsARun(s: State, docs: Documents, items': Stubs, news: seq<Event>)
    requires Quiet(s) && Keyed(docs) && RelistDone(docs, s.cache, items', news)
    ensures Reaches(s, s.(cache := items', emitted := s.emitted + news))
  {
    var ids :| Enumerates(ids, Changed(s.cache, items') + (s.cache.Keys - items'.Keys)) && news == Announce(ids, docs);
    var s1 := s.(relist := Scanned(docs));
    var s2 := s1.(cache := items', relist := RelistEmitting, relistPending := news);
    var s3 := s2.(relistPending := [], emitted := s.emitted + news);
    var s4 := s3.(relist := RelistIdle);
    ReachesItself(s4);
    ReachesFirst(s3, RelistEnds, s4, s4);
    DrainRelist(s2);
    EmitsAreSteps(s2, s3);
    ReachesThrough(s2, s3, s4);
    assert Step(s1, s2, ApplyRelist(ids));
    ReachesFirst(s1, ApplyRelist(ids), s2, s4);
    ReachesFirst(s, Scan(docs), s1, s4);
  }

  // A poll from its batch get on: update the cache, deliver what was fetched.
  lemma DeliveryIsARun(s: State, changed: seq<DocId>, docs: Documents, ids: seq<DocId>)
    requires Quiet(s) && Keyed(docs) && Enumerates(ids, Elements(changed) * docs.Keys)
    ensures Reaches(s.(poll := Doorbell.Fetched(changed, docs)),
                    s.(cache := s.cache + StubsOf(docs), emitted := s.emitted + Announce(ids, docs)))
  {
    var news := Announce(ids, docs);
    var end := s.(cache := s.cache + StubsOf(docs), emitted := s.emitted + news);
    var s3 := s.(poll := Doorbell.Fetched(changed, docs));
    var s4 := s.(cache := s.cache + StubsOf(docs), poll := PollEmitting, pollPending := news);
    var s5 := s4.(pollPending := [], emitted := s.emitted + news);
    ReachesItself(end);
    ReachesFirst(s5, PollEnds, end, end);
    DrainPoll(s4);
    EmitsAreSteps(s4, s5);
    ReachesThrough(s4, s5, end);
    assert Step(s3, s4, ApplyStubs(ids));
    ReachesFirst(s3, ApplyStubs(ids), s4, end);
  }

  lemma PollPassIsARun(
      s: State, found: Stubs, changed: seq<DocId>, base: Documents, items': Stubs, news: seq<Event>)
    requires Quiet(s) && IsTable(base) && PollDone(found, base, s.cache, items', news)
    requires Enumerates(changed, Changed(s.cache, found))
    ensures Reaches(s, s.(cache := items', emitted := s.emitted + news))
  {
    ChangedIsListed(changed, Changed(s.cache, found));
    var docs := Readable(base, Changed(s.cache, found));
    var ids :| Enumerates(ids, docs.Keys) && news == Announce(ids, docs);
    var end := s.(cache := items', emitted := s.emitted + news);
    if changed == [] {
      assert docs == map[];
      AsManyAsListed(ids, docs.Keys);
      assert end == s;
      ReachesItself(s);
    } else {
      assert Elements(changed) * docs.Keys == docs.Keys;
      DeliveryIsARun(s, changed, docs, ids);
      var s1 := s.(poll := Queried(found));
      var s2 := s.(poll := Doorbell.Chosen(changed));
      var s3 := s.(poll := Doorbell.Fetched(changed, docs));
      ReachesFirst(s2, BatchGet(docs), s3, end);
      ReachesFirst(s1, FindChanged(changed), s2, end);
      ReachesFirst(s, Query(found), s1, end);
    }
  }
}

/** The text comparison of the index, seen as the query contract of module TwoSpeed. */
module TextIndex {
  import opened Common
  import opened StubCache
  import opened Items
  import opened LookbackWindows
  import opened Gsi
  import opened Rfc3339

  // Update times are stored as RFC3339Nano text.
  ghost predicate Stamped(index: Documents) {
    forall id | id in index && Extract(index[id]).Some? ::
      exists u :: ValidUtc(u) && index[id]["updateTime"] == S(Format(u), Some(Instant(u)))
  }

  // A sharded query since `since` finds every item that is at least a second newer, with its stamp:
  // module TwoSpeed applies with a slack of one second.
  lemma TextQueryHasASecondOfSlack(index: Documents, since: Utc, shardCount: nat, id: DocId)
    requires IsTable(index) && SharedOut(index) && Stamped(index) && shardCount >= GSI_SHARD_COUNT
    requires ValidUtc(since) && id in index && Extract(index[id]).Some?
    requires Instant(since) + NANOS <= Extract(index[id]).value.1
    ensures var found := Found(index, Format(since), shardCount);
            id in found && found[id] == Extract(index[id]).value.1
  {
    var u :| ValidUtc(u) && index[id]["updateTime"] == S(Format(u), Some(Instant(u)));
    WhatTheIndexLoses(u, since);
    ShardedQueryIsOneFilter(index, Format(since), shardCount);
  }
}

/** What internal/database/crud.go writes is what the index queries of gsi.go rely on. */
module IndexedDesires {
  import opened Common
  import opened Gsi
  import opened Items
  import opened Rfc3339
  import opened TextIndex
  import Codec
  import Shard

  // The raw attribute of an encoded value; `utc` gives a time its calendar fields.
  function Shown(v: Codec.Value, utc: Time -> Utc): Attr {
    match v
    case S(text) => Items.S(text, None)
    case Stamp(t) => Items.S(Format(utc(t)), Some(t))
    case _ => NotString
  }

  function Row(item: Codec.Item, utc: Time -> Utc): Item {
    map k | k in item :: Shown(item[k], utc)
  }

  predicate OnCalendar(utc: Time -> Utc, t: Time) {
    ValidUtc(utc(t)) && Instant(utc(t)) == t
  }

  lemma EncodedRow(j: Codec.Json, d: Codec.Desire, utc: Time -> Utc)
    requires Codec.Encodable(j, d)
    ensures Codec.Encoded(j, d).Ok?
    ensures var row := Row(Codec.Encoded(j, d).value, utc);
            && "documentID" in row && row["documentID"] == Items.S(d.id, None)
            && "shard" in row && row["shard"] == Items.S(Shard.ComputeShardDefault(d.id), None)
            && "updateTime" in row && row["updateTime"] == Items.S(Format(utc(d.updateTime)), Some(d.updateTime))
  {
    Codec.AddedAttributesAreNew(j, d);
    assert Codec.MarshalMap(d)["updateTime"] == Codec.Stamp(d.updateTime);
  }

  /**
   * Encoded desires, each under its own id, form an index in which every item lies in its own bucket
   * and carries its update time as RFC 3339 text; the extractor reads back the id and that time.
   */
  lemma EncodedDesiresAreIndexed(j: Codec.Json, docs: map<string, Codec.Desire>, utc: Time -> Utc)
    requires forall id | id in docs ::
               docs[id].id == id && Codec.Encodable(j, docs[id]) && OnCalendar(utc, docs[id].updateTime)
    ensures forall id | id in docs :: Codec.Encoded(j, docs[id]).Ok?
    ensures var index := map id | id in docs :: Row(Codec.Encoded(j, docs[id]).value, utc);
            && IsTable(index) && SharedOut(index) && Stamped(index)
            && (forall id | id in docs :: Extract(index[id]) == Some((id, docs[id].updateTime)))
  {
    forall id | id in docs
      ensures Codec.Encoded(j, docs[id]).Ok?
    {
      EncodedRow(j, docs[id], utc);
    }
    var index := map id | id in docs :: Row(Codec.Encoded(j, docs[id]).value, utc);
    forall id | id in index
      ensures "documentID" in index[id] && index[id]["documentID"] == Items.S(id, None)
      ensures "shard" in index[id] && index[id]["shard"] == Items.S(Shard.ComputeShardDefault(id), None)
      ensures "updateTime" in index[id]
      ensures var t := docs[id].updateTime;
              index[id]["updateTime"] == Items.S(Format(utc(t)), Some(t)) && ValidUtc(utc(t)) && Instant(utc(t)) == t
    {
      EncodedRow(j, docs[id], utc);
      assert OnCalendar(utc, docs[id].updateTime);
    }
  }
}

/** The passes of class Watcher.Watcher are passes of module TwoSpeed, too. */
module PassesInTime {
  import opened Common
  import opened StubCache
  import opened Items
  import opened LookbackWindows
  import opened Gsi
  import opened Watcher
  import opened Rfc3339
  import opened TextIndex
  import TwoSpeed

  // What can be read of the documents is what module TwoSpeed calls the table.
  ghost predicate Shows(docs: Documents, table: Stubs) {
    IsTable(docs) && StubsOf(Readable(docs, docs.Keys)) == table
  }

  lemma RelistPassTakesPlace(
      c: TwoSpeed.Config, s: TwoSpeed.State, base: Documents, items': Stubs, news: seq<Event>, begin: Time, end: Time)
    returns (states: seq<TwoSpeed.State>, labels: seq<TwoSpeed.Label>)
    requires !c.instant && s.relist == TwoSpeed.RelistIdle && s.now <= begin < end
    requires Shows(base, s.table) && RelistDone(Readable(base, base.Keys), s.cache, items', news)
    ensures TwoSpeed.Path(c, states, labels) && states[0] == s
    ensures states[|labels|] ==
            s.(now := end, cache := items', last := TwoSpeed.Relisted(begin, end, map[]), anchor := end, onTime := true)
  {
    var s1 := s.(now := begin, relist := TwoSpeed.Scanning(begin));
    var s2 := s1.(relist := TwoSpeed.Scanned(begin, s.table));
    var last := TwoSpeed.Relisted(begin, end, map[]);
    var s3 := s.(now := end, cache := items', last := last, anchor := end, onTime := true);
    states, labels := [s, s1, s2, s3],
      [TwoSpeed.LBeginScan(begin), TwoSpeed.LEndScan(s.table), TwoSpeed.LFinishRelist(end)];
    assert TwoSpeed.Step(c, s, s1, labels[0]);
    assert TwoSpeed.Step(c, s1, s2, labels[1]);
    assert TwoSpeed.Step(c, s2, s3, labels[2]);
  }

  function AfterPoll(
      c: TwoSpeed.Config, s: TwoSpeed.State, queryAt: Time, items': Stubs, fetched: Stubs): TwoSpeed.State
  {
    s.(now := queryAt, cache := items', last := TwoSpeed.AfterOverlay(s.last, queryAt - c.lag, fetched),
       anchor := Max(s.anchor, queryAt - c.lag),
       onTime := s.onTime && (queryAt - c.lag <= s.anchor || queryAt - c.cap + c.slack + c.delay <= s.anchor),
       poll := TwoSpeed.PollIdle)
  }

  // What was fetched is right and complete for the changed ids.
  ghost predicate Fresh(table: Stubs, changed: set<DocId>, fetched: Stubs) {
    && (forall id | id in table && id in changed :: id in fetched && fetched[id] == table[id])
    && (forall id | id in fetched :: id in changed && id in table)
  }

  // A poll with nothing to fetch, from the end of its query on.
  lemma NothingChanged(c: TwoSpeed.Config, s: TwoSpeed.State, s': TwoSpeed.State, found: Stubs)
    returns (states: seq<TwoSpeed.State>, labels: seq<TwoSpeed.Label>)
    requires Changed(s.cache, found) == {} && s.poll.Querying? && s.now == s.poll.queryAt
    requires s' == s.(poll := TwoSpeed.Fetched(s.now, s.now - c.lag, map[])) && TwoSpeed.EndQuery(c, s, s', found)
    ensures TwoSpeed.Path(c, states, labels) && states[0] == s
    ensures states[|labels|] == AfterPoll(c, s, s.now, s.cache, map[])
  {
    var end := AfterPoll(c, s, s.now, s.cache, map[]);
    states, labels := [s, s', end], [TwoSpeed.LEndQuery(found), TwoSpeed.LFinishPoll];
    var nothing: Stubs := map[];
    assert s.cache + nothing == s.cache;
    assert TwoSpeed.Step(c, s, s', labels[0]);
    assert TwoSpeed.Step(c, s', end, labels[1]);
  }

  lemma OneMore(
      c: TwoSpeed.Config, s: TwoSpeed.State, l: TwoSpeed.Label, more: seq<TwoSpeed.State>, next: seq<TwoSpeed.Label>)
    requires TwoSpeed.Path(c, more, next) && TwoSpeed.Step(c, s, more[0], l)
    ensures TwoSpeed.Path(c, [s] + more, [l] + next)
  {
    var states, labels := [s] + more, [l] + next;
    forall i | 0 <= i < |labels|
      ensures TwoSpeed.Step(c, states[i], states[i + 1], labels[i])
    {
      if i > 0 {
        assert TwoSpeed.Step(c, more[i - 1], more[i], next[i - 1]);
      }
    }
  }

  // A poll with its changed ids chosen fetches them and ends.
  lemma FetchesAndEnds(c: TwoSpeed.Config, s: TwoSpeed.State, changed: set<DocId>, fetched: Stubs)
    returns (states: seq<TwoSpeed.State>, labels: seq<TwoSpeed.Label>)
    requires !c.instant && s.poll == TwoSpeed.Chosen(s.now, changed) && Fresh(s.table, changed, fetched)
    ensures TwoSpeed.Path(c, states, labels) && states[0] == s
    ensures states[|labels|] == AfterPoll(c, s, s.now, s.cache + fetched, fetched)
  {
    var s2 := s.(poll := TwoSpeed.Getting(s.now, changed, s.now - c.lag));
    var s3 := s.(poll := TwoSpeed.Fetched(s.now, s.now - c.lag, fetched));
    var end := AfterPoll(c, s, s.now, s.cache + fetched, fetched);
    states, labels := [s, s2, s3, end], [TwoSpeed.LBeginGet(s.now), TwoSpeed.LEndGet(fetched), TwoSpeed.LFinishPoll];
    assert TwoSpeed.Step(c, s, s2, labels[0]);
    assert TwoSpeed.Step(c, s2, s3, labels[1]);
    assert TwoSpeed.Step(c, s3, end, labels[2]);
  }

  // A poll that fetches what changed.
  lemma SomeChanged(c: TwoSpeed.Config, s: TwoSpeed.State, s1: TwoSpeed.State, found: Stubs, fetched: Stubs)
    returns (states: seq<TwoSpeed.State>, labels: seq<TwoSpeed.Label>)
    requires !c.instant && s.poll.Querying? && s.now == s.poll.queryAt
    requires Fresh(s.table, Changed(s.cache, found), fetched)
    requires s1 == s.(poll := TwoSpeed.Chosen(s.now, Changed(s.cache, found))) && TwoSpeed.EndQuery(c, s, s1, found)
    ensures TwoSpeed.Path(c, states, labels) && states[0] == s
    ensures states[|labels|] == AfterPoll(c, s, s.now, s.cache + fetched, fetched)
  {
    states, labels := FetchesAndEnds(c, s1, Changed(s.cache, found), fetched);
    OneMore(c, s, TwoSpeed.LEndQuery(found), states, labels);
    states, labels := [s] + states, [TwoSpeed.LEndQuery(found)] + labels;
  }

  ghost predicate QueryContract(c: TwoSpeed.Config, table: Stubs, since: Time, found: Stubs) {
    forall id | id in table && since + c.slack <= table[id] :: id in found && found[id] == table[id]
  }

  // A poll that nothing interrupts, whatever found and fetched its answers.
  lemma PollTakesPlace(
      c: TwoSpeed.Config, s: TwoSpeed.State, found: Stubs, fetched: Stubs, first: Time, second: Time)
    returns (states: seq<TwoSpeed.State>, labels: seq<TwoSpeed.Label>)
    requires !c.instant && s.poll == TwoSpeed.PollIdle && s.now <= first <= second <= first + c.drift
    requires QueryContract(c, s.table, second - Lookback(TwoSpeed.LastStamp(s.last), c.cap, first), found)
    requires Fresh(s.table, Changed(s.cache, found), fetched)
    ensures TwoSpeed.Path(c, states, labels) && states[0] == s
    ensures states[|labels|] == AfterPoll(c, s, second, s.cache + fetched, fetched)
  {
    var since := second - Lookback(TwoSpeed.LastStamp(s.last), c.cap, first);
    var s1 := s.(now := second, poll := TwoSpeed.Querying(since, second));
    var changed := Changed(s.cache, found);
    assert TwoSpeed.Step(c, s, s1, TwoSpeed.LBeginPoll(first, second));
    if changed == {} {
      assert fetched == map[];
      assert s.cache + fetched == s.cache;
      states, labels := NothingChanged(c, s1, s1.(poll := TwoSpeed.Fetched(second, second - c.lag, map[])), found);
    } else {
      states, labels := SomeChanged(c, s1, s1.(poll := TwoSpeed.Chosen(second, changed)), found, fetched);
    }
    OneMore(c, s, TwoSpeed.LBeginPoll(first, second), states, labels);
    states, labels := [s] + states, [TwoSpeed.LBeginPoll(first, second)] + labels;
  }

  // The index query of a poll meets the contract, with a slack of one second.
  lemma QueryMeetsTheContract(
      c: TwoSpeed.Config, table: Stubs, index: Documents, since: Utc, shardCount: nat)
    requires c.slack == NANOS && ValidUtc(since)
    requires Shows(index, table) && SharedOut(index) && Stamped(index) && shardCount >= GSI_SHARD_COUNT
    ensures QueryContract(c, table, Instant(since), Found(index, Format(since), shardCount))
  {
    var found := Found(index, Format(since), shardCount);
    forall id | id in table && Instant(since) + c.slack <= table[id]
      ensures id in found && found[id] == table[id]
    {
      assert id in StubsOf(Readable(index, index.Keys));
      TextQueryHasASecondOfSlack(index, since, shardCount, id);
    }
  }

  lemma GetIsFresh(table: Stubs, base: Documents, changed: set<DocId>)
    requires Shows(base, table)
    ensures Fresh(table, changed, StubsOf(Readable(base, changed)))
  {
    var all := StubsOf(Readable(base, base.Keys));
    assert forall id | id in all :: id in base && Extract(base[id]).Some? && all[id] == Extract(base[id]).value.1;
  }

  lemma PollPassTakesPlace(
      c: TwoSpeed.Config, s: TwoSpeed.State, index: Documents, base: Documents, since: Utc, shardCount: nat,
      items': Stubs, news: seq<Event>, first: Time, second: Time)
    returns (states: seq<TwoSpeed.State>, labels: seq<TwoSpeed.Label>)
    requires !c.instant && c.slack == NANOS && s.poll == TwoSpeed.PollIdle
    requires s.now <= first <= second <= first + c.drift
    requires ValidUtc(since) && Instant(since) == second - Lookback(TwoSpeed.LastStamp(s.last), c.cap, first)
    requires Shows(index, s.table) && SharedOut(index) && Stamped(index) && shardCount >= GSI_SHARD_COUNT
    requires Shows(base, s.table)
    requires PollDone(Found(index, Format(since), shardCount), base, s.cache, items', news)
    ensures TwoSpeed.Path(c, states, labels) && states[0] == s
    ensures var found := Found(index, Format(since), shardCount);
            states[|labels|] == AfterPoll(c, s, second, items', StubsOf(Readable(base, Changed(s.cache, found))))
  {
    var found := Found(index, Format(since), shardCount);
    var fetched := StubsOf(Readable(base, Changed(s.cache, found)));
    QueryMeetsTheContract(c, s.table, index, since, shardCount);
    GetIsFresh(s.table, base, Changed(s.cache, found));
    states, labels := PollTakesPlace(c, s, found, fetched, first, second);
  }
}
