/**
 * seaplane-dynamo/dynamodb/watcher.go: one complete relist pass and one complete fast-poll pass over
 * the shared cache. Each does to the cache and to the emitted events what the steps of modules
 * Doorbell and TwoSpeed say, and keeps the replayed events equal to the cache.
 */
module Watcher {
  import opened Common
  import opened StubCache
  import opened Items
  import opened LookbackWindows
  import opened Gsi

  lemma AnnounceInParts(first: seq<DocId>, second: seq<DocId>, docs: Documents)
    ensures Announce(first + second, docs) == Announce(first, docs) + Announce(second, docs)
  {
  }

  lemma ViewAfterAnnounce(events: seq<Event>, ids: seq<DocId>, docs: Documents, id: DocId)
    requires Keyed(docs)
    ensures View(events + Announce(ids, docs), id) ==
            if id in ids then Cached(StubsOf(docs), id) else View(events, id)
  {
    ViewOfConcat(events, Announce(ids, docs), id);
    ViewOfAnnounce(ids, docs, id);
  }

  lemma ListedInParts(added: seq<DocId>, modified: seq<DocId>, deleted: seq<DocId>, before: Stubs, after: Stubs)
    requires Enumerates(added, after.Keys - before.Keys)
    requires Enumerates(modified, Changed(before, after) * before.Keys)
    requires Enumerates(deleted, before.Keys - after.Keys)
    ensures Enumerates(added + modified + deleted, Changed(before, after) + (before.Keys - after.Keys))
  {
    var ids := added + modified + deleted;
    forall i, j | 0 <= i < j < |ids|
      ensures ids[i] != ids[j]
    {
      var a, b := |added|, |added| + |modified|;
      assert ids[i] == if i < a then added[i] else if i < b then modified[i - a] else deleted[i - b];
      assert ids[j] == if j < a then added[j] else if j < b then modified[j - a] else deleted[j - b];
      assert forall id | id in added :: id !in before && id in after;
      assert forall id | id in modified :: id in before && id in after;
      assert forall id | id in deleted :: id in before && id !in after;
      assert if i < a then ids[i] in added else if i < b then ids[i] in modified else ids[i] in deleted;
      assert if j < a then ids[j] in added else if j < b then ids[j] in modified else ids[j] in deleted;
    }
    forall id
      ensures id in ids <==> id in Changed(before, after) + (before.Keys - after.Keys)
    {
      assert id in ids <==> id in added || id in modified || id in deleted;
    }
  }

  // The replayed events follow the cache through a relist and through a poll.
  lemma RelistKeepsView(events: seq<Event>, items: Stubs, ids: seq<DocId>, docs: Documents)
    requires forall id :: View(events, id) == Cached(items, id)
    requires Keyed(docs)
    requires Enumerates(ids, Changed(items, StubsOf(docs)) + (items.Keys - docs.Keys))
    ensures forall id :: View(events + Announce(ids, docs), id) == Cached(StubsOf(docs), id)
  {
    forall id
      ensures View(events + Announce(ids, docs), id) == Cached(StubsOf(docs), id)
    {
      ViewAfterAnnounce(events, ids, docs, id);
    }
  }

  lemma PollKeepsView(events: seq<Event>, items: Stubs, ids: seq<DocId>, docs: Documents)
    requires forall id :: View(events, id) == Cached(items, id)
    requires Keyed(docs) && Enumerates(ids, docs.Keys)
    ensures forall id :: View(events + Announce(ids, docs), id) == Cached(items + StubsOf(docs), id)
  {
    forall id
      ensures View(events + Announce(ids, docs), id) == Cached(items + StubsOf(docs), id)
    {
      ViewAfterAnnounce(events, ids, docs, id);
    }
  }

  // A poll that found the stubs `found` and fetched the changed ids from `base`.
  ghost predicate PollDone(found: Stubs, base: Documents, items: Stubs, items': Stubs, news: seq<Event>)
    requires IsTable(base)
  {
    var fetched := Readable(base, Changed(items, found));
    && items' == items + StubsOf(fetched)
    && exists ids :: Enumerates(ids, fetched.Keys) && news == Announce(ids, fetched)
  }

  ghost predicate RelistDone(docs: Documents, items: Stubs, items': Stubs, news: seq<Event>)
    requires Keyed(docs)
  {
    && items' == StubsOf(docs)
    && exists ids :: Enumerates(ids, Changed(items, items') + (items.Keys - items'.Keys)) && news == Announce(ids, docs)
  }

  // ---- what the passes promise, spelled out --------------------------------------------------------

  predicate Shown(docs: Documents, id: DocId) {
    id in docs && Extract(docs[id]).Some?
  }

  ghost predicate EachOnce(news: seq<Event>) {
    forall i, j | 0 <= i < j < |news| :: news[i].id != news[j].id
  }

  // After a relist the cache holds the times of the table's readable documents. Exactly the ids whose
  // entry changed are reported, once: with the whole document, or with nil when it is gone.
  ghost predicate RelistNews(base: Documents, before: Stubs, after: Stubs, news: seq<Event>) {
    && (forall id :: Cached(after, id) == if Shown(base, id) then Some(Extract(base[id]).value.1) else None)
    && EachOnce(news) && (forall id :: Mentions(news, id) <==> Cached(before, id) != Cached(after, id))
    && (forall i | 0 <= i < |news| ::
         news[i].item == if Shown(base, news[i].id) then Some(base[news[i].id]) else None)
  }

  predicate IsNews(found: Stubs, before: Stubs, id: DocId) {
    id in found && (id !in before || before[id] != found[id])
  }

  // A poll reports, once and with the whole document, exactly the ids that were found with a time other
  // than the cached one and can still be read; their entries get the time of what was read.
  ghost predicate PollNews(found: Stubs, base: Documents, before: Stubs, after: Stubs, news: seq<Event>) {
    && EachOnce(news)
    && (forall id :: Mentions(news, id) <==> IsNews(found, before, id) && Shown(base, id))
    && (forall i | 0 <= i < |news| :: Shown(base, news[i].id) && news[i].item == Some(base[news[i].id]))
    && (forall id :: Cached(after, id) ==
         if IsNews(found, before, id) && Shown(base, id) then Some(Extract(base[id]).value.1) else Cached(before, id))
  }

  lemma AnnouncedOnce(ids: seq<DocId>, docs: Documents)
    requires NoDup(ids) && Keyed(docs)
    ensures EachOnce(Announce(ids, docs)) && forall id :: Mentions(Announce(ids, docs), id) <==> id in ids
    ensures forall i | 0 <= i < |ids| :: Announce(ids, docs)[i].id == ids[i]
    ensures forall i | 0 <= i < |ids| ::
              Announce(ids, docs)[i].item == if ids[i] in docs then Some(docs[ids[i]]) else None
  {
    forall id
      ensures Mentions(Announce(ids, docs), id) <==> id in ids
    {
      ViewOfAnnounce(ids, docs, id);
    }
  }

  lemma RelistDoneIsNews(base: Documents, before: Stubs, after: Stubs, news: seq<Event>)
    requires IsTable(base) && RelistDone(Readable(base, base.Keys), before, after, news)
    ensures RelistNews(base, before, after, news)
  {
    var docs := Readable(base, base.Keys);
    var ids :| Enumerates(ids, Changed(before, after) + (before.Keys - after.Keys)) && news == Announce(ids, docs);
    AnnouncedOnce(ids, docs);
  }

  lemma FetchedExactly(found: Stubs, base: Documents, before: Stubs)
    requires IsTable(base)
    ensures var fetched := Readable(base, Changed(before, found));
            && (forall id :: id in fetched <==> IsNews(found, before, id) && Shown(base, id))
            && (forall id | id in fetched :: fetched[id] == base[id])
  {
  }

  lemma OverlaidExactly(items: Stubs, docs: Documents, id: DocId)
    requires Keyed(docs)
    ensures Cached(items + StubsOf(docs), id) ==
            if id in docs then Some(Extract(docs[id]).value.1) else Cached(items, id)
  {
  }

  lemma PollDoneIsNews(found: Stubs, base: Documents, before: Stubs, after: Stubs, news: seq<Event>)
    requires IsTable(base) && PollDone(found, base, before, after, news)
    ensures PollNews(found, base, before, after, news)
  {
    var fetched := Readable(base, Changed(before, found));
    var ids :| Enumerates(ids, fetched.Keys) && news == Announce(ids, fetched);
    FetchedExactly(found, base, before);
    AnnouncedOnce(ids, fetched);
    forall id
      ensures Mentions(news, id) <==> IsNews(found, before, id) && Shown(base, id)
      ensures Cached(after, id) ==
              if IsNews(found, before, id) && Shown(base, id) then Some(Extract(base[id]).value.1)
              else Cached(before, id)
    {
      OverlaidExactly(before, fetched, id);
    }
    forall i | 0 <= i < |news|
      ensures Shown(base, news[i].id) && news[i].item == Some(base[news[i].id])
    {
      assert news[i].id == ids[i] && ids[i] in fetched;
    }
  }

  // Nothing new, nothing reported: a relist of a table that the cache already shows, and a poll that
  // finds only what the cache holds.
  lemma NoNewsIsQuiet(found: Stubs, base: Documents, before: Stubs, after: Stubs, news: seq<Event>)
    ensures RelistNews(base, before, after, news) && before == after ==> news == []
    ensures PollNews(found, base, before, after, news)
            && (forall id | id in found :: Cached(before, id) == Some(found[id])) ==>
              news == [] && after == before
  {
    if news != [] {
      assert Mentions(news, news[0].id);
    }
    if PollNews(found, base, before, after, news) && forall id | id in found :: Cached(before, id) == Some(found[id]) {
      assert forall id :: Cached(after, id) == Cached(before, id);
      SameEntries(before, after);
    }
  }

  lemma SameEntries(a: Stubs, b: Stubs)
    requires forall id :: Cached(a, id) == Cached(b, id)
    ensures a == b
  {
    assert forall id :: id in a <==> Cached(a, id) != None;
    assert forall id :: id in b <==> Cached(b, id) != None;
    assert forall id | id in a :: Cached(a, id) == Some(a[id]);
    assert forall id | id in b :: Cached(b, id) == Some(b[id]);
  }

  // The whole document a consumer holds after replaying the events.
  function Holding(events: seq<Event>, id: DocId): Option<Item> {
    if events == [] then None
    else
      var last := events[|events| - 1];
      if last.id == id then last.item else Holding(events[..|events| - 1], id)
  }

  lemma {:induction false} HoldingAfter(events: seq<Event>, news: seq<Event>, id: DocId)
    requires EachOnce(news)
    ensures !Mentions(news, id) ==> Holding(events + news, id) == Holding(events, id)
    ensures forall i | 0 <= i < |news| && news[i].id == id :: Holding(events + news, id) == news[i].item
  {
    if news == [] {
      assert events + news == events;
    } else {
      var n := |news| - 1;
      var front := news[..n];
      assert (events + news)[..|events| + n] == events + front;
      HoldingAfter(events, front, id);
      assert forall i | 0 <= i < n :: front[i] == news[i];
      if Mentions(front, id) {
        var i :| 0 <= i < n && front[i].id == id;
        assert news[i].id == id;
      }
    }
  }

  /**
   * Where one id and update time stand for one document, a consumer that replays whole documents holds
   * exactly the table's readable documents after every relist.
   */
  lemma WholeDocumentsFollowTheTable(events: seq<Event>, base: Documents, before: Stubs, after: Stubs, news: seq<Event>)
    requires RelistNews(base, before, after, news)
    requires forall id | id !in before :: Holding(events, id) == None
    requires forall id | id in before && Shown(base, id) && before[id] == Extract(base[id]).value.1 ::
               Holding(events, id) == Some(base[id])
    ensures forall id :: Holding(events + news, id) == if Shown(base, id) then Some(base[id]) else None
  {
    forall id
      ensures Holding(events + news, id) == if Shown(base, id) then Some(base[id]) else None
    {
      HoldingAfter(events, news, id);
      assert Cached(after, id) == if Shown(base, id) then Some(Extract(base[id]).value.1) else None;
      if Mentions(news, id) {
        var i :| 0 <= i < |news| && news[i].id == id;
        assert news[i].item == if Shown(base, id) then Some(base[id]) else None;
      }
    }
  }

  class Watcher {
    const opts: Options
    const cache: Cache
    // whether the service answers every call, and in full
    const up: bool
    // the calls of OnChange so far, in order; emit makes them one at a time
    var emitted: seq<Event>

    // A consumer that replays the events holds the ids and update times of the cache.
    ghost predicate Valid()
      reads this, cache
    {
      forall id :: View(emitted, id) == Cached(cache.items, id)
    }

    constructor (opts: Options, up: bool)
      ensures Valid() && fresh(cache) && this.opts == opts && this.up == up
      ensures emitted == [] && cache.items == map[] && cache.lastRelistAt == None
    {
      this.opts, this.up := opts, up;
      this.cache := new Cache();
      this.emitted := [];
    }

    method Emit(id: DocId, item: Option<Item>)
      modifies this`emitted
      ensures emitted == old(emitted) + [Event(id, item)]
    {
      emitted := emitted + [Event(id, item)];
    }

    // One OnChange call per id: its document, or nil when there is none.
    method EmitAll(ids: seq<DocId>, docs: Documents)
      modifies this`emitted
      ensures emitted == old(emitted) + Announce(ids, docs)
    {
      for i := 0 to |ids|
        invariant emitted == old(emitted) + Announce(ids[..i], docs)
      {
        Emit(ids[i], if ids[i] in docs then Some(docs[ids[i]]) else None);
        assert Announce(ids[..i + 1], docs) ==
               Announce(ids[..i], docs) + [Event(ids[i], if ids[i] in docs then Some(docs[ids[i]]) else None)];
      }
      assert ids[..|ids|] == ids;
    }

    method EmitDiff(added: seq<DocId>, modified: seq<DocId>, deleted: seq<DocId>, docs: Documents)
      modifies this`emitted
      ensures emitted == old(emitted) + Announce(added + modified + deleted, docs)
    {
      EmitAll(added, docs);
      EmitAll(modified, docs);
      EmitAll(deleted, docs);
      AnnounceInParts(added, modified, docs);
      AnnounceInParts(added + modified, deleted, docs);
    }

    method RunRelist(base: Documents, now: Time) returns (ok: bool)
      requires Valid() && IsTable(base)
      modifies this`emitted, cache
      ensures Valid()
      ensures up ==> ok
      ensures !ok ==> emitted == old(emitted) && unchanged(cache)
      ensures ok ==> cache.lastRelistAt == Some(now)
      ensures old(emitted) <= emitted
      ensures ok ==> RelistDone(Readable(base, base.Keys), old(cache.items), cache.items, emitted[|old(emitted)|..])
      ensures ok ==> RelistNews(base, old(cache.items), cache.items, emitted[|old(emitted)|..])
    {
      var scan := ScanAll(base, up);
      if scan.Err? {
        return false;
      }
      var fullItems := scan.value;
      var stubs := StubsOf(fullItems);
      var added, modified, deleted := cache.ApplyRelist(stubs, now);
      EmitDiff(added, modified, deleted, fullItems);
      ghost var ids := added + modified + deleted;
      ListedInParts(added, modified, deleted, old(cache.items), stubs);
      RelistKeepsView(old(emitted), old(cache.items), ids, fullItems);
      assert emitted[|old(emitted)|..] == Announce(ids, fullItems);
      RelistDoneIsNews(base, old(cache.items), cache.items, emitted[|old(emitted)|..]);
      return true;
    }

    // Ids missing from the batch get are skipped.
    method EmitFetched(changed: seq<DocId>, fetched: Documents) returns (ghost ids: seq<DocId>)
      requires NoDup(changed) && fetched.Keys <= Elements(changed)
      modifies this`emitted
      ensures Enumerates(ids, fetched.Keys) && emitted == old(emitted) + Announce(ids, fetched)
    {
      ids := [];
      for i := 0 to |changed|
        invariant Enumerates(ids, Elements(changed[..i]) * fetched.Keys)
        invariant emitted == old(emitted) + Announce(ids, fetched)
      {
        var id := changed[i];
        ElementsOfConcat(changed[..i], [id]);
        assert changed[..i + 1] == changed[..i] + [id];
        if id in fetched {
          assert id !in Elements(changed[..i]) by { assert forall k | 0 <= k < i :: changed[k] != changed[i]; }
          Emit(id, Some(fetched[id]));
          AnnounceInParts(ids, [id], fetched);
          assert id !in ids;
          ids := ids + [id];
        }
      }
      assert changed[..|changed|] == changed;
      assert Elements(changed) * fetched.Keys == fetched.Keys;
    }

    // Steps 2 to 5 of a poll: drop what the cache already holds, fetch the rest, update, deliver.
    // `asked` is what the batch get asked for, nothing when there was none.
    method DeliverChanged(found: Stubs, base: Documents) returns (ok: bool, asked: seq<DocId>)
      requires Valid() && IsTable(base)
      modifies this`emitted, cache`items
      ensures Valid()
      ensures up ==> ok
      ensures !ok ==> emitted == old(emitted) && cache.items == old(cache.items)
      ensures old(emitted) <= emitted
      ensures ok ==> PollDone(found, base, old(cache.items), cache.items, emitted[|old(emitted)|..])
      ensures ok ==> PollNews(found, base, old(cache.items), cache.items, emitted[|old(emitted)|..])
      ensures NoDup(asked) && forall id :: id in asked <==> IsNews(found, old(cache.items), id)
    {
      var changed := cache.FindChanged(found);
      ChangedIsListed(changed, Changed(cache.items, found));
      if changed == [] {
        NothingFetched(found, base, cache.items, changed);
        assert emitted[|old(emitted)|..] == [];
        PollDoneIsNews(found, base, cache.items, cache.items, []);
        return true, [];
      }
      var get, _ := BatchGetItems(base, changed, up);
      if get.Err? {
        return false, changed;
      }
      var fetched := get.value;
      cache.ApplyStubs(StubsOf(fetched));
      ghost var ids := EmitFetched(changed, fetched);
      PollKeepsView(old(emitted), old(cache.items), ids, fetched);
      assert emitted[|old(emitted)|..] == Announce(ids, fetched);
      PollDoneIsNews(found, base, old(cache.items), cache.items, emitted[|old(emitted)|..]);
      return true, changed;
    }

    // Step 1 of a poll: the stubs of the items in the lookback window. `first` and `second` are the
    // clock readings of EffectiveLookback and of runFastPoll itself; `format` is time.Time.Format with
    // the RFC3339Nano layout. Before any relist the window is the whole cap; afterwards it begins at the
    // relist stamp, or the cap before the first reading, moved by the drift between the readings.
    method QueryWindow(index: Documents, first: Time, second: Time, format: Time -> string)
      returns (query: Result<Stubs, string>, since: Time)
      requires IsTable(index)
      ensures up ==> query.Ok?
      ensures cache.lastRelistAt.None? ==> since == second - opts.MaxLookbackWindow()
      ensures cache.lastRelistAt.Some? ==>
                since == second - first + Max(cache.lastRelistAt.value, first - opts.MaxLookbackWindow())
      ensures query.Ok? ==> query.value == Found(index, format(since), opts.ShardCount())
    {
      var lookback := cache.EffectiveLookback(opts.MaxLookbackWindow(), first);
      since := second - lookback;
      query := QuerySince(index, format(since), opts.ShardCount(), up);
    }

    method RunFastPoll(index: Documents, base: Documents, first: Time, second: Time, format: Time -> string)
      returns (ok: bool, since: Time, found: Stubs, asked: seq<DocId>)
      requires Valid() && IsTable(index) && IsTable(base)
      modifies this`emitted, cache`items
      ensures Valid()
      ensures up ==> ok
      ensures !ok ==> emitted == old(emitted) && cache.items == old(cache.items)
      ensures old(emitted) <= emitted
      ensures cache.lastRelistAt.None? ==> since == second - opts.MaxLookbackWindow()
      ensures cache.lastRelistAt.Some? ==>
                since == second - first + Max(cache.lastRelistAt.value, first - opts.MaxLookbackWindow())
      ensures ok ==> found == Found(index, format(since), opts.ShardCount())
      ensures ok ==> PollDone(found, base, old(cache.items), cache.items, emitted[|old(emitted)|..])
      ensures ok ==> PollNews(found, base, old(cache.items), cache.items, emitted[|old(emitted)|..])
      ensures ok ==> NoDup(asked) && forall id :: id in asked <==> IsNews(found, old(cache.items), id)
    {
      var query;
      query, since := QueryWindow(index, first, second, format);
      if query.Err? {
        return false, since, map[], [];
      }
      found := query.value;
      ok, asked := DeliverChanged(found, base);
    }
  }

  lemma ChangedIsListed(changed: seq<DocId>, ids: set<DocId>)
    requires Enumerates(changed, ids)
    ensures Elements(changed) == ids
  {
  }

  lemma NothingFetched(found: Stubs, base: Documents, items: Stubs, ids: seq<DocId>)
    requires IsTable(base) && ids == [] && Changed(items, found) == Elements(ids)
    ensures PollDone(found, base, items, items, [])
  {
    var fetched := Readable(base, Changed(items, found));
    assert fetched == map[];
    assert Enumerates(ids, fetched.Keys) && Announce(ids, fetched) == [];
  }
}
