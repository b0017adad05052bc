/** seaplane-dynamo/dynamodb/cache.go: the stub cache shared by the relist and the fast poll. */
module StubCache {
  import opened Common

  type DocId = string

  type Stubs = map<DocId, Time>

  predicate Differs(cached: Stubs, id: DocId, updateTime: Time) {
    id !in cached || cached[id] != updateTime
  }

  function Changed(cached: Stubs, stubs: Stubs): set<DocId> {
    set id | id in stubs && Differs(cached, id, stubs[id])
  }

  function Lookback(lastRelistAt: Option<Time>, maxLookback: int, now: Time): int {
    if lastRelistAt.None? || now - lastRelistAt.value > maxLookback then maxLookback
    else now - lastRelistAt.value
  }

  /** Every method runs under the cache's lock, so each call is one atomic step. */
  class Cache {
    var items: Stubs
    var lastRelistAt: Option<Time>

    constructor ()
      ensures items == map[] && lastRelistAt == None
    {
      items := map[];
      lastRelistAt := None;
    }

    method FindChanged(stubs: Stubs) returns (changed: seq<DocId>)
      ensures Enumerates(changed, Changed(items, stubs))
      // new ids and ids with another update time, and no others
      ensures forall id :: id in changed <==> id in stubs && (id !in items || items[id] != stubs[id])
    {
      changed := [];
      var todo := stubs.Keys;
      while todo != {}
        invariant todo <= stubs.Keys
        invariant Enumerates(changed, Changed(items, stubs) - todo)
        decreases todo
      {
        var id :| id in todo;
        if Differs(items, id, stubs[id]) {
          changed := changed + [id];
        }
        todo := todo - {id};
      }
    }

    method ApplyStubs(stubs: Stubs)
      modifies this`items
      ensures items == old(items) + stubs
    {
      var todo := stubs.Keys;
      while todo != {}
        invariant todo <= stubs.Keys
        invariant items == old(items) + (map id | id in stubs && id !in todo :: stubs[id])
        decreases todo
      {
        var id :| id in todo;
        items := items[id := stubs[id]];
        todo := todo - {id};
      }
      assert stubs == map id | id in stubs && id !in todo :: stubs[id];
    }

    method ApplyRelist(stubs: Stubs, now: Time)
      returns (added: seq<DocId>, modified: seq<DocId>, deleted: seq<DocId>)
      modifies this
      ensures items == stubs && lastRelistAt == Some(now)
      ensures Enumerates(added, stubs.Keys - old(items).Keys)
      ensures Enumerates(modified, Changed(old(items), stubs) * old(items).Keys)
      ensures Enumerates(deleted, old(items).Keys - stubs.Keys)
      ensures forall id :: id in added <==> id in stubs && id !in old(items)
      ensures forall id :: id in modified <==> id in stubs && id in old(items) && old(items)[id] != stubs[id]
      ensures forall id :: id in deleted <==> id in old(items) && id !in stubs
    {
      added, modified, deleted := [], [], [];
      var todo := stubs.Keys;
      while todo != {}
        invariant todo <= stubs.Keys
        invariant Enumerates(added, stubs.Keys - items.Keys - todo)
        invariant Enumerates(modified, Changed(items, stubs) * items.Keys - todo)
        decreases todo
      {
        var id :| id in todo;
        if id !in items {
          added := added + [id];
        } else if items[id] != stubs[id] {
          modified := modified + [id];
        }
        todo := todo - {id};
      }
      todo := items.Keys;
      while todo != {}
        invariant todo <= items.Keys
        invariant Enumerates(deleted, items.Keys - stubs.Keys - todo)
        decreases todo
      {
        var id :| id in todo;
        if id !in stubs {
          deleted := deleted + [id];
        }
        todo := todo - {id};
      }
      items := stubs;
      lastRelistAt := Some(now);
    }

    // The window reaches back to the last relist, or by the cap when that is nearer;
    // before any relist it is the whole cap.
    method EffectiveLookback(maxLookback: int, now: Time) returns (lookback: int)
      ensures lookback == Lookback(lastRelistAt, maxLookback, now)
      ensures lastRelistAt.None? ==> lookback == maxLookback
      ensures lastRelistAt.Some? ==> now - lookback == Max(lastRelistAt.value, now - maxLookback)
    {
      if lastRelistAt == None {
        return maxLookback;
      }
      var elapsed := now - lastRelistAt.value;
      if elapsed > maxLookback {
        return maxLookback;
      }
      return elapsed;
    }
  }
}
