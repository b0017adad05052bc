/** Raw DynamoDB items, the events handed to OnChange, and what a consumer makes of them. */
module Items {
  import opened Common
  import opened StubCache

  // A string attribute carries what time.Parse makes of its text, None when it reports an error.
  datatype Attr = S(text: string, instant: Option<Time>) | NotString

  type Item = map<string, Attr>

  type Documents = map<DocId, Item>

  // extractDocumentIDAndUpdateTime (seaplane-dynamo/dynamodb/gsi.go)
  function Extract(item: Item): Option<(DocId, Time)> {
    if "documentID" !in item || !item["documentID"].S? then None
    else if "updateTime" !in item || !item["updateTime"].S? then None
    else match item["updateTime"].instant
      case None => None
      case Some(t) => Some((item["documentID"].text, t))
  }

  // The extractor reads exactly a string documentID and a parseable string updateTime.
  lemma ExtractsExactly(item: Item, id: DocId, t: Time)
    ensures Extract(item) == Some((id, t)) <==>
            && "documentID" in item && item["documentID"].S? && item["documentID"].text == id
            && "updateTime" in item && item["updateTime"].S? && item["updateTime"].instant == Some(t)
  {
  }

  // Every item is filed under its own documentID and carries a readable update time.
  predicate Keyed(docs: Documents) {
    forall id | id in docs :: Extract(docs[id]).Some? && Extract(docs[id]).value.0 == id
  }

  function StubsOf(docs: Documents): Stubs
    requires Keyed(docs)
  {
    map id | id in docs :: Extract(docs[id]).value.1
  }

  // One call of OnChange: a full item, or nil for a deletion.
  datatype Event = Event(id: DocId, item: Option<Item>)

  function EventStamp(e: Event): Option<Time> {
    match e.item
    case None => None
    case Some(item) => match Extract(item) case None => None case Some(pair) => Some(pair.1)
  }

  function Cached(items: Stubs, id: DocId): Option<Time> {
    if id in items then Some(items[id]) else None
  }

  predicate Mentions(events: seq<Event>, id: DocId) {
    exists i :: 0 <= i < |events| && events[i].id == id
  }

  // The update time a consumer holds for `id` after replaying the events in order: an item sets
  // it, nil removes it.
  function View(events: seq<Event>, id: DocId): Option<Time> {
    if events == [] then None
    else
      var last := events[|events| - 1];
      if last.id == id then EventStamp(last) else View(events[..|events| - 1], id)
  }

  // One event per id, in order: its item when the documents hold one, nil otherwise.
  function Announce(ids: seq<DocId>, docs: Documents): seq<Event> {
    seq(|ids|, i requires 0 <= i < |ids| =>
      Event(ids[i], if ids[i] in docs then Some(docs[ids[i]]) else None))
  }

  lemma {:induction false} ViewOfConcat(first: seq<Event>, second: seq<Event>, id: DocId)
    ensures View(first + second, id) == if Mentions(second, id) then View(second, id) else View(first, id)
  {
    if second == [] {
      assert first + second == first;
    } else {
      var n := |second| - 1;
      assert (first + second)[..|first| + n] == first + second[..n];
      ViewOfConcat(first, second[..n], id);
      assert Mentions(second, id) <==> second[n].id == id || Mentions(second[..n], id) by {
        assert forall i | 0 <= i < n :: second[..n][i] == second[i];
      }
    }
  }

  lemma {:induction false} ViewOfAnnounce(ids: seq<DocId>, docs: Documents, id: DocId)
    requires Keyed(docs)
    ensures Mentions(Announce(ids, docs), id) <==> id in ids
    ensures id in ids ==> View(Announce(ids, docs), id) == Cached(StubsOf(docs), id)
  {
    var events := Announce(ids, docs);
    if id in ids {
      var i :| 0 <= i < |ids| && ids[i] == id;
      assert events[i].id == id;
    }
    if ids != [] {
      var n := |ids| - 1;
      assert events[..n] == Announce(ids[..n], docs);
      if ids[n] != id && id in ids {
        assert id in ids[..n];
        ViewOfAnnounce(ids[..n], docs, id);
      }
    }
  }
}
