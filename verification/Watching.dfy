/**
 * What the two-speed watcher is for: a consumer that replays the emitted events agrees with the table.
 * Modules Doorbell and TwoSpeed together, for any interleaving and for sequences of whole passes.
 */
module Watching {
  import opened Common
  import opened StubCache
  import opened Items
  import opened LookbackWindows
  import opened Gsi
  import opened Watcher
  import opened Rfc3339
  import opened TextIndex
  import opened PassesInTime
  import TwoSpeed
  import Doorbell

  // Outside the blind stretch, written by the instant up to which the passes have read.
  ghost predicate Settled(c: TwoSpeed.Config, s: TwoSpeed.State, id: DocId)
    requires s.last.Relisted?
  {
    && id in s.table
    && (s.table[id] + c.delay <= TwoSpeed.ReadOf(s.last, id)
        || (s.onTime && s.table[id] + c.delay <= s.anchor
            && !TwoSpeed.InBlindStretch(c, s.last, id, s.table[id])))
  }

  /**
   * The two goroutines in any interleaving, seen by both machines: when both hold the same cache,
   * everything has been delivered and the emit loops never held the id with different contents, the
   * consumer holds the table's stamp of every settled document; and a document it holds besides the
   * table's was deleted since it was read.
   */
  lemma ConsumerAgreesWithTheTable(
      c: TwoSpeed.Config, times: seq<TwoSpeed.State>, steps: seq<TwoSpeed.Label>, n: nat,
      rings: seq<Doorbell.State>, labels: seq<Doorbell.Label>, m: nat, id: DocId)
    requires TwoSpeed.Run(c, times, steps) && n <= |steps| && times[n].last.Relisted?
    requires Doorbell.Run(rings, labels) && m <= |labels| && rings[m].cache == times[n].cache
    requires Doorbell.Drained(rings[m]) && forall i | 0 <= i <= m :: !Doorbell.Conflicts(rings[i], id)
    ensures Settled(c, times[n], id) ==> View(rings[m].emitted, id) == Some(times[n].table[id])
    ensures id !in times[n].table && View(rings[m].emitted, id) != None ==>
              id in times[n].deletedAt && times[n].deletedAt[id] > TwoSpeed.ReadOf(times[n].last, id)
  {
    TwoSpeed.TwoSpeedRefinesScanning(c, times, steps, n);
    Doorbell.ReplayEqualsCacheWithoutConflicts(rings, labels, m, id);
    if Settled(c, times[n], id) {
      assert TwoSpeed.Right(times[n], id);
    }
  }

  // ---- sequences of whole passes -----------------------------------------------------------------

  datatype World = World(time: TwoSpeed.State, emitted: seq<Event>)

  // RunRelist and RunFastPoll of class Watcher.Watcher, and writes to the table between them.
  datatype Move =
    | Relists(base: Documents, begin: Time, end: Time, news: seq<Event>)
    | Polls(index: Documents, base: Documents, since: Utc, shardCount: nat, first: Time, second: Time, news: seq<Event>)
    | Writes(l: TwoSpeed.Label)

  ghost predicate Idle(s: TwoSpeed.State) {
    s.relist == TwoSpeed.RelistIdle && s.poll == TwoSpeed.PollIdle
  }

  ghost predicate RelistStep(w: World, w': World, m: Move)
    requires m.Relists?
  {
    && w.time.now <= m.begin < m.end && Shows(m.base, w.time.table)
    && RelistDone(Readable(m.base, m.base.Keys), w.time.cache, w'.time.cache, m.news)
    && w'.time == w.time.(now := m.end, cache := w'.time.cache,
                          last := TwoSpeed.Relisted(m.begin, m.end, map[]), anchor := m.end, onTime := true)
    && w'.emitted == w.emitted + m.news
  }

  ghost predicate PollStep(c: TwoSpeed.Config, w: World, w': World, m: Move)
    requires m.Polls?
  {
    && w.time.now <= m.first <= m.second <= m.first + c.drift
    && ValidUtc(m.since)
    && Instant(m.since) == m.second - Lookback(TwoSpeed.LastStamp(w.time.last), c.cap, m.first)
    && Shows(m.index, w.time.table) && SharedOut(m.index) && Stamped(m.index) && m.shardCount >= GSI_SHARD_COUNT
    && Shows(m.base, w.time.table)
    && var found := Found(m.index, Format(m.since), m.shardCount);
    && PollDone(found, m.base, w.time.cache, w'.time.cache, m.news)
    && w'.time == AfterPoll(c, w.time, m.second, w'.time.cache,
                            StubsOf(Readable(m.base, Changed(w.time.cache, found))))
    && w'.emitted == w.emitted + m.news
  }

  ghost predicate Step(c: TwoSpeed.Config, w: World, w': World, m: Move) {
    match m
    case Relists(_, _, _, _) => RelistStep(w, w', m)
    case Polls(_, _, _, _, _, _, _) => PollStep(c, w, w', m)
    case Writes(l) =>
      (l.LPut? || l.LDelete?) && TwoSpeed.Step(c, w.time, w'.time, l) && w'.emitted == w.emitted
  }

  ghost predicate Run(c: TwoSpeed.Config, worlds: seq<World>, moves: seq<Move>) {
    && !c.instant && c.slack == NANOS
    && |worlds| == |moves| + 1
    && TwoSpeed.Init(worlds[0].time) && worlds[0].emitted == []
    && (forall i | 0 <= i < |moves| :: Step(c, worlds[i], worlds[i + 1], moves[i]))
  }

  ghost predicate Inv(c: TwoSpeed.Config, w: World) {
    && TwoSpeed.Inv(c, w.time) && Idle(w.time)
    && (forall id :: View(w.emitted, id) == Cached(w.time.cache, id))
  }

  lemma {:induction false} PathKeepsInv(
      c: TwoSpeed.Config, states: seq<TwoSpeed.State>, labels: seq<TwoSpeed.Label>, n: nat)
    requires TwoSpeed.Path(c, states, labels) && TwoSpeed.Inv(c, states[0]) && n <= |labels|
    ensures TwoSpeed.Inv(c, states[n])
  {
    if n > 0 {
      PathKeepsInv(c, states, labels, n - 1);
      TwoSpeed.StepKeepsInv(c, states[n - 1], states[n], labels[n - 1]);
    }
  }

  lemma RelistKeepsInv(c: TwoSpeed.Config, w: World, w': World, m: Move)
    requires !c.instant && Inv(c, w) && m.Relists? && RelistStep(w, w', m)
    ensures Inv(c, w')
  {
    var docs := Readable(m.base, m.base.Keys);
    var states, labels := RelistPassTakesPlace(c, w.time, m.base, w'.time.cache, m.news, m.begin, m.end);
    PathKeepsInv(c, states, labels, |labels|);
    var ids :| Enumerates(ids, Changed(w.time.cache, w'.time.cache) + (w.time.cache.Keys - w'.time.cache.Keys))
               && m.news == Announce(ids, docs);
    RelistKeepsView(w.emitted, w.time.cache, ids, docs);
  }

  lemma PollKeepsInv(c: TwoSpeed.Config, w: World, w': World, m: Move)
    requires !c.instant && c.slack == NANOS && Inv(c, w) && m.Polls? && PollStep(c, w, w', m)
    ensures Inv(c, w')
  {
    var found := Found(m.index, Format(m.since), m.shardCount);
    var fetched := Readable(m.base, Changed(w.time.cache, found));
    var states, labels := PollPassTakesPlace(
      c, w.time, m.index, m.base, m.since, m.shardCount, w'.time.cache, m.news, m.first, m.second);
    PathKeepsInv(c, states, labels, |labels|);
    var ids :| Enumerates(ids, fetched.Keys) && m.news == Announce(ids, fetched);
    PollKeepsView(w.emitted, w.time.cache, ids, fetched);
  }

  lemma {:induction false} RunKeepsInv(c: TwoSpeed.Config, worlds: seq<World>, moves: seq<Move>, n: nat)
    requires Run(c, worlds, moves) && n <= |moves|
    ensures Inv(c, worlds[n])
  {
    if n > 0 {
      RunKeepsInv(c, worlds, moves, n - 1);
      var w, w', m := worlds[n - 1], worlds[n], moves[n - 1];
      assert Step(c, w, w', m);
      match m
      case Relists(_, _, _, _) => RelistKeepsInv(c, w, w', m);
      case Polls(_, _, _, _, _, _, _) => PollKeepsInv(c, w, w', m);
      case Writes(l) => TwoSpeed.StepKeepsInv(c, w.time, w'.time, l);
    }
  }

  /**
   * After every pass and write of any sequence of whole passes over RFC 3339 text: once the first
   * relist is done, a consumer that replays the emitted events holds the table's stamp of every settled
   * document, and what it holds besides the table was deleted since it was read.
   */
  lemma PassesShowTheTable(c: TwoSpeed.Config, worlds: seq<World>, moves: seq<Move>, n: nat, id: DocId)
    requires Run(c, worlds, moves) && n <= |moves| && worlds[n].time.last.Relisted?
    ensures var w := worlds[n];
            && (Settled(c, w.time, id) ==> View(w.emitted, id) == Some(w.time.table[id]))
            && (id !in w.time.table && View(w.emitted, id) != None ==>
                 id in w.time.deletedAt && w.time.deletedAt[id] > TwoSpeed.ReadOf(w.time.last, id))
  {
    RunKeepsInv(c, worlds, moves, n);
    if Settled(c, worlds[n].time, id) {
      assert TwoSpeed.Right(worlds[n].time, id);
    }
  }

  // ---- the methods make these moves --------------------------------------------------------------

  // The watcher object is at this point of the run.
  ghost predicate At(watcher: Watcher, c: TwoSpeed.Config, w: World)
    reads watcher, watcher.cache
  {
    && watcher.Valid() && Inv(c, w)
    && w.time.cache == watcher.cache.items && w.emitted == watcher.emitted
    && TwoSpeed.LastStamp(w.time.last) == watcher.cache.lastRelistAt
    && c.cap == watcher.opts.MaxLookbackWindow()
  }

  // RunRelist, its scan begun at `begin` and its stamp read at `end`.
  method Relist(
      watcher: Watcher, base: Documents, begin: Time, end: Time, ghost c: TwoSpeed.Config, ghost w: World)
    returns (ok: bool, ghost w': World, ghost m: Move)
    requires At(watcher, c, w) && !c.instant
    requires w.time.now <= begin < end && Shows(base, w.time.table)
    modifies watcher, watcher.cache
    ensures watcher.up ==> ok
    ensures ok ==> m.Relists? && m.base == base && Step(c, w, w', m) && At(watcher, c, w')
    ensures !ok ==> At(watcher, c, w)
  {
    ok := watcher.RunRelist(base, end);
    var news := watcher.emitted[|w.emitted|..];
    assert watcher.emitted == w.emitted + news || !ok;
    m := Relists(base, begin, end, news);
    var last := TwoSpeed.Relisted(begin, end, map[]);
    w' := World(w.time.(now := end, cache := watcher.cache.items, last := last, anchor := end, onTime := true),
                watcher.emitted);
    if ok {
      RelistKeepsInv(c, w, w', m);
    }
  }

  // The instants from which a poll may query.
  ghost predicate OnCalendar(utc: Time -> Utc, from: Time, to: Time) {
    forall t | from <= t <= to :: ValidUtc(utc(t)) && Instant(utc(t)) == t
  }

  // The window that RunFastPoll promises is the one of the time model.
  lemma WindowOfTheModel(c: TwoSpeed.Config, w: World, first: Time, second: Time, since: Time)
    requires Inv(c, w) && w.time.now <= first <= second
    requires w.time.last.NeverRelisted? ==> since == second - c.cap
    requires w.time.last.Relisted? ==> since == second - first + Max(w.time.last.stampAt, first - c.cap)
    ensures since == second - Lookback(TwoSpeed.LastStamp(w.time.last), c.cap, first)
    ensures second - c.cap <= since <= second
  {
  }

  // A poll that queried from there and did its work is a move.
  lemma PollIsAMove(
      c: TwoSpeed.Config, w: World, index: Documents, base: Documents, since: Utc, shardCount: nat,
      items': Stubs, emitted': seq<Event>, first: Time, second: Time)
    returns (w': World, m: Move)
    requires !c.instant && c.slack == NANOS && Inv(c, w)
    requires w.time.now <= first <= second <= first + c.drift
    requires ValidUtc(since) && Instant(since) == second - Lookback(TwoSpeed.LastStamp(w.time.last), c.cap, first)
    requires Shows(index, w.time.table) && SharedOut(index) && Stamped(index) && shardCount >= GSI_SHARD_COUNT
    requires Shows(base, w.time.table) && w.emitted <= emitted'
    requires PollDone(Found(index, Format(since), shardCount), base, w.time.cache, items', emitted'[|w.emitted|..])
    ensures m.Polls? && m.index == index && m.base == base && Step(c, w, w', m) && Inv(c, w')
    ensures w'.time.cache == items' && w'.emitted == emitted'
    ensures TwoSpeed.LastStamp(w'.time.last) == TwoSpeed.LastStamp(w.time.last)
  {
    var news := emitted'[|w.emitted|..];
    var found := Found(index, Format(since), shardCount);
    var fetched := StubsOf(Readable(base, Changed(w.time.cache, found)));
    m := Polls(index, base, since, shardCount, first, second, news);
    w' := World(AfterPoll(c, w.time, second, items', fetched), emitted');
    assert emitted' == w.emitted + news;
    PollKeepsInv(c, w, w', m);
  }

  // RunFastPoll with RFC 3339 text: it queries from where the time model says.
  method Poll(
      watcher: Watcher, index: Documents, base: Documents, first: Time, second: Time, utc: Time -> Utc,
      ghost c: TwoSpeed.Config, ghost w: World)
    returns (ok: bool, ghost w': World, ghost m: Move)
    requires At(watcher, c, w) && !c.instant && c.slack == NANOS
    requires w.time.now <= first <= second <= first + c.drift
    requires OnCalendar(utc, second - c.cap, second)
    requires Shows(index, w.time.table) && SharedOut(index) && Stamped(index) && Shows(base, w.time.table)
    requires watcher.opts.ShardCount() >= GSI_SHARD_COUNT
    modifies watcher, watcher.cache
    ensures watcher.up ==> ok
    ensures ok ==> m.Polls? && m.index == index && m.base == base && Step(c, w, w', m) && At(watcher, c, w')
    ensures !ok ==> At(watcher, c, w)
  {
    var since, found, asked;
    ok, since, found, asked := watcher.RunFastPoll(index, base, first, second, t => Format(utc(t)));
    w', m := w, Writes(TwoSpeed.LPollFails);
    if ok {
      WindowOfTheModel(c, w, first, second, since);
      w', m := PollIsAMove(c, w, index, base, utc(since), watcher.opts.ShardCount(),
                           watcher.cache.items, watcher.emitted, first, second);
    }
  }
}
