/**
 * seaplane-dynamo/dynamodb/watcher.go, runRelist and runFastPoll over time: the two goroutines, each
 * one pass after the other, in any interleaving with arbitrary creates, updates and deletes.
 *
 * Every write carries as its update stamp an instant of the one clock that is at most `delay` before
 * the write takes effect. A scan, an index query and a batch get each last from a begin step to an end
 * step; writes and steps of the other goroutine may come in between. A scan may read each document at
 * any instant of its span; the index and the batch get, which are eventually consistent, may besides
 * answer with a delay of up to `lag`.
 */
module TwoSpeed {
  import opened Common
  import opened StubCache

  // cap:     Options.maxLookbackWindow
  // drift:   bound on the delay between the two clock reads at the start of a poll
  // slack:   an index comparison never misses an item this much newer than `since`
  // lag:     what took effect so long ago is seen by the index and by a batch get
  // delay:   bound on the time between the clock read of a writer and the effect of its write
  // instant: every read takes no time and the index comparison is exactly `>=`
  datatype Config = Config(cap: nat, drift: nat, slack: nat, lag: nat, delay: nat, instant: bool)

  ghost predicate ValidConfig(c: Config) {
    c.instant ==> c.drift == 0 && c.slack == 0 && c.lag == 0 && c.delay == 0
  }

  datatype RelistPhase =
    | RelistIdle
    | Scanning(scanAt: Time)
    | Scanned(scanAt: Time, stubs: Stubs)

  // Whatever took effect by readAt is seen by the batch get.
  datatype PollPhase =
    | PollIdle
    | Querying(since: Time, queryAt: Time)
    | Chosen(queryAt: Time, changed: set<DocId>)
    | Getting(queryAt: Time, changed: set<DocId>, readAt: Time)
    | Fetched(queryAt: Time, readAt: Time, fetched: Stubs)

  // The last relist: the begin of its scan, its stamp, and for each id that a batch get brought to the
  // cache since, when that was read.
  datatype Relist =
    | NeverRelisted
    | Relisted(scanAt: Time, stampAt: Time, overlaid: map<DocId, Time>)

  // When the cache entry of the id was read.
  function ReadOf(r: Relist, id: DocId): Time
    requires r.Relisted?
  {
    if id in r.overlaid then r.overlaid[id] else r.scanAt
  }

  // anchor is the instant up to which successful passes have read; onTime says that since the last
  // relist no successful poll began more than the cap after what the pass before it had read.
  datatype State = State(
    now: Time,
    table: Stubs,                 // live documents with the stamp of their latest write
    deletedAt: map<DocId, Time>,  // latest deletion of each id
    cache: Stubs,
    last: Relist,
    anchor: Time,
    onTime: bool,
    relist: RelistPhase,
    poll: PollPhase)

  ghost predicate Init(s: State) {
    && (forall id | id in s.table :: s.table[id] <= s.now)
    && (forall id | id in s.deletedAt :: s.deletedAt[id] <= s.now)
    && s.cache == map[]
    && s.last == NeverRelisted
    && s.anchor <= s.now
    && s.relist == RelistIdle && s.poll == PollIdle
  }

  // A read that ends now: each wanted document whose last write took effect by `from` is returned with
  // its stamp, and a returned document was live at some instant after `from`.
  ghost predicate Reads(c: Config, s: State, from: Time, wanted: set<DocId>, out: Stubs) {
    && (forall id | id in s.table && id in wanted && s.table[id] + c.delay <= from ::
         id in out && out[id] == s.table[id])
    && (forall id | id in out :: id in wanted && (id in s.table || (id in s.deletedAt && s.deletedAt[id] > from)))
  }

  // A write stamped `stamp` takes effect at `at`.
  ghost predicate Put(c: Config, s: State, s': State, id: DocId, stamp: Time, at: Time) {
    s.now < at && stamp <= at <= stamp + c.delay && s' == s.(now := at, table := s.table[id := stamp])
  }

  ghost predicate Delete(s: State, s': State, id: DocId, at: Time) {
    s.now < at && s' == s.(now := at, table := s.table - {id}, deletedAt := s.deletedAt[id := at])
  }

  ghost predicate BeginScan(s: State, s': State, at: Time) {
    s.relist == RelistIdle && s.now <= at && s' == s.(now := at, relist := Scanning(at))
  }

  ghost predicate EndScan(c: Config, s: State, s': State, stubs: Stubs) {
    && s.relist.Scanning?
    && Reads(c, s, s.relist.scanAt, s.table.Keys + s.deletedAt.Keys, stubs)
    && (c.instant ==> s.now == s.relist.scanAt && stubs == s.table)
    && s' == s.(relist := Scanned(s.relist.scanAt, stubs))
  }

  ghost predicate FinishRelist(s: State, s': State, at: Time) {
    && s.relist.Scanned?
    && s.now < at
    && s' == s.(now := at, cache := s.relist.stubs, last := Relisted(s.relist.scanAt, at, map[]),
                anchor := at, onTime := true, relist := RelistIdle)
  }

  function LastStamp(r: Relist): Option<Time> {
    if r.NeverRelisted? then None else Some(r.stampAt)
  }

  // EffectiveLookback reads the clock at `first`, runFastPoll reads it again at `second`.
  ghost predicate BeginPoll(c: Config, s: State, s': State, first: Time, second: Time) {
    && s.poll == PollIdle
    && s.now <= first <= second <= first + c.drift
    && s' == s.(now := second,
                poll := Querying(second - Lookback(LastStamp(s.last), c.cap, first), second))
  }

  // The index query ends and FindChanged compares its result with the cache; a poll that finds
  // nothing changed has nothing to fetch.
  ghost predicate EndQuery(c: Config, s: State, s': State, found: Stubs) {
    && s.poll.Querying?
    && (forall id | id in s.table && s.poll.since + c.slack <= s.table[id] <= s.poll.queryAt - c.lag - c.delay ::
         id in found && found[id] == s.table[id])
    && (c.instant ==>
         && s.now == s.poll.queryAt
         && found == map id | id in s.table && s.poll.since <= s.table[id] :: s.table[id])
    && var changed := Changed(s.cache, found);
       s' == s.(poll := if changed == {} then Fetched(s.poll.queryAt, s.poll.queryAt - c.lag, map[])
                        else Chosen(s.poll.queryAt, changed))
  }

  ghost predicate BeginGet(c: Config, s: State, s': State, at: Time) {
    && s.poll.Chosen?
    && s.now <= at
    && s' == s.(now := at, poll := Getting(s.poll.queryAt, s.poll.changed, at - c.lag))
  }

  ghost predicate EndGet(c: Config, s: State, s': State, fetched: Stubs) {
    && s.poll.Getting?
    && Reads(c, s, s.poll.readAt, s.poll.changed, fetched)
    && (c.instant ==>
         && s.now == s.poll.queryAt
         && fetched == map id | id in s.table && id in s.poll.changed :: s.table[id])
    && s' == s.(poll := Fetched(s.poll.queryAt, s.poll.readAt, fetched))
  }

  ghost predicate InTime(c: Config, s: State, queryAt: Time) {
    s.onTime && (queryAt - c.lag <= s.anchor || queryAt - c.cap + c.slack + c.delay <= s.anchor)
  }

  // The fetched ids have been read by the batch get now.
  function AfterOverlay(last: Relist, readAt: Time, fetched: Stubs): Relist {
    match last
    case NeverRelisted => last
    case Relisted(scanAt, stampAt, overlaid) =>
      Relisted(scanAt, stampAt, overlaid + (map id | id in fetched :: readAt))
  }

  ghost predicate FinishPoll(c: Config, s: State, s': State) {
    && s.poll.Fetched?
    && s' == s.(cache := s.cache + s.poll.fetched,
                last := AfterOverlay(s.last, s.poll.readAt, s.poll.fetched),
                anchor := Max(s.anchor, s.poll.queryAt - c.lag),
                onTime := InTime(c, s, s.poll.queryAt), poll := PollIdle)
  }

  datatype Label =
    | LPut(id: DocId, stamp: Time, at: Time)
    | LDelete(id: DocId, at: Time)
    | LRelistFails
    | LPollFails
    | LBeginScan(at: Time)
    | LEndScan(stubs: Stubs)
    | LFinishRelist(at: Time)
    | LBeginPoll(first: Time, second: Time)
    | LEndQuery(found: Stubs)
    | LBeginGet(at: Time)
    | LEndGet(fetched: Stubs)
    | LFinishPoll

  ghost predicate Step(c: Config, s: State, s': State, l: Label) {
    match l
    case LPut(id, stamp, at) => Put(c, s, s', id, stamp, at)
    case LDelete(id, at) => Delete(s, s', id, at)
    case LRelistFails => s' == s.(relist := RelistIdle)
    case LPollFails => s' == s.(poll := PollIdle)
    case LBeginScan(at) => BeginScan(s, s', at)
    case LEndScan(stubs) => EndScan(c, s, s', stubs)
    case LFinishRelist(at) => FinishRelist(s, s', at)
    case LBeginPoll(first, second) => BeginPoll(c, s, s', first, second)
    case LEndQuery(found) => EndQuery(c, s, s', found)
    case LBeginGet(at) => BeginGet(c, s, s', at)
    case LEndGet(fetched) => EndGet(c, s, s', fetched)
    case LFinishPoll => FinishPoll(c, s, s')
  }

  ghost predicate Path(c: Config, states: seq<State>, labels: seq<Label>) {
    && |states| == |labels| + 1
    && (forall i | 0 <= i < |labels| :: Step(c, states[i], states[i + 1], labels[i]))
  }

  ghost predicate Run(c: Config, states: seq<State>, labels: seq<Label>) {
    Path(c, states, labels) && Init(states[0])
  }

  // The latest write of the document was not seen by the read behind its cache entry, and is too old
  // for the windows of later polls, which begin at the relist stamp.
  predicate InBlindStretch(c: Config, r: Relist, id: DocId, stamp: Time)
    requires r.Relisted?
  {
    ReadOf(r, id) - c.delay < stamp < r.stampAt + c.drift + c.slack
  }

  ghost predicate Right(s: State, id: DocId)
    requires id in s.table
  {
    id in s.cache && s.cache[id] == s.table[id]
  }

  // What was read is right, and while polls keep up everything else outside the blind stretch.
  ghost predicate ReadIsRight(c: Config, s: State)
    requires s.last.Relisted?
  {
    forall id | id in s.table && s.table[id] + c.delay <= ReadOf(s.last, id) :: Right(s, id)
  }

  ghost predicate Agrees(c: Config, s: State)
    requires s.last.Relisted?
  {
    forall id | id in s.table && s.table[id] + c.delay <= s.anchor && !InBlindStretch(c, s.last, id, s.table[id]) ::
      Right(s, id)
  }

  ghost predicate SurplusIsDeleted(s: State)
    requires s.last.Relisted?
  {
    forall id | id in s.cache && id !in s.table :: id in s.deletedAt && s.deletedAt[id] > ReadOf(s.last, id)
  }

  // ---- invariant -------------------------------------------------------------------------------

  ghost predicate RelistInv(c: Config, s: State) {
    match s.relist
    case RelistIdle => true
    case Scanning(scanAt) => scanAt <= s.now
    case Scanned(scanAt, stubs) =>
      && scanAt <= s.now
      && (forall id | id in s.table && s.table[id] + c.delay <= scanAt :: id in stubs && stubs[id] == s.table[id])
      && (forall id | id in stubs && id !in s.table :: id in s.deletedAt && s.deletedAt[id] > scanAt)
  }

  // Every document written long enough before the query is either chosen for fetching or already
  // right in the cache.
  ghost predicate Covered(c: Config, s: State, queryAt: Time, changed: set<DocId>)
    requires s.last.Relisted?
  {
    forall id | id in s.table && s.table[id] + c.delay <= queryAt - c.lag
                && !InBlindStretch(c, s.last, id, s.table[id]) ::
      id in changed || Right(s, id)
  }

  // What a poll in progress already knows.
  ghost predicate PollInv(c: Config, s: State) {
    match s.poll
    case PollIdle => true
    case Querying(since, queryAt) =>
      since <= if s.last.Relisted? then Max(s.last.stampAt + c.drift, queryAt - c.cap) else queryAt - c.cap
    case Chosen(queryAt, changed) =>
      s.last.Relisted? && InTime(c, s, queryAt) ==> Covered(c, s, queryAt, changed)
    case Getting(queryAt, changed, readAt) =>
      && queryAt - c.lag <= readAt <= s.now
      && (s.last.Relisted? && InTime(c, s, queryAt) ==> Covered(c, s, queryAt, changed))
    case Fetched(queryAt, readAt, fetched) =>
      && queryAt - c.lag <= readAt <= s.now
      && (forall id | id in fetched && id in s.table && s.table[id] + c.delay <= readAt :: fetched[id] == s.table[id])
      && (forall id | id in fetched && id !in s.table :: id in s.deletedAt && s.deletedAt[id] > readAt)
      && (s.last.Relisted? && InTime(c, s, queryAt) ==> Covered(c, s, queryAt, fetched.Keys))
  }

  function PollTime(s: State): Time {
    if s.poll == PollIdle then s.now else s.poll.queryAt
  }

  ghost predicate ClockInv(c: Config, s: State) {
    && (forall id | id in s.table :: s.table[id] <= s.now)
    && (forall id | id in s.deletedAt :: s.deletedAt[id] <= s.now)
    && s.anchor <= s.now && PollTime(s) <= s.now
    && (s.last.Relisted? ==> s.anchor == s.last.stampAt || s.anchor <= PollTime(s) - c.lag)
  }

  ghost predicate CacheInv(c: Config, s: State) {
    s.last.Relisted? ==>
      && s.last.scanAt <= s.last.stampAt <= s.anchor
      && (c.delay == 0 ==> forall id | id in s.table :: s.table[id] != s.last.stampAt)
      && (forall id | id in s.last.overlaid :: s.last.overlaid[id] <= s.now)
      && SurplusIsDeleted(s) && ReadIsRight(c, s)
      && (s.onTime ==> Agrees(c, s))
  }

  ghost predicate Inv(c: Config, s: State) {
    ClockInv(c, s) && RelistInv(c, s) && PollInv(c, s) && CacheInv(c, s)
  }

  // A step that leaves table and cache alone keeps what is known about them.
  lemma KeepsTheRest(c: Config, s: State, s': State)
    requires s' == s.(now := s'.now, relist := s'.relist, poll := s'.poll) && s.now <= s'.now
    ensures CacheInv(c, s) ==> CacheInv(c, s')
    ensures s'.poll == s.poll && PollInv(c, s) ==> PollInv(c, s')
    ensures s'.relist == s.relist && RelistInv(c, s) ==> RelistInv(c, s')
  {
    assert forall x | x in s.table && Right(s, x) :: Right(s', x);
  }

  lemma PutKeepsPollInv(c: Config, s: State, s': State, id: DocId, stamp: Time, at: Time)
    requires Inv(c, s) && Put(c, s, s', id, stamp, at)
    ensures PollInv(c, s') && RelistInv(c, s')
  {
    assert forall x | x in s'.table :: x == id || (x in s.table && s'.table[x] == s.table[x]);
    assert s'.table[id] == stamp;
    assert forall x | x in s.table && x != id && Right(s, x) :: Right(s', x);
  }

  lemma PutKeepsInv(c: Config, s: State, s': State, id: DocId, stamp: Time, at: Time)
    requires Inv(c, s) && Put(c, s, s', id, stamp, at)
    ensures Inv(c, s')
  {
    PutKeepsPollInv(c, s, s', id, stamp, at);
    assert forall x | x in s'.table :: x == id || (x in s.table && s'.table[x] == s.table[x]);
    assert s'.table[id] == stamp;
    assert forall x | x in s.table && x != id && Right(s, x) :: Right(s', x);
  }

  lemma DeleteKeepsPollInv(c: Config, s: State, s': State, id: DocId, at: Time)
    requires Inv(c, s) && Delete(s, s', id, at)
    ensures PollInv(c, s') && RelistInv(c, s')
  {
    assert forall x | x in s'.table :: x in s.table && s'.table[x] == s.table[x];
    assert forall x | x in s.deletedAt :: x in s'.deletedAt && s'.deletedAt[x] >= s.deletedAt[x];
    assert forall x | x in s.table && x !in s'.table :: x in s'.deletedAt && s'.deletedAt[x] == at;
    assert forall x | x in s'.table && Right(s, x) :: Right(s', x);
  }

  lemma DeleteKeepsInv(c: Config, s: State, s': State, id: DocId, at: Time)
    requires Inv(c, s) && Delete(s, s', id, at)
    ensures Inv(c, s')
  {
    DeleteKeepsPollInv(c, s, s', id, at);
    assert forall x | x in s'.table :: x in s.table && s'.table[x] == s.table[x];
    assert forall x | x in s.deletedAt :: x in s'.deletedAt && s'.deletedAt[x] >= s.deletedAt[x];
    assert forall x | x in s.table && x !in s'.table :: x in s'.deletedAt && s'.deletedAt[x] == at;
    assert forall x | x in s'.table && Right(s, x) :: Right(s', x);
  }

  lemma ScanKeepsInv(c: Config, s: State, s': State, at: Time, stubs: Stubs)
    requires Inv(c, s)
    requires BeginScan(s, s', at) || EndScan(c, s, s', stubs)
    ensures Inv(c, s')
  {
    KeepsTheRest(c, s, s');
  }

  // A relist that ends while a poll is under way: what the poll knows still holds.
  lemma RelistKeepsInv(c: Config, s: State, s': State, at: Time)
    requires Inv(c, s) && FinishRelist(s, s', at)
    ensures Inv(c, s')
  {
    assert forall x | x in s'.table && !InBlindStretch(c, s'.last, x, s'.table[x]) :: Right(s', x);
  }

  lemma QueryKeepsInv(c: Config, s: State, s': State, found: Stubs)
    requires Inv(c, s) && EndQuery(c, s, s', found)
    ensures Inv(c, s')
  {
    var changed := Changed(s.cache, found);
    if s.last.Relisted? && InTime(c, s, s.poll.queryAt) {
      forall id | id in s.table && s.table[id] + c.delay <= s.poll.queryAt - c.lag
                  && !InBlindStretch(c, s.last, id, s.table[id])
        ensures id in changed || Right(s', id)
      {
        if s.table[id] + c.delay <= s.anchor || s.table[id] + c.delay <= ReadOf(s.last, id) {
          assert Right(s, id);
        } else {
          assert id in found && found[id] == s.table[id];
        }
      }
    }
    KeepsTheRest(c, s, s');
  }

  lemma GetKeepsInv(c: Config, s: State, s': State, at: Time, fetched: Stubs)
    requires Inv(c, s)
    requires BeginGet(c, s, s', at) || EndGet(c, s, s', fetched)
    ensures Inv(c, s')
  {
    KeepsTheRest(c, s, s');
    if EndGet(c, s, s', fetched) {
      AnswerKeepsPollInv(c, s, s', fetched);
    } else {
      assert forall x | x in s.table && Right(s, x) :: Right(s', x);
    }
  }

  lemma AnswerKeepsPollInv(c: Config, s: State, s': State, fetched: Stubs)
    requires Inv(c, s) && EndGet(c, s, s', fetched)
    ensures PollInv(c, s')
  {
    assert forall x | x in s.table && Right(s, x) :: Right(s', x);
  }

  lemma BeginKeepsInv(c: Config, s: State, s': State, first: Time, second: Time)
    requires Inv(c, s) && BeginPoll(c, s, s', first, second)
    ensures Inv(c, s')
  {
    KeepsTheRest(c, s, s');
  }

  // The cache is overlaid with what was fetched.
  lemma OverlayKeepsInv(c: Config, s: State, s': State)
    requires Inv(c, s) && FinishPoll(c, s, s')
    ensures Inv(c, s')
  {
    if s.last.Relisted? {
      OverlayKeepsReads(c, s, s');
      if s'.onTime {
        forall id | id in s.table && s.table[id] + c.delay <= s'.anchor && !InBlindStretch(c, s'.last, id, s.table[id])
          ensures Right(s', id)
        {
          if id in s.poll.fetched {
            assert s.table[id] + c.delay <= s.poll.readAt;
          } else {
            assert Right(s, id);
          }
        }
      }
    }
  }

  lemma OverlayKeepsReads(c: Config, s: State, s': State)
    requires Inv(c, s) && FinishPoll(c, s, s') && s.last.Relisted?
    ensures ReadIsRight(c, s') && SurplusIsDeleted(s')
    ensures forall id | id in s.poll.fetched :: ReadOf(s'.last, id) == s.poll.readAt
    ensures forall id | id !in s.poll.fetched :: ReadOf(s'.last, id) == ReadOf(s.last, id)
  {
    forall id | id in s.table && s.table[id] + c.delay <= ReadOf(s'.last, id)
      ensures Right(s', id)
    {
      if id !in s.poll.fetched {
        assert Right(s, id);
      }
    }
  }

  lemma FailKeepsInv(c: Config, s: State, s': State)
    requires Inv(c, s) && (s' == s.(relist := RelistIdle) || s' == s.(poll := PollIdle))
    ensures Inv(c, s')
  {
    KeepsTheRest(c, s, s');
  }

  lemma StepKeepsInv(c: Config, s: State, s': State, l: Label)
    requires Inv(c, s) && Step(c, s, s', l)
    ensures Inv(c, s')
  {
    match l
    case LPut(id, stamp, at) => PutKeepsInv(c, s, s', id, stamp, at);
    case LDelete(id, at) => DeleteKeepsInv(c, s, s', id, at);
    case LRelistFails => FailKeepsInv(c, s, s');
    case LPollFails => FailKeepsInv(c, s, s');
    case LBeginScan(at) => ScanKeepsInv(c, s, s', at, map[]);
    case LEndScan(stubs) => ScanKeepsInv(c, s, s', 0, stubs);
    case LFinishRelist(at) => RelistKeepsInv(c, s, s', at);
    case LBeginPoll(first, second) => BeginKeepsInv(c, s, s', first, second);
    case LEndQuery(found) => QueryKeepsInv(c, s, s', found);
    case LBeginGet(at) => GetKeepsInv(c, s, s', at, map[]);
    case LEndGet(fetched) => GetKeepsInv(c, s, s', 0, fetched);
    case LFinishPoll => OverlayKeepsInv(c, s, s');
  }

  lemma {:induction false} RunKeepsInv(c: Config, states: seq<State>, labels: seq<Label>, n: nat)
    requires Run(c, states, labels) && n <= |labels|
    ensures Inv(c, states[n])
  {
    if n > 0 {
      RunKeepsInv(c, states, labels, n - 1);
      StepKeepsInv(c, states[n - 1], states[n], labels[n - 1]);
    }
  }

  /**
   * Two-speed watching stands in for full scanning. In every state of every run that follows a
   * relist: the cache holds the right stamp of every live document whose latest write was seen by the
   * read behind its entry, the scan or a batch get. As long as the polls kept up with the cap, it holds
   * the right stamp of every other live document written by the instant up to which the passes have
   * read, except one whose latest write fell into its blind stretch, between that read and the relist
   * stamp. Whatever else the cache holds was deleted since it was read.
   */
  lemma TwoSpeedRefinesScanning(c: Config, states: seq<State>, labels: seq<Label>, n: nat)
    requires Run(c, states, labels) && n <= |labels|
    requires states[n].last.Relisted?
    ensures ReadIsRight(c, states[n]) && SurplusIsDeleted(states[n])
    ensures states[n].onTime ==> Agrees(c, states[n])
  {
    RunKeepsInv(c, states, labels, n);
  }

  // ---- the exception is exact when reads and writes take no time -----------------------------------

  // No entry is newer than its read.
  ghost predicate ReadInv(s: State) {
    && (s.relist.Scanned? ==> forall id | id in s.relist.stubs :: s.relist.stubs[id] <= s.relist.scanAt)
    && (s.poll.Fetched? ==> forall id | id in s.poll.fetched :: s.poll.fetched[id] <= s.poll.readAt)
    && (s.last.Relisted? ==> forall id | id in s.cache :: s.cache[id] <= ReadOf(s.last, id))
  }

  lemma StepKeepsReadInv(c: Config, s: State, s': State, l: Label)
    requires c.instant && ValidConfig(c) && Inv(c, s) && ReadInv(s) && Step(c, s, s', l)
    ensures ReadInv(s')
  {
  }

  lemma {:induction false} RunKeepsReadInv(c: Config, states: seq<State>, labels: seq<Label>, n: nat)
    requires c.instant && ValidConfig(c) && Run(c, states, labels) && n <= |labels|
    ensures ReadInv(states[n])
  {
    if n > 0 {
      RunKeepsReadInv(c, states, labels, n - 1);
      RunKeepsInv(c, states, labels, n - 1);
      StepKeepsReadInv(c, states[n - 1], states[n], labels[n - 1]);
    }
  }

  /**
   * When reads and writes take no time and the two clock reads of a poll agree, in any interleaving:
   * a live document is right in the cache exactly when its latest write is not newer than the read
   * behind its entry. While polls keep up, that is wrong only for a document written between that read
   * and the relist stamp.
   */
  lemma CacheIsRightExactlyOutsideTheBlindStretch(
      c: Config, states: seq<State>, labels: seq<Label>, n: nat, id: DocId)
    requires c.instant && ValidConfig(c)
    requires Run(c, states, labels) && n <= |labels|
    requires states[n].last.Relisted? && id in states[n].table
    ensures var s := states[n]; Right(s, id) <==> s.table[id] <= ReadOf(s.last, id)
    ensures var s := states[n];
            s.onTime && s.table[id] <= s.anchor ==>
              (Right(s, id) <==> !(ReadOf(s.last, id) < s.table[id] < s.last.stampAt))
  {
    RunKeepsInv(c, states, labels, n);
    RunKeepsReadInv(c, states, labels, n);
  }

  // ---- both exceptions occur -----------------------------------------------------------------------

  lemma Joined(c: Config, states: seq<State>, labels: seq<Label>, more: seq<State>, next: seq<Label>)
    requires Run(c, states, labels) && Path(c, more, next) && more[0] == states[|labels|]
    ensures Run(c, states + more[1..], labels + next)
  {
    var all, every := states + more[1..], labels + next;
    forall i | 0 <= i < |every|
      ensures Step(c, all[i], all[i + 1], every[i])
    {
      if i < |labels| {
        assert Step(c, states[i], states[i + 1], labels[i]);
      } else {
        var k := i - |labels|;
        assert Step(c, more[k], more[k + 1], next[k]);
      }
    }
  }

  // A poll at instant 10 that starts after a relist at `stampAt` and finds nothing.
  lemma NothingFound(c: Config, s: State) returns (states: seq<State>, labels: seq<Label>)
    requires c.cap == 100 && c.drift == 0 && c.lag == 0 && c.slack + c.delay <= 90 && (c.instant ==> c.slack == 0)
    requires s.poll == PollIdle && s.now <= 10 && s.onTime
    requires s.last.Relisted? && 0 <= s.last.stampAt == s.anchor <= 10
    requires forall id | id in s.table :: s.table[id] < s.last.stampAt + c.slack
    ensures Path(c, states, labels) && |labels| == 3 && states[0] == s
    ensures states[3] == s.(now := 10, anchor := 10)
  {
    var s1 := s.(now := 10, poll := Querying(s.last.stampAt, 10));
    var s2 := s1.(poll := Fetched(10, 10, map[]));
    var s3 := s.(now := 10, anchor := 10);
    var nothing: Stubs := map[];
    assert Changed(s.cache, nothing) == {};
    assert s.cache + nothing == s.cache;
    assert s.last.overlaid + (map id | id in nothing :: 10) == s.last.overlaid;
    states, labels := [s, s1, s2, s3], [LBeginPoll(10, 10), LEndQuery(nothing), LFinishPoll];
    assert Step(c, s, s1, labels[0]);
    assert Step(c, s1, s2, labels[1]);
    assert Step(c, s2, s3, labels[2]);
  }

  // A document written between the scan and the stamp.
  lemma WrittenAfterTheScan(c: Config) returns (states: seq<State>, labels: seq<Label>)
    requires c.instant
    ensures Run(c, states, labels) && |labels| == 4
    ensures states[4] == State(2, map["a" := 1], map[], map[], Relisted(0, 2, map[]), 2, true, RelistIdle, PollIdle)
  {
    var s0 := State(0, map[], map[], map[], NeverRelisted, 0, true, RelistIdle, PollIdle);
    var s1 := s0.(relist := Scanning(0));
    var s2 := s0.(relist := Scanned(0, map[]));
    var s3 := s2.(now := 1, table := map["a" := 1]);
    var s4 := s3.(now := 2, last := Relisted(0, 2, map[]), anchor := 2, relist := RelistIdle);
    states, labels := [s0, s1, s2, s3, s4], [LBeginScan(0), LEndScan(map[]), LPut("a", 1, 1), LFinishRelist(2)];
    assert Step(c, s1, s2, labels[1]);
    assert Step(c, s2, s3, labels[2]);
  }

  // A run in which a document written between the scan and the stamp is missed by the next poll.
  lemma BlindStretchRun(c: Config) returns (states: seq<State>, labels: seq<Label>)
    requires c == Config(100, 0, 0, 0, 0, true)
    ensures Run(c, states, labels)
    ensures var s := states[|labels|];
            && s.relist == RelistIdle && s.poll == PollIdle && s.onTime && s.anchor == 10
            && s.table == map["a" := 1] && s.cache == map[]
  {
    states, labels := WrittenAfterTheScan(c);
    var more, next := NothingFound(c, states[4]);
    Joined(c, states, labels, more, next);
    states, labels := states + more[1..], labels + next;
  }

  // A relist of the empty table, and a write after it.
  lemma WrittenAfterTheRelist(c: Config, stamp: Time, at: Time) returns (states: seq<State>, labels: seq<Label>)
    requires 2 < at && stamp <= at <= stamp + c.delay
    ensures Run(c, states, labels) && |labels| == 4
    ensures states[4] ==
            State(at, map["a" := stamp], map[], map[], Relisted(0, 2, map[]), 2, true, RelistIdle, PollIdle)
  {
    var s0 := State(0, map[], map[], map[], NeverRelisted, 0, true, RelistIdle, PollIdle);
    var s1 := s0.(relist := Scanning(0));
    var s2 := s0.(relist := Scanned(0, map[]));
    var s3 := s2.(now := 2, last := Relisted(0, 2, map[]), anchor := 2, relist := RelistIdle);
    var s4 := s3.(now := at, table := map["a" := stamp]);
    states, labels := [s0, s1, s2, s3, s4], [LBeginScan(0), LEndScan(map[]), LFinishRelist(2), LPut("a", stamp, at)];
    assert Step(c, s1, s2, labels[1]);
    assert Step(c, s2, s3, labels[2]);
    assert s3.table["a" := stamp] == map["a" := stamp];
    assert Step(c, s3, s4, labels[3]);
  }

  /**
   * Slack and delay leave a blind stretch of their own, after every relist: a write that takes effect
   * later, but is stamped less than the slack after the relist stamp, or before it by a slow writer,
   * can be missed by the relist and by the poll after it.
   */
  lemma WriteAfterTheRelistIsMissed(c: Config, stamp: Time, at: Time) returns (states: seq<State>, labels: seq<Label>)
    requires c.cap == 100 && c.drift == 0 && c.lag == 0 && c.slack + c.delay <= 90 && !c.instant
    requires 2 < at <= 10 && stamp <= at <= stamp + c.delay && stamp < 2 + c.slack
    ensures Run(c, states, labels)
    ensures var s := states[|labels|];
            && s.relist == RelistIdle && s.poll == PollIdle && s.onTime && s.anchor == 10
            && s.table == map["a" := stamp] && s.cache == map[]
  {
    states, labels := WrittenAfterTheRelist(c, stamp, at);
    var more, next := NothingFound(c, states[4]);
    Joined(c, states, labels, more, next);
    states, labels := states + more[1..], labels + next;
  }

  // A query that finds "a" as written at 1 when the cache is empty.
  lemma OneIsChosen(c: Config, s: State, s': State)
    requires c == Config(100, 0, 0, 0, 0, true) && s.poll == Querying(-98, 2) && s.now == 2
    requires s.table == map["a" := 1] && s.cache == map[]
    requires s' == s.(poll := Chosen(2, {"a"}))
    ensures Step(c, s, s', LEndQuery(map["a" := 1]))
  {
    var found: Stubs := map["a" := 1];
    assert Changed(s.cache, found) == {"a"};
    assert found == map id | id in s.table && s.poll.since <= s.table[id] :: s.table[id];
  }

  lemma OneIsFetched(c: Config, s: State, s': State)
    requires c == Config(100, 0, 0, 0, 0, true) && s.poll == Getting(2, {"a"}, 2) && s.now == 2
    requires s.table == map["a" := 1]
    requires s' == s.(poll := Fetched(2, 2, map["a" := 1]))
    ensures Step(c, s, s', LEndGet(map["a" := 1]))
  {
    var fetched: Stubs := map["a" := 1];
    assert fetched == map id | id in s.table && id in s.poll.changed :: s.table[id];
  }

  // A poll chooses "a" as written at 1.
  lemma ChosenRun(c: Config) returns (states: seq<State>, labels: seq<Label>)
    requires c == Config(100, 0, 0, 0, 0, true)
    ensures Run(c, states, labels) && |labels| == 2
    ensures states[2] == State(2, map["a" := 1], map[], map[], NeverRelisted, 0, true, RelistIdle, Chosen(2, {"a"}))
  {
    var a1: Stubs := map["a" := 1];
    var s0 := State(1, a1, map[], map[], NeverRelisted, 0, true, RelistIdle, PollIdle);
    var s1 := s0.(now := 2, poll := Querying(-98, 2));
    var s2 := s1.(poll := Chosen(2, {"a"}));
    states, labels := [s0, s1, s2], [LBeginPoll(2, 2), LEndQuery(a1)];
    assert Step(c, s0, s1, labels[0]);
    OneIsChosen(c, s1, s2);
  }

  // It fetches "a", which is then written again.
  lemma FetchThenWrite(c: Config, s: State) returns (states: seq<State>, labels: seq<Label>)
    requires c == Config(100, 0, 0, 0, 0, true)
    requires s == State(2, map["a" := 1], map[], map[], NeverRelisted, 0, true, RelistIdle, Chosen(2, {"a"}))
    ensures Path(c, states, labels) && |labels| == 3 && states[0] == s
    ensures states[3] == s.(now := 3, table := map["a" := 3], poll := Fetched(2, 2, map["a" := 1]))
  {
    var a1: Stubs := map["a" := 1];
    var s1 := s.(poll := Getting(2, {"a"}, 2));
    var s2 := s.(poll := Fetched(2, 2, a1));
    var s3 := s2.(now := 3, table := map["a" := 3]);
    states, labels := [s, s1, s2, s3], [LBeginGet(2), LEndGet(a1), LPut("a", 3, 3)];
    assert Step(c, s, s1, labels[0]);
    OneIsFetched(c, s1, s2);
    assert a1["a" := 3] == map["a" := 3];
    assert Step(c, s2, s3, labels[2]);
  }

  // A poll has fetched "a" as written at 1 when "a" is written again.
  lemma FetchedThenWritten(c: Config) returns (states: seq<State>, labels: seq<Label>)
    requires c == Config(100, 0, 0, 0, 0, true)
    ensures Run(c, states, labels) && |labels| == 5
    ensures states[5] == State(3, map["a" := 3], map[], map[], NeverRelisted, 0, true, RelistIdle,
                               Fetched(2, 2, map["a" := 1]))
  {
    states, labels := ChosenRun(c);
    var more, next := FetchThenWrite(c, states[2]);
    Joined(c, states, labels, more, next);
    states, labels := states + more[1..], labels + next;
  }

  // A whole relist runs before that poll updates the cache.
  lemma RelistThenOverlay(c: Config, s: State) returns (states: seq<State>, labels: seq<Label>)
    requires c == Config(100, 0, 0, 0, 0, true)
    requires s == State(3, map["a" := 3], map[], map[], NeverRelisted, 0, true, RelistIdle,
                        Fetched(2, 2, map["a" := 1]))
    ensures Path(c, states, labels) && |labels| == 4 && states[0] == s
    ensures states[4] == State(5, map["a" := 3], map[], map["a" := 1], Relisted(4, 5, map["a" := 2]), 5, true,
                               RelistIdle, PollIdle)
  {
    var a1: Stubs, a3: Stubs := map["a" := 1], map["a" := 3];
    var s1 := s.(now := 4, relist := Scanning(4));
    var s2 := s1.(relist := Scanned(4, a3));
    var s3 := s2.(now := 5, cache := a3, last := Relisted(4, 5, map[]), anchor := 5, relist := RelistIdle);
    var s4 := s3.(cache := a1, last := Relisted(4, 5, map["a" := 2]), poll := PollIdle);
    states, labels := [s, s1, s2, s3, s4], [LBeginScan(4), LEndScan(a3), LFinishRelist(5), LFinishPoll];
    assert a3 + a1 == a1;
    var none: map<DocId, Time> := map[];
    assert none + (map id | id in a1 :: 2) == map["a" := 2];
    assert AfterOverlay(s3.last, 2, a1) == s4.last;
    assert Step(c, s1, s2, labels[1]);
    assert Step(c, s3, s4, labels[3]);
  }

  // A run of overlapping passes in which a poll takes the cache back behind the relist's scan, and the
  // next poll does not notice.
  lemma OverlapRun(c: Config) returns (states: seq<State>, labels: seq<Label>)
    requires c == Config(100, 0, 0, 0, 0, true)
    ensures Run(c, states, labels)
    ensures var s := states[|labels|];
            && s.relist == RelistIdle && s.poll == PollIdle && s.onTime && s.anchor == 10
            && s.table == map["a" := 3] && s.cache == map["a" := 1]
  {
    states, labels := FetchedThenWritten(c);
    var more, next := RelistThenOverlay(c, states[5]);
    Joined(c, states, labels, more, next);
    states, labels := states + more[1..], labels + next;
    more, next := NothingFound(c, states[9]);
    Joined(c, states, labels, more, next);
    states, labels := states + more[1..], labels + next;
  }
}
