/**
 * Optimistic concurrency on one status document: any number of writers interleave Get, local edits
 * and Replace of internal/database/crud.go, while the document may also be created and deleted.
 */
module NoLostUpdate {
  import opened Common
  import opened Codec
  import opened Store

  type Writer = nat

  // A writer's working copy, what it was read as, which of all writes that was, and in which
  // incarnation of the document. Edits leave the version and the id alone.
  datatype Copy = Copy(local: Desire, base: Desire, serial: nat, readIn: nat)

  // history lists what the writes of the current incarnation stored; writes counts all successful
  // writes ever.
  datatype State = State(
    docs: Docs, held: map<Writer, Copy>, history: seq<Desire>, writes: nat, incarnation: nat)

  datatype Label =
    | LGet(w: Writer)
    | LEdit(w: Writer, to: Desire)
    | LReplace(w: Writer, now: Time)
    | LCreate(obj: Desire, now: Time)
    | LDelete

  ghost predicate Init(s: State) {
    s == State(map[], map[], [], 0, 0)
  }

  ghost predicate Step(j: Json, id: string, s: State, s': State, l: Label) {
    match l
    case LGet(w) =>
      && id in s.docs
      && s' == s.(held := s.held[w := Copy(s.docs[id], s.docs[id], s.writes, s.incarnation)])
    case LEdit(w, to) =>
      && w in s.held && to.version == s.held[w].local.version && to.id == id
      && s' == s.(held := s.held[w := s.held[w].(local := to)])
    case LReplace(w, now) =>
      && w in s.held
      && var (docs', r) := DynamoReplace(j, s.docs, s.held[w].local, now);
      if r.Returned? && id in docs' then
        s' == s.(docs := docs', history := s.history + [docs'[id]], writes := s.writes + 1)
      else s' == s
    case LCreate(obj, now) =>
      && obj.id == id
      && var (docs', r) := DynamoCreate(j, s.docs, obj, now);
      if r.Returned? then s' == s.(docs := docs', history := [docs'[id]], writes := s.writes + 1)
      else s' == s
    case LDelete =>
      && id in s.docs
      && s' == s.(docs := s.docs - {id}, history := [], incarnation := s.incarnation + 1)
  }

  ghost predicate Run(j: Json, id: string, states: seq<State>, labels: seq<Label>) {
    && |states| == |labels| + 1
    && Init(states[0])
    && (forall i | 0 <= i < |labels| :: Step(j, id, states[i], states[i + 1], labels[i]))
  }

  ghost predicate CopyInv(s: State, id: string, c: Copy) {
    && c.local.id == id && c.local.version == c.base.version
    && c.readIn <= s.incarnation
    && if c.readIn == s.incarnation then
         && 1 <= c.base.version <= |s.history|
         && c.base == s.history[c.base.version - 1]
         && c.serial == s.writes - |s.history| + c.base.version
       else c.serial <= s.writes - |s.history|
  }

  ghost predicate Inv(s: State, id: string) {
    && |s.history| <= s.writes
    && (id in s.docs <==> s.history != [])
    && (id in s.docs ==> s.docs[id] == s.history[|s.history| - 1] && s.docs[id].id == id)
    && (forall i | 0 <= i < |s.history| :: s.history[i].version == i + 1)
    && (forall w | w in s.held :: CopyInv(s, id, s.held[w]))
  }

  lemma NormalKeepsIdentity(j: Json, d: Desire)
    requires Encodable(j, d)
    ensures Normal(j, d).id == d.id && Normal(j, d).version == d.version
  {
  }

  lemma ReplaceKeepsInv(j: Json, id: string, s: State, s': State, w: Writer, now: Time)
    requires Inv(s, id) && Step(j, id, s, s', LReplace(w, now))
    ensures Inv(s', id)
  {
    var local := s.held[w].local;
    if s' != s {
      var out := local.(version := local.version + 1, updateTime := now);
      NormalKeepsIdentity(j, out);
      assert s'.history == s.history + [Normal(j, out)];
    }
  }

  lemma CreateKeepsInv(j: Json, id: string, s: State, s': State, obj: Desire, now: Time)
    requires Inv(s, id) && Step(j, id, s, s', LCreate(obj, now))
    ensures Inv(s', id)
  {
    if s' != s {
      NormalKeepsIdentity(j, obj.(version := 1, updateTime := now, createTime := now));
    }
  }

  // Reading, editing a copy and deleting.
  lemma OtherStepsKeepInv(j: Json, id: string, s: State, s': State, l: Label)
    requires Inv(s, id) && Step(j, id, s, s', l) && (l.LGet? || l.LEdit? || l.LDelete?)
    ensures Inv(s', id)
  {
  }

  lemma {:induction false} RunKeepsInv(j: Json, id: string, states: seq<State>, labels: seq<Label>, n: nat)
    requires Run(j, id, states, labels) && n <= |labels|
    ensures Inv(states[n], id)
  {
    if n > 0 {
      RunKeepsInv(j, id, states, labels, n - 1);
      assert Step(j, id, states[n - 1], states[n], labels[n - 1]);
      match labels[n - 1]
      case LReplace(w, now) => ReplaceKeepsInv(j, id, states[n - 1], states[n], w, now);
      case LCreate(obj, now) => CreateKeepsInv(j, id, states[n - 1], states[n], obj, now);
      case _ => OtherStepsKeepInv(j, id, states[n - 1], states[n], labels[n - 1]);
    }
  }

  // The writes of one incarnation carry the versions 1, 2, 3, ... and the last of them is stored.
  lemma VersionsCountTheWrites(j: Json, id: string, states: seq<State>, labels: seq<Label>, n: nat)
    requires Run(j, id, states, labels) && n <= |labels|
    ensures var s := states[n];
            && (forall i | 0 <= i < |s.history| :: s.history[i].version == i + 1)
            && (id in s.docs <==> s.history != [])
            && (id in s.docs ==> s.docs[id] == s.history[|s.history| - 1] && s.docs[id].version == |s.history|)
  {
    RunKeepsInv(j, id, states, labels, n);
  }

  ghost predicate Succeeds(s: State, s': State) {
    s'.writes == s.writes + 1
  }

  /**
   * No lost update. A successful Replace was computed from the immediately preceding write exactly
   * when its writer read the document in the current incarnation; then what it read is what was
   * stored, and the new document carries the next version.
   */
  lemma SuccessfulReplaceBuildsOnTheLastWrite(
      j: Json, id: string, states: seq<State>, labels: seq<Label>, n: nat, w: Writer, now: Time)
    requires Run(j, id, states, labels) && n < |labels|
    requires labels[n] == LReplace(w, now) && Succeeds(states[n], states[n + 1])
    ensures var s, s' := states[n], states[n + 1];
            && w in s.held && id in s.docs && id in s'.docs
            && s'.docs[id].version == s.docs[id].version + 1
            && (s.held[w].serial == s.writes <==> s.held[w].readIn == s.incarnation)
            && (s.held[w].readIn == s.incarnation ==> s.held[w].base == s.docs[id])
  {
    RunKeepsInv(j, id, states, labels, n);
    RunKeepsInv(j, id, states, labels, n + 1);
    assert Step(j, id, states[n], states[n + 1], labels[n]);
  }

  // Delete followed by Create starts again at version 1, so a copy read before the deletion can
  // replace a document it was never computed from.
  lemma UpdateLostAcrossIncarnations(j: Json, first: Desire, second: Desire)
      returns (states: seq<State>, labels: seq<Label>)
    requires Lawful(j) && WellFormed(first)
    requires first.id == second.id != "" && Encodable(j, first) && Encodable(j, second)
    ensures Run(j, first.id, states, labels)
    ensures |labels| == 5 && labels[4] == LReplace(0, 30) && Succeeds(states[4], states[5])
    ensures states[4].held[0].base == Normal(j, first.(version := 1, updateTime := 10, createTime := 10))
    ensures states[4].docs[first.id] == Normal(j, second.(version := 1, updateTime := 20, createTime := 20))
  {
    var id := first.id;
    var a := Normal(j, first.(version := 1, updateTime := 10, createTime := 10));
    var b := Normal(j, second.(version := 1, updateTime := 20, createTime := 20));
    NormalKeepsIdentity(j, first.(version := 1, updateTime := 10, createTime := 10));
    NormalKeepsIdentity(j, second.(version := 1, updateTime := 20, createTime := 20));
    NormalIsStable(j, first.(version := 1, updateTime := 10, createTime := 10));
    var s0 := State(map[], map[], [], 0, 0);
    var s1 := s0.(docs := map[id := a], history := [a], writes := 1);
    var s2 := s1.(held := map[0 := Copy(a, a, 1, 0)]);
    var s3 := s2.(docs := map[], history := [], incarnation := 1);
    var s4 := s3.(docs := map[id := b], history := [b], writes := 2);
    var c := Normal(j, a.(version := 2, updateTime := 30));
    NormalKeepsIdentity(j, a.(version := 2, updateTime := 30));
    var s5 := s4.(docs := map[id := c], history := [b, c], writes := 3);
    states := [s0, s1, s2, s3, s4, s5];
    labels := [LCreate(first, 10), LGet(0), LDelete, LCreate(second, 20), LReplace(0, 30)];
    assert Step(j, id, s0, s1, labels[0]);
    assert s2.docs - {id} == map[];
    assert Step(j, id, s2, s3, labels[2]);
    assert Step(j, id, s3, s4, labels[3]);
    assert s4.docs[id := c] == map[id := c];
    assert Step(j, id, s4, s5, labels[4]);
  }
}
