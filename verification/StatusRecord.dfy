/**
 * pkg/controllers/read_desire_manager/controller.go, handleDelete, and the status record of the desire
 * it removes: the handler deletes the record first and stops the instance afterwards, while mirror
 * passes of the instance and failed builds still write records.
 */
module StatusRecord {
  import opened Common
  import opened Keys
  import opened Codec
  import opened Manager

  // A step that writes the record of the document: it creates the record when there is none.
  predicate Writes(s: State, l: Label, documentID: string) {
    match l
    case MirrorPass(i) => i < |s.insts| && s.insts[i].key.name == documentID
    case BuildEnds(t, ok) => !ok && t in s.busy && s.busy[t].name == documentID
    case _ => false
  }

  predicate Deletes(l: Label, documentID: string) {
    l.HandleDelete? && l.documentID == documentID
  }

  // Whether the document has a record after n steps; answered[m] says that the status call of step m
  // succeeds and, for a mirror pass, that it has something to write.
  ghost predicate Present(states: seq<State>, labels: seq<Label>, answered: seq<bool>, documentID: string, n: nat)
    requires n <= |labels| == |answered| && |labels| < |states|
  {
    n > 0 &&
    if answered[n - 1] && Writes(states[n - 1], labels[n - 1], documentID) then true
    else if answered[n - 1] && Deletes(labels[n - 1], documentID) then false
    else Present(states, labels, answered, documentID, n - 1)
  }

  ghost predicate Written(states: seq<State>, labels: seq<Label>, answered: seq<bool>, documentID: string, m: nat)
    requires m < |labels| == |answered| && |labels| < |states|
  {
    answered[m] && Writes(states[m], labels[m], documentID)
  }

  // Document ids are unique: the instances and the queue know the document under one key.
  ghost predicate OneKey(s: State, key: Key) {
    && (forall i | 0 <= i < |s.insts| && s.insts[i].key.name == key.name :: s.insts[i].key == key)
    && (forall u | u in s.busy && s.busy[u].name == key.name :: s.busy[u] == key)
  }

  lemma {:induction false} PresentExactly(
      states: seq<State>, labels: seq<Label>, answered: seq<bool>, documentID: string, d: nat, n: nat)
    requires |labels| == |answered| && |labels| < |states| && d < n <= |labels|
    requires answered[d] && Deletes(labels[d], documentID)
    requires forall m | d < m < n :: !Deletes(labels[m], documentID)
    ensures Present(states, labels, answered, documentID, n) <==>
            exists m :: d < m < n && Written(states, labels, answered, documentID, m)
  {
    if n > d + 1 {
      PresentExactly(states, labels, answered, documentID, d, n - 1);
      assert Written(states, labels, answered, documentID, n - 1) <==>
             answered[n - 1] && Writes(states[n - 1], labels[n - 1], documentID);
    }
  }

  // Once everything has exited and nobody is about to start anything, nobody writes the record.
  lemma NobodyWrites(states: seq<State>, labels: seq<Label>, m: nat, key: Key)
    requires Run(states, labels) && m < |labels| && OneKey(states[m], key)
    requires AllExited(states[m], key) && NoStarter(states[m], key)
    ensures !Writes(states[m], labels[m], key.name)
  {
    assert Step(states[m], states[m + 1], labels[m]);
  }

  /**
   * When does the status record of a deleted desire stay gone? With the desire ended for good (module
   * Manager) and its record deleted first, the record is gone at every state from the handler's return
   * on if and only if nothing was written between its deletion and that return.
   */
  lemma RecordStaysGoneExactly(
      states: seq<State>, labels: seq<Label>, answered: seq<bool>, t: Thread,
      clusterID: string, nodePool: string, documentID: string, h: nat, c: nat, r: nat, n: nat)
    requires Handles(states, labels, t, clusterID, documentID, h, c) && Returns(states, t, c, r) && r <= n <= |labels|
    requires |answered| == |labels| && answered[h] && forall m | h < m < n :: !Deletes(labels[m], documentID)
    requires var key := WorkerKey(clusterID, nodePool, documentID);
             && Reached(states[c], nodePool, key) && NoStarter(states[c], key) && !BeingStopped(states[c], key)
             && (forall m | c <= m < n :: !FindsSpec(labels[m], key))
             && (forall m | r <= m < n :: OneKey(states[m], key))
    ensures !Present(states, labels, answered, documentID, n) <==>
            forall m | h < m < r :: !Written(states, labels, answered, documentID, m)
  {
    var key := WorkerKey(clusterID, nodePool, documentID);
    PresentExactly(states, labels, answered, documentID, h, n);
    forall m | r <= m < n
      ensures !Written(states, labels, answered, documentID, m)
    {
      QuietDesireEndsForGood(states, labels, t, clusterID, nodePool, documentID, h, c, r, m);
      NoStarterNoInsert(states, labels, key, c, m);
      NobodyWrites(states, labels, m, key);
    }
  }

  // The delete handler deletes the record, the instance writes it again, and the handler goes on.
  lemma HandlerIsOvertaken(states: seq<State>, labels: seq<Label>, key: Key, target: Target)
    returns (states': seq<State>, labels': seq<Label>)
    requires Run(states, labels) && key.nodePool == ""
    requires Last(states) == State([Instance(key, target, false, Live)], map[key := 0], map[], map[], map[0 := Idle])
    ensures Run(states', labels') && states <= states' && |states'| == |states| + 3
    ensures labels' == labels + [HandleDelete(1, key.clusterID, key.name), MirrorPass(0), Claim(1)]
    ensures Last(states') ==
            State(Last(states).insts, map[], map[0 := 1], map[], map[0 := Idle, 1 := Cancelling(0, Return)])
  {
    var s := Last(states);
    var s1 := Go(s, 1, Stopping(key, Return));
    var s2 := State(s.insts, map[], map[0 := 1], map[], map[0 := Idle, 1 := Cancelling(0, Return)]);
    var next := [HandleDelete(1, key.clusterID, key.name), MirrorPass(0), Claim(1)];
    assert s.running - {key} == map[];
    assert s1.pcs[1 := Cancelling(0, Return)] == s2.pcs && s1.claims[0 := 1] == s2.claims;
    assert Step(s, s1, next[0]);
    assert Step(s1, s1, next[1]);
    assert Step(s1, s2, next[2]);
    Extended(states, labels, [s1, s1, s2], next);
    states', labels' := states + [s1, s1, s2], labels + next;
  }

  // A mirror pass between the handler's two steps creates the record again: at the end all threads are
  // idle, nothing of the desire is running, and its record is still there.
  lemma MirrorPassBringsTheRecordBack(clusterID: string, documentID: string, target: Target)
    returns (states: seq<State>, labels: seq<Label>, answered: seq<bool>)
    ensures Handles(states, labels, 1, clusterID, documentID, 5, 7) && Returns(states, 1, 7, 11) && |labels| == 11
    ensures var key := WorkerKey(clusterID, "", documentID);
            && AllIdle(states[11]) && key !in states[11].running && AllExited(states[11], key)
            && |answered| == |labels| && Present(states, labels, answered, documentID, |labels|)
  {
    var key := WorkerKey(clusterID, "", documentID);
    var s0 := State([], map[], map[], map[], map[]);
    assert Run([s0], []);
    var started, before := WorkerStarts([s0], [], 0, key, target);
    var claimed, handling := HandlerIsOvertaken(started, before, key, target);
    states, labels := HandlerEnds(claimed, handling, 1, 0);
    assert labels[5] == HandleDelete(1, clusterID, documentID) && labels[6] == MirrorPass(0) && labels[7] == Claim(1);
    answered := seq(|labels|, _ => true);
    BroughtBack(states, labels, answered, documentID);
  }

  lemma BroughtBack(states: seq<State>, labels: seq<Label>, answered: seq<bool>, documentID: string)
    requires |labels| == |answered| == 11 && |states| == 12 && answered[5] && answered[6]
    requires Deletes(labels[5], documentID) && Writes(states[6], labels[6], documentID)
    requires labels[7..] == [Claim(1), Cancel(1), InstanceExits(0), Joined(1)]
    ensures Present(states, labels, answered, documentID, |labels|)
  {
    forall m | 5 < m < 11
      ensures !Deletes(labels[m], documentID)
    {
      assert m > 6 ==> labels[m] == labels[7..][m - 7];
    }
    PresentExactly(states, labels, answered, documentID, 5, |labels|);
    assert Written(states, labels, answered, documentID, 6);
  }
}
