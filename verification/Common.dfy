/** Small vocabulary shared by every module. */
module Common {

  // Instants and durations are nanoseconds on one clock.
  type Time = int

  datatype Option<+T> = None | Some(value: T)

  datatype Result<+T, +E> = Ok(value: T) | Err(error: E)

  function Max(a: int, b: int): int {
    if a < b then b else a
  }

  function Elements<T(==)>(s: seq<T>): set<T> {
    set x | x in s
  }

  lemma ElementsOfConcat<T>(s: seq<T>, t: seq<T>)
    ensures Elements(s + t) == Elements(s) + Elements(t)
  {
    assert forall x | x in s + t :: x in s || x in t;
    assert forall x | x in s || x in t :: x in s + t;
  }

  lemma UpdateAfterMerge<K, V>(a: map<K, V>, b: map<K, V>, k: K, v: V)
    ensures (a + b)[k := v] == a + b[k := v]
  {
  }

  lemma MergeIsAssociative<K, V>(a: map<K, V>, b: map<K, V>, c: map<K, V>)
    ensures (a + b) + c == a + (b + c)
  {
  }

  // Go maps are walked in an unspecified order, each key once: the loops of the
  // model take any remaining key, and their results are sequences without repeats.
  ghost predicate NoDup<T>(s: seq<T>) {
    forall i, j :: 0 <= i < j < |s| ==> s[i] != s[j]
  }

  // `s` lists exactly the elements of `xs`, each once.
  ghost predicate Enumerates<T>(s: seq<T>, xs: set<T>) {
    && NoDup(s)
    && (forall x | x in s :: x in xs)
    && (forall x | x in xs :: x in s)
  }

  lemma {:induction false} AsManyAsListed<T>(s: seq<T>, xs: set<T>)
    requires Enumerates(s, xs)
    ensures |s| == |xs|
  {
    if s != [] {
      var n := |s| - 1;
      assert forall x | x in s && x != s[n] :: x in s[..n];
      assert forall i | 0 <= i < n :: s[i] != s[n];
      AsManyAsListed(s[..n], xs - {s[n]});
    } else {
      assert xs == {};
    }
  }
}

/** pkg/controllers/keys/keys.go: how the workqueues and the cooldown gates name a desire. */
module Keys {
  datatype Key = Key(clusterID: string, nodePool: string, name: string)
}
