/** De-duplication of node snapshots before a batch insert (internal/collector/dedup.go). */
module SnapshotDedup {
  import opened Ordering

  datatype Key = Key(organisation: string, nodeName: string)

  /** One row of the batch; `data` stands for every column outside the key. */
  datatype Row<+V> = Row(key: Key, data: V)

  function Keys<V>(rows: seq<Row<V>>): (r: seq<Key>)
    ensures |r| == |rows|
    ensures forall i :: 0 <= i < |rows| ==> r[i] == rows[i].key
  {
    seq(|rows|, i requires 0 <= i < |rows| => rows[i].key)
  }

  function KeySet(keys: seq<Key>, from: nat, to: nat): set<Key>
    requires to <= |keys|
  {
    set i | from <= i < to :: keys[i]
  }

  lemma KeySetStep(keys: seq<Key>, from: nat, to: nat)
    requires from < to <= |keys|
    ensures KeySet(keys, from, to) == KeySet(keys, from + 1, to) + {keys[from]}
    ensures KeySet(keys, from, to) == KeySet(keys, from, to - 1) + {keys[to - 1]}
    ensures KeySet(keys, from, from) == {}
  {
  }

  /** No later row has the key at index `i`. */
  predicate LastOfKey(keys: seq<Key>, i: nat)
    requires i < |keys|
  {
    forall j :: i < j < |keys| ==> keys[j] != keys[i]
  }

  predicate FirstOfKey(keys: seq<Key>, i: nat)
    requires i < |keys|
  {
    forall j :: 0 <= j < i ==> keys[j] != keys[i]
  }

  /** The indices, from `from` on, that hold the last row of their key. */
  function Kept(keys: seq<Key>, from: nat): (r: seq<nat>)
    requires from <= |keys|
    ensures forall p :: 0 <= p < |r| ==> from <= r[p] < |keys| && LastOfKey(keys, r[p])
    ensures forall i :: from <= i < |keys| && LastOfKey(keys, i) ==> i in r
    ensures forall p, q :: 0 <= p < q < |r| ==> r[p] < r[q]
    decreases |keys| - from
  {
    if from == |keys| then []
    else
      var rest := Kept(keys, from + 1);
      if LastOfKey(keys, from) then [from] + rest else rest
  }

  function Pick<T>(s: seq<T>, at: seq<nat>): (r: seq<T>)
    requires forall p :: 0 <= p < |at| ==> at[p] < |s|
  {
    seq(|at|, p requires 0 <= p < |at| => s[at[p]])
  }

  /** The rows that no later row of their key follows, in index order. */
  function LastPerKey<V>(rows: seq<Row<V>>): seq<Row<V>> {
    Pick(rows, Kept(Keys(rows), 0))
  }

  function Reversed<T>(s: seq<T>): (r: seq<T>)
    ensures |r| == |s|
    ensures forall i :: 0 <= i < |s| ==> r[i] == s[|s| - 1 - i]
  {
    seq(|s|, i requires 0 <= i < |s| => s[|s| - 1 - i])
  }

  /** Reverse a slice by swapping from both ends. */
  method Reverse<T>(a: array<T>)
    modifies a
    ensures a[..] == Reversed(old(a[..]))
  {
    var left, right := 0, a.Length - 1;
    while left < right
      invariant 0 <= left && right == a.Length - 1 - left && left <= right + 1
      invariant forall k :: 0 <= k < left || right < k < a.Length ==> a[k] == old(a[a.Length - 1 - k])
      invariant forall k :: left <= k <= right ==> a[k] == old(a[k])
    {
      a[left], a[right] := a[right], a[left];
      left, right := left + 1, right - 1;
    }
  }

  /** Walk backwards, appending each row whose key has not been seen. */
  method LastRowsBackwards<V>(params: seq<Row<V>>) returns (backwards: seq<Row<V>>)
    ensures Reversed(backwards) == LastPerKey(params)
  {
    ghost var keys := Keys(params);
    var seen: set<Key> := {};
    backwards := [];
    var i := |params| - 1;
    while i >= 0
      invariant -1 <= i < |params|
      invariant seen == KeySet(keys, i + 1, |params|)
      invariant Reversed(backwards) == Pick(params, Kept(keys, i + 1))
    {
      var k := params[i].key;
      KeySetStep(keys, i, |params|);
      assert LastOfKey(keys, i) <==> k !in seen;
      if k !in seen {
        seen := seen + {k};
        PickCons(params, i, Kept(keys, i + 1));
        assert Reversed(backwards + [params[i]]) == [params[i]] + Reversed(backwards);
        backwards := backwards + [params[i]];
      }
      i := i - 1;
    }
  }

  lemma PickCons<T>(s: seq<T>, i: nat, at: seq<nat>)
    requires i < |s| && forall p :: 0 <= p < |at| ==> at[p] < |s|
    ensures Pick(s, [i] + at) == [s[i]] + Pick(s, at)
  {
  }

  /** Keep each key's last row: note the last index of every key, walk backwards
      appending unseen keys, then reverse. */
  method Deduplicate<V(0)>(params: seq<Row<V>>) returns (result: seq<Row<V>>, duplicates: int)
    ensures result == LastPerKey(params)
    ensures duplicates == |params| - |KeySet(Keys(params), 0, |params|)|
  {
    if |params| == 0 {
      return params, 0;
    }
    ghost var keys := Keys(params);
    var lastIndex: map<Key, int> := map[];
    for i := 0 to |params|
      invariant lastIndex.Keys == KeySet(keys, 0, i)
    {
      lastIndex := lastIndex[params[i].key := i];
      KeySetStep(keys, 0, i + 1);
    }
    KeptCount(keys, 0);
    if |lastIndex| == |params| {
      AllDistinctKeepsAll(params);
      return params, 0;
    }

    var backwards := LastRowsBackwards(params);
    var slice := new Row<V>[|backwards|](j requires 0 <= j < |backwards| => backwards[j]);
    assert slice[..] == backwards;
    Reverse(slice);
    result := slice[..];
    duplicates := |params| - |result|;
  }

  // ---------------------------------------------------------------------------
  // What the kept rows are
  // ---------------------------------------------------------------------------

  lemma {:induction false} KeptCount(keys: seq<Key>, from: nat)
    requires from <= |keys|
    ensures |Kept(keys, from)| == |KeySet(keys, from, |keys|)| <= |keys| - from
    ensures |Kept(keys, from)| == |keys| - from ==>
              forall p :: 0 <= p < |keys| - from ==> Kept(keys, from)[p] == from + p
    decreases |keys| - from
  {
    if from < |keys| {
      KeptCount(keys, from + 1);
      KeySetStep(keys, from, |keys|);
      var later := KeySet(keys, from + 1, |keys|);
      if keys[from] in later {
        assert later + {keys[from]} == later;
      } else {
        assert |later + {keys[from]}| == |later| + 1;
      }
    } else {
      assert KeySet(keys, from, |keys|) == {};
    }
  }

  /** The fast path: as many keys as rows means nothing is dropped. */
  lemma AllDistinctKeepsAll<V>(rows: seq<Row<V>>)
    requires |KeySet(Keys(rows), 0, |rows|)| == |rows|
    ensures LastPerKey(rows) == rows
  {
    KeptCount(Keys(rows), 0);
  }

  /** One row per key, every key still there, and its value the last one seen. */
  lemma KeptRowsAreLast<V>(rows: seq<Row<V>>)
    ensures Distinct(Keys(LastPerKey(rows)))
    ensures forall i :: 0 <= i < |rows| && LastOfKey(Keys(rows), i) ==> rows[i] in LastPerKey(rows)
    ensures forall i :: 0 <= i < |rows| ==> rows[i].key in Keys(LastPerKey(rows))
    ensures forall r :: r in LastPerKey(rows) ==> r in rows
  {
    var kept, at := LastPerKey(rows), Kept(Keys(rows), 0);
    forall i | 0 <= i < |rows| && LastOfKey(Keys(rows), i) ensures rows[i] in kept {
      var p :| 0 <= p < |at| && at[p] == i;
      assert kept[p] == rows[i];
    }
    forall p, q | 0 <= p < q < |kept| ensures Keys(kept)[p] != Keys(kept)[q] {
      assert LastOfKey(Keys(rows), at[p]) && at[p] < at[q];
    }
    forall i | 0 <= i < |rows| ensures rows[i].key in Keys(kept) {
      var l := LastIndex(Keys(rows), i);
      var p :| 0 <= p < |at| && at[p] == l;
      assert Keys(kept)[p] == rows[l].key;
    }
  }

  /** The last index holding the key at `i`, found by walking forward. */
  lemma {:induction false} LastIndex(keys: seq<Key>, i: nat) returns (l: nat)
    requires i < |keys|
    ensures i <= l < |keys| && keys[l] == keys[i] && LastOfKey(keys, l)
    decreases |keys| - i
  {
    if LastOfKey(keys, i) {
      l := i;
    } else {
      var j :| i < j < |keys| && keys[j] == keys[i];
      l := LastIndex(keys, j);
    }
  }

  /** A second pass drops nothing. */
  lemma DeduplicateIdempotent<V>(rows: seq<Row<V>>)
    ensures LastPerKey(LastPerKey(rows)) == LastPerKey(rows)
  {
    KeptRowsAreLast(rows);
    var keys := Keys(LastPerKey(rows));
    DistinctCount(keys);
    assert KeySet(keys, 0, |keys|) == set k | k in keys;
    AllDistinctKeepsAll(LastPerKey(rows));
  }

  // ---------------------------------------------------------------------------
  // The order of the result
  // ---------------------------------------------------------------------------

  /** The keys of the first `upTo` rows in the order they are first seen. */
  function FirstSeen(keys: seq<Key>, upTo: nat): (r: seq<Key>)
    requires upTo <= |keys|
  {
    if upTo == 0 then []
    else
      var r := FirstSeen(keys, upTo - 1);
      if keys[upTo - 1] in r then r else r + [keys[upTo - 1]]
  }

  lemma {:induction false} FirstSeenHas(keys: seq<Key>, upTo: nat, k: Key)
    requires upTo <= |keys|
    ensures k in FirstSeen(keys, upTo) <==> exists i :: 0 <= i < upTo && keys[i] == k
  {
    if upTo > 0 { FirstSeenHas(keys, upTo - 1, k); }
  }

  /** Where key `k` is first seen, or the length if it is not. */
  function FirstAt(keys: seq<Key>, k: Key): (i: nat)
    ensures i <= |keys|
    ensures i < |keys| ==> keys[i] == k && FirstOfKey(keys, i)
    ensures forall j :: 0 <= j < i ==> keys[j] != k
  {
    if keys == [] || keys[0] == k then 0
    else FirstAt(keys[1..], k) + 1
  }

  /** All rows of one key lie strictly between two rows of another. */
  ghost predicate Nested(keys: seq<Key>) {
    exists outer, first, last, again :: Encloses(keys, outer, first, last, again)
  }

  ghost predicate Encloses(keys: seq<Key>, outer: nat, first: nat, last: nat, again: nat) {
    && outer < first <= last < again < |keys|
    && keys[outer] == keys[again] && keys[first] == keys[last]
    && FirstOfKey(keys, first) && LastOfKey(keys, last)
  }

  ghost predicate SeenBefore(keys: seq<Key>, a: Key, b: Key) {
    FirstAt(keys, a) < FirstAt(keys, b)
  }

  ghost function SeenOrder(keys: seq<Key>): (Key, Key) -> bool { (a, b) => SeenBefore(keys, a, b) }

  lemma {:induction false} FirstSeenOrdered(keys: seq<Key>, upTo: nat)
    requires upTo <= |keys|
    ensures var r := FirstSeen(keys, upTo);
            && StrictlyOrdered(r, SeenOrder(keys))
            && (forall p :: 0 <= p < |r| ==> FirstAt(keys, r[p]) < upTo)
  {
    if upTo > 0 {
      FirstSeenOrdered(keys, upTo - 1);
      var k := keys[upTo - 1];
      if k !in FirstSeen(keys, upTo - 1) { FirstAtHere(keys, upTo - 1); }
    }
  }

  lemma FirstAtHere(keys: seq<Key>, i: nat)
    requires i < |keys| && keys[i] !in FirstSeen(keys, i)
    ensures FirstAt(keys, keys[i]) == i
  {
    FirstSeenHas(keys, i, keys[i]);
  }

  /** The result lists keys in the order they were first seen exactly when no key's
      rows are nested between two rows of another: the order is by last occurrence. */
  lemma FirstSeenOrderKept<V>(rows: seq<Row<V>>)
    ensures Keys(LastPerKey(rows)) == FirstSeen(Keys(rows), |rows|) <==> !Nested(Keys(rows))
  {
    var keys := Keys(rows);
    var at := Kept(keys, 0);
    assert Keys(LastPerKey(rows)) == Pick(keys, at);
    if Nested(keys) {
      var outer: nat, first: nat, last: nat, again: nat :| Encloses(keys, outer, first, last, again);
      EnclosedKeyComesFirst(keys, outer, first, last, again);
    } else {
      NotNestedKeepsOrder(keys);
    }
  }

  /** A later last row leaves its key later in the result. */
  lemma KeptPositions(keys: seq<Key>, i: nat, j: nat) returns (p: nat, q: nat)
    requires i < j < |keys| && LastOfKey(keys, i)
    ensures p < q < |Kept(keys, 0)|
    ensures Pick(keys, Kept(keys, 0))[p] == keys[i] && Pick(keys, Kept(keys, 0))[q] == keys[j]
  {
    var at := Kept(keys, 0);
    var end := LastIndex(keys, j);
    assert i in at && end in at;
    p :| 0 <= p < |at| && at[p] == i;
    q :| 0 <= q < |at| && at[q] == end;
    assert q > p;
  }

  lemma EnclosedKeyComesFirst(keys: seq<Key>, outer: nat, first: nat, last: nat, again: nat)
    requires Encloses(keys, outer, first, last, again)
    ensures Pick(keys, Kept(keys, 0)) != FirstSeen(keys, |keys|)
  {
    var byLast := Pick(keys, Kept(keys, 0));
    var p, q := KeptPositions(keys, last, again);
    assert FirstAt(keys, keys[again]) <= outer;
    assert !SeenBefore(keys, byLast[p], byLast[q]);
    FirstSeenOrdered(keys, |keys|);
  }

  lemma SameKeys(keys: seq<Key>)
    ensures forall k :: k in Pick(keys, Kept(keys, 0)) <==> k in FirstSeen(keys, |keys|)
  {
    var at, byFirst := Kept(keys, 0), FirstSeen(keys, |keys|);
    var byLast := Pick(keys, at);
    forall k ensures k in byLast <==> k in byFirst {
      FirstSeenHas(keys, |keys|, k);
      if k in byLast {
        var p :| 0 <= p < |byLast| && byLast[p] == k;
        assert keys[at[p]] == k;
      }
      if i: nat :| i < |keys| && keys[i] == k {
        var l := LastIndex(keys, i);
        var p :| 0 <= p < |at| && at[p] == l;
        assert byLast[p] == k;
      }
    }
  }

  lemma UnnestedPair(keys: seq<Key>, i: nat, j: nat)
    requires !Nested(keys) && i < j < |keys| && LastOfKey(keys, i) && LastOfKey(keys, j)
    ensures SeenBefore(keys, keys[i], keys[j])
  {
    var first, outer := FirstAt(keys, keys[i]), FirstAt(keys, keys[j]);
    assert keys[i] != keys[j] && first <= i && outer <= j;
    assert !Encloses(keys, outer, first, i, j);
  }

  lemma SeenOrderIsSortKey(keys: seq<Key>)
    ensures SortKey(SeenOrder(keys))
  {
  }

  lemma ByLastIsOrdered(keys: seq<Key>)
    requires !Nested(keys)
    ensures StrictlyOrdered(Pick(keys, Kept(keys, 0)), SeenOrder(keys))
  {
    var at := Kept(keys, 0);
    forall p, q | 0 <= p < q < |at| ensures SeenBefore(keys, keys[at[p]], keys[at[q]]) {
      UnnestedPair(keys, at[p], at[q]);
    }
  }

  lemma NotNestedKeepsOrder(keys: seq<Key>)
    requires !Nested(keys)
    ensures Pick(keys, Kept(keys, 0)) == FirstSeen(keys, |keys|)
  {
    ByLastIsOrdered(keys);
    FirstSeenOrdered(keys, |keys|);
    SeenOrderIsSortKey(keys);
    SameKeys(keys);
    StrictlyOrderedUnique(Pick(keys, Kept(keys, 0)), FirstSeen(keys, |keys|), SeenOrder(keys));
  }

  /** A batch whose first-seen order is not kept: a, b, a again gives b, a. */
  lemma FirstSeenOrderLost<V>(a: Key, b: Key, x: V, y: V, z: V)
    requires a != b
    ensures var rows := [Row(a, x), Row(b, y), Row(a, z)];
            Keys(LastPerKey(rows)) != FirstSeen(Keys(rows), |rows|)
  {
    var rows := [Row(a, x), Row(b, y), Row(a, z)];
    var keys := Keys(rows);
    assert keys[0] == a && keys[1] == b && keys[2] == a;
    assert Encloses(keys, 0, 1, 1, 2);
    FirstSeenOrderKept(rows);
  }
}
