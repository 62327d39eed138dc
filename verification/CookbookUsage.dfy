/** Cookbook usage: which nodes run which cookbook versions (internal/analysis/usage.go). */
module CookbookUsage {
  import opened Ordering
  import opened Wrappers

  datatype NodeRecord = NodeRecord(
    name: string, platform: string, platformVersion: string, platformFamily: string,
    roles: seq<string>, policyName: string, policyGroup: string,
    cookbooks: map<string, string>)

  /** A cookbook version. */
  datatype Key = Key(name: string, version: string)

  /** One cookbook version on one node. */
  datatype Tuple = Tuple(
    key: Key, node: string, platform: string, platformVersion: string, platformFamily: string,
    roles: seq<string>, policyName: string, policyGroup: string)

  // ---------------------------------------------------------------------------
  // Phase 1: extraction
  // ---------------------------------------------------------------------------

  function TupleFor(n: NodeRecord, cookbook: string): Tuple
    requires cookbook in n.cookbooks
  {
    Tuple(Key(cookbook, n.cookbooks[cookbook]), n.name, n.platform, n.platformVersion, n.platformFamily,
          n.roles, n.policyName, n.policyGroup)
  }

  function NodeTuples(n: NodeRecord): set<Tuple> { set c | c in n.cookbooks :: TupleFor(n, c) }

  /** All tuples of all nodes, regardless of order. */
  ghost function AllTuples(nodes: seq<NodeRecord>): multiset<Tuple> {
    if nodes == [] then multiset{}
    else AllTuples(nodes[..|nodes| - 1]) + multiset(NodeTuples(nodes[|nodes| - 1]))
  }

  method ExtractNodeTuples(n: NodeRecord) returns (tuples: seq<Tuple>)
    ensures multiset(tuples) == multiset(NodeTuples(n))
  {
    tuples := [];
    var pending := n.cookbooks.Keys;
    ghost var done: set<Tuple> := {};
    while pending != {}
      invariant pending <= n.cookbooks.Keys
      invariant done == set c | c in n.cookbooks && c !in pending :: TupleFor(n, c)
      invariant multiset(tuples) == multiset(done)
    {
      var c :| c in pending;
      pending := pending - {c};
      ghost var t := TupleFor(n, c);
      assert t !in done;
      assert multiset(done + {t}) == multiset(done) + multiset{t};
      done := done + {t};
      tuples := tuples + [TupleFor(n, c)];
    }
    assert done == NodeTuples(n);
  }

  lemma {:induction false} AllTuplesAppend(a: seq<NodeRecord>, b: seq<NodeRecord>)
    ensures AllTuples(a + b) == AllTuples(a) + AllTuples(b)
  {
    if b == [] {
      assert a + b == a;
    } else {
      var n := |b| - 1;
      AllTuplesAppend(a, b[..n]);
      assert (a + b)[..|a + b| - 1] == a + b[..n];
    }
  }

  lemma OneNode(n: NodeRecord)
    ensures AllTuples([n]) == multiset(NodeTuples(n))
  {
    assert [n][..0] == [];
  }

  lemma Rejoin(before: seq<NodeRecord>, n: NodeRecord, after: seq<NodeRecord>)
    ensures AllTuples(before + ([n] + after)) == AllTuples(before + after) + multiset(NodeTuples(n))
  {
    AllTuplesAppend(before, [n] + after);
    AllTuplesAppend([n], after);
    AllTuplesAppend(before, after);
    OneNode(n);
  }

  lemma SplitAround<T>(s: seq<T>, at: nat)
    requires at < |s|
    ensures s[..at] + ([s[at]] + s[at + 1..]) == s
  {
  }

  lemma DrawOne(nodes: seq<NodeRecord>, at: nat)
    requires at < |nodes|
    ensures AllTuples(nodes) == AllTuples(nodes[..at] + nodes[at + 1..]) + multiset(NodeTuples(nodes[at]))
  {
    SplitAround(nodes, at);
    Rejoin(nodes[..at], nodes[at], nodes[at + 1..]);
  }

  lemma Received(nodes: seq<NodeRecord>, left: seq<NodeRecord>, at: nat, all: seq<Tuple>, batch: seq<Tuple>)
    requires at < |left| && multiset(batch) == multiset(NodeTuples(left[at]))
    requires multiset(all) + AllTuples(left) == AllTuples(nodes)
    ensures multiset(all + batch) + AllTuples(left[..at] + left[at + 1..]) == AllTuples(nodes)
    ensures batch == [] ==> all + batch == all
  {
    DrawOne(left, at);
    assert multiset(all + batch) == multiset(all) + multiset(batch);
  }

  /** The nodes are extracted concurrently; their batches arrive in any order. */
  method ExtractTuples(nodes: seq<NodeRecord>) returns (all: seq<Tuple>)
    ensures multiset(all) == AllTuples(nodes)
  {
    all := [];
    var pending := nodes;
    while |pending| > 0
      invariant multiset(all) + AllTuples(pending) == AllTuples(nodes)
      decreases |pending|
    {
      var at :| 0 <= at < |pending|;
      var batch := ExtractNodeTuples(pending[at]);
      Received(nodes, pending, at, all, batch);
      if |batch| > 0 {
        all := all + batch;
      }
      pending := pending[..at] + pending[at + 1..];
    }
  }

  // ---------------------------------------------------------------------------
  // Phase 2: aggregation
  // ---------------------------------------------------------------------------

  datatype Usage = Usage(
    nodeCount: nat, nodes: set<string>, roles: set<string>,
    policyNames: set<string>, policyGroups: set<string>,
    platforms: map<string, nat>, families: map<string, nat>)

  const NO_USAGE := Usage(0, {}, {}, {}, {}, map[], map[])

  function Get(m: map<string, nat>, k: string): nat { if k in m then m[k] else 0 }

  function Counted(m: map<string, nat>, k: string): map<string, nat> { m[k := Get(m, k) + 1] }

  function PlatformKey(t: Tuple): string {
    if t.platformVersion != "" then t.platform + "/" + t.platformVersion else t.platform
  }

  function AddNode(u: Usage, t: Tuple): Usage {
    u.(nodeCount := if t.node in u.nodes then u.nodeCount else u.nodeCount + 1,
       nodes := u.nodes + {t.node},
       roles := u.roles + set r | r in t.roles)
  }

  function AddPolicy(u: Usage, t: Tuple): Usage {
    u.(policyNames := if t.policyName != "" then u.policyNames + {t.policyName} else u.policyNames,
       policyGroups := if t.policyGroup != "" then u.policyGroups + {t.policyGroup} else u.policyGroups)
  }

  function AddPlatform(u: Usage, t: Tuple): Usage {
    u.(platforms := if t.platform != "" then Counted(u.platforms, PlatformKey(t)) else u.platforms,
       families := if t.platformFamily != "" then Counted(u.families, t.platformFamily) else u.families)
  }

  function AddTuple(u: Usage, t: Tuple): Usage { AddPlatform(AddPolicy(AddNode(u, t), t), t) }

  /** The usage of one cookbook version, one tuple after another. */
  function UsageOf(tuples: seq<Tuple>, k: Key): Usage {
    if tuples == [] then NO_USAGE
    else
      var u := UsageOf(tuples[..|tuples| - 1], k);
      var t := tuples[|tuples| - 1];
      if t.key == k then AddTuple(u, t) else u
  }

  /** The mutable record behind one key of the aggregate. */
  class AggregatedUsage {
    var nodeCount: nat
    var seenNodes: set<string>
    var roles: set<string>
    var policyNames: set<string>
    var policyGroups: set<string>
    var platformCounts: map<string, nat>
    var platformFamilyCounts: map<string, nat>

    function View(): Usage
      reads this
    {
      Usage(nodeCount, seenNodes, roles, policyNames, policyGroups, platformCounts, platformFamilyCounts)
    }

    constructor ()
      ensures View() == NO_USAGE
    {
      nodeCount, seenNodes, roles, policyNames, policyGroups := 0, {}, {}, {}, {};
      platformCounts, platformFamilyCounts := map[], map[];
    }

    method Add(t: Tuple)
      modifies this
      ensures View() == AddTuple(old(View()), t)
    {
      AddNodeAndRoles(t);
      if t.policyName != "" {
        policyNames := policyNames + {t.policyName};
      }
      if t.policyGroup != "" {
        policyGroups := policyGroups + {t.policyGroup};
      }
      CountPlatforms(t);
    }

    method AddNodeAndRoles(t: Tuple)
      modifies this
      ensures View() == AddNode(old(View()), t)
    {
      if t.node !in seenNodes {
        seenNodes := seenNodes + {t.node};
        nodeCount := nodeCount + 1;
      } else {
        assert seenNodes == seenNodes + {t.node};
      }
      var withRoles := roles;
      for i := 0 to |t.roles|
        invariant withRoles == roles + set r | r in t.roles[..i]
      {
        assert t.roles[..i + 1] == t.roles[..i] + [t.roles[i]];
        withRoles := withRoles + {t.roles[i]};
      }
      assert t.roles[..|t.roles|] == t.roles;
      roles := withRoles;
    }

    method CountPlatforms(t: Tuple)
      modifies this
      ensures View() == AddPlatform(old(View()), t)
    {
      if t.platform != "" {
        var platformKey := t.platform;
        if t.platformVersion != "" {
          platformKey := platformKey + "/" + t.platformVersion;
        }
        platformCounts := platformCounts[platformKey := Get(platformCounts, platformKey) + 1];
      }
      if t.platformFamily != "" {
        platformFamilyCounts := platformFamilyCounts[t.platformFamily := Get(platformFamilyCounts, t.platformFamily) + 1];
      }
    }
  }

  function KeysOf(tuples: seq<Tuple>): set<Key> { set t | t in tuples :: t.key }

  lemma UsageStep(tuples: seq<Tuple>, t: Tuple, k: Key)
    ensures UsageOf(tuples + [t], k) == if t.key == k then AddTuple(UsageOf(tuples, k), t) else UsageOf(tuples, k)
  {
  }

  ghost predicate OwnRecords(agg: map<Key, AggregatedUsage>) {
    forall k, l :: k in agg && l in agg && k != l ==> agg[k] != agg[l]
  }

  /** Each key has a record of its own, and the records hold `views`. */
  ghost predicate Shows(agg: map<Key, AggregatedUsage>, views: map<Key, Usage>)
    reads agg.Values
  {
    agg.Keys == views.Keys && OwnRecords(agg) && forall k :: k in agg ==> agg[k].View() == views[k]
  }

  function WithTuple(views: map<Key, Usage>, t: Tuple): map<Key, Usage> {
    views[t.key := AddTuple(if t.key in views then views[t.key] else NO_USAGE, t)]
  }

  /** Add one tuple to its key's record, made on first use; no other record changes. */
  method RecordTuple(agg: map<Key, AggregatedUsage>, t: Tuple, ghost views: map<Key, Usage>)
    returns (agg': map<Key, AggregatedUsage>)
    requires Shows(agg, views)
    modifies if t.key in agg then {agg[t.key]} else {}
    ensures Shows(agg', WithTuple(views, t))
    ensures forall k :: k in agg' ==> if k in agg then agg'[k] == agg[k] else fresh(agg'[k])
  {
    agg' := agg;
    if t.key !in agg {
      var usage := new AggregatedUsage();
      agg' := agg[t.key := usage];
    }
    agg'[t.key].Add(t);
  }

  /** The usage of every version that occurs. */
  function Usages(tuples: seq<Tuple>): map<Key, Usage> { map k | k in KeysOf(tuples) :: UsageOf(tuples, k) }

  lemma UsagesStep(tuples: seq<Tuple>, t: Tuple)
    ensures Usages(tuples + [t]) == WithTuple(Usages(tuples), t)
  {
    if t.key !in KeysOf(tuples) { UnseenKeyUnused(tuples, t.key); }
    assert KeysOf(tuples + [t]) == KeysOf(tuples) + {t.key};
    forall k | k in KeysOf(tuples + [t]) { UsageStep(tuples, t, k); }
  }

  lemma UsagesAt(tuples: seq<Tuple>, i: nat)
    requires i < |tuples|
    ensures Usages(tuples[..i + 1]) == WithTuple(Usages(tuples[..i]), tuples[i])
  {
    UsagesStep(tuples[..i], tuples[i]);
    assert tuples[..i + 1] == tuples[..i] + [tuples[i]];
  }

  method AggregateTuples(tuples: seq<Tuple>) returns (agg: map<Key, AggregatedUsage>)
    ensures Shows(agg, Usages(tuples)) && forall k :: k in agg ==> fresh(agg[k])
  {
    agg := map[];
    ghost var views := Usages([]);
    for i := 0 to |tuples|
      invariant views == Usages(tuples[..i]) && Shows(agg, views)
      invariant forall k :: k in agg ==> fresh(agg[k])
    {
      var t := tuples[i];
      agg := RecordTuple(agg, t, views);
      views := WithTuple(views, t);
      UsagesAt(tuples, i);
    }
    assert tuples[..|tuples|] == tuples;
  }

  lemma {:induction false} UnseenKeyUnused(tuples: seq<Tuple>, k: Key)
    requires k !in KeysOf(tuples)
    ensures UsageOf(tuples, k) == NO_USAGE
  {
    if tuples != [] {
      assert tuples == tuples[..|tuples| - 1] + [tuples[|tuples| - 1]];
      UnseenKeyUnused(tuples[..|tuples| - 1], k);
    }
  }

  // ---------------------------------------------------------------------------
  // What the aggregate means, and that arrival order does not matter
  // ---------------------------------------------------------------------------

  /** The platforms reported for version `k`, once per tuple that reports one. */
  function Platforms(tuples: seq<Tuple>, k: Key): seq<string> {
    if tuples == [] then []
    else
      var front, t := Platforms(tuples[..|tuples| - 1], k), tuples[|tuples| - 1];
      if t.key == k && t.platform != "" then front + [PlatformKey(t)] else front
  }

  function Families(tuples: seq<Tuple>, k: Key): seq<string> {
    if tuples == [] then []
    else
      var front, t := Families(tuples[..|tuples| - 1], k), tuples[|tuples| - 1];
      if t.key == k && t.platformFamily != "" then front + [t.platformFamily] else front
  }

  /** The map counts the occurrences in the list. */
  ghost predicate Tallies(counts: map<string, nat>, list: seq<string>) {
    && (forall p :: p in counts <==> p in multiset(list))
    && (forall p :: p in counts ==> counts[p] == multiset(list)[p])
  }

  lemma TallyStep(counts: map<string, nat>, list: seq<string>, p: string)
    requires Tallies(counts, list)
    ensures Tallies(Counted(counts, p), list + [p])
  {
  }

  /** The record's nodes are the distinct names of the nodes running the version, and the
      counter is their number. */
  ghost predicate NodesMeant(u: Usage, tuples: seq<Tuple>, k: Key) {
    u.nodes == NodesOf(tuples, k) && u.nodeCount == |NodesOf(tuples, k)|
  }

  function NodesOf(tuples: seq<Tuple>, k: Key): set<string> { set t | t in tuples && t.key == k :: t.node }

  lemma NodesStep(tuples: seq<Tuple>, t: Tuple, k: Key)
    ensures NodesOf(tuples + [t], k) == NodesOf(tuples, k) + if t.key == k then {t.node} else {}
  {
  }

  ghost predicate LabelsMeant(u: Usage, tuples: seq<Tuple>, k: Key) {
    && (forall r :: r in u.roles <==> exists t :: t in tuples && t.key == k && r in t.roles)
    && u.policyNames == (set t | t in tuples && t.key == k && t.policyName != "" :: t.policyName)
    && u.policyGroups == (set t | t in tuples && t.key == k && t.policyGroup != "" :: t.policyGroup)
  }

  ghost predicate CountsMeant(u: Usage, tuples: seq<Tuple>, k: Key) {
    Tallies(u.platforms, Platforms(tuples, k)) && Tallies(u.families, Families(tuples, k))
  }

  lemma {:induction false} NodesAreMeant(tuples: seq<Tuple>, k: Key)
    ensures NodesMeant(UsageOf(tuples, k), tuples, k)
  {
    if tuples != [] {
      var front, t := tuples[..|tuples| - 1], tuples[|tuples| - 1];
      NodesAreMeant(front, k);
      assert tuples == front + [t];
      NodesStep(front, t, k);
      assert t.node in NodesOf(front, k) ==> NodesOf(front, k) + {t.node} == NodesOf(front, k);
    }
  }

  lemma {:induction false} LabelsAreMeant(tuples: seq<Tuple>, k: Key)
    ensures LabelsMeant(UsageOf(tuples, k), tuples, k)
  {
    if tuples != [] {
      LabelsAreMeant(tuples[..|tuples| - 1], k);
      assert tuples == tuples[..|tuples| - 1] + [tuples[|tuples| - 1]];
    }
  }

  lemma {:induction false} CountsAreMeant(tuples: seq<Tuple>, k: Key)
    ensures CountsMeant(UsageOf(tuples, k), tuples, k)
  {
    if tuples != [] {
      var front, t := tuples[..|tuples| - 1], tuples[|tuples| - 1];
      CountsAreMeant(front, k);
      var u := UsageOf(front, k);
      TallyStep(u.platforms, Platforms(front, k), PlatformKey(t));
      TallyStep(u.families, Families(front, k), t.platformFamily);
    }
  }

  /** The aggregate of a version is its plain definition: the nodes running it, their roles
      and policies, and how often each platform and family is reported. */
  lemma UsageMeans(tuples: seq<Tuple>, k: Key)
    ensures NodesMeant(UsageOf(tuples, k), tuples, k)
    ensures LabelsMeant(UsageOf(tuples, k), tuples, k)
    ensures CountsMeant(UsageOf(tuples, k), tuples, k)
  {
    NodesAreMeant(tuples, k);
    LabelsAreMeant(tuples, k);
    CountsAreMeant(tuples, k);
  }

  lemma {:induction false} ListsAppend(a: seq<Tuple>, b: seq<Tuple>, k: Key)
    ensures Platforms(a + b, k) == Platforms(a, k) + Platforms(b, k)
    ensures Families(a + b, k) == Families(a, k) + Families(b, k)
  {
    if b == [] {
      assert a + b == a;
    } else {
      var n := |b| - 1;
      ListsAppend(a, b[..n], k);
      assert (a + b)[..|a + b| - 1] == a + b[..n];
    }
  }

  lemma WithoutOne(a: seq<Tuple>, n: nat, b: seq<Tuple>, i: nat)
    requires n == |a| - 1 && i < |b| && a[n] == b[i] && multiset(a) == multiset(b)
    ensures multiset(a[..n]) == multiset(b[..i] + b[i + 1..])
  {
    var t, rest := multiset{a[n]}, multiset(b[..i] + b[i + 1..]);
    assert a == a[..n] + [a[n]];
    assert multiset(a[..n]) == multiset(a) - t;
    assert b == b[..i] + [b[i]] + b[i + 1..];
    assert multiset(b) == multiset(b[..i]) + t + multiset(b[i + 1..]);
    assert rest == multiset(b[..i]) + multiset(b[i + 1..]);
  }

  /** Rearranging tuples rearranges the platform and family lists. */
  lemma {:induction false} ListsRearranged(a: seq<Tuple>, b: seq<Tuple>, k: Key)
    requires multiset(a) == multiset(b)
    ensures multiset(Platforms(a, k)) == multiset(Platforms(b, k))
    ensures multiset(Families(a, k)) == multiset(Families(b, k))
  {
    if a == [] {
      assert |multiset(b)| == 0;
    } else {
      var n, t := |a| - 1, a[|a| - 1];
      assert t in multiset(b);
      var i :| 0 <= i < |b| && b[i] == t;
      WithoutOne(a, n, b, i);
      assert a == a[..n] + [t] && b == b[..i] + ([t] + b[i + 1..]);
      ListsRearranged(a[..n], b[..i] + b[i + 1..], k);
      ListsAppend(a[..n], [t], k);
      ListsAppend(b[..i], [t] + b[i + 1..], k);
      ListsAppend([t], b[i + 1..], k);
      ListsAppend(b[..i], b[i + 1..], k);
      MiddleMoves(Platforms(b[..i], k), Platforms([t], k), Platforms(b[i + 1..], k), Platforms(a[..n], k));
      MiddleMoves(Families(b[..i], k), Families([t], k), Families(b[i + 1..], k), Families(a[..n], k));
    }
  }

  lemma MiddleMoves(x: seq<string>, y: seq<string>, z: seq<string>, w: seq<string>)
    requires multiset(w) == multiset(x + z)
    ensures multiset(w + y) == multiset(x + (y + z))
  {
  }

  lemma TalliesUnique(a: map<string, nat>, b: map<string, nat>, aList: seq<string>, bList: seq<string>)
    requires Tallies(a, aList) && Tallies(b, bList) && multiset(aList) == multiset(bList)
    ensures a == b
  {
  }

  /** Whatever order the batches arrive in, every version ends up with the same record. */
  lemma ArrivalOrderIrrelevant(a: seq<Tuple>, b: seq<Tuple>, k: Key)
    requires multiset(a) == multiset(b)
    ensures UsageOf(a, k) == UsageOf(b, k) && KeysOf(a) == KeysOf(b)
  {
    assert forall t :: t in a <==> t in multiset(a);
    assert forall t :: t in b <==> t in multiset(b);
    SameLabels(a, b, k);
    CountsAreMeant(a, k);
    CountsAreMeant(b, k);
    ListsRearranged(a, b, k);
    var u, v := UsageOf(a, k), UsageOf(b, k);
    TalliesUnique(u.platforms, v.platforms, Platforms(a, k), Platforms(b, k));
    TalliesUnique(u.families, v.families, Families(a, k), Families(b, k));
  }

  lemma SameLabels(a: seq<Tuple>, b: seq<Tuple>, k: Key)
    requires forall t :: t in a <==> t in b
    ensures var u, v := UsageOf(a, k), UsageOf(b, k);
            u.nodes == v.nodes && u.nodeCount == v.nodeCount && u.roles == v.roles &&
            u.policyNames == v.policyNames && u.policyGroups == v.policyGroups
  {
    NodesAreMeant(a, k);
    NodesAreMeant(b, k);
    LabelsAreMeant(a, k);
    LabelsAreMeant(b, k);
  }

  // ---------------------------------------------------------------------------
  // In terms of nodes
  // ---------------------------------------------------------------------------

  predicate Runs(n: NodeRecord, k: Key) { k.name in n.cookbooks && n.cookbooks[k.name] == k.version }

  lemma {:induction false} TuplesComeFromNodes(nodes: seq<NodeRecord>, t: Tuple)
    ensures t in AllTuples(nodes) <==> exists n :: n in nodes && t.key.name in n.cookbooks && t == TupleFor(n, t.key.name)
  {
    if nodes != [] {
      TuplesComeFromNodes(nodes[..|nodes| - 1], t);
      assert nodes == nodes[..|nodes| - 1] + [nodes[|nodes| - 1]];
    }
  }

  /** NodeCount is the number of distinct names of the nodes that run the version. */
  lemma NodeCountIsDistinctNodes(nodes: seq<NodeRecord>, tuples: seq<Tuple>, k: Key)
    requires multiset(tuples) == AllTuples(nodes)
    ensures UsageOf(tuples, k).nodeCount == |set n | n in nodes && Runs(n, k) :: n.name|
    ensures k in KeysOf(tuples) <==> exists n :: n in nodes && Runs(n, k)
  {
    NodesAreMeant(tuples, k);
    assert forall t :: t in tuples <==> t in multiset(tuples);
    forall n | n in nodes && Runs(n, k) ensures TupleFor(n, k.name) in tuples && TupleFor(n, k.name).key == k {
      TuplesComeFromNodes(nodes, TupleFor(n, k.name));
    }
    forall t | t in tuples && t.key == k ensures exists n :: n in nodes && Runs(n, k) && n.name == t.node {
      TuplesComeFromNodes(nodes, t);
    }
    assert (set n | n in nodes && Runs(n, k) :: n.name) == NodesOf(tuples, k);
  }

  /** Everything a map counts, added up. */
  ghost function Total(counts: map<string, nat>): nat {
    if counts == map[] then 0
    else
      var p :| p in counts;
      counts[p] + Total(counts - {p})
  }

  lemma {:induction false} TotalSplit(counts: map<string, nat>, p: string)
    requires p in counts
    ensures Total(counts) == counts[p] + Total(counts - {p})
    decreases |counts|
  {
    var q :| q in counts && Total(counts) == counts[q] + Total(counts - {q});
    if q != p {
      TotalSplit(counts - {q}, p);
      TotalSplit(counts - {p}, q);
      assert counts - {p} - {q} == counts - {q} - {p};
    }
  }

  lemma {:induction false} TallyTotal(counts: map<string, nat>, list: seq<string>)
    requires Tallies(counts, list)
    ensures Total(counts) == |list|
    decreases |list|
  {
    if list == [] {
      assert counts == map[];
    } else {
      var front, p := list[..|list| - 1], list[|list| - 1];
      assert list == front + [p];
      var less := if counts[p] == 1 then counts - {p} else counts[p := counts[p] - 1];
      assert Tallies(less, front);
      TallyTotal(less, front);
      TotalSplit(counts, p);
      if counts[p] > 1 {
        TotalSplit(less, p);
        assert less - {p} == counts - {p};
      }
    }
  }

  /** What a node record reports as its platform: with its version, when it has one. */
  function Label(n: NodeRecord): string {
    n.platform + if n.platformVersion == "" then "" else "/" + n.platformVersion
  }

  /** The platform one record reports for a version, if it runs it and has one. */
  function OwnPlatform(n: NodeRecord, k: Key): seq<string> { if Runs(n, k) && n.platform != "" then [Label(n)] else [] }

  function OwnFamily(n: NodeRecord, k: Key): seq<string> {
    if Runs(n, k) && n.platformFamily != "" then [n.platformFamily] else []
  }

  function PlatformReports(nodes: seq<NodeRecord>, k: Key): seq<string> {
    if nodes == [] then [] else PlatformReports(nodes[..|nodes| - 1], k) + OwnPlatform(nodes[|nodes| - 1], k)
  }

  function FamilyReports(nodes: seq<NodeRecord>, k: Key): seq<string> {
    if nodes == [] then [] else FamilyReports(nodes[..|nodes| - 1], k) + OwnFamily(nodes[|nodes| - 1], k)
  }

  /** Some sequence lists a multiset. */
  ghost function Listed(bag: multiset<Tuple>): (s: seq<Tuple>)
    ensures multiset(s) == bag
  {
    if bag == multiset{} then []
    else
      var t :| t in bag;
      Listed(bag - multiset{t}) + [t]
  }

  /** The one tuple of a key makes up the key's whole lists. */
  lemma OneTupleListed(s: seq<Tuple>, i: nat, k: Key)
    requires i < |s| && s[i].key == k && forall j :: 0 <= j < |s| && j != i ==> s[j].key != k
    ensures Platforms(s, k) == if s[i].platform != "" then [PlatformKey(s[i])] else []
    ensures Families(s, k) == if s[i].platformFamily != "" then [s[i].platformFamily] else []
  {
    var t := s[i];
    assert s == s[..i] + ([t] + s[i + 1..]);
    ListsAppend(s[..i], [t] + s[i + 1..], k);
    ListsAppend([t], s[i + 1..], k);
    OtherKeysUnlisted(s[..i], k);
    OtherKeysUnlisted(s[i + 1..], k);
    assert [t][..0] == [];
  }

  lemma {:induction false} OnceInBag(s: seq<Tuple>, i: nat, j: nat)
    requires i < j < |s| && s[i] == s[j]
    ensures multiset(s)[s[i]] >= 2
  {
    assert s == s[..j] + ([s[j]] + s[j + 1..]);
    assert s[i] in s[..j];
    assert multiset(s) == multiset(s[..j]) + multiset{s[j]} + multiset(s[j + 1..]);
  }

  /** An element that a sequence holds once is at one place only. */
  lemma OnePlace(s: seq<Tuple>, i: nat, j: nat)
    requires i < |s| && j < |s| && i != j && multiset(s)[s[i]] == 1
    ensures s[i] != s[j]
  {
    if s[i] == s[j] { OnceInBag(s, if i < j then i else j, if i < j then j else i); }
  }

  /** In a listing of a node's tuples, the one of its version stands alone. */
  lemma OwnTuple(n: NodeRecord, k: Key, s: seq<Tuple>) returns (i: nat)
    requires Runs(n, k) && multiset(s) == multiset(NodeTuples(n))
    ensures i < |s| && s[i] == TupleFor(n, k.name) && forall j :: 0 <= j < |s| && j != i ==> s[j].key != k
  {
    var t := TupleFor(n, k.name);
    assert t in NodeTuples(n);
    assert t in multiset(s);
    i :| 0 <= i < |s| && s[i] == t;
    forall j | 0 <= j < |s| && j != i ensures s[j].key != k {
      assert s[j] in multiset(s);
      OnePlace(s, i, j);
    }
  }

  /** A node's tuples report its platform and family once for the version it runs. */
  lemma NodeReportsOnce(n: NodeRecord, k: Key)
    ensures Platforms(Listed(multiset(NodeTuples(n))), k) == OwnPlatform(n, k)
    ensures Families(Listed(multiset(NodeTuples(n))), k) == OwnFamily(n, k)
  {
    var s := Listed(multiset(NodeTuples(n)));
    if Runs(n, k) {
      var i := OwnTuple(n, k, s);
      OneTupleListed(s, i, k);
      OwnLabel(n, k.name);
    } else {
      forall t | t in s ensures t.key != k { assert t in multiset(s); }
      OtherKeysUnlisted(s, k);
    }
  }

  lemma OwnLabel(n: NodeRecord, cookbook: string)
    requires cookbook in n.cookbooks
    ensures PlatformKey(TupleFor(n, cookbook)) == Label(n)
  {
    if n.platformVersion == "" {
      assert n.platform + "" == n.platform;
    } else {
      assert n.platform + "/" + n.platformVersion == n.platform + ("/" + n.platformVersion);
    }
  }

  lemma {:induction false} OtherKeysUnlisted(tuples: seq<Tuple>, k: Key)
    requires forall t :: t in tuples ==> t.key != k
    ensures Platforms(tuples, k) == [] && Families(tuples, k) == []
  {
    if tuples != [] { OtherKeysUnlisted(tuples[..|tuples| - 1], k); }
  }

  /** The lists of a version are, order aside, what the nodes that run it report. */
  lemma {:induction false} ListsPerNode(nodes: seq<NodeRecord>, tuples: seq<Tuple>, k: Key)
    requires multiset(tuples) == AllTuples(nodes)
    ensures multiset(Platforms(tuples, k)) == multiset(PlatformReports(nodes, k))
    ensures multiset(Families(tuples, k)) == multiset(FamilyReports(nodes, k))
    decreases |nodes|
  {
    if nodes == [] {
      assert |multiset(tuples)| == 0;
    } else {
      var front, n := nodes[..|nodes| - 1], nodes[|nodes| - 1];
      var earlier, last := Listed(AllTuples(front)), Listed(multiset(NodeTuples(n)));
      ListsPerNode(front, earlier, k);
      NodeReportsOnce(n, k);
      ListsAppend(earlier, last, k);
      assert multiset(earlier + last) == multiset(tuples);
      ListsRearranged(earlier + last, tuples, k);
    }
  }

  lemma SameSize(a: seq<string>, b: seq<string>)
    requires multiset(a) == multiset(b)
    ensures |a| == |b|
  {
    assert |multiset(a)| == |a| && |multiset(b)| == |b|;
  }

  predicate ReportsAs(n: NodeRecord, k: Key, p: string) { Runs(n, k) && n.platform != "" && Label(n) == p }

  /** The node records that run the version and report this platform. */
  ghost function ReportingAs(nodes: seq<NodeRecord>, k: Key, p: string): set<nat> {
    set i: nat | i < |nodes| && ReportsAs(nodes[i], k, p)
  }

  predicate IsOfFamily(n: NodeRecord, k: Key, f: string) { Runs(n, k) && n.platformFamily == f != "" }

  ghost function OfFamily(nodes: seq<NodeRecord>, k: Key, f: string): set<nat> {
    set i: nat | i < |nodes| && IsOfFamily(nodes[i], k, f)
  }

  /** Those that report any. */
  ghost function Reporting(nodes: seq<NodeRecord>, k: Key): set<nat> {
    set i: nat | i < |nodes| && Runs(nodes[i], k) && nodes[i].platform != ""
  }

  lemma OwnPlatformTimes(n: NodeRecord, k: Key, p: string)
    ensures multiset(OwnPlatform(n, k))[p] == if ReportsAs(n, k, p) then 1 else 0
  {
  }

  /** One more node that does, or does not, belong to a set of places. */
  lemma OneMorePlace(before: set<nat>, after: set<nat>, m: nat, there: bool)
    requires m !in before && forall i: nat :: i in after <==> i in before || (i == m && there)
    ensures |after| == |before| + if there then 1 else 0
  {
    assert after == if there then before + {m} else before;
  }

  lemma TimesInBoth(a: seq<string>, b: seq<string>, p: string)
    ensures multiset(a + b)[p] == multiset(a)[p] + multiset(b)[p]
  {
  }

  lemma OwnFamilyTimes(n: NodeRecord, k: Key, f: string)
    ensures multiset(OwnFamily(n, k))[f] == if IsOfFamily(n, k, f) then 1 else 0
  {
  }

  lemma {:induction false} PlatformTimes(nodes: seq<NodeRecord>, k: Key, p: string)
    ensures multiset(PlatformReports(nodes, k))[p] == |ReportingAs(nodes, k, p)|
  {
    if nodes != [] {
      var m := |nodes| - 1;
      PlatformTimes(nodes[..m], k, p);
      OwnPlatformTimes(nodes[m], k, p);
      assert PlatformReports(nodes, k) == PlatformReports(nodes[..m], k) + OwnPlatform(nodes[m], k);
      OneMorePlace(ReportingAs(nodes[..m], k, p), ReportingAs(nodes, k, p), m, ReportsAs(nodes[m], k, p));
      TimesInBoth(PlatformReports(nodes[..m], k), OwnPlatform(nodes[m], k), p);
    }
  }

  lemma {:induction false} FamilyTimes(nodes: seq<NodeRecord>, k: Key, f: string)
    ensures multiset(FamilyReports(nodes, k))[f] == |OfFamily(nodes, k, f)|
  {
    if nodes != [] {
      var m := |nodes| - 1;
      FamilyTimes(nodes[..m], k, f);
      OwnFamilyTimes(nodes[m], k, f);
      assert FamilyReports(nodes, k) == FamilyReports(nodes[..m], k) + OwnFamily(nodes[m], k);
      OneMorePlace(OfFamily(nodes[..m], k, f), OfFamily(nodes, k, f), m, IsOfFamily(nodes[m], k, f));
      TimesInBoth(FamilyReports(nodes[..m], k), OwnFamily(nodes[m], k), f);
    }
  }

  lemma {:induction false} ReportsCounted(nodes: seq<NodeRecord>, k: Key)
    ensures |PlatformReports(nodes, k)| == |Reporting(nodes, k)|
  {
    if nodes != [] {
      var m := |nodes| - 1;
      ReportsCounted(nodes[..m], k);
      OneMorePlace(Reporting(nodes[..m], k), Reporting(nodes, k), m, OwnPlatform(nodes[m], k) != []);
    }
  }

  lemma TalliedIs(counts: map<string, nat>, list: seq<string>, p: string)
    requires Tallies(counts, list)
    ensures Get(counts, p) == multiset(list)[p]
  {
  }

  /** A version's platform and family counts are the numbers of node records that run it and
      report just that, under the platform's name and version. */
  lemma CountsOfNodes(nodes: seq<NodeRecord>, tuples: seq<Tuple>, k: Key, p: string)
    requires multiset(tuples) == AllTuples(nodes)
    ensures Get(UsageOf(tuples, k).platforms, p) == |ReportingAs(nodes, k, p)|
    ensures Get(UsageOf(tuples, k).families, p) == |OfFamily(nodes, k, p)|
  {
    CountsAreMeant(tuples, k);
    ListsPerNode(nodes, tuples, k);
    TalliedIs(UsageOf(tuples, k).platforms, Platforms(tuples, k), p);
    TalliedIs(UsageOf(tuples, k).families, Families(tuples, k), p);
    PlatformTimes(nodes, k, p);
    FamilyTimes(nodes, k, p);
  }

  /** A version's platform counts add up to the number of node records that run it and report
      a platform. */
  lemma PlatformCountsAddUp(nodes: seq<NodeRecord>, tuples: seq<Tuple>, k: Key)
    requires multiset(tuples) == AllTuples(nodes)
    ensures Total(UsageOf(tuples, k).platforms) == |Reporting(nodes, k)|
  {
    CountsAreMeant(tuples, k);
    TallyTotal(UsageOf(tuples, k).platforms, Platforms(tuples, k));
    ListsPerNode(nodes, tuples, k);
    SameSize(Platforms(tuples, k), PlatformReports(nodes, k));
    ReportsCounted(nodes, k);
  }

  lemma TuplesAndNodes(nodes: seq<NodeRecord>, tuples: seq<Tuple>, k: Key)
    requires multiset(tuples) == AllTuples(nodes)
    ensures forall n :: n in nodes && Runs(n, k) ==> TupleFor(n, k.name) in tuples && TupleFor(n, k.name).key == k
    ensures forall t :: t in tuples && t.key == k ==> exists n :: n in nodes && Runs(n, k) && t == TupleFor(n, k.name)
  {
    assert forall t :: t in tuples <==> t in multiset(tuples);
    forall n | n in nodes && Runs(n, k) ensures TupleFor(n, k.name) in tuples {
      TuplesComeFromNodes(nodes, TupleFor(n, k.name));
    }
    forall t | t in tuples && t.key == k ensures exists n :: n in nodes && Runs(n, k) && t == TupleFor(n, k.name) {
      TuplesComeFromNodes(nodes, t);
    }
  }

  /** A version's labels are those of the nodes that run it: their names, roles, policies and
      policy groups, the empty ones left out. */
  lemma LabelsOfNodes(nodes: seq<NodeRecord>, tuples: seq<Tuple>, k: Key)
    requires multiset(tuples) == AllTuples(nodes)
    ensures var u := UsageOf(tuples, k);
            && u.nodes == (set n | n in nodes && Runs(n, k) :: n.name)
            && (forall r :: r in u.roles <==> exists n :: n in nodes && Runs(n, k) && r in n.roles)
            && u.policyNames == (set n | n in nodes && Runs(n, k) && n.policyName != "" :: n.policyName)
            && u.policyGroups == (set n | n in nodes && Runs(n, k) && n.policyGroup != "" :: n.policyGroup)
  {
    NodesAreMeant(tuples, k);
    LabelsAreMeant(tuples, k);
    NamesOfNodes(nodes, tuples, k);
    var u := UsageOf(tuples, k);
    forall r ensures r in u.roles <==> exists n :: n in nodes && Runs(n, k) && r in n.roles {
      RoleOfNodes(nodes, tuples, k, r);
    }
    PoliciesOfNodes(nodes, tuples, k);
  }

  lemma RoleOfNodes(nodes: seq<NodeRecord>, tuples: seq<Tuple>, k: Key, r: string)
    requires multiset(tuples) == AllTuples(nodes)
    ensures (exists t :: t in tuples && t.key == k && r in t.roles) <==> exists n :: n in nodes && Runs(n, k) && r in n.roles
  {
    TuplesAndNodes(nodes, tuples, k);
    if n :| n in nodes && Runs(n, k) && r in n.roles {
      assert r in TupleFor(n, k.name).roles;
    }
  }

  lemma NamesOfNodes(nodes: seq<NodeRecord>, tuples: seq<Tuple>, k: Key)
    requires multiset(tuples) == AllTuples(nodes)
    ensures NodesOf(tuples, k) == (set n | n in nodes && Runs(n, k) :: n.name)
  {
    TuplesAndNodes(nodes, tuples, k);
    forall n | n in nodes && Runs(n, k) ensures exists t :: t in tuples && t.key == k && t.node == n.name {
      assert TupleFor(n, k.name) in tuples;
    }
  }

  lemma PoliciesOfNodes(nodes: seq<NodeRecord>, tuples: seq<Tuple>, k: Key)
    requires multiset(tuples) == AllTuples(nodes)
    ensures (set t | t in tuples && t.key == k && t.policyName != "" :: t.policyName) ==
            (set n | n in nodes && Runs(n, k) && n.policyName != "" :: n.policyName)
    ensures (set t | t in tuples && t.key == k && t.policyGroup != "" :: t.policyGroup) ==
            (set n | n in nodes && Runs(n, k) && n.policyGroup != "" :: n.policyGroup)
  {
    TuplesAndNodes(nodes, tuples, k);
    forall n | n in nodes && Runs(n, k)
      ensures exists t :: t in tuples && t.key == k && t.policyName == n.policyName && t.policyGroup == n.policyGroup
    {
      assert TupleFor(n, k.name) in tuples;
    }
  }

  // ---------------------------------------------------------------------------
  // Phase 3: active and unused versions, and the rows to store
  // ---------------------------------------------------------------------------

  function Known(inventory: seq<Key>): set<Key> { set k | k in inventory }

  method BuildInventorySet(inventory: seq<Key>) returns (known: set<Key>)
    ensures known == Known(inventory)
  {
    known := {};
    for i := 0 to |inventory|
      invariant known == set k | k in inventory[..i]
    {
      assert inventory[..i + 1] == inventory[..i] + [inventory[i]];
      known := known + {inventory[i]};
    }
    assert inventory[..|inventory|] == inventory;
  }

  method BuildActiveSet(agg: map<Key, AggregatedUsage>) returns (active: set<Key>)
    ensures active == set k | k in agg && agg[k].View().nodeCount > 0
  {
    active := {};
    var pending := agg.Keys;
    while pending != {}
      invariant pending <= agg.Keys
      invariant active == set k | k in agg && k !in pending && agg[k].View().nodeCount > 0
    {
      var k :| k in pending;
      pending := pending - {k};
      if agg[k].nodeCount > 0 {
        active := active + {k};
      }
    }
  }

  /** Every aggregated version has a node, so the active ones are those aggregated. */
  lemma AggregatedIsActive(tuples: seq<Tuple>, k: Key)
    ensures k in KeysOf(tuples) <==> UsageOf(tuples, k).nodeCount > 0
  {
    NodesAreMeant(tuples, k);
    if t :| t in tuples && t.key == k {
      assert t.node in UsageOf(tuples, k).nodes;
    } else {
      UnseenKeyUnused(tuples, k);
    }
  }

  method CountActive(known: set<Key>, active: set<Key>) returns (activeCount: nat, unusedCount: nat)
    ensures activeCount == |known * active| && unusedCount == |known - active|
    ensures activeCount + unusedCount == |known|
  {
    activeCount, unusedCount := 0, 0;
    var pending := known;
    while pending != {}
      invariant pending <= known
      invariant activeCount == |known * active - pending| && unusedCount == |known - active - pending|
    {
      var k :| k in pending;
      OneLess(known * active, pending, k);
      OneLess(known - active, pending, k);
      pending := pending - {k};
      if k in active {
        activeCount := activeCount + 1;
      } else {
        unusedCount := unusedCount + 1;
      }
    }
    assert known * active - pending == known * active && known - active - pending == known - active;
    assert known == known * active + (known - active);
  }

  lemma OneLess(chosen: set<Key>, pending: set<Key>, k: Key)
    requires k in pending
    ensures |chosen - (pending - {k})| == |chosen - pending| + if k in chosen then 1 else 0
  {
    assert chosen - (pending - {k}) == if k in chosen then (chosen - pending) + {k} else chosen - pending;
  }

  datatype Detail = Detail(key: Key, isActive: bool, usage: Option<Usage>)

  predicate KeyBefore(a: Key, b: Key) {
    if a.name != b.name then StrLess(a.name, b.name) else StrLess(a.version, b.version)
  }

  lemma KeyBeforeIsSortKey()
    ensures SortKey(KeyBefore)
  {
    forall a, b, c ensures !KeyBefore(a, a) && (KeyBefore(a, b) && KeyBefore(b, c) ==> KeyBefore(a, c)) {
      StrLessIrreflexive(a.name);
      StrLessIrreflexive(a.version);
      if StrLess(a.name, b.name) && StrLess(b.name, c.name) { StrLessTransitive(a.name, b.name, c.name); }
      if StrLess(a.version, b.version) && StrLess(b.version, c.version) { StrLessTransitive(a.version, b.version, c.version); }
    }
  }

  /** The keys of a set, listed in any order and then sorted. */
  method SortedKeys(keys: set<Key>) returns (sorted: seq<Key>)
    ensures StrictlyOrdered(sorted, KeyBefore)
    ensures forall k :: k in sorted <==> k in keys
  {
    var listed: seq<Key> := [];
    var pending := keys;
    while pending != {}
      invariant pending <= keys
      invariant forall k :: k in listed <==> k in keys && k !in pending
      invariant KeysDiffer(listed, KeyBefore)
    {
      var k :| k in pending;
      pending := pending - {k};
      forall i | 0 <= i < |listed| ensures KeyBefore(listed[i], k) || KeyBefore(k, listed[i]) {
        assert listed[i] in listed;
        StrLessTotal(listed[i].name, k.name);
        StrLessTotal(listed[i].version, k.version);
      }
      listed := listed + [k];
    }
    KeyBeforeIsSortKey();
    SortStrict(listed, KeyBefore);
    sorted := Sort(listed, KeyBefore);
  }

  function KeysIn(rows: seq<Detail>): (r: seq<Key>)
    ensures |r| == |rows|
    ensures forall i :: 0 <= i < |r| ==> r[i] == rows[i].key
  {
    seq(|rows|, i requires 0 <= i < |rows| => rows[i].key)
  }

  /** One row for each key, strictly sorted, active or not, with the key's record if it
      has one. */
  ghost predicate IsDetail(rows: seq<Detail>, keys: set<Key>, active: set<Key>, usage: map<Key, Usage>) {
    && StrictlyOrdered(KeysIn(rows), KeyBefore)
    && (forall k :: k in KeysIn(rows) <==> k in keys)
    && (forall i :: 0 <= i < |rows| ==>
          (rows[i].isActive <==> rows[i].key in active) &&
          rows[i].usage == if rows[i].key in usage then Some(usage[rows[i].key]) else None)
  }

  function Views(agg: map<Key, AggregatedUsage>): map<Key, Usage>
    reads agg.Values
  {
    map k | k in agg :: agg[k].View()
  }

  method BuildDetails(agg: map<Key, AggregatedUsage>, known: set<Key>, active: set<Key>) returns (rows: seq<Detail>)
    ensures IsDetail(rows, known + agg.Keys, active, Views(agg))
  {
    var sorted := SortedKeys(known + agg.Keys);
    rows := [];
    for i := 0 to |sorted|
      invariant KeysIn(rows) == sorted[..i]
      invariant forall j :: 0 <= j < |rows| ==>
        (rows[j].isActive <==> rows[j].key in active) &&
        rows[j].usage == if rows[j].key in agg then Some(Views(agg)[rows[j].key]) else None
    {
      var k := sorted[i];
      var row := Detail(k, k in active, if k in agg then Some(agg[k].View()) else None);
      assert KeysIn(rows + [row]) == KeysIn(rows) + [k];
      rows := rows + [row];
    }
    assert sorted[..|sorted|] == sorted;
  }

  /** The rows are fixed by the inventory and the usage: runs that agree on those store the
      same rows. */
  lemma DetailsUnique(a: seq<Detail>, b: seq<Detail>, keys: set<Key>, active: set<Key>, usage: map<Key, Usage>)
    requires IsDetail(a, keys, active, usage) && IsDetail(b, keys, active, usage)
    ensures a == b
  {
    KeyBeforeIsSortKey();
    StrictlyOrderedUnique(KeysIn(a), KeysIn(b), KeyBefore);
    assert forall i :: 0 <= i < |a| ==> KeysIn(a)[i] == KeysIn(b)[i];
  }

  /** Two analyses of the same nodes and inventory store the same rows, whatever order the
      nodes' batches arrived in. */
  lemma AnalysisIsDeterministic(nodes: seq<NodeRecord>, known: set<Key>, s: seq<Tuple>, t: seq<Tuple>, a: seq<Detail>, b: seq<Detail>)
    requires multiset(s) == AllTuples(nodes) && multiset(t) == AllTuples(nodes)
    requires IsDetail(a, known + KeysOf(s), KeysOf(s), Usages(s))
    requires IsDetail(b, known + KeysOf(t), KeysOf(t), Usages(t))
    ensures a == b
  {
    forall k ensures UsageOf(s, k) == UsageOf(t, k) && KeysOf(s) == KeysOf(t) { ArrivalOrderIrrelevant(s, t, k); }
    assert Usages(s) == Usages(t);
    ArrivalOrderIrrelevant(s, t, Key("", ""));
    DetailsUnique(a, b, known + KeysOf(s), KeysOf(s), Usages(s));
  }

  /** The known versions that some node runs. */
  ghost function InUse(inventory: seq<Key>, nodes: seq<NodeRecord>): set<Key> {
    set k | k in Known(inventory) && exists n :: n in nodes && Runs(n, k)
  }

  /** The analysis, phase by phase; `tuples` are the tuples in the order they arrived. */
  method RunUsageAnalysis(nodes: seq<NodeRecord>, inventory: seq<Key>)
    returns (totalCookbooks: nat, activeCookbooks: nat, unusedCookbooks: nat, rows: seq<Detail>, ghost tuples: seq<Tuple>)
    ensures totalCookbooks == |Known(inventory)|
    ensures activeCookbooks + unusedCookbooks == totalCookbooks
    ensures activeCookbooks == |InUse(inventory, nodes)|
    ensures multiset(tuples) == AllTuples(nodes)
    ensures IsDetail(rows, Known(inventory) + KeysOf(tuples), KeysOf(tuples), Usages(tuples))
  {
    var extracted := ExtractTuples(nodes);
    tuples := extracted;
    var agg := AggregateTuples(extracted);
    var known, active;
    known, active, activeCookbooks, unusedCookbooks := CountVersions(agg, inventory, nodes, tuples);
    totalCookbooks := |known|;
    rows := BuildDetails(agg, known, active);
    ShownViews(agg, tuples);
  }

  method CountVersions(agg: map<Key, AggregatedUsage>, inventory: seq<Key>, ghost nodes: seq<NodeRecord>, ghost tuples: seq<Tuple>)
    returns (known: set<Key>, active: set<Key>, activeCount: nat, unusedCount: nat)
    requires Shows(agg, Usages(tuples)) && multiset(tuples) == AllTuples(nodes)
    ensures known == Known(inventory) && active == KeysOf(tuples)
    ensures activeCount == |InUse(inventory, nodes)| && activeCount + unusedCount == |known|
  {
    known := BuildInventorySet(inventory);
    active := BuildActiveSet(agg);
    ActiveIsUsed(agg, tuples);
    activeCount, unusedCount := CountActive(known, active);
    assert known * active == InUse(inventory, nodes) by { UsedIffRun(nodes, tuples); }
  }

  lemma ActiveIsUsed(agg: map<Key, AggregatedUsage>, tuples: seq<Tuple>)
    requires Shows(agg, Usages(tuples))
    ensures (set k | k in agg && agg[k].View().nodeCount > 0) == KeysOf(tuples)
  {
    AllAggregatedActive(tuples);
    forall k | k in agg ensures agg[k].View() == UsageOf(tuples, k) {
      assert k in Usages(tuples);
    }
  }

  lemma ShownViews(agg: map<Key, AggregatedUsage>, tuples: seq<Tuple>)
    requires Shows(agg, Usages(tuples))
    ensures Views(agg) == Usages(tuples) && agg.Keys == KeysOf(tuples)
  {
  }

  lemma AllAggregatedActive(tuples: seq<Tuple>)
    ensures forall k :: k in KeysOf(tuples) <==> UsageOf(tuples, k).nodeCount > 0
  {
    forall k { AggregatedIsActive(tuples, k); }
  }

  lemma UsedIffRun(nodes: seq<NodeRecord>, tuples: seq<Tuple>)
    requires multiset(tuples) == AllTuples(nodes)
    ensures forall k :: k in KeysOf(tuples) <==> exists n :: n in nodes && Runs(n, k)
  {
    forall k { NodeCountIsDistinctNodes(nodes, tuples, k); }
  }
}
