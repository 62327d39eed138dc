/** Deep merge of Test Kitchen configurations (internal/analysis/kitchen_analyser.go).

    A parsed document is a tree. YAML mappings arrive in two Go types: one keyed by
    strings, and one keyed by arbitrary values whose keys are printed when it is read
    as a mapping. `AnyKeys` is the second; merging turns it into the first.
 */
module KitchenConfig {
  import opened Wrappers

  datatype Mapping = Mapping(entries: map<string, Value>)

  datatype Value =
    | Scalar(text: string)
    | List(items: seq<Value>)
    | StringKeys(mapping: Mapping)
    | AnyKeys(mapping: Mapping)
  {
    predicate IsMap() { StringKeys? || AnyKeys? }
  }

  /** What the merge leaves where base and override both hold a value. */
  function Combine(base: Value, override: Value): Value
    decreases override, 1
  {
    if base.IsMap() && override.IsMap() then
      StringKeys(Merged(base.mapping, override.mapping))
    else override
  }

  /** The merge of two mappings, key by key. */
  function Merged(base: Mapping, override: Mapping): Mapping
    decreases override, 0
  {
    Mapping(
      map k | k in base.entries.Keys + override.entries.Keys ::
        if k !in override.entries then base.entries[k]
        else if k !in base.entries then override.entries[k]
        else Combine(base.entries[k], override.entries[k]))
  }

  const EMPTY := Mapping(map[])

  // ---------------------------------------------------------------------------
  // Paths: what a reader of the merged document finds where
  // ---------------------------------------------------------------------------

  /** The value at a path of mapping keys. */
  function At(v: Value, path: seq<string>): Option<Value>
    decreases path
  {
    if path == [] then Some(v)
    else if v.IsMap() && path[0] in v.mapping.entries then At(v.mapping.entries[path[0]], path[1..])
    else None
  }

  /** Some value on the way down the path is not a mapping. */
  predicate CutOff(v: Value, path: seq<string>)
    decreases path
  {
    path != [] &&
    (!v.IsMap() || (path[0] in v.mapping.entries && CutOff(v.mapping.entries[path[0]], path[1..])))
  }

  /** Override wins at every path, unless both sides hold a mapping there; the base
      shows through exactly where the override is silent and does not cut it off. */
  lemma {:induction false} LookupInMerge(base: Value, override: Value, path: seq<string>)
    ensures At(Combine(base, override), path) ==
            match At(override, path)
            case Some(o) =>
              (match At(base, path)
               case Some(b) => Some(if b.IsMap() && o.IsMap() then Combine(b, o) else o)
               case None => Some(o))
            case None => if CutOff(override, path) then None else At(base, path)
    decreases path
  {
    if path != [] && base.IsMap() && override.IsMap() {
      var k := path[0];
      if k in base.mapping.entries && k in override.mapping.entries {
        LookupInMerge(base.mapping.entries[k], override.mapping.entries[k], path[1..]);
      }
    }
  }

  // ---------------------------------------------------------------------------
  // Algebraic laws
  // ---------------------------------------------------------------------------

  lemma EmptyIsIdentity(m: Mapping)
    ensures Merged(EMPTY, m) == m && Merged(m, EMPTY) == m
  {
  }

  /** Every mapping reachable through mappings is keyed by strings. */
  predicate Plain(v: Value)
    decreases v
  {
    v.IsMap() ==> v.StringKeys? && forall k :: k in v.mapping.entries ==> Plain(v.mapping.entries[k])
  }

  /** The override already says everything the base says. */
  predicate Covers(override: Value, base: Value)
    decreases override
  {
    override.IsMap() && base.IsMap() ==>
      && override.StringKeys?
      && forall k :: k in base.mapping.entries ==>
           k in override.mapping.entries && Covers(override.mapping.entries[k], base.mapping.entries[k])
  }

  /** Merging over a base changes nothing exactly when the override covers it. */
  lemma {:induction false} MergeLeavesOverride(base: Value, override: Value)
    ensures Combine(base, override) == override <==> Covers(override, base)
    decreases override
  {
    if base.IsMap() && override.IsMap() {
      var b, o, r := base.mapping.entries, override.mapping.entries, Merged(base.mapping, override.mapping).entries;
      forall k | k in b && k in o
        ensures r[k] == o[k] <==> Covers(o[k], b[k])
      {
        MergeLeavesOverride(b[k], o[k]);
      }
      if Covers(override, base) {
        assert r == o;
      }
      if Combine(base, override) == override {
        assert r == o;
        assert forall k :: k in b ==> k in r;
      }
    }
  }

  lemma {:induction false} CoversItself(v: Value)
    ensures Covers(v, v) <==> Plain(v)
    decreases v
  {
    if v.IsMap() {
      forall k | k in v.mapping.entries ensures Covers(v.mapping.entries[k], v.mapping.entries[k]) <==> Plain(v.mapping.entries[k]) {
        CoversItself(v.mapping.entries[k]);
      }
    }
  }

  /** merge(a, a) = a exactly when no mapping inside `a` is keyed by arbitrary
      values: merging such a mapping with itself turns its keys into strings. */
  lemma {:induction false} MergeIdempotent(m: Mapping)
    ensures Merged(m, m) == m <==> Plain(StringKeys(m))
  {
    MergeLeavesOverride(StringKeys(m), StringKeys(m));
    CoversItself(StringKeys(m));
  }

  /** Wherever the override brings a mapping of its own (one that meets no mapping of
      the base), that mapping is keyed by strings throughout. */
  predicate Settles(base: Value, override: Value)
    decreases override
  {
    override.IsMap() ==>
      if !base.IsMap() then Plain(override)
      else forall k :: k in override.mapping.entries ==>
             if k in base.mapping.entries then Settles(base.mapping.entries[k], override.mapping.entries[k])
             else Plain(override.mapping.entries[k])
  }

  lemma {:induction false} MergeTwice(base: Value, override: Value)
    ensures Combine(Combine(base, override), override) == Combine(base, override) <==> Settles(base, override)
    decreases override
  {
    if override.IsMap() {
      if !base.IsMap() {
        MergeLeavesOverride(override, override);
        CoversItself(override);
      } else {
        var b, o := base.mapping.entries, override.mapping.entries;
        var once := Merged(base.mapping, override.mapping);
        var twice := Merged(once, override.mapping);
        forall k | k in o
          ensures twice.entries[k] == once.entries[k] <==>
                  if k in b then Settles(b[k], o[k]) else Plain(o[k])
        {
          if k in b {
            MergeTwice(b[k], o[k]);
          } else {
            MergeLeavesOverride(o[k], o[k]);
            CoversItself(o[k]);
          }
        }
        assert forall k :: k in once.entries && k !in o ==> twice.entries[k] == once.entries[k];
        if Settles(base, override) {
          assert twice.entries == once.entries;
        }
      }
    }
  }

  /** merge(merge(a, b), b) = merge(a, b), with its exact condition. */
  lemma MergeAbsorbs(a: Mapping, b: Mapping)
    ensures Merged(Merged(a, b), b) == Merged(a, b) <==> Settles(StringKeys(a), StringKeys(b))
  {
    MergeTwice(StringKeys(a), StringKeys(b));
  }

  /** Where `a` and `c` hold mappings and `b` something else, `c` must already say
      everything `a` says there. */
  predicate Associates(a: Value, b: Value, c: Value)
    decreases c
  {
    a.IsMap() && c.IsMap() ==>
      if !b.IsMap() then Covers(c, a)
      else forall k :: k in a.mapping.entries && k in b.mapping.entries && k in c.mapping.entries ==>
             Associates(a.mapping.entries[k], b.mapping.entries[k], c.mapping.entries[k])
  }

  /** The two groupings can differ only at keys that all three mappings have. */
  lemma MergedThrice(a: Mapping, b: Mapping, c: Mapping)
    ensures var left, right := Merged(Merged(a, b), c).entries, Merged(a, Merged(b, c)).entries;
            && left.Keys == right.Keys
            && (forall k :: k in left && !(k in a.entries && k in b.entries && k in c.entries) ==> left[k] == right[k])
            && (forall k :: k in a.entries && k in b.entries && k in c.entries ==>
                  left[k] == Combine(Combine(a.entries[k], b.entries[k]), c.entries[k]) &&
                  right[k] == Combine(a.entries[k], Combine(b.entries[k], c.entries[k])))
  {
  }

  lemma {:induction false} CombineAssociative(a: Value, b: Value, c: Value)
    ensures Combine(Combine(a, b), c) == Combine(a, Combine(b, c)) <==> Associates(a, b, c)
    decreases c
  {
    if a.IsMap() && c.IsMap() {
      if !b.IsMap() {
        MergeLeavesOverride(a, c);
      } else {
        var am, bm, cm := a.mapping.entries, b.mapping.entries, c.mapping.entries;
        var left := Merged(Merged(a.mapping, b.mapping), c.mapping).entries;
        var right := Merged(a.mapping, Merged(b.mapping, c.mapping)).entries;
        MergedThrice(a.mapping, b.mapping, c.mapping);
        forall k | k in am && k in bm && k in cm
          ensures left[k] == right[k] <==> Associates(am[k], bm[k], cm[k])
        {
          CombineAssociative(am[k], bm[k], cm[k]);
        }
        if Associates(a, b, c) {
          assert left == right;
        }
      }
    }
  }

  /** merge is associative on exactly the triples that satisfy `Associates`. */
  lemma MergeAssociative(a: Mapping, b: Mapping, c: Mapping)
    ensures Merged(Merged(a, b), c) == Merged(a, Merged(b, c)) <==>
            Associates(StringKeys(a), StringKeys(b), StringKeys(c))
  {
    CombineAssociative(StringKeys(a), StringKeys(b), StringKeys(c));
  }

  /** A mapping in `a` and in `c` with something else between them in `b`. */
  ghost predicate GapAt(a: Value, b: Value, c: Value, path: seq<string>) {
    && At(a, path).Some? && At(a, path).value.IsMap()
    && At(b, path).Some? && !At(b, path).value.IsMap()
    && At(c, path).Some? && At(c, path).value.IsMap()
  }

  /** Without such a path the merge is associative. */
  lemma {:induction false} NoGapAssociates(a: Value, b: Value, c: Value)
    requires forall path :: !GapAt(a, b, c, path)
    ensures Associates(a, b, c)
    decreases c
  {
    if a.IsMap() && c.IsMap() {
      assert !GapAt(a, b, c, []);
      assert b.IsMap();
      forall k | k in a.mapping.entries && k in b.mapping.entries && k in c.mapping.entries
        ensures Associates(a.mapping.entries[k], b.mapping.entries[k], c.mapping.entries[k])
      {
        var ak, bk, ck := a.mapping.entries[k], b.mapping.entries[k], c.mapping.entries[k];
        forall path ensures !GapAt(ak, bk, ck, path) {
          assert ([k] + path)[1..] == path;
          assert !GapAt(a, b, c, [k] + path);
        }
        NoGapAssociates(ak, bk, ck);
      }
    }
  }

  /** The gap is a real one: whenever a setting of `a` sits in a mapping that `b` replaces by
      something else and `c` opens again empty, the two groupings differ. */
  lemma GapBreaksAssociativity(key: string, inner: Mapping, other: Value)
    requires inner != EMPTY && !other.IsMap()
    ensures var a, b, c := Mapping(map[key := StringKeys(inner)]), Mapping(map[key := other]), Mapping(map[key := StringKeys(EMPTY)]);
            Merged(Merged(a, b), c) != Merged(a, Merged(b, c))
  {
    var a, b, c := Mapping(map[key := StringKeys(inner)]), Mapping(map[key := other]), Mapping(map[key := StringKeys(EMPTY)]);
    assert inner.entries != map[];
    var k :| k in inner.entries;
    assert !Covers(StringKeys(EMPTY), StringKeys(inner));
    MergeAssociative(a, b, c);
    assert key in a.entries;
  }
}
