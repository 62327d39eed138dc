/** The deep merge on Go's maps (internal/analysis/kitchen_analyser.go): a mapping is an
    object passed by reference. The merge copies the base one level deep and writes the
    override's keys into the copy; mappings that only one side has are shared, not copied. */
module KitchenHeap {
  import opened KitchenConfig

  /** What a map holds under a key: a value that is no mapping, or a reference to a mapping. */
  datatype Cell = Leaf(value: Value) | Ref(target: GoMap, anyKeys: bool)

  class GoMap {
    var entries: map<string, Cell>

    /** The maps reachable from this one. */
    ghost var Repr: set<GoMap>

    ghost predicate Valid()
      reads this, Repr
      decreases Repr
    {
      this in Repr &&
      forall k :: k in entries ==>
        match entries[k]
        case Leaf(v) => !v.IsMap()
        case Ref(m, _) => m in Repr && m.Repr <= Repr - {this} && m.Valid()
    }

    /** The document this map stands for. */
    ghost function Contents(): Mapping
      requires Valid()
      reads this, Repr
      decreases Repr
    {
      Mapping(map k | k in entries ::
        match entries[k]
        case Leaf(v) => v
        case Ref(m, anyKeys) => if anyKeys then AnyKeys(m.Contents()) else StringKeys(m.Contents()))
    }

    /** A new map with the same entries, referring to the same mappings. */
    constructor CopyMap(from: GoMap)
      requires from.Valid()
      ensures Valid() && entries == from.entries && Contents() == from.Contents()
      ensures Repr == from.Repr - {from} + {this}
    {
      entries := from.entries;
      Repr := from.Repr - {from} + {this};
    }

    /** Write a key. */
    method Put(k: string, c: Cell)
      requires Valid() && CellValid(c) && this !in CellRepr(c)
      modifies this
      ensures Valid() && entries == old(entries)[k := c] && Repr == old(Repr) + CellRepr(c)
      ensures Contents().entries == old(Contents().entries)[k := old(CellValue(c))]
    {
      entries := entries[k := c];
      Repr := Repr + CellRepr(c);
    }

    constructor Empty()
      ensures Valid() && Contents() == EMPTY && fresh(Repr)
    {
      entries := map[];
      Repr := {this};
    }
  }

  ghost predicate CellValid(c: Cell)
    reads if c.Ref? then {c.target} + c.target.Repr else {}
  {
    match c
    case Leaf(v) => !v.IsMap()
    case Ref(m, _) => m.Valid()
  }

  ghost function CellRepr(c: Cell): set<GoMap>
    reads if c.Ref? then {c.target} else {}
  {
    if c.Ref? then c.target.Repr else {}
  }

  ghost function CellValue(c: Cell): Value
    requires CellValid(c)
    reads if c.Ref? then {c.target} + c.target.Repr else {}
  {
    match c
    case Leaf(v) => v
    case Ref(m, anyKeys) => if anyKeys then AnyKeys(m.Contents()) else StringKeys(m.Contents())
  }

  ghost predicate DocumentValid(m: GoMap?)
    reads m, if m == null then {} else m.Repr
  {
    m == null || m.Valid()
  }

  ghost function DocumentOf(m: GoMap?): Mapping
    requires DocumentValid(m)
    reads m, if m == null then {} else m.Repr
  {
    if m == null then EMPTY else m.Contents()
  }

  ghost function DocumentRepr(m: GoMap?): set<GoMap>
    reads m
  {
    if m == null then {} else m.Repr
  }

  /** The merge: it builds a new map and changes no existing one (it has no `modifies`), so
      both inputs read as they did. */
  method MergeKitchenConfigs(base: GoMap?, override: GoMap?) returns (result: GoMap)
    requires DocumentValid(base) && DocumentValid(override)
    ensures fresh(result) && result.Valid() && result.Contents() == Merged(DocumentOf(base), DocumentOf(override))
    ensures fresh(result.Repr - DocumentRepr(base) - DocumentRepr(override))
    ensures DocumentValid(base) && DocumentOf(base) == old(DocumentOf(base))
    ensures DocumentValid(override) && DocumentOf(override) == old(DocumentOf(override))
    decreases DocumentRepr(override), 2
  {
    if base == null && override == null {
      result := new GoMap.Empty();
      return;
    }
    if base == null {
      EmptyIsIdentity(override.Contents());
      result := new GoMap.CopyMap(override);
      return;
    }
    if override == null {
      EmptyIsIdentity(base.Contents());
      result := new GoMap.CopyMap(base);
      return;
    }
    result := new GoMap.CopyMap(base);
    WriteOver(result, override);
  }

  /** Write the override's keys into the copy of the base, in whatever order they come. */
  method WriteOver(result: GoMap, override: GoMap)
    requires override.Valid() && result.Valid() && result !in override.Repr
    modifies result
    ensures result.Valid() && result.Contents() == Merged(old(result.Contents()), override.Contents())
    ensures fresh(result.Repr - old(result.Repr) - override.Repr)
    decreases override.Repr, 1
  {
    ghost var from, over := result.Contents(), override.Contents();
    var pending := override.entries.Keys;
    while pending != {}
      invariant pending <= override.entries.Keys
      invariant result.Valid() && fresh(result.Repr - old(result.Repr) - override.Repr)
      invariant result.Contents().entries == Written(from.entries, over.entries, override.entries.Keys - pending)
    {
      var k :| k in pending;
      WriteNext(result, override, k, from.entries, override.entries.Keys - pending);
      assert override.entries.Keys - pending + {k} == override.entries.Keys - (pending - {k});
      pending := pending - {k};
    }
    WrittenAll(from, over);
    assert override.entries.Keys - pending == over.entries.Keys;
  }

  lemma EntryOf(m: GoMap, k: string)
    requires m.Valid() && k in m.entries
    ensures CellValid(m.entries[k]) && CellRepr(m.entries[k]) <= m.Repr - {m}
    ensures CellValue(m.entries[k]) == m.Contents().entries[k]
  {
  }

  /** The copy of the base after the keys in `done` have been written. */
  ghost function Written(base: map<string, Value>, override: map<string, Value>, done: set<string>): map<string, Value>
    requires done <= override.Keys
  {
    map k | k in base.Keys + done ::
      if k !in done then base[k] else if k in base then Combine(base[k], override[k]) else override[k]
  }

  lemma WrittenAll(base: Mapping, override: Mapping)
    ensures Mapping(Written(base.entries, override.entries, override.entries.Keys)) == Merged(base, override)
  {
  }

  lemma WrittenStep(base: map<string, Value>, override: map<string, Value>, done: set<string>, k: string)
    requires done <= override.Keys && k in override && k !in done
    ensures var before := Written(base, override, done);
            Written(base, override, done + {k}) ==
            before[k := if k in before then Combine(before[k], override[k]) else override[k]]
  {
  }

  method WriteNext(result: GoMap, override: GoMap, k: string, ghost b: map<string, Value>, ghost done: set<string>)
    requires override.Valid() && result.Valid() && result !in override.Repr
    requires done <= override.Contents().entries.Keys && k in override.entries && k !in done
    requires result.Contents().entries == Written(b, override.Contents().entries, done)
    modifies result
    ensures result.Valid() && fresh(result.Repr - old(result.Repr) - override.Repr)
    ensures result.Contents().entries == Written(b, old(override.Contents().entries), done + {k})
    decreases override.Repr, 0
  {
    WrittenStep(b, override.Contents().entries, done, k);
    EntryOf(override, k);
    WriteKey(result, k, override.entries[k]);
  }

  method WriteKey(result: GoMap, k: string, ov: Cell)
    requires result.Valid() && CellValid(ov) && result !in CellRepr(ov)
    modifies result
    ensures result.Valid() && fresh(result.Repr - old(result.Repr) - old(CellRepr(ov)))
    ensures var before := old(result.Contents().entries);
            result.Contents().entries ==
            before[k := if k in before then Combine(before[k], old(CellValue(ov))) else old(CellValue(ov))]
    decreases CellRepr(ov), 5
  {
    if k !in result.entries {
      result.Put(k, ov);
    } else {
      var cell := MergeValues(result.entries[k], ov);
      result.Put(k, cell);
    }
  }

  /** Two mappings are merged; any other override replaces the base. */
  method MergeValues(bv: Cell, ov: Cell) returns (cell: Cell)
    requires CellValid(bv) && CellValid(ov)
    ensures CellValid(cell) && CellValue(cell) == Combine(CellValue(bv), CellValue(ov))
    ensures fresh(CellRepr(cell) - CellRepr(bv) - CellRepr(ov))
    decreases CellRepr(ov), 4
  {
    if bv.Leaf? || ov.Leaf? {
      return ov;
    }
    var merged := MergeKitchenConfigs(bv.target, ov.target);
    return Ref(merged, false);
  }
}
