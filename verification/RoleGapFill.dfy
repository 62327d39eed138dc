/** Role details from the index and, for what it missed, one request per role
    (internal/collector/roles_collect.go, GetRolesConcurrent in internal/chefapi/client.go). */
module RoleGapFill {
  import opened Ordering
  import opened RoleSearch
  import opened Wrappers

  /** What the Chef server answers: the role name list, the index walk, and for each
      name the role a request for it returns. A name outside `byName` fails, whether the
      server refused it or the run was cancelled before it was asked. */
  datatype RoleSource = RoleSource(
    listed: Result<seq<string>>,
    index: Result<seq<RoleDetail>>,
    byName: map<string, RoleDetail>)

  /** A request for a role returns a role of that name. */
  ghost predicate Honest(byName: map<string, RoleDetail>) {
    forall n :: n in byName ==> byName[n].name == n
  }

  datatype RoleCollection = RoleCollection(
    roles: seq<RoleDetail>,
    fromIndex: nat,
    fromFallback: nat,
    listErr: bool,
    indexErr: bool,
    fetchErrs: seq<string>)

  // ---------------------------------------------------------------------------
  // One request per role
  // ---------------------------------------------------------------------------

  /** The roles of the names that can be fetched, in the order of the names. */
  function Fetched(byName: map<string, RoleDetail>, names: seq<string>): seq<RoleDetail> {
    if names == [] then []
    else
      var front := Fetched(byName, names[..|names| - 1]);
      var n := names[|names| - 1];
      if n in byName then front + [byName[n]] else front
  }

  /** The names that cannot, in the same order. */
  function Unfetched(byName: map<string, RoleDetail>, names: seq<string>): seq<string> {
    if names == [] then []
    else
      var front := Unfetched(byName, names[..|names| - 1]);
      var n := names[|names| - 1];
      if n in byName then front else front + [n]
  }

  function Slots(n: nat): (r: set<int>)
    ensures forall i :: i in r <==> 0 <= i < n
  {
    if n == 0 then {} else Slots(n - 1) + {n - 1}
  }

  /** What the worker of a name leaves in its two slots. */
  predicate Filled(byName: map<string, RoleDetail>, name: string, detail: Option<RoleDetail>, err: Option<string>) {
    if name in byName then detail == Some(byName[name]) && err == None else detail == None && err == Some(name)
  }

  method ReadSlots(byName: map<string, RoleDetail>, names: seq<string>, details: array<Option<RoleDetail>>, errs: array<Option<string>>)
    returns (roles: seq<RoleDetail>, failures: seq<string>)
    requires details.Length == errs.Length == |names|
    requires forall i :: 0 <= i < |names| ==> Filled(byName, names[i], details[i], errs[i])
    ensures roles == Fetched(byName, names) && failures == Unfetched(byName, names)
  {
    roles, failures := [], [];
    for i := 0 to |names|
      invariant roles == Fetched(byName, names[..i]) && failures == Unfetched(byName, names[..i])
    {
      assert names[..i + 1][..i] == names[..i];
      if details[i].Some? {
        roles := roles + [details[i].value];
      } else if errs[i].Some? {
        failures := failures + [errs[i].value];
      }
    }
    assert names[..|names|] == names;
  }

  /** Each worker writes its own slots, in whatever order the requests finish; the slots
      are then read in order. */
  method GetRolesConcurrent(byName: map<string, RoleDetail>, names: seq<string>)
    returns (roles: seq<RoleDetail>, failures: seq<string>)
    ensures roles == Fetched(byName, names)
    ensures failures == Unfetched(byName, names)
  {
    if |names| == 0 {
      return [], [];
    }
    var details := new Option<RoleDetail>[|names|](_ => None);
    var errs := new Option<string>[|names|](_ => None);
    var pending := Slots(|names|);
    while pending != {}
      invariant forall i :: i in pending ==> 0 <= i < |names|
      invariant forall i :: 0 <= i < |names| && i !in pending ==> Filled(byName, names[i], details[i], errs[i])
      invariant forall i :: i in pending ==> details[i] == None && errs[i] == None
    {
      var idx :| idx in pending;
      pending := pending - {idx};
      if names[idx] !in byName {
        errs[idx] := Some(names[idx]);
      } else {
        details[idx] := Some(byName[names[idx]]);
      }
    }
    roles, failures := ReadSlots(byName, names, details, errs);
  }

  /** Every name is either fetched or reported: nothing is lost between the two lists. */
  lemma {:induction false} FetchedOrReported(byName: map<string, RoleDetail>, names: seq<string>)
    ensures |Fetched(byName, names)| + |Unfetched(byName, names)| == |names|
    ensures forall n :: n in Unfetched(byName, names) <==> n in names && n !in byName
    ensures forall r :: r in Fetched(byName, names) <==> exists n :: n in names && n in byName && byName[n] == r
  {
    if names != [] {
      var n := |names| - 1;
      FetchedOrReported(byName, names[..n]);
      assert names == names[..n] + [names[n]];
    }
  }

  /** Which of the names can be fetched, or cannot. */
  function Known(byName: map<string, RoleDetail>, names: seq<string>, known: bool): (r: seq<bool>)
    ensures |r| == |names| && forall i :: 0 <= i < |r| ==> r[i] == ((names[i] in byName) == known)
  {
    seq(|names|, i requires 0 <= i < |names| => (names[i] in byName) == known)
  }

  /** The roles come in the order of the names that can be fetched. */
  lemma {:induction false} FetchedInOrder(byName: map<string, RoleDetail>, names: seq<string>)
    returns (found: seq<string>, at: seq<nat>)
    ensures Picks(names, Known(byName, names, true), found, at) && AreAnswers(byName, found, Fetched(byName, names))
  {
    found, at := [], [];
    if names != [] {
      var n := |names| - 1;
      var front, name := names[..n], names[n];
      found, at := FetchedInOrder(byName, front);
      PicksNext(front, Known(byName, front, true), found, at, name);
      assert names == front + [name] && Known(byName, names, true) == Known(byName, front, true) + [name in byName];
      if name in byName {
        found, at := found + [name], at + [n];
      }
    }
  }

  predicate AreAnswers(byName: map<string, RoleDetail>, names: seq<string>, roles: seq<RoleDetail>) {
    |roles| == |names| && forall k :: 0 <= k < |names| ==> names[k] in byName && roles[k] == byName[names[k]]
  }

  /** And the failures in the order of those that cannot. */
  lemma {:induction false} UnfetchedInOrder(byName: map<string, RoleDetail>, names: seq<string>) returns (at: seq<nat>)
    ensures Picks(names, Known(byName, names, false), Unfetched(byName, names), at)
  {
    at := [];
    if names != [] {
      var n := |names| - 1;
      var front, name := names[..n], names[n];
      at := UnfetchedInOrder(byName, front);
      PicksNext(front, Known(byName, front, false), Unfetched(byName, front), at, name);
      assert names == front + [name] && Known(byName, names, false) == Known(byName, front, false) + [name !in byName];
      if name !in byName {
        at := at + [n];
      }
    }
  }

  // ---------------------------------------------------------------------------
  // Collection
  // ---------------------------------------------------------------------------

  function FirstOccurrences(names: seq<string>): (r: seq<string>)
    ensures forall n :: n in r <==> n in names
    ensures Distinct(r)
  {
    if names == [] then []
    else
      assert names == names[..|names| - 1] + [names[|names| - 1]];
      var front := FirstOccurrences(names[..|names| - 1]);
      if names[|names| - 1] in front then front else front + [names[|names| - 1]]
  }

  method DedupeSorted(names: seq<string>) returns (out: seq<string>)
    ensures out == Sort(FirstOccurrences(names), StrLess)
  {
    var seen: set<string> := {};
    out := [];
    for i := 0 to |names|
      invariant out == FirstOccurrences(names[..i])
      invariant forall n :: n in seen <==> n in out
    {
      assert names[..i + 1][..i] == names[..i];
      if names[i] !in seen {
        seen := seen + {names[i]};
        out := out + [names[i]];
      }
    }
    assert names[..|names|] == names;
    out := Sort(out, StrLess);
  }

  /** Append the roles whose names are new, in order. */
  function AppendNew(roles: seq<RoleDetail>, more: seq<RoleDetail>): (r: seq<RoleDetail>)
    ensures |r| >= |roles|
  {
    if more == [] then roles
    else
      var front := AppendNew(roles, more[..|more| - 1]);
      var role := more[|more| - 1];
      if role.name in Names(front) then front else front + [role]
  }

  /** The sorted, distinct names that no role carries yet, in order. */
  function Without(names: seq<string>, present: set<string>): (r: seq<string>)
    ensures forall n :: n in r <==> n in names && n !in present
  {
    if names == [] then []
    else
      assert names == names[..|names| - 1] + [names[|names| - 1]];
      var front := Without(names[..|names| - 1], present);
      if names[|names| - 1] in present then front else front + [names[|names| - 1]]
  }

  function Wanted(names: seq<string>): seq<string> { Sort(FirstOccurrences(names), StrLess) }

  /** What a collection yields, by which of the two sources answered. */
  function Collection(src: RoleSource): Result<RoleCollection> {
    match (src.index, src.listed)
    case (Err, Err) => Err
    case (Err, Ok(names)) =>
      var roles := Fetched(src.byName, Wanted(names));
      Ok(RoleCollection(roles, 0, |roles|, false, true, Unfetched(src.byName, Wanted(names))))
    case (Ok(indexed), Err) =>
      var roles := AppendNew([], indexed);
      Ok(RoleCollection(roles, |roles|, 0, true, false, []))
    case (Ok(indexed), Ok(names)) => Ok(GapsFilled(src.byName, AppendNew([], indexed), names))
  }

  /** Fetch by name the listed roles the index did not give, add and sort. */
  function GapsFilled(byName: map<string, RoleDetail>, roles: seq<RoleDetail>, names: seq<string>): RoleCollection {
    var missing := Without(Wanted(names), Names(roles));
    if missing == [] then RoleCollection(roles, |roles|, 0, false, false, [])
    else
      var all := AppendNew(roles, Fetched(byName, missing));
      RoleCollection(Sort(all, ByName), |roles|, |all| - |roles|, false, false, Unfetched(byName, missing))
  }

  /** Append to `roles` what is new in `more`, keeping the set of seen names. */
  method AppendUnseen(roles: seq<RoleDetail>, seen: set<string>, more: seq<RoleDetail>)
    returns (all: seq<RoleDetail>, seen': set<string>, added: nat)
    requires seen == Names(roles)
    ensures all == AppendNew(roles, more) && seen' == Names(all) && added == |all| - |roles|
  {
    all, seen', added := roles, seen, 0;
    for i := 0 to |more|
      invariant all == AppendNew(roles, more[..i]) && seen' == Names(all)
      invariant added == |all| - |roles|
    {
      assert more[..i + 1][..i] == more[..i];
      if more[i].name !in seen' {
        NamesAppend(all, more[i]);
        seen' := seen' + {more[i].name};
        all := all + [more[i]];
        added := added + 1;
      }
    }
    assert more[..|more|] == more;
  }

  method MissingNames(wanted: seq<string>, seen: set<string>) returns (missing: seq<string>)
    ensures missing == Without(wanted, seen)
  {
    missing := [];
    for i := 0 to |wanted|
      invariant missing == Without(wanted[..i], seen)
    {
      assert wanted[..i + 1][..i] == wanted[..i];
      if wanted[i] !in seen {
        missing := missing + [wanted[i]];
      }
    }
    assert wanted[..|wanted|] == wanted;
  }

  method CollectRoleDetails(src: RoleSource) returns (result: RoleCollection, failed: bool)
    ensures failed <==> Collection(src) == Err
    ensures !failed ==> Ok(result) == Collection(src)
  {
    result := RoleCollection([], 0, 0, src.listed.Err?, src.index.Err?, []);
    if src.index.Err? {
      if src.listed.Err? {
        return result, true;
      }
      var wanted := DedupeSorted(src.listed.value);
      var details, errs := GetRolesConcurrent(src.byName, wanted);
      result := result.(roles := details, fromFallback := |details|, fetchErrs := errs);
      return result, false;
    }
    var roles, seen, fromIndex := AppendUnseen([], {}, src.index.value);
    result := result.(roles := roles, fromIndex := fromIndex);
    if src.listed.Err? {
      return result, false;
    }
    result := FillGaps(src.byName, src.listed.value, result, seen);
    return result, false;
  }

  method FillGaps(byName: map<string, RoleDetail>, names: seq<string>, indexed: RoleCollection, seen: set<string>)
    returns (result: RoleCollection)
    requires indexed == RoleCollection(indexed.roles, |indexed.roles|, 0, false, false, []) && seen == Names(indexed.roles)
    ensures result == GapsFilled(byName, indexed.roles, names)
  {
    var wanted := DedupeSorted(names);
    var missing := MissingNames(wanted, seen);
    if |missing| == 0 {
      return indexed;
    }
    var details, errs := GetRolesConcurrent(byName, missing);
    var all, _, added := AppendUnseen(indexed.roles, seen, details);
    result := indexed.(roles := Sort(all, ByName), fromFallback := added, fetchErrs := errs);
  }

  // ---------------------------------------------------------------------------
  // What a collection amounts to
  // ---------------------------------------------------------------------------

  lemma {:induction false} AppendNewNames(roles: seq<RoleDetail>, more: seq<RoleDetail>)
    requires KeysDiffer(roles, ByName)
    ensures Names(AppendNew(roles, more)) == Names(roles) + Names(more)
    ensures KeysDiffer(AppendNew(roles, more), ByName)
    ensures forall r :: r in AppendNew(roles, more) ==> r in roles || r in more
    ensures roles <= AppendNew(roles, more)
  {
    if more != [] {
      var n := |more| - 1;
      AppendNewNames(roles, more[..n]);
      var front := AppendNew(roles, more[..n]);
      assert more == more[..n] + [more[n]];
      NamesAppend(more[..n], more[n]);
      NamesAppend(front, more[n]);
      if more[n].name !in Names(front) {
        forall i | 0 <= i < |front| ensures ByName(front[i], more[n]) || ByName(more[n], front[i]) {
          assert front[i].name in Names(front);
          StrLessTotal(front[i].name, more[n].name);
        }
      }
    }
  }

  lemma SameRolesSameNames(a: seq<RoleDetail>, b: seq<RoleDetail>)
    requires forall r :: r in a <==> r in b
    ensures Names(a) == Names(b)
  {
    forall n | n in Names(a) ensures n in Names(b) {
      var i :| 0 <= i < |a| && a[i].name == n;
      assert a[i] in b;
    }
    forall n | n in Names(b) ensures n in Names(a) {
      var i :| 0 <= i < |b| && b[i].name == n;
      assert b[i] in a;
    }
  }

  lemma WantedSorted(names: seq<string>)
    ensures StrictlyOrdered(Wanted(names), StrLess)
    ensures forall n :: n in Wanted(names) <==> n in names
  {
    var distinct := FirstOccurrences(names);
    forall i, j | 0 <= i < j < |distinct| ensures StrLess(distinct[i], distinct[j]) || StrLess(distinct[j], distinct[i]) {
      StrLessTotal(distinct[i], distinct[j]);
    }
    StrLessIsSortKey();
    SortStrict(distinct, StrLess);
  }

  /** With honest answers the roles fetched carry the names asked for. */
  lemma {:induction false} FetchedNames(byName: map<string, RoleDetail>, names: seq<string>)
    requires Honest(byName)
    ensures Names(Fetched(byName, names)) == set n | n in names && n in byName
    ensures StrictlyOrdered(names, StrLess) ==> StrictlyOrdered(Fetched(byName, names), ByName)
  {
    if names != [] {
      var n := |names| - 1;
      FetchedNames(byName, names[..n]);
      assert names == names[..n] + [names[n]];
      var front := Fetched(byName, names[..n]);
      if names[n] in byName {
        NamesAppend(front, byName[names[n]]);
        if StrictlyOrdered(names, StrLess) {
          forall i | 0 <= i < |front| ensures ByName(front[i], byName[names[n]]) {
            assert front[i].name in Names(front);
            var j :| 0 <= j < n && names[j] == front[i].name;
          }
        }
      }
    }
  }

  /** The names the collection asks for one by one. */
  ghost function AskedFor(src: RoleSource): seq<string> {
    if src.listed.Err? then []
    else if src.index.Err? then Wanted(src.listed.value)
    else Without(Wanted(src.listed.value), Names(src.index.value))
  }

  ghost function IndexNames(src: RoleSource): set<string> {
    if src.index.Ok? then Names(src.index.value) else {}
  }

  ghost function FetchableNames(src: RoleSource): set<string> {
    if src.listed.Ok? then set n | n in src.listed.value && n in src.byName else {}
  }

  /** A collection fails only when neither source answered. Otherwise, given a sorted index
      walk, its names are those of the walk and of the answers to what it asked for; the two
      counts add up to its length; every name it asked for but could not get is reported; and
      it is sorted with each name once, on the fallback path if answers carry the names asked
      for. Then its names are exactly the index names and the listed names that can be
      fetched. */
  lemma CollectionIsComplete(src: RoleSource)
    requires src.index.Ok? ==> StrictlyOrdered(src.index.value, ByName)
    ensures Collection(src).Err? <==> src.index.Err? && src.listed.Err?
    ensures Collection(src).Ok? ==>
              var c := Collection(src).value;
              && Names(c.roles) == IndexNames(src) + Names(Fetched(src.byName, AskedFor(src)))
              && c.fromIndex + c.fromFallback == |c.roles|
              && (src.index.Ok? || Honest(src.byName) ==> StrictlyOrdered(c.roles, ByName))
              && (Honest(src.byName) ==> Names(c.roles) == IndexNames(src) + FetchableNames(src))
              && (forall n :: n in c.fetchErrs <==>
                    src.listed.Ok? && n in src.listed.value && n !in src.byName && n !in IndexNames(src))
  {
    if src.index.Err? {
      if src.listed.Ok? { FallbackIsComplete(src.byName, src.listed.value); }
    } else {
      SortedIndexKept(src.index.value);
      if src.listed.Ok? { GapFillIsComplete(src.byName, src.index.value, src.listed.value); }
    }
  }

  /** Every role of a collection is one the index gave, or the answer to one of the requests
      made; nothing the index gave is lost or replaced, and the counts say how many came from
      each. */
  lemma CollectedRolesAreAnswers(src: RoleSource)
    requires src.index.Ok? ==> StrictlyOrdered(src.index.value, ByName)
    ensures Collection(src).Ok? ==>
              var c, indexed := Collection(src).value, if src.index.Ok? then src.index.value else [];
              && (forall role :: role in indexed ==> role in c.roles)
              && (forall role :: role in c.roles ==>
                    role in indexed || exists n :: n in AskedFor(src) && n in src.byName && src.byName[n] == role)
              && c.fromIndex == |indexed|
              && c.listErr == src.listed.Err? && c.indexErr == src.index.Err?
  {
    FetchedOrReported(src.byName, AskedFor(src));
    if src.index.Ok? {
      var indexed := src.index.value;
      SortedIndexKept(indexed);
      ByNameIsSortKey();
      forall i, j | 0 <= i < j < |indexed| ensures ByName(indexed[i], indexed[j]) || ByName(indexed[j], indexed[i]) {}
      AppendNewNames(indexed, Fetched(src.byName, AskedFor(src)));
    }
  }

  lemma FallbackIsComplete(byName: map<string, RoleDetail>, names: seq<string>)
    ensures Honest(byName) ==> StrictlyOrdered(Fetched(byName, Wanted(names)), ByName)
    ensures Honest(byName) ==> Names(Fetched(byName, Wanted(names))) == set n | n in names && n in byName
    ensures forall n :: n in Unfetched(byName, Wanted(names)) <==> n in names && n !in byName
  {
    WantedSorted(names);
    FetchedOrReported(byName, Wanted(names));
    if Honest(byName) { FetchedNames(byName, Wanted(names)); }
  }

  lemma MissingAre(names: seq<string>, present: set<string>)
    ensures forall n :: n in Without(Wanted(names), present) <==> n in names && n !in present
  {
    WantedSorted(names);
  }

  lemma GapFillIsComplete(byName: map<string, RoleDetail>, roles: seq<RoleDetail>, names: seq<string>)
    requires StrictlyOrdered(roles, ByName)
    ensures var c, missing := GapsFilled(byName, roles, names), Without(Wanted(names), Names(roles));
            && StrictlyOrdered(c.roles, ByName)
            && Names(c.roles) == Names(roles) + Names(Fetched(byName, missing))
            && (Honest(byName) ==> Names(c.roles) == Names(roles) + (set n | n in names && n in byName))
            && c.fromIndex + c.fromFallback == |c.roles|
            && (forall n :: n in c.fetchErrs <==> n in names && n !in byName && n !in Names(roles))
  {
    var missing := Without(Wanted(names), Names(roles));
    MissingAre(names, Names(roles));
    FetchedOrReported(byName, missing);
    GapFillSorted(roles, Fetched(byName, missing));
    HasMember(missing);
    if Honest(byName) {
      FetchedNames(byName, missing);
      NamesWithFetchable(byName, Names(roles), missing, names);
    }
  }

  lemma NamesWithFetchable(byName: map<string, RoleDetail>, present: set<string>, missing: seq<string>, names: seq<string>)
    requires forall n :: n in missing <==> n in names && n !in present
    ensures present + (set n | n in missing && n in byName) == present + (set n | n in names && n in byName)
  {
  }

  lemma LastNameIsNew(roles: seq<RoleDetail>)
    requires StrictlyOrdered(roles, ByName) && roles != []
    ensures roles[|roles| - 1].name !in Names(roles[..|roles| - 1])
  {
    var n := |roles| - 1;
    StrLessIrreflexive(roles[n].name);
    forall i | 0 <= i < n ensures roles[..n][i].name != roles[n].name { assert ByName(roles[i], roles[n]); }
  }

  /** A sorted index walk has no duplicates to drop. */
  lemma {:induction false} SortedIndexKept(roles: seq<RoleDetail>)
    requires StrictlyOrdered(roles, ByName)
    ensures AppendNew([], roles) == roles
  {
    if roles != [] {
      var n := |roles| - 1;
      SortedIndexKept(roles[..n]);
      LastNameIsNew(roles);
      assert AppendNew([], roles) == roles[..n] + [roles[n]];
    }
  }

  lemma GapFillSorted(roles: seq<RoleDetail>, more: seq<RoleDetail>)
    requires StrictlyOrdered(roles, ByName)
    ensures StrictlyOrdered(Sort(AppendNew(roles, more), ByName), ByName)
    ensures Names(Sort(AppendNew(roles, more), ByName)) == Names(roles) + Names(more)
  {
    AppendNewNames(roles, more);
    ByNameIsSortKey();
    SortStrict(AppendNew(roles, more), ByName);
    SameRolesSameNames(Sort(AppendNew(roles, more), ByName), AppendNew(roles, more));
  }

  /** Whichever rows the index walk returned, if every listed name can be fetched the
      collection names exactly the indexed and the listed roles, and reports no failure. */
  lemma GapsAreFilled(src: RoleSource)
    requires Honest(src.byName) && src.index.Ok? && src.listed.Ok?
    requires StrictlyOrdered(src.index.value, ByName)
    requires forall n :: n in src.listed.value ==> n in src.byName
    ensures Collection(src).Ok?
    ensures Names(Collection(src).value.roles) == Names(src.index.value) + set n | n in src.listed.value
    ensures Collection(src).value.fetchErrs == []
  {
    CollectionIsComplete(src);
    HasMember(Collection(src).value.fetchErrs);
    assert FetchableNames(src) == set n | n in src.listed.value;
  }

  /** The gap fill repairs a walk that lost rows: the index server that loses a role to
      concurrent requests ends up with the same names as a complete one. */
  lemma LossyWalkRepaired(server: Server, size: nat, concurrency: nat, listed: seq<string>, byName: map<string, RoleDetail>)
    requires server.Valid() && concurrency >= 1
    requires RowsRead(server, size, concurrency).Ok?
    requires Honest(byName)
    requires forall n :: n in listed ==> n in byName
    requires forall n :: n in listed <==> n in Names(FirstByName(server.index))
    ensures var indexed := Sort(FirstByName(RowsRead(server, size, concurrency).value), ByName);
            var src := RoleSource(Ok(listed), Ok(indexed), byName);
            && Collection(src).Ok?
            && Names(Collection(src).value.roles) == Names(FirstByName(server.index))
            && StrictlyOrdered(Collection(src).value.roles, ByName)
  {
    var rows := RowsRead(server, size, concurrency).value;
    var indexed := Sort(FirstByName(rows), ByName);
    var src := RoleSource(Ok(listed), Ok(indexed), byName);
    CollectedAreSorted(rows);
    SameRolesSameNames(indexed, FirstByName(rows));
    GapsAreFilled(src);
    CollectionIsComplete(src);
    RowsReadAreIndexed(server, size, concurrency);
    GatheredAreFirst(server.index);
    GatheredAreFirst(rows);
    forall n | n in Names(FirstByName(rows)) ensures n in Names(FirstByName(server.index)) {
      var i :| 0 <= i < |FirstByName(rows)| && FirstByName(rows)[i].name == n;
      assert FirstByName(rows)[i] in FirstByName(rows);
      var j :| 0 <= j < |rows| && FirstNamed(rows, j, FirstByName(rows)[i]);
      assert rows[j] in server.index;
    }
  }

  /** The walk never makes a row up. */
  lemma RowsReadAreIndexed(server: Server, size: nat, concurrency: nat)
    requires server.Valid() && concurrency >= 1 && RowsRead(server, size, concurrency).Ok?
    ensures forall row :: row in RowsRead(server, size, concurrency).value ==> row in server.index
  {
    var first := PageAt(server, size, 0);
    if first != [] {
      forall n: nat | n < server.total && Wave(server, size, concurrency, |first|, n).Ok?
        ensures forall row :: row in Wave(server, size, concurrency, |first|, n).value.0 ==> row in server.index
      {
        WaveIsIndexed(server, size, Offsets(n, |first|, server.total, concurrency));
      }
      WalkIsIndexed(Waves(server, size, concurrency, |first|), server.index, |first|);
    }
  }

  lemma {:induction false} WalkIsIndexed(waves: seq<WaveResult>, index: seq<Row>, next: nat)
    requires Progress(waves) && Walk(waves, next).Ok?
    requires forall n, row :: 0 <= n < |waves| && waves[n].Ok? && row in waves[n].value.0 ==> row in index
    ensures forall row :: row in Walk(waves, next).value ==> row in index
    decreases |waves| - next
  {
    if next < |waves| && !waves[next].value.1 {
      WalkIsIndexed(waves, index, next + |waves[next].value.0|);
    }
  }

  lemma {:induction false} WaveIsIndexed(server: Server, size: nat, offsets: seq<nat>)
    requires server.Valid()
    ensures forall row :: row in WaveRows(server, size, offsets).0 ==> row in server.index
  {
    if offsets != [] { WaveIsIndexed(server, size, offsets[1..]); }
  }
}
