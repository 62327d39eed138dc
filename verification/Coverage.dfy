/** Test Kitchen platforms against production platforms (internal/analysis/coverage.go). */
module Coverage {
  import opened Ordering
  import opened Strings
  import opened Wrappers

  datatype Platform = Platform(platform: string, version: string, family: string, nodes: int)

  datatype Credit = Credit(kitchenName: string, platform: string, version: string, nodes: int)

  datatype Report = Report(
    tested: seq<Credit>, testedNotInProd: seq<string>, inProdNotTested: seq<Platform>,
    gapCount: nat, totalNodes: int, coveredNodes: int, percentage: real)

  // ---------------------------------------------------------------------------
  // Names and versions
  // ---------------------------------------------------------------------------

  /** The index of the last `c`, or -1. */
  function LastIndex(s: string, c: char): (i: int)
    ensures -1 <= i < |s|
    ensures i >= 0 ==> s[i] == c
    ensures forall j :: i < j < |s| ==> s[j] != c
  {
    if s == "" then -1
    else if s[|s| - 1] == c then |s| - 1
    else LastIndex(s[..|s| - 1], c)
  }

  function FirstIndex(s: string, c: char): (i: int)
    ensures -1 <= i < |s|
    ensures i >= 0 ==> s[i] == c && c !in s[..i]
    ensures i < 0 ==> c !in s
  {
    if s == "" then -1
    else if s[0] == c then 0
    else
      var i := FirstIndex(s[1..], c);
      if i < 0 then -1 else i + 1
  }

  /** A kitchen name split on its last hyphen into system and version. */
  function ParseKitchenName(name: string): (r: Option<(string, string)>)
    ensures r.Some? ==> r.value.0 != "" && r.value.1 != "" && name == r.value.0 + "-" + r.value.1 && '-' !in r.value.1
  {
    var i := LastIndex(name, '-');
    if i <= 0 || i >= |name| - 1 then None else Some((name[..i], name[i + 1..]))
  }

  /** A name is split into `os` and `version` exactly when they are the two non-empty parts
      around its last hyphen; a name that has no such parts is not split. */
  lemma KitchenNameSplitsIff(name: string, os: string, version: string)
    ensures ParseKitchenName(name) == Some((os, version)) <==>
            os != "" && version != "" && name == os + "-" + version && '-' !in version
  {
    if os != "" && version != "" && name == os + "-" + version && '-' !in version {
      assert name[|os|] == '-' && name[|os| + 1..] == version && name[..|os|] == os;
      LastIndexIs(name, '-', |os|);
    }
  }

  /** "7" matches "7.9", "22.04" matches "22.04.1" but not "22.045" or "22.10". */
  predicate MajorVersionMatch(kitchen: string, production: string) {
    if kitchen == "" || production == "" then false
    else if '.' in kitchen then
      production == kitchen || (HasPrefix(production, kitchen) && production[|kitchen|] == '.')
    else
      var dot := FirstIndex(production, '.');
      kitchen == if dot > 0 then production[..dot] else production
  }

  /** The first dot, whatever the search that finds it. */
  lemma FirstIndexIs(s: string, c: char, i: nat)
    requires i < |s| && s[i] == c && c !in s[..i]
    ensures FirstIndex(s, c) == i
  {
  }

  lemma LastIndexIs(s: string, c: char, i: nat)
    requires i < |s| && s[i] == c && c !in s[i + 1..]
    ensures LastIndex(s, c) == i
  {
  }

  /** A kitchen version covers a production version exactly when it is that version or the
      start of it up to a dot, whether or not it has a dot itself. */
  lemma VersionMatchIsDottedPrefix(kitchen: string, production: string)
    requires kitchen != ""
    ensures MajorVersionMatch(kitchen, production) <==> production == kitchen || HasPrefix(production, kitchen + ".")
  {
    PrefixThenDot(kitchen, production);
    if '.' !in kitchen && HasPrefix(production, kitchen + ".") {
      FirstIndexIs(production, '.', |kitchen|);
    }
    var dot := FirstIndex(production, '.');
    if dot > 0 && '.' !in kitchen { PrefixThenDot(production[..dot], production); }
  }

  lemma PrefixThenDot(prefix: string, s: string)
    ensures HasPrefix(s, prefix + ".") <==> HasPrefix(s, prefix) && |prefix| < |s| && s[|prefix|] == '.'
  {
  }

  /** The three rules: same system and version, same system and major version, or the
      platform's family. `lower` is the lower-casing of names. */
  predicate Rules(lower: string -> string, os: string, version: string, p: Platform) {
    || (os == lower(p.platform) && version == p.version)
    || (os == lower(p.platform) && MajorVersionMatch(version, p.version))
    || os == lower(p.family)
  }

  predicate Matches(lower: string -> string, kitchenName: string, p: Platform) {
    var parsed := ParseKitchenName(kitchenName);
    parsed.Some? && Rules(lower, lower(parsed.value.0), parsed.value.1, p)
  }

  /** A kitchen name and a version it can be split into: the non-empty parts around its last
      hyphen. */
  predicate SplitsInto(name: string, os: string, version: string) {
    os != "" && version != "" && name == os + "-" + version && '-' !in version
  }

  predicate SameName(lower: string -> string, a: string, b: string) { lower(a) == lower(b) }

  /** The system is the platform's family, whatever the version, or it is the platform itself
      and the version is the platform's or the start of it up to a dot. */
  predicate Fits(lower: string -> string, os: string, version: string, p: Platform) {
    || SameName(lower, os, p.family)
    || (SameName(lower, os, p.platform) && (p.version == version || HasPrefix(p.version, version + ".")))
  }

  /** A kitchen name matches a platform exactly when it splits into a system and a version that
      fit it. */
  lemma MatchMeans(lower: string -> string, name: string, p: Platform)
    ensures Matches(lower, name, p) <==> exists os, version :: SplitsInto(name, os, version) && Fits(lower, os, version, p)
  {
    var parsed := ParseKitchenName(name);
    if parsed.Some? {
      var (os, version) := parsed.value;
      VersionMatchIsDottedPrefix(version, p.version);
      assert Fits(lower, os, version, p) <==> Rules(lower, lower(os), version, p);
      assert SplitsInto(name, os, version);
    }
    if os, version :| SplitsInto(name, os, version) && Fits(lower, os, version, p) {
      KitchenNameSplitsIff(name, os, version);
    }
  }

  predicate Covered(lower: string -> string, kitchen: seq<string>, p: Platform) {
    exists i :: 0 <= i < |kitchen| && Matches(lower, kitchen[i], p)
  }

  function Hits(lower: string -> string, kitchen: seq<string>, p: Platform): seq<bool> {
    seq(|kitchen|, i requires 0 <= i < |kitchen| => Matches(lower, kitchen[i], p))
  }

  function FirstTrue(hits: seq<bool>): (i: nat)
    ensures i <= |hits| && (i < |hits| ==> hits[i]) && forall j :: 0 <= j < i ==> !hits[j]
  {
    if hits == [] || hits[0] then 0 else 1 + FirstTrue(hits[1..])
  }

  /** The first kitchen name that matches the platform; their number when none does. */
  function FirstMatch(lower: string -> string, kitchen: seq<string>, p: Platform): (i: nat)
    ensures i <= |kitchen|
    ensures i < |kitchen| ==> Matches(lower, kitchen[i], p)
    ensures forall j :: 0 <= j < i ==> !Matches(lower, kitchen[j], p)
  {
    var hits := Hits(lower, kitchen, p);
    assert forall j :: 0 <= j < |kitchen| ==> hits[j] == Matches(lower, kitchen[j], p);
    FirstTrue(hits)
  }

  /** That index for each production platform. */
  function Firsts(lower: string -> string, kitchen: seq<string>, prods: seq<Platform>): (firsts: seq<nat>)
    ensures |firsts| == |prods|
  {
    if prods == [] then []
    else Firsts(lower, kitchen, prods[..|prods| - 1]) + [FirstMatch(lower, kitchen, prods[|prods| - 1])]
  }

  lemma {:induction false} FirstsAt(lower: string -> string, kitchen: seq<string>, prods: seq<Platform>, pi: nat)
    requires pi < |prods|
    ensures Firsts(lower, kitchen, prods)[pi] == FirstMatch(lower, kitchen, prods[pi])
  {
    if pi < |prods| - 1 { FirstsAt(lower, kitchen, prods[..|prods| - 1], pi); }
  }

  // ---------------------------------------------------------------------------
  // What the report should say, given which name is first for each platform
  // ---------------------------------------------------------------------------

  function CreditFor(kitchenName: string, p: Platform): Credit {
    Credit(kitchenName, p.platform, p.version, p.nodes)
  }

  /** The platforms for which kitchen name number `ki` is the first. */
  function Row(name: string, ki: nat, prods: seq<Platform>, firsts: seq<nat>): seq<Credit>
    requires |firsts| == |prods|
  {
    if prods == [] then []
    else
      var n := |prods| - 1;
      Row(name, ki, prods[..n], firsts[..n]) + if firsts[n] == ki then [CreditFor(name, prods[n])] else []
  }

  /** The credits of all kitchen names, in their order. */
  function Credits(kitchen: seq<string>, prods: seq<Platform>, firsts: seq<nat>): seq<Credit>
    requires |firsts| == |prods|
  {
    if kitchen == [] then []
    else
      var ki := |kitchen| - 1;
      Credits(kitchen[..ki], prods, firsts) + Row(kitchen[ki], ki, prods, firsts)
  }

  /** Kitchen names that are first for no platform. */
  function Unmatched(kitchen: seq<string>, firsts: seq<nat>): seq<string> {
    if kitchen == [] then []
    else
      var ki := |kitchen| - 1;
      Unmatched(kitchen[..ki], firsts) + if ki in firsts then [] else [kitchen[ki]]
  }

  /** Platforms for which no kitchen name is first. */
  function Gaps(names: nat, prods: seq<Platform>, firsts: seq<nat>): seq<Platform>
    requires |firsts| == |prods|
  {
    if prods == [] then []
    else
      var n := |prods| - 1;
      Gaps(names, prods[..n], firsts[..n]) + if firsts[n] < names then [] else [prods[n]]
  }

  function CreditNodes(credits: seq<Credit>): int {
    if credits == [] then 0 else CreditNodes(credits[..|credits| - 1]) + credits[|credits| - 1].nodes
  }

  function Nodes(prods: seq<Platform>): int {
    if prods == [] then 0 else Nodes(prods[..|prods| - 1]) + prods[|prods| - 1].nodes
  }

  /** Nearest integer, halves away from zero. */
  function Round(x: real): int { if x >= 0.0 then (x + 0.5).Floor else -((-x + 0.5).Floor) }

  /** Percentage to one decimal; none when there are no production nodes. */
  function Percentage(covered: int, total: int): real {
    if total > 0 then Round(covered as real / total as real * 100.0 * 10.0) as real / 10.0 else 0.0
  }

  // ---------------------------------------------------------------------------
  // The computation
  // ---------------------------------------------------------------------------

  /** Whether name `ki` is first for a platform no earlier name matches is what matching it
      decides. */
  ghost predicate DecidedBy(lower: string -> string, name: string, ki: nat, prods: seq<Platform>, firsts: seq<nat>) {
    |firsts| == |prods| &&
    forall pi {:trigger Matches(lower, name, prods[pi])} :: 0 <= pi < |prods| && firsts[pi] >= ki ==>
      (firsts[pi] == ki <==> Matches(lower, name, prods[pi]))
  }

  ghost predicate Decided(lower: string -> string, kitchen: seq<string>, prods: seq<Platform>, firsts: seq<nat>) {
    |firsts| == |prods| &&
    forall ki :: 0 <= ki < |kitchen| ==> DecidedBy(lower, kitchen[ki], ki, prods, firsts)
  }

  lemma FirstsDecide(lower: string -> string, kitchen: seq<string>, prods: seq<Platform>)
    ensures Decided(lower, kitchen, prods, Firsts(lower, kitchen, prods))
  {
    var firsts := Firsts(lower, kitchen, prods);
    forall ki, pi | 0 <= ki < |kitchen| && 0 <= pi < |prods| && firsts[pi] >= ki
      ensures firsts[pi] == ki <==> Matches(lower, kitchen[ki], prods[pi])
    {
      FirstsAt(lower, kitchen, prods, pi);
    }
  }

  ghost predicate CoversUpTo(covered: seq<bool>, firsts: seq<nat>, ki: nat) {
    |covered| == |firsts| && forall pi :: 0 <= pi < |covered| ==> (covered[pi] <==> firsts[pi] < ki)
  }

  /** The platforms below `pi` have been seen with name `ki`, the others not yet. */
  ghost predicate CoversPartly(covered: seq<bool>, firsts: seq<nat>, ki: nat, pi: nat) {
    |covered| == |firsts| &&
    forall j :: 0 <= j < |covered| ==> (covered[j] <==> firsts[j] < ki || (j < pi && firsts[j] == ki))
  }

  /** Whether the name matches platform `pi`, hence is first for it. */
  method MatchesHere(lower: string -> string, name: string, ghost ki: nat, prods: seq<Platform>, ghost firsts: seq<nat>,
                     pi: nat)
    returns (matched: bool)
    requires DecidedBy(lower, name, ki, prods, firsts) && pi < |prods| && firsts[pi] >= ki
    ensures matched <==> firsts[pi] == ki
  {
    matched := Matches(lower, name, prods[pi]);
  }

  /** One kitchen name against the platforms not covered yet. */
  method MatchOne(lower: string -> string, name: string, ghost ki: nat, prods: seq<Platform>, ghost firsts: seq<nat>,
                  covered: array<bool>)
    returns (credits: seq<Credit>, nodes: int)
    requires DecidedBy(lower, name, ki, prods, firsts) && CoversUpTo(covered[..], firsts, ki)
    modifies covered
    ensures CoversUpTo(covered[..], firsts, ki + 1)
    ensures credits == Row(name, ki, prods, firsts) && nodes == CreditNodes(credits)
  {
    credits, nodes := [], 0;
    for pi := 0 to |prods|
      invariant CoversPartly(covered[..], firsts, ki, pi)
      invariant credits == Row(name, ki, prods[..pi], firsts[..pi]) && nodes == CreditNodes(credits)
    {
      RowStep(name, ki, prods, firsts, pi);
      if covered[pi] {
        continue;
      }
      var matched := MatchesHere(lower, name, ki, prods, firsts, pi);
      if matched {
        covered[pi] := true;
        credits := credits + [CreditFor(name, prods[pi])];
        nodes := nodes + prods[pi].nodes;
      }
    }
    assert prods[..|prods|] == prods && firsts[..|prods|] == firsts;
  }

  lemma RowStep(name: string, ki: nat, prods: seq<Platform>, firsts: seq<nat>, pi: nat)
    requires |firsts| == |prods| && pi < |prods|
    ensures var row, longer := Row(name, ki, prods[..pi], firsts[..pi]), Row(name, ki, prods[..pi + 1], firsts[..pi + 1]);
            var credit := CreditFor(name, prods[pi]);
            longer == (if firsts[pi] == ki then row + [credit] else row) &&
            CreditNodes(row + [credit]) == CreditNodes(row) + prods[pi].nodes
  {
    assert prods[..pi + 1][..pi] == prods[..pi] && firsts[..pi + 1][..pi] == firsts[..pi];
    var row, credit := Row(name, ki, prods[..pi], firsts[..pi]), CreditFor(name, prods[pi]);
    assert (row + [credit])[..|row|] == row;
  }

  /** Of the first `ki` kitchen names those are marked that are first for some platform, and
      of the others none. */
  ghost predicate MarkedUpTo(matched: seq<bool>, firsts: seq<nat>, ki: nat) {
    forall k :: 0 <= k < |matched| ==> (matched[k] <==> k < ki && k in firsts)
  }

  method MatchAndMark(lower: string -> string, name: string, ki: nat, prods: seq<Platform>, ghost firsts: seq<nat>,
                      covered: array<bool>, kitchenMatched: array<bool>)
    returns (credits: seq<Credit>, nodes: int)
    requires DecidedBy(lower, name, ki, prods, firsts) && CoversUpTo(covered[..], firsts, ki)
    requires ki < kitchenMatched.Length && MarkedUpTo(kitchenMatched[..], firsts, ki) && covered != kitchenMatched
    modifies covered, kitchenMatched
    ensures CoversUpTo(covered[..], firsts, ki + 1) && MarkedUpTo(kitchenMatched[..], firsts, ki + 1)
    ensures credits == Row(name, ki, prods, firsts) && nodes == CreditNodes(credits)
  {
    credits, nodes := MatchOne(lower, name, ki, prods, firsts, covered);
    RowIsEmptyIff(name, ki, prods, firsts);
    if |credits| > 0 {
      kitchenMatched[ki] := true;
    }
  }

  lemma CreditsStep(kitchen: seq<string>, prods: seq<Platform>, firsts: seq<nat>, ki: nat)
    requires |firsts| == |prods| && ki < |kitchen|
    ensures var credits, row := Credits(kitchen[..ki], prods, firsts), Row(kitchen[ki], ki, prods, firsts);
            && Credits(kitchen[..ki + 1], prods, firsts) == credits + row
            && CreditNodes(credits + row) == CreditNodes(credits) + CreditNodes(row)
  {
    assert kitchen[..ki + 1][..ki] == kitchen[..ki];
    CreditNodesAppend(Credits(kitchen[..ki], prods, firsts), Row(kitchen[ki], ki, prods, firsts));
  }

  /** The nested loops: every kitchen name in turn. */
  method MatchAll(lower: string -> string, kitchen: seq<string>, prods: seq<Platform>, ghost firsts: seq<nat>,
                  covered: array<bool>, kitchenMatched: array<bool>)
    returns (tested: seq<Credit>, coveredNodes: int)
    requires Decided(lower, kitchen, prods, firsts)
    requires CoversUpTo(covered[..], firsts, 0) && |kitchen| == kitchenMatched.Length
    requires MarkedUpTo(kitchenMatched[..], firsts, 0) && covered != kitchenMatched
    modifies covered, kitchenMatched
    ensures CoversUpTo(covered[..], firsts, |kitchen|) && MarkedUpTo(kitchenMatched[..], firsts, |kitchen|)
    ensures tested == Credits(kitchen, prods, firsts) && coveredNodes == CreditNodes(tested)
  {
    tested, coveredNodes := [], 0;
    for ki := 0 to |kitchen|
      invariant CoversUpTo(covered[..], firsts, ki) && MarkedUpTo(kitchenMatched[..], firsts, ki)
      invariant tested == Credits(kitchen[..ki], prods, firsts) && coveredNodes == CreditNodes(tested)
    {
      var credits, nodes := MatchAndMark(lower, kitchen[ki], ki, prods, firsts, covered, kitchenMatched);
      CreditsStep(kitchen, prods, firsts, ki);
      tested, coveredNodes := tested + credits, coveredNodes + nodes;
    }
    assert kitchen[..|kitchen|] == kitchen;
  }

  method ComputeCoverage(lower: string -> string, kitchen: seq<string>, prods: seq<Platform>) returns (r: Report)
    ensures var firsts := Firsts(lower, kitchen, prods);
            && r.tested == Credits(kitchen, prods, firsts)
            && r.testedNotInProd == Unmatched(kitchen, firsts)
            && r.inProdNotTested == Gaps(|kitchen|, prods, firsts)
    ensures r.coveredNodes == CreditNodes(r.tested) && r.totalNodes == Nodes(prods)
    ensures r.gapCount == |r.inProdNotTested| && r.percentage == Percentage(r.coveredNodes, r.totalNodes)
  {
    r := Report([], [], [], 0, 0, 0, 0.0);
    if |kitchen| == 0 && |prods| == 0 {
      return;
    }
    ghost var firsts := Firsts(lower, kitchen, prods);
    FirstsDecide(lower, kitchen, prods);
    var covered := new bool[|prods|](_ => false);
    var kitchenMatched := new bool[|kitchen|](_ => false);
    var tested, coveredNodes := MatchAll(lower, kitchen, prods, firsts, covered, kitchenMatched);
    var notInProd := ListUnmatched(kitchen, kitchenMatched, firsts);
    var gaps, total := ListGaps(|kitchen|, prods, covered, firsts);
    var percentage := PercentageOf(coveredNodes, total);
    r := Report(tested, notInProd, gaps, |gaps|, total, coveredNodes, percentage);
  }

  method PercentageOf(coveredNodes: int, total: int) returns (percentage: real)
    ensures percentage == Percentage(coveredNodes, total)
  {
    percentage := 0.0;
    if total > 0 {
      var percent := coveredNodes as real / total as real * 100.0;
      percentage := Round(percent * 10.0) as real / 10.0;
    }
  }

  method ListUnmatched(kitchen: seq<string>, kitchenMatched: array<bool>, ghost firsts: seq<nat>)
    returns (notInProd: seq<string>)
    requires kitchenMatched.Length == |kitchen| && MarkedUpTo(kitchenMatched[..], firsts, |kitchen|)
    ensures notInProd == Unmatched(kitchen, firsts)
  {
    notInProd := [];
    for ki := 0 to |kitchen|
      invariant notInProd == Unmatched(kitchen[..ki], firsts)
    {
      assert kitchen[..ki + 1][..ki] == kitchen[..ki];
      assert kitchenMatched[..][ki] == kitchenMatched[ki];
      if !kitchenMatched[ki] {
        notInProd := notInProd + [kitchen[ki]];
      }
    }
    assert kitchen[..|kitchen|] == kitchen;
  }

  method ListGaps(ghost names: nat, prods: seq<Platform>, covered: array<bool>, ghost firsts: seq<nat>)
    returns (gaps: seq<Platform>, total: int)
    requires |firsts| == |prods| && CoversUpTo(covered[..], firsts, names)
    ensures gaps == Gaps(names, prods, firsts) && total == Nodes(prods)
  {
    gaps, total := [], 0;
    for pi := 0 to |prods|
      invariant gaps == Gaps(names, prods[..pi], firsts[..pi]) && total == Nodes(prods[..pi])
    {
      assert prods[..pi + 1][..pi] == prods[..pi] && firsts[..pi + 1][..pi] == firsts[..pi];
      assert covered[..][pi] == covered[pi];
      if !covered[pi] {
        gaps := gaps + [prods[pi]];
      }
      total := total + prods[pi].nodes;
    }
    assert prods[..|prods|] == prods && firsts[..|prods|] == firsts;
  }

  lemma {:induction false} RowIsEmptyIff(name: string, ki: nat, prods: seq<Platform>, firsts: seq<nat>)
    requires |firsts| == |prods|
    ensures Row(name, ki, prods, firsts) != [] <==> ki in firsts
  {
    if prods != [] {
      var n := |prods| - 1;
      RowIsEmptyIff(name, ki, prods[..n], firsts[..n]);
      assert firsts == firsts[..n] + [firsts[n]];
    }
  }

  lemma {:induction false} CreditNodesAppend(a: seq<Credit>, b: seq<Credit>)
    ensures CreditNodes(a + b) == CreditNodes(a) + CreditNodes(b)
  {
    if b == [] {
      assert a + b == a;
    } else {
      CreditNodesAppend(a, b[..|b| - 1]);
      assert (a + b)[..|a + b| - 1] == a + b[..|b| - 1];
    }
  }

  // ---------------------------------------------------------------------------
  // Coverage partitions production
  // ---------------------------------------------------------------------------

  /** A platform adds one credit, to the kitchen name that is first for it, or none. */
  lemma {:induction false} OneMorePlatform(kitchen: seq<string>, prods: seq<Platform>, firsts: seq<nat>)
    requires |firsts| == |prods| > 0
    ensures var n := |prods| - 1;
            var credits, before := Credits(kitchen, prods, firsts), Credits(kitchen, prods[..n], firsts[..n]);
            var hit := firsts[n] < |kitchen|;
            && |credits| == |before| + (if hit then 1 else 0)
            && CreditNodes(credits) == CreditNodes(before) + (if hit then prods[n].nodes else 0)
  {
    if kitchen != [] {
      var n, ki := |prods| - 1, |kitchen| - 1;
      OneMorePlatform(kitchen[..ki], prods, firsts);
      var row := Row(kitchen[ki], ki, prods[..n], firsts[..n]);
      var more := if firsts[n] == ki then [CreditFor(kitchen[ki], prods[n])] else [];
      CreditNodesAppend(Credits(kitchen[..ki], prods[..n], firsts[..n]), row);
      CreditNodesAppend(Credits(kitchen[..ki], prods, firsts), row + more);
      CreditNodesAppend(row, more);
      assert more != [] ==> more[..0] == [];
    }
  }

  lemma {:induction false} NoPlatforms(kitchen: seq<string>)
    ensures Credits(kitchen, [], []) == []
  {
    if kitchen != [] { NoPlatforms(kitchen[..|kitchen| - 1]); }
  }

  lemma {:induction false} Partition(kitchen: seq<string>, prods: seq<Platform>, firsts: seq<nat>)
    requires |firsts| == |prods|
    ensures |Credits(kitchen, prods, firsts)| + |Gaps(|kitchen|, prods, firsts)| == |prods|
    ensures CreditNodes(Credits(kitchen, prods, firsts)) + Nodes(Gaps(|kitchen|, prods, firsts)) == Nodes(prods)
  {
    if prods == [] {
      assert prods == [] && firsts == [];
      NoPlatforms(kitchen);
    } else {
      var n := |prods| - 1;
      Partition(kitchen, prods[..n], firsts[..n]);
      OneMorePlatform(kitchen, prods, firsts);
      var gaps := Gaps(|kitchen|, prods[..n], firsts[..n]);
      assert (gaps + [prods[n]])[..|gaps|] == gaps;
      assert Gaps(|kitchen|, prods, firsts) == if firsts[n] < |kitchen| then gaps else gaps + [prods[n]];
    }
  }

  lemma {:induction false} GapsAre(names: nat, prods: seq<Platform>, firsts: seq<nat>, p: Platform)
    requires |firsts| == |prods|
    ensures p in Gaps(names, prods, firsts) <==> exists pi :: 0 <= pi < |prods| && prods[pi] == p && firsts[pi] >= names
  {
    if prods != [] {
      var n := |prods| - 1;
      GapsAre(names, prods[..n], firsts[..n], p);
      if pi: nat :| pi < n && prods[pi] == p && firsts[pi] >= names {
        assert prods[..n][pi] == p && firsts[..n][pi] >= names;
      }
    }
  }

  /** Every production platform is either credited once or a gap, never both and never
      neither; the gaps are exactly the platforms that no kitchen name matches; and the nodes
      of the credited and of the gaps add up to all of them. */
  lemma CoveragePartitions(lower: string -> string, kitchen: seq<string>, prods: seq<Platform>)
    ensures var firsts := Firsts(lower, kitchen, prods);
            && |Credits(kitchen, prods, firsts)| + |Gaps(|kitchen|, prods, firsts)| == |prods|
            && CreditNodes(Credits(kitchen, prods, firsts)) + Nodes(Gaps(|kitchen|, prods, firsts)) == Nodes(prods)
    ensures forall p :: p in Gaps(|kitchen|, prods, Firsts(lower, kitchen, prods)) <==>
                        p in prods && !Covered(lower, kitchen, p)
  {
    var firsts := Firsts(lower, kitchen, prods);
    Partition(kitchen, prods, firsts);
    forall p ensures p in Gaps(|kitchen|, prods, firsts) <==> p in prods && !Covered(lower, kitchen, p) {
      GapsAre(|kitchen|, prods, firsts, p);
      CoveredIffFirst(lower, kitchen, p);
      forall pi | 0 <= pi < |prods| ensures firsts[pi] == FirstMatch(lower, kitchen, prods[pi]) {
        FirstsAt(lower, kitchen, prods, pi);
      }
    }
  }

  lemma CoveredIffFirst(lower: string -> string, kitchen: seq<string>, p: Platform)
    ensures Covered(lower, kitchen, p) <==> FirstMatch(lower, kitchen, p) < |kitchen|
  {
  }

  lemma {:induction false} RowHas(name: string, ki: nat, prods: seq<Platform>, firsts: seq<nat>, c: Credit)
    requires |firsts| == |prods|
    ensures c in Row(name, ki, prods, firsts) <==>
            exists pi :: 0 <= pi < |prods| && firsts[pi] == ki && c == CreditFor(name, prods[pi])
  {
    if prods != [] {
      var n := |prods| - 1;
      RowHas(name, ki, prods[..n], firsts[..n], c);
      if pi: nat :| pi < n && firsts[pi] == ki && c == CreditFor(name, prods[pi]) {
        assert firsts[..n][pi] == ki && c == CreditFor(name, prods[..n][pi]);
      }
    }
  }

  /** `c` credits platform number `pi` to the kitchen name that is first for it. */
  ghost predicate CreditsPlatform(c: Credit, kitchen: seq<string>, prods: seq<Platform>, firsts: seq<nat>, pi: nat) {
    pi < |prods| == |firsts| && firsts[pi] < |kitchen| && c == CreditFor(kitchen[firsts[pi]], prods[pi])
  }

  lemma {:induction false} CreditsHave(kitchen: seq<string>, prods: seq<Platform>, firsts: seq<nat>, c: Credit)
    requires |firsts| == |prods|
    ensures c in Credits(kitchen, prods, firsts) <==> exists pi: nat :: CreditsPlatform(c, kitchen, prods, firsts, pi)
  {
    if kitchen != [] {
      var ki := |kitchen| - 1;
      CreditsHave(kitchen[..ki], prods, firsts, c);
      RowHas(kitchen[ki], ki, prods, firsts, c);
      forall pi: nat | pi < |prods|
        ensures CreditsPlatform(c, kitchen, prods, firsts, pi) <==>
                || CreditsPlatform(c, kitchen[..ki], prods, firsts, pi)
                || (firsts[pi] == ki && c == CreditFor(kitchen[ki], prods[pi]))
      {
      }
    }
  }

  /** The kitchen name matches the platform and no earlier one does. */
  predicate IsFirstFor(lower: string -> string, kitchen: seq<string>, ki: nat, p: Platform) {
    ki < |kitchen| && Matches(lower, kitchen[ki], p) && forall k :: 0 <= k < ki ==> !Matches(lower, kitchen[k], p)
  }

  /** The credit names platform `pi`, its version and its nodes, and the first kitchen name that
      matches it. */
  predicate CreditsFirst(lower: string -> string, kitchen: seq<string>, prods: seq<Platform>, c: Credit, ki: nat, pi: nat) {
    && ki < |kitchen| && pi < |prods| && IsFirstFor(lower, kitchen, ki, prods[pi])
    && c == Credit(kitchen[ki], prods[pi].platform, prods[pi].version, prods[pi].nodes)
  }

  lemma FirstCredited(lower: string -> string, kitchen: seq<string>, prods: seq<Platform>, c: Credit, pi: nat)
    requires pi < |prods|
    ensures CreditsPlatform(c, kitchen, prods, Firsts(lower, kitchen, prods), pi) <==>
            CreditsFirst(lower, kitchen, prods, c, FirstMatch(lower, kitchen, prods[pi]), pi)
    ensures forall ki: nat :: IsFirstFor(lower, kitchen, ki, prods[pi]) ==> ki == FirstMatch(lower, kitchen, prods[pi])
  {
    FirstsAt(lower, kitchen, prods, pi);
  }

  /** What is credited is exactly this: each production platform that some kitchen name
      matches, to the first name that does. */
  lemma CreditsGoToFirst(lower: string -> string, kitchen: seq<string>, prods: seq<Platform>, c: Credit)
    ensures c in Credits(kitchen, prods, Firsts(lower, kitchen, prods)) <==>
            exists ki: nat, pi: nat :: CreditsFirst(lower, kitchen, prods, c, ki, pi)
  {
    var firsts := Firsts(lower, kitchen, prods);
    CreditsHave(kitchen, prods, firsts, c);
    if pi: nat :| CreditsPlatform(c, kitchen, prods, firsts, pi) {
      FirstCredited(lower, kitchen, prods, c, pi);
    }
    if ki: nat, pi: nat :| CreditsFirst(lower, kitchen, prods, c, ki, pi) {
      FirstCredited(lower, kitchen, prods, c, pi);
    }
  }

  /** The credits belong to the given pairs of a kitchen name and a platform it is first for;
      the pairs ascend, by name and then by platform. */
  ghost predicate CreditedInOrder(kitchen: seq<string>, prods: seq<Platform>, firsts: seq<nat>, credits: seq<Credit>, pairs: seq<(nat, nat)>) {
    && |firsts| == |prods| && |pairs| == |credits|
    && (forall k :: 0 <= k < |pairs| ==> CreditsPlatform(credits[k], kitchen, prods, firsts, pairs[k].1) && firsts[pairs[k].1] == pairs[k].0)
    && (forall k, l :: 0 <= k < l < |pairs| ==> PairBefore(pairs[k], pairs[l]))
  }

  predicate PairBefore(a: (nat, nat), b: (nat, nat)) { a.0 < b.0 || (a.0 == b.0 && a.1 < b.1) }

  lemma RowInOrder(kitchen: seq<string>, ki: nat, prods: seq<Platform>, firsts: seq<nat>, count: nat) returns (pairs: seq<(nat, nat)>)
    requires |firsts| == |prods| && ki < |kitchen| && count <= |prods|
    ensures CreditedInOrder(kitchen, prods, firsts, Row(kitchen[ki], ki, prods[..count], firsts[..count]), pairs)
    ensures forall k :: 0 <= k < |pairs| ==> pairs[k].0 == ki && pairs[k].1 < count
  {
    pairs := [];
    if count > 0 {
      var n := count - 1;
      pairs := RowInOrder(kitchen, ki, prods, firsts, n);
      RowStep(kitchen[ki], ki, prods, firsts, n);
      if firsts[n] == ki {
        assert CreditsPlatform(CreditFor(kitchen[ki], prods[n]), kitchen, prods, firsts, n);
        pairs := pairs + [(ki, n)];
      }
    }
  }

  /** Credits come by kitchen name and within one by platform, both in their given order. */
  lemma {:induction false} CreditsInOrder(kitchen: seq<string>, prods: seq<Platform>, firsts: seq<nat>, names: nat)
    returns (pairs: seq<(nat, nat)>)
    requires |firsts| == |prods| && names <= |kitchen|
    ensures CreditedInOrder(kitchen, prods, firsts, Credits(kitchen[..names], prods, firsts), pairs)
    ensures forall k :: 0 <= k < |pairs| ==> pairs[k].0 < names
  {
    pairs := [];
    if names > 0 {
      var ki := names - 1;
      var front := CreditsInOrder(kitchen, prods, firsts, ki);
      var row := RowInOrder(kitchen, ki, prods, firsts, |prods|);
      assert prods[..|prods|] == prods && firsts[..|prods|] == firsts;
      assert kitchen[..names][..ki] == kitchen[..ki];
      pairs := front + row;
    }
  }

  /** Which platforms no name is first for. */
  function Missed(names: nat, firsts: seq<nat>): (r: seq<bool>)
    ensures |r| == |firsts| && forall i :: 0 <= i < |r| ==> r[i] == (firsts[i] >= names)
  {
    seq(|firsts|, i requires 0 <= i < |firsts| => firsts[i] >= names)
  }

  /** Gaps are all the platforms that no name is first for, in their order. */
  lemma {:induction false} GapsInOrder(names: nat, prods: seq<Platform>, firsts: seq<nat>) returns (at: seq<nat>)
    requires |firsts| == |prods|
    ensures Picks(prods, Missed(names, firsts), Gaps(names, prods, firsts), at)
  {
    at := [];
    if prods != [] {
      var n := |prods| - 1;
      var front := GapsInOrder(names, prods[..n], firsts[..n]);
      PicksNext(prods[..n], Missed(names, firsts[..n]), Gaps(names, prods[..n], firsts[..n]), front, prods[n]);
      assert prods == prods[..n] + [prods[n]];
      assert Missed(names, firsts) == Missed(names, firsts[..n]) + [firsts[n] >= names];
      at := if firsts[n] >= names then front + [n] else front;
    }
  }

  /** Which of the kitchen names are first for no platform. */
  function FirstForNone(names: nat, firsts: seq<nat>): (r: seq<bool>)
    ensures |r| == names && forall i :: 0 <= i < names ==> r[i] == (i !in firsts)
  {
    seq(names, i requires 0 <= i < names => i !in firsts)
  }

  /** Unmatched names are all that are first for no platform, in their order. */
  lemma {:induction false} UnmatchedInOrder(kitchen: seq<string>, firsts: seq<nat>) returns (at: seq<nat>)
    ensures Picks(kitchen, FirstForNone(|kitchen|, firsts), Unmatched(kitchen, firsts), at)
  {
    at := [];
    if kitchen != [] {
      var n := |kitchen| - 1;
      var front := UnmatchedInOrder(kitchen[..n], firsts);
      PicksNext(kitchen[..n], FirstForNone(n, firsts), Unmatched(kitchen[..n], firsts), front, kitchen[n]);
      assert kitchen == kitchen[..n] + [kitchen[n]];
      assert FirstForNone(n + 1, firsts) == FirstForNone(n, firsts) + [n !in firsts];
      at := if n in firsts then front else front + [n];
    }
  }

  /** The order of the kitchen names changes who is credited, never what is covered: gaps,
      number of credits and covered nodes stay the same. */
  lemma CoverageIgnoresKitchenOrder(lower: string -> string, a: seq<string>, b: seq<string>, prods: seq<Platform>)
    requires forall name :: name in a <==> name in b
    ensures var fa, fb := Firsts(lower, a, prods), Firsts(lower, b, prods);
            && Gaps(|a|, prods, fa) == Gaps(|b|, prods, fb)
            && |Credits(a, prods, fa)| == |Credits(b, prods, fb)|
            && CreditNodes(Credits(a, prods, fa)) == CreditNodes(Credits(b, prods, fb))
  {
    SameGaps(lower, a, b, prods);
    Partition(a, prods, Firsts(lower, a, prods));
    Partition(b, prods, Firsts(lower, b, prods));
  }

  lemma CoveredBySameNames(lower: string -> string, a: seq<string>, b: seq<string>, p: Platform)
    requires forall name :: name in a ==> name in b
    ensures Covered(lower, a, p) ==> Covered(lower, b, p)
  {
    if i :| 0 <= i < |a| && Matches(lower, a[i], p) {
      assert a[i] in b;
      var j :| 0 <= j < |b| && b[j] == a[i];
    }
  }

  lemma {:induction false} SameGaps(lower: string -> string, a: seq<string>, b: seq<string>, prods: seq<Platform>)
    requires forall name :: name in a <==> name in b
    ensures Gaps(|a|, prods, Firsts(lower, a, prods)) == Gaps(|b|, prods, Firsts(lower, b, prods))
  {
    if prods != [] {
      var n := |prods| - 1;
      SameGaps(lower, a, b, prods[..n]);
      CoveredBySameNames(lower, a, b, prods[n]);
      CoveredBySameNames(lower, b, a, prods[n]);
      CoveredIffFirst(lower, a, prods[n]);
      CoveredIffFirst(lower, b, prods[n]);
      assert Firsts(lower, a, prods)[..n] == Firsts(lower, a, prods[..n]);
      assert Firsts(lower, b, prods)[..n] == Firsts(lower, b, prods[..n]);
    }
  }

  // ---------------------------------------------------------------------------
  // The percentage
  // ---------------------------------------------------------------------------

  lemma {:induction false} NodesNonNegative(prods: seq<Platform>)
    requires forall p :: p in prods ==> p.nodes >= 0
    ensures Nodes(prods) >= 0
  {
    if prods != [] {
      assert prods[|prods| - 1] in prods;
      NodesNonNegative(prods[..|prods| - 1]);
    }
  }

  lemma {:induction false} CreditNodesNonNegative(credits: seq<Credit>)
    requires forall c :: c in credits ==> c.nodes >= 0
    ensures CreditNodes(credits) >= 0
  {
    if credits != [] {
      assert credits[|credits| - 1] in credits;
      CreditNodesNonNegative(credits[..|credits| - 1]);
    }
  }

  lemma CoveredWithinTotal(kitchen: seq<string>, prods: seq<Platform>, firsts: seq<nat>)
    requires |firsts| == |prods| && forall p :: p in prods ==> p.nodes >= 0
    ensures 0 <= CreditNodes(Credits(kitchen, prods, firsts)) <= Nodes(prods)
    ensures Gaps(|kitchen|, prods, firsts) == [] ==> CreditNodes(Credits(kitchen, prods, firsts)) == Nodes(prods)
  {
    var credits, gaps := Credits(kitchen, prods, firsts), Gaps(|kitchen|, prods, firsts);
    Partition(kitchen, prods, firsts);
    forall c | c in credits ensures c.nodes >= 0 {
      CreditsHave(kitchen, prods, firsts, c);
      var pi: nat :| CreditsPlatform(c, kitchen, prods, firsts, pi);
      assert prods[pi] in prods;
    }
    forall p | p in gaps ensures p.nodes >= 0 {
      GapsAre(|kitchen|, prods, firsts, p);
    }
    CreditNodesNonNegative(credits);
    NodesNonNegative(gaps);
  }

  lemma ShareOfTotal(covered: real, total: real)
    requires 0.0 <= covered <= total && total > 0.0
    ensures 0.0 <= covered / total <= 1.0
    ensures covered == total ==> covered / total == 1.0
  {
  }

  lemma RoundInRange(x: real)
    requires 0.0 <= x <= 1000.0
    ensures 0 <= Round(x) <= 1000
    ensures x == 1000.0 ==> Round(x) == 1000
  {
  }

  lemma ShareInRange(covered: int, total: int)
    requires 0 <= covered <= total
    ensures 0.0 <= Percentage(covered, total) <= 100.0
    ensures covered == total > 0 ==> Percentage(covered, total) == 100.0
  {
    if total > 0 {
      ShareOfTotal(covered as real, total as real);
      RoundInRange(covered as real / total as real * 100.0 * 10.0);
    }
  }

  /** With non-negative counts the percentage lies between 0 and 100, and is 100 when there
      are no gaps and some nodes. */
  lemma PercentageInRange(lower: string -> string, kitchen: seq<string>, prods: seq<Platform>)
    requires forall p :: p in prods ==> p.nodes >= 0
    ensures var firsts := Firsts(lower, kitchen, prods);
            var covered, total := CreditNodes(Credits(kitchen, prods, firsts)), Nodes(prods);
            && 0 <= covered <= total
            && 0.0 <= Percentage(covered, total) <= 100.0
            && (Gaps(|kitchen|, prods, firsts) == [] && total > 0 ==> Percentage(covered, total) == 100.0)
  {
    var firsts := Firsts(lower, kitchen, prods);
    CoveredWithinTotal(kitchen, prods, firsts);
    ShareInRange(CreditNodes(Credits(kitchen, prods, firsts)), Nodes(prods));
  }

  // ---------------------------------------------------------------------------
  // Names listed as not in production
  // ---------------------------------------------------------------------------

  lemma {:induction false} UnmatchedHas(kitchen: seq<string>, firsts: seq<nat>, name: string)
    ensures name in Unmatched(kitchen, firsts) <==> exists ki :: 0 <= ki < |kitchen| && kitchen[ki] == name && ki !in firsts
  {
    if kitchen != [] {
      var n := |kitchen| - 1;
      UnmatchedHas(kitchen[..n], firsts, name);
      if ki: nat :| ki < n && kitchen[ki] == name && ki !in firsts {
        assert kitchen[..n][ki] == name;
      }
    }
  }

  /** A kitchen name is listed as tested but not in production exactly when every platform it
      matches is matched by an earlier name too, not only when it matches none. */
  lemma ListedNotInProdIff(lower: string -> string, kitchen: seq<string>, prods: seq<Platform>, ki: nat)
    requires ki < |kitchen|
    ensures ki !in Firsts(lower, kitchen, prods) <==>
            forall pi :: 0 <= pi < |prods| && Matches(lower, kitchen[ki], prods[pi]) ==>
              Covered(lower, kitchen[..ki], prods[pi])
  {
    var firsts := Firsts(lower, kitchen, prods);
    forall pi | 0 <= pi < |prods|
      ensures firsts[pi] == ki <==> Matches(lower, kitchen[ki], prods[pi]) && !Covered(lower, kitchen[..ki], prods[pi])
    {
      FirstsAt(lower, kitchen, prods, pi);
      FirstIs(lower, kitchen, prods[pi], ki);
    }
    assert ki in firsts <==> exists pi :: 0 <= pi < |prods| && firsts[pi] == ki;
  }

  lemma FirstIs(lower: string -> string, kitchen: seq<string>, p: Platform, ki: nat)
    requires ki < |kitchen|
    ensures FirstMatch(lower, kitchen, p) == ki <==> Matches(lower, kitchen[ki], p) && !Covered(lower, kitchen[..ki], p)
  {
    var first := FirstMatch(lower, kitchen, p);
    if first < ki { assert Matches(lower, kitchen[..ki][first], p); }
  }

  /** So a name can be listed there although production runs what it tests. */
  lemma ListedThoughInProduction(lower: string -> string)
    requires lower("centos") == "centos"
    ensures var p := Platform("centos", "7.9", "rhel", 1);
            var kitchen := ["centos-7", "centos-7.9"];
            Matches(lower, "centos-7.9", p) && "centos-7.9" in Unmatched(kitchen, Firsts(lower, kitchen, [p]))
  {
    var p := Platform("centos", "7.9", "rhel", 1);
    var kitchen := ["centos-7", "centos-7.9"];
    LastIndexIs("centos-7", '-', 6);
    LastIndexIs("centos-7.9", '-', 6);
    assert "centos-7"[..6] == "centos" && "centos-7"[7..] == "7";
    assert "centos-7.9"[..6] == "centos" && "centos-7.9"[7..] == "7.9";
    FirstIndexIs("7.9", '.', 1);
    assert "7.9"[..1] == "7";
    assert Matches(lower, kitchen[0], p) && Matches(lower, kitchen[1], p);
    assert Matches(lower, kitchen[..1][0], p);
    ListedNotInProdIff(lower, kitchen, [p], 1);
    UnmatchedHas(kitchen, Firsts(lower, kitchen, [p]), "centos-7.9");
  }
}
