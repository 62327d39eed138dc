/** Which files count towards a verdict (internal/analysis/scan_scope.go). */
module ScanScope {
  import opened Strings
  import opened Wrappers

  /** A curated or operator-written assertion that a file does not run in a converge. */
  datatype Exclusion = Exclusion(pattern: string, reason: string)

  /** An operator's decision about one pattern; `excluded` false overturns a default. */
  datatype Decision = Decision(pattern: string, excluded: bool, reason: string)

  /** Lexical path cleaning and shell-glob matching, both of the Go standard library. */
  datatype PathRules = PathRules(clean: string -> string, glob: (string, string) -> bool)

  datatype Offense = Offense(
    cop: string, severity: string, message: string, corrected: bool,
    file: string, locationFile: string)

  /** The path an offence was found in, whichever field carries it. */
  function PathOf(o: Offense): string { if o.file != "" then o.file else o.locationFile }

  function ForwardSlashes(path: string): string {
    if path == "" then "" else [if path[0] == '\\' then '/' else path[0]] + ForwardSlashes(path[1..])
  }

  function TrimPrefix(s: string, prefix: string): string {
    if HasPrefix(s, prefix) then s[|prefix|..] else s
  }

  function Normalise(rules: PathRules, path: string): string {
    rules.clean(TrimPrefix(TrimPrefix(ForwardSlashes(path), "./"), "/"))
  }

  // A pattern ending in "/*" covers the directory at any depth; any other is a glob.
  predicate Matches(rules: PathRules, pattern: string, path: string) {
    if pattern == "" then false
    else if |pattern| >= 2 && pattern[|pattern| - 2..] == "/*" then
      var dir := pattern[..|pattern| - 2];
      path == dir || HasPrefix(path, dir + "/")
    else rules.glob(pattern, path)
  }

  /** The first exclusion that covers the path, if any; an empty path is never excluded. */
  method Excluded(rules: PathRules, scope: seq<Exclusion>, path: string) returns (found: Option<Exclusion>)
    ensures found.Some? <==> ExcludesPath(rules, scope, path)
    ensures found.Some? ==>
              exists i :: 0 <= i < |scope| && scope[i] == found.value && FirstMatch(rules, scope, path, i)
  {
    if path == "" {
      return None;
    }
    var norm := Normalise(rules, path);
    if norm == "" {
      return None;
    }
    for i := 0 to |scope|
      invariant forall j :: 0 <= j < i ==> !Matches(rules, scope[j].pattern, norm)
    {
      if Matches(rules, scope[i].pattern, norm) {
        return Some(scope[i]);
      }
    }
    return None;
  }

  /** Entry `i` covers the path and no earlier entry does. */
  predicate FirstMatch(rules: PathRules, scope: seq<Exclusion>, path: string, i: nat)
    requires i < |scope|
  {
    && Matches(rules, scope[i].pattern, Normalise(rules, path))
    && forall j :: 0 <= j < i ==> !Matches(rules, scope[j].pattern, Normalise(rules, path))
  }

  predicate ExcludesPath(rules: PathRules, scope: seq<Exclusion>, path: string) {
    && path != "" && Normalise(rules, path) != ""
    && exists i :: 0 <= i < |scope| && Matches(rules, scope[i].pattern, Normalise(rules, path))
  }

  predicate ExcludesOffense(rules: PathRules, scope: seq<Exclusion>, o: Offense) {
    ExcludesPath(rules, scope, PathOf(o))
  }

  lemma {:induction false} SlashesAppend(a: string, b: string)
    ensures ForwardSlashes(a + b) == ForwardSlashes(a) + ForwardSlashes(b)
  {
    if a == "" {
      assert a + b == b;
    } else {
      SlashesAppend(a[1..], b);
      assert (a + b)[1..] == a[1..] + b;
    }
  }

  lemma {:induction false} SlashesTwice(path: string)
    ensures ForwardSlashes(ForwardSlashes(path)) == ForwardSlashes(path) && |ForwardSlashes(path)| == |path|
  {
    if path != "" {
      SlashesTwice(path[1..]);
      assert ForwardSlashes(path)[1..] == ForwardSlashes(path[1..]);
    }
  }

  /** How a relative path is spelled does not matter: with backslashes, or with "./", "/" or
      both in front, it is excluded or not as it is without. */
  lemma SpellingIgnored(rules: PathRules, scope: seq<Exclusion>, path: string)
    requires path != "" && !HasPrefix(ForwardSlashes(path), "./") && !HasPrefix(ForwardSlashes(path), "/")
    ensures forall spelling :: spelling in {ForwardSlashes(path), "./" + path, "/" + path, ".//" + path} ==>
              ExcludesPath(rules, scope, spelling) == ExcludesPath(rules, scope, path)
  {
    SlashesTwice(path);
    forall front | front in {"./", "/", ".//"} ensures Normalise(rules, front + path) == Normalise(rules, path) {
      PrefixDropped(front, path);
    }
  }

  lemma PrefixDropped(front: string, path: string)
    requires front in {"./", "/", ".//"}
    requires !HasPrefix(ForwardSlashes(path), "./") && !HasPrefix(ForwardSlashes(path), "/")
    ensures TrimPrefix(TrimPrefix(ForwardSlashes(front + path), "./"), "/") == ForwardSlashes(path)
    ensures TrimPrefix(TrimPrefix(ForwardSlashes(path), "./"), "/") == ForwardSlashes(path)
  {
    var plain := ForwardSlashes(path);
    SlashesAppend(front, path);
    SlashesKept(front);
    SlashDropped(plain);
    if front == "./" {
      DotSlashDropped(plain);
    } else if front == ".//" {
      DotSlashDropped("/" + plain);
      assert ".//" + plain == "./" + ("/" + plain);
    }
  }

  lemma SlashDropped(plain: string)
    ensures TrimPrefix("/" + plain, "/") == plain && TrimPrefix("/" + plain, "./") == "/" + plain
  {
    var whole := "/" + plain;
    assert whole[0] == '/' && whole[1..] == plain && whole[..1] == "/";
    if |whole| >= 2 { assert whole[..2][0] == '/'; }
  }

  lemma DotSlashDropped(rest: string)
    ensures TrimPrefix("./" + rest, "./") == rest
  {
    assert ("./" + rest)[..2] == "./" && ("./" + rest)[2..] == rest;
  }

  lemma SlashesKept(front: string)
    requires front in {"./", "/", ".//"}
    ensures ForwardSlashes(front) == front
  {
    assert ForwardSlashes("") == "" && ForwardSlashes("/") == "/";
    assert "//"[1..] == "/" && ForwardSlashes("//") == "//";
    assert "./"[1..] == "/" && ".//"[1..] == "//";
  }

  /** A directory pattern covers the directory and everything under it at any depth, and no
      sibling that merely starts with its name. */
  lemma DirectoryPatternCovers(rules: PathRules, dir: string, path: string)
    ensures Matches(rules, dir + "/*", path) <==> path == dir || exists rest :: path == dir + "/" + rest
  {
    var pattern := dir + "/*";
    assert pattern[|pattern| - 2..] == "/*" && pattern[..|pattern| - 2] == dir;
    if HasPrefix(path, dir + "/") { assert path == dir + "/" + path[|dir| + 1..]; }
    if rest :| path == dir + "/" + rest { assert path[..|dir| + 1] == dir + "/"; }
  }

  /** An offence is judged by its own file where it has one, by its location's otherwise, and
      counts as cookbook code where it has neither. */
  lemma OffencePath(rules: PathRules, scope: seq<Exclusion>, o: Offense, other: string)
    ensures o.file != "" ==> ExcludesOffense(rules, scope, o.(locationFile := other)) == ExcludesOffense(rules, scope, o)
    ensures o.file == "" ==> ExcludesOffense(rules, scope, o.(file := o.locationFile)) == ExcludesOffense(rules, scope, o)
    ensures o.file == "" && o.locationFile == "" ==> !ExcludesOffense(rules, scope, o)
  {
  }

  function Patterns(scope: seq<Exclusion>): set<string> {
    set i | 0 <= i < |scope| :: scope[i].pattern
  }

  /** A list with fewer patterns excludes no more offences. */
  lemma FewerPatternsExcludeLess(rules: PathRules, less: seq<Exclusion>, more: seq<Exclusion>, o: Offense)
    requires Patterns(less) <= Patterns(more)
    requires ExcludesOffense(rules, less, o)
    ensures ExcludesOffense(rules, more, o)
  {
    var norm := Normalise(rules, PathOf(o));
    var i :| 0 <= i < |less| && Matches(rules, less[i].pattern, norm);
    assert less[i].pattern in Patterns(less);
    var j :| 0 <= j < |more| && more[j].pattern == less[i].pattern;
  }

  // ---------------------------------------------------------------------------
  // The operator's decisions laid over the curated list
  // ---------------------------------------------------------------------------

  /** The decision that stands for a pattern: the last row that names it. */
  function Standing(rows: seq<Decision>, pattern: string): (r: Option<Decision>)
    ensures r.Some? ==> r.value in rows && r.value.pattern == pattern
    ensures r.None? ==> forall row :: row in rows ==> row.pattern != pattern
  {
    if rows == [] then None
    else
      assert rows == rows[..|rows| - 1] + [rows[|rows| - 1]];
      if rows[|rows| - 1].pattern == pattern then Some(rows[|rows| - 1])
      else Standing(rows[..|rows| - 1], pattern)
  }

  /** What becomes of a curated exclusion. */
  function Overlaid(rows: seq<Decision>, ex: Exclusion): seq<Exclusion> {
    match Standing(rows, ex.pattern)
    case None => [ex]
    case Some(row) => if row.excluded then [Exclusion(row.pattern, row.reason)] else []
  }

  function OverlaidAll(rows: seq<Decision>, curated: seq<Exclusion>): seq<Exclusion> {
    if curated == [] then []
    else OverlaidAll(rows, curated[..|curated| - 1]) + Overlaid(rows, curated[|curated| - 1])
  }

  /** The operator's own exclusions, for patterns the curated list does not have. */
  function Additions(rows: seq<Decision>, curated: set<string>): seq<Exclusion> {
    if rows == [] then []
    else
      var row := rows[|rows| - 1];
      Additions(rows[..|rows| - 1], curated) +
      if row.pattern in curated || !row.excluded then [] else [Exclusion(row.pattern, row.reason)]
  }

  /** The map holds the standing decision of every pattern that has one. */
  ghost predicate Indexes(decision: map<string, Decision>, rows: seq<Decision>) {
    && (forall p :: p in decision <==> Standing(rows, p).Some?)
    && (forall p :: p in decision ==> Standing(rows, p) == Some(decision[p]))
  }

  method IndexDecisions(rows: seq<Decision>) returns (decision: map<string, Decision>)
    ensures Indexes(decision, rows)
  {
    decision := map[];
    for i := 0 to |rows|
      invariant Indexes(decision, rows[..i])
    {
      assert rows[..i + 1][..i] == rows[..i];
      decision := decision[rows[i].pattern := rows[i]];
    }
    assert rows[..|rows|] == rows;
  }

  lemma PatternsAppend(scope: seq<Exclusion>, ex: Exclusion)
    ensures Patterns(scope + [ex]) == Patterns(scope) + {ex.pattern}
  {
    var all := scope + [ex];
    assert all[|scope|] == ex;
    forall p | p in Patterns(scope) ensures p in Patterns(all) {
      var i :| 0 <= i < |scope| && scope[i].pattern == p;
      assert all[i].pattern == p;
    }
  }

  method Overlay(curated: seq<Exclusion>, decision: map<string, Decision>, ghost rows: seq<Decision>)
    returns (merged: seq<Exclusion>, seen: set<string>)
    requires Indexes(decision, rows)
    ensures merged == OverlaidAll(rows, curated) && seen == Patterns(curated)
  {
    merged, seen := [], {};
    for i := 0 to |curated|
      invariant merged == OverlaidAll(rows, curated[..i]) && seen == Patterns(curated[..i])
    {
      var ex := curated[i];
      PatternsAppend(curated[..i], ex);
      assert curated[..i + 1] == curated[..i] + [ex] && curated[..i + 1][..i] == curated[..i];
      seen := seen + {ex.pattern};
      if ex.pattern !in decision {
        merged := merged + [ex];
      } else if decision[ex.pattern].excluded {
        merged := merged + [Exclusion(decision[ex.pattern].pattern, decision[ex.pattern].reason)];
      }
    }
    assert curated[..|curated|] == curated;
  }

  method AppendAdditions(kept: seq<Exclusion>, rows: seq<Decision>, seen: set<string>) returns (merged: seq<Exclusion>)
    ensures merged == kept + Additions(rows, seen)
  {
    merged := kept;
    for i := 0 to |rows|
      invariant merged == kept + Additions(rows[..i], seen)
    {
      assert rows[..i + 1][..i] == rows[..i];
      if rows[i].pattern !in seen && rows[i].excluded {
        merged := merged + [Exclusion(rows[i].pattern, rows[i].reason)];
      }
    }
    assert rows[..|rows|] == rows;
  }

  method MergeExclusions(curated: seq<Exclusion>, rows: seq<Decision>) returns (merged: seq<Exclusion>)
    ensures merged == OverlaidAll(rows, curated) + Additions(rows, Patterns(curated))
  {
    var decision := IndexDecisions(rows);
    var seen;
    merged, seen := Overlay(curated, decision, rows);
    merged := AppendAdditions(merged, rows, seen);
  }

  lemma {:induction false} OverlaidAllHas(rows: seq<Decision>, curated: seq<Exclusion>, ex: Exclusion)
    ensures ex in OverlaidAll(rows, curated) <==> exists c :: c in curated && ex in Overlaid(rows, c)
  {
    if curated != [] {
      OverlaidAllHas(rows, curated[..|curated| - 1], ex);
      assert curated == curated[..|curated| - 1] + [curated[|curated| - 1]];
    }
  }

  lemma {:induction false} AdditionsHave(rows: seq<Decision>, curated: set<string>, ex: Exclusion)
    ensures ex in Additions(rows, curated) <==> ex.pattern !in curated && Decision(ex.pattern, true, ex.reason) in rows
  {
    if rows != [] {
      AdditionsHave(rows[..|rows| - 1], curated, ex);
      assert rows == rows[..|rows| - 1] + [rows[|rows| - 1]];
    }
  }

  /** The overlay lists exactly the curated exclusions nobody decided about, and the
      operator's exclusions: for a curated pattern the standing one, otherwise any. */
  lemma OverlayIsExact(curated: seq<Exclusion>, rows: seq<Decision>, ex: Exclusion)
    ensures ex in OverlaidAll(rows, curated) + Additions(rows, Patterns(curated)) <==>
            || (ex in curated && Standing(rows, ex.pattern) == None)
            || (ex.pattern in Patterns(curated) && Standing(rows, ex.pattern) == Some(Decision(ex.pattern, true, ex.reason)))
            || (ex.pattern !in Patterns(curated) && Decision(ex.pattern, true, ex.reason) in rows)
  {
    OverlaidAllHas(rows, curated, ex);
    AdditionsHave(rows, Patterns(curated), ex);
    if ex.pattern in Patterns(curated) {
      var i :| 0 <= i < |curated| && curated[i].pattern == ex.pattern;
      assert curated[i] in curated;
    }
    if c :| c in curated && ex in Overlaid(rows, c) {
      var i :| 0 <= i < |curated| && curated[i] == c;
      assert curated[i].pattern in Patterns(curated);
    }
  }

  /** With one row per pattern the operator's word is final in both directions: a pattern
      is in force exactly if the operator excludes it, or the curated list does and the
      operator says nothing. */
  lemma OperatorHasTheLastWord(curated: seq<Exclusion>, rows: seq<Decision>, pattern: string)
    requires forall i, j :: 0 <= i < j < |rows| ==> rows[i].pattern != rows[j].pattern
    ensures pattern in Patterns(OverlaidAll(rows, curated) + Additions(rows, Patterns(curated))) <==>
            || (exists row :: row in rows && row.pattern == pattern && row.excluded)
            || (pattern in Patterns(curated) && forall row :: row in rows ==> row.pattern != pattern)
  {
    if pattern in Patterns(OverlaidAll(rows, curated) + Additions(rows, Patterns(curated))) {
      InForceIsDecided(curated, rows, pattern);
    }
    if row :| row in rows && row.pattern == pattern && row.excluded {
      var i :| 0 <= i < |rows| && rows[i] == row;
      OneRowStands(rows, i);
      InForce(curated, rows, Exclusion(row.pattern, row.reason));
    }
    if pattern in Patterns(curated) && forall row :: row in rows ==> row.pattern != pattern {
      var i :| 0 <= i < |curated| && curated[i].pattern == pattern;
      InForce(curated, rows, curated[i]);
    }
  }

  lemma OneRowStands(rows: seq<Decision>, i: nat)
    requires i < |rows| && forall i, j :: 0 <= i < j < |rows| ==> rows[i].pattern != rows[j].pattern
    ensures Standing(rows, rows[i].pattern) == Some(rows[i])
  {
    var row := Standing(rows, rows[i].pattern);
    assert rows[i] in rows;
    var j :| 0 <= j < |rows| && rows[j] == row.value;
  }

  lemma InForceIsDecided(curated: seq<Exclusion>, rows: seq<Decision>, pattern: string)
    requires pattern in Patterns(OverlaidAll(rows, curated) + Additions(rows, Patterns(curated)))
    ensures || (exists row :: row in rows && row.pattern == pattern && row.excluded)
            || (pattern in Patterns(curated) && forall row :: row in rows ==> row.pattern != pattern)
  {
    var merged := OverlaidAll(rows, curated) + Additions(rows, Patterns(curated));
    var i :| 0 <= i < |merged| && merged[i].pattern == pattern;
    OverlayIsExact(curated, rows, merged[i]);
    assert merged[i] in merged;
    if merged[i] in curated {
      var j :| 0 <= j < |curated| && curated[j] == merged[i];
      assert curated[j].pattern == pattern;
    }
  }

  /** What the overlay lists is in force. */
  lemma InForce(curated: seq<Exclusion>, rows: seq<Decision>, ex: Exclusion)
    requires || (ex in curated && Standing(rows, ex.pattern) == None)
             || (ex.pattern in Patterns(curated) && Standing(rows, ex.pattern) == Some(Decision(ex.pattern, true, ex.reason)))
             || (ex.pattern !in Patterns(curated) && Decision(ex.pattern, true, ex.reason) in rows)
    ensures ex.pattern in Patterns(OverlaidAll(rows, curated) + Additions(rows, Patterns(curated)))
  {
    OverlayIsExact(curated, rows, ex);
    var merged := OverlaidAll(rows, curated) + Additions(rows, Patterns(curated));
    var at :| 0 <= at < |merged| && merged[at] == ex;
    assert merged[at].pattern == ex.pattern;
  }
}
