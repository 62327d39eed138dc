/** The on-disk clone of a cookbook and the migration of its origin towards the preferred
    base URL (internal/collector/git.go). */
module GitOrigin {
  import opened Strings
  import opened Wrappers

  /** What lies in a cookbook's directory: nothing, something that is not a git repository, or
      a clone with its origin (none when it cannot be read) and its HEAD. */
  datatype Dir = Absent | Stray | Clone(origin: Option<string>, head: string)

  /** The answers of the outside world during one pass. `reachable` is what ls-remote, fetch
      and clone of a URL agree on; the other fields say whether the later steps work on a copy
      of that URL, which commit it gives, whether a directory can be removed, and whether a
      failed clone leaves a partial directory behind. */
  datatype World = World(
    reachable: string -> bool, branchKnown: string -> bool, resets: string -> bool, headReadable: string -> bool,
    tip: string -> string, repointable: string -> bool, removable: bool, litters: string -> bool)

  /** What a successful clone or pull reports. */
  datatype Fetched = Fetched(url: string, head: string, wasCloned: bool, changed: bool)

  // ---------------------------------------------------------------------------
  // Comparing URLs
  // ---------------------------------------------------------------------------

  /** White space as Unicode defines it. */
  predicate IsSpace(c: char) {
    || '\t' <= c <= '\r' || c == ' ' || c == '\U{85}' || c == '\U{A0}' || c == '\U{1680}'
    || '\U{2000}' <= c <= '\U{200A}' || c == '\U{2028}' || c == '\U{2029}' || c == '\U{202F}' || c == '\U{205F}'
    || c == '\U{3000}'
  }

  function TrimLeftSpace(s: string): string { if s != "" && IsSpace(s[0]) then TrimLeftSpace(s[1..]) else s }

  function TrimRightSpace(s: string): string {
    if s != "" && IsSpace(s[|s| - 1]) then TrimRightSpace(s[..|s| - 1]) else s
  }

  function TrimRightSlash(s: string): (r: string)
    ensures r <= s && (r == "" || r[|r| - 1] != '/')
  {
    if s != "" && s[|s| - 1] == '/' then TrimRightSlash(s[..|s| - 1]) else s
  }

  function TrimSuffix(s: string, suffix: string): string {
    if HasSuffix(s, suffix) then s[..|s| - |suffix|] else s
  }

  function NormalizeGitURL(u: string): string { TrimSuffix(TrimRightSlash(TrimRightSpace(TrimLeftSpace(u))), ".git") }

  predicate SameGitURL(a: string, b: string) { NormalizeGitURL(a) == NormalizeGitURL(b) }

  predicate Blank(u: string) { TrimLeftSpace(u) == "" }

  lemma {:induction false} TrimLeftAppend(u: string, x: string)
    requires x != "" && !IsSpace(x[0])
    ensures TrimLeftSpace(u + x) == TrimLeftSpace(u) + x
  {
    if u == "" {
      assert u + x == x;
    } else if IsSpace(u[0]) {
      TrimLeftAppend(u[1..], x);
      assert (u + x)[1..] == u[1..] + x;
    }
  }

  /** How many characters of white space a string begins with. */
  function Indent(u: string): (k: nat)
    ensures k <= |u| && forall i :: 0 <= i < k ==> IsSpace(u[i])
  {
    if u != "" && IsSpace(u[0]) then 1 + Indent(u[1..]) else 0
  }

  lemma {:induction false} TrimLeftIsSuffix(u: string)
    ensures TrimLeftSpace(u) == u[Indent(u)..]
  {
    if u != "" && IsSpace(u[0]) {
      TrimLeftIsSuffix(u[1..]);
      assert u[1..][Indent(u[1..])..] == u[1 + Indent(u[1..])..];
    } else {
      assert u[0..] == u;
    }
  }

  /** Trimming on the left leaves the end of a string that is not blank as it is. */
  lemma TrimLeftKeepsEnd(u: string)
    requires !Blank(u)
    ensures var t := TrimLeftSpace(u); u != "" && t[|t| - 1] == u[|u| - 1] && (HasSuffix(t, ".git") <==> HasSuffix(u, ".git"))
  {
    TrimLeftIsSuffix(u);
    EndKept(u, Indent(u));
  }

  lemma EndKept(u: string, k: nat)
    requires k < |u| && forall i :: 0 <= i < k ==> IsSpace(u[i])
    ensures u[k..][|u| - k - 1] == u[|u| - 1] && (HasSuffix(u[k..], ".git") <==> HasSuffix(u, ".git"))
  {
    if |u| >= 4 {
      var last := u[|u| - 4..];
      if last == ".git" { assert last[0] == u[|u| - 4] && !IsSpace('.'); }
      if k + 4 <= |u| { assert u[k..][|u| - k - 4..] == last; }
    }
  }

  /** What normalising does after trimming on the left. */
  function NormalizeEnd(t: string): (r: string)
    ensures r <= t
    ensures r == t <==> t == "" || (!IsSpace(t[|t| - 1]) && t[|t| - 1] != '/' && !HasSuffix(t, ".git"))
  {
    TrimmedShorter(t);
    TrimSuffix(TrimRightSlash(TrimRightSpace(t)), ".git")
  }

  lemma {:induction false} TrimmedShorter(t: string)
    ensures TrimRightSpace(t) <= t && (TrimRightSpace(t) == t <==> t == "" || !IsSpace(t[|t| - 1]))
    ensures TrimRightSlash(t) == t <==> t == "" || t[|t| - 1] != '/'
  {
    if t != "" { TrimmedShorter(t[..|t| - 1]); }
  }

  /** After a URL that is not blank, a trailing slash is ignored exactly when no white space
      comes right before it, and a ".git" suffix exactly when no white space, slash or other
      ".git" does. After a blank one both are. */
  lemma SuffixesIgnoredIff(u: string)
    ensures SameGitURL(u, u + "/") <==> Blank(u) || !IsSpace(u[|u| - 1])
    ensures SameGitURL(u, u + ".git") <==>
            Blank(u) || (!IsSpace(u[|u| - 1]) && u[|u| - 1] != '/' && !HasSuffix(u, ".git"))
  {
    var t := TrimLeftSpace(u);
    TrimLeftAppend(u, "/");
    TrimLeftAppend(u, ".git");
    SlashNormalized(t);
    GitNormalized(t);
    assert NormalizeGitURL(u) == NormalizeEnd(t);
    if Blank(u) {
      assert NormalizeEnd("") == "";
    } else {
      TrimLeftKeepsEnd(u);
    }
  }

  lemma GitNormalized(t: string)
    ensures NormalizeEnd(t + ".git") == t
  {
    var git := t + ".git";
    assert git[|git| - 4..] == ".git" && git[|git| - 1] == 't' && !IsSpace('t');
    TrimmedShorter(git);
    assert git[..|t|] == t;
  }

  lemma SlashNormalized(t: string)
    ensures NormalizeEnd(t + "/") == NormalizeEnd(t) <==> t == "" || !IsSpace(t[|t| - 1])
  {
    var slash := t + "/";
    assert slash[..|t|] == t && slash[|t|] == '/' && !IsSpace('/');
    TrimmedShorter(slash);
    TrimmedShorter(t);
    assert TrimRightSlash(slash) == TrimRightSlash(t);
    if t != "" && IsSpace(t[|t| - 1]) {
      assert TrimRightSlash(t) == t;
      assert NormalizeEnd(slash) == t;
    }
  }

  // ---------------------------------------------------------------------------
  // Candidates and their rank
  // ---------------------------------------------------------------------------

  /** The candidate URLs of a cookbook, most preferred first. */
  function CandidateURLs(bases: seq<string>, name: string): (urls: seq<string>)
    ensures |urls| == |bases|
    ensures forall i :: 0 <= i < |bases| ==> urls[i] == TrimRightSlash(bases[i]) + "/" + name
  {
    seq(|bases|, i requires 0 <= i < |bases| => TrimRightSlash(bases[i]) + "/" + name)
  }

  /** The first candidate that is the URL; their number when none is. */
  function Rank(cands: seq<string>, url: string): (k: nat)
    ensures k <= |cands|
    ensures k < |cands| ==> SameGitURL(cands[k], url)
    ensures forall i :: 0 <= i < k ==> !SameGitURL(cands[i], url)
  {
    if cands == [] || SameGitURL(cands[0], url) then 0 else 1 + Rank(cands[1..], url)
  }

  /** The first candidate that is reachable; their number when none is. */
  function FirstReachable(world: World, cands: seq<string>): (k: nat)
    ensures k <= |cands|
    ensures k < |cands| ==> world.reachable(cands[k])
    ensures forall i :: 0 <= i < k ==> !world.reachable(cands[i])
  {
    if cands == [] || world.reachable(cands[0]) then 0 else 1 + FirstReachable(world, cands[1..])
  }

  // ---------------------------------------------------------------------------
  // One pass over one cookbook, as a function of its directory
  // ---------------------------------------------------------------------------

  /** Re-point the origin at the first reachable candidate ranked above it. */
  function Reconciled(world: World, cands: seq<string>, dir: Dir): Dir {
    if !dir.Clone? || dir.origin.None? then dir
    else
      var cutoff := Rank(cands, dir.origin.value);
      var k := FirstReachable(world, cands[..cutoff]);
      if k < cutoff && world.repointable(cands[k]) then dir.(origin := Some(cands[k])) else dir
  }

  predicate OriginReachable(world: World, dir: Dir) {
    dir.Clone? && dir.origin.Some? && world.reachable(dir.origin.value)
  }

  /** Fetch and reset an existing clone whose origin is reachable. */
  function Pulled(world: World, dir: Dir): (Dir, Option<Fetched>)
    requires OriginReachable(world, dir)
  {
    var url := dir.origin.value;
    if !world.branchKnown(url) || !world.resets(url) then (dir, None)
    else
      var after := dir.(head := world.tip(url));
      (after, if world.headReadable(url) then Some(Fetched(url, after.head, false, dir.head != after.head)) else None)
  }

  /** Clone into an empty place. */
  function Cloned(world: World, url: string): (Dir, Option<Fetched>) {
    if !world.reachable(url) then (if world.litters(url) then Stray else Absent, None)
    else
      (Clone(Some(url), world.tip(url)),
       if world.branchKnown(url) && world.headReadable(url) then Some(Fetched(url, world.tip(url), true, true)) else None)
  }

  /** Pull when the origin answers; otherwise remove what is there and clone. */
  function ClonedOrPulled(world: World, dir: Dir, url: string): (Dir, Option<Fetched>) {
    if OriginReachable(world, dir) then Pulled(world, dir)
    else if dir != Absent && !world.removable then (dir, None)
    else Cloned(world, url)
  }

  /** Try the URLs in order until one succeeds. */
  function Tried(world: World, dir: Dir, urls: seq<string>): (Dir, Option<Fetched>)
    decreases urls
  {
    if urls == [] then (dir, None)
    else
      var one := ClonedOrPulled(world, dir, urls[0]);
      if one.1.Some? then one else Tried(world, one.0, urls[1..])
  }

  function Pass(world: World, cands: seq<string>, dir: Dir): (Dir, Option<Fetched>) {
    Tried(world, Reconciled(world, cands, dir), cands)
  }

  // ---------------------------------------------------------------------------
  // The manager
  // ---------------------------------------------------------------------------

  datatype Repointing = Unmoved | Moved(url: string) | RepointFailed(url: string)

  function DirOf(disk: map<string, Dir>, name: string): Dir { if name in disk then disk[name] else Absent }

  /** How many cookbooks ended how. */
  datatype Counters = Counters(total: nat, cloned: nat, pulled: nat, same: nat, failed: nat)

  class GitCookbookManager {
    /** What lies in each cookbook's directory. */
    var disk: map<string, Dir>

    constructor ()
      ensures disk == map[]
    {
      disk := map[];
    }

    method ReconcileOrigin(world: World, name: string, cands: seq<string>) returns (r: Repointing)
      modifies this
      ensures disk == if DirOf(old(disk), name) == Absent then old(disk)
                      else old(disk)[name := Reconciled(world, cands, DirOf(old(disk), name))]
      ensures r.Moved? ==> DirOf(disk, name).Clone? && DirOf(disk, name).origin == Some(r.url) && world.reachable(r.url)
      ensures !r.Moved? ==> disk == old(disk)
    {
      var dir := DirOf(disk, name);
      if !dir.Clone? || dir.origin.None? {
        return Unmoved;
      }
      var cutoff := FindRank(cands, dir.origin.value);
      var k := ProbeBelow(world, cands, cutoff);
      if k == cutoff {
        return Unmoved;
      }
      if !world.repointable(cands[k]) {
        return RepointFailed(cands[k]);
      }
      disk := disk[name := dir.(origin := Some(cands[k]))];
      return Moved(cands[k]);
    }

    method FindRank(cands: seq<string>, origin: string) returns (cutoff: nat)
      ensures cutoff == Rank(cands, origin)
    {
      cutoff := 0;
      while cutoff < |cands| && !SameGitURL(cands[cutoff], origin)
        invariant cutoff <= |cands|
        invariant forall i :: 0 <= i < cutoff ==> !SameGitURL(cands[i], origin)
      {
        cutoff := cutoff + 1;
      }
      RankIs(cands, origin, cutoff);
    }

    /** Probe the candidates above the cutoff in order. */
    method ProbeBelow(world: World, cands: seq<string>, cutoff: nat) returns (k: nat)
      requires cutoff <= |cands|
      ensures k == FirstReachable(world, cands[..cutoff]) && (k < cutoff ==> world.reachable(cands[k]))
    {
      FirstInPrefix(world, cands, cutoff);
      k := 0;
      while k < cutoff && !world.reachable(cands[k])
        invariant k <= cutoff
        invariant forall i :: 0 <= i < k ==> !world.reachable(cands[i])
      {
        k := k + 1;
      }
      FirstReachableIs(world, cands[..cutoff], k);
    }

    /** The directory is cleared of anything that is not a repository, an existing clone is
        fetched and reset, and one whose origin is dead is removed and cloned again. */
    method CloneOrPull(world: World, name: string, url: string) returns (r: Option<Fetched>)
      modifies this
      ensures var expected := ClonedOrPulled(world, DirOf(old(disk), name), url);
              r == expected.1 && DirOf(disk, name) == expected.0
      ensures forall other :: other != name ==> DirOf(disk, other) == DirOf(old(disk), other)
    {
      if DirOf(disk, name).Stray? {
        if !world.removable {
          return None;
        }
        disk := disk - {name};
      }
      var dir := DirOf(disk, name);
      if dir.Clone? {
        if dir.origin.None? || !world.reachable(dir.origin.value) {
          if !world.removable {
            return None;
          }
          disk := disk - {name};
        } else {
          var origin := dir.origin.value;
          if !world.branchKnown(origin) || !world.resets(origin) {
            return None;
          }
          disk := disk[name := dir.(head := world.tip(origin))];
          if !world.headReadable(origin) {
            return None;
          }
          return Some(Fetched(origin, world.tip(origin), false, dir.head != world.tip(origin)));
        }
      }
      if !world.reachable(url) {
        if world.litters(url) {
          disk := disk[name := Stray];
        }
        return None;
      }
      disk := disk[name := Clone(Some(url), world.tip(url))];
      if !world.branchKnown(url) || !world.headReadable(url) {
        return None;
      }
      return Some(Fetched(url, world.tip(url), true, true));
    }

    /** The work of one cookbook's goroutine. */
    method FetchCookbook(world: World, name: string, cands: seq<string>) returns (r: Option<Fetched>)
      modifies this
      ensures var expected := Pass(world, cands, DirOf(old(disk), name));
              r == expected.1 && DirOf(disk, name) == expected.0
      ensures forall other :: other != name ==> DirOf(disk, other) == DirOf(old(disk), other)
    {
      var moved := ReconcileOrigin(world, name, cands);
      r := None;
      ghost var goal := Tried(world, DirOf(disk, name), cands);
      assert cands[0..] == cands;
      for i := 0 to |cands|
        invariant r.None? && goal == Tried(world, DirOf(disk, name), cands[i..])
        invariant forall other :: other != name ==> DirOf(disk, other) == DirOf(old(disk), other)
      {
        TriedStep(world, DirOf(disk, name), cands, i);
        r := CloneOrPull(world, name, cands[i]);
        if r.Some? {
          return;
        }
      }
    }

    /** The pass of one cookbook, over the candidates its name gives. */
    method FetchOne(world: World, bases: seq<string>, name: string, ghost outcome: (Dir, Option<Fetched>)) returns (r: Option<Fetched>)
      requires outcome == Pass(world, CandidateURLs(bases, name), DirOf(disk, name))
      modifies this
      ensures outcome == (DirOf(disk, name), r)
      ensures forall other :: other != name ==> DirOf(disk, other) == DirOf(old(disk), other)
    {
      r := FetchCookbook(world, name, CandidateURLs(bases, name));
    }

    method Count(before: Counters, fetched: Option<Fetched>) returns (r: Counters)
      ensures r == CountedIn(before, fetched)
    {
      r := before;
      if fetched.None? {
        r := r.(failed := r.failed + 1);
      } else if fetched.value.wasCloned {
        r := r.(cloned := r.cloned + 1);
      } else if fetched.value.changed {
        r := r.(pulled := r.pulled + 1);
      } else {
        r := r.(same := r.same + 1);
      }
    }

    /** All cookbooks, in whatever order their goroutines run: no two share a directory. */
    method FetchGitCookbooks(world: World, bases: seq<string>, names: set<string>)
      returns (r: Counters, urls: map<string, string>)
      modifies this
      ensures bases == [] ==> r == Counters(0, 0, 0, 0, 0) && disk == old(disk) && urls == map[]
      ensures bases != [] ==> Settled(Outcomes(world, bases, names, old(disk)), {}, old(disk), disk, urls)
      ensures bases != [] ==> r == Tally(Outcomes(world, bases, names, old(disk)), names)
    {
      r, urls := Counters(0, 0, 0, 0, 0), map[];
      if bases == [] {
        return;
      }
      r, urls := FetchPending(world, bases, names, Outcomes(world, bases, names, disk));
    }

    method FetchPending(world: World, bases: seq<string>, names: set<string>, ghost outcomes: map<string, (Dir, Option<Fetched>)>)
      returns (r: Counters, urls: map<string, string>)
      requires outcomes == Outcomes(world, bases, names, disk)
      modifies this
      ensures Settled(outcomes, {}, old(disk), disk, urls)
      ensures r == Tally(outcomes, names)
    {
      r, urls := Counters(|names|, 0, 0, 0, 0), map[];
      var pending := names;
      ghost var done: seq<string> := [];
      while pending != {}
        invariant pending <= names
        invariant Settled(outcomes, pending, old(disk), disk, urls)
        invariant Finished(names, pending, done) && r == TallyAlong(outcomes, done, |names|)
        decreases |pending|
      {
        var name :| name in pending;
        FinishedStep(names, pending, done, name);
        ghost var before, urlsBefore := disk, urls;
        var fetched := FetchOne(world, bases, name, outcomes[name]);
        if fetched.Some? {
          urls := urls[name := fetched.value.url];
        }
        r := Count(r, fetched);
        SettledStep(outcomes, pending, name, old(disk), before, disk, urlsBefore, urls);
        pending, done := pending - {name}, done + [name];
      }
      TallyIsAlong(outcomes, names, done);
    }
  }

  /** How each cookbook's own pass ends. */
  ghost function Outcomes(world: World, bases: seq<string>, names: set<string>, disk: map<string, Dir>)
    : map<string, (Dir, Option<Fetched>)>
  {
    map name | name in names :: Pass(world, CandidateURLs(bases, name), DirOf(disk, name))
  }

  /** Cookbooks no longer pending have the directory and the recorded URL of their own pass;
      all other directories are untouched. */
  ghost predicate Settled(outcomes: map<string, (Dir, Option<Fetched>)>, pending: set<string>, before: map<string, Dir>,
                          after: map<string, Dir>, urls: map<string, string>)
  {
    && (forall name :: DirOf(after, name) ==
                       if name in outcomes && name !in pending then outcomes[name].0 else DirOf(before, name))
    && (forall name :: name in urls <==> name in outcomes && name !in pending && outcomes[name].1.Some?)
    && (forall name :: name in urls ==> urls[name] == outcomes[name].1.value.url)
  }

  /** How a pass can end: as a new clone, a pull of something new, a pull of nothing new, or a
      failure. */
  datatype Ending = NewClone | NewPull | OldPull | Failure

  function EndingOf(r: Option<Fetched>): Ending {
    if r.None? then Failure
    else if r.value.wasCloned then NewClone
    else if r.value.changed then NewPull
    else OldPull
  }

  /** The cookbooks whose pass ended in the given way. */
  ghost function Ended(outcomes: map<string, (Dir, Option<Fetched>)>, done: set<string>, how: Ending): set<string>
    requires done <= outcomes.Keys
  {
    set name | name in done && EndingOf(outcomes[name].1) == how
  }

  /** The counters that a set of passes adds up to: each is a number of cookbooks. */
  ghost function Tally(outcomes: map<string, (Dir, Option<Fetched>)>, done: set<string>): Counters
    requires done <= outcomes.Keys
  {
    Counters(|done|,
             |Ended(outcomes, done, NewClone)|, |Ended(outcomes, done, NewPull)|,
             |Ended(outcomes, done, OldPull)|, |Ended(outcomes, done, Failure)|)
  }

  lemma OneMoreEnded(outcomes: map<string, (Dir, Option<Fetched>)>, done: set<string>, name: string, how: Ending)
    requires done <= outcomes.Keys && name in outcomes && name !in done
    ensures |Ended(outcomes, done + {name}, how)| == |Ended(outcomes, done, how)| + if EndingOf(outcomes[name].1) == how then 1 else 0
  {
    var before, after := Ended(outcomes, done, how), Ended(outcomes, done + {name}, how);
    forall x ensures x in after <==> x in before || (x == name && EndingOf(outcomes[name].1) == how) {}
    assert after == if EndingOf(outcomes[name].1) == how then before + {name} else before;
  }

  /** The counters after one more pass has ended. */
  function CountedIn(r: Counters, how: Option<Fetched>): Counters {
    match EndingOf(how)
    case NewClone => r.(cloned := r.cloned + 1)
    case NewPull => r.(pulled := r.pulled + 1)
    case OldPull => r.(same := r.same + 1)
    case Failure => r.(failed := r.failed + 1)
  }

  lemma TallyStep(outcomes: map<string, (Dir, Option<Fetched>)>, done: set<string>, name: string)
    requires done <= outcomes.Keys && name in outcomes && name !in done
    ensures Tally(outcomes, done + {name}) == CountedIn(Tally(outcomes, done), outcomes[name].1).(total := |done| + 1)
  {
    OneMoreEnded(outcomes, done, name, NewClone);
    OneMoreEnded(outcomes, done, name, NewPull);
    OneMoreEnded(outcomes, done, name, OldPull);
    OneMoreEnded(outcomes, done, name, Failure);
  }

  /** The counters as the passes end one after another. */
  ghost function TallyAlong(outcomes: map<string, (Dir, Option<Fetched>)>, done: seq<string>, total: nat): Counters {
    if done == [] then Counters(total, 0, 0, 0, 0)
    else
      var name := done[|done| - 1];
      CountedIn(TallyAlong(outcomes, done[..|done| - 1], total), if name in outcomes then outcomes[name].1 else None)
  }

  /** The finished passes, each once. */
  ghost predicate Finished(names: set<string>, pending: set<string>, done: seq<string>) {
    && (forall name :: name in done <==> name in names && name !in pending)
    && (forall i, j :: 0 <= i < j < |done| ==> done[i] != done[j])
  }

  lemma FinishedStep(names: set<string>, pending: set<string>, done: seq<string>, name: string)
    requires Finished(names, pending, done) && name in pending && name in names
    ensures Finished(names, pending - {name}, done + [name])
  {
  }

  lemma NothingTallied(outcomes: map<string, (Dir, Option<Fetched>)>)
    ensures Tally(outcomes, {}) == Counters(0, 0, 0, 0, 0)
  {
    forall how ensures Ended(outcomes, {}, how) == {} {}
  }

  lemma FinishedBefore(names: set<string>, done: seq<string>)
    requires Finished(names, {}, done) && done != []
    ensures var n := |done| - 1; done[n] in names && Finished(names - {done[n]}, {}, done[..n])
  {
    assert done == done[..|done| - 1] + [done[|done| - 1]];
  }

  lemma {:induction false} TallyIsAlong(outcomes: map<string, (Dir, Option<Fetched>)>, names: set<string>, done: seq<string>)
    requires names <= outcomes.Keys && Finished(names, {}, done)
    ensures Tally(outcomes, names) == TallyAlong(outcomes, done, |names|)
    decreases |done|
  {
    if done == [] {
      assert names == {};
      NothingTallied(outcomes);
    } else {
      var n := |done| - 1;
      var name := done[n];
      var rest := names - {name};
      FinishedBefore(names, done);
      assert TallyAlong(outcomes, done, |names|) == CountedIn(TallyAlong(outcomes, done[..n], |names|), outcomes[name].1);
      TallyIsAlong(outcomes, rest, done[..n]);
      TallyStep(outcomes, rest, name);
      assert rest + {name} == names;
      SameButTotal(outcomes, done[..n], |rest|, |names|);
    }
  }

  lemma {:induction false} SameButTotal(outcomes: map<string, (Dir, Option<Fetched>)>, done: seq<string>, a: nat, b: nat)
    ensures TallyAlong(outcomes, done, b) == TallyAlong(outcomes, done, a).(total := b)
  {
    if done != [] { SameButTotal(outcomes, done[..|done| - 1], a, b); }
  }

  /** Every cookbook is counted once: as cloned, pulled, unchanged or failed; all but the
      failed ones have a recorded URL. */
  lemma TallyAddsUp(outcomes: map<string, (Dir, Option<Fetched>)>, done: set<string>)
    requires done <= outcomes.Keys
    ensures var r := Tally(outcomes, done);
            && r.total == r.cloned + r.pulled + r.same + r.failed
            && r.total - r.failed == |Recorded(outcomes, done)|
  {
    var cloned, pulled, same := Ended(outcomes, done, NewClone), Ended(outcomes, done, NewPull), Ended(outcomes, done, OldPull);
    EndingsSplit(outcomes, done);
    DisjointCount(cloned, pulled);
    DisjointCount(cloned + pulled, same);
    DisjointCount(Recorded(outcomes, done), Ended(outcomes, done, Failure));
  }

  /** The cookbooks a URL is recorded for. */
  ghost function Recorded(outcomes: map<string, (Dir, Option<Fetched>)>, done: set<string>): set<string>
    requires done <= outcomes.Keys
  {
    set name | name in done && outcomes[name].1.Some?
  }

  lemma EndingsSplit(outcomes: map<string, (Dir, Option<Fetched>)>, done: set<string>)
    requires done <= outcomes.Keys
    ensures Ended(outcomes, done, NewClone) !! Ended(outcomes, done, NewPull)
    ensures Ended(outcomes, done, NewClone) + Ended(outcomes, done, NewPull) !! Ended(outcomes, done, OldPull)
    ensures Recorded(outcomes, done) !! Ended(outcomes, done, Failure)
    ensures Recorded(outcomes, done) ==
            Ended(outcomes, done, NewClone) + Ended(outcomes, done, NewPull) + Ended(outcomes, done, OldPull)
    ensures done == Recorded(outcomes, done) + Ended(outcomes, done, Failure)
  {
  }

  lemma DisjointCount(a: set<string>, b: set<string>)
    requires a !! b
    ensures |a + b| == |a| + |b|
  {
  }

  lemma SettledStep(outcomes: map<string, (Dir, Option<Fetched>)>, pending: set<string>, name: string,
                    start: map<string, Dir>, before: map<string, Dir>, after: map<string, Dir>,
                    urlsBefore: map<string, string>, urls: map<string, string>)
    requires Settled(outcomes, pending, start, before, urlsBefore) && name in pending && name in outcomes
    requires DirOf(after, name) == outcomes[name].0
    requires forall other :: other != name ==> DirOf(after, other) == DirOf(before, other)
    requires urls == if outcomes[name].1.Some? then urlsBefore[name := outcomes[name].1.value.url] else urlsBefore
    ensures Settled(outcomes, pending - {name}, start, after, urls) && name !in urlsBefore
  {
  }

  /** After all passes each recorded URL is the origin on disk. */
  lemma RecordedURLsAreOrigins(world: World, bases: seq<string>, names: set<string>, before: map<string, Dir>,
                               after: map<string, Dir>, urls: map<string, string>)
    requires Settled(Outcomes(world, bases, names, before), {}, before, after, urls)
    ensures forall name :: name in urls ==> DirOf(after, name).Clone? && DirOf(after, name).origin == Some(urls[name])
  {
    forall name | name in urls
      ensures DirOf(after, name).Clone? && DirOf(after, name).origin == Some(urls[name])
    {
      PassRecordsOrigin(world, CandidateURLs(bases, name), DirOf(before, name));
    }
  }

  lemma RankIs(cands: seq<string>, url: string, k: nat)
    requires k <= |cands| && (k < |cands| ==> SameGitURL(cands[k], url))
    requires forall i :: 0 <= i < k ==> !SameGitURL(cands[i], url)
    ensures Rank(cands, url) == k
  {
  }

  lemma FirstReachableIs(world: World, cands: seq<string>, k: nat)
    requires k <= |cands| && (k < |cands| ==> world.reachable(cands[k]))
    requires forall i :: 0 <= i < k ==> !world.reachable(cands[i])
    ensures FirstReachable(world, cands) == k
  {
  }

  /** Looking only at the first `n` candidates finds the same one, or none. */
  lemma FirstInPrefix(world: World, cands: seq<string>, n: nat)
    requires n <= |cands|
    ensures FirstReachable(world, cands[..n]) == if FirstReachable(world, cands) < n then FirstReachable(world, cands) else n
  {
  }

  lemma TriedStep(world: World, dir: Dir, cands: seq<string>, i: nat)
    requires i < |cands|
    ensures Tried(world, dir, cands[i..]) ==
            var one := ClonedOrPulled(world, dir, cands[i]);
            if one.1.Some? then one else Tried(world, one.0, cands[i + 1..])
  {
  }

  // ---------------------------------------------------------------------------
  // Where a pass leaves the origin
  // ---------------------------------------------------------------------------

  /** Pulling from a reachable origin never goes to the other URLs. */
  lemma {:induction false} ReachableOriginStays(world: World, dir: Dir, urls: seq<string>)
    requires OriginReachable(world, dir)
    ensures Tried(world, dir, urls) == (if urls == [] then (dir, None) else Pulled(world, dir))
    decreases urls
  {
    if urls != [] {
      var one := Pulled(world, dir);
      if one.1.None? {
        ReachableOriginStays(world, one.0, urls[1..]);
        if urls[1..] != [] { assert Pulled(world, one.0).0 == one.0 && Pulled(world, one.0).1.None?; }
      }
    }
  }

  /** A place that can be cleared and cloned into: nothing there, or it can be removed. */
  predicate Clearable(world: World, dir: Dir) { dir == Absent || world.removable }

  /** Whether the failed clones before the first reachable URL leave the way free. */
  predicate WayIsFree(world: World, dir: Dir, urls: seq<string>) {
    Clearable(world, dir) &&
    (world.removable || forall i :: 0 <= i < FirstReachable(world, urls) ==> !world.litters(urls[i]))
  }

  /** With no origin to pull from, the first reachable URL is cloned, when the way to it is
      free, and then nothing else is tried with any other outcome. */
  lemma {:induction false} DeadOriginClones(world: World, dir: Dir, urls: seq<string>)
    requires !OriginReachable(world, dir)
    ensures var k, after := FirstReachable(world, urls), Tried(world, dir, urls);
            && (k < |urls| && WayIsFree(world, dir, urls) ==>
                  after == (Clone(Some(urls[k]), world.tip(urls[k])), Cloned(world, urls[k]).1))
            && (!(k < |urls| && WayIsFree(world, dir, urls)) ==> after.1.None? && !OriginReachable(world, after.0))
            && (k == |urls| > 0 && Clearable(world, dir) ==> !after.0.Clone?)
            && (!Clearable(world, dir) ==> after.0 == dir)
    decreases urls
  {
    if urls != [] {
      var one := ClonedOrPulled(world, dir, urls[0]);
      if Clearable(world, dir) && world.reachable(urls[0]) {
        if one.1.None? {
          ReachableOriginStays(world, one.0, urls[1..]);
        }
      } else {
        DeadOriginClones(world, one.0, urls[1..]);
        assert FirstReachable(world, urls) == if world.reachable(urls[0]) then 0 else 1 + FirstReachable(world, urls[1..]);
        assert forall i :: 0 <= i < |urls| - 1 ==> urls[1..][i] == urls[i + 1];
      }
    }
  }

  /** The URL a pass aims at. */
  function Target(world: World, cands: seq<string>, dir: Dir): (url: Option<string>)
    ensures url.Some? ==> world.reachable(url.value)
  {
    if OriginReachable(world, dir) then
      var cutoff := Rank(cands, dir.origin.value);
      var k := FirstReachable(world, cands[..cutoff]);
      if k < cutoff && world.repointable(cands[k]) then Some(cands[k]) else dir.origin
    else
      var k := FirstReachable(world, cands);
      if k < |cands| then Some(cands[k]) else None
  }

  /** After re-pointing, the origin is reachable exactly when it was, or when some candidate
      above it could take over. */
  lemma ReconciledOrigin(world: World, cands: seq<string>, dir: Dir)
    ensures var mid := Reconciled(world, cands, dir);
            && (OriginReachable(world, dir) ==> OriginReachable(world, mid) && mid.origin == Target(world, cands, dir))
            && (!OriginReachable(world, dir) && OriginReachable(world, mid) ==> mid.origin == Target(world, cands, dir))
            && (dir.Clone? <==> mid.Clone?) && (dir == Absent <==> mid == Absent)
            && (dir.Clone? ==> mid.head == dir.head)
  {
    if dir.Clone? && dir.origin.Some? {
      FirstInPrefix(world, cands, Rank(cands, dir.origin.value));
    }
  }

  /** Whether the later steps work: after a fetch the branch is reset to, after a clone it
      need not be. */
  predicate Usable(world: World, url: string, cloned: bool) {
    world.branchKnown(url) && world.headReadable(url) && (cloned || world.resets(url))
  }

  /** A pass succeeds exactly when there is a URL to aim at, the way to it is free and the
      copy of that URL is usable; then the directory is a clone of that URL at its tip, and
      the URL reported is its origin. */
  lemma PassSettles(world: World, cands: seq<string>, dir: Dir)
    requires cands != []
    ensures var mid, after, target := Reconciled(world, cands, dir), Pass(world, cands, dir), Target(world, cands, dir);
            && (after.1.Some? <==>
                && target.Some?
                && (OriginReachable(world, mid) || WayIsFree(world, dir, cands))
                && Usable(world, target.value, !OriginReachable(world, mid)))
            && (after.1.Some? ==>
                && after.0 == Clone(target, world.tip(target.value))
                && after.1.value.url == target.value && after.1.value.head == world.tip(target.value)
                && after.1.value.wasCloned == !OriginReachable(world, mid))
            && (after.1.Some? && !after.1.value.wasCloned ==>
                after.1.value.changed == (dir.head != world.tip(target.value)))
  {
    var mid := Reconciled(world, cands, dir);
    ReconciledOrigin(world, cands, dir);
    if OriginReachable(world, mid) {
      ReachableOriginStays(world, mid, cands);
    } else {
      DeadOriginClones(world, mid, cands);
      assert WayIsFree(world, mid, cands) == WayIsFree(world, dir, cands);
    }
  }

  /** The URL recorded for a cookbook is the origin on disk. */
  lemma PassRecordsOrigin(world: World, cands: seq<string>, dir: Dir)
    ensures var after := Pass(world, cands, dir);
            after.1.Some? ==> after.0.Clone? && after.0.origin == Some(after.1.value.url)
  {
    if cands != [] { PassSettles(world, cands, dir); }
  }

  /** While the current origin stays reachable a pass never moves to a less preferred base,
      whether the pass succeeds or not, and the clone is kept. */
  lemma RankNeverWorsens(world: World, cands: seq<string>, dir: Dir)
    requires cands != [] && OriginReachable(world, dir)
    ensures var after := Pass(world, cands, dir).0;
            && OriginReachable(world, after)
            && Rank(cands, after.origin.value) <= Rank(cands, dir.origin.value)
  {
    ReconciledOrigin(world, cands, dir);
    ReachableOriginStays(world, Reconciled(world, cands, dir), cands);
    var cutoff := Rank(cands, dir.origin.value);
    var k := FirstReachable(world, cands[..cutoff]);
    if k < cutoff { RankAtMost(cands, k); }
  }

  lemma RankAtMost(cands: seq<string>, k: nat)
    requires k < |cands|
    ensures Rank(cands, cands[k]) <= k
  {
  }

  /** The directory after a run of passes, each in a world of its own. */
  function Run(worlds: seq<World>, cands: seq<string>, dir: Dir): Dir {
    if worlds == [] then dir
    else Pass(worlds[|worlds| - 1], cands, Run(worlds[..|worlds| - 1], cands, dir)).0
  }

  /** As long as each pass finds the origin the last one left reachable, the rank falls or
      stays all through the run. */
  lemma {:induction false} RankNeverWorsensInARun(worlds: seq<World>, cands: seq<string>, dir: Dir)
    requires cands != [] && dir.Clone? && dir.origin.Some?
    requires forall i :: 0 <= i < |worlds| ==> OriginReachable(worlds[i], Run(worlds[..i], cands, dir))
    ensures var after := Run(worlds, cands, dir);
            after.Clone? && after.origin.Some? && Rank(cands, after.origin.value) <= Rank(cands, dir.origin.value)
  {
    if worlds != [] {
      var n := |worlds| - 1;
      forall i | 0 <= i < n ensures OriginReachable(worlds[..n][i], Run(worlds[..n][..i], cands, dir)) {
        assert worlds[..n][..i] == worlds[..i];
      }
      RankNeverWorsensInARun(worlds[..n], cands, dir);
      RankNeverWorsens(worlds[n], cands, Run(worlds[..n], cands, dir));
    }
  }

  /** A reachable most-preferred base is where a successful pass ends, unless git refuses to
      re-point the origin there. */
  lemma PreferredBaseIsReached(world: World, cands: seq<string>, dir: Dir)
    requires cands != [] && world.reachable(cands[0]) && world.repointable(cands[0])
    ensures var after := Pass(world, cands, dir); after.1.Some? ==> Rank(cands, after.1.value.url) == 0
  {
    PassSettles(world, cands, dir);
    RankAtMost(cands, 0);
    FirstReachableIs(world, cands, 0);
    if OriginReachable(world, dir) { FirstInPrefix(world, cands, Rank(cands, dir.origin.value)); }
  }

  /** In a world that does not change, a second pass after a successful one leaves the
      directory exactly as it is, and reports an unchanged pull of the same URL just when that
      URL's branch can be reset to (a first pass that cloned never needed to). */
  lemma SecondPassChangesNothing(world: World, cands: seq<string>, dir: Dir)
    requires cands != [] && Pass(world, cands, dir).1.Some?
    ensures var first, url := Pass(world, cands, dir), Pass(world, cands, dir).1.value.url;
            var second := Pass(world, cands, first.0);
            && second.0 == first.0
            && second.1 == if world.resets(url) then Some(Fetched(url, world.tip(url), false, false)) else None
  {
    PassSettles(world, cands, dir);
    var after, url := Pass(world, cands, dir).0, Pass(world, cands, dir).1.value.url;
    NothingAbove(world, cands, dir);
    assert Reconciled(world, cands, after) == after;
    ReachableOriginStays(world, after, cands);
  }

  /** Every candidate ranked above the target is unreachable or may not be switched to. */
  lemma NothingAbove(world: World, cands: seq<string>, dir: Dir)
    requires Target(world, cands, dir).Some?
    ensures var url := Target(world, cands, dir).value;
            var cutoff := Rank(cands, url);
            var k := FirstReachable(world, cands[..cutoff]);
            k == cutoff || !world.repointable(cands[k])
  {
    var k := FirstReachable(world, cands);
    FirstInPrefix(world, cands, Rank(cands, Target(world, cands, dir).value));
    if OriginReachable(world, dir) { FirstInPrefix(world, cands, Rank(cands, dir.origin.value)); }
    if k < |cands| { RankAtMost(cands, k); }
  }

  /** An existing clone is lost (removed, and not replaced) exactly when its origin is dead, it
      can be removed and no candidate is reachable. */
  lemma CloneIsLostIff(world: World, cands: seq<string>, dir: Dir)
    requires cands != [] && dir.Clone?
    ensures !Pass(world, cands, dir).0.Clone? <==>
            !OriginReachable(world, dir) && world.removable && forall i :: 0 <= i < |cands| ==> !world.reachable(cands[i])
  {
    var mid := Reconciled(world, cands, dir);
    ReconciledOrigin(world, cands, dir);
    if OriginReachable(world, mid) {
      ReachableOriginStays(world, mid, cands);
    } else {
      DeadOriginClones(world, mid, cands);
      var k := FirstReachable(world, cands);
      assert k < |cands| ==> world.reachable(cands[k]);
    }
  }
}
