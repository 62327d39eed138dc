/** The live CookStyle verdict, and the per-cop fingerprint it can be re-derived from
    (internal/analysis/cookstyle_status.go, cookstyle_fingerprint.go, and the derivations
    of cookstyle_recompute.go). */
module Fingerprint {
  import opened CopClassification
  import opened Ordering
  import opened ScanScope
  import opened Strings
  import opened Wrappers

  // ---------------------------------------------------------------------------
  // Verdicts
  // ---------------------------------------------------------------------------

  datatype Status = Ready | NeedsReview | Blocked

  function Rank(s: Status): nat {
    match s case Ready => 0 case NeedsReview => 1 case Blocked => 2
  }

  /** One blocker blocks, one review item needs review, anything else is ready. */
  function RollUp(levels: seq<Level>): Status {
    if Blocker in levels then Blocked else if Review in levels then NeedsReview else Ready
  }

  /** Two collections with the same levels in them, however often, roll up alike; adding
      levels never improves a verdict. */
  lemma MoreLevelsNeverImprove(fewer: seq<Level>, more: seq<Level>)
    requires forall l :: l in fewer ==> l in more || Blocker in more
    ensures Rank(RollUp(fewer)) <= Rank(RollUp(more))
  {
  }

  /** The levels of the offences in scope, each classified with its message. */
  function LiveLevels(rules: PathRules, scope: seq<Exclusion>, r: Resolver, offs: seq<Offense>): seq<Level> {
    if offs == [] then []
    else
      var front := LiveLevels(rules, scope, r, offs[..|offs| - 1]);
      var o := offs[|offs| - 1];
      if ExcludesOffense(rules, scope, o) then front else front + [Classify(r, o.cop, o.message)]
  }

  lemma {:induction false} LiveLevelsHave(rules: PathRules, scope: seq<Exclusion>, r: Resolver, offs: seq<Offense>, l: Level)
    ensures l in LiveLevels(rules, scope, r, offs) <==>
            exists o :: o in offs && !ExcludesOffense(rules, scope, o) && Classify(r, o.cop, o.message) == l
  {
    if offs != [] {
      var front, last := offs[..|offs| - 1], offs[|offs| - 1];
      LiveLevelsHave(rules, scope, r, front, l);
      assert forall o :: o in offs <==> o in front || o == last by { assert offs == front + [last]; }
    }
  }

  method DeriveCookstyleStatus(rules: PathRules, scope: seq<Exclusion>, r: Resolver, offs: seq<Offense>)
    returns (status: Status)
    ensures status == RollUp(LiveLevels(rules, scope, r, offs))
  {
    var hasReview := false;
    for i := 0 to |offs|
      invariant hasReview <==> Review in LiveLevels(rules, scope, r, offs[..i])
      invariant Blocker !in LiveLevels(rules, scope, r, offs[..i])
    {
      assert offs[..i + 1][..i] == offs[..i];
      if ExcludesOffense(rules, scope, offs[i]) {
        continue;
      }
      match Classify(r, offs[i].cop, offs[i].message)
      case Blocker =>
        LiveLevelsHave(rules, scope, r, offs, Blocker);
        return Blocked;
      case Review => hasReview := true;
      case _ =>
    }
    assert offs[..|offs|] == offs;
    return if hasReview then NeedsReview else Ready;
  }

  // ---------------------------------------------------------------------------
  // Fingerprints
  // ---------------------------------------------------------------------------

  /** What offences are counted by. The source fills `correctable` from the offence's
      `corrected` flag. */
  datatype Key = Key(cop: string, severity: string, correctable: bool)

  datatype Entry = Entry(cop: string, count: nat, excludedCount: nat, severity: string, correctable: bool)

  function KeyOf(e: Entry): Key { Key(e.cop, e.severity, e.correctable) }

  /** All a fingerprint keeps of one offence. */
  datatype Mark = Mark(key: Key, excluded: bool)

  function MarkOf(rules: PathRules, scope: seq<Exclusion>, o: Offense): Mark {
    Mark(Key(o.cop, o.severity, o.corrected), ExcludesOffense(rules, scope, o))
  }

  function Marks(rules: PathRules, scope: seq<Exclusion>, offs: seq<Offense>): (r: seq<Mark>)
    ensures |r| == |offs|
    ensures forall i :: 0 <= i < |offs| ==> r[i] == MarkOf(rules, scope, offs[i])
  {
    seq(|offs|, i requires 0 <= i < |offs| => MarkOf(rules, scope, offs[i]))
  }

  function Times(marks: seq<Mark>, m: Mark): nat { multiset(marks)[m] }

  function Count(marks: seq<Mark>, k: Key): nat { Times(marks, Mark(k, false)) + Times(marks, Mark(k, true)) }

  lemma TimesAppend(marks: seq<Mark>, m: Mark)
    ensures forall x :: Times(marks + [m], x) == Times(marks, x) + if x == m then 1 else 0
    ensures forall k :: Count(marks + [m], k) == Count(marks, k) + if k == m.key then 1 else 0
  {
  }

  predicate EntryBefore(a: Entry, b: Entry) {
    if a.cop != b.cop then StrLess(a.cop, b.cop)
    else if a.severity != b.severity then StrLess(a.severity, b.severity)
    else if a.correctable != b.correctable then !a.correctable
    else a.count < b.count
  }

  lemma EntryBeforeIsSortKey()
    ensures SortKey(EntryBefore)
  {
    forall a, b, c ensures !EntryBefore(a, a) && (EntryBefore(a, b) && EntryBefore(b, c) ==> EntryBefore(a, c)) {
      if EntryBefore(a, b) && EntryBefore(b, c) {
        StrLessIrreflexive(a.cop);
        StrLessIrreflexive(a.severity);
        if StrLess(a.cop, b.cop) && StrLess(b.cop, c.cop) { StrLessTransitive(a.cop, b.cop, c.cop); }
        if StrLess(a.severity, b.severity) && StrLess(b.severity, c.severity) {
          StrLessTransitive(a.severity, b.severity, c.severity);
        }
      }
    }
  }

  lemma KeysCompare(a: Entry, b: Entry)
    requires KeyOf(a) != KeyOf(b)
    ensures EntryBefore(a, b) || EntryBefore(b, a)
  {
    StrLessTotal(a.cop, b.cop);
    StrLessTotal(a.severity, b.severity);
  }

  /** The entry counts its key's offences, in and out of scope. */
  ghost predicate Tells(e: Entry, marks: seq<Mark>) {
    && e.count == Count(marks, KeyOf(e)) && e.count >= 1
    && e.excludedCount == Times(marks, Mark(KeyOf(e), true))
  }

  /** Strictly sorted entries, one for each key that occurs. */
  ghost predicate IsFingerprint(entries: seq<Entry>, marks: seq<Mark>) {
    && StrictlyOrdered(entries, EntryBefore)
    && (forall e :: e in entries ==> Tells(e, marks))
    && (forall k :: Count(marks, k) >= 1 ==> HasKey(entries, k))
  }

  ghost predicate HasKey(entries: seq<Entry>, k: Key) {
    exists e :: e in entries && KeyOf(e) == k
  }

  /** A Go map read: a missing key counts zero. */
  function Get(m: map<Key, nat>, k: Key): nat { if k in m then m[k] else 0 }

  /** The two maps count the keys of all marks, and of the excluded ones. */
  ghost predicate Counts(counts: map<Key, nat>, excluded: map<Key, nat>, marks: seq<Mark>) {
    && (forall k :: Get(counts, k) == Count(marks, k))
    && (forall k :: k in counts ==> counts[k] >= 1)
    && (forall k :: Get(excluded, k) == Times(marks, Mark(k, true)))
  }

  function Increased(m: map<Key, nat>, k: Key): map<Key, nat> { m[k := Get(m, k) + 1] }

  lemma CountsStep(counts: map<Key, nat>, excluded: map<Key, nat>, marks: seq<Mark>, m: Mark)
    requires Counts(counts, excluded, marks)
    ensures Counts(Increased(counts, m.key), if m.excluded then Increased(excluded, m.key) else excluded, marks + [m])
  {
    TimesAppend(marks, m);
    var excluded' := if m.excluded then Increased(excluded, m.key) else excluded;
    forall k ensures Get(excluded', k) == Times(marks + [m], Mark(k, true)) {
      assert Get(excluded, k) == Times(marks, Mark(k, true));
    }
  }

  lemma CountsAt(counts: map<Key, nat>, excluded: map<Key, nat>, marks: seq<Mark>, i: nat)
    requires i < |marks| && Counts(counts, excluded, marks[..i])
    ensures var m := marks[i];
            Counts(Increased(counts, m.key), if m.excluded then Increased(excluded, m.key) else excluded, marks[..i + 1])
  {
    CountsStep(counts, excluded, marks[..i], marks[i]);
    assert marks[..i] + [marks[i]] == marks[..i + 1];
  }

  method CountOffences(rules: PathRules, scope: seq<Exclusion>, offs: seq<Offense>)
    returns (counts: map<Key, nat>, excluded: map<Key, nat>)
    ensures Counts(counts, excluded, Marks(rules, scope, offs))
  {
    counts, excluded := map[], map[];
    ghost var marks := Marks(rules, scope, offs);
    for i := 0 to |offs|
      invariant Counts(counts, excluded, marks[..i])
    {
      var m := MarkOf(rules, scope, offs[i]);
      CountsAt(counts, excluded, marks, i);
      counts := Increased(counts, m.key);
      if m.excluded {
        excluded := Increased(excluded, m.key);
      }
    }
    assert marks[..|offs|] == marks;
  }

  /** Count by key, list the keys in whatever order the map gives them, and sort. */
  method BuildOffenceFingerprint(rules: PathRules, scope: seq<Exclusion>, offs: seq<Offense>)
    returns (entries: seq<Entry>)
    ensures IsFingerprint(entries, Marks(rules, scope, offs))
  {
    var counts, excluded := CountOffences(rules, scope, offs);
    var unsorted := ListEntries(counts, excluded);
    entries := Sort(unsorted, EntryBefore);
    EntryBeforeIsSortKey();
    SortStrict(unsorted, EntryBefore);
    ghost var marks := Marks(rules, scope, offs);
    forall k | Count(marks, k) >= 1 ensures HasKey(entries, k) {
      assert Get(counts, k) >= 1;
      var e :| e in unsorted && KeyOf(e) == k;
      assert e in entries;
    }
  }

  function EntryFor(counts: map<Key, nat>, excluded: map<Key, nat>, k: Key): Entry {
    Entry(k.cop, Get(counts, k), Get(excluded, k), k.severity, k.correctable)
  }

  method ListEntries(counts: map<Key, nat>, excluded: map<Key, nat>) returns (unsorted: seq<Entry>)
    ensures forall e :: e in unsorted ==> KeyOf(e) in counts && e == EntryFor(counts, excluded, KeyOf(e))
    ensures forall k :: k in counts ==> HasKey(unsorted, k)
    ensures KeysDiffer(unsorted, EntryBefore)
  {
    unsorted := [];
    var pending := counts.Keys;
    while pending != {}
      invariant pending <= counts.Keys
      invariant forall e :: e in unsorted ==>
        KeyOf(e) in counts.Keys - pending && e == EntryFor(counts, excluded, KeyOf(e))
      invariant forall k :: k in counts.Keys - pending ==> HasKey(unsorted, k)
      invariant KeysDiffer(unsorted, EntryBefore)
    {
      var k :| k in pending;
      pending := pending - {k};
      var e := EntryFor(counts, excluded, k);
      forall i | 0 <= i < |unsorted| ensures EntryBefore(unsorted[i], e) || EntryBefore(e, unsorted[i]) {
        assert unsorted[i] in unsorted;
        KeysCompare(unsorted[i], e);
      }
      AppendKeepsKeys(unsorted, e);
      unsorted := unsorted + [e];
    }
  }

  lemma AppendKeepsKeys(entries: seq<Entry>, e: Entry)
    ensures forall k :: HasKey(entries + [e], k) <==> HasKey(entries, k) || k == KeyOf(e)
  {
  }

  // ---------------------------------------------------------------------------
  // The fingerprint is a canonical form
  // ---------------------------------------------------------------------------

  lemma SameKeySameEntry(e: Entry, f: Entry, marks: seq<Mark>)
    requires Tells(e, marks) && Tells(f, marks)
    ensures KeyOf(e) == KeyOf(f) ==> e == f
    ensures !EntryBefore(e, e)
  {
  }

  /** Entries have distinct keys, and 0 <= excludedCount <= count. */
  lemma EntriesWellFormed(entries: seq<Entry>, marks: seq<Mark>)
    requires IsFingerprint(entries, marks)
    ensures forall i, j :: 0 <= i < j < |entries| ==> KeyOf(entries[i]) != KeyOf(entries[j])
    ensures forall e :: e in entries ==> 0 <= e.excludedCount <= e.count && e.count >= 1
  {
    forall i, j | 0 <= i < j < |entries| ensures KeyOf(entries[i]) != KeyOf(entries[j]) {
      assert EntryBefore(entries[i], entries[j]);
      assert entries[i] in entries && entries[j] in entries;
      SameKeySameEntry(entries[i], entries[j], marks);
    }
  }

  /** Two lists of offences have the same fingerprint if and only if they agree, order
      aside, on (cop, severity, corrected, excluded or not). */
  lemma FingerprintIsCanonical(a: seq<Entry>, aMarks: seq<Mark>, b: seq<Entry>, bMarks: seq<Mark>)
    requires IsFingerprint(a, aMarks) && IsFingerprint(b, bMarks)
    ensures a == b <==> multiset(aMarks) == multiset(bMarks)
  {
    if multiset(aMarks) == multiset(bMarks) {
      SameEntries(a, b, aMarks, bMarks);
      SameEntries(b, a, bMarks, aMarks);
      EntryBeforeIsSortKey();
      StrictlyOrderedUnique(a, b, EntryBefore);
    }
    if a == b {
      forall m ensures multiset(aMarks)[m] == multiset(bMarks)[m] {
        CountsFromEntries(a, aMarks, m);
        CountsFromEntries(a, bMarks, m);
      }
    }
  }

  lemma SameEntries(a: seq<Entry>, b: seq<Entry>, aMarks: seq<Mark>, bMarks: seq<Mark>)
    requires IsFingerprint(a, aMarks) && IsFingerprint(b, bMarks) && multiset(aMarks) == multiset(bMarks)
    ensures forall e :: e in a ==> e in b
  {
    forall e | e in a ensures e in b {
      assert Tells(e, aMarks);
      assert Count(bMarks, KeyOf(e)) >= 1;
      var f :| f in b && KeyOf(f) == KeyOf(e);
      assert Tells(f, bMarks);
    }
  }

  /** How often a mark occurs can be read off the entries. */
  ghost function TimesTold(entries: seq<Entry>, m: Mark): nat {
    if e :| e in entries && KeyOf(e) == m.key then
      if m.excluded then e.excludedCount else if e.count >= e.excludedCount then e.count - e.excludedCount else 0
    else 0
  }

  lemma CountsFromEntries(entries: seq<Entry>, marks: seq<Mark>, m: Mark)
    requires IsFingerprint(entries, marks)
    ensures Times(marks, m) == TimesTold(entries, m)
  {
    if Count(marks, m.key) >= 1 {
      var e :| e in entries && KeyOf(e) == m.key;
    }
  }

  // --- The same, said of the offences ------------------------------------------

  /** Which of the offences have this cop, severity and `corrected` flag. */
  ghost function Having(offs: seq<Offense>, cop: string, severity: string, corrected: bool): set<nat> {
    set i: nat | i < |offs| && offs[i].cop == cop && offs[i].severity == severity && offs[i].corrected == corrected
  }

  /** Which of the offences the scope excludes. */
  ghost function ExcludedOnes(rules: PathRules, scope: seq<Exclusion>, offs: seq<Offense>): set<nat> {
    set i: nat | i < |offs| && ExcludesOffense(rules, scope, offs[i])
  }

  ghost function Places(marks: seq<Mark>, m: Mark): set<nat> { set i: nat | i < |marks| && marks[i] == m }

  lemma {:induction false} TimesIsPlaces(marks: seq<Mark>, m: Mark)
    ensures Times(marks, m) == |Places(marks, m)|
  {
    if marks != [] {
      var n := |marks| - 1;
      TimesIsPlaces(marks[..n], m);
      assert marks == marks[..n] + [marks[n]];
      assert Places(marks, m) == Places(marks[..n], m) + if marks[n] == m then {n} else {};
    }
  }

  lemma PlacesOfMark(rules: PathRules, scope: seq<Exclusion>, offs: seq<Offense>, k: Key, excluded: bool)
    ensures var all, out := Having(offs, k.cop, k.severity, k.correctable), ExcludedOnes(rules, scope, offs);
            Places(Marks(rules, scope, offs), Mark(k, excluded)) == if excluded then all * out else all - out
  {
    var all, out := Having(offs, k.cop, k.severity, k.correctable), ExcludedOnes(rules, scope, offs);
    var marks := Marks(rules, scope, offs);
    forall i: nat
      ensures i in Places(marks, Mark(k, excluded)) <==> i in if excluded then all * out else all - out
    {
      if i < |offs| { assert marks[i] == MarkOf(rules, scope, offs[i]); }
    }
  }

  lemma MarkedOnes(rules: PathRules, scope: seq<Exclusion>, offs: seq<Offense>, k: Key)
    ensures var all, out := Having(offs, k.cop, k.severity, k.correctable), ExcludedOnes(rules, scope, offs);
            && Times(Marks(rules, scope, offs), Mark(k, true)) == |all * out|
            && Times(Marks(rules, scope, offs), Mark(k, false)) == |all - out|
            && Count(Marks(rules, scope, offs), k) == |all|
  {
    var all, out := Having(offs, k.cop, k.severity, k.correctable), ExcludedOnes(rules, scope, offs);
    PlacesOfMark(rules, scope, offs, k, true);
    PlacesOfMark(rules, scope, offs, k, false);
    TimesIsPlaces(Marks(rules, scope, offs), Mark(k, true));
    TimesIsPlaces(Marks(rules, scope, offs), Mark(k, false));
    SplitCount(all, out);
  }

  lemma SplitCount(all: set<nat>, out: set<nat>)
    ensures |all| == |all * out| + |all - out|
  {
    assert all == (all * out) + (all - out);
  }

  /** An entry counts the offences with its cop and severity whose `corrected` flag is its
      `correctable`, and among them those the scope excludes; every offence has its entry. */
  lemma EntriesCountOffences(rules: PathRules, scope: seq<Exclusion>, offs: seq<Offense>, entries: seq<Entry>)
    requires IsFingerprint(entries, Marks(rules, scope, offs))
    ensures forall e :: e in entries ==>
              && e.count == |Having(offs, e.cop, e.severity, e.correctable)|
              && e.excludedCount == |Having(offs, e.cop, e.severity, e.correctable) * ExcludedOnes(rules, scope, offs)|
    ensures forall o :: o in offs ==>
              exists e :: e in entries && e.cop == o.cop && e.severity == o.severity && e.correctable == o.corrected
  {
    var marks := Marks(rules, scope, offs);
    forall e | e in entries
      ensures e.count == |Having(offs, e.cop, e.severity, e.correctable)|
      ensures e.excludedCount == |Having(offs, e.cop, e.severity, e.correctable) * ExcludedOnes(rules, scope, offs)|
    {
      assert Tells(e, marks);
      MarkedOnes(rules, scope, offs, KeyOf(e));
    }
    forall o | o in offs
      ensures exists e :: e in entries && e.cop == o.cop && e.severity == o.severity && e.correctable == o.corrected
    {
      var i :| 0 <= i < |offs| && offs[i] == o;
      var k := Key(o.cop, o.severity, o.corrected);
      MarkedOnes(rules, scope, offs, k);
      assert i in Having(offs, k.cop, k.severity, k.correctable);
      var e :| e in entries && KeyOf(e) == k;
    }
  }

  /** Both lists have, for every cop, severity and `corrected` flag, as many offences in scope
      and as many out of it, each in its own scope. */
  ghost predicate CountAlike(rules: PathRules, aScope: seq<Exclusion>, a: seq<Offense>, bScope: seq<Exclusion>, b: seq<Offense>) {
    forall cop, severity, corrected :: CountAlikeFor(rules, aScope, a, bScope, b, cop, severity, corrected)
  }

  ghost predicate CountAlikeFor(rules: PathRules, aScope: seq<Exclusion>, a: seq<Offense>, bScope: seq<Exclusion>, b: seq<Offense>,
                                cop: string, severity: string, corrected: bool) {
    var ofA, ofB := Having(a, cop, severity, corrected), Having(b, cop, severity, corrected);
    && |ofA * ExcludedOnes(rules, aScope, a)| == |ofB * ExcludedOnes(rules, bScope, b)|
    && |ofA - ExcludedOnes(rules, aScope, a)| == |ofB - ExcludedOnes(rules, bScope, b)|
  }

  /** Two lists of offences have the same fingerprint exactly when they count alike. */
  lemma SameFingerprintIff(rules: PathRules, aScope: seq<Exclusion>, aOffs: seq<Offense>, a: seq<Entry>,
                           bScope: seq<Exclusion>, bOffs: seq<Offense>, b: seq<Entry>)
    requires IsFingerprint(a, Marks(rules, aScope, aOffs)) && IsFingerprint(b, Marks(rules, bScope, bOffs))
    ensures a == b <==> CountAlike(rules, aScope, aOffs, bScope, bOffs)
  {
    var aMarks, bMarks := Marks(rules, aScope, aOffs), Marks(rules, bScope, bOffs);
    FingerprintIsCanonical(a, aMarks, b, bMarks);
    if a == b {
      forall cop, severity, corrected ensures CountAlikeFor(rules, aScope, aOffs, bScope, bOffs, cop, severity, corrected) {
        var k := Key(cop, severity, corrected);
        MarkedOnes(rules, aScope, aOffs, k);
        MarkedOnes(rules, bScope, bOffs, k);
        assert Times(aMarks, Mark(k, true)) == Times(bMarks, Mark(k, true));
        assert Times(aMarks, Mark(k, false)) == Times(bMarks, Mark(k, false));
      }
    }
    if CountAlike(rules, aScope, aOffs, bScope, bOffs) {
      forall m: Mark ensures multiset(aMarks)[m] == multiset(bMarks)[m] {
        MarkedOnes(rules, aScope, aOffs, m.key);
        MarkedOnes(rules, bScope, bOffs, m.key);
        assert CountAlikeFor(rules, aScope, aOffs, bScope, bOffs, m.key.cop, m.key.severity, m.key.correctable);
        assert multiset(aMarks)[m] == Times(aMarks, m) && multiset(bMarks)[m] == Times(bMarks, m);
      }
    }
  }

  // ---------------------------------------------------------------------------
  // Regrouping: a sum over offences is a sum over entries
  // ---------------------------------------------------------------------------

  function SumMarks(marks: seq<Mark>, weight: Mark -> nat): nat {
    if marks == [] then 0 else SumMarks(marks[..|marks| - 1], weight) + weight(marks[|marks| - 1])
  }

  /** The share of key `k`. */
  function Share(marks: seq<Mark>, k: Key, weight: Mark -> nat): nat {
    Times(marks, Mark(k, false)) * weight(Mark(k, false)) + Times(marks, Mark(k, true)) * weight(Mark(k, true))
  }

  function SumKeys(entries: seq<Entry>, marks: seq<Mark>, weight: Mark -> nat): nat {
    if entries == [] then 0
    else SumKeys(entries[..|entries| - 1], marks, weight) + Share(marks, KeyOf(entries[|entries| - 1]), weight)
  }

  lemma ShareAppend(marks: seq<Mark>, m: Mark, k: Key, weight: Mark -> nat)
    ensures Share(marks + [m], k, weight) == Share(marks, k, weight) + if m.key == k then weight(m) else 0
  {
    TimesAppend(marks, m);
    OneMore(Times(marks, Mark(k, false)), weight(Mark(k, false)));
    OneMore(Times(marks, Mark(k, true)), weight(Mark(k, true)));
  }

  lemma OneMore(times: nat, w: nat)
    ensures (times + 1) * w == times * w + w
  {
  }

  lemma {:induction false} SumKeysAppend(entries: seq<Entry>, marks: seq<Mark>, m: Mark, weight: Mark -> nat)
    requires forall i, j :: 0 <= i < j < |entries| ==> KeyOf(entries[i]) != KeyOf(entries[j])
    ensures SumKeys(entries, marks + [m], weight) ==
            SumKeys(entries, marks, weight) + if HasKey(entries, m.key) then weight(m) else 0
  {
    if entries != [] {
      var n := |entries| - 1;
      var last := entries[n];
      SumKeysAppend(entries[..n], marks, m, weight);
      ShareAppend(marks, m, KeyOf(last), weight);
      assert entries == entries[..n] + [last];
      AppendKeepsKeys(entries[..n], last);
      if KeyOf(last) == m.key {
        assert !HasKey(entries[..n], m.key);
      }
    }
  }

  lemma {:induction false} Regroup(entries: seq<Entry>, marks: seq<Mark>, weight: Mark -> nat)
    requires forall i, j :: 0 <= i < j < |entries| ==> KeyOf(entries[i]) != KeyOf(entries[j])
    requires forall i :: 0 <= i < |marks| ==> HasKey(entries, marks[i].key)
    ensures SumKeys(entries, marks, weight) == SumMarks(marks, weight)
  {
    if marks == [] {
      NoMarksNoShare(entries, weight);
    } else {
      var n := |marks| - 1;
      assert forall i :: 0 <= i < n ==> marks[..n][i] == marks[i];
      Regroup(entries, marks[..n], weight);
      SumKeysAppend(entries, marks[..n], marks[n], weight);
      assert marks == marks[..n] + [marks[n]];
    }
  }

  lemma {:induction false} NoMarksNoShare(entries: seq<Entry>, weight: Mark -> nat)
    ensures SumKeys(entries, [], weight) == 0
  {
    if entries != [] {
      NoMarksNoShare(entries[..|entries| - 1], weight);
      assert Share([], KeyOf(entries[|entries| - 1]), weight) == 0;
    }
  }

  lemma MarksAreTold(entries: seq<Entry>, marks: seq<Mark>)
    requires IsFingerprint(entries, marks)
    ensures forall i :: 0 <= i < |marks| ==> HasKey(entries, marks[i].key)
  {
  }

  function TotalCount(entries: seq<Entry>): nat {
    if entries == [] then 0 else TotalCount(entries[..|entries| - 1]) + entries[|entries| - 1].count
  }

  /** The counts add up to the number of offences. */
  lemma CountsAddUp(entries: seq<Entry>, marks: seq<Mark>)
    requires IsFingerprint(entries, marks)
    ensures TotalCount(entries) == |marks|
  {
    EntriesWellFormed(entries, marks);
    MarksAreTold(entries, marks);
    var one := (m: Mark) => 1;
    Regroup(entries, marks, one);
    SumOfOnes(marks, one);
    TotalIsSum(entries, marks, one);
  }

  lemma {:induction false} SumOfOnes(marks: seq<Mark>, one: Mark -> nat)
    requires forall m :: one(m) == 1
    ensures SumMarks(marks, one) == |marks|
  {
    if marks != [] { SumOfOnes(marks[..|marks| - 1], one); }
  }

  lemma {:induction false} TotalIsSum(entries: seq<Entry>, marks: seq<Mark>, one: Mark -> nat)
    requires forall m :: one(m) == 1
    requires forall e :: e in entries ==> Tells(e, marks)
    ensures SumKeys(entries, marks, one) == TotalCount(entries)
  {
    if entries != [] {
      TotalIsSum(entries[..|entries| - 1], marks, one);
      assert Tells(entries[|entries| - 1], marks);
    }
  }

  // ---------------------------------------------------------------------------
  // Re-deriving the verdict
  // ---------------------------------------------------------------------------

  /** The levels of the entries with occurrences in scope, classified by cop name. */
  function EntryLevels(r: Resolver, entries: seq<Entry>): seq<Level> {
    if entries == [] then []
    else
      var front := EntryLevels(r, entries[..|entries| - 1]);
      var e := entries[|entries| - 1];
      if e.count - e.excludedCount <= 0 then front else front + [Classify(r, e.cop, "")]
  }

  lemma {:induction false} EntryLevelsHave(r: Resolver, entries: seq<Entry>, l: Level)
    ensures l in EntryLevels(r, entries) <==>
            exists e :: e in entries && e.count > e.excludedCount && Classify(r, e.cop, "") == l
  {
    if entries != [] {
      EntryLevelsHave(r, entries[..|entries| - 1], l);
      assert entries == entries[..|entries| - 1] + [entries[|entries| - 1]];
    }
  }

  method DeriveStatusFromFingerprint(entries: seq<Entry>, r: Resolver) returns (status: Status)
    ensures status == RollUp(EntryLevels(r, entries))
  {
    var hasReview := false;
    for i := 0 to |entries|
      invariant hasReview <==> Review in EntryLevels(r, entries[..i])
      invariant Blocker !in EntryLevels(r, entries[..i])
    {
      assert entries[..i + 1][..i] == entries[..i];
      var e := entries[i];
      if e.count - e.excludedCount <= 0 {
        continue;
      }
      match Classify(r, e.cop, "")
      case Blocker =>
        EntryLevelsHave(r, entries, Blocker);
        return Blocked;
      case Review => hasReview := true;
      case _ =>
    }
    assert entries[..|entries|] == entries;
    return if hasReview then NeedsReview else Ready;
  }

  /** The same offences with their messages erased. */
  function EraseMessages(offs: seq<Offense>): (r: seq<Offense>)
    ensures |r| == |offs|
    ensures forall i :: 0 <= i < |offs| ==> r[i] == offs[i].(message := "")
  {
    seq(|offs|, i requires 0 <= i < |offs| => offs[i].(message := ""))
  }

  /** A key has occurrences in scope exactly when some in-scope offence has it. */
  lemma InScopeOccurrence(rules: PathRules, scope: seq<Exclusion>, offs: seq<Offense>, k: Key)
    ensures Times(Marks(rules, scope, offs), Mark(k, false)) >= 1 <==>
            exists o :: o in offs && MarkOf(rules, scope, o) == Mark(k, false)
  {
  }

  lemma EntryLevelIsLive(rules: PathRules, scope: seq<Exclusion>, r: Resolver, offs: seq<Offense>, entries: seq<Entry>, e: Entry)
    requires IsFingerprint(entries, Marks(rules, scope, offs))
    requires e in entries && e.count > e.excludedCount
    ensures Classify(r, e.cop, "") in LiveLevels(rules, scope, r, EraseMessages(offs))
  {
    InScopeOccurrence(rules, scope, offs, KeyOf(e));
    assert Tells(e, Marks(rules, scope, offs));
    var o :| o in offs && MarkOf(rules, scope, o) == Mark(KeyOf(e), false);
    var i :| 0 <= i < |offs| && offs[i] == o;
    assert EraseMessages(offs)[i] in EraseMessages(offs);
    LiveLevelsHave(rules, scope, r, EraseMessages(offs), Classify(r, e.cop, ""));
  }

  lemma LiveLevelIsEntrys(rules: PathRules, scope: seq<Exclusion>, r: Resolver, offs: seq<Offense>, entries: seq<Entry>, o: Offense)
    requires IsFingerprint(entries, Marks(rules, scope, offs))
    requires o in offs && !ExcludesOffense(rules, scope, o)
    ensures Classify(r, o.cop, "") in EntryLevels(r, entries)
  {
    var k := MarkOf(rules, scope, o).key;
    InScopeOccurrence(rules, scope, offs, k);
    assert HasKey(entries, k);
    var e :| e in entries && KeyOf(e) == k;
    assert Tells(e, Marks(rules, scope, offs));
    EntryLevelsHave(r, entries, Classify(r, o.cop, ""));
  }

  lemma LevelsAgree(rules: PathRules, scope: seq<Exclusion>, r: Resolver, offs: seq<Offense>, entries: seq<Entry>, l: Level)
    requires IsFingerprint(entries, Marks(rules, scope, offs))
    ensures l in EntryLevels(r, entries) <==> l in LiveLevels(rules, scope, r, EraseMessages(offs))
  {
    EntryLevelsHave(r, entries, l);
    LiveLevelsHave(rules, scope, r, EraseMessages(offs), l);
    if e :| e in entries && e.count > e.excludedCount && Classify(r, e.cop, "") == l {
      EntryLevelIsLive(rules, scope, r, offs, entries, e);
    }
    if x :| x in EraseMessages(offs) && !ExcludesOffense(rules, scope, x) && Classify(r, x.cop, x.message) == l {
      var i :| 0 <= i < |offs| && EraseMessages(offs)[i] == x;
      LiveLevelIsEntrys(rules, scope, r, offs, entries, offs[i]);
    }
  }

  /** Compressing offences to a fingerprint preserves the verdict: for every offence list,
      scope and resolver it is the live verdict of the same list with messages erased. */
  lemma VerdictPreserved(rules: PathRules, scope: seq<Exclusion>, r: Resolver, offs: seq<Offense>, entries: seq<Entry>)
    requires IsFingerprint(entries, Marks(rules, scope, offs))
    ensures RollUp(EntryLevels(r, entries)) == RollUp(LiveLevels(rules, scope, r, EraseMessages(offs)))
  {
    LevelsAgree(rules, scope, r, offs, entries, Blocker);
    LevelsAgree(rules, scope, r, offs, entries, Review);
  }

  /** Some in-scope offence blocks, judged with its message. */
  ghost predicate BlocksByMessage(rules: PathRules, scope: seq<Exclusion>, r: Resolver, offs: seq<Offense>) {
    exists i :: 0 <= i < |offs| && !ExcludesOffense(rules, scope, offs[i]) && Classify(r, offs[i].cop, offs[i].message) == Blocker
  }

  /** Some in-scope offence blocks, judged by its cop alone. */
  ghost predicate BlocksByCop(rules: PathRules, scope: seq<Exclusion>, r: Resolver, offs: seq<Offense>) {
    exists i :: 0 <= i < |offs| && !ExcludesOffense(rules, scope, offs[i]) && Classify(r, offs[i].cop, "") == Blocker
  }

  lemma BlockingLevels(rules: PathRules, scope: seq<Exclusion>, r: Resolver, offs: seq<Offense>)
    ensures Blocker in LiveLevels(rules, scope, r, offs) <==> BlocksByMessage(rules, scope, r, offs)
  {
    LiveLevelsHave(rules, scope, r, offs, Blocker);
    if i :| 0 <= i < |offs| && !ExcludesOffense(rules, scope, offs[i]) && Classify(r, offs[i].cop, offs[i].message) == Blocker {
      assert offs[i] in offs;
    }
  }

  lemma ErasedBlocksByCop(rules: PathRules, scope: seq<Exclusion>, r: Resolver, offs: seq<Offense>)
    ensures BlocksByMessage(rules, scope, r, EraseMessages(offs)) <==> BlocksByCop(rules, scope, r, offs)
  {
    var erased := EraseMessages(offs);
    forall i | 0 <= i < |offs|
      ensures ExcludesOffense(rules, scope, erased[i]) == ExcludesOffense(rules, scope, offs[i])
      ensures Classify(r, erased[i].cop, erased[i].message) == Classify(r, offs[i].cop, "")
    {
    }
  }

  /** Some in-scope offence is of a cop that blocks by override or by its name. */
  ghost predicate SomeBlocksRegardless(rules: PathRules, scope: seq<Exclusion>, r: Resolver, offs: seq<Offense>) {
    exists i :: 0 <= i < |offs| && !ExcludesOffense(rules, scope, offs[i]) && BlocksRegardless(r, offs[i].cop)
  }

  /** Some in-scope offence is of a construct the table gives a reached removal for, looked up
      with its message. */
  ghost predicate SomeRemovedByMessage(rules: PathRules, scope: seq<Exclusion>, r: Resolver, offs: seq<Offense>) {
    exists i :: 0 <= i < |offs| && !ExcludesOffense(rules, scope, offs[i]) &&
                AsksTable(r, offs[i].cop) && Removed(r, offs[i].cop, offs[i].message)
  }

  /** The same, looked up by its cop alone. */
  ghost predicate SomeRemovedByCop(rules: PathRules, scope: seq<Exclusion>, r: Resolver, offs: seq<Offense>) {
    exists i :: 0 <= i < |offs| && !ExcludesOffense(rules, scope, offs[i]) &&
                AsksTable(r, offs[i].cop) && Removed(r, offs[i].cop, "")
  }

  lemma WhatBlocks(rules: PathRules, scope: seq<Exclusion>, r: Resolver, offs: seq<Offense>)
    ensures BlocksByMessage(rules, scope, r, offs) <==>
            SomeBlocksRegardless(rules, scope, r, offs) || SomeRemovedByMessage(rules, scope, r, offs)
    ensures BlocksByCop(rules, scope, r, offs) <==>
            SomeBlocksRegardless(rules, scope, r, offs) || SomeRemovedByCop(rules, scope, r, offs)
  {
    forall i | 0 <= i < |offs|
      ensures Classify(r, offs[i].cop, offs[i].message) == Blocker <==>
              BlocksRegardless(r, offs[i].cop) || (AsksTable(r, offs[i].cop) && Removed(r, offs[i].cop, offs[i].message))
      ensures Classify(r, offs[i].cop, "") == Blocker <==>
              BlocksRegardless(r, offs[i].cop) || (AsksTable(r, offs[i].cop) && Removed(r, offs[i].cop, ""))
    {
      BlockersAreProven(r, offs[i].cop, offs[i].message);
      BlockersAreProven(r, offs[i].cop, "");
    }
  }

  /** Some in-scope offence is one to look at: the operator says so, or nothing is known of its
      cop, and it is not structural noise. */
  ghost predicate SomeToReview(rules: PathRules, scope: seq<Exclusion>, r: Resolver, offs: seq<Offense>) {
    exists i :: 0 <= i < |offs| && !ExcludesOffense(rules, scope, offs[i]) && ToReview(r, offs[i])
  }

  predicate ToReview(r: Resolver, o: Offense) {
    if o.cop in r.overrides then r.overrides[o.cop] == Review
    else !IsCustomCop(o.cop) && !Removed(r, o.cop, o.message) && !IsStructuralNoise(o.cop)
  }

  /** A cookbook is blocked exactly when an in-scope offence blocks by override or name or is
      of a removed construct, and needs review exactly when none does and one is to be looked
      at; everything else is ready. */
  lemma LiveVerdictMeans(rules: PathRules, scope: seq<Exclusion>, r: Resolver, offs: seq<Offense>)
    ensures var blocks := SomeBlocksRegardless(rules, scope, r, offs) || SomeRemovedByMessage(rules, scope, r, offs);
            var verdict := RollUp(LiveLevels(rules, scope, r, offs));
            && (verdict == Blocked <==> blocks)
            && (verdict == NeedsReview <==> !blocks && SomeToReview(rules, scope, r, offs))
  {
    BlockingLevels(rules, scope, r, offs);
    WhatBlocks(rules, scope, r, offs);
    LiveLevelsHave(rules, scope, r, offs, Review);
    forall o ensures ToReview(r, o) <==> Classify(r, o.cop, o.message) == Review {}
    if i :| 0 <= i < |offs| && !ExcludesOffense(rules, scope, offs[i]) && ToReview(r, offs[i]) {
      assert offs[i] in offs;
    }
  }

  /** The re-derived verdict is the live one exactly when something in scope blocks whatever
      the table says, or looking removals up with messages and by cop alone agree on whether
      any in-scope offence hits one. */
  lemma VerdictPreservedIff(rules: PathRules, scope: seq<Exclusion>, r: Resolver, offs: seq<Offense>, entries: seq<Entry>)
    requires IsFingerprint(entries, Marks(rules, scope, offs))
    ensures RollUp(EntryLevels(r, entries)) == RollUp(LiveLevels(rules, scope, r, offs)) <==>
            || SomeBlocksRegardless(rules, scope, r, offs)
            || (SomeRemovedByMessage(rules, scope, r, offs) <==> SomeRemovedByCop(rules, scope, r, offs))
  {
    VerdictPreserved(rules, scope, r, offs, entries);
    BlockingLevels(rules, scope, r, offs);
    BlockingLevels(rules, scope, r, EraseMessages(offs));
    ErasedBlocksByCop(rules, scope, r, offs);
    WhatBlocks(rules, scope, r, offs);
    if !BlocksByMessage(rules, scope, r, offs) && !BlocksByCop(rules, scope, r, offs) {
      WithoutBlockersAlike(rules, scope, r, offs);
    }
  }

  /** A message can only decide whether a construct is known to be removed, so where nothing
      blocks either way it changes nothing. */
  lemma WithoutBlockersAlike(rules: PathRules, scope: seq<Exclusion>, r: Resolver, offs: seq<Offense>)
    requires !BlocksByMessage(rules, scope, r, offs) && !BlocksByCop(rules, scope, r, offs)
    ensures LiveLevels(rules, scope, r, EraseMessages(offs)) == LiveLevels(rules, scope, r, offs)
  {
    forall o | o in offs && !ExcludesOffense(rules, scope, o)
      ensures Classify(r, o.cop, o.message) == Classify(r, o.cop, "")
    {
      var i :| 0 <= i < |offs| && offs[i] == o;
      assert Classify(r, offs[i].cop, offs[i].message) != Blocker && Classify(r, offs[i].cop, "") != Blocker;
    }
    ErasingKeepsLevels(rules, scope, r, offs);
  }

  /** In particular wherever no in-scope offence's message changes its classification. */
  lemma VerdictPreservedExactly(rules: PathRules, scope: seq<Exclusion>, r: Resolver, offs: seq<Offense>, entries: seq<Entry>)
    requires IsFingerprint(entries, Marks(rules, scope, offs))
    requires forall o :: o in offs && !ExcludesOffense(rules, scope, o) ==>
               Classify(r, o.cop, o.message) == Classify(r, o.cop, "")
    ensures RollUp(EntryLevels(r, entries)) == RollUp(LiveLevels(rules, scope, r, offs))
  {
    VerdictPreserved(rules, scope, r, offs, entries);
    ErasingKeepsLevels(rules, scope, r, offs);
  }

  lemma {:induction false} ErasingKeepsLevels(rules: PathRules, scope: seq<Exclusion>, r: Resolver, offs: seq<Offense>)
    requires forall o :: o in offs && !ExcludesOffense(rules, scope, o) ==>
               Classify(r, o.cop, o.message) == Classify(r, o.cop, "")
    ensures LiveLevels(rules, scope, r, EraseMessages(offs)) == LiveLevels(rules, scope, r, offs)
  {
    if offs != [] {
      var n := |offs| - 1;
      ErasingKeepsLevels(rules, scope, r, offs[..n]);
      assert EraseMessages(offs)[..n] == EraseMessages(offs[..n]);
      assert offs[n] in offs;
    }
  }

  // ---------------------------------------------------------------------------
  // Re-deriving the complexity
  // ---------------------------------------------------------------------------

  /** Weight of the in-scope offences, one by one, each classified with its message. */
  function LiveComplexity(rules: PathRules, scope: seq<Exclusion>, r: Resolver, offs: seq<Offense>): nat {
    if offs == [] then 0
    else
      var o := offs[|offs| - 1];
      LiveComplexity(rules, scope, r, offs[..|offs| - 1]) +
      if ExcludesOffense(rules, scope, o) then 0 else Weight(Classify(r, o.cop, o.message), o.cop, o.severity)
  }

  /** An offence as it is stored: the file is kept with the location, and whether it was
      corrected is not kept. */
  function Stored(o: Offense): Offense { o.(file := "", locationFile := o.file, corrected := false) }

  function StoredAll(offs: seq<Offense>): (r: seq<Offense>)
    ensures |r| == |offs|
    ensures forall i :: 0 <= i < |offs| ==> r[i] == Stored(offs[i])
  {
    seq(|offs|, i requires 0 <= i < |offs| => Stored(offs[i]))
  }

  /** The score of stored offences, which asks the scope about the location's file alone. */
  function StoredComplexity(rules: PathRules, scope: seq<Exclusion>, r: Resolver, offs: seq<Offense>): nat {
    if offs == [] then 0
    else
      var o := offs[|offs| - 1];
      StoredComplexity(rules, scope, r, offs[..|offs| - 1]) +
      if ExcludesPath(rules, scope, o.locationFile) then 0 else Weight(Classify(r, o.cop, o.message), o.cop, o.severity)
  }

  /** A scanned offence has its path in `file` and nothing in its location. */
  ghost predicate AsScanned(offs: seq<Offense>) {
    forall i :: 0 <= i < |offs| ==> offs[i].locationFile == ""
  }

  /** Storing scanned offences and reading them back changes neither their score, though the
      scorer looks in another field for the path, nor their verdict. */
  lemma {:induction false} StoringKeepsScore(rules: PathRules, scope: seq<Exclusion>, r: Resolver, offs: seq<Offense>)
    requires AsScanned(offs)
    ensures StoredComplexity(rules, scope, r, StoredAll(offs)) == LiveComplexity(rules, scope, r, offs)
    ensures LiveLevels(rules, scope, r, StoredAll(offs)) == LiveLevels(rules, scope, r, offs)
  {
    if offs != [] {
      var n := |offs| - 1;
      StoringKeepsScore(rules, scope, r, offs[..n]);
      assert StoredAll(offs)[..n] == StoredAll(offs[..n]);
      assert PathOf(Stored(offs[n])) == PathOf(offs[n]) == Stored(offs[n]).locationFile;
    }
  }

  /** An entry's weight, once per occurrence in scope. */
  function EntryComplexity(r: Resolver, e: Entry): nat {
    if e.count <= e.excludedCount then 0
    else Weight(Classify(r, e.cop, ""), e.cop, e.severity) * (e.count - e.excludedCount)
  }

  function EntriesComplexity(r: Resolver, entries: seq<Entry>): nat {
    if entries == [] then 0
    else EntriesComplexity(r, entries[..|entries| - 1]) + EntryComplexity(r, entries[|entries| - 1])
  }

  method ComplexityFromFingerprint(entries: seq<Entry>, r: Resolver) returns (total: nat)
    ensures total == EntriesComplexity(r, entries)
  {
    total := 0;
    for i := 0 to |entries|
      invariant total == EntriesComplexity(r, entries[..i])
    {
      assert entries[..i + 1][..i] == entries[..i];
      var e := entries[i];
      var inScope := e.count - e.excludedCount;
      if inScope <= 0 {
        continue;
      }
      assert EntryComplexity(r, e) == Weight(Classify(r, e.cop, ""), e.cop, e.severity) * inScope;
      total := total + Weight(Classify(r, e.cop, ""), e.cop, e.severity) * inScope;
    }
    assert entries[..|entries|] == entries;
  }

  function MarkWeight(r: Resolver, m: Mark): nat {
    if m.excluded then 0 else Weight(Classify(r, m.key.cop, ""), m.key.cop, m.key.severity)
  }

  /** Complexity re-derived from the fingerprint is the live complexity of the original
      offences with messages erased. */
  lemma ComplexityPreserved(rules: PathRules, scope: seq<Exclusion>, r: Resolver, offs: seq<Offense>, entries: seq<Entry>)
    requires IsFingerprint(entries, Marks(rules, scope, offs))
    ensures EntriesComplexity(r, entries) == LiveComplexity(rules, scope, r, EraseMessages(offs))
  {
    var marks := Marks(rules, scope, offs);
    var weight := (m: Mark) => MarkWeight(r, m);
    EntriesWellFormed(entries, marks);
    MarksAreTold(entries, marks);
    Regroup(entries, marks, weight);
    ComplexityIsSum(rules, scope, r, offs, weight);
    EntriesAreShares(r, entries, marks, weight);
  }

  lemma {:induction false} ComplexityIsSum(rules: PathRules, scope: seq<Exclusion>, r: Resolver, offs: seq<Offense>, weight: Mark -> nat)
    requires forall m :: weight(m) == MarkWeight(r, m)
    ensures SumMarks(Marks(rules, scope, offs), weight) == LiveComplexity(rules, scope, r, EraseMessages(offs))
  {
    if offs != [] {
      var n := |offs| - 1;
      ComplexityIsSum(rules, scope, r, offs[..n], weight);
      assert Marks(rules, scope, offs)[..n] == Marks(rules, scope, offs[..n]);
      assert EraseMessages(offs)[..n] == EraseMessages(offs[..n]);
    }
  }

  lemma {:induction false} EntriesAreShares(r: Resolver, entries: seq<Entry>, marks: seq<Mark>, weight: Mark -> nat)
    requires forall m :: weight(m) == MarkWeight(r, m)
    requires forall e :: e in entries ==> Tells(e, marks)
    ensures SumKeys(entries, marks, weight) == EntriesComplexity(r, entries)
  {
    if entries != [] {
      var e := entries[|entries| - 1];
      EntriesAreShares(r, entries[..|entries| - 1], marks, weight);
      ShareIsComplexity(r, e, marks, weight);
    }
  }

  lemma ShareIsComplexity(r: Resolver, e: Entry, marks: seq<Mark>, weight: Mark -> nat)
    requires forall m :: weight(m) == MarkWeight(r, m)
    requires Tells(e, marks)
    ensures Share(marks, KeyOf(e), weight) == EntryComplexity(r, e)
  {
    var k := KeyOf(e);
    assert weight(Mark(k, true)) == 0;
    assert weight(Mark(k, false)) == Weight(Classify(r, e.cop, ""), e.cop, e.severity);
    assert Times(marks, Mark(k, false)) == e.count - e.excludedCount;
  }

  /** The drifts of the in-scope offences, added up: only those whose message changes what
      the removal table says contribute. */
  function TotalDrift(rules: PathRules, scope: seq<Exclusion>, r: Resolver, offs: seq<Offense>): int {
    if offs == [] then 0
    else
      var o := offs[|offs| - 1];
      TotalDrift(rules, scope, r, offs[..|offs| - 1]) +
      if ExcludesOffense(rules, scope, o) then 0 else Drift(r, o.cop, o.message)
  }

  lemma {:induction false} ErasingDrifts(rules: PathRules, scope: seq<Exclusion>, r: Resolver, offs: seq<Offense>)
    ensures LiveComplexity(rules, scope, r, EraseMessages(offs)) - LiveComplexity(rules, scope, r, offs) ==
            TotalDrift(rules, scope, r, offs)
  {
    if offs != [] {
      var n := |offs| - 1;
      ErasingDrifts(rules, scope, r, offs[..n]);
      assert EraseMessages(offs)[..n] == EraseMessages(offs[..n]);
      MessageChangesWeight(r, offs[n].cop, offs[n].message, offs[n].severity);
    }
  }

  /** The re-derived complexity exceeds the live one by the total drift, so the two are equal
      exactly when the drifts cancel out. */
  lemma ComplexityDrift(rules: PathRules, scope: seq<Exclusion>, r: Resolver, offs: seq<Offense>, entries: seq<Entry>)
    requires IsFingerprint(entries, Marks(rules, scope, offs))
    ensures EntriesComplexity(r, entries) == LiveComplexity(rules, scope, r, offs) + TotalDrift(rules, scope, r, offs)
    ensures EntriesComplexity(r, entries) == LiveComplexity(rules, scope, r, offs) <==> TotalDrift(rules, scope, r, offs) == 0
  {
    ComplexityPreserved(rules, scope, r, offs, entries);
    ErasingDrifts(rules, scope, r, offs);
  }

  /** In particular where no in-scope message changes what the table says. */
  lemma {:induction false} NoDrift(rules: PathRules, scope: seq<Exclusion>, r: Resolver, offs: seq<Offense>)
    requires forall o :: o in offs && !ExcludesOffense(rules, scope, o) ==> !MessageMatters(r, o.cop, o.message)
    ensures TotalDrift(rules, scope, r, offs) == 0
  {
    if offs != [] {
      NoDrift(rules, scope, r, offs[..|offs| - 1]);
      assert offs[|offs| - 1] in offs;
    }
  }

  /** An offence of a cop that covers several constructs: the table knows a reached removal
      for the cop, but none for the construct the message is about. */
  ghost predicate NotThisOne(r: Resolver, o: Offense) {
    && AsksTable(r, o.cop) && !IsStructuralNoise(o.cop)
    && Removed(r, o.cop, "") && r.removedIn(o.cop, o.message) == Some("")
  }

  /** One such offence alone needs review and weighs 1 when scanned, but is blocked and weighs
      8 when re-derived from its fingerprint. */
  lemma RederivedDiffers(rules: PathRules, r: Resolver, o: Offense, entries: seq<Entry>)
    requires NotThisOne(r, o) && IsFingerprint(entries, Marks(rules, [], [o]))
    ensures RollUp(LiveLevels(rules, [], r, [o])) == NeedsReview && RollUp(EntryLevels(r, entries)) == Blocked
    ensures LiveComplexity(rules, [], r, [o]) == 1 && EntriesComplexity(r, entries) == 8
  {
    VerdictPreserved(rules, [], r, [o], entries);
    ComplexityPreserved(rules, [], r, [o], entries);
    assert EraseMessages([o]) == [o.(message := "")];
    OneOffence(rules, r, o);
    OneOffence(rules, r, o.(message := ""));
  }

  lemma OneOffence(rules: PathRules, r: Resolver, o: Offense)
    ensures LiveLevels(rules, [], r, [o]) == [Classify(r, o.cop, o.message)]
    ensures LiveComplexity(rules, [], r, [o]) == Weight(Classify(r, o.cop, o.message), o.cop, o.severity)
  {
    assert [o][..0] == [];
  }

  /** No structural rule names a cop like this one. */
  lemma NoStructuralRule(cop: string)
    requires |cop| >= 2 && cop[0] == 'L' && cop[1] == 'i'
    requires forall c :: c in "fFvbB" ==> c !in cop
    ensures !IsCustomCop(cop) && !IsStructuralNoise(cop)
  {
    if |cop| >= 7 { assert cop[..7][1] == cop[1]; }
    var absent := "fFvbB";
    NotContained(cop, "ChefSpec", absent[0]);
    NotContained(cop, "Foodcritic", absent[1]);
    NotContained(cop, "Delivery", absent[2]);
    NotContained(cop, "Librarian", absent[3]);
    NotContained(cop, "Berks", absent[4]);
  }

  lemma AbsentFromClassMethods(cop: string, c: char)
    requires cop == "Lint/DeprecatedClassMethods" && c in "fFvbB"
    ensures c !in cop
  {
    AbsentFromParts(c);
    assert cop == "Lint/Deprecated" + "ClassMethods";
  }

  lemma AbsentFromParts(c: char)
    requires c in "fFvbB"
    ensures c !in "Lint/Deprecated" && c !in "ClassMethods"
  {
  }

  /** The curated table has such a pair: at target 19.0 a `Lint/DeprecatedClassMethods` cop is
      a reached removal, but its message about `Socket.gethostbyname` names none. */
  lemma ClassMethodsDiffer(r: Resolver, o: Offense)
    requires o.cop == "Lint/DeprecatedClassMethods" && o.cop !in r.overrides && r.target == "19.0"
    requires r.removedIn(o.cop, "") == Some("19.0") && r.removedIn(o.cop, o.message) == Some("")
    ensures NotThisOne(r, o)
  {
    forall c | c in "fFvbB" ensures c !in o.cop { AbsentFromClassMethods(o.cop, c); }
    NoStructuralRule(o.cop);
  }

  // ---------------------------------------------------------------------------
  // Monotonicity
  // ---------------------------------------------------------------------------

  /** Raising the target, or dropping exclusions, or both, never moves the live verdict
      down. */
  lemma LiveVerdictMonotone(rules: PathRules, more: seq<Exclusion>, less: seq<Exclusion>, r: Resolver, later: Resolver, offs: seq<Offense>)
    requires RaisedTo(r, later) && Patterns(less) <= Patterns(more)
    ensures Rank(RollUp(LiveLevels(rules, more, r, offs))) <= Rank(RollUp(LiveLevels(rules, less, later, offs)))
  {
    var before, after := LiveLevels(rules, more, r, offs), LiveLevels(rules, less, later, offs);
    forall l | l in before ensures l in after || Blocker in after {
      LiveLevelsHave(rules, more, r, offs, l);
      var o :| o in offs && !ExcludesOffense(rules, more, o) && Classify(r, o.cop, o.message) == l;
      if ExcludesOffense(rules, less, o) { FewerPatternsExcludeLess(rules, less, more, o); }
      RaisingTargetOnlyBlocks(r, later, o.cop, o.message);
      LiveLevelsHave(rules, less, later, offs, l);
      LiveLevelsHave(rules, less, later, offs, Blocker);
    }
    MoreLevelsNeverImprove(before, after);
  }

  /** Raising the target never moves a verdict re-derived from a fingerprint down. */
  lemma FingerprintVerdictMonotone(r: Resolver, later: Resolver, entries: seq<Entry>)
    requires RaisedTo(r, later)
    ensures Rank(RollUp(EntryLevels(r, entries))) <= Rank(RollUp(EntryLevels(later, entries)))
  {
    var before, after := EntryLevels(r, entries), EntryLevels(later, entries);
    forall l | l in before ensures l in after || Blocker in after {
      EntryLevelsHave(r, entries, l);
      var e :| e in entries && e.count > e.excludedCount && Classify(r, e.cop, "") == l;
      RaisingTargetOnlyBlocks(r, later, e.cop, "");
      EntryLevelsHave(later, entries, l);
      EntryLevelsHave(later, entries, Blocker);
    }
    MoreLevelsNeverImprove(before, after);
  }

  /** Nor does it ever lower the complexity. */
  lemma {:induction false} ComplexityMonotone(r: Resolver, later: Resolver, entries: seq<Entry>)
    requires RaisedTo(r, later)
    ensures EntriesComplexity(r, entries) <= EntriesComplexity(later, entries)
  {
    if entries != [] {
      var e := entries[|entries| - 1];
      ComplexityMonotone(r, later, entries[..|entries| - 1]);
      RaisingTargetOnlyBlocks(r, later, e.cop, "");
      BlockerWeighsMost(Classify(r, e.cop, ""), e.cop, e.severity);
      var w, w' := Weight(Classify(r, e.cop, ""), e.cop, e.severity), Weight(Classify(later, e.cop, ""), e.cop, e.severity);
      if e.count > e.excludedCount {
        assert w * (e.count - e.excludedCount) <= w' * (e.count - e.excludedCount);
      }
    }
  }
}
