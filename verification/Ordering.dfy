/** The orders the collectors and analysers sort by, and the sort they call.

    Strings compare the way the source compares them: character by character, a
    proper prefix first. (Dafny's own `<` on strings is the prefix order.)
 */
module Ordering {

  /** Lexicographic "less than" on strings. */
  predicate StrLess(a: string, b: string) {
    if b == "" then false
    else if a == "" then true
    else if a[0] != b[0] then a[0] < b[0]
    else StrLess(a[1..], b[1..])
  }

  lemma {:induction false} StrLessIrreflexive(a: string)
    ensures !StrLess(a, a)
  {
    if a != "" { StrLessIrreflexive(a[1..]); }
  }

  lemma {:induction false} StrLessTransitive(a: string, b: string, c: string)
    requires StrLess(a, b) && StrLess(b, c)
    ensures StrLess(a, c)
  {
    if a != "" && a[0] == b[0] == c[0] { StrLessTransitive(a[1..], b[1..], c[1..]); }
  }

  lemma {:induction false} StrLessTotal(a: string, b: string)
    ensures StrLess(a, b) || a == b || StrLess(b, a)
  {
    if a != "" && b != "" && a[0] == b[0] {
      StrLessTotal(a[1..], b[1..]);
      assert a == [a[0]] + a[1..] && b == [b[0]] + b[1..];
    }
  }

  /** Names a triple of values, to say which instance of transitivity is meant. */
  ghost predicate Consider<T>(a: T, b: T, c: T) { true }

  /** What a comparison must satisfy for a sort by it to make sense. */
  ghost predicate SortKey<T(!new)>(before: (T, T) -> bool) {
    forall a, b, c {:trigger Consider(a, b, c)} ::
      !before(a, a) && (before(a, b) && before(b, c) ==> before(a, c))
  }

  /** Each element is before every later one, so no key appears twice. */
  ghost predicate StrictlyOrdered<T>(s: seq<T>, before: (T, T) -> bool) {
    forall i, j :: 0 <= i < j < |s| ==> before(s[i], s[j])
  }

  /** Any two elements at different places are comparable: no key repeats. */
  ghost predicate KeysDiffer<T>(s: seq<T>, before: (T, T) -> bool) {
    forall i, j :: 0 <= i < j < |s| ==> before(s[i], s[j]) || before(s[j], s[i])
  }

  /** Put `x` in front of the first element it is before. */
  function Insert<T(!new)>(x: T, s: seq<T>, before: (T, T) -> bool): (r: seq<T>)
    ensures |r| == |s| + 1
    ensures forall y :: y in r <==> y in s || y == x
  {
    if s == [] || before(x, s[0]) then [x] + s
    else [s[0]] + Insert(x, s[1..], before)
  }

  /** The sort the source calls, as an insertion sort. Every list it is applied
      to has distinct keys, and then (`SortStrict`, `StrictlyOrderedUnique`) the
      result does not depend on which sort it is. */
  function Sort<T(!new)>(s: seq<T>, before: (T, T) -> bool): (r: seq<T>)
    ensures |r| == |s|
    ensures forall y :: y in r <==> y in s
  {
    if s == [] then []
    else Insert(s[0], Sort(s[1..], before), before)
  }

  lemma {:induction false} InsertStrict<T(!new)>(x: T, s: seq<T>, before: (T, T) -> bool)
    requires SortKey(before) && StrictlyOrdered(s, before)
    requires forall y :: y in s ==> before(x, y) || before(y, x)
    ensures StrictlyOrdered(Insert(x, s, before), before)
  {
    if s != [] {
      if before(x, s[0]) {
        forall j | 0 <= j < |s| ensures before(x, s[j]) { assert Consider(x, s[0], s[j]); }
      } else {
        InsertStrict(x, s[1..], before);
        forall y | y in Insert(x, s[1..], before) ensures before(s[0], y) {}
      }
    }
  }

  lemma {:induction false} SortStrict<T(!new)>(s: seq<T>, before: (T, T) -> bool)
    requires SortKey(before) && KeysDiffer(s, before)
    ensures StrictlyOrdered(Sort(s, before), before)
  {
    if s != [] {
      SortStrict(s[1..], before);
      InsertStrict(s[0], Sort(s[1..], before), before);
    }
  }

  /** A strictly ordered sequence is fixed by its set of elements: two runs that
      gathered the same things in different orders give the same list. */
  lemma {:induction false} StrictlyOrderedUnique<T(!new)>(a: seq<T>, b: seq<T>, before: (T, T) -> bool)
    requires SortKey(before)
    requires StrictlyOrdered(a, before) && StrictlyOrdered(b, before)
    requires forall x :: x in a <==> x in b
    ensures a == b
  {
    if a != [] && b != [] {
      HeadFirst(a, b, before);
      HeadFirst(b, a, before);
      assert Consider(a[0], b[0], a[0]);
      forall x ensures x in a[1..] <==> x in b[1..] {
        HeadOnce(a, before, x);
        HeadOnce(b, before, x);
      }
      StrictlyOrderedUnique(a[1..], b[1..], before);
      assert a == [a[0]] + a[1..] && b == [b[0]] + b[1..];
    } else {
      HasMember(a);
      HasMember(b);
    }
  }

  lemma HasMember<T(!new)>(s: seq<T>)
    ensures s == [] <==> forall x :: x !in s
  {
    if s != [] { assert s[0] in s; }
  }

  lemma HeadFirst<T>(a: seq<T>, b: seq<T>, before: (T, T) -> bool)
    requires StrictlyOrdered(a, before) && a != [] && b != []
    requires forall x :: x in b ==> x in a
    ensures a[0] == b[0] || before(a[0], b[0])
  {
    assert b[0] in b;
    var j :| 0 <= j < |a| && a[j] == b[0];
  }

  lemma HeadOnce<T(!new)>(s: seq<T>, before: (T, T) -> bool, x: T)
    requires SortKey(before) && StrictlyOrdered(s, before) && s != []
    ensures x in s[1..] <==> x in s && x != s[0]
  {
    assert Consider(s[0], s[0], s[0]);
    assert s == [s[0]] + s[1..];
  }

  lemma StrLessIsSortKey()
    ensures SortKey(StrLess)
  {
    forall a, b, c
      ensures !StrLess(a, a) && (StrLess(a, b) && StrLess(b, c) ==> StrLess(a, c))
    {
      StrLessIrreflexive(a);
      if StrLess(a, b) && StrLess(b, c) { StrLessTransitive(a, b, c); }
    }
  }

  /** Each number is below every later one. */
  ghost predicate Increasing(at: seq<nat>) { forall k, l :: 0 <= k < l < |at| ==> at[k] < at[l] }

  /** `picked` are the chosen ones of `all`, in their order: those at the places `at`. */
  ghost predicate Picks<T>(all: seq<T>, chosen: seq<bool>, picked: seq<T>, at: seq<nat>) {
    && |chosen| == |all| && |at| == |picked| && Increasing(at)
    && (forall k :: 0 <= k < |at| ==> at[k] < |all| && chosen[at[k]] && picked[k] == all[at[k]])
    && (forall i: nat :: i < |all| && chosen[i] ==> i in at)
  }

  lemma PicksNext<T>(all: seq<T>, chosen: seq<bool>, picked: seq<T>, at: seq<nat>, x: T)
    requires Picks(all, chosen, picked, at)
    ensures Picks(all + [x], chosen + [true], picked + [x], at + [|all|])
    ensures Picks(all + [x], chosen + [false], picked, at)
  {
    forall i: nat | i < |all| + 1 && (chosen + [true])[i] ensures i in at + [|all|] {
      if i < |all| { assert chosen[i]; }
    }
    forall i: nat | i < |all| + 1 && (chosen + [false])[i] ensures i in at { assert chosen[i]; }
  }

  /** No element occurs twice. */
  ghost predicate Distinct<T>(s: seq<T>) {
    forall i, j :: 0 <= i < j < |s| ==> s[i] != s[j]
  }

  lemma {:induction false} DistinctCount<T>(s: seq<T>)
    requires Distinct(s)
    ensures |set x | x in s| == |s|
  {
    if s != [] {
      var n := |s| - 1;
      DistinctCount(s[..n]);
      assert (set x | x in s) == (set x | x in s[..n]) + {s[n]};
    }
  }
}
