/** How a cop is classified for a target Chef version
    (internal/analysis/cop_classification.go, cop_classification_defaults.go) and what
    one offence of it weighs (internal/remediation/complexity_classification.go). */
module CopClassification {
  import opened Ordering
  import opened Strings
  import opened Wrappers

  /** An operator may have stored a value outside the three levels. */
  datatype Level = Blocker | Review | Noise | Unrecognised(text: string)

  datatype Source = OperatorOverride | CustomCop | VerifiedRemoval | StructuralNoise | ReviewDefault

  datatype Resolved = Resolved(level: Level, source: Source)

  /** `removedIn` is the curated mapping table: for a cop and an offence message, the
      version the construct was removed in, if the table knows one. */
  datatype Resolver = Resolver(
    overrides: map<string, Level>,
    target: string,
    removedIn: (string, string) -> Option<string>)

  // ---------------------------------------------------------------------------
  // Versions
  // ---------------------------------------------------------------------------

  predicate IsDigit(c: char) { '0' <= c <= '9' }

  const TWO_TO_THE_64 := 0x1_0000_0000_0000_0000

  /** A 64-bit signed integer, wrapped. */
  function Wrap64(n: int): int { (n + TWO_TO_THE_64 / 2) % TWO_TO_THE_64 - TWO_TO_THE_64 / 2 }

  /** The longest run of digits a version starts with. */
  function LeadingDigits(v: string): (digits: string)
    ensures digits <= v && forall c :: c in digits ==> IsDigit(c)
    ensures |digits| < |v| ==> !IsDigit(v[|digits|])
  {
    if v == "" || !IsDigit(v[0]) then "" else [v[0]] + LeadingDigits(v[1..])
  }

  function DigitValue(c: char): nat
    requires IsDigit(c)
  {
    c as int - '0' as int
  }

  /** The number a run of digits is written for. */
  function DecimalValue(digits: string): nat
    requires forall c :: c in digits ==> IsDigit(c)
  {
    if digits == "" then 0
    else
      var n := |digits| - 1;
      DecimalValue(digits[..n]) * 10 + DigitValue(digits[n])
  }

  /** The leading decimal number of a version, as a 64-bit integer holds it. */
  function MajorVersion(v: string): int { Wrap64(DecimalValue(LeadingDigits(v))) }

  /** Wrapping at every digit comes to the same as wrapping once at the end. */
  lemma WrapStep(n: int, d: int)
    ensures Wrap64(Wrap64(n) * 10 + d) == Wrap64(n * 10 + d)
  {
    var turns := (n + TWO_TO_THE_64 / 2) / TWO_TO_THE_64;
    assert Wrap64(n) == n - turns * TWO_TO_THE_64;
    assert Wrap64(n) * 10 + d == (n * 10 + d) - (turns * 10) * TWO_TO_THE_64;
    WrapShift(n * 10 + d, -turns * 10);
  }

  lemma WrapShift(n: int, turns: int)
    ensures Wrap64(n + turns * TWO_TO_THE_64) == Wrap64(n)
  {
  }

  lemma {:induction false} LeadingDigitsAre(v: string, n: nat)
    requires n <= |v| && (forall c :: c in v[..n] ==> IsDigit(c)) && (n < |v| ==> !IsDigit(v[n]))
    ensures LeadingDigits(v) == v[..n]
  {
    var m := |LeadingDigits(v)|;
    assert forall i :: 0 <= i < n ==> v[i] in v[..n];
    assert forall i :: 0 <= i < m ==> v[i] == LeadingDigits(v)[i];
  }

  method ParseMajorVersion(v: string) returns (n: int)
    ensures n == MajorVersion(v)
  {
    n := 0;
    var i := 0;
    while i < |v|
      invariant 0 <= i <= |v| && forall c :: c in v[..i] ==> IsDigit(c)
      invariant n == Wrap64(DecimalValue(v[..i]))
    {
      if !IsDigit(v[i]) {
        break;
      }
      WrapStep(DecimalValue(v[..i]), DigitValue(v[i]));
      assert v[..i + 1][..i] == v[..i];
      n := Wrap64(n * 10 + DigitValue(v[i]));
      i := i + 1;
    }
    LeadingDigitsAre(v, i);
  }

  /** Majors first; within one major the strings are compared character by character. */
  predicate VersionLessOrEqual(a: string, b: string) {
    if MajorVersion(a) != MajorVersion(b) then MajorVersion(a) <= MajorVersion(b)
    else a == b || StrLess(a, b)
  }

  /** The comparison is a total order on version strings. */
  lemma VersionOrderIsTotal(a: string, b: string, c: string)
    ensures VersionLessOrEqual(a, a)
    ensures VersionLessOrEqual(a, b) || VersionLessOrEqual(b, a)
    ensures VersionLessOrEqual(a, b) && VersionLessOrEqual(b, a) ==> a == b
    ensures VersionLessOrEqual(a, b) && VersionLessOrEqual(b, c) ==> VersionLessOrEqual(a, c)
  {
    StrLessTotal(a, b);
    StrLessIrreflexive(a);
    if StrLess(a, b) && StrLess(b, a) { StrLessTransitive(a, b, a); }
    if StrLess(a, b) && StrLess(b, c) { StrLessTransitive(a, b, c); }
  }

  /** Versions whose leading numbers differ compare as those numbers, so 9 comes before 10. */
  lemma MajorsDecide(a: string, b: string)
    requires DecimalValue(LeadingDigits(a)) < DecimalValue(LeadingDigits(b)) < TWO_TO_THE_64 / 2
    ensures VersionLessOrEqual(a, b) && !VersionLessOrEqual(b, a)
  {
    SmallIsKept(DecimalValue(LeadingDigits(a)));
    SmallIsKept(DecimalValue(LeadingDigits(b)));
    assert MajorVersion(a) < MajorVersion(b);
  }

  lemma SmallIsKept(n: nat)
    requires n < TWO_TO_THE_64 / 2
    ensures Wrap64(n) == n
  {
  }

  // ---------------------------------------------------------------------------
  // Structural rules
  // ---------------------------------------------------------------------------

  predicate IsCustomCop(cop: string) { HasPrefix(cop, "Custom/") }

  predicate IsStructuralNoise(cop: string) {
    || HasPrefix(cop, "Style/") || HasPrefix(cop, "Layout/") || HasPrefix(cop, "Chef/Style/")
    || Contains(cop, "ChefSpec") || Contains(cop, "Foodcritic") || Contains(cop, "Delivery")
    || Contains(cop, "Librarian") || Contains(cop, "Berks")
  }

  // ---------------------------------------------------------------------------
  // Resolution
  // ---------------------------------------------------------------------------

  /** The construct was removed in a version the target has reached. */
  predicate Removed(r: Resolver, cop: string, message: string) {
    var removedIn := r.removedIn(cop, message);
    removedIn.Some? && removedIn.value != "" && VersionLessOrEqual(removedIn.value, r.target)
  }

  function ResolveOffense(r: Resolver, cop: string, message: string): Resolved {
    if cop in r.overrides then Resolved(r.overrides[cop], OperatorOverride)
    else if IsCustomCop(cop) then Resolved(Blocker, CustomCop)
    else if Removed(r, cop, message) then Resolved(Blocker, VerifiedRemoval)
    else if IsStructuralNoise(cop) then Resolved(Noise, StructuralNoise)
    else Resolved(Review, ReviewDefault)
  }

  function Classify(r: Resolver, cop: string, message: string): Level {
    ResolveOffense(r, cop, message).level
  }

  /** Without an operator's word, a cop blocks only for a positive reason: it was defined
      by hand for the migration, or a curated removal has been reached. */
  lemma BlockersAreProven(r: Resolver, cop: string, message: string)
    ensures Classify(r, cop, message) == Blocker <==>
            if cop in r.overrides then r.overrides[cop] == Blocker
            else IsCustomCop(cop) || Removed(r, cop, message)
  {
  }

  /** Neither an operator nor the cop's name has decided: the removal table is consulted. */
  predicate AsksTable(r: Resolver, cop: string) { cop !in r.overrides && !IsCustomCop(cop) }

  predicate BlocksRegardless(r: Resolver, cop: string) {
    if cop in r.overrides then r.overrides[cop] == Blocker else IsCustomCop(cop)
  }

  /** The table has a reached removal for the offence's message but not for its cop alone, or
      the other way round. */
  predicate MessageMatters(r: Resolver, cop: string, message: string) {
    AsksTable(r, cop) && Removed(r, cop, message) != Removed(r, cop, "")
  }

  /** `later` aims at a version at least as high, with everything else the same. */
  ghost predicate RaisedTo(r: Resolver, later: Resolver) {
    && later.overrides == r.overrides && later.removedIn == r.removedIn
    && VersionLessOrEqual(r.target, later.target)
  }

  /** Raising the target leaves a classification alone or makes it a blocker. */
  lemma RaisingTargetOnlyBlocks(r: Resolver, later: Resolver, cop: string, message: string)
    requires RaisedTo(r, later)
    ensures Classify(later, cop, message) == Classify(r, cop, message) || Classify(later, cop, message) == Blocker
    ensures Classify(r, cop, message) == Blocker ==> Classify(later, cop, message) == Blocker
  {
    var removedIn := r.removedIn(cop, message);
    if removedIn.Some? { VersionOrderIsTotal(removedIn.value, r.target, later.target); }
  }

  // ---------------------------------------------------------------------------
  // Weights
  // ---------------------------------------------------------------------------

  function Max(a: nat, b: nat): nat { if a >= b then a else b }

  /** The highest legacy category weight that applies. */
  function UnclassifiedWeight(cop: string, severity: string): nat {
    Max(if severity == "error" || severity == "fatal" then 5 else 0,
        Max(if HasPrefix(cop, "Chef/Deprecations/") then 3 else 0,
            Max(if HasPrefix(cop, "Chef/Correctness/") then 3 else 0,
                if HasPrefix(cop, "Chef/Modernize/") then 1 else 0)))
  }

  /** A legacy category the offence belongs to has this weight. */
  predicate HasCategory(cop: string, severity: string, weight: nat) {
    || (weight == 5 && severity in {"error", "fatal"})
    || (weight == 3 && (HasPrefix(cop, "Chef/Deprecations/") || HasPrefix(cop, "Chef/Correctness/")))
    || (weight == 1 && HasPrefix(cop, "Chef/Modernize/"))
  }

  /** An offence in no category weighs nothing, any other as much as its heaviest one. */
  lemma UnclassifiedIsHeaviest(cop: string, severity: string)
    ensures var w := UnclassifiedWeight(cop, severity);
            && (w == 0 || HasCategory(cop, severity, w))
            && forall v: nat :: HasCategory(cop, severity, v) ==> v <= w
  {
  }

  /** What one in-scope offence contributes to a cookbook's complexity. */
  function Weight(level: Level, cop: string, severity: string): nat {
    match level
    case Blocker => 8
    case Review => 1
    case Noise => 0
    case Unrecognised(_) => UnclassifiedWeight(cop, severity)
  }

  /** How much more an offence weighs when it is judged by its cop alone. */
  function Drift(r: Resolver, cop: string, message: string): int {
    if !MessageMatters(r, cop, message) then 0
    else (if Removed(r, cop, "") then 1 else -1) * (if IsStructuralNoise(cop) then 8 else 7)
  }

  /** The message changes an offence's level and weight exactly where it changes what the
      removal table says, and then by nearly the whole weight of a blocker. */
  lemma MessageChangesWeight(r: Resolver, cop: string, message: string, severity: string)
    ensures Classify(r, cop, message) != Classify(r, cop, "") <==> MessageMatters(r, cop, message)
    ensures Weight(Classify(r, cop, ""), cop, severity) - Weight(Classify(r, cop, message), cop, severity) ==
            Drift(r, cop, message)
  {
  }

  /** A blocker outweighs every other classification of the same offence. */
  lemma BlockerWeighsMost(level: Level, cop: string, severity: string)
    ensures Weight(level, cop, severity) <= Weight(Blocker, cop, severity)
  {
  }
}
