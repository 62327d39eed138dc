/** Cookbook compatibility from four sources, and the node verdict
    (internal/analysis/readiness.go). */
module Readiness {
  import DiskSpace
  import opened Fingerprint
  import opened Wrappers

  datatype GitRepo = GitRepo(name: string, hasTestSuite: bool, kitchenExcluded: bool)

  /** A stored CookStyle result; `status` is absent on results older than the status. */
  datatype CookstyleResult = CookstyleResult(status: Option<Status>, passed: bool, error: string)

  /** What a person recorded; an unknown word is not a verdict. */
  datatype HumanWord = Broken | NotBroken | Unknown(text: string)

  datatype HumanVerdict = HumanVerdict(word: HumanWord, reason: string, raisedBy: string)

  /** Everything the evaluator looks up, with the two switches as they stand. */
  datatype Cache = Cache(
    gitRepos: map<string, GitRepo>,
    gitCookstyle: map<string, CookstyleResult>,
    serverCookstyle: map<string, CookstyleResult>,
    gitKitchen: map<string, string>,
    human: map<string, HumanVerdict>,
    reviewBlocks: bool,
    kitchenBlocks: bool)

  /** Cookbook name and version to the identity its results are stored under. */
  type CookbookIDs = map<string, map<string, string>>

  datatype Compat = Compatible | CompatibleCookstyleOnly | Incompatible | Untested | Review | NoWord

  datatype Source = GitCookstyle | ServerCookstyle | GitTestKitchen | Human | Cookstyle | Nowhere

  datatype SourceVerdict = SourceVerdict(source: Source, status: Compat, version: string, note: string, recordedBy: string)

  datatype Finding = Finding(status: Compat, source: Source, verdicts: seq<SourceVerdict>)

  function CacheKey(a: string, b: string): string { a + "|" + b }

  function Lookup<V>(m: map<string, V>, k: string): Option<V> { if k in m then Some(m[k]) else None }

  function CookbookID(ids: CookbookIDs, name: string, version: string): string {
    if name in ids && version in ids[name] then ids[name][version] else ""
  }

  /** What a stored CookStyle result says about compatibility. */
  function CookstyleVerdict(r: CookstyleResult, reviewBlocks: bool): Compat {
    match r.status
    case Some(Ready) => Compatible
    case Some(Blocked) => Incompatible
    case Some(NeedsReview) => if reviewBlocks then Review else Compatible
    case None => if r.passed then Compatible else Incompatible
  }

  // ---------------------------------------------------------------------------
  // The four sources
  // ---------------------------------------------------------------------------

  /** The repository a cookbook name stands for. */
  function RepoOf(cache: Cache, name: string): Option<GitRepo> {
    if name in cache.gitRepos && cache.gitRepos[name].name != "" then Some(cache.gitRepos[name]) else None
  }

  predicate Usable(r: Option<CookstyleResult>) { r.Some? && r.value.error == "" }

  function GitResult(cache: Cache, name: string, target: string): Option<CookstyleResult> {
    match RepoOf(cache, name)
    case None => None
    case Some(repo) =>
      var r := Lookup(cache.gitCookstyle, CacheKey(repo.name, target));
      if Usable(r) then r else None
  }

  /** The result for the target, or failing that the one made without a target. */
  function ServerResult(cache: Cache, id: string, target: string): Option<CookstyleResult> {
    if id == "" then None
    else
      var r := Lookup(cache.serverCookstyle, CacheKey(id, target));
      if Usable(r) then r
      else
        var untargeted := Lookup(cache.serverCookstyle, CacheKey(id, ""));
        if Usable(untargeted) then untargeted else None
  }

  predicate KitchenEligible(cache: Cache, name: string) {
    var repo := RepoOf(cache, name);
    repo.Some? && repo.value.hasTestSuite && !repo.value.kitchenExcluded
  }

  /** The kitchen's word, "" when it has none. */
  function KitchenWord(cache: Cache, name: string, target: string): string {
    if KitchenEligible(cache, name) then
      Lookup(cache.gitKitchen, CacheKey(RepoOf(cache, name).value.name, target)).GetOr("")
    else ""
  }

  function KitchenVerdict(word: string): Compat {
    if word == "passed" then Compatible
    else if word == "failed" || word == "partial" then Incompatible
    else NoWord
  }

  /** The eligible cookbook's kitchen run failed in whole or in part. */
  predicate KitchenFailed(cache: Cache, name: string, target: string) {
    KitchenVerdict(KitchenWord(cache, name, target)) == Incompatible
  }

  predicate HumanDecides(cache: Cache, name: string) {
    name in cache.human && !cache.human[name].word.Unknown?
  }

  // ---------------------------------------------------------------------------
  // One cookbook
  // ---------------------------------------------------------------------------

  /** One cookbook on a node, with everything needed to judge it. */
  datatype Question = Question(name: string, version: string, target: string, ids: CookbookIDs)

  /** What the CookStyle sources say: the git repository's result, then the server's. */
  function CookstyleVerdicts(cache: Cache, q: Question): seq<Compat> {
    var git := GitResult(cache, q.name, q.target);
    var server := ServerResult(cache, CookbookID(q.ids, q.name, q.version), q.target);
    (if git.Some? then [CookstyleVerdict(git.value, cache.reviewBlocks)] else []) +
    (if server.Some? then [CookstyleVerdict(server.value, cache.reviewBlocks)] else [])
  }

  /** The kitchen has a word and the switch lets it count. */
  predicate KitchenCounts(cache: Cache, q: Question) {
    cache.kitchenBlocks && KitchenWord(cache, q.name, q.target) != ""
  }

  /** The verdict by precedence: a person, then a counted kitchen failure, then the best
      CookStyle word, then whether anything was tested at all. */
  function Decide(human: Option<HumanWord>, cs: seq<Compat>, kitchenCounts: bool, kitchenFails: bool): (Compat, Source) {
    if human.Some? && human.value.Broken? then (Incompatible, Human)
    else if human.Some? && human.value.NotBroken? then (Compatible, Human)
    else if kitchenCounts && kitchenFails then (Incompatible, GitTestKitchen)
    else if Compatible in cs then (if kitchenCounts then Compatible else CompatibleCookstyleOnly, Cookstyle)
    else if Review in cs then (Review, Cookstyle)
    else if cs != [] || kitchenCounts then (Incompatible, Cookstyle)
    else (Untested, Nowhere)
  }

  function WordOf(cache: Cache, name: string): Option<HumanWord> {
    if name in cache.human then Some(cache.human[name].word) else None
  }

  function StatusOf(cache: Cache, q: Question): (Compat, Source) {
    Decide(WordOf(cache, q.name), CookstyleVerdicts(cache, q), KitchenCounts(cache, q), KitchenFailed(cache, q.name, q.target))
  }

  /** Every source's own word, losing ones included: CookStyle on the repository and on
      the server, the kitchen, and a person. */
  function AllVerdicts(cache: Cache, q: Question): seq<SourceVerdict> {
    GitVerdict(cache, q) + ServerVerdict(cache, q) + KitchenVerdicts(cache, q) + HumanVerdicts(cache, q)
  }

  function GitVerdict(cache: Cache, q: Question): seq<SourceVerdict> {
    var git := GitResult(cache, q.name, q.target);
    if git.None? then []
    else [SourceVerdict(GitCookstyle, CookstyleVerdict(git.value, cache.reviewBlocks), "HEAD", "", "")]
  }

  function ServerVerdict(cache: Cache, q: Question): seq<SourceVerdict> {
    var server := ServerResult(cache, CookbookID(q.ids, q.name, q.version), q.target);
    if server.None? then []
    else [SourceVerdict(ServerCookstyle, CookstyleVerdict(server.value, cache.reviewBlocks), q.version, "", "")]
  }

  function KitchenVerdicts(cache: Cache, q: Question): seq<SourceVerdict> {
    var word := KitchenWord(cache, q.name, q.target);
    if word == "" then [] else [SourceVerdict(GitTestKitchen, KitchenVerdict(word), "HEAD", "", "")]
  }

  function HumanVerdicts(cache: Cache, q: Question): seq<SourceVerdict> {
    if !HumanDecides(cache, q.name) then []
    else
      var h := cache.human[q.name];
      [SourceVerdict(Human, if h.word.Broken? then Incompatible else Compatible, "", h.reason, h.raisedBy)]
  }

  /** Sources 1 and 2: CookStyle on the git repository and on the server's cookbook. */
  method CheckCookstyle(cache: Cache, q: Question)
    returns (verdicts: seq<SourceVerdict>, anyCompatible: bool, anyReview: bool, anyTested: bool)
    ensures verdicts == GitVerdict(cache, q) + ServerVerdict(cache, q)
    ensures anyCompatible <==> Compatible in CookstyleVerdicts(cache, q)
    ensures anyReview <==> Review in CookstyleVerdicts(cache, q)
    ensures anyTested <==> CookstyleVerdicts(cache, q) != []
  {
    verdicts, anyCompatible, anyReview, anyTested := [], false, false, false;
    var repo := RepoOf(cache, q.name);
    if repo.Some? {
      var r := Lookup(cache.gitCookstyle, CacheKey(repo.value.name, q.target));
      if r.Some? && r.value.error == "" {
        anyTested := true;
        var v := CookstyleVerdict(r.value, cache.reviewBlocks);
        anyCompatible, anyReview := v == Compatible, v == Review;
        verdicts := verdicts + [SourceVerdict(GitCookstyle, v, "HEAD", "", "")];
      }
    }
    var id := CookbookID(q.ids, q.name, q.version);
    if id != "" {
      var r := Lookup(cache.serverCookstyle, CacheKey(id, q.target));
      if r.None? || r.value.error != "" {
        r := Lookup(cache.serverCookstyle, CacheKey(id, ""));
      }
      if r.Some? && r.value.error == "" {
        anyTested := true;
        var v := CookstyleVerdict(r.value, cache.reviewBlocks);
        anyCompatible, anyReview := anyCompatible || v == Compatible, anyReview || v == Review;
        verdicts := verdicts + [SourceVerdict(ServerCookstyle, v, q.version, "", "")];
      }
    }
  }

  method CheckCookbook(cache: Cache, q: Question) returns (f: Finding)
    ensures IsFinding(cache, q, f)
  {
    var verdicts, anyCompatible, anyReview, anyTested := CheckCookstyle(cache, q);
    var hasKitchen, kitchenFails := false, false;
    var repo := RepoOf(cache, q.name);
    if repo.Some? && repo.value.hasTestSuite && !repo.value.kitchenExcluded {
      var word := Lookup(cache.gitKitchen, CacheKey(repo.value.name, q.target)).GetOr("");
      if word != "" {
        var v := KitchenVerdict(word);
        verdicts := verdicts + [SourceVerdict(GitTestKitchen, v, "HEAD", "", "")];
        if cache.kitchenBlocks {
          hasKitchen, anyTested := true, true;
          kitchenFails := v == Incompatible;
        }
      }
    }
    assert verdicts == GitVerdict(cache, q) + ServerVerdict(cache, q) + KitchenVerdicts(cache, q);
    assert hasKitchen == KitchenCounts(cache, q);
    assert hasKitchen ==> kitchenFails == KitchenFailed(cache, q.name, q.target);
    if q.name in cache.human {
      var h := cache.human[q.name];
      match h.word {
        case Broken =>
          return Finding(Incompatible, Human,
                         verdicts + [SourceVerdict(Human, Incompatible, "", h.reason, h.raisedBy)]);
        case NotBroken =>
          return Finding(Compatible, Human,
                         verdicts + [SourceVerdict(Human, Compatible, "", h.reason, h.raisedBy)]);
        case Unknown(_) =>
      }
    }
    assert verdicts == AllVerdicts(cache, q);
    if kitchenFails {
      return Finding(Incompatible, GitTestKitchen, verdicts);
    }
    if anyCompatible && hasKitchen {
      return Finding(Compatible, Cookstyle, verdicts);
    }
    if anyCompatible {
      return Finding(CompatibleCookstyleOnly, Cookstyle, verdicts);
    }
    if anyReview {
      return Finding(Review, Cookstyle, verdicts);
    }
    if anyTested {
      return Finding(Incompatible, Cookstyle, verdicts);
    }
    return Finding(Untested, Nowhere, verdicts);
  }

  ghost predicate IsFinding(cache: Cache, q: Question, f: Finding) {
    (f.status, f.source) == StatusOf(cache, q) && f.verdicts == AllVerdicts(cache, q)
  }

  predicate Stops(status: Compat) { status == Incompatible || status == Untested }

  predicate Blocks(cache: Cache, q: Question) { Stops(StatusOf(cache, q).0) }

  predicate NeedsReviewing(cache: Cache, q: Question) { StatusOf(cache, q).0 == Review }

  predicate Passes(cache: Cache, q: Question) {
    StatusOf(cache, q).0 == Compatible || StatusOf(cache, q).0 == CompatibleCookstyleOnly
  }

  /** A cookbook blocks, needs review, or passes, and only one of them. */
  lemma ThreeWays(cache: Cache, q: Question)
    ensures StatusOf(cache, q).0 != NoWord
    ensures Blocks(cache, q) || NeedsReviewing(cache, q) || Passes(cache, q)
  {
  }

  // ---------------------------------------------------------------------------
  // What the verdict means
  // ---------------------------------------------------------------------------

  /** `r` is stored under the identity and target, and is no failed scan. */
  ghost predicate Stored(results: map<string, CookstyleResult>, id: string, target: string, r: CookstyleResult) {
    CacheKey(id, target) in results && results[CacheKey(id, target)] == r && r.error == ""
  }

  /** `r` is the result of scanning the cookbook's git repository for the target. */
  ghost predicate GitInUse(cache: Cache, q: Question, r: CookstyleResult) {
    q.name in cache.gitRepos && cache.gitRepos[q.name].name != "" && Stored(cache.gitCookstyle, cache.gitRepos[q.name].name, q.target, r)
  }

  /** `r` is the result of scanning the server's cookbook for the target, or, where there is
      none, without a target. */
  ghost predicate ServerInUse(cache: Cache, q: Question, r: CookstyleResult) {
    && q.name in q.ids && q.version in q.ids[q.name] && q.ids[q.name][q.version] != ""
    && var id := q.ids[q.name][q.version];
       || Stored(cache.serverCookstyle, id, q.target, r)
       || (Stored(cache.serverCookstyle, id, "", r) && forall other :: !Stored(cache.serverCookstyle, id, q.target, other))
  }

  ghost predicate InUse(cache: Cache, q: Question, r: CookstyleResult) { GitInUse(cache, q, r) || ServerInUse(cache, q, r) }

  /** The result lets the cookbook pass: it is ready, or needs a review that does not count,
      or is too old to have a status and passed. */
  predicate SaysReady(r: CookstyleResult, reviewBlocks: bool) {
    r.status == Some(Ready) || (r.status == Some(NeedsReview) && !reviewBlocks) || (r.status.None? && r.passed)
  }

  predicate SaysReview(r: CookstyleResult, reviewBlocks: bool) { r.status == Some(NeedsReview) && reviewBlocks }

  ghost predicate SomeReady(cache: Cache, q: Question) {
    exists r :: InUse(cache, q, r) && SaysReady(r, cache.reviewBlocks)
  }

  ghost predicate SomeReview(cache: Cache, q: Question) {
    exists r :: InUse(cache, q, r) && SaysReview(r, cache.reviewBlocks)
  }

  /** The word of the kitchen run of the cookbook's repository, where there may be one. */
  ghost predicate KitchenRan(cache: Cache, q: Question, word: string) {
    && q.name in cache.gitRepos && word != ""
    && var repo := cache.gitRepos[q.name];
       && repo.name != "" && repo.hasTestSuite && !repo.kitchenExcluded
       && CacheKey(repo.name, q.target) in cache.gitKitchen && cache.gitKitchen[CacheKey(repo.name, q.target)] == word
  }

  /** A kitchen run counts, and failed in whole or in part. */
  ghost predicate KitchenStops(cache: Cache, q: Question) {
    cache.kitchenBlocks && (KitchenRan(cache, q, "failed") || KitchenRan(cache, q, "partial"))
  }

  ghost predicate PersonSays(cache: Cache, q: Question, word: HumanWord) {
    q.name in cache.human && cache.human[q.name].word == word
  }

  /** Nobody has said anything that is a verdict. */
  ghost predicate Undecided(cache: Cache, q: Question) { !PersonSays(cache, q, Broken) && !PersonSays(cache, q, NotBroken) }

  lemma GitInUseIs(cache: Cache, q: Question, r: CookstyleResult)
    ensures GitInUse(cache, q, r) <==> GitResult(cache, q.name, q.target) == Some(r)
  {
  }

  lemma ServerInUseIs(cache: Cache, q: Question, r: CookstyleResult)
    ensures ServerInUse(cache, q, r) <==> ServerResult(cache, CookbookID(q.ids, q.name, q.version), q.target) == Some(r)
  {
    var id := CookbookID(q.ids, q.name, q.version);
    var targeted := Lookup(cache.serverCookstyle, CacheKey(id, q.target));
    assert Usable(targeted) <==> exists other :: Stored(cache.serverCookstyle, id, q.target, other) by {
      if Usable(targeted) { assert Stored(cache.serverCookstyle, id, q.target, targeted.value); }
    }
  }

  lemma WordsInUse(cache: Cache, q: Question, word: Compat)
    ensures word in CookstyleVerdicts(cache, q) <==>
            exists r :: InUse(cache, q, r) && CookstyleVerdict(r, cache.reviewBlocks) == word
  {
    var git := GitResult(cache, q.name, q.target);
    var server := ServerResult(cache, CookbookID(q.ids, q.name, q.version), q.target);
    if git.Some? { GitInUseIs(cache, q, git.value); }
    if server.Some? { ServerInUseIs(cache, q, server.value); }
    if r :| InUse(cache, q, r) && CookstyleVerdict(r, cache.reviewBlocks) == word {
      GitInUseIs(cache, q, r);
      ServerInUseIs(cache, q, r);
    }
  }

  lemma WordsMean(cache: Cache, q: Question)
    ensures Compatible in CookstyleVerdicts(cache, q) <==> SomeReady(cache, q)
    ensures Review in CookstyleVerdicts(cache, q) <==> SomeReview(cache, q)
    ensures CookstyleVerdicts(cache, q) != [] <==> exists r :: InUse(cache, q, r)
  {
    WordsInUse(cache, q, Compatible);
    WordsInUse(cache, q, Review);
    WordsInUse(cache, q, Incompatible);
    forall r ensures CookstyleVerdict(r, cache.reviewBlocks) == Compatible <==> SaysReady(r, cache.reviewBlocks)
      ensures CookstyleVerdict(r, cache.reviewBlocks) == Review <==> SaysReview(r, cache.reviewBlocks)
      ensures CookstyleVerdict(r, cache.reviewBlocks) in {Compatible, Review, Incompatible}
    {
    }
    var words := CookstyleVerdicts(cache, q);
    if words != [] { assert words[0] in words; }
  }

  lemma KitchenMeans(cache: Cache, q: Question)
    ensures KitchenCounts(cache, q) <==> cache.kitchenBlocks && exists word :: KitchenRan(cache, q, word)
    ensures KitchenCounts(cache, q) && KitchenFailed(cache, q.name, q.target) <==> KitchenStops(cache, q)
  {
    var word := KitchenWord(cache, q.name, q.target);
    assert word != "" <==> KitchenRan(cache, q, word);
    assert forall other :: KitchenRan(cache, q, other) ==> other == word;
  }

  /** Whether a cookbook passes, needs review or blocks. A person's verdict stands. Without
      one a counted kitchen failure blocks; otherwise one CookStyle result in use that says
      ready lets it pass, failing that one that says review sends it there, and with neither
      it blocks. */
  lemma VerdictMeans(cache: Cache, q: Question)
    ensures Passes(cache, q) <==>
            PersonSays(cache, q, NotBroken) || (Undecided(cache, q) && !KitchenStops(cache, q) && SomeReady(cache, q))
    ensures NeedsReviewing(cache, q) <==>
            Undecided(cache, q) && !KitchenStops(cache, q) && !SomeReady(cache, q) && SomeReview(cache, q)
    ensures Blocks(cache, q) <==>
            PersonSays(cache, q, Broken) ||
            (Undecided(cache, q) && (KitchenStops(cache, q) || (!SomeReady(cache, q) && !SomeReview(cache, q))))
  {
    WordsMean(cache, q);
    KitchenMeans(cache, q);
    DecisionMeans(WordOf(cache, q.name), CookstyleVerdicts(cache, q), KitchenCounts(cache, q), KitchenFailed(cache, q.name, q.target));
  }

  lemma DecisionMeans(human: Option<HumanWord>, cs: seq<Compat>, counts: bool, fails: bool)
    ensures var d := Decide(human, cs, counts, fails).0;
            var undecided := human != Some(Broken) && human != Some(NotBroken);
            && (d == Compatible || d == CompatibleCookstyleOnly <==>
                  human == Some(NotBroken) || (undecided && !(counts && fails) && Compatible in cs))
            && (d == Review <==> undecided && !(counts && fails) && Compatible !in cs && Review in cs)
            && (Stops(d) <==> human == Some(Broken) || (undecided && ((counts && fails) || (Compatible !in cs && Review !in cs))))
  {
  }

  /** Which word and source go with it: a cookbook passes on CookStyle only where no kitchen
      run counts, is untested where nothing in use has looked at it, and the source is
      whichever of these decided. */
  lemma WordAndSourceMean(cache: Cache, q: Question)
    ensures var (word, source) := StatusOf(cache, q);
            var counted := cache.kitchenBlocks && exists w :: KitchenRan(cache, q, w);
            && (word == CompatibleCookstyleOnly <==> Undecided(cache, q) && SomeReady(cache, q) && !counted)
            && (word == Untested <==> Undecided(cache, q) && !counted && forall r :: !InUse(cache, q, r))
            && (source == Human <==> !Undecided(cache, q))
            && (source == GitTestKitchen <==> Undecided(cache, q) && KitchenStops(cache, q))
            && (source == Nowhere <==> word == Untested)
            && source in {Human, GitTestKitchen, Cookstyle, Nowhere}
  {
    WordsMean(cache, q);
    KitchenMeans(cache, q);
    assert Decide(WordOf(cache, q.name), CookstyleVerdicts(cache, q), KitchenCounts(cache, q),
                  KitchenFailed(cache, q.name, q.target)) == StatusOf(cache, q);
  }

  /** What a CookStyle result comes to. */
  predicate Says(r: CookstyleResult, reviewBlocks: bool, word: Compat) {
    word == if SaysReady(r, reviewBlocks) then Compatible else if SaysReview(r, reviewBlocks) then Review else Incompatible
  }

  /** The verdict is what its source says. */
  ghost predicate IsOwnWord(cache: Cache, q: Question, v: SourceVerdict) {
    match v.source
    case GitCookstyle => v.version == "HEAD" && exists r :: GitInUse(cache, q, r) && Says(r, cache.reviewBlocks, v.status)
    case ServerCookstyle => v.version == q.version && exists r :: ServerInUse(cache, q, r) && Says(r, cache.reviewBlocks, v.status)
    case GitTestKitchen => v.version == "HEAD" && exists word :: KitchenRan(cache, q, word) && KitchenSays(word, v.status)
    case Human =>
      && PersonSays(cache, q, if v.status == Incompatible then Broken else NotBroken)
      && v.status in {Compatible, Incompatible}
      && v.note == cache.human[q.name].reason && v.recordedBy == cache.human[q.name].raisedBy
    case _ => false
  }

  predicate KitchenSays(word: string, status: Compat) {
    match status
    case Compatible => word == "passed"
    case Incompatible => word in {"failed", "partial"}
    case NoWord => word !in {"passed", "failed", "partial"}
    case _ => false
  }

  /** Whether a source has a word at all. */
  ghost predicate HasWord(cache: Cache, q: Question, source: Source) {
    match source
    case GitCookstyle => exists r :: GitInUse(cache, q, r)
    case ServerCookstyle => exists r :: ServerInUse(cache, q, r)
    case GitTestKitchen => exists word :: KitchenRan(cache, q, word)
    case Human => !Undecided(cache, q)
    case _ => false
  }

  lemma CookstyleWordsOwn(cache: Cache, q: Question)
    ensures |GitVerdict(cache, q)| == if HasWord(cache, q, GitCookstyle) then 1 else 0
    ensures |ServerVerdict(cache, q)| == if HasWord(cache, q, ServerCookstyle) then 1 else 0
    ensures forall v :: v in GitVerdict(cache, q) ==> v.source == GitCookstyle && IsOwnWord(cache, q, v)
    ensures forall v :: v in ServerVerdict(cache, q) ==> v.source == ServerCookstyle && IsOwnWord(cache, q, v)
  {
    var git := GitResult(cache, q.name, q.target);
    var server := ServerResult(cache, CookbookID(q.ids, q.name, q.version), q.target);
    forall r ensures Says(r, cache.reviewBlocks, CookstyleVerdict(r, cache.reviewBlocks)) {}
    if git.Some? { GitInUseIs(cache, q, git.value); }
    if server.Some? { ServerInUseIs(cache, q, server.value); }
    if r :| GitInUse(cache, q, r) { GitInUseIs(cache, q, r); }
    if r :| ServerInUse(cache, q, r) { ServerInUseIs(cache, q, r); }
  }

  lemma OtherWordsOwn(cache: Cache, q: Question)
    ensures |KitchenVerdicts(cache, q)| == if HasWord(cache, q, GitTestKitchen) then 1 else 0
    ensures |HumanVerdicts(cache, q)| == if HasWord(cache, q, Human) then 1 else 0
    ensures forall v :: v in KitchenVerdicts(cache, q) ==> v.source == GitTestKitchen && IsOwnWord(cache, q, v)
    ensures forall v :: v in HumanVerdicts(cache, q) ==> v.source == Human && IsOwnWord(cache, q, v)
  {
    var word := KitchenWord(cache, q.name, q.target);
    assert word != "" <==> KitchenRan(cache, q, word);
    assert forall other :: KitchenRan(cache, q, other) ==> other == word;
    assert KitchenSays(word, KitchenVerdict(word));
  }

  predicate Precedes(a: Source, b: Source) { SourceRank(a) < SourceRank(b) }

  function SourceRank(s: Source): nat {
    match s case GitCookstyle => 0 case ServerCookstyle => 1 case GitTestKitchen => 2 case Human => 3 case _ => 4
  }

  /** At most one verdict, of the given source. */
  ghost predicate AtMostOne(list: seq<SourceVerdict>, source: Source) {
    |list| <= 1 && forall i :: 0 <= i < |list| ==> list[i].source == source
  }

  ghost predicate InSourceOrder(list: seq<SourceVerdict>) {
    forall i, j :: 0 <= i < j < |list| ==> Precedes(list[i].source, list[j].source)
  }

  lemma JoinedInOrder(front: seq<SourceVerdict>, last: seq<SourceVerdict>, source: Source)
    requires InSourceOrder(front) && AtMostOne(last, source)
    requires forall i :: 0 <= i < |front| ==> Precedes(front[i].source, source)
    ensures InSourceOrder(front + last)
  {
  }

  lemma FourInOrder(git: seq<SourceVerdict>, server: seq<SourceVerdict>, kitchen: seq<SourceVerdict>, human: seq<SourceVerdict>)
    requires AtMostOne(git, GitCookstyle) && AtMostOne(server, ServerCookstyle)
    requires AtMostOne(kitchen, GitTestKitchen) && AtMostOne(human, Human)
    ensures InSourceOrder(git + server + kitchen + human)
  {
    JoinedInOrder(git, server, ServerCookstyle);
    JoinedInOrder(git + server, kitchen, GitTestKitchen);
    JoinedInOrder(git + server + kitchen, human, Human);
  }

  /** The list of verdicts has every source that has a word, once, in order, with what that
      source itself says, whichever of them decided. */
  lemma VerdictsAreOwnWords(cache: Cache, q: Question)
    ensures InSourceOrder(AllVerdicts(cache, q))
    ensures forall v :: v in AllVerdicts(cache, q) ==> IsOwnWord(cache, q, v)
    ensures forall source :: HasWord(cache, q, source) ==> exists v :: v in AllVerdicts(cache, q) && v.source == source
  {
    CookstyleWordsOwn(cache, q);
    OtherWordsOwn(cache, q);
    var git, server, kitchen, human := GitVerdict(cache, q), ServerVerdict(cache, q), KitchenVerdicts(cache, q), HumanVerdicts(cache, q);
    FourInOrder(git, server, kitchen, human);
    forall source | HasWord(cache, q, source) ensures exists v :: v in AllVerdicts(cache, q) && v.source == source {
      match source
      case GitCookstyle => assert git[0] in AllVerdicts(cache, q);
      case ServerCookstyle => assert server[0] in AllVerdicts(cache, q);
      case GitTestKitchen => assert kitchen[0] in AllVerdicts(cache, q);
      case Human => assert human[0] in AllVerdicts(cache, q);
    }
  }

  // ---------------------------------------------------------------------------
  // The switches
  // ---------------------------------------------------------------------------

  /** What the review switch does to the CookStyle words. */
  lemma CookstyleUnderReview(cache: Cache, q: Question)
    ensures var off, on := CookstyleVerdicts(cache.(reviewBlocks := false), q), CookstyleVerdicts(cache.(reviewBlocks := true), q);
            && |off| == |on| && Review !in off
            && forall i :: 0 <= i < |on| ==> on[i] == off[i] || (on[i] == Review && off[i] == Compatible)
  {
    var off, on := cache.(reviewBlocks := false), cache.(reviewBlocks := true);
    assert GitResult(on, q.name, q.target) == GitResult(off, q.name, q.target);
    var id := CookbookID(q.ids, q.name, q.version);
    assert ServerResult(on, id, q.target) == ServerResult(off, id, q.target);
  }

  /** Turning review-blocking on leaves alone what blocks; it only moves cookbooks that
      passed to needs-review, and with it off nothing needs review. */
  lemma ReviewSwitch(cache: Cache, q: Question)
    ensures var off, on := cache.(reviewBlocks := false), cache.(reviewBlocks := true);
            && (Blocks(on, q) <==> Blocks(off, q))
            && !NeedsReviewing(off, q)
            && (Passes(on, q) ==> StatusOf(on, q) == StatusOf(off, q))
            && (NeedsReviewing(on, q) ==> Passes(off, q))
  {
    var off, on := cache.(reviewBlocks := false), cache.(reviewBlocks := true);
    CookstyleUnderReview(cache, q);
    OnlyCookstyleReviews(cache, q, false);
    OnlyCookstyleReviews(cache, q, true);
    ReviewedDecision(WordOf(cache, q.name), CookstyleVerdicts(off, q), CookstyleVerdicts(on, q),
                     KitchenCounts(cache, q), KitchenFailed(cache, q.name, q.target));
  }

  /** The review switch reaches the status through the CookStyle words alone. */
  lemma OnlyCookstyleReviews(cache: Cache, q: Question, reviewBlocks: bool)
    ensures var switched := cache.(reviewBlocks := reviewBlocks);
            StatusOf(switched, q) ==
            Decide(WordOf(cache, q.name), CookstyleVerdicts(switched, q), KitchenCounts(cache, q), KitchenFailed(cache, q.name, q.target))
  {
  }

  lemma ReviewedDecision(human: Option<HumanWord>, off: seq<Compat>, on: seq<Compat>, counts: bool, fails: bool)
    requires |off| == |on| && Review !in off
    requires forall i :: 0 <= i < |on| ==> on[i] == off[i] || (on[i] == Review && off[i] == Compatible)
    ensures var before, after := Decide(human, off, counts, fails), Decide(human, on, counts, fails);
            && before.0 != Review
            && (after == before || (after.0 == Review && (before.0 == Compatible || before.0 == CompatibleCookstyleOnly)))
  {
  }

  /** The kitchen switch reaches the status through whether a run counts, and nothing else. */
  lemma OnlyKitchenCounts(cache: Cache, q: Question, kitchenBlocks: bool)
    ensures StatusOf(cache.(kitchenBlocks := kitchenBlocks), q) ==
            Decide(WordOf(cache, q.name), CookstyleVerdicts(cache, q),
                   kitchenBlocks && KitchenWord(cache, q.name, q.target) != "", KitchenFailed(cache, q.name, q.target))
  {
    var switched := cache.(kitchenBlocks := kitchenBlocks);
    assert CookstyleVerdicts(switched, q) == CookstyleVerdicts(cache, q);
    assert KitchenWord(switched, q.name, q.target) == KitchenWord(cache, q.name, q.target);
  }

  lemma CountedDecision(human: Option<HumanWord>, cs: seq<Compat>, hasRun: bool, fails: bool)
    requires fails ==> hasRun
    ensures var off, on := Decide(human, cs, false, fails).0, Decide(human, cs, hasRun, fails).0;
            var newly := fails && (human.None? || human.value.Unknown?);
            && (Stops(on) <==> Stops(off) || newly)
            && (on == Review <==> off == Review && !newly)
  {
  }

  /** Letting Test Kitchen count adds to what blocks exactly the eligible cookbooks whose
      run failed, in whole or in part, and that no person has decided about; those no longer
      need review. */
  lemma KitchenSwitch(cache: Cache, q: Question)
    ensures var off, on := cache.(kitchenBlocks := false), cache.(kitchenBlocks := true);
            var newly := KitchenFailed(cache, q.name, q.target) && !HumanDecides(cache, q.name);
            && (Blocks(on, q) <==> Blocks(off, q) || newly)
            && (NeedsReviewing(on, q) <==> NeedsReviewing(off, q) && !newly)
  {
    OnlyKitchenCounts(cache, q, false);
    OnlyKitchenCounts(cache, q, true);
    CountedDecision(WordOf(cache, q.name), CookstyleVerdicts(cache, q),
                    KitchenWord(cache, q.name, q.target) != "", KitchenFailed(cache, q.name, q.target));
  }

  /** A recognised human verdict decides alone: no result and no switch matters. */
  lemma HumanDecidesAlone(a: Cache, b: Cache, q: Question)
    requires HumanDecides(a, q.name) && q.name in b.human && b.human[q.name] == a.human[q.name]
    ensures StatusOf(a, q) == StatusOf(b, q)
    ensures Blocks(a, q) <==> a.human[q.name].word == Broken
    ensures Passes(a, q) <==> a.human[q.name].word == NotBroken
  {
  }

  // ---------------------------------------------------------------------------
  // One node
  // ---------------------------------------------------------------------------

  datatype Blocking = Blocking(name: string, version: string, finding: Finding)

  function Ask(cookbooks: map<string, string>, target: string, ids: CookbookIDs, name: string): Question
    requires name in cookbooks
  {
    Question(name, cookbooks[name], target, ids)
  }

  function NamesOf(list: seq<Blocking>): (r: seq<string>)
    ensures |r| == |list|
    ensures forall i :: 0 <= i < |list| ==> r[i] == list[i].name
  {
    seq(|list|, i requires 0 <= i < |list| => list[i].name)
  }

  /** The list holds each chosen cookbook once, with its finding. */
  ghost predicate Lists(list: seq<Blocking>, cookbooks: map<string, string>, chosen: set<string>,
                        cache: Cache, target: string, ids: CookbookIDs) {
    && (forall i, j :: 0 <= i < j < |list| ==> list[i].name != list[j].name)
    && (forall n :: n in chosen <==> n in NamesOf(list))
    && (forall b :: b in list ==> b.name in cookbooks && b.version == cookbooks[b.name] &&
                                  IsFinding(cache, Ask(cookbooks, target, ids, b.name), b.finding))
  }

  function BlockingNames(cache: Cache, cookbooks: map<string, string>, target: string, ids: CookbookIDs): set<string> {
    set n | n in cookbooks && Blocks(cache, Ask(cookbooks, target, ids, n))
  }

  function ReviewNames(cache: Cache, cookbooks: map<string, string>, target: string, ids: CookbookIDs): set<string> {
    set n | n in cookbooks && NeedsReviewing(cache, Ask(cookbooks, target, ids, n))
  }

  /** Judge a node's cookbooks in whatever order the map gives them. */
  method EvaluateCookbooks(cache: Cache, cookbooks: map<string, string>, target: string, ids: CookbookIDs)
    returns (blocking: seq<Blocking>, review: seq<Blocking>)
    ensures Lists(blocking, cookbooks, BlockingNames(cache, cookbooks, target, ids), cache, target, ids)
    ensures Lists(review, cookbooks, ReviewNames(cache, cookbooks, target, ids), cache, target, ids)
  {
    blocking, review := [], [];
    var pending := cookbooks.Keys;
    ghost var toBlock, toReview := BlockingNames(cache, cookbooks, target, ids), ReviewNames(cache, cookbooks, target, ids);
    while pending != {}
      invariant pending <= cookbooks.Keys
      invariant Lists(blocking, cookbooks, toBlock - pending, cache, target, ids)
      invariant Lists(review, cookbooks, toReview - pending, cache, target, ids)
    {
      var name :| name in pending;
      var q := Ask(cookbooks, target, ids, name);
      var f := CheckCookbook(cache, q);
      ThreeWays(cache, q);
      var b := Blocking(name, q.version, f);
      match f.status {
        case Review =>
          ListAppend(review, b, cookbooks, toReview - pending, cache, target, ids);
          review := review + [b];
        case Incompatible | Untested =>
          ListAppend(blocking, b, cookbooks, toBlock - pending, cache, target, ids);
          blocking := blocking + [b];
        case _ =>
      }
      TakenFrom(toBlock, pending, name);
      TakenFrom(toReview, pending, name);
      pending := pending - {name};
    }
    assert toBlock - pending == toBlock && toReview - pending == toReview;
  }

  lemma TakenFrom(chosen: set<string>, pending: set<string>, name: string)
    requires name in pending
    ensures chosen - (pending - {name}) == if name in chosen then (chosen - pending) + {name} else chosen - pending
  {
  }

  lemma ListAppend(list: seq<Blocking>, b: Blocking, cookbooks: map<string, string>, chosen: set<string>,
                   cache: Cache, target: string, ids: CookbookIDs)
    requires Lists(list, cookbooks, chosen, cache, target, ids)
    requires b.name !in chosen && b.name in cookbooks && b.version == cookbooks[b.name]
    requires IsFinding(cache, Ask(cookbooks, target, ids, b.name), b.finding)
    ensures Lists(list + [b], cookbooks, chosen + {b.name}, cache, target, ids)
  {
    assert NamesOf(list + [b]) == NamesOf(list) + [b.name];
    forall i | 0 <= i < |list| ensures list[i].name != b.name {
      assert NamesOf(list)[i] in NamesOf(list);
    }
  }

  /** A node that is neither stale nor short of disk is judged by its cookbooks. */
  function NodeStatus(diskOK: bool, blocking: bool, review: bool): Status {
    if !diskOK || blocking then Blocked else if review then NeedsReview else Ready
  }

  datatype NodeResult = NodeResult(
    status: Status, isReady: bool, allCompatible: bool, sufficientDisk: Option<bool>,
    blocking: seq<Blocking>, review: seq<Blocking>)

  function DiskOK(stale: bool, disk: DiskSpace.Verdict): bool {
    !stale && disk.sufficient == Some(true)
  }

  function NodeStatusOf(cache: Cache, cookbooks: map<string, string>, target: string, ids: CookbookIDs,
                        stale: bool, disk: DiskSpace.Verdict): Status {
    NodeStatus(DiskOK(stale, disk),
               BlockingNames(cache, cookbooks, target, ids) != {},
               ReviewNames(cache, cookbooks, target, ids) != {})
  }

  method EvaluateOne(cache: Cache, cookbooks: map<string, string>, target: string, ids: CookbookIDs,
                     stale: bool, disk: DiskSpace.Verdict)
    returns (r: NodeResult)
    ensures r.status == NodeStatusOf(cache, cookbooks, target, ids, stale, disk)
    ensures r.isReady <==> r.status == Ready
    ensures r.allCompatible <==> BlockingNames(cache, cookbooks, target, ids) == {}
    ensures Lists(r.blocking, cookbooks, BlockingNames(cache, cookbooks, target, ids), cache, target, ids)
    ensures Lists(r.review, cookbooks, ReviewNames(cache, cookbooks, target, ids), cache, target, ids)
    ensures stale ==> r.status == Blocked
    ensures r.sufficientDisk == if stale then None else disk.sufficient
  {
    var blocking, review := EvaluateCookbooks(cache, cookbooks, target, ids);
    var sufficient := if stale then None else disk.sufficient;
    var diskOK := sufficient.Some? && sufficient.value;
    EmptyListNoNames(blocking, BlockingNames(cache, cookbooks, target, ids));
    EmptyListNoNames(review, ReviewNames(cache, cookbooks, target, ids));
    var status := Ready;
    if !diskOK || |blocking| > 0 {
      status := Blocked;
    } else if |review| > 0 {
      status := NeedsReview;
    }
    r := NodeResult(status, status == Ready, |blocking| == 0, sufficient, blocking, review);
  }

  lemma EmptyListNoNames(list: seq<Blocking>, names: set<string>)
    requires forall n :: n in names <==> n in NamesOf(list)
    ensures |list| == 0 <==> names == {}
  {
    if |list| > 0 { assert NamesOf(list)[0] in names; }
  }

  /** Two evaluations of one node agree on its status and on which cookbooks block,
      whatever order each met the cookbooks in. */
  lemma OrderDoesNotMatter(cache: Cache, cookbooks: map<string, string>, target: string, ids: CookbookIDs,
                           a: seq<Blocking>, b: seq<Blocking>)
    requires Lists(a, cookbooks, BlockingNames(cache, cookbooks, target, ids), cache, target, ids)
    requires Lists(b, cookbooks, BlockingNames(cache, cookbooks, target, ids), cache, target, ids)
    ensures multiset(NamesOf(a)) == multiset(NamesOf(b)) && |a| == |b|
    ensures forall x :: x in a <==> x in b
  {
    SameNamesOnce(NamesOf(a), NamesOf(b));
    SameNamesOnce(NamesOf(b), NamesOf(a));
    assert |multiset(NamesOf(a))| == |a| && |multiset(NamesOf(b))| == |b|;
    forall x | x in a ensures x in b { ListedTwice(cache, cookbooks, target, ids, a, b, x); }
    forall x | x in b ensures x in a { ListedTwice(cache, cookbooks, target, ids, b, a, x); }
  }

  lemma ListedTwice(cache: Cache, cookbooks: map<string, string>, target: string, ids: CookbookIDs,
                    a: seq<Blocking>, b: seq<Blocking>, x: Blocking)
    requires Lists(a, cookbooks, BlockingNames(cache, cookbooks, target, ids), cache, target, ids)
    requires Lists(b, cookbooks, BlockingNames(cache, cookbooks, target, ids), cache, target, ids)
    requires x in a
    ensures x in b
  {
    var i :| 0 <= i < |a| && a[i] == x;
    assert NamesOf(a)[i] in NamesOf(a);
    var j :| 0 <= j < |b| && NamesOf(b)[j] == x.name;
    assert b[j] in b;
  }

  lemma {:induction false} OnceCounted(s: seq<string>, x: string)
    requires forall i, j :: 0 <= i < j < |s| ==> s[i] != s[j]
    ensures multiset(s)[x] == if x in s then 1 else 0
  {
    if s != [] {
      var n := |s| - 1;
      OnceCounted(s[..n], x);
      assert s == s[..n] + [s[n]];
    }
  }

  lemma SameNamesOnce(a: seq<string>, b: seq<string>)
    requires forall i, j :: 0 <= i < j < |a| ==> a[i] != a[j]
    requires forall i, j :: 0 <= i < j < |b| ==> b[i] != b[j]
    requires forall x :: x in a <==> x in b
    ensures multiset(a) == multiset(b)
  {
    forall x ensures multiset(a)[x] == multiset(b)[x] {
      OnceCounted(a, x);
      OnceCounted(b, x);
    }
  }

  /** A node is ready exactly when its data is fresh, its disk is known to suffice and every
      cookbook passes, and blocked exactly when one of the first two fails or some cookbook
      blocks; all that decides a cookbook is said by `VerdictMeans`. */
  lemma NodeStatusMeans(cache: Cache, cookbooks: map<string, string>, target: string, ids: CookbookIDs,
                        stale: bool, disk: DiskSpace.Verdict)
    ensures var status := NodeStatusOf(cache, cookbooks, target, ids, stale, disk);
            var roomy := !stale && disk.sufficient == Some(true);
            && (status == Ready <==> roomy && forall n :: n in cookbooks ==> Passes(cache, Ask(cookbooks, target, ids, n)))
            && (status == Blocked <==> !roomy || exists n :: n in cookbooks && Blocks(cache, Ask(cookbooks, target, ids, n)))
  {
    var blocking, review := BlockingNames(cache, cookbooks, target, ids), ReviewNames(cache, cookbooks, target, ids);
    forall n | n in cookbooks
      ensures var q := Ask(cookbooks, target, ids, n);
              Passes(cache, q) <==> n !in blocking && n !in review
    {
      ThreeWays(cache, Ask(cookbooks, target, ids, n));
    }
  }

  /** With both switches off and nobody's word, a cookbook known by one blocked scan only keeps
      its node blocked, and by one ready scan only lets it through. */
  lemma OneScanDecides(cache: Cache, name: string, version: string, target: string, ids: CookbookIDs,
                       disk: DiskSpace.Verdict, scan: CookstyleResult)
    requires !cache.kitchenBlocks && !cache.reviewBlocks && name !in cache.human && disk.sufficient == Some(true)
    requires var q := Question(name, version, target, ids); InUse(cache, q, scan) && forall r :: InUse(cache, q, r) ==> r == scan
    ensures var status := NodeStatusOf(cache, map[name := version], target, ids, false, disk);
            && (scan.status == Some(Blocked) ==> status == Blocked)
            && (scan.status == Some(Ready) ==> status == Ready)
  {
    var cookbooks := map[name := version];
    var q := Ask(cookbooks, target, ids, name);
    NodeStatusMeans(cache, cookbooks, target, ids, false, disk);
    VerdictMeans(cache, q);
    assert name in cookbooks;
  }

  // --- The switches, seen from the node ----------------------------------------

  /** Review-blocking leaves every node's blocking set unchanged, and moves a node only
      from ready to needs-review. */
  lemma ReviewSwitchOnNode(cache: Cache, cookbooks: map<string, string>, target: string, ids: CookbookIDs,
                           stale: bool, disk: DiskSpace.Verdict)
    ensures var off, on := cache.(reviewBlocks := false), cache.(reviewBlocks := true);
            && BlockingNames(on, cookbooks, target, ids) == BlockingNames(off, cookbooks, target, ids)
            && ReviewNames(off, cookbooks, target, ids) == {}
            && var before, after := NodeStatusOf(off, cookbooks, target, ids, stale, disk), NodeStatusOf(on, cookbooks, target, ids, stale, disk);
               after == before || (before == Ready && after == NeedsReview)
  {
    forall n | n in cookbooks { ReviewSwitch(cache, Ask(cookbooks, target, ids, n)); }
  }

  /** Counting Test Kitchen adds exactly the failing, undecided cookbooks to the blocking
      set, and takes them off the review list. */
  lemma KitchenSwitchOnNode(cache: Cache, cookbooks: map<string, string>, target: string, ids: CookbookIDs)
    ensures var off, on := cache.(kitchenBlocks := false), cache.(kitchenBlocks := true);
            var failing := set n | n in cookbooks && KitchenFailed(cache, n, target) && !HumanDecides(cache, n);
            && BlockingNames(on, cookbooks, target, ids) == BlockingNames(off, cookbooks, target, ids) + failing
            && ReviewNames(on, cookbooks, target, ids) == ReviewNames(off, cookbooks, target, ids) - failing
  {
    var off, on := cache.(kitchenBlocks := false), cache.(kitchenBlocks := true);
    forall n | n in cookbooks
      ensures var q := Ask(cookbooks, target, ids, n);
              var newly := KitchenFailed(cache, n, target) && !HumanDecides(cache, n);
              (Blocks(on, q) <==> Blocks(off, q) || newly) && (NeedsReviewing(on, q) <==> NeedsReviewing(off, q) && !newly)
    {
      KitchenSwitch(cache, Ask(cookbooks, target, ids, n));
    }
  }

  /** So it never improves a node. */
  lemma KitchenNeverImprovesNode(cache: Cache, cookbooks: map<string, string>, target: string, ids: CookbookIDs,
                                 stale: bool, disk: DiskSpace.Verdict)
    ensures Rank(NodeStatusOf(cache.(kitchenBlocks := false), cookbooks, target, ids, stale, disk)) <=
            Rank(NodeStatusOf(cache.(kitchenBlocks := true), cookbooks, target, ids, stale, disk))
  {
    KitchenSwitchOnNode(cache, cookbooks, target, ids);
    var off, on := cache.(kitchenBlocks := false), cache.(kitchenBlocks := true);
    if n :| n in ReviewNames(off, cookbooks, target, ids) && n !in ReviewNames(on, cookbooks, target, ids) {
      assert n in BlockingNames(on, cookbooks, target, ids);
    }
  }
}
