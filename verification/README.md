# Verification of Chef Migration Metrics

This project models the decision-making core of Chef Migration Metrics, from collecting the
estate to saying whether a node can be upgraded, and proves properties of it with Dafny 4.11.

- `RoleSearch`, `RoleGapFill`, `NodePaging`: reading roles and nodes page by page with
  concurrent requests. The server is a fixed index with a page length at every offset; the
  worker pool is a state machine over a work queue, offsets in flight and a result channel.
- `CopClassification`, `ScanScope`, `Fingerprint`, `Trend`: the CookStyle verdict, the
  exclusions it is computed under, its compression to a per-cop fingerprint, and the trend
  re-derived from fingerprints at any past time.
- `DiskSpace`, `Readiness`: the disk verdict, the precedence of verdict sources for a
  cookbook, and a node's status under the two live switches.
- `CookbookUsage`, `Coverage`, `SnapshotDedup`: aggregations that must not depend on the order
  goroutines or maps deliver in.
- `KitchenConfig`, `KitchenHeap`: the deep merge of Test Kitchen configurations, its laws and
  its form on shared maps.
- `GitOrigin`: the clone whose origin migrates towards the preferred base URL.
- `Acme`: the ACME order flow of RFC 8555, over a log of effects.
- `Ordering`, `Strings`, `Wrappers`: Go's string order and the sort by a key, its string tests,
  and optional values.

Where the source changes state step by step the model is a method or a class, proved against
a function of its inputs or old state; the properties are then lemmas about that function. A
Go map's iteration order, the order in which goroutines finish and the answers of the outside
world are arbitrary choices, so each theorem holds for all of them.

`dafny verify dfyconfig.toml` checks everything.

## Where the code and its documentation differ

The model follows the code.

- `internal/collector/dedup.go:19-20` says rows keep the order of first occurrence; the code
  orders by last occurrence. `SnapshotDedup.FirstSeenOrderKept` gives the exact condition
  under which the two agree.
- The concurrent role walk assumes later pages are as long as the first
  (`internal/chefapi/roles_search.go:97-118`). `RoleSearch.VaryingPagesCollectedIff` says
  exactly when varying page lengths are harmless; `RoleGapFill.LossyWalkRepaired` shows that
  the later gap fill makes good the loss.
- `merge(a,a)=a` fails for mappings keyed by arbitrary values, which come out keyed by
  strings (`KitchenConfig.MergeIdempotent`).
- `internal/analysis/cookstyle_recompute.go:75-76` says recomputed complexity can never drift
  from the scanned one. It does where an offence's message changes what the removal table says:
  `Fingerprint.ComplexityDrift` gives the drift and `Fingerprint.ClassMethodsDiffer` an input.
  The same inputs can change the verdict (`Fingerprint.VerdictPreservedIff`).
- `TestedNotInProd` also lists names that do match production platforms, when earlier names
  match them all (`Coverage.ListedNotInProdIff`).
- A stored account key is used with whichever CA is configured
  (`internal/acme/manager.go:93-97`), also one it was never registered with
  (`Acme.Manager.Obtain`).
- `internal/acme/storage.go:79-82` falls open on a half pair; a failed renewal can leave a
  full pair that does not match (`Acme.HalfRenewal`).
- The fingerprint's `Correctable` is filled from the offence's `Corrected` flag
  (`internal/analysis/cookstyle_fingerprint.go:50`).

The fingerprint key is called collision-free at
`internal/analysis/cookstyle_recompute.go:108`. It is, exactly for results without a NUL in
their identity (`Trend.KeyIdentifiesResultIff`); stored rows satisfy that, because their TEXT
columns cannot hold one (`migrations/0043_cookstyle_offence_fingerprints.up.sql:18-25`).

## Model

| member | source | states |
|---|---|---|
| RoleSearch.FetchRolePages | internal/chefapi/roles_search.go:156-198 | A wave fails exactly when one of its requests fails; otherwise it yields every requested page, whatever order they finish in |
| RoleSearch.AssembleWave | internal/chefapi/roles_search.go:126-143 | Pages are appended in offset order up to the first empty one; the row count and the short flag describe exactly what was appended |
| RoleSearch.WaveOffsets | internal/chefapi/roles_search.go:109-119 | The inner loop produces the offsets one stride apart, at most `concurrency` of them, all below the total |
| RoleSearch.RoleCollector.AppendRows | internal/chefapi/roles_search.go:79-93 | After any rows the slice holds the decodable roles, first of each name, and `seen` holds their names |
| RoleSearch.WalkWaves | internal/chefapi/roles_search.go:104-145 | The waves terminate and append exactly the rows of the recursive walk, or fail exactly when it does |
| RoleSearch.CollectAllRoles | internal/chefapi/roles_search.go:62-150 | For every page size and concurrency the result is the sorted list of the roles that some row read is the first to name, or the error |
| RoleSearch.GatheredAreFirst | internal/chefapi/roles_search.go:79-93 | A role is gathered if and only if it is the first decodable row of its name |
| RoleSearch.GatheredDistinct | internal/chefapi/roles_search.go:79-93 | No name is gathered twice |
| RoleSearch.CollectedAreSorted | internal/chefapi/roles_search.go:147-149 | The result is strictly sorted by name and has exactly the gathered roles |
| RoleSearch.CollectedRolesAre | internal/chefapi/roles_search.go:79-149 | A role is collected if and only if some row is the first with its name and it carries the lists of that row |
| RoleSearch.DecodedIsRole | internal/chefapi/roles_search.go:205-256 | A row is decoded if and only if it has data with a non-empty name, and then to the one role with that name, its run list where that is a list, and the run list of each environment that has one |
| RoleSearch.TextsListed | internal/chefapi/roles_search.go:225-236 | A decoded list is all texts of the raw list, in order, with only the other items left out |
| RoleSearch.FailsIffARequestDoes | internal/chefapi/roles_search.go:62-150 | For every server the collection fails if and only if one of the requests it actually makes fails |
| RoleSearch.CappedServerIsReadWhole | internal/chefapi/roles_search.go:62-150 | With a constant page cap, for every page size and concurrency: an error exactly when a request made fails, otherwise a first part of the index that reaches to the claimed total, so all of it unless the server claims fewer rows than it has |
| RoleSearch.SingleRequestsReadWhole | internal/chefapi/roles_search.go:62-150 | The same with concurrency 1 however page lengths vary, as long as no page is empty |
| RoleSearch.UnevenServerLosesARole | internal/chefapi/roles_search.go:104-145 | For every concurrency and page size of at least 2 a server whose second page is one row longer makes the walk lose a role |
| RoleSearch.VaryingPagesCollectedIff | internal/chefapi/roles_search.go:62-150 | The collection is complete on all servers with non-empty pages of varying length that claim no fewer rows than they have if and only if concurrency is at most 1 or pages are of size 1 |
| RoleGapFill.GetRolesConcurrent | internal/chefapi/client.go:683-739 | For every completion order: the fetched roles and the failures, each in input order |
| RoleGapFill.FetchedOrReported | internal/chefapi/client.go:683-739 | Every name is either fetched or reported, and nothing else is |
| RoleGapFill.FetchedInOrder | internal/chefapi/client.go:724-739 | The roles are the answers to the names that can be fetched, all of them, in the order of the names |
| RoleGapFill.UnfetchedInOrder | internal/chefapi/client.go:724-739 | The failures are the names that cannot, all of them, in order |
| RoleGapFill.DedupeSorted | internal/collector/roles_collect.go:127-139 | The unique names, sorted |
| RoleGapFill.WantedSorted | internal/collector/roles_collect.go:125-139 | Strictly sorted with exactly the listed names, so the request set is the same between runs |
| RoleGapFill.CollectRoleDetails | internal/collector/roles_collect.go:50-123 | Computes the collection of whichever sources answered, on the index path, the fallback path and the failing one |
| RoleGapFill.CollectionIsComplete | internal/collector/roles_collect.go:50-123 | Fails only when neither source answered; otherwise names those of the walk and of the answers, counts adding up to the length, every name that could not be fetched reported, strictly sorted; with answers that carry the name asked for, exactly index names union fetchable listed names |
| RoleGapFill.CollectedRolesAreAnswers | internal/collector/roles_collect.go:50-123 | Every role is one of the index or the answer to a request made; no role of the index is lost or replaced, and the counts and error flags say what came from where |
| RoleGapFill.GapsAreFilled | internal/collector/roles_collect.go:87-123 | Whatever the index walk returned, if all listed names can be fetched under their own name the result names exactly the union and reports no failure |
| RoleGapFill.LossyWalkRepaired | internal/collector/roles_collect.go:50-123 | The gap fill repairs any walk of an index that lost rows, for every server, page size and concurrency, when answers carry the name asked for |
| RoleGapFill.RowsReadAreIndexed | internal/chefapi/roles_search.go:62-150 | The walk never makes a row up |
| NodePaging.CollectAllNodes | internal/chefapi/client.go:493-519 | The loop computes the sequential collection, which `AllPagesLaid` and `IndexIsCollected` say what it is |
| NodePaging.AllPagesLaid | internal/chefapi/client.go:493-519 | The collection fails if and only if some page, the first or one below the total, is not answered; otherwise its rows are all pages, each whole, in order, at its own place, with nothing between or after |
| NodePaging.IndexIsCollected | internal/chefapi/client.go:493-519 | A server that pages through one index is collected whole, one page or many |
| NodePaging.ReceivesEveryOffset | internal/chefapi/client.go:553-607 | ceil(total/pageSize)-1 is the number of queued offsets, so the receive loop takes exactly one result for each |
| NodePaging.StepInv | internal/chefapi/client.go:563-607 | Every step of the pool (take, send, receive, cancel) conserves the offsets and keeps results truthful |
| NodePaging.NeverStuck | internal/chefapi/client.go:563-607 | Until all results are received some worker or the receiver can move, and the result channel never blocks a sender |
| NodePaging.StepsRunOut | internal/chefapi/client.go:563-607 | Every step uses up a bounded budget, so every run ends |
| NodePaging.RunsAreSafe | internal/chefapi/client.go:537-620 | In every run of any number of workers the invariant holds and at most three steps per page are taken |
| NodePaging.FinishedRunsAgree | internal/chefapi/client.go:537-620 | Every finished run returns the row sequence, or the error, of the sequential collection; only cancellation can add an error |
| NodePaging.CollectAllNodesConcurrent | internal/chefapi/client.go:537-620 | For every interleaving the result is that of the sequential collection, or an error after cancellation |
| CopClassification.ParseMajorVersion | internal/analysis/cop_classification.go:167-177 | The digit loop computes the decimal number the version starts with, wrapped to 64 bits once |
| CopClassification.VersionOrderIsTotal | internal/analysis/cop_classification.go:156-164 | The version comparison is reflexive, total, antisymmetric and transitive |
| CopClassification.MajorsDecide | internal/analysis/cop_classification.go:156-164 | Versions whose leading numbers differ compare as these numbers |
| CopClassification.RaisingTargetOnlyBlocks | internal/analysis/cop_classification.go:98-124 | Raising the target leaves a classification alone or makes it a blocker |
| CopClassification.UnclassifiedIsHeaviest | internal/remediation/complexity_classification.go:117-134 | An unclassified offence weighs as much as its heaviest legacy category, and nothing without one |
| ScanScope.Excluded | internal/analysis/scan_scope.go:218-232 | Finds an exclusion if and only if one covers the path, and then the first |
| ScanScope.FewerPatternsExcludeLess | internal/analysis/scan_scope.go:237-248 | A list with fewer patterns excludes no more offences |
| ScanScope.SpellingIgnored | internal/analysis/scan_scope.go:218-258 | Backslashes and a leading "./" or "/" or both make no difference to what is excluded |
| ScanScope.DirectoryPatternCovers | internal/analysis/scan_scope.go:268-277 | A directory pattern covers the directory and everything below it, and no sibling whose name starts with it |
| ScanScope.OffencePath | internal/analysis/scan_scope.go:245-248 | The offence's own file decides where it has one, its location's otherwise; without either it is never excluded |
| ScanScope.MergeExclusions | internal/analysis/scan_scope.go:169-201 | The loops produce the overlaid curated list followed by the operator's additions |
| ScanScope.OverlayIsExact | internal/analysis/scan_scope.go:169-201 | The merged list has exactly the curated exclusions nobody decided about and the exclusions the operator decided for |
| ScanScope.OperatorHasTheLastWord | internal/analysis/scan_scope.go:166-201 | With one row per pattern, a pattern is in force if and only if the operator excludes it or the curated list does and the operator says nothing |
| Fingerprint.DeriveCookstyleStatus | internal/analysis/cookstyle_status.go:67-93 | The early-returning loop computes the roll-up of the in-scope levels |
| Fingerprint.LiveVerdictMeans | internal/analysis/cookstyle_status.go:67-93 | Blocked if and only if an in-scope offence blocks by override or name or is of a removed construct; needs review if and only if none does and one is left to be looked at |
| Fingerprint.BuildOffenceFingerprint | internal/analysis/cookstyle_fingerprint.go:40-84 | Builds the fingerprint, for every map order: strictly sorted entries whose counts `EntriesCountOffences` says |
| Fingerprint.EntriesCountOffences | internal/analysis/cookstyle_fingerprint.go:46-66 | An entry counts the offences with its cop, its severity and `Corrected` equal to its `Correctable`, and those of them out of scope; every offence has its entry |
| Fingerprint.EntriesWellFormed | internal/analysis/cookstyle_fingerprint.go:66-83 | Keys are unique, counts positive, and 0 <= ExcludedCount <= Count |
| Fingerprint.FingerprintIsCanonical | internal/analysis/cookstyle_fingerprint.go:66-83 | Equal fingerprints if and only if equal multisets of what a fingerprint keeps of each offence |
| Fingerprint.SameFingerprintIff | internal/analysis/cookstyle_fingerprint.go:40-84 | Two offence lists have equal fingerprints if and only if for every cop, severity and `Corrected` they have as many offences in scope and as many out of it |
| Fingerprint.CountsAddUp | internal/analysis/cookstyle_fingerprint.go:46-66 | The counts add up to the number of offences |
| Fingerprint.DeriveStatusFromFingerprint | internal/analysis/cookstyle_recompute.go:35-59 | The loop computes the roll-up of the entries that have an occurrence in scope |
| Fingerprint.VerdictPreserved | internal/analysis/cookstyle_recompute.go:35-59 | For every offence list, scope and resolver the re-derived verdict is the live verdict with messages erased |
| Fingerprint.VerdictPreservedIff | internal/analysis/cookstyle_recompute.go:22-59 | The re-derived verdict is the live one if and only if something in scope blocks by override or name, or looking removals up with messages and by cop alone agree on whether an in-scope offence hits one |
| Fingerprint.VerdictPreservedExactly | internal/analysis/cookstyle_recompute.go:22-59 | In particular it is the live one wherever messages change no in-scope classification |
| Fingerprint.RederivedDiffers | internal/analysis/cookstyle_recompute.go:35-93 | An offence whose cop has a reached removal but whose message names none needs review and weighs 1 live, and is blocked and weighs 8 re-derived |
| Fingerprint.ClassMethodsDiffer | internal/remediation/copmapping.go:150-156 | Lint/DeprecatedClassMethods about Socket.gethostbyname at target 19.0 is such an offence |
| Fingerprint.ComplexityFromFingerprint | internal/analysis/cookstyle_recompute.go:70-93 | The loop computes the weighted sum over entries of the occurrences in scope |
| Fingerprint.StoringKeepsScore | internal/remediation/complexity_classification.go:152-172 | Scoring the stored offences, whose path is kept elsewhere, gives the live complexity of the scanned ones, and their verdict is the same |
| Fingerprint.ComplexityPreserved | internal/analysis/cookstyle_recompute.go:61-93 | Complexity re-derived from the fingerprint is the live complexity of the original offences with messages erased |
| Fingerprint.ComplexityDrift | internal/analysis/cookstyle_recompute.go:61-93 | It exceeds the live complexity, scored with messages, by the drifts of the in-scope offences whose message changes the removal lookup, 7 or 8 each way; the two are equal if and only if the drifts cancel out |
| Fingerprint.NoDrift | internal/remediation/complexity_classification.go:152-172 | There is no drift where no in-scope message changes the removal lookup |
| Fingerprint.Regroup | internal/analysis/cookstyle_recompute.go:61-93 | Summing by key gives the same as summing one by one |
| Fingerprint.LiveVerdictMonotone | internal/analysis/cookstyle_status.go:67-93 | Raising the target or dropping exclusions never moves the live verdict down |
| Fingerprint.FingerprintVerdictMonotone | internal/analysis/cookstyle_recompute.go:35-59 | Raising the target never moves a re-derived verdict down |
| Fingerprint.ComplexityMonotone | internal/analysis/cookstyle_recompute.go:70-93 | Raising the target never lowers the complexity |
| Trend.GroupHistories | internal/analysis/cookstyle_recompute.go:125-139 | One history for each key, in the order of first rows, each holding that key's rows in order |
| Trend.HistoriesInOrder | internal/analysis/cookstyle_recompute.go:125-139 | A history holds all rows of its key in their order, and histories come in the order of their first rows |
| Trend.KeyIdentifiesResultIff | internal/analysis/cookstyle_recompute.go:108-118 | For every row, its key belongs to its result alone if and only if no identity field of its kind contains a NUL |
| Trend.KeyIdentifiesResult | internal/analysis/cookstyle_recompute.go:108-118 | So rows read from the store share a key if and only if they belong to one result |
| Trend.FingerprintValidAt | internal/analysis/cookstyle_recompute.go:161-173 | The loop finds the fingerprint in force at a time |
| Trend.LatestScanIsInForce | internal/analysis/cookstyle_recompute.go:156-173 | In an ascending history that is the fingerprint of the latest scan not after the time, and none before the first scan |
| Trend.RecomputeRollupAt | internal/analysis/cookstyle_recompute.go:181-202 | The loop computes the rollup, whose counters `RollupCounts` says |
| Trend.RollupCounts | internal/analysis/cookstyle_recompute.go:181-202 | Ready, NeedsReview and Blocked are each the number of members with a fingerprint in force from which that verdict is derived; Untested is the number of members without one |
| Trend.RollupComplexity | internal/analysis/cookstyle_recompute.go:181-202 | The total complexity is the sum over the members with data |
| Trend.RollupPartitions | internal/analysis/cookstyle_recompute.go:175-202 | Ready, NeedsReview, Blocked and Untested always add up to the membership |
| Trend.DistinctScanTimes | internal/analysis/cookstyle_recompute.go:214-229 | Strictly ascending, and exactly the times at which something was scanned |
| Trend.StepFunction | internal/analysis/cookstyle_recompute.go:204-241 | The rollup at any time is the rollup at the greatest scan time not after it |
| Trend.BeforeFirstScan | internal/analysis/cookstyle_recompute.go:181-229 | Before the first scan every member is untested |
| Trend.DataOnlyGrows | internal/analysis/cookstyle_recompute.go:181-202 | MembersWithData never falls as time goes on |
| Trend.DataBoundary | internal/analysis/cookstyle_recompute.go:248-263 | Found if and only if some history has a row; then the least of the first scan times |
| Trend.DataFromBoundaryOn | internal/analysis/cookstyle_recompute.go:243-263 | A trend point has data if and only if it is at or after the boundary, and never when there is none |
| Trend.BoundaryIsEarliestScan | internal/analysis/cookstyle_recompute.go:248-263 | With ascending histories the boundary is the earliest scan of all |
| Trend.RollupMonotone | internal/analysis/cookstyle_recompute.go:181-202 | For a higher target no member is unblocked or made ready, complexity does not fall, and who has data is unchanged |
| DiskSpace.FindBestMountLinux | internal/analysis/readiness.go:1285-1313 | For every map order the mount found is a path prefix no other prefix mount exceeds in length; none exactly when no mount is a prefix |
| DiskSpace.MountIsOrderIndependentIff | internal/analysis/readiness.go:1285-1313 | The chosen mount is independent of the map order on all filesystems if and only if no one-character name rivals the root as a prefix, as for every absolute path |
| DiskSpace.EvaluateDiskLinux | internal/analysis/disk.go:57-106 | The verdict is that of a best mount, or unknown when there is none |
| DiskSpace.FitsIff | internal/analysis/disk.go:57-80 | An install fits if and only if it is no larger than what is available and what is left is at least the given share of the filesystem, in whole numbers |
| DiskSpace.VerdictIsOrderIndependentIff | internal/analysis/disk.go:57-106 | Whether an install fits is the same in every map order at all thresholds if and only if all entries that could be picked show the same usage |
| DiskSpace.ThresholdsTellUsages | internal/analysis/disk.go:57-80 | Two usages pass and fail the same thresholds only when they are equal |
| DiskSpace.TwoDevicesOnRoot | internal/analysis/disk.go:85-106 | Two devices on one mount for which the order decides |
| DiskSpace.MoreSpaceStillFits | internal/analysis/disk.go:57-80 | The verdict is monotone in available space |
| DiskSpace.SmallerInstallStillFits | internal/analysis/disk.go:57-80 | The verdict is antitone in the required size and the free percentage |
| Readiness.CheckCookstyle | internal/analysis/readiness.go:923-958 | The flags say which words the two CookStyle sources have; the verdicts are theirs in order |
| Readiness.CheckCookbook | internal/analysis/readiness.go:910-1046 | Status, source and verdicts, whose meaning `VerdictMeans`, `WordAndSourceMean` and `VerdictsAreOwnWords` say |
| Readiness.VerdictMeans | internal/analysis/readiness.go:910-1070 | A cookbook passes if and only if a person says it is not broken, or nobody has decided, no kitchen failure counts and a result in use (repository, or server for the target, failing that untargeted) is ready, needs a review that does not count, or is too old for a status and passed; it needs review, or blocks, in exactly the other cases |
| Readiness.WordAndSourceMean | internal/analysis/readiness.go:992-1046 | When a pass is on CookStyle only, when a cookbook is untested, and which source is named |
| Readiness.VerdictsAreOwnWords | internal/analysis/readiness.go:923-1023 | The list has every source that has a word, once, in order, with what that source itself says, losing ones included |
| Readiness.ReviewSwitch | internal/analysis/readiness.go:1052-1070 | Turning review-blocking on leaves alone what blocks and moves only passing cookbooks to needs-review |
| Readiness.KitchenSwitch | internal/analysis/readiness.go:960-1046 | Counting Test Kitchen adds to what blocks exactly the eligible cookbooks whose run failed in whole or part and that carry no recognised human verdict, and takes them off review |
| Readiness.HumanDecidesAlone | internal/analysis/readiness.go:992-1023 | A recognised human verdict fixes status and source whatever the results and switches |
| Readiness.EvaluateCookbooks | internal/analysis/readiness.go:668-716 | For every map order the two lists name exactly the blocking and the needs-review cookbooks, once each, with their findings |
| Readiness.EvaluateOne | internal/analysis/readiness.go:584-644 | Status, readiness, disk verdict and lists of a node; a stale node is always blocked |
| Readiness.NodeStatusMeans | internal/analysis/readiness.go:584-644 | Ready if and only if fresh, with disk known to suffice and every cookbook passing; blocked if and only if one of the first two fails or some cookbook blocks |
| Readiness.OneScanDecides | internal/analysis/readiness.go:584-716 | A cookbook known by one blocked scan only blocks its node, and by one ready scan only lets it through |
| Readiness.OrderDoesNotMatter | internal/analysis/readiness.go:668-716 | Two evaluations in different map orders agree on the blocking list up to order |
| Readiness.ReviewSwitchOnNode | internal/analysis/readiness.go:584-716 | The review switch leaves each node's blocking set unchanged and moves a node only from ready to needs-review |
| Readiness.KitchenSwitchOnNode | internal/analysis/readiness.go:584-716 | The kitchen switch adds exactly the failing undecided cookbooks to the blocking set and takes them off the review set |
| Readiness.KitchenNeverImprovesNode | internal/analysis/readiness.go:584-644 | So it never improves a node |
| CookbookUsage.ExtractNodeTuples | internal/analysis/usage.go:296-316 | One tuple for each cookbook of the node, in any map order |
| CookbookUsage.ExtractTuples | internal/analysis/usage.go:250-293 | For every arrival order of the batches the tuples are, as a multiset, those of all nodes |
| CookbookUsage.AggregatedUsage.Add | internal/analysis/usage.go:325-380 | A tuple updates its record's node set, roles, policies and platform counts, and nothing else |
| CookbookUsage.RecordTuple | internal/analysis/usage.go:325-380 | Only the record of the tuple's own key changes; it is made on first use |
| CookbookUsage.AggregateTuples | internal/analysis/usage.go:325-380 | The mutable records end up holding the usage of every version that occurs |
| CookbookUsage.UsageMeans | internal/analysis/usage.go:318-380 | The aggregate is its set definition: distinct node names and their number, labels, and how often each platform is reported |
| CookbookUsage.LabelsOfNodes | internal/analysis/usage.go:296-380 | A version's names, roles, policies and policy groups are those of the nodes that run it, empty ones left out |
| CookbookUsage.CountsOfNodes | internal/analysis/usage.go:296-380 | Each platform and family count is the number of node records that run the version and report it, the platform with its version |
| CookbookUsage.ArrivalOrderIrrelevant | internal/analysis/usage.go:250-380 | Rearranging the tuples changes no record |
| CookbookUsage.NodeCountIsDistinctNodes | internal/analysis/usage.go:345-349 | NodeCount is the number of distinct names of nodes that run the version |
| CookbookUsage.PlatformCountsAddUp | internal/analysis/usage.go:364-376 | The platform counts of a version add up to the number of node records that run it and report a platform |
| CookbookUsage.BuildActiveSet | internal/analysis/usage.go:398-406 | Exactly the aggregated versions with a node |
| CookbookUsage.AggregatedIsActive | internal/analysis/usage.go:398-406 | A version is aggregated if and only if its node count is positive |
| CookbookUsage.CountActive | internal/analysis/usage.go:162-174 | Active and unused split the inventory |
| CookbookUsage.BuildDetails | internal/analysis/usage.go:414-469 | Strictly sorted rows, one for each version of the inventory or the aggregate, with its record |
| CookbookUsage.DetailsUnique | internal/analysis/usage.go:414-469 | Those rows are fixed by inventory and usage |
| CookbookUsage.AnalysisIsDeterministic | internal/analysis/usage.go:141-241 | Two analyses of the same nodes and inventory store the same rows whatever the arrival orders |
| CookbookUsage.RunUsageAnalysis | internal/analysis/usage.go:141-241 | Totals, active and unused counts and rows of the whole analysis |
| Coverage.KitchenNameSplitsIff | internal/analysis/coverage.go:159-165 | A name is split into a system and a version if and only if they are the non-empty parts around its last hyphen |
| Coverage.VersionMatchIsDottedPrefix | internal/analysis/coverage.go:293-312 | A version matches if and only if it is the production version or its start up to a dot, for every production version |
| Coverage.MatchMeans | internal/analysis/coverage.go:187-234 | A kitchen name matches a platform if and only if it splits into a system and a version and the system is the family, or the platform with a version that matches |
| Coverage.MatchOne | internal/analysis/coverage.go:187-234 | One kitchen name covers and is credited for exactly the uncovered platforms it matches |
| Coverage.ComputeCoverage | internal/analysis/coverage.go:170-267 | The nested loops compute credits, gaps, unmatched names, totals and the rounded percentage |
| Coverage.CoveragePartitions | internal/analysis/coverage.go:182-257 | Every platform is credited once or is a gap, the gaps are exactly the platforms no name matches, and node counts add up to the total |
| Coverage.CreditsGoToFirst | internal/analysis/coverage.go:187-234 | What is credited is exactly each platform that some kitchen name matches, with its version and nodes, to the first name that does |
| Coverage.CreditsInOrder | internal/analysis/coverage.go:187-234 | Credits come by kitchen name and within one by platform, both in their given order |
| Coverage.GapsInOrder | internal/analysis/coverage.go:243-250 | Gaps are all platforms no name is first for, in their order |
| Coverage.UnmatchedInOrder | internal/analysis/coverage.go:236-241 | Unmatched names are all that are first for no platform, in their order |
| Coverage.CoverageIgnoresKitchenOrder | internal/analysis/coverage.go:170-267 | The order of kitchen names changes neither gaps, number of credits nor covered nodes |
| Coverage.PercentageInRange | internal/analysis/coverage.go:252-261 | For non-negative counts the percentage lies in 0..100, and is 100 when there are no gaps |
| Coverage.ListedNotInProdIff | internal/analysis/coverage.go:236-241 | A name is listed as not in production if and only if an earlier name matches every platform it matches |
| Coverage.ListedThoughInProduction | internal/analysis/coverage.go:236-241 | So a name that matches a production platform can be listed there |
| KitchenHeap.MergeKitchenConfigs | internal/analysis/kitchen_analyser.go:87-123 | A new map whose document is the deep merge of the two inputs, for every map order and every nil input; both inputs read as before |
| KitchenHeap.WriteOver | internal/analysis/kitchen_analyser.go:98-113 | The loop turns the copy of the base into the merge |
| KitchenHeap.GoMap.CopyMap | internal/analysis/kitchen_analyser.go:117-123 | A new map with the same entries |
| KitchenConfig.LookupInMerge | internal/analysis/kitchen_analyser.go:87-115 | At every path the override wins unless both sides hold mappings; the base shows through exactly where the override is silent |
| KitchenConfig.EmptyIsIdentity | internal/analysis/kitchen_analyser.go:87-115 | The empty mapping is a two-sided identity |
| KitchenConfig.MergeLeavesOverride | internal/analysis/kitchen_analyser.go:87-115 | Merging over a base changes nothing if and only if the override says everything the base says |
| KitchenConfig.MergeIdempotent | internal/analysis/kitchen_analyser.go:87-137 | merge(a,a)=a if and only if no mapping inside is keyed by arbitrary values |
| KitchenConfig.MergeAbsorbs | internal/analysis/kitchen_analyser.go:87-137 | merge(merge(a,b),b)=merge(a,b), with its exact condition |
| KitchenConfig.MergeAssociative | internal/analysis/kitchen_analyser.go:87-115 | Merging is associative on exactly the triples described |
| KitchenConfig.NoGapAssociates | internal/analysis/kitchen_analyser.go:87-115 | In particular when no path holds a mapping in a, something else in b and a mapping in c |
| KitchenConfig.GapBreaksAssociativity | internal/analysis/kitchen_analyser.go:87-115 | A whole family of triples with such a path where the groupings differ |
| GitOrigin.SuffixesIgnoredIff | internal/collector/git.go:412-422 | For every string: when a trailing slash, and when a ".git" suffix, makes no difference |
| GitOrigin.GitCookbookManager.ReconcileOrigin | internal/collector/git.go:372-410 | The origin moves to the first reachable candidate ranked above it, if git agrees, and nothing else changes |
| GitOrigin.GitCookbookManager.CloneOrPull | internal/collector/git.go:158-266 | Clears strays, fetches and resets a live clone, removes and re-clones a dead one; result and directory on every error path |
| GitOrigin.GitCookbookManager.FetchCookbook | internal/collector/git.go:596-703 | Reconcile, then try the candidates until one succeeds; no other directory changes |
| GitOrigin.GitCookbookManager.FetchGitCookbooks | internal/collector/git.go:537-735 | For every order of the goroutines each cookbook ends as its own pass does, and each counter is the number of cookbooks whose pass cloned, pulled a change, pulled nothing new or failed |
| GitOrigin.TallyAddsUp | internal/collector/git.go:537-735 | The counters add up to the cookbooks, and all but the failed ones have a recorded URL |
| GitOrigin.PassSettles | internal/collector/git.go:596-703 | A pass succeeds if and only if there is a URL to aim at, the way to it is free and its copy usable; then the clone is at that URL and its tip |
| GitOrigin.RankNeverWorsens | internal/collector/git.go:345-410 | While the origin is reachable a pass, successful or not, never moves to a less preferred base and keeps the clone |
| GitOrigin.RankNeverWorsensInARun | internal/collector/git.go:345-410 | So through every run of passes in changing worlds |
| GitOrigin.PreferredBaseIsReached | internal/collector/git.go:345-410 | When the most preferred base has the repository a successful pass ends there, unless git refuses to re-point the origin |
| GitOrigin.SecondPassChangesNothing | internal/collector/git.go:596-703 | A second pass after a successful one leaves the directory as it is and reports an unchanged pull, if the branch can be reset to |
| GitOrigin.RecordedURLsAreOrigins | internal/collector/git.go:625-664 | Every URL recorded is the origin on disk |
| GitOrigin.CloneIsLostIff | internal/collector/git.go:194-213 | An existing clone is lost if and only if its origin is dead, it can be removed and no candidate is reachable |
| Acme.HTTP01Solver.Present | internal/acme/http01.go:39-45 | Publishes the key authorization under the token |
| Acme.HTTP01Solver.CleanUp | internal/acme/http01.go:49-54 | Withdraws the token and nothing else |
| Acme.HTTP01Solver.Handle | internal/acme/http01.go:59-78 | Answers exactly the challenge paths of presented tokens |
| Acme.Storage.SetCertificate | internal/acme/storage.go:95-103 | The certificate is written before the key; on an error either may be missing |
| Acme.Storage.Certificate | internal/acme/storage.go:79-93 | A pair is returned if and only if both parts are stored |
| Acme.Manager.Account | internal/acme/manager.go:90-106 | The stored key, or a new one that is not stored yet |
| Acme.Manager.RegisterAccount | internal/acme/manager.go:108-124 | A key is stored only once the CA holds its account, an already existing account included |
| Acme.Manager.SolveAuthz | internal/acme/manager.go:171-217 | With either challenge: on every way out no token stays served; success means the authorization is valid |
| Acme.Manager.StoreCertificate | internal/acme/manager.go:154-159 | Storing leaves the old pair, the new certificate beside the old key, or the new pair, and notes exactly that |
| Acme.Manager.Order | internal/acme/manager.go:126-169 | Finalizes only with all authorizations valid; the stored pair is untouched unless a certificate was issued, is one of three outcomes then, and is the issued pair on success |
| Acme.Manager.Obtain | internal/acme/manager.go:62-88 | Whatever fails the log stays safe, nothing stays served and the pair is as an order leaves it; an order is placed with a key the CA has not accepted exactly when the stored key is such |
| Acme.Manager.ObtainRepeatedly | internal/acme/manager.go:62-88 | The same over every sequence of calls and restarts; with one CA every order uses an accepted key |
| Acme.StoredKeyWasAccepted | internal/acme/manager.go:90-124 | In every safe log the stored account key is one a CA has accepted (section 7.3 of RFC 8555) |
| Acme.AcceptedIsServed | internal/acme/manager.go:201-216 | When a challenge is accepted, and when its authorization settles, a request for its token is answered by the key authorization (section 8.3 of RFC 8555) |
| Acme.AcceptedIsBracketed | internal/acme/manager.go:201-216 | Every accepted challenge had been presented before, without interruption, and was withdrawn after |
| Acme.ProofIsForTheAuthorization | internal/acme/manager.go:174-216 | A token presented, accepted or waited for is that of the first challenge of its kind in the authorization read last, which was not valid yet; what is waited for is that authorization |
| Acme.PassedOverIsValid | internal/acme/manager.go:174-181 | An authorization is passed over only when it was just read as valid |
| Acme.AcceptedWithOrderKey | internal/acme/manager.go:126-216 | Challenges are accepted with the key their order was placed with |
| Acme.FinalizedIsValidated | internal/acme/manager.go:128-150 | An order is finalized only after each of its authorizations became valid in that order |
| Acme.PairMatchesIff | internal/acme/storage.go:79-103 | In every safe log a full stored pair matches if and only if its last write was a key, or a certificate for the key already there |
| Acme.HalfRenewal | internal/acme/storage.go:95-103 | Storing only the certificate over a full pair leaves a full pair, matching if and only if the certificate is for the old key |
| Acme.BrokenPairIff | internal/acme/storage.go:95-103 | Of the outcomes of storing, exactly that one breaks a matching pair |
| SnapshotDedup.Deduplicate | internal/collector/dedup.go:21-65 | The result is the rows with no later row of their key, in index order, and the duplicates are the length minus the distinct keys |
| SnapshotDedup.LastRowsBackwards | internal/collector/dedup.go:38-55 | The backward walk appends exactly those rows in reverse |
| SnapshotDedup.Reverse | internal/collector/dedup.go:57-60 | The swaps reverse the slice in place |
| SnapshotDedup.KeptRowsAreLast | internal/collector/dedup.go:12-65 | Every key keeps exactly its last row |
| SnapshotDedup.DeduplicateIdempotent | internal/collector/dedup.go:21-65 | De-duplicating twice is de-duplicating once |
| SnapshotDedup.FirstSeenOrderKept | internal/collector/dedup.go:12-65 | Rows come in the order their keys were first seen if and only if no key's rows lie between two rows of another |
| SnapshotDedup.FirstSeenOrderLost | internal/collector/dedup.go:12-65 | For all keys a and b the batch a, b, a comes out as b, a |

## Left out

- HTTP transport, request signing, TLS, JSON and YAML decoding, SQL, and the git and cookstyle processes: models start from decoded values, and external answers are parameters or arbitrary choices.
- Authentication, sessions, credentials, backup and restore, the listener rebind and the frontend: mostly I/O, or easy once the cores hold.
- `BackfillCookstyleStatus`: derives under the curated scope while the scanner uses the operator's, so it is not the function modelled here.
- The SHA-256 hash of a fingerprint: canonicity is stated on the entry sequence it is computed from.
- The curated removal table behind `LookupCopForOffense`: an arbitrary function of cop and message.
- Glob matching and path cleaning of the scan scope: arbitrary functions of pattern and path; only the branches around them are modelled.
- CookStyle status words outside the vocabulary and a nil scan scope: read as no status and as an empty list of exclusions.
- Floating point: percentages and the page count are exact rationals, so rounding in float64 is not captured.
- Strings: sequences of code points; lower-casing is an arbitrary function, and string order is by code point.
- `sort.Slice` stability: every sorted list has distinct keys, where all sorts agree.
- Nil role pointers, which the producers never make, and which of several errors is reported first: an error is only that something failed.
- RoleGapFill.CollectionIsComplete: takes the index walk's result as strictly sorted by name, which `RoleSearch.CollectedAreSorted` proves of it; with an unsorted index result and nothing missing the source does not sort.
- Readiness check-status strings derived for display, Test Kitchen coverage counts that feed only those, complexity scores and commit hashes attached to blocking entries: they change no status.
- RoleGapFill.GapsAreFilled: takes role answers that carry the name asked for; `RoleGapFill.CollectionIsComplete` says what the names are without that, and promises a sorted fallback result only with it.
- RoleGapFill.LossyWalkRepaired: takes role answers that carry the name asked for.
- Windows drive matching: the disk verdict is modelled for Linux mounts.
- Usage details as marshalled JSON columns: the rows hold the sets and maps they are made from.
- Context cancellation in usage analysis and git batches: runs are uncancelled there; cancellation is modelled for node collection.
- Committer extraction, test-suite detection and the database rows of git repositories: a pass ends with the URL it records.
- GitOrigin.GitCookbookManager.FetchGitCookbooks: goroutines are interleaved as whole passes, since no two share a directory.
- GitOrigin.PassSettles: one pass sees one fixed world, in which probes, fetches and clones agree on what is reachable.
- Route 53: with dns-01 the model has a solver that may fail and serves no token; its records are not modelled, since a time-out leaves one behind, so the bracket is stated for http-01 only.
- Acme.Manager.Obtain: two calls running at the same time, which the renewal loop does not make, are not modelled; cryptography is reduced to keys with a thumbprint.
- KitchenHeap.MergeKitchenConfigs: mappings inside lists are values, as the merge never looks into a list; keys of arbitrary type that print alike are taken as one key.
