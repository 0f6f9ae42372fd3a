# Plastic Promise: verified core algorithms

This project models the algorithmic core of Plastic Promise in Dafny and proves
what it keeps over all inputs, runs and interleavings. `dafny verify dfyconfig.toml`
checks all of it.

| files | what they model |
|---|---|
| `IssueGraph`, `IssueStore`, `IssueProgress`, `IssueManager` | the issue dependency engine: lifecycle, `blocks`/`blocked_by` graph, depth-first cycle search, deadlock freedom |
| `OciLayout`, `OciLayoutProperties`, `OciLayoutMeaning`, `OciLayoutErrors` | the recursive walk over a content-addressed OCI image layout, and what it accepts, returns and reports in terms of the documents alone |
| `ScanCursor`, `Scanners` | keyset cursors with wraparound: fairness and crash safety of the classification and category scans |
| `DuplicateClusters` | optimistic removal of duplicate memories by concurrent scanners |
| `FailureCodes` | the bounded stack traversal of a nested maintenance result |
| `SentenceTokens`, `SentenceSplit` | protecting tokens, splitting prose and restoring the tokens |
| `ServerCutover` | the remote cutover script with its rollback trap |
| `ManifestPublication` | write-once publication of release manifests by concurrent writers |
| `PackageDigest`, `RoleSelection` | the digest of a role package and the selection of its files |
| `FusedRanking` | canonical ranking of recalled rows |
| `TextOrder`, `Binary`, `Collections`, `Wrappers` | the order of texts, byte strings, facts about sets and sequences, options and results |

How the outside world appears:

- SHA-256, JSON decoding, UTF-8 and the character classes of Python are function
  parameters. A lemma that needs a property of one of them says so in a
  `requires`: no collision among the blobs or streams at hand, no NUL in an
  encoded file name. The matches of the token pattern are an arbitrary ordered list
  of disjoint, non-empty spans.
- SQLite answers a query with a function of the table, and
  `mutate_ordinary_source` is one atomic compare-then-write on the snapshots and
  availability it is given.
- Failures are choices of an adversary: any set of commands of the cutover may fail,
  each leaving its own target in any state but a new directory, every step of a
  manifest writer may fail or be its last, and a scan may be cut short after any
  number of actions.
- Generated identifiers, file contents and clocks are parameters.
- Numbers that Python computes as finite floats (relevance, worth) are reals.
- Python's recursion limit is the `fuel` of the OCI walk.

Where the code and its own documentation differ, the model follows the code:

- The class comment of `IssueManager` says that issues which block unresolved ones
  cannot be closed. The code checks the other direction: an issue cannot be
  resolved or closed while one of its blockers is unfinished.
- `write_server_deployment_receipt` says it never replaces existing proof. It checks
  first and then publishes with `os.replace`, so two writers that both passed the
  check replace one another (`ManifestPublication.ReplaceCanOverwrite`).

Properties that hold on a condition only, with the condition:

- A refused `add_block` restores the store if and only if neither end listed the other
  beforehand (`IssueStore.RefusalRestoresIff`).
- Every issue can be closed if and only if no unfinished issues block each other
  in a cycle (`IssueProgress.ClosableIffNoWaitingCycle`). Dependencies made by `add_block`
  never produce such a cycle; blockers handed to `create` can
  (`IssueProgress.CreateCanDeadlock`).
- The classifier is fair on a queue if and only if it holds no trap: a row whose key
  does not load, with at least `n - 1` rows before it and a row after it
  (`Scanners.FairIffNoTrap`). The query drops rows whose `id` or `created_at` is made of
  spaces, while the cursor loader rejects every blank text: a row with only tabs or line
  ends there is selected, but a cursor saved at it is lost.
- A clean rollback leaves every path as it was if and only if each managed path was a
  regular file or absent, and the `install -d` of the drop-in directory had no effect yet
  or the directory was there with mode 0755 (`ServerCutover.RestoreIsExactIff`,
  `ServerCutover.Server.Deploy`). A managed path that is a dangling link is recorded as
  absent and removed; a drop-in directory that the script made stays. HEAD is back at the
  earlier revision, but detached.
- A finished hard-link writer whose bytes are published has returned normally if and only
  if removing its temporary name did not fail right after the link
  (`ManifestPublication.PublishedReturnsIff`).
- With `os.replace` a present target is never replaced if and only if no writer is past its
  check and short of its publication (`ManifestPublication.ReplaceKeepsTargetIff`), and
  readers never see it change if and only if every such writer writes the same bytes
  (`ManifestPublication.ReplaceKeepsContentIff`).
- Server and compute packages share at most two files if and only if no source file
  lies below `plastic_promise/py.typed` (`RoleSelection.SharedOnlyTheTwoFilesIff`).
- The package digest identifies the files among trees whose contents hold no NUL byte
  (`PackageDigest.EqualDigestsEqualFiles`). Among all trees, the stream of a tree belongs to
  it alone if and only if no file counts, or a single one whose content does not spell out
  the record of a later file (`PackageDigest.StreamIsUniqueIff`): every tree with two files
  that count collides with the one that merges the first two of them.
- Restoring tokens needs a text without the fragment `PP_TOKEN`; a text that spells
  out a key is not restored (`SentenceSplit.FragmentBreaksRestoring`).

## Model

| member | source | states |
|---|---|---|
| IssueManagement.CycleSearch.Dfs | plastic_promise/issue.py:188-198 | the recursive search, on its shared `visited` and `path` sets: true only with a reachable cycle; false leaves `path` as it was and the node among the finished ones, whose successors all finished before them |
| IssueManagement.HasCycle | plastic_promise/issue.py:183-200 | `_has_cycle` terminates on every finite graph (dangling ids, self-loops, repeated entries) and is true if and only if a directed cycle is reachable from the start |
| IssueManagement.IssueManager.Create | plastic_promise/issue.py:34-71 | the new store is the old one with a fresh open issue whose history says "created" |
| IssueManagement.IssueManager.Transition | plastic_promise/issue.py:73-108 | the reply and the new store, for every request |
| IssueStore.MoveAnswerMeans | plastic_promise/issue.py:79-104 | which reply each request gets: moved if and only if the issue exists, the move is one of the listed ones and, for a resolution or closure, every existing blocker is done; otherwise the first blocker that is not |
| IssueStore.NextIsAllowed | plastic_promise/issue.py:18-25 | the table of moves: one step forward, over the review, back to work from review or resolution, from work to open |
| IssueManagement.IssueManager.AddBlock | plastic_promise/issue.py:157-181 | the reply and the new store, add-then-revert included, with the search replaced by reachability of a cycle |
| IssueGraph.SearchFromChangedNodeSuffices | plastic_promise/issue.py:171-172 | when an acyclic graph changes at one node only, searching from that node decides whether the whole new graph is acyclic |
| IssueStore.LinkKeepsAcyclic | plastic_promise/issue.py:157-181 | on an acyclic store `add_block` accepts exactly the edges that keep it acyclic, the result is acyclic, and a refusal restores every `blocks` list |
| IssueStore.RefusalRestoresIff | plastic_promise/issue.py:166-179 | for every store: a refusal restores the store if and only if neither end listed the other before |
| IssueStore.RefusalCanForgetABlocker | plastic_promise/issue.py:172-175 | a run in which a refusal removes a blocker that `create` had recorded |
| IssueStore.RunIsAcyclic | plastic_promise/issue.py:34-71 | after every run of create (fresh ids), add_block and transition the `blocks` graph is acyclic |
| IssueStore.RunIsMirrored | plastic_promise/issue.py:157-181 | when edges come from `add_block` only, `blocked_by` mirrors `blocks` after every run |
| IssueStore.RefusalChangesNothing | plastic_promise/issue.py:157-181 | in such runs a refused `add_block` changes no list at all |
| IssueStore.RunHistory | plastic_promise/issue.py:18-25 | after every run each history is a path of allowed moves from open to the current state, closed only at its end |
| IssueStore.DoneEntriesWereUnblocked | plastic_promise/issue.py:94-108 | each resolved or closed entry was written at a step at which every existing blocker was resolved or closed |
| IssueProgress.CycleIsForever | plastic_promise/issue.py:94-103 | unfinished issues that block each other in a cycle stay so under every sequence of transitions |
| IssueProgress.ClosingSchedule | plastic_promise/issue.py:73-108 | without such a cycle a schedule of at most 3n calls closes every issue |
| IssueProgress.ClosableIffNoWaitingCycle | plastic_promise/issue.py:73-108 | for every store: all issues can be closed if and only if there is no such cycle, and then within 3n calls |
| IssueProgress.RunCanAlwaysBeClosed | plastic_promise/issue.py:157-200 | after every run with edges from `add_block` only, at most 3n transitions close every issue |
| IssueProgress.CreateCanDeadlock | plastic_promise/issue.py:41-65 | blockers given to `create` escape the cycle check: an accepted edge after which nothing can be closed |
| OciLayout.VerifyDescriptorBlob | scripts/create_release_bundle.py:390-423 | chunked reading, counting and hashing agree with checking the whole blob, error codes in order, and the collected bytes are the blob |
| OciLayout.LayoutReader.VisitNode | scripts/create_release_bundle.py:498-542 | the nested `visit` that fills `images` in place computes the walk function, error for error |
| OciLayout.ReadOciLayout | scripts/create_release_bundle.py:470-551 | the whole reader computes the walk function from the index on |
| OciLayoutProperties.VisitManifestMeans | scripts/create_release_bundle.py:524-542 | visiting a manifest adds exactly its entry and fails exactly when it is incomplete, on another platform, or its platform is taken |
| OciLayoutProperties.WalkCollects | scripts/create_release_bundle.py:498-546 | an accepted walk reached only sound nodes, and its map has exactly one entry per manifest position reached |
| OciLayoutProperties.WalkAccepts | scripts/create_release_bundle.py:498-546 | conversely, sound nodes within the recursion limit and distinct platforms suffice for acceptance |
| OciLayoutMeaning.AcceptedMeans | scripts/create_release_bundle.py:470-551 | a layout is accepted if and only if its index lists descriptors, every chain of descriptors below them ends in something sound within the recursion limit, some chain yields an image, and no platform is described at two positions |
| OciLayoutMeaning.ImagesMean | scripts/create_release_bundle.py:439-467 | for each platform exactly the image that the documents describe: the digest of a reached manifest, the texts of the label object of its configuration, and as platform its own, else that of the nearest index that declares one, else the configuration's |
| OciLayoutErrors.ErrorsMean | scripts/create_release_bundle.py:343-551 | each error code has its own reason in the documents: an empty descriptor list, a blob that differs from what is declared, a platform that is not allowed or described elsewhere too, a chain beyond the limit, or something missing or malformed |
| OciLayoutProperties.LayoutIsBacked | scripts/create_release_bundle.py:390-436 | every index, manifest, attestation, config and layer reached has a blob of the declared size and digest |
| OciLayoutProperties.RootDigestDeterminesLayout | scripts/create_release_bundle.py:491-551 | two accepted archives with the same root digest have the same platform-to-image map, given no hash collision between them |
| ScanCursor.RowsAreFirst | daemons/maintenance_daemon.py:1247-1279 | the batch query returns the first n keys past the cursor in (created_at, id) order |
| ScanCursor.PastMeans | daemons/maintenance_daemon.py:1250-1252 | past the cursor: created later, or at the same time with a greater identifier, as texts |
| ScanCursor.ScanBringsCloser | daemons/maintenance_daemon.py:1281-1302 | each scan attempts a waiting row or brings it at least one batch closer, though other rows leave the queue |
| ScanCursor.EveryRowIsAttempted | daemons/maintenance_daemon.py:1093-1138 | fairness of both cursors: a row that stays is attempted within ceil(n/B)+1 scans from any cursor while no row arrives |
| ScanCursor.BatchesIsCeiling | daemons/maintenance_daemon.py:1234-1234 | the number of batches in that bound is the quotient rounded up |
| Scanners.LlmClassifier.Scan | daemons/maintenance_daemon.py:1223-1304 | one scan over the persisted cursor, cut short after any number of actions: exact cursor and log; exactly the rows whose attempt settles them leave the queue |
| Scanners.UninterruptedScan | daemons/maintenance_daemon.py:1281-1304 | an uninterrupted scan attempts its whole batch and leaves the cursor at its last row |
| Scanners.NoRowTwiceInARound | daemons/maintenance_daemon.py:1192-1220 | in every run, with crashes, failing saves and unreadable cursors anywhere, a row attempted twice was attempted in two different rounds |
| Scanners.ClassifierIsFair | daemons/maintenance_daemon.py:1167-1304 | the fairness bound for the classifier itself, loader included, from any saved cursor, on queues without a trap |
| Scanners.TrapStarves | daemons/maintenance_daemon.py:1183-1189 | n rows that end with a key that does not load are selected in every scan, and the row after them is never attempted |
| Scanners.FairIffNoTrap | daemons/maintenance_daemon.py:1167-1304 | the classifier is fair on a queue if and only if it holds no trap |
| Scanners.CategoryScanner.Scan | daemons/maintenance_daemon.py:1091-1142 | with more than 20 "other" rows the next batch of five identifiers, from the start if none is left, and the cursor of this project moved or reset; nothing otherwise, and no other project touched |
| Scanners.PositionsAreOrdered | daemons/maintenance_daemon.py:1099-1105 | rows of this scan are in the order of their identifiers |
| Scanners.CategoryIsFair | daemons/maintenance_daemon.py:1091-1142 | the fairness bound for runs of this scanner, from any cursor |
| DuplicateClusters.ForgetLeavesOneAvailable | daemons/maintenance_daemon.py:845-869 | in any interleaving of scanners, failures, crashes and other writers, a forget removes one available row and leaves an available row of the same project and content |
| DuplicateClusters.MutateMeans | daemons/maintenance_daemon.py:845-859 | a call that writes saw the current state of an available source and of another available row of its project |
| DuplicateClusters.AloneCleans | daemons/maintenance_daemon.py:804-869 | a scanner alone in that interleaving forgets all rows of the group but the best |
| DuplicateClusters.DuplicateScanner.CleanGroup | daemons/maintenance_daemon.py:804-869 | the loop over one cluster forgets exactly the rows below the top one whose calls do not fail |
| DuplicateClusters.DuplicateScanner.Scan | daemons/maintenance_daemon.py:804-872 | one scan cleans the first cluster in which a call succeeds and no other: its best row stays, every other one whose call does not fail is forgotten |
| DuplicateClusters.TopIsBest | daemons/maintenance_daemon.py:824-836 | the row that is kept has the greatest share of successes (one half without trials), then the most accesses, then the latest creation time, then the last identifier |
| DuplicateClusters.MembersMean | daemons/maintenance_daemon.py:804-815 | the rows of a cluster: same project and content, eligible, ordinary and healthy |
| DuplicateClusters.CleaningKeepsTheTop | daemons/maintenance_daemon.py:824-845 | cleaning leaves exactly the best row of the group and every other group alone |
| DuplicateClusters.UndisturbedScanCleans | daemons/maintenance_daemon.py:770-872 | a scan without failures or interference cleans one duplicated group if there is one |
| DuplicateClusters.ScansConverge | daemons/maintenance_daemon.py:734-872 | after as many such scans as there were duplicated groups none is left, and each group kept its best row |
| FailureCodes.ResultFailureCodes | daemons/maintenance_daemon.py:1820-1854 | at most 1000 values popped; sorted, and only codes that some dictionary of the result names; exactly all of them when the stack drained, which a small result guarantees; fewer than 20 before the last dictionary |
| FailureCodes.CollectMeans | daemons/maintenance_daemon.py:1824-1853 | the codes of a result are those that a dictionary names at some depth, alone or in its list |
| FailureCodes.SanitisedMeans | daemons/maintenance_daemon.py:1830-1836 | a code is the permitted characters of a text inside its outer white space, in order, the first 200 at most |
| FailureCodes.PopKeepsCodes | daemons/maintenance_daemon.py:1824-1853 | popping a value and pushing its children loses no code and one value |
| FailureCodes.CollectedIsClean | daemons/maintenance_daemon.py:1828-1848 | every code collected, at any depth, is non-empty, at most 200 characters and of allowed characters only |
| SentenceTokens.KeysDiffer | plastic_promise/smart_extractor.py:118-118 | no key is a prefix of another followed by anything, ten or more keys included |
| SentenceTokens.ProtectSentenceTokens | plastic_promise/smart_extractor.py:113-122 | the loop over the matches yields the text with each token replaced by its key, and the keys with their tokens in order |
| SentenceTokens.RestoreSentenceTokens | plastic_promise/smart_extractor.py:125-128 | the loop is the sequence of leftmost replacements, key by key |
| SentenceTokens.RestoreStep | plastic_promise/smart_extractor.py:126-127 | replacing key k spells out token k and nothing else, next to any keys, tokens and underscores |
| SentenceTokens.RestoreProtected | plastic_promise/smart_extractor.py:113-128 | restoring after protecting is the identity on every text without the fragment, for all disjoint spans |
| SentenceSplit.SplitKeepsPieces | plastic_promise/smart_extractor.py:131-139 | splitting the protected text and restoring the parts gives the pieces of the original between its cuts |
| SentenceSplit.SplitMemorySentences | plastic_promise/smart_extractor.py:131-139 | the returned sentences spell, in order, exactly the cores of the stretches between cuts of the original text that have at least ten characters |
| SentenceSplit.SentencesAreLocated | plastic_promise/smart_extractor.py:131-139 | the same for the source expression; sentences are disjoint, have a delimiter outside every token between them and none inside, and split no token |
| SentenceSplit.FragmentBreaksRestoring | plastic_promise/smart_extractor.py:118-127 | a text that spells out key 0, then a space, then a token comes back with the token twice |
| ServerCutover.Server.SaveUnits | scripts/deploy_server_revision.py:121-137 | the unit manifest records every managed path as `test -f` and `cp` see it |
| ServerCutover.Server.InstallUnits | scripts/deploy_server_revision.py:182-187 | commands up to the first failure, the drop-in directory made between the fourth and the fifth file; the unit files of the checked-out revision if none fails; a directory in the way of a file stays |
| ServerCutover.Server.Rollback | scripts/deploy_server_revision.py:158-177 | every command is run, whatever fails; it is clean if and only if none fails; each one that does not fail has its effect: HEAD at the previous revision, each managed path as recorded |
| ServerCutover.Server.Deploy | scripts/deploy_server_revision.py:34-247 | refused, deployed or rolled back exactly when the checks, the commands and the polled health say so, with the commands it ran; a refusal touches nothing; a rollback restores what its own commands restore, and everything under the exact condition; success means target revision, its unit files, matching health and every previously active unit active |
| ServerCutover.RestoreIsExactIff | scripts/deploy_server_revision.py:121-187 | wherever the script had got to, restoring the manifest brings every path back if and only if the managed ones were files or absent and the drop-in directory was not prepared yet or there with its mode |
| ManifestPublication.MoveKeepsInv | plastic_promise/release_manifest.py:501-525 | each step of any writer keeps: a published storage is complete and its writer writes no more |
| ManifestPublication.TargetIsNeverPartial | plastic_promise/release_manifest.py:484-525 | for links and replacement alike, the target is as at the start or holds the complete bytes of one valid writer |
| ManifestPublication.PublishedForever | plastic_promise/release_manifest.py:516-519 | once present the target never changes, whatever writers do, fail or crash |
| ManifestPublication.AtMostOneReturns | plastic_promise/release_manifest.py:501-525 | at most one call returns normally, and then the target holds its bytes; none does if the target existed |
| ManifestPublication.OutcomesMean | plastic_promise/release_manifest.py:484-525 | what a finished call reports, for both methods: a failed write if and only if one of its steps failed, an invalid payload if and only if it is, an existing target only if it was there; otherwise it returned, its temporary name gone |
| ManifestPublication.EveryWriterCanFinish | plastic_promise/release_manifest.py:484-525 | from any state a writer that has not crashed ends its call in at most five steps of its own |
| ManifestPublication.PublishedReturnsIff | plastic_promise/release_manifest.py:501-525 | in every run a finished hard-link writer whose bytes are published has returned normally if and only if its unlink after the link did not fail |
| ManifestPublication.PublishedYetReportedFailed | plastic_promise/release_manifest.py:516-525 | a run from an empty directory in which a writer publishes and reports a failed write |
| ManifestPublication.ReplaceKeepsTargetIff | plastic_promise/release_manifest.py:482-494 | after any run with `os.replace`, a present target keeps its storage in every continuation if and only if no writer is between its check and its publication |
| ManifestPublication.ReplaceKeepsContentIff | plastic_promise/release_manifest.py:482-494 | and it keeps its content if and only if all such writers write that content |
| ManifestPublication.ReplaceCanOverwrite | plastic_promise/release_manifest.py:482-494 | a run from an empty directory: two writers both return normally and the second replaces the first one's bytes |
| PackageDigest.DirectoryDigest | plastic_promise/role_package.py:278-288 | the loop feeds the hash the records of all files but receipts, in order |
| PackageDigest.StreamDecodes | plastic_promise/role_package.py:284-287 | the byte stream of NUL-free trees determines paths and contents, record by record |
| PackageDigest.EqualDigestsEqualFiles | plastic_promise/role_package.py:278-288 | equal digests mean equal path-to-content maps, receipts apart, given no collision |
| PackageDigest.StreamIsUniqueIff | plastic_promise/role_package.py:278-288 | for every tree: no tree with other files that count feeds the hash the same bytes if and only if at most one file counts and its content does not spell out the record of a later file |
| PackageDigest.MergedCollides | plastic_promise/role_package.py:284-287 | two or more files collide with the tree that merges the first two |
| PackageDigest.NulContentIsAmbiguous | plastic_promise/role_package.py:284-287 | one file that spells out a record has the stream of two files |
| PackageDigest.ReceiptsDoNotCount | plastic_promise/role_package.py:282-283 | trees that agree apart from receipts have the same digest |
| PackageDigest.ReceiptMeans | plastic_promise/role_package.py:282-283 | receipts are the files whose name after the last slash is the receipt's |
| PackageDigest.WriteReceipts | plastic_promise/role_package.py:115-139 | the finished tree is the old one with its receipts, the inner one for Python roles only, and digesting it gives the recorded digest |
| RoleSelection.SelectPaths | plastic_promise/role_package.py:159-185 | success condition and the exact cause of each error, the first unusable root included; a sorted list of exactly the wanted files, however the roots overlap |
| RoleSelection.ChosenMeans | plastic_promise/role_package.py:176-180 | a file is chosen if and only if it is not compiled code, lies at or below a source root, and at or below no exclusion |
| RoleSelection.SharedSources | plastic_promise/endpoint_roles.py:398-482 | what server and compute selections share is the package foundation or lies at or below the type marker |
| RoleSelection.SharedOnlyTheTwoFilesIff | plastic_promise/endpoint_roles.py:461-482 | they share at most the two files if and only if no source file lies below the type marker |
| RoleSelection.LocalEdgeSharesNothing | plastic_promise/endpoint_roles.py:373-397 | the local edge shares no file with either package |
| FusedRanking.RemapFusedRanking | scripts/benchmark_recall_quality.py:2085-2114 | exactly the identifiers that rows of the three layers stand for, by best relevance and then as texts if all relevances can be compared, otherwise in the order of their first rows |
| FusedRanking.RankingIsUnique | scripts/benchmark_recall_quality.py:2101-2113 | there is only one such ranking, and it depends only on which identifiers are given which relevances |
| FusedRanking.RankingIgnoresArrangement | scripts/benchmark_recall_quality.py:2085-2114 | payloads whose layers together hold the same rows have the same ranking |
| FusedRanking.RankingIgnoresRuntimeIds | scripts/benchmark_recall_quality.py:2085-2114 | renaming the runtime identifiers changes nothing, comparable or not, as long as they stand for the same |
| FusedRanking.RerankChannel | scripts/benchmark_recall_quality.py:2026-2034 | comparable rows of a channel by score, then identifier as texts, numbered from one; others as they came |
| TextOrder.BeforeIsLexicographic | scripts/benchmark_recall_quality.py:2101-2106 | texts are compared at their first difference, by code point, a prefix first |
| FusedRanking.RerankingIgnoresArrangement | scripts/benchmark_recall_quality.py:1998-2035 | the re-ranked channel depends on its identifiers and scores only |

## Left out

- Notifications, `get`, `list`, `stats` and `get_chain` of the issue manager; titles, owners and timestamps; lists a caller keeps aliased after `create`.
- I/O errors while reading a tar member, compression, and the check that the layout path is a regular file.
- OCI walk beyond Python's recursion limit: it ends in the model's `RecursionLimit` error; that no real archive is cyclic rests on the hash and is not claimed.
- The LLM request, the notification of the server and the tag checks between attempts of the classifier: an attempt either takes its row out of the queue or does not.
- Scanners.CategoryScanner.Scan: a scan that ends with an exception before its rows, such as a failing query, is left out.
- Two classifiers that share one cursor file at the same time.
- Project scoping and the other guards of the scan queries: the queue is the set of rows that satisfy them.
- The order and the limit of 20 of the duplicate cluster query: any list of duplicated groups, empty only if there are none.
- DuplicateClusters.ForgetLeavesOneAvailable: availability is decided by the tags and metadata of a row, with `_source_is_available` and the SQL guard taken to agree.
- Non-string keys of result dictionaries, and characters of the Unicode classes themselves.
- The token pattern: which matches it finds is not modelled, only that they are ordered, disjoint, non-empty and not bounded by whitespace.
- SentenceSplit.FragmentBreaksRestoring: one family, not the exact condition: coincidences such as the text `__PP_TOKEN_0_` before the token `_` come back all the same.
- Signals during the cutover: the trap reacts to failing commands only, so a killed script leaves whatever it had done.
- ServerCutover.Server.Deploy: a unit may stop after the last poll, a command that reports success is taken to have done its work, and service reloads and time zones matter only as commands that may fail.
- Owners and modes of unit files; what a command does inside a directory that it finds at a managed path is any change below it.
- The database backup and its evidence file, which the cutover writes before it changes anything.
- Validation of manifest and receipt payloads, and their JSON text: a writer has its bytes and a verdict.
- Other processes that delete or rewrite the published target.
- Copying the selected files and writing package metadata in `materialize`.
- RoleSelection.SelectPaths: a root below a symlinked parent directory exists for the program, which follows the link, and is missing in the model, where entries are known by their own paths.
- Normalising source roots that are not in normal form, and repositories that change while they are read.
- Channel names, channel states and diagnostics of the recall benchmark; relevances that are not finite beyond keeping their order.
