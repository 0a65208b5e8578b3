# Verified models of the forensic workstation

Dafny models of the parts of the workstation where state changes step by step and a
mistake would go unnoticed, with proofs of what those parts promise. All theorems range over
every input, every run or every interleaving. `dafny verify dfyconfig.toml` checks the project.

Every loop or object that the Python code updates in place is a method or a class here,
proved equal to a function on values; the theorems are then about that function. Digests, MACs,
the JSON codec, case folding, the clock, the network and foreign services enter as parameters.

**The review commit** (`Review*.dfy`). An examiner's delta is applied as approvals, edits and
rejections, then a timeline coupling pass, then an IOC cascade. `ReviewEngine` holds the
functions and the in-place loops. `ReviewDecisions` says what each decision does to its item.
`ReviewCoupling` shows that one pass closes the coupling, and exactly when it does not.
`ReviewVerification` follows whole histories of commits through the verification of items
against the approval log. `ReviewReplay`, `ReviewIocs` and `ReviewConvergence` show what becomes
of a delta that is committed again to a partly rewritten case, and `ReviewCrash` puts that under
the disk protocol, where a crash or an exception may fall between any two renames, writes and
removals. `ReviewRuns` exhibits the runs that reach a second commit and makes the conditions exact
over all runs, `ReviewCases` works three of them through, and `ReviewTampering` says what items
read after a crash. `ReviewLedger` is the ledger of the database path.

The content hash is any function of the hashed keys: not of the status, stamps, notes,
recorded modifications or provenance. Items are compared up to stamps and notes: a replayed
approval stamps again and appends its note again, while status, content, hash, rejection reason
and what was modified from what to what must agree. Item ids are unique, and exactly the ids of
the IOC file carry the prefix `IOC-`. The replay theorems hold for every delta that names no id
twice and modifies editable fields only.

Under such a delta findings, timeline events and IOCs that are not decided converge without
exception. A decided IOC need not, in three ways, all of them kept as the code has them:

- An approval hashes the IOC before it sets the hashed flag `manually_reviewed`. When its
  modifications change nothing it is made again by the replay and stores another hash, unless
  the flag was already set (`CrashRehashesApproval`).
- An edit hashes the IOC before the cascade corrects the confidence. When its modifications
  change nothing and leave the confidence alone, the replay hashes the corrected one
  (`CrashRehashesEdit`).
- A decision skipped because the confidence is not the one it expects may find that confidence
  when it is replayed, since the cascade of the first commit wrote it. The replay then makes a
  decision the first commit refused (`CrashCanApprove`).

`Repeats` puts the three together as one condition on the loaded IOC, the decision, and the
sources as the direct actions and the coupling leave them. `RepeatsExactly`, `ConvergesExactly`
and, over all runs of the disk protocol, `RunsConvergeExactly` prove that it is exact, given that
different contents have different digests. Outside the third way nothing but the stored hash
differs, and in every case three commits bring the IOC to rest.

Findings and timeline events end alike after every crash, but what they read may not: the case
files are saved before the log, and a replayed decision that changed its item conflicts and logs
nothing. `TamperedExactly` says which items then read "tampered".

Coupling is a single pass over findings, timeline and IOCs in file order. It closes for every
item whose source is not an IOC and either follows nothing itself or comes earlier in that
order; `CommitLeavesBehind` says exactly which items are left behind otherwise, by a condition on
the items before the pass, and `BackwardChainIsMissed` shows one.

**The knowledge index** (`RecordIds`, `Chunker`, `IndexDocuments`, `IndexRefresh`,
`IndexTheorems`, `IndexRebuild`). Record ids are injective, chunking conserves text, and the
incremental refresh is compared with a rebuild from the current files. The comparison found one defect, kept as it
is in the model: a file that yields no records keeps its old state entry, so when its earlier
content comes back it is taken for unchanged and its records are missing from then on
(`RestoredFileIsLost`). `RefreshIsRebuild`, `QuietAfterRefresh` and `CountersAddUp` each give the
exact condition, which can be read off the index, the state and the files before the refresh;
`FullRunIsRebuild` covers all runs in which every file yields records.

**The portal session** (`Base64Url`, `SessionEnvelope`, `SessionCeiling`). Unpadded base64url
(section 5 of RFC 4648) is modelled down to the sextets, with the decoder's handling of stray
characters and padding; the envelope is the three-part form of section 7.1 of RFC 7515. The
ceiling of 43200 seconds is proved over every interleaving of logins, rotations, refreshes and
clock ticks, with any earlier envelope presented again at any time.

**Registry hives** (`RegistryHive`, `RegistryImport`). The pruned search against an exhaustive
one, the accumulator flattening against a preorder walk, the agreement of the two, and the
batched import into the baseline table. A well-formed hive has a root path without a backslash,
children whose path is their parent's, a backslash and their name, names that are not empty and
have no backslash, and siblings that differ ignoring case.

**Smaller machines.** `CommitLockout` (sliding window after failed re-authentications),
`ReportGuard` (one report per case), `FetchLoop` (redirects and retries) and `EvidencePrep`
(validate before change). In the last, an entry that passes every check but whose
immutable flag cannot be read is refused and its descriptor stays open, since it is not yet in
the list that the final clause closes; the contracts say so.

## Model

| member | source | states |
|---|---|---|
| `ReviewModel.UnhashedUpdate` | packages/sift-core/src/sift_core/investigation_store.py:164-217 | Writing any bookkeeping key leaves the content hash alone, which is what lets approval hash before its stamps and coupling after them. |
| `ReviewModel.FieldTables` | packages/sift-core/src/sift_core/investigation_store.py:164-192 | Which keys are editable (the twelve fields of the delta) and which the content hash leaves out, key by key. |
| `ReviewModel.ContentMeans` | packages/sift-core/src/sift_core/investigation_store.py:199-217 | Two items have the same hashed content if and only if they agree on every hashed key. |
| `ReviewEngine.Committer.constructor` | packages/case-dashboard/src/case_dashboard/routes.py:1967-1988 | A commit starts from the loaded items with an empty log and nothing skipped. |
| `ReviewEngine.Committer.FindConflict` | packages/case-dashboard/src/case_dashboard/routes.py:2010-2020 | Finds a conflict exactly when some original no longer matches the item, and names the first such field. |
| `ReviewEngine.Committer.Modify` | packages/case-dashboard/src/case_dashboard/routes.py:2022-2033 | The loop over the modifications comes to the functional `ApplyMods`, whose meaning `ModificationsLand` and `ModificationsRecorded` give. |
| `ReviewEngine.Committer.Act` | packages/case-dashboard/src/case_dashboard/routes.py:2000-2127 | One decision, changed in place: item, log and skip list afterwards are those of `DirectStep`, whose meaning `DecisionMeans` gives. |
| `ReviewEngine.Committer.Pass` | packages/case-dashboard/src/case_dashboard/routes.py:2000-2127 | One pass of the loop over the delta performs exactly the entries of its action, in the order of the delta. |
| `ReviewEngine.Committer.Follow` | packages/case-dashboard/src/case_dashboard/routes.py:2131-2176 | One item of the coupling pass, its fields assigned in the source's order: item and log afterwards are those of `CoupleStep`, whose effect `LeftBehindExactly` and `TimelineClosure` state. |
| `ReviewEngine.Committer.CoupleTimeline` | packages/case-dashboard/src/case_dashboard/routes.py:2129-2176 | The coupling loop over the aliased items equals `Couple`, whose closure `TimelineClosure` states. |
| `ReviewEngine.Committer.PickBest` | packages/case-dashboard/src/case_dashboard/routes.py:2227-2233 | The loop behind `min` returns the first of the best-ranked sources, which `BestWordHolds` puts in the words HIGH, MEDIUM and LOW, and raises exactly when some confidence is no string. |
| `ReviewEngine.Committer.Settle` | packages/case-dashboard/src/case_dashboard/routes.py:2180-2236 | One IOC of the cascade, its fields assigned in the source's order, equals `CascadeStep`, exceptions included. |
| `ReviewEngine.Committer.CascadeIocs` | packages/case-dashboard/src/case_dashboard/routes.py:2178-2236 | The cascade loop equals `Cascade`, and raises exactly when `Cascade` has no result: on a confidence that is no string, or a best source without one. |
| `ReviewEngine.Committer.Apply` | packages/case-dashboard/src/case_dashboard/routes.py:1990-2236 | Approvals, then edits, then rejections, then coupling, then cascade: the whole in-place commit equals the function `Commit` that all theorems below are about, raising included. |
| `ReviewDecisions.ModificationsLand` | packages/case-dashboard/src/case_dashboard/routes.py:2022-2033 | For every list of modifications: exactly the named editable fields take one of the values named for them, and every other field but the record of modifications stays, fields that are not editable among them. |
| `ReviewDecisions.ModificationsRecorded` | packages/case-dashboard/src/case_dashboard/routes.py:2025-2033 | Each modification that lands is recorded with the value it replaced, its new value, its author and its time; the record of every other field stays. |
| `ReviewDecisions.DecisionMeans` | packages/case-dashboard/src/case_dashboard/routes.py:2000-2127 | A decision that applies sets status, stamps, reason, note and review flag as its action says and lands its modifications (a rejection none); one that does not apply leaves the item as it was. |
| `ReviewDecisions.DecisionsAccountedFor` | packages/case-dashboard/src/case_dashboard/routes.py:2000-2127 | The log and the skip list are, in order, the images of the decisions: each decision gives one line of one of them or of neither, and no line comes from anywhere else. |
| `ReviewDecisions.OrderMeans` | packages/case-dashboard/src/case_dashboard/routes.py:1990-1998 | A commit works through its approvals first, then the edits, then the rejections, each decision as often as the delta has it and in the order of the delta among its own kind. |
| `ReviewDecisions.RecordMeans` | packages/case-dashboard/src/case_dashboard/routes.py:2052-2064 | The log record of a decision: id, word, digest of the modified content, reason, and the stale mark exactly when the hash the examiner saw is no longer the stored one. |
| `ReviewDecisions.FollowMeans` | packages/case-dashboard/src/case_dashboard/routes.py:2138-2176 | One visit of the coupling pass to an item auto-created from a known source: status, who, when and why, the hash, the log line with the source's id, and nothing else. |
| `ReviewDecisions.FollowsNothing` | packages/case-dashboard/src/case_dashboard/routes.py:2132-2141 | Any other item is passed over by the coupling pass. |
| `ReviewDecisions.SettleMeans` | packages/case-dashboard/src/case_dashboard/routes.py:2180-2236 | One visit of the cascade: what it writes on the IOC besides the confidence, its log line, and nothing else. |
| `ReviewDecisions.RaisesMeans` | packages/case-dashboard/src/case_dashboard/routes.py:2227-2235 | The cascade raises on an unreviewed IOC exactly when a source that is not rejected has a true confidence that is no text, or the one it picks has none while the IOC has. |
| `ReviewDecisions.SavesMeans` | packages/case-dashboard/src/case_dashboard/routes.py:2248-2251 | The IOC file is saved exactly when there is one and some IOC has been logged or the cascade has written one. |
| `ReviewDecisions.FateMeans` | packages/case-dashboard/src/case_dashboard/routes.py:2000-2127 | Of each single decision: it is ignored exactly when it edits a known item and modifies nothing, skipped exactly when its item is unknown or a field changed since the review, naming the first such field, and otherwise logged as `RecordMeans` says. |
| `ReviewDecisions.BackwardChainIsMissed` | packages/case-dashboard/src/case_dashboard/routes.py:2131-2157 | The closure needs its condition: a commit that approves a root approves its follower, and leaves the follower's follower behind when the case files list it first. |
| `ReviewCoupling.CoupleFrame` | packages/case-dashboard/src/case_dashboard/routes.py:2131-2141 | The coupling pass leaves every item alone that is not auto-created, has been modified by an examiner, or is not listed. |
| `ReviewCoupling.CoupleAt` | packages/case-dashboard/src/case_dashboard/routes.py:2131-2176 | An item whose source can no longer move when the pass reaches it ends as coupling makes it from the source as it stands after the whole pass. |
| `ReviewCoupling.CascadeFrame` | packages/case-dashboard/src/case_dashboard/routes.py:2180-2236 | The cascade changes no item outside the IOC file. |
| `ReviewCoupling.CascadeAt` | packages/case-dashboard/src/case_dashboard/routes.py:2180-2236 | Each IOC ends as the cascade makes it from its sources as they stand at the end, although the loop changes the items it reads from. |
| `ReviewCoupling.BestIsFirstMinimum` | packages/case-dashboard/src/case_dashboard/routes.py:2227-2233 | The chosen source is the first of the best-ranked ones: no rank is lower, and every earlier one is higher. |
| `ReviewCoupling.BestWordHolds` | packages/case-dashboard/src/case_dashboard/routes.py:2225-2233 | By the words: the confidence picked is that of the first source not rejected that is HIGH, failing any of the first MEDIUM, then LOW one, and otherwise of the first. |
| `ReviewCoupling.KnownInOrder` | packages/case-dashboard/src/case_dashboard/routes.py:2184-2186 | The known sources stand in the order in which the IOC names them. |
| `ReviewCoupling.ActiveMembers` | packages/case-dashboard/src/case_dashboard/routes.py:2225 | The sources that count for confidence are exactly those that are not rejected. |
| `ReviewCoupling.EndStatusIs` | packages/case-dashboard/src/case_dashboard/routes.py:2131-2176 | The status the pass gives each item can be read off the items before it, by a recursion on earlier positions that runs no pass. |
| `ReviewCoupling.LeftBehindExactly` | packages/case-dashboard/src/case_dashboard/routes.py:2131-2176 | For every list of items: one pass leaves an auto-created item behind its source if and only if the source is listed later and, by that reading, ends approved or rejected and otherwise than the item. |
| `ReviewCoupling.TimelineClosure` | packages/case-dashboard/src/case_dashboard/routes.py:2129-2176 | After every commit, each auto-created item without examiner modifications is approved when its source is and rejected when its source is, for every source that follows nothing or is listed earlier. |
| `ReviewCoupling.CommitLeavesBehind` | packages/case-dashboard/src/case_dashboard/routes.py:1999-2176 | The exact boundary of that closure for every commit: which items it leaves behind, read off the items as the direct actions leave them. |
| `ReviewCoupling.CascadeClosure` | packages/case-dashboard/src/case_dashboard/routes.py:2178-2236 | After every commit, each IOC that is not manually reviewed is approved when all its known sources are, rejected when all are, keeps its status otherwise, and carries the confidence of the first HIGH source not rejected, failing that MEDIUM, then LOW, else of the first; a reviewed IOC is untouched. |
| `ReviewCoupling.CascadeClosureByIds` | packages/case-dashboard/src/case_dashboard/routes.py:2178-2236 | The same in terms of the ids an IOC names and what those items say. |
| `ReviewVerification.VerdictMeans` | packages/case-dashboard/src/case_dashboard/routes.py:291-312 | Each of the five readings, exactly: a draft by its status alone or its absence; no approval record without a record that names the status; confirmed, tampered and unverified by the hashes stored and logged. |
| `ReviewVerification.VerifyItems` | packages/case-dashboard/src/case_dashboard/routes.py:272-314 | The two loops give each item the reading that its own last log record and its recomputed hash call for, which `VerdictMeans` spells out. |
| `ReviewVerification.DirectAttests` | packages/case-dashboard/src/case_dashboard/routes.py:2000-2127 | After a direct action the log record just written speaks about the item as it now is: status and content hash agree. |
| `ReviewVerification.CoupleAttests` | packages/case-dashboard/src/case_dashboard/routes.py:2142-2176 | So does the record of a coupled approval or rejection, whose hash is taken after the stamps. |
| `ReviewVerification.HistoryAttests` | packages/case-dashboard/src/case_dashboard/routes.py:1999-2257 | Over every history of commits from an empty log, every finding and timeline event agrees with its last log record. |
| `ReviewVerification.HistoryVerifies` | packages/case-dashboard/src/case_dashboard/routes.py:272-314 | After every history of commits each finding and timeline event reads exactly what its status and its latest applied action call for, drafts included: never "tampered", "draft" if and only if its status is DRAFT or missing, "confirmed" after an approval, and "confirmed" only with a matching record and hashes that agree with the content. |
| `ReviewVerification.ChangeIsDetected` | packages/case-dashboard/src/case_dashboard/routes.py:295-303 | After every history, whatever replaces an approved item with another content hash, whichever hash it claims to store, reads "tampered". |
| `ReviewVerification.EveryChangeIsLogged` | packages/case-dashboard/src/case_dashboard/routes.py:1999-2257 | A commit that changes a finding or timeline event in any way logs that id. |
| `ReviewReplay.ActedTwice` | packages/case-dashboard/src/case_dashboard/routes.py:1999-2176 | Deciding and coupling an item, then doing both again under another stamp, ends up to stamps and notes where the first time ended. |
| `ReviewReplay.ApplyModsRespects` | packages/case-dashboard/src/case_dashboard/routes.py:2022-2033 | Modifications treat items alike that differ in stamps and notes only. |
| `ReviewReplay.DirectRespects` | packages/case-dashboard/src/case_dashboard/routes.py:2000-2127 | So does every decision, approvals of IOCs among them. |
| `ReviewReplay.EraseContent` | packages/sift-core/src/sift_core/investigation_store.py:199-217 | Items that agree up to stamps and notes have the same content and the same content hash. |
| `ReviewReplay.AgreementMeans` | packages/case-dashboard/src/case_dashboard/routes.py:2041-2046 | What agreement up to stamps and notes says: every other key alike, and the same fields modified from and to the same values. |
| `ReviewConvergence.OutcomeConverges` | packages/case-dashboard/src/case_dashboard/routes.py:1999-2176 | Starting over from a finding or event as it was, or as the first attempt left it, ends alike. |
| `ReviewIocs.NextRespects` | packages/case-dashboard/src/case_dashboard/routes.py:2178-2236 | What a commit makes of an IOC, and whether it raises on it, depends on the IOC and its sources only up to stamps and notes. |
| `ReviewIocs.ApprovalRepeats` | packages/case-dashboard/src/case_dashboard/routes.py:2040-2048 | An approval of an IOC that applies, made by two commits: everything but the stored hash agrees, and the hash agrees if (and, for an injective digest, only if) some modification changes something (and so conflicts the second time) or the review flag was already set. |
| `ReviewIocs.EditThroughCascade` | packages/case-dashboard/src/case_dashboard/routes.py:2066-2106 | Cascading before an edit that names the confidence makes no difference to the cascaded result. |
| `ReviewIocs.EditRepeats` | packages/case-dashboard/src/case_dashboard/routes.py:2066-2106 | An edit of an IOC that applies, made by two commits: everything but the stored hash agrees, and the hash agrees if (and, for an injective digest, only if) some modification changes something, the confidence is among the fields, or the cascade leaves the confidence alone. |
| `ReviewIocs.BlockedOnce` | packages/case-dashboard/src/case_dashboard/routes.py:2224-2236 | A decision skipped by the first commit still conflicts at the second, unless the cascade gave the IOC the confidence the decision expects. |
| `ReviewIocs.UnblockedApproval` | packages/case-dashboard/src/case_dashboard/routes.py:2010-2048 | An approval unblocked that way is made by the second commit only, and shows in status and flag. |
| `ReviewIocs.UnblockedEdit` | packages/case-dashboard/src/case_dashboard/routes.py:2066-2106 | An edit unblocked that way leaves no trace if and only if it was made before: but for its confidence the IOC carries every modification and its record, and it stores the hash of its content with the new confidence. |
| `ReviewIocs.RepeatsExactly` | packages/case-dashboard/src/case_dashboard/routes.py:1999-2236 | For every decision on every IOC: two commits leave it as one does if (and, for an injective digest, only if) `Repeats` holds of the IOC, the decision and the sources; and up to the stored hash whenever the cascade unblocks nothing. |
| `ReviewIocs.ThirdRests` | packages/case-dashboard/src/case_dashboard/routes.py:1999-2236 | Every IOC, under every decision, comes to rest with the third commit. |
| `ReviewIocs.NextIsSafe` | packages/case-dashboard/src/case_dashboard/routes.py:2224-2236 | A commit that does not raise on an IOC leaves it so that the next one does not either. |
| `ReviewConvergence.ReplayAdvances` | packages/case-dashboard/src/case_dashboard/routes.py:1999-2236 | Committing a delta again, under any stamp and from any mixture in which each item stands where some number of commits leaves it, succeeds and takes every item one commit further. |
| `ReviewConvergence.CommitsAreStages` | packages/case-dashboard/src/case_dashboard/routes.py:1999-2236 | What n whole commits make of the case is, item by item, what the item-wise stages say. |
| `ReviewConvergence.ReplayConverges` | packages/case-dashboard/src/case_dashboard/routes.py:1999-2236 | For every delta that names no id twice and modifies editable fields only, committed any number of times: findings, timeline events and every IOC whose decision repeats end as after the first commit; every IOC not unblocked by the cascade does up to its stored hash; after three commits nothing moves. |
| `ReviewConvergence.ConvergesExactly` | packages/case-dashboard/src/case_dashboard/routes.py:1999-2236 | For an injective digest, the second of two whole commits leaves a decided IOC as the first did if and only if its decision repeats. |
| `ReviewConvergence.RevivedApprovalShows` | packages/case-dashboard/src/case_dashboard/routes.py:2010-2048 | An approval that the first commit skips and its cascade unblocks is made by the second commit. |
| `ReviewConvergence.SkippedSaveLosesNothing` | packages/case-dashboard/src/case_dashboard/routes.py:2248-2251 | Whenever the IOC file is not saved, no IOC has changed. |
| `ReviewCrash.SaveStepKeeps` | packages/case-dashboard/src/case_dashboard/routes.py:2245-2251 | Each of the three saves keeps the invariant of the protocol: what is on disk is old or committed, file by file. |
| `ReviewCrash.ComputeStepKeeps` | packages/case-dashboard/src/case_dashboard/routes.py:1940-2236 | Computing from whatever mixture an interrupted attempt left promises a complete commit of every item. |
| `ReviewCrash.OtherStepKeeps` | packages/case-dashboard/src/case_dashboard/routes.py:1925-1939 | Recovery, the lock rename, log writes, removal, crashes and exceptions keep the invariant. |
| `ReviewCrash.RecoveryKeepsTheNewest` | packages/case-dashboard/src/case_dashboard/routes.py:1925-1930 | Recovery leaves nothing in processing: what was there becomes pending, unless a newer delta is. |
| `ReviewCrash.ExceptionRestores` | packages/case-dashboard/src/case_dashboard/routes.py:2297-2304 | From every working phase an exception puts the delta back to pending and changes nothing else. |
| `ReviewCrash.RefusalRestores` | packages/case-dashboard/src/case_dashboard/routes.py:2297-2304 | So does computing a delta that is refused or raises. |
| `ReviewCrash.RefusedExactly` | packages/case-dashboard/src/case_dashboard/routes.py:1943-1965 | A delta is refused exactly when it is empty, staged for another case, or raises. |
| `ReviewCrash.AppendMeans` | packages/case-dashboard/src/case_dashboard/routes.py:2253-2257 | A log line that is lost is passed over; one that is written comes last. |
| `ReviewCrash.RunKeeps` | packages/case-dashboard/src/case_dashboard/routes.py:1925-2304 | The invariant holds after every sequence of steps, crashes and exceptions, over any number of attempts. |
| `ReviewCrash.CrashReplayConverges` | packages/case-dashboard/src/case_dashboard/routes.py:1925-2304 | However attempts are cut off, for every delta that names no id twice and modifies editable fields only: each item on disk is the old one or done, where done means as one uninterrupted commit leaves it (exactly for findings, events and IOCs that converge, up to the stored hash for IOCs not unblocked, as at most three commits leave it in any case); and the delta is pending, processing, or in neither place with everything done. |
| `ReviewCrash.LogWritten` | packages/case-dashboard/src/case_dashboard/routes.py:2253-2257 | Log lines reach the log in the order the commit produced them. |
| `ReviewCrash.NextAttemptFinishes` | packages/case-dashboard/src/case_dashboard/routes.py:1925-2304 | After any crash, one attempt that is left alone finishes the commit: the delta is nowhere and every item is done. |
| `ReviewRuns.SavedIsOutcome` | packages/case-dashboard/src/case_dashboard/routes.py:2245-2251 | The three saves put exactly the outcome of the commit on disk, whether or not the IOC file is among them. |
| `ReviewRuns.OnceThrough` | packages/case-dashboard/src/case_dashboard/routes.py:1925-2304 | The uninterrupted run ends with the delta nowhere and the case as one commit leaves it. |
| `ReviewRuns.CutThenWhole` | packages/case-dashboard/src/case_dashboard/routes.py:1925-2304 | A run cut off between its last save and the log, and then repeated, ends with the delta nowhere, the case as two commits leave it, and the log lines of the second only. |
| `ReviewRuns.RunsConvergeExactly` | packages/case-dashboard/src/case_dashboard/routes.py:1925-2304 | Over all runs, for an injective digest: every run that leaves the delta nowhere ends a decided IOC as one commit does if and only if its decision repeats. |
| `ReviewCases.CrashRehashesApproval` | packages/case-dashboard/src/case_dashboard/routes.py:2040-2048 | Two runs of a plain approval: cut off between its last save and the log, it ends with another stored hash than uninterrupted, and differs in nothing else. |
| `ReviewCases.CrashRehashesEdit` | packages/case-dashboard/src/case_dashboard/routes.py:2101-2103 | Two runs of an edit that changes nothing: the same. |
| `ReviewCases.CrashCanApprove` | packages/case-dashboard/src/case_dashboard/routes.py:2224-2236 | Two runs of an approval that is skipped: cut off between its last save and the log, it ends with the IOC approved, uninterrupted it does not. |
| `ReviewTampering.CommitTruthful` | packages/case-dashboard/src/case_dashboard/routes.py:1999-2176 | Every hash a commit logs for a finding or event is that of the content it leaves. |
| `ReviewTampering.RunTells` | packages/case-dashboard/src/case_dashboard/routes.py:2253-2257 | Over every run the old log stays, and every hash written for a finding or event is that of the completed commit. |
| `ReviewTampering.TamperedExactly` | packages/case-dashboard/src/case_dashboard/routes.py:272-314 | Whatever crashes, exceptions and lost log lines a finished run met, a finding or event reads "tampered" if and only if the run wrote no record about it, its old record names the status it ends with, and its content has changed. |
| `ReviewTampering.CrashReadsTampered` | packages/case-dashboard/src/case_dashboard/routes.py:2245-2257 | A crash between the last save and the log leaves such an item reading "tampered" once the run has finished: its decision conflicts when replayed, so the finished run writes no record about it. |
| `ReviewCrash.RefusedDeltaChangesNothing` | packages/case-dashboard/src/case_dashboard/routes.py:1940-1966 | A delta that is refused (empty, or for another case) or raises is refused by every attempt, no run changes the case, the log or the delta, and unless a crash was the last event to change anything the delta is pending again once the run is at rest. |
| `ReviewLedger.Ledger.Attest` | packages/case-dashboard/src/case_dashboard/routes.py:1860-1896 | The loop appends to the ledger exactly the attested events, in order, keeps all older ones, and returns exactly the failures. |
| `ReviewLedger.ApprovalsAreAccountedFor` | packages/case-dashboard/src/case_dashboard/routes.py:1860-1896 | Every approval with an id is skipped by the authority, attested, or reported as a failure, and counted exactly once. |
| `ReviewLedger.OnlyApprovedIsAttested` | packages/case-dashboard/src/case_dashboard/routes.py:1833-1896 | Every event is an approval of the batch that the authority did not skip, bound to the non-empty content hash of the authority's own row; no skipped id is attested or reported. |
| `ReviewLedger.EveryApprovalIsTreated` | packages/case-dashboard/src/case_dashboard/routes.py:1860-1896 | Every approval not skipped is attested when the authority's table of its kind has a hash and the ledger takes the event, and reported as a failure otherwise. |
| `CommitLockout.Lockouts.Check` | packages/case-dashboard/src/case_dashboard/routes.py:451-465 | Refuses exactly when at least three failures are under 900 seconds old, and reports the time until the oldest of them leaves the window. |
| `CommitLockout.Lockouts.Record` | packages/case-dashboard/src/case_dashboard/routes.py:468-490 | Adds the failure to the examiner's own list and leaves every other examiner's alone. |
| `CommitLockout.Lockouts.Clear` | packages/case-dashboard/src/case_dashboard/routes.py:493-515 | Empties the examiner's list and leaves every other examiner's alone. |
| `CommitLockout.ReportedWaitIsHonest` | packages/case-dashboard/src/case_dashboard/routes.py:460-464 | With no new failure the lockout lasts at least as long as reported, and with exactly three failures in the window it ends precisely then. |
| `CommitLockout.LockedOutMeans` | packages/case-dashboard/src/case_dashboard/routes.py:192-193 | Locked out means three failures, each under 900 seconds ago. |
| `ReportGuard.StepExclusive` | packages/case-dashboard/src/case_dashboard/routes.py:5142-5145 | Arriving, claiming and leaving each keep the guard exclusive and its set exact. |
| `ReportGuard.GenerationIsExclusive` | packages/case-dashboard/src/case_dashboard/routes.py:5142-5145 | Under every interleaving at most one handler per case generates, and the in-flight set is exactly the cases being generated. |
| `ReportGuard.SlotIsKept` | packages/case-dashboard/src/case_dashboard/routes.py:5243-5245 | A handler keeps its slot through every move of every other handler, those turned away among them. |
| `ReportGuard.ClaimMeans` | packages/case-dashboard/src/case_dashboard/routes.py:5142-5145 | A claim succeeds exactly when no handler is generating for the case, and otherwise turns the handler away; it moves no other handler. |
| `ReportGuard.LeavingFrees` | packages/case-dashboard/src/case_dashboard/routes.py:5243-5245 | A handler that leaves frees its own case and no other. |
| `RecordIds.Sanitize` | packages/forensic-rag-mcp/src/rag_mcp/ingest.py:62-68 | The result has the same length, only safe characters, and is the stem itself when that is safe. |
| `RecordIds.RecordIdInjective` | packages/forensic-rag-mcp/src/rag_mcp/ingest.py:267-268 | With one prefix, ids are equal exactly when sanitized stems and numbers are, for all stems, underscores and digits included. |
| `RecordIds.StemsCollide` | packages/forensic-rag-mcp/src/rag_mcp/ingest.py:308-320 | Two files share a record id exactly when their stems sanitize alike and the numbers are equal. |
| `RecordIds.DecimalInjective` | packages/forensic-rag-mcp/src/rag_mcp/ingest.py:424 | Different record numbers have different decimal texts. |
| `RecordIds.SanitizeMeans` | packages/forensic-rag-mcp/src/rag_mcp/ingest.py:62-68 | Letters, digits, underscores and dashes stay; any other character becomes an underscore. |
| `RecordIds.DecimalReads` | packages/forensic-rag-mcp/src/rag_mcp/ingest.py:424 | The number of an id is written in decimal digits without a leading zero. |
| `Chunker.HeadingsInverse` | packages/forensic-rag-mcp/src/rag_mcp/ingest.py:252-254 | The pieces of a markdown text, with their newlines put back, are the text, and each but the first begins with a heading. |
| `Chunker.HeadingsAreCut` | packages/forensic-rag-mcp/src/rag_mcp/ingest.py:252-254 | Markdown is cut at exactly the newlines that stand before one to three number signs and a blank. |
| `Chunker.ParagraphsAreCut` | packages/forensic-rag-mcp/src/rag_mcp/ingest.py:255-257 | Any other text is cut at whole runs of two newlines or more and nowhere else. |
| `Chunker.TextIsCut` | packages/forensic-rag-mcp/src/rag_mcp/ingest.py:251-257 | Which of the two cuts a document gets. |
| `Chunker.ParagraphsAreWhole` | packages/forensic-rag-mcp/src/rag_mcp/ingest.py:255-257 | No piece of any other text has a blank line in it. |
| `Chunker.SplitConserves` | packages/forensic-rag-mcp/src/rag_mcp/ingest.py:251-257 | Both splits take newlines out and nothing else. |
| `Chunker.StripSolid` | packages/forensic-rag-mcp/src/rag_mcp/ingest.py:259-260 | A stripped section is empty or begins and ends with something other than white space, and stripping it again changes nothing. |
| `Chunker.ChunkText` | packages/forensic-rag-mcp/src/rag_mcp/ingest.py:248-305 | The chunks hold the non-empty sections in order, none lost and none repeated; each takes sections up to 1000 characters unless the next would bring it beyond 1500, and no fewer; a remainder under 500 joins the last chunk; numbers and ids run from zero; apart from white space the text is conserved. |
| `Chunker.LongChunkStartsWithLongSection` | packages/forensic-rag-mcp/src/rag_mcp/ingest.py:51-53 | A chunk longer than 1998 characters starts with one single section longer than 1500. |
| `Chunker.ChunkingConservesText` | packages/forensic-rag-mcp/src/rag_mcp/ingest.py:248-305 | Apart from white space, the chunks read one after the other exactly as the text of the document does, markdown or not. |
| `IndexDocuments.NumberRecords` | packages/forensic-rag-mcp/src/rag_mcp/ingest.py:346-371 | The loop over a JSON list or over JSON lines keeps each record's position as its number and drops what does not normalize. |
| `IndexDocuments.EnumeratedGrows` | packages/forensic-rag-mcp/src/rag_mcp/ingest.py:373-394 | The records are exactly the candidates that normalize, in order, under strictly growing numbers. |
| `IndexDocuments.ChunksKeepTheirIds` | packages/forensic-rag-mcp/src/rag_mcp/ingest.py:308-320 | The index files every chunk of a text under the id the chunker gave it. |
| `IndexDocuments.DocumentsAreNumbered` | packages/forensic-rag-mcp/src/rag_mcp/ingest.py:476-515 | Whatever documents the folder holds, chunked texts or JSON, the records of each carry different numbers, which the refresh theorems rest on. |
| `IndexDocuments.DocumentsRunIsRebuild` | packages/forensic-rag-mcp/src/rag_mcp/refresh.py:169-243 | `FullRunIsRebuild` for every folder of such documents. |
| `IndexRefresh.Knowledge.CheckForChanges` | packages/forensic-rag-mcp/src/rag_mcp/ingest.py:536-564 | The change set names every new, modified and deleted file once, and nothing else. |
| `IndexRefresh.Knowledge.DropFiles` | packages/forensic-rag-mcp/src/rag_mcp/refresh.py:194-203 | Deleted files lose their records and their state entry, and the counter grows by what the state listed. |
| `IndexRefresh.Knowledge.PutOne` | packages/forensic-rag-mcp/src/rag_mcp/refresh.py:206-241 | A new or modified file loses its old records, gains its new ones and its state entry; without records the entry is left as it was. |
| `IndexRefresh.Knowledge.PutFiles` | packages/forensic-rag-mcp/src/rag_mcp/refresh.py:206-241 | The loop over new and modified files handles each once, in order. |
| `IndexRefresh.Knowledge.Apply` | packages/forensic-rag-mcp/src/rag_mcp/refresh.py:190-243 | Deletions first, then new and modified files: the loops equal the function `Refreshed` that the theorems are about. |
| `IndexTheorems.SameIdSameStem` | packages/forensic-rag-mcp/src/rag_mcp/ingest.py:424 | An id tells its file's sanitized stem and, within one document, its record. |
| `IndexTheorems.WithoutAgrees` | packages/forensic-rag-mcp/src/rag_mcp/refresh.py:195-200 | Deleting the ids listed for a file takes exactly that file's records out of the index. |
| `IndexTheorems.WithAgrees` | packages/forensic-rag-mcp/src/rag_mcp/refresh.py:225-231 | Adding a file's records brings exactly those in: none clashes with a record already there. |
| `IndexTheorems.PresentOrAbsent` | packages/forensic-rag-mcp/src/rag_mcp/refresh.py:233-241 | For each state file the index holds all records it lists or none of them. |
| `IndexTheorems.DropAllKeeps` | packages/forensic-rag-mcp/src/rag_mcp/refresh.py:194-203 | The deletion loop keeps index, state and files in step. |
| `IndexTheorems.PutAllKeeps` | packages/forensic-rag-mcp/src/rag_mcp/refresh.py:206-241 | The addition loop keeps index, state and files in step. |
| `IndexRebuild.RefreshKeeps` | packages/forensic-rag-mcp/src/rag_mcp/refresh.py:169-243 | Every refresh keeps index, state and counters in step with the files it has seen, and leaves records of other sources alone. |
| `IndexRebuild.RefreshIsRebuild` | packages/forensic-rag-mcp/src/rag_mcp/refresh.py:169-243 | For distinct sanitized stems and an injective file hash, a refresh leaves exactly the user records a rebuild from the current files gives, if and only if no file it takes for unchanged has lost its records. |
| `IndexRebuild.QuietAfterRefresh` | packages/forensic-rag-mcp/src/rag_mcp/refresh.py:173-188 | The next change check is empty if and only if every file just processed yielded records. |
| `IndexRebuild.CountersAddUp` | packages/forensic-rag-mcp/src/rag_mcp/refresh.py:194-231 | The index grows by records added less records removed if and only if every deleted or modified file still had its records. |
| `IndexRebuild.RefreshCounts` | packages/forensic-rag-mcp/src/rag_mcp/refresh.py:194-231 | Added counts every record the new and modified files yield, removed every id the state lists for the deleted and modified files. |
| `IndexRebuild.RunTracked` | packages/forensic-rag-mcp/src/rag_mcp/refresh.py:169-243 | Over every run of refreshes from an index without user records, the index holds for each state file one content or nothing, and the rest is untouched. |
| `IndexRebuild.FullRunIsRebuild` | packages/forensic-rag-mcp/src/rag_mcp/refresh.py:169-243 | For distinct sanitized stems and an injective file hash: after every refresh of every run in which each file yields records, the index is the rebuild, the next check is empty, and the counters match the growth. |
| `IndexRebuild.RestoredFileIsLost` | packages/forensic-rag-mcp/src/rag_mcp/refresh.py:222-241 | A file that yields nothing for one refresh and is then restored is taken for unchanged, and its records stay out of the index. |
| `Base64Url.EncodeClean` | packages/case-dashboard/src/case_dashboard/session_jwt.py:49-50 | No encoding has a dot, a padding sign or anything outside ASCII. |
| `Base64Url.EncodeInTable` | packages/case-dashboard/src/case_dashboard/session_jwt.py:49-50 | Every encoding is written in the 64 characters of section 5 of RFC 4648. |
| `Base64Url.EncodeIsStandard` | packages/case-dashboard/src/case_dashboard/session_jwt.py:49-50 | Block by block, the characters write in base 64 the number the bytes write in base 256, as section 4 of RFC 4648 has it. |
| `Base64Url.DecodesExactly` | packages/case-dashboard/src/case_dashboard/session_jwt.py:53-57 | A text in those characters decodes exactly when its length is not one more than a multiple of four, to three bytes for every four characters. |
| `Base64Url.SextetIsLookup` | packages/case-dashboard/src/case_dashboard/session_jwt.py:53-57 | Reading a character is looking it up in the table, with plus for minus and slash for underscore; all others are passed over. |
| `Base64Url.RoundTrip` | packages/case-dashboard/src/case_dashboard/session_jwt.py:53-57 | For every byte string, restoring the stripped padding and decoding gives the string back. |
| `Base64Url.EncodeInjective` | packages/case-dashboard/src/case_dashboard/session_jwt.py:49-50 | Different byte strings have different encodings. |
| `SessionEnvelope.SplitThree` | packages/case-dashboard/src/case_dashboard/session_jwt.py:192-195 | Three parts without dots, joined by dots, split into exactly these three. |
| `SessionEnvelope.SplitInverse` | packages/case-dashboard/src/case_dashboard/session_jwt.py:192 | Splitting loses nothing, and no part has a dot. |
| `SessionEnvelope.HeaderSpells` | packages/case-dashboard/src/case_dashboard/session_jwt.py:25-31 | The header bytes spell the header. |
| `SessionEnvelope.SealedVerifies` | packages/case-dashboard/src/case_dashboard/session_jwt.py:167-180 | Every envelope splits into exactly three parts and verifies to exactly its payload when `at` and `sub` are not empty and it is within its lifetime, and to nothing otherwise. |
| `SessionEnvelope.VerifiedIsSigned` | packages/case-dashboard/src/case_dashboard/session_jwt.py:191-219 | A text verifies to a payload if and only if it is this portal's header, a body and the digest over both, the body decodes to that payload, and the payload is acceptable. |
| `SessionCeiling.VerifiesWithin` | packages/case-dashboard/src/case_dashboard/session_jwt.py:211-218 | An envelope that carries its login's time verifies only up to the ceiling and returns that time. |
| `SessionCeiling.RotationDescends` | packages/case-dashboard/src/case_dashboard/auth.py:134-158 | A rotated envelope carries the issued-at of the one it replaces and is issued within the same ceiling. |
| `SessionCeiling.RunDescends` | packages/case-dashboard/src/case_dashboard/routes.py:3738-3747 | Every envelope issued over any interleaving of login, middleware rotation, explicit refresh and clock carries the issued-at of the login it descends from. |
| `SessionCeiling.AbsoluteCeiling` | packages/case-dashboard/src/case_dashboard/session_jwt.py:167-174 | However often it was rotated, no envelope verifies more than 43200 seconds after its login. |
| `SessionCeiling.NoRevival` | packages/case-dashboard/src/case_dashboard/routes.py:3701-3754 | Past its ceiling, presenting an envelope to the middleware or the refresh endpoint issues nothing. |
| `SessionCeiling.RotationVerifies` | packages/case-dashboard/src/case_dashboard/auth.py:149-158 | A rotated envelope verifies to the new tokens and the old issued-at, at exactly the times the ceiling allows. |
| `SessionCeiling.MiddlewareFailsClosed` | packages/case-dashboard/src/case_dashboard/auth.py:122-177 | What middleware and endpoint do, exactly: a verified session that does not resolve is rotated, for an operator with a refresh token only, or dropped; the endpoint rotates every verified session whose refresh yields an operator, and otherwise drops it; both rotate alike. |
| `RegistryHive.SeekRefines` | packages/windows-triage-mcp/scripts/import_registry_extractions.py:226-254 | The pruned recursive search from any key equals a scan of its whole subtree in preorder. |
| `RegistryHive.NavigateIsFirstInPreorder` | packages/windows-triage-mcp/scripts/import_registry_extractions.py:211-254 | On every hive whose child paths extend their parent's, the search returns the first key in preorder with the target path, and nothing if and only if there is none. |
| `RegistryHive.NavigateMeans` | packages/windows-triage-mcp/scripts/import_registry_extractions.py:214-223 | A path that begins with ROOT, in any case, is taken below the hive's own root path, and any other path as it is. |
| `RegistryHive.Flattener.Collect` | packages/windows-triage-mcp/scripts/import_registry_full.py:103-175 | The recursion appends to the shared list exactly the subtree's records and keeps what was there. |
| `RegistryHive.EveryValueRecorded` | packages/windows-triage-mcp/scripts/import_registry_full.py:145-166 | Of one key's values: as many records as objects, each object's record after those of the objects before it. |
| `RegistryHive.Flattener.CollectValues` | packages/windows-triage-mcp/scripts/import_registry_full.py:143-166 | The loop over a key's values appends the records that `EveryValueRecorded` describes; entries that are no objects are passed over. |
| `RegistryHive.Flattener.CollectAll` | packages/windows-triage-mcp/scripts/import_registry_full.py:168-173 | The subkeys are flattened in order, each once. |
| `RegistryHive.FlattenIsPreorder` | packages/windows-triage-mcp/scripts/import_registry_full.py:125-175 | Flattening visits the keys in preorder, once each, and emits their records key by key. |
| `RegistryHive.EveryValueIsFlattened` | packages/windows-triage-mcp/scripts/import_registry_full.py:142-173 | There are as many records as values that are objects, named or not, and each such value of each key has its own record in preorder, with its name, type and data under the key's path. |
| `RegistryHive.PlaceKeepsPath` | packages/windows-triage-mcp/scripts/import_registry_full.py:128-140 | On a well-formed hive the recorded path is the key's own without the root's. |
| `RegistryHive.NavigateReaches` | packages/windows-triage-mcp/scripts/import_registry_extractions.py:211-254 | On a well-formed hive, asking for the path a key's values are recorded under leads back to that key. |
| `RegistryHive.RecordIsReachable` | packages/windows-triage-mcp/scripts/import_registry_full.py:103-175 | Every record of a well-formed hive names a path that navigates to a key holding the recorded value. |
| `RegistryImport.Baseline.InsertBatch` | packages/windows-triage-mcp/scripts/import_registry_full.py:259-313 | The loop over a batch equals inserting or updating one value at a time. |
| `RegistryImport.Baseline.Import` | packages/windows-triage-mcp/scripts/import_registry_full.py:204-256 | For every record list and every batch size the import equals inserting one value at a time. |
| `RegistryImport.Find` | packages/windows-triage-mcp/scripts/import_registry_full.py:265-275 | The look-up returns the first row with the identity, or tells that there is none. |
| `RegistryImport.ImportMeans` | packages/windows-triage-mcp/scripts/import_registry_full.py:259-313 | The table holds one row per (hive, path, value name, data hash) with no operating system twice, and exactly the pairs of value and system that it held or that were imported. |
| `RegistryImport.RowsKeepFirstSighting` | packages/windows-triage-mcp/scripts/import_registry_full.py:289-306 | Known rows keep their place, type and data; each new row takes type and data from the first sighting of its value. |
| `RegistryImport.ImportLands` | packages/windows-triage-mcp/scripts/import_registry_full.py:223-252 | After an import every record has its row, under its hive, lower-cased path, name and digest of the data, listing the operating system; every new row has type and data of a record of it. |
| `RegistryImport.OrderDoesNotMatter` | packages/windows-triage-mcp/scripts/import_registry_full.py:259-313 | Imports of the same sightings in any order and multiplicity give every value the same operating systems. |
| `RegistryImport.ReimportDoesNothing` | packages/windows-triage-mcp/scripts/import_registry_full.py:204-313 | Importing again, in whole or in part and in any order, changes no row and reports zero inserted and zero updated. |
| `RegistryImport.CountersAreExact` | packages/windows-triage-mcp/scripts/import_registry_full.py:277-306 | Every row gained is counted as inserted, and every operating system gained is counted once. |
| `FetchLoop.ResolveAndPin` | packages/forensic-rag-mcp/src/rag_mcp/sources.py:427-460 | An address is pinned exactly when the answer is not empty and every address in it is routable; it is then the first. |
| `FetchLoop.ReadBody` | packages/forensic-rag-mcp/src/rag_mcp/sources.py:617-630 | The chunks are returned whole exactly when together they fit the limit. |
| `FetchLoop.DialableMeans` | packages/forensic-rag-mcp/src/rag_mcp/sources.py:331-355 | A hop may be dialled exactly when its URL has an allowlisted host that is no address, a valid port and the scheme the policy asks for, and every address resolved for it is routable. |
| `FetchLoop.FetchOnce` | packages/forensic-rag-mcp/src/rag_mcp/sources.py:536-637 | Against any network: exactly the hops the redirects lead to and the checks admit are dialled, in order; each exchange goes, under the scheme the policy asks for, to the allowlisted host of its own URL at an address vetted in that hop, with credentials exactly when that is the initial host; the last answer decides the outcome, body, refusal or trouble. |
| `FetchLoop.FetchUrl` | packages/forensic-rag-mcp/src/rag_mcp/sources.py:640-732 | Over all attempts every exchange is safe and at most (retries + 1) x (hops + 1) happen; a body is returned if and only if some attempt within the retries fetches it and all before it failed retryably, and it is within the limit. |
| `EvidencePrep.EvidenceDir.OpenEntry` | scripts/prepare_evidence.py:99-124 | Accepts exactly single-linked regular files of root or the service whose flags can be read, and says which descriptor stays open on each path. |
| `EvidencePrep.AcceptedMeans` | scripts/prepare_evidence.py:113-124 | What is accepted, what of it is to change, and that the mode is 0644. |
| `EvidencePrep.EvidenceDir.ValidateAll` | scripts/prepare_evidence.py:138-146 | The first loop changes no owner or mode, refuses if some entry is refused, and otherwise holds exactly the entries that are not immutable. |
| `EvidencePrep.EvidenceDir.ChangeAll` | scripts/prepare_evidence.py:147-149 | The second loop succeeds exactly when all metadata calls do, and then each held entry is service-owned with mode 0644. |
| `EvidencePrep.EvidenceDir.Prepare` | scripts/prepare_evidence.py:127-153 | If any entry is refused no owner or mode changes; otherwise, metadata calls succeeding, exactly the entries that are not immutable end service-owned with mode 0644 and are counted; immutable ones never change, and every accepted entry's descriptor is closed on all exits. |

## Left out

- ReviewCrash.CrashReplayConverges: deltas that name an id twice or a field that is not editable are not covered, and no new delta arrives between the attempts. The case is one in which followed items come first or follow nothing, and IOCs follow no item and name no IOC as a source. The approval log is treated by `TamperedExactly`, not here.
- ReviewVerification.HistoryVerifies: assumes a digest that is never empty and commits without crashes whose log writes succeed (`TamperedExactly` covers the others); IOCs are not verified by the source.
- ReviewRuns.RunsConvergeExactly: assumes, as `ConvergesExactly` and the "only if" halves of `RepeatsExactly`, `ApprovalRepeats` and `EditRepeats` do, that different contents have different digests.
- IndexRebuild.RefreshIsRebuild: assumes, as the other rebuild theorems do, files with distinct sanitized stems and a file hash that tells contents apart; without the first, `StemsCollide` shows the clash of ids.
- ReviewCoupling.CommitLeavesBehind: speaks of items whose source is not an IOC; the cascade, which runs later, can move an IOC after the coupling pass.
- SessionCeiling.AbsoluteCeiling: the cookies presented are ones the portal issued; forging one means computing its keyed digest, which `VerifiedIsSigned` makes explicit. Fractional issued-at times are not modelled.
- CommitLockout.ReportedWaitIsHonest: a clock of whole seconds and no failure dated in the future.
- The counts and the summary a commit returns, and the best-effort ledger writes of the file path.
- Delta files and case files whose JSON has the wrong types, duplicate item ids within a case, and Python's equality of 1 and True.
- Two commits running at once: the rename does not exclude them, since recovery takes over a processing file it finds.
- The database's own review transition; only the ledger loop that follows it is modelled.
- The content of `compute_content_hash`, SHA-256, HMAC, hexadecimal keys and the JSON codec, which are parameters with stated hypotheses; the older `generate_jwt` and `verify_jwt` and token revocation.
- Regular expressions as such: the two that cut a text into pieces are modelled by what they match.
- Parsing JSON and choosing the text and metadata of a record; the candidates are the input. The vector store's `add` is taken to keep the record of an id that is already there.
- Phases 1, 3 and 4 of the refresh, the `--no-bundled` filter, the document counters, embeddings and metadata.
- The rendering of registry values as text, an empty JSON object in place of a hive key, database errors during the import and the counter of errors.
- The extraction functions over registry keys and the parsing of operating system names.
- Reading and writing the lockout file; an unreadable file counts as no failures.
- Which failed fetches are retried: any choice is allowed. DNS errors are an empty answer. Back-off delays and logging.
- Handlers, cookie attributes, templates, the report writer, provisioning scripts, the front end and the other tool servers, which are formatting, wiring or thin look-ups.
