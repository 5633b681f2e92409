# Verified core of IWE's document store

IWE keeps a store of linked Markdown documents that several processes write at once. This project models the parts of
it whose correctness is not visible in any one function, and proves them:

- **Committing.** The 24-byte lock record and its file (`LockRecord.dfy`), any number of holders, heartbeats, reclaims
  and crashes over it (`LockProtocol.dfy`), one transaction from its first write to its commit or restoration
  (`Transaction.dfy`), any number of writers committing step by step under the lock (`CommitProtocol.dfy`), what each
  of them has staged when its commit lands (`Staging.dfy`), and what the judgement of single commits comes to over their
  interleaved history (`StoreHistory.dfy`).
- **Judging a commit.** Link chains and their searches (`Paths.dfy`, `LinkGraph.dfy`), link rules and their two checks
  (`LinkRules.dfy`), validating a whole store and validating the affected documents only (`AffectedSet.dfy`), what the
  second is worth (`Soundness.dfy`), and the integrity gate with its debt cache (`Integrity.dfy`). The transaction runs
  the validation and the gate as they are modelled there.
- **Searching.** The plain definition of BM25 (`Bm25.dfy`) and what it rewards (`Relevance.dfy`), the inverted index that is edited in place (`Postings.dfy`,
  `SearchIndex.dfy`), near-duplicate pages (`Similarity.dfy`) and rank fusion (`SearchQuery.dfy`).
- **Front matter.** Carrying a rename into declared fields (`FrontMatter.dfy`, `Cascade.dfy`) and the freeze, mutability
  and deletion rules (`Permissions.dfy`).

Code that changes state step by step is modelled by classes and methods with loops, each proved against a specification
function or predicate; protocols are transition systems over all interleavings; the rest are functions and lemmas.

## What the proofs found

- **The window after the fencing check.** Checking that the lock is still held and writing the files are separate steps.
  If another writer acquires the lock in between, an update can be lost: `CommitProtocol.WindowNeeded` gives the run.
  Serialisation (`CommitsAreSerial`, `CommitIsAtomic`, `OnlyLoggedChanges`) is proved for all runs in which no acquire
  falls into another writer's window.
- **Chains through inclusions are missed.** The comment at `crates/diwe/src/schema.rs:2111-2116` promises that every
  document that can reach a touched key is re-checked. The walk it names (`crates/liwe/src/query/via.rs:53-64`) goes
  backwards over reference edges only, while the chains it stands for also follow block references (inclusions). A
  document whose chain runs through an inclusion can lose its goal unnoticed. `Soundness.DetectsIffWalkable` gives the
  exact condition: every in-scope target of a document, other than itself, must also be linked by a reference in it.
  `Soundness.MissedCommitAccepted` gives a commit that is accepted although it breaks a rule, and
  `Soundness.LoneInclusionMissed` the smallest document it happens to: one that is nothing but an inclusion. Below, a store is called
  walkable when its untouched documents meet that condition in the scope of every rule with a goal.
- **Full scope lets dangling links through.** The two validation scopes agree on link counts and chains
  (`Soundness.ScopesAgree`). A link to no document is refused in affected-set scope for every rule, and in full scope only
  where a broken rule has a target filter that resolves (`Soundness.DanglingInFull`, `Soundness.DanglingLinkLetThrough`).
- **A zero average length is kept for ever.** From a positive fit an index is fitted to zero exactly when, after some
  edit, it holds documents but no text in them (`SearchIndex.TextGoneFit`), as when the last document with text is
  removed next to an empty one (`SearchIndex.LastTextRemoved`). It then never refits by itself, whatever is added later
  (`SearchIndex.ZeroFitKept`), so the program's own weight formula is not used again: documents weigh what the embedding
  library gives them at that fit, and a query finds those in which a token of it weighs something. At a positive fit it
  finds exactly the documents that share a token with it (`SearchIndex.SearchAfter`).
- **An empty frozen document can be deleted.** Removing a frozen document without a body and without other fields looks
  like lifting its freeze, and the permission check returns before it looks at `deletable: false`
  (`Permissions.DeletionProhibited`), although the comment there says a frozen document is always rejected.
- **Immutable means never set.** Absent and present differ, so a document can be created only without a value at any
  immutable property, its body included (`Permissions.CreatedWithout`, `Permissions.CreationRefused`).
- **The debt cache is as good as its fingerprint.** It is transparent when states that digest alike have the same debt
  (`Integrity.CacheTransparent`); `Integrity.CollisionMisleads` says when a collision changes a verdict.

## Model

| member | source | states |
|---|---|---|
| LockRecord.RecordRoundTrip | crates/iwe-lock/src/state.rs:53-92 | the record written is the record read back, whatever else the file held |
| LockRecord.RecordLayout | crates/iwe-lock/src/state.rs:79-92 | the generation is in the first eight bytes, the heartbeat in the other sixteen, lowest byte first |
| LockRecord.LittleEndianRoundTrip | crates/iwe-lock/src/state.rs:67-85 | every number that fits its width survives the byte encoding |
| LockRecord.LockFile.ReadState | crates/iwe-lock/src/state.rs:53-77 | the fill loop over partial reads ends with exactly the record the file holds; a short file reads as never held |
| LockRecord.LockFile.WriteState | crates/iwe-lock/src/state.rs:79-92 | afterwards the file holds that record |
| LockRecord.LockFile.TryAcquire | crates/iwe-lock/src/lib.rs:140-156 | granted exactly when the record is free, then under the next generation; otherwise the record is left alone |
| LockRecord.LockFile.TouchIfCurrent | crates/iwe-lock/src/heartbeat.rs:60-78 | refreshes the heartbeat only of its own generation |
| LockRecord.LockFile.MarkFreeIfCurrent | crates/iwe-lock/src/lib.rs:231-249 | frees the record only of its own generation |
| LockRecord.LockFile.IsCurrent | crates/iwe-lock/src/lib.rs:203-209 | true exactly when the recorded generation is the guard's |
| LockRecord.PollInterval | crates/iwe-lock/src/lib.rs:110-113 | a quarter of the heartbeat interval, kept within 1 and 25 milliseconds |
| LockRecord.AcquireLoop | crates/iwe-lock/src/lib.rs:134-179 | at most timeout over poll interval plus two attempts on the file; takes the first record found free and writes nothing before; never gives up before the deadline |
| LockRecord.PollsBound | crates/iwe-lock/src/lib.rs:134-179 | full sleeps that fit below the timeout number at most the quotient |
| LockProtocol.StepKeeps | crates/iwe-lock/src/lib.rs:140-249 | every act of any holder keeps the generation count and the freedom of released records |
| LockProtocol.RunKeeps | crates/iwe-lock/src/lib.rs:140-249 | so does any run of acts, up to exhausting the 64-bit counter |
| LockProtocol.GenerationsIncrease | crates/iwe-lock/src/lib.rs:140-156 | over all interleavings each acquire returns a generation above all earlier ones |
| LockProtocol.OneCurrent | crates/iwe-lock/src/lib.rs:203-209 | at most one guard is ever current, and it is the latest |
| LockProtocol.SupersededForever | crates/iwe-lock/src/lib.rs:203-209 | a guard that is not current at some point of a run never is again |
| LockProtocol.ReleasedStaysFree | crates/iwe-lock/src/lib.rs:219-249 | after a guard's drop nothing but a later acquire makes the record read as held; the next attempt succeeds |
| LockProtocol.DropFrees | crates/iwe-lock/src/lib.rs:219-249 | the drop of a guard that still is current frees the record; that of a superseded one leaves it to the new holder |
| LockProtocol.DropLetsIn | crates/iwe-lock/src/lib.rs:219-249 | after a current guard is dropped the first attempt, at any time, is granted |
| LockProtocol.CrashSilences | crates/iwe-lock/src/heartbeat.rs:24-49 | a crash leaves the record as it is and ends the guard |
| LockProtocol.CrashedForever | crates/iwe-lock/src/heartbeat.rs:24-49 | a crashed guard stays crashed, and its last heartbeat is its last for good |
| LockProtocol.HeartbeatOnDisk | crates/iwe-lock/src/heartbeat.rs:24-78 | the heartbeat on disk is the current holder's own latest one |
| LockProtocol.ReclaimedWhenSilent | crates/iwe-lock/src/state.rs:31-36 | an attempt takes the lock from a holder exactly when its last heartbeat is more than the limit old |
| LockProtocol.LiveHolderKept | crates/iwe-lock/src/state.rs:31-36 | on a monotone positive clock a holder whose heartbeats are at most the limit apart is never reclaimed, whatever the others do |
| LockProtocol.SpacedIsFresh | crates/iwe-lock/src/heartbeat.rs:24-49 | such heartbeats are found fresh by every attempt |
| LockProtocol.FreshHolderKept | crates/iwe-lock/src/state.rs:31-36 | a holder found fresh by every attempt is never reclaimed |
| Store.Untouched | crates/diwe/src/validating_transaction.rs:427-439 | applying writes changes no key they do not name |
| Store.LastWriteCounts | crates/diwe/src/validating_transaction.rs:427-439 | a key holds what its last write left there |
| Store.ApplyLocal | crates/diwe/src/validating_transaction.rs:427-439 | what a key holds afterwards depends on no other key |
| Store.SanitizedApply | crates/diwe/src/validating_transaction.rs:774-776 | the state that is validated and the state that lands differ by sanitising only |
| Store.ReadAlike | crates/diwe/src/validating_transaction.rs:774-776 | two stores are read alike exactly when their contents differ in nothing but what cleaning removes |
| Transaction.FirstMentionsExact | crates/diwe/src/validating_transaction.rs:442-454 | the touched keys are the written ones, each once |
| Transaction.DeniedExact | crates/diwe/src/validating_transaction.rs:591-603 | the denied keys are the touched ones that are not permitted |
| Transaction.ConflictExact | crates/diwe/src/validating_transaction.rs:458-464 | a staged key is reported as changed correctly exactly when the digest separates the two contents |
| Transaction.AcceptedMeans | crates/diwe/src/validating_transaction.rs:750-825 | accepted exactly when the lock was not timed out, every staged key is as first seen, only permitted keys are written, nothing is introduced, the gate accepts, a lock taken is still held and the checkers accept; the gate decides as one that recomputes both debts |
| Transaction.JudgedOnce | crates/diwe/src/validating_transaction.rs:750-825 | a commit has one answer only |
| Transaction.WritesAreLocal | crates/diwe/src/validating_transaction.rs:427-439 | the writes change the documents they name, in the parsed graph as in the files |
| Transaction.AcceptedAddsNothing | crates/diwe/src/validating_transaction.rs:774-781 | an accepted commit adds no link violation anywhere (affected-set scope, walkable store), or nothing a whole-store validation reports (full scope) |
| Transaction.AcceptedKeepsIntegrity | crates/diwe/src/validating_transaction.rs:782-785 | an accepted commit adds no `no-new` debt and leaves no `strict` debt, through the shared cache, which stays right |
| Transaction.SlotStaysRight | crates/diwe/src/validating_transaction.rs:567-585 | whatever becomes of a commit, the shared cache stays right |
| Transaction.RestoreUndoes | crates/diwe/src/validating_transaction.rs:494-512 | putting back what every written key held undoes any list of writes |
| Transaction.ValidatingTransaction.Begin | crates/diwe/src/validating_transaction.rs:861-866 | the transaction starts with nothing staged |
| Transaction.ValidatingTransaction.StageWrite | crates/diwe/src/validating_transaction.rs:868-878 | the baseline is what the files held at the first write to the key; later writes do not move it |
| Transaction.ValidatingTransaction.ApplyTo | crates/diwe/src/validating_transaction.rs:427-439 | the loop yields the state with all pending writes applied in order |
| Transaction.ValidatingTransaction.TouchedKeys | crates/diwe/src/validating_transaction.rs:442-454 | the loop yields the distinct keys in the order of first mention |
| Transaction.ValidatingTransaction.ApplyPending | crates/diwe/src/validating_transaction.rs:466-490 | the files end up as the pending writes make them |
| Transaction.ValidatingTransaction.Restore | crates/diwe/src/validating_transaction.rs:494-512 | every remembered key is put back, every other is left alone |
| Transaction.ValidatingTransaction.JudgeStates | crates/diwe/src/validating_transaction.rs:774-785 | refused with exactly what validation says the writes introduce, otherwise as the integrity gate says, with what the cache then holds |
| Transaction.ValidatingTransaction.ApplyChecked | crates/diwe/src/validating_transaction.rs:805-820 | the writes land in full, or the files are put back as they were |
| Transaction.ValidatingTransaction.CommitLocked | crates/diwe/src/validating_transaction.rs:750-825 | refused for the first reason in the order of the checks, with the files unchanged, or applied in full; the cache ends with the landed state's debt |
| Transaction.ValidatingTransaction.Commit | crates/diwe/src/validating_transaction.rs:880-934 | all or nothing: accepted leaves the files as the writes make them and nothing staged, refused leaves files and staged writes as they were; with writes pending, a timed-out lock or a rejecting checker always refuses |
| Transaction.ValidatingTransaction.Abort | crates/diwe/src/validating_transaction.rs:936-941 | nothing stays staged |
| Transaction.ValidatingTransaction.CommitOrAbort | crates/diwe/src/validating_transaction.rs:319-331 | as the commit decides, and the transaction is empty again either way; a timed-out lock or a rejecting checker always refuses |
| Transaction.ValidatingTransaction.StageChecked | crates/diwe/src/validating_transaction.rs:368-399 | a denied write aborts the whole transaction |
| Transaction.ValidatingTransaction.ApplyChanges | crates/diwe/src/validating_transaction.rs:368-402 | a whole change lands exactly when every write of it is permitted and the commit accepts them as one final state; otherwise nothing of it is on disk |
| Transaction.AllowedMeans | crates/diwe/src/validating_transaction.rs:368-399 | the permission check is asked about every document written and every removal of one that is there, against what the store holds |
| Transaction.PutLands | crates/diwe/src/validating_transaction.rs:368-402 | an accepted change leaves the last content it puts under a key |
| Transaction.UnputLands | crates/diwe/src/validating_transaction.rs:368-402 | and nothing under a key it only removes, and everything else as it was |
| CommitProtocol.StepKeeps | crates/diwe/src/validating_transaction.rs:750-934 | every step of every writer keeps the invariant, provided no acquire falls into another writer's window |
| CommitProtocol.RunKeeps | crates/diwe/src/validating_transaction.rs:750-934 | so does any interleaving of any number of writers |
| CommitProtocol.AcquireKeeps | crates/iwe-lock/src/lib.rs:134-179 | taking or reclaiming the lock makes everybody else's snapshot stale and the taker's current |
| CommitProtocol.CheckingKeeps | crates/diwe/src/validating_transaction.rs:750-756 | the baseline comparison, key by key, is about the store a holder that is still current will replace |
| CommitProtocol.ReadingKeeps | crates/diwe/src/validating_transaction.rs:774-776 | so is the reading, file by file, and giving up leaves nothing behind |
| CommitProtocol.JudgeKeeps | crates/diwe/src/validating_transaction.rs:774-784 | a complete reading that passes is the store itself |
| CommitProtocol.ApplyOneKeeps | crates/diwe/src/validating_transaction.rs:466-490 | after each single file write the store is the base with that many writes applied |
| CommitProtocol.RejectKeeps | crates/diwe/src/validating_transaction.rs:807-820 | a checker's rejection leaves exactly the written keys to put back |
| CommitProtocol.RestoredKeeps | crates/diwe/src/validating_transaction.rs:494-512 | a finished restoration leaves the store as it was |
| CommitProtocol.CrashMidway | crates/diwe/src/validating_transaction.rs:804-818 | a crash while files are written leaves the store as it is then, which the next writer reads |
| CommitProtocol.CommitsAreSerial | crates/diwe/src/validating_transaction.rs:750-934 | in every such run the commits form one chain in strictly rising generations |
| CommitProtocol.CommitIsAtomic | crates/diwe/src/validating_transaction.rs:750-825 | each commit replaces exactly the store it read, validated and staged against by that store with its writes applied |
| CommitProtocol.OnlyLoggedChanges | crates/diwe/src/validating_transaction.rs:750-934 | outside the windows, refused, rejected and abandoned commits have left nothing behind |
| CommitProtocol.ReleaseLetsIn | crates/iwe-lock/src/lib.rs:219-249 | once the current holder has released, any other writer with staged writes can take the lock at any time |
| CommitProtocol.HeartbeatKeepsOut | crates/iwe-lock/src/state.rs:31-36 | until then a heartbeat keeps the others out as long as it is fresh |
| CommitProtocol.WindowNeeded | crates/diwe/src/validating_transaction.rs:786-805 | without the assumption, whatever the stale limit, two writers can both land on one document and an update is lost |
| Staging.HoldsStaged | crates/diwe/src/validating_transaction.rs:868-878 | in every run a writer's baseline is what the store held, key by key, at its first write of the key since it last had nothing staged, and its pending writes are those it staged since |
| Staging.FirstStagedIsFirst | crates/diwe/src/validating_transaction.rs:868-878 | the step on record for a key is the first write of it that was not forgotten; without one, every write of it was forgotten |
| Staging.Landed | crates/diwe/src/validating_transaction.rs:880-934 | every commit in the history landed at a step of its writer |
| Staging.CommitReplacesFirstSeen | crates/diwe/src/validating_transaction.rs:750-825 | in every windowed interleaving a commit writes exactly what its writer staged, over the very contents it found when it first wrote each key |
| StoreHistory.LandsAsJudged | crates/diwe/src/validating_transaction.rs:774-776 | clean writes land as the state that was validated |
| StoreHistory.CommittedAsJudged | crates/diwe/src/validating_transaction.rs:750-825 | in every windowed interleaving each commit was accepted by a transaction over exactly the store it replaced |
| StoreHistory.HistoryAddsNothing | crates/diwe/src/validating_transaction.rs:774-781 | in full scope, whatever is reported after any number of interleaved commits stood before them |
| StoreHistory.AffectedHistoryAddsNothing | crates/diwe/src/validating_transaction.rs:774-781 | in affected-set scope so do link counts, dangling links and lost chains, over walkable stores |
| StoreHistory.HistoryKeepsIntegrity | crates/diwe/src/validating_transaction.rs:782-785 | over interleaved commits `no-new` debt only shrinks, and after each of them there is no `strict` debt |
| StoreHistory.HistoryIsPermitted | crates/diwe/src/validating_transaction.rs:758-765 | interleaved commits never change a document that may not be written |
| Paths.CutAtTouched | crates/diwe/src/schema.rs:2157-2189 | a chain from an untouched document either survives the writes or leads into a touched document |
| Paths.LeadsIntoUnchanged | crates/diwe/src/schema.rs:2176-2189 | which documents lead into the touched ones does not depend on what the touched ones link to |
| LinkGraph.TargetsExact | crates/liwe/src/query/block_eval.rs:141-161 | the scoped targets are what the selected blocks link to, each once |
| LinkGraph.Reaches | crates/diwe/src/schema.rs:881-913 | the search is true exactly when a non-empty chain inside the scope exists, on cyclic graphs and whatever the shared memo holds |
| LinkGraph.Expand | crates/diwe/src/schema.rs:904-911 | one document's neighbours are queued once each, or the goal is among them |
| LinkGraph.Inbound | crates/liwe/src/query/via.rs:53-94 | the walk finds exactly the other documents that lead to the anchor over in-scope references |
| LinkGraph.EdgesMean | crates/liwe/src/query/via.rs:28-64 | read off the blocks: chains follow every block inside the scope, the inbound walk those whose target some block also refers to |
| LinkGraph.BlockFollowed | crates/liwe/src/query/via.rs:39-64 | a block added to a document is followed by chains whatever it is, and by the inbound walk only when it is no inclusion |
| LinkGraph.InclusionUnwalked | crates/liwe/src/query/via.rs:53-64 | adding an inclusion changes nothing the inbound walk finds |
| LinkRules.RunCache.ReachesGoal | crates/diwe/src/schema.rs:881-913 | a search through the run's shared memo gives the same answer as one without, and keeps the memo right |
| LinkRules.RunCache.WhenApplies | crates/diwe/src/schema.rs:867-879 | a rule's condition read from the run's cache holds for the document exactly when it does in the store |
| LinkRules.CheckCounts | crates/diwe/src/schema.rs:1164-1178 | reports exactly the broken counts |
| LinkRules.CheckTarget | crates/diwe/src/schema.rs:1182-1205 | reports exactly the targets the filter does not allow and those that do not exist, or that it does not resolve |
| LinkRules.CheckSome | crates/diwe/src/schema.rs:1206-1219 | reports exactly when no target satisfies the filter, or that it does not resolve |
| LinkRules.CheckCovers | crates/diwe/src/schema.rs:1220-1249 | reports exactly the named keys that are not linked in scope or not allowed, or that the filter does not resolve |
| LinkRules.CheckExistence | crates/diwe/src/schema.rs:2293-2297 | reports exactly the targets that resolve to nothing |
| LinkRules.CheckReach | crates/diwe/src/schema.rs:1250-1260 | reports exactly the chain that does not exist |
| LinkRules.CountsFine | crates/diwe/src/schema.rs:1164-1178 | no count is reported exactly when the number of different documents linked in scope is within the bounds |
| LinkRules.FiltersReport | crates/diwe/src/schema.rs:1182-1249 | no filter is reported exactly when every linked document is allowed, some linked one satisfies, and every named key is linked and allowed |
| LinkRules.ChainFine | crates/diwe/src/schema.rs:1250-1260 | no chain is reported missing exactly when the document is the goal or a chain leads to it |
| LinkRules.CheckRule | crates/diwe/src/schema.rs:1137-1261 | reports exactly the ways the document breaks the rule, on a partial graph its counts only |
| LinkRules.CheckRuleBounded | crates/diwe/src/schema.rs:2251-2309 | reports exactly the ways the document breaks the forms an index bounds |
| LinkRules.CheckLinks | crates/diwe/src/schema.rs:1124-1263 | reports exactly the ways the document breaks any rule of the schema |
| LinkRules.CheckLinksBounded | crates/diwe/src/schema.rs:2239-2311 | reports exactly the ways the document breaks the bounded forms of any rule of the schema |
| AffectedSet.WalkScope | crates/diwe/src/schema.rs:2176-2189 | with the touched documents, exactly those that lead into one |
| AffectedSet.AffectedKeys | crates/diwe/src/schema.rs:2155-2189 | touched, one-hop referrers of any kind, and walkers of every `reach` rule, and nothing else |
| AffectedSet.OneHopWithoutGoals | crates/diwe/src/schema.rs:2155-2189 | without a `reach` rule, affected are the touched documents and those with a block that links to one |
| AffectedSet.CheckDocument | crates/diwe/src/schema.rs:1986-2011 | everything the schemas bound to the document report |
| AffectedSet.ValidateDocuments | crates/diwe/src/schema.rs:1972-2017 | everything reported for the documents given, and nothing for others, with one cache shared by all |
| AffectedSet.ValidateStore | crates/diwe/src/schema.rs:1960-1970 | exactly what the complete check reports for any document of the store, and the invariants that fail |
| AffectedSet.OtherReports | crates/diwe/src/schema.rs:1960-2011 | both scopes see the other checks of a document under its schemas; the invariants are seen in full scope only |
| AffectedSet.CheckDocumentBounded | crates/diwe/src/schema.rs:2207-2229 | everything the bounded check reports for the document under its schemas |
| AffectedSet.ValidateAffectedSet | crates/diwe/src/schema.rs:2149-2231 | reports exactly what either check reports at an affected document of the store |
| AffectedSet.ValidateFinalState | crates/diwe/src/validating_transaction.rs:612-668 | introduced is exactly what is reported after and not before, although the earlier state is not always validated |
| Soundness.AffectedUnchanged | crates/diwe/src/schema.rs:2155-2189 | the affected set on the state before a commit is the one on the state after it |
| Soundness.IntroducedIsNew | crates/diwe/src/validating_transaction.rs:612-668 | no commit is refused for a violation that already stood |
| Soundness.VerdictUnchanged | crates/diwe/src/schema.rs:2239-2311 | in a walkable store, with conditions on the document itself, an unaffected document keeps its count, existence and reach verdicts under every rule |
| Soundness.IncrementalAgrees | crates/diwe/src/schema.rs:2149-2231 | in a walkable store a commit introduces a broken count, a link to no document or a lost chain in affected-set scope exactly when any document of the store gains one |
| Soundness.ScopesAgree | crates/diwe/src/validating_transaction.rs:523-537 | in a walkable store the two scopes introduce the same broken counts and lost chains |
| Soundness.DanglingInFull | crates/diwe/src/schema.rs:1182-1194 | a link to no document is reported in full scope exactly when a rule it breaks has a target filter that resolves |
| Soundness.DanglingLinkLetThrough | crates/diwe/src/schema.rs:2203-2205 | a store of two documents and a removal that affected-set scope refuses and full scope accepts |
| Soundness.ReachUnchanged | crates/diwe/src/schema.rs:881-913 | in a walkable store an unaffected document keeps its chains, none lost and none gained |
| Soundness.CommitAll | crates/diwe/src/validating_transaction.rs:612-668 | validating commit after commit, with refused ones changing nothing, is the run the next two rows are about |
| Soundness.FullRunShrinks | crates/diwe/src/validating_transaction.rs:612-668 | in full scope whatever a whole-store validation reports after a run stood at every point before |
| Soundness.AffectedRunShrinks | crates/diwe/src/validating_transaction.rs:612-668 | in affected-set scope, over walkable stores, so did every broken count, link to no document and lost chain, at any document |
| Soundness.DetectsIffWalkable | crates/liwe/src/query/via.rs:53-64 | lost chains are always detected exactly when the document's in-scope targets are also linked by reference |
| Soundness.MissedCommitAccepted | crates/diwe/src/schema.rs:2176-2189 | for every document that is not so linked, a commit accepted in affected-set scope that newly breaks a rule, and that full scope refuses |
| Soundness.EverywhereLinkable | crates/diwe/src/schema.rs:2183 | the scope of a rule without a section meets that lemma's condition |
| Soundness.WalkableMeans | crates/liwe/src/query/via.rs:53-64 | read off the blocks: every key a selected block links to, other than the document, is linked by a block that is no inclusion |
| Soundness.InclusionMissed | crates/diwe/src/schema.rs:2176-2189 | for a rule without a section, every document that links to another one by inclusions alone is missed by an accepted commit that full scope refuses |
| Soundness.LoneInclusionMissed | crates/diwe/src/schema.rs:2176-2189 | so is a document that is nothing but an inclusion |
| Integrity.ReachableFrom | crates/diwe/src/integrity.rs:60-80 | exactly the documents on a path of existing documents from the root |
| Integrity.ReachableClosed | crates/diwe/src/integrity.rs:60-80 | what any block of a reachable document links to is reachable if it exists |
| Integrity.OrphanMeans | crates/diwe/src/integrity.rs:60-80 | and the reachable documents are the least set of that kind with the root in it |
| Integrity.NewReachable | crates/diwe/src/integrity.rs:60-80 | a new document is reachable exactly when it is the root or a document reachable without it links to it |
| Integrity.BrokenLinks | crates/diwe/src/stats.rs:47-82 | exactly the links to no document, inclusions always and references unless external |
| Integrity.RemovalBreaks | crates/diwe/src/stats.rs:47-82 | removing a document breaks exactly the links others have to it, inclusions among them |
| Integrity.CreationMends | crates/diwe/src/stats.rs:47-82 | creating one mends exactly the links to it, and brings the broken ones among its own |
| Integrity.ComputeDebt | crates/diwe/src/integrity.rs:118-131 | the debt of the properties that are looked at |
| Integrity.LazyIsEager | crates/diwe/src/integrity.rs:153-166 | computing the earlier debt only on demand never changes the verdict |
| Integrity.AcceptedMeans | crates/diwe/src/integrity.rs:168-201 | accepted exactly when nothing new is broken where `no-new`, and nothing at all where `strict` |
| Integrity.RefusalNames | crates/diwe/src/integrity.rs:168-201 | a refusal names exactly the broken links and orphans held against the commit |
| Integrity.RemovalAccepted | crates/diwe/src/integrity.rs:153-201 | with links on `no-new`, a removal is accepted exactly when no other document needs the removed one |
| Integrity.CreationAccepted | crates/diwe/src/integrity.rs:153-201 | with orphans on `no-new`, a lone new page is accepted exactly when it is the root or a reachable document already links to it |
| Integrity.LinkedCreationAccepted | crates/diwe/src/integrity.rs:45-46 | created together with a link from a reachable document it is accepted |
| Integrity.DebtCache.Get | crates/diwe/src/integrity.rs:230-236 | a hit only for the stored fingerprint |
| Integrity.DebtCache.Put | crates/diwe/src/integrity.rs:238-242 | the slot holds the last debt put |
| Integrity.CheckIntegrity | crates/diwe/src/validating_transaction.rs:567-585 | verdict, cache contents and what to remember, from the slot found |
| Integrity.CheckTransparent | crates/diwe/src/validating_transaction.rs:567-585 | through a right slot the verdict is that of recomputing both debts, and the slot stays right |
| Integrity.CacheTransparent | crates/diwe/src/integrity.rs:206-243 | over every run of commits, refusals, reverts and out-of-band edits the verdicts and the store are those without a cache |
| Integrity.CollisionMisleads | crates/diwe/src/integrity.rs:206-218 | after a fingerprint collision the verdict on any commit is right exactly when, per `no-new` property, the two states share the same of the debt it leaves; `strict` and `off` are not misled |
| Integrity.CollisionVerdicts | crates/diwe/src/integrity.rs:168-180 | what is then accepted, and what should have been |
| Integrity.DebtNeverGrows | crates/diwe/src/integrity.rs:153-201 | along any run of commit attempts a `no-new` property's debt only shrinks |
| Integrity.LandedIsClean | crates/diwe/src/integrity.rs:153-201 | a commit that lands leaves no `strict` debt and adds no `no-new` debt |
| Ranking.Sort | crates/diwe/src/search.rs:231-241 | a permutation in the order of score, ties by key |
| Ranking.RankingUnique | crates/diwe/src/search.rs:231-241 | what is ranked determines the ranking |
| Keys.PathLessMeans | crates/diwe/src/search.rs:231-241 | keys are ordered as in a dictionary |
| Ranking.SortMap | crates/diwe/src/search_query.rs:92-105 | the map's entries, ranked |
| Bm25.TotalLengthRemove | crates/diwe/src/search.rs:145-159 | the total length is the sum over live documents in any order |
| Bm25.ScoreDisjoint | crates/diwe/src/search.rs:321-333 | a document without any query token scores nothing |
| Bm25.AnswerUnique | crates/diwe/src/search.rs:222-242 | corpus, query and fitted average determine the scored list |
| Bm25.FitIsAverage | crates/diwe/src/search.rs:58-96 | fitting to a list of distinct documents with text is fitting to the corpus they make |
| Bm25.AverageWithin | crates/diwe/src/search.rs:138-143 | the average lies between the shortest and the longest document |
| Bm25.DriftScales | crates/diwe/src/search.rs:130-136 | the drift test is a two-sided bound on the current average |
| Bm25.WeightPositive | crates/diwe/src/search.rs:360-371 | fitted to a positive average, the program's formula gives a token a positive weight exactly when it occurs |
| Bm25.IdfPositive | crates/diwe/src/search.rs:316-319 | no token is so common that it counts for nothing |
| Bm25.ScorePositive | crates/diwe/src/search.rs:321-333 | whatever the formulas, a score is positive exactly when some token of the query weighs something in the document |
| Bm25.FoundByWeight | crates/diwe/src/search.rs:222-242 | so, at any fit, an answer lists exactly the documents in which some token of the query weighs something |
| Bm25.InUse | crates/diwe/src/search.rs:360-371 | at a positive fit the formulas in use are such formulas, and exactly the tokens of a document weigh something in it |
| Bm25.FoundExactly | crates/diwe/src/search.rs:222-242 | fitted to a positive average, an answer lists exactly the documents that share a token with the query |
| Bm25.ZeroFitFindsNothing | crates/diwe/src/search.rs:222-242 | fitted to zero, every answer is empty if the weights vanish there |
| Bm25.NoTextFindsNothing | crates/diwe/src/search.rs:222-242 | without any text every answer is empty, whatever the fit |
| Relevance.IdfFalls | crates/diwe/src/search.rs:316-319 | the more documents hold a token, the less it counts for |
| Relevance.IdfAtHalf | crates/diwe/src/search.rs:316-319 | a token that half the documents hold counts for the logarithm of two |
| Relevance.SaturationAt | crates/diwe/src/search.rs:360-371 | a count is weighed against 0.3 without any length and against 1.2 at the average |
| Relevance.WeightGrows | crates/diwe/src/search.rs:360-371 | the more often a token occurs, the more it weighs, below a bound of 2.2 |
| Relevance.WeightFalls | crates/diwe/src/search.rs:360-371 | the longer the document, the less a token weighs |
| Relevance.WeightAtAverage | crates/diwe/src/search.rs:360-371 | a token that occurs once in a document of average length weighs 1 |
| Relevance.SharedScore | crates/diwe/src/search.rs:321-333 | a document that shares one token with the query scores its rarity times its weight |
| Relevance.RarerScoresHigher | crates/diwe/src/search.rs:321-333 | of two documents alike in length and count, the one whose token fewer documents hold scores higher |
| Relevance.DenserScoresHigher | crates/diwe/src/search.rs:321-333 | of two documents that share the same token, the one with more of it in no more text, or as much in less, scores higher |
| Relevance.ListedByScore | crates/diwe/src/search.rs:222-242 | an answer lists one document before another exactly when both are found and it scores higher, or alike and its key is smaller |
| Relevance.RarerFirst | crates/diwe/src/search.rs:222-242 | so a search lists the document with the rarer token first |
| Relevance.DenserFirst | crates/diwe/src/search.rs:222-242 | and of two with the same token the denser one |
| Postings.BinarySearch | crates/diwe/src/search.rs:190-220 | where the slot is, or where it belongs |
| Postings.SetWeight | crates/diwe/src/search.rs:190-202 | the sorted list records exactly one more weight |
| Postings.RemoveSlot | crates/diwe/src/search.rs:204-220 | the sorted list records exactly one slot less |
| Postings.AddPostings | crates/diwe/src/search.rs:190-202 | the document is entered under each distinct token, nothing else changes |
| Postings.DropPostings | crates/diwe/src/search.rs:204-220 | the document is withdrawn from each of its tokens, and emptied lists are dropped |
| SearchIndex.Occupancy | crates/diwe/src/search.rs:335-357 | live documents and free slots make up all slots |
| SearchIndex.TableFill | crates/diwe/src/search.rs:335-353 | filling a vacant slot changes the postings by that document's tokens only |
| SearchIndex.TableVacate | crates/diwe/src/search.rs:145-159 | vacating a slot withdraws exactly that document |
| SearchIndex.EvictOk | crates/diwe/src/search.rs:145-159 | the index structure survives an eviction, and the corpus loses that document only |
| SearchIndex.FillOk | crates/diwe/src/search.rs:335-353 | the index structure survives reusing a slot, and the corpus gains that document only |
| SearchIndex.GrowOk | crates/diwe/src/search.rs:335-353 | so it does growing a slot |
| SearchIndex.WithDocument | crates/diwe/src/search.rs:335-353 | slots are added only when the documents outnumber them |
| SearchIndex.DocumentFrequency | crates/diwe/src/search.rs:316-319 | a posting list's length is the number of live documents holding the token |
| SearchIndex.RowWeight | crates/diwe/src/search.rs:321-333 | every posting is the formula's weight at the one fitted average, and no posting is missing |
| SearchIndex.Reweight | crates/diwe/src/search.rs:360-371 | counts and lengths recovered from an embedding give the formula's weights at the new average |
| SearchIndex.ReindexAll | crates/diwe/src/search.rs:170-188 | the rebuilt postings list exactly the documents' reweighted tokens |
| SearchIndex.AverageAgrees | crates/diwe/src/search.rs:138-143 | the running total gives the true average |
| SearchIndex.DriftAgrees | crates/diwe/src/search.rs:130-143 | the measured drift is that of the true average |
| SearchIndex.DriftBound | crates/diwe/src/search.rs:130-136 | the bound the drift test promises holds exactly when the fitted average is positive or no text is held |
| SearchIndex.ZeroFitKept | crates/diwe/src/search.rs:130-168 | a fit at zero is kept over any later edits |
| SearchIndex.TextGoneFit | crates/diwe/src/search.rs:130-168 | from a positive fit, a run ends with a fit at zero exactly when after some edit documents but no text were held |
| SearchIndex.LastTextRemoved | crates/diwe/src/search.rs:122-143 | as when a built index loses its last document with text and keeps an empty one |
| SearchIndex.EmptyFirstFit | crates/diwe/src/search.rs:116-143 | or an index without documents is given an empty one |
| SearchIndex.NothingToReweight | crates/diwe/src/search.rs:360-371 | the weights are never recomputed at an average of zero, where the formula would divide by it: no document then has a token |
| SearchIndex.SearchAfter | crates/diwe/src/search.rs:222-242 | after any run, from an empty or a built index: at a positive fit a query finds exactly the documents that share a token with it; at any fit with non-negative weights, those in which a token of it weighs something; at a zero fit nothing, if the weights vanish there |
| SearchIndex.RefitMatchesBuild | crates/diwe/src/search.rs:161-188 | equal corpora fitted to their average answer every query alike |
| SearchIndex.Bm25Index.Evict | crates/diwe/src/search.rs:145-159 | the document is gone, everything else is as before |
| SearchIndex.Bm25Index.Insert | crates/diwe/src/search.rs:335-353 | the document replaces the one under its key; slots grow to the high-water mark only |
| SearchIndex.Bm25Index.Refit | crates/diwe/src/search.rs:170-188 | same documents, fitted to their true average |
| SearchIndex.Bm25Index.Upsert | crates/diwe/src/search.rs:116-120 | the corpus gains the text, and the fit is renewed to the true average exactly when the drift passes the threshold |
| SearchIndex.Bm25Index.Remove | crates/diwe/src/search.rs:122-128 | the corpus loses the key, with the same promise |
| SearchIndex.Bm25Index.Build | crates/diwe/src/search.rs:58-96 | an index over the list, fitted to it |
| SearchIndex.Bm25Index.Accumulate | crates/diwe/src/search.rs:321-333 | each slot's score is the plain definition's for the document in it |
| SearchIndex.Bm25Index.Search | crates/diwe/src/search.rs:222-242 | every document that scores above 0, best first, and no other |
| SearchIndex.Scan | crates/diwe/src/search.rs:321-333 | scanning posting lists sums to the plain score of every slot |
| SearchIndex.AddList | crates/diwe/src/search.rs:321-333 | one posting list adds its weights to exactly its slots |
| SearchIndex.SelfScore | crates/diwe/src/search.rs:287-298 | the plain score of a document against its own text |
| SearchIndex.ScoreBetween | crates/diwe/src/search.rs:300-314 | the plain score of one document against another's text, so the same as the scan's |
| SearchIndex.SimilarTo | crates/diwe/src/search.rs:258-285 | exactly the other documents whose relative score reaches the floor |
| Bm25.MatchesAreFound | crates/diwe/src/search.rs:258-285 | the matches are what a search for the document's own text finds, and a match's ratio is its share of the document's own score |
| SearchIndex.Replay | crates/diwe/src/search.rs:116-128 | after any run of edits, from an empty or a built index, it holds exactly what the run leaves, in as many slots as the most documents held at once, fitted as the drift along the run says |
| SearchIndex.LastEditCounts | crates/diwe/src/search.rs:116-128 | what a run leaves under a key is what its last edit put there or removed |
| SearchIndex.UneditedStays | crates/diwe/src/search.rs:116-128 | or, without one, what the run started from |
| SearchIndex.RefitAgreesWithBuild | crates/diwe/src/search.rs:161-188 | after any run of edits, from an empty or a built index, and a refit every query gives the same scored list as a fresh build |
| Similarity.ForwardMatches | crates/diwe/src/stats.rs:254-272 | exactly the size-gated one-way matches |
| Similarity.GatedMeans | crates/diwe/src/stats.rs:254-272 | the size gate: fifty tokens or more in each, neither more than twice the size of the other |
| Similarity.MutualSimilar | crates/diwe/src/stats.rs:274-299 | exactly the mutual matches with the smaller ratio, ranked |
| Similarity.SimilarMeans | crates/diwe/src/stats.rs:274-299 | each page reaches that share of the other's own score, one of them exactly, and the share reaches the threshold |
| Similarity.CopiesAreSimilar | crates/diwe/src/stats.rs:274-299 | a page and its copy are similar by 1 |
| Similarity.SimilarPages | crates/diwe/src/stats.rs:212-217 | the first three of them |
| Similarity.CapKeepsBest | crates/diwe/src/stats.rs:212-217 | every page the cap leaves out is ranked below the three it keeps |
| Similarity.FewAreKept | crates/diwe/src/stats.rs:212-217 | up to three pages are all kept |
| Similarity.Pairs | crates/diwe/src/stats.rs:219-243 | exactly the pairs that match both ways, smaller key first |
| Similarity.PairsAreSimilar | crates/diwe/src/stats.rs:212-299 | for a positive threshold two pages are a pair exactly when either is in the other's uncapped list |
| SearchQuery.WeightDecreases | crates/diwe/src/search.rs:17-21 | reciprocal-rank weights strictly decrease and stay positive |
| SearchQuery.RrfScores | crates/diwe/src/search_query.rs:82-90 | every listed key, and only those, with the sum of its weights |
| SearchQuery.OrderByScores | crates/diwe/src/search_query.rs:92-105 | the keys in the unique ranked order |
| SearchQuery.RankedKeys | crates/diwe/src/search_query.rs:107-112 | the fusion of the lists |
| SearchQuery.MatchedKeys | crates/diwe/src/search_query.rs:114-127 | the listed candidates in the order they came |
| SearchQuery.RestrictKeepsOrder | crates/diwe/src/search_query.rs:114-127 | the candidates kept stand to each other as they did |
| SearchQuery.SameDocuments | crates/diwe/src/search_query.rs:107-127 | ordering and filtering select the same documents |
| SearchQuery.SingleListUnchanged | crates/diwe/src/search_query.rs:82-112 | fusing one list of distinct keys gives it back |
| SearchQuery.AgreementKept | crates/diwe/src/search_query.rs:82-90 | when every list places one key before another, so does the fusion |
| SearchQuery.AgreementBeatsFirst | crates/diwe/src/search_query.rs:82-90 | a key two lists agree on outranks one that is first in a single list exactly when its two positions, from zero, multiply to less than 61 squared |
| SearchQuery.LexicalRanked | crates/diwe/src/search_query.rs:56-63 | the candidates the query scores above 0, best first |
| SearchQuery.LexicalUnique | crates/diwe/src/search_query.rs:56-63 | that list repeats no key and is the only one |
| SearchQuery.LexicalSearch | crates/diwe/src/search_query.rs:107-112 | a search by the query alone returns it unchanged: candidates by their score, best first |
| FrontMatter.RewrittenHere | crates/diwe/src/cascade.rs:142-182 | at the path, the old list with the value replaced |
| FrontMatter.RewrittenElsewhere | crates/diwe/src/cascade.rs:142-182 | at every other path, unchanged |
| FrontMatter.NothingToRewrite | crates/diwe/src/cascade.rs:160-182 | without the value, the tree is unchanged |
| FrontMatter.RewrittenBack | crates/diwe/src/cascade.rs:160-182 | rewriting back restores the tree when the new value was absent |
| FrontMatter.RewritesCommute | crates/diwe/src/cascade.rs:160-182 | rewrites at different paths commute |
| FrontMatter.BelowNest | crates/diwe/src/cascade.rs:142-182 | looking and replacing below a path is looking and replacing in what is there |
| FrontMatter.ListRewritten | crates/diwe/src/cascade.rs:164-180 | a list's strings, and those below a path in its elements, are found in order and each is replaced |
| FrontMatter.InnerListSkipped | crates/diwe/src/cascade.rs:164-180 | at the end of the path a list inside a list is not looked into |
| Cascade.RewriteAt | crates/diwe/src/cascade.rs:160-182 | the tree rewritten, and flagged exactly when the value was at the path |
| Cascade.RewriteItems | crates/diwe/src/cascade.rs:164-180 | the same for the elements of a list |
| Cascade.AllHere | crates/diwe/src/cascade.rs:118-124 | after a list of paths, each listed path has its own occurrences replaced and none left |
| Cascade.AllElsewhere | crates/diwe/src/cascade.rs:118-124 | and no other path has changed |
| Cascade.RoundTripExact | crates/diwe/src/cascade.rs:118-124 | rewriting back over the same paths restores the tree exactly when the new value was at none of them, or the two are equal |
| Cascade.RewriteMarkdown | crates/diwe/src/cascade.rs:118-133 | a new document exactly when one of the paths holds the old key |
| Cascade.CascadeRename | crates/diwe/src/cascade.rs:73-114 | in the store as the rename leaves it, every declared field has its mentions replaced and nothing else differs; only the documents that name the old key are changed, the renamed one where it is created |
| Permissions.CheckProperty | crates/diwe/src/permissions.rs:357-409 | frozen when the document is, otherwise refused exactly when the first rule on the property makes it immutable |
| Permissions.FirstRuleCounts | crates/diwe/src/permissions.rs:357-409 | the first rule on a property decides, whatever later ones say |
| Permissions.ResolveSplits | crates/liwe/src/query/filter.rs:13-36 | resolving a joined path is resolving its second part in the mapping found at the first |
| Permissions.OperatorRuleIdle | crates/liwe/src/query/filter.rs:18-20 | a rule on a path with an operator segment holds nothing |
| Permissions.NestedFieldHeld | crates/diwe/src/permissions.rs:357-409 | a rule on a field at any depth holds exactly that field |
| Permissions.CheckWrite | crates/diwe/src/permissions.rs:641-750 | allowed exactly when freeze, deletion and mutability rules come to that; a refusal names a real reason |
| Permissions.ResolveDeletable | crates/diwe/src/permissions.rs:502-519 | prohibiting exactly when any bound schema prohibits, wherever it is in the order |
| Permissions.ImmutableForever | crates/diwe/src/permissions.rs:641-750 | over any run of writes and removals an immutable property outside the freeze marker has its first value or none, and keeps it when nothing is removed |
| Permissions.GoneForGood | crates/diwe/src/permissions.rs:641-750 | once such a property has no value, it never has one again |
| Permissions.FreezeMarkerMoves | crates/diwe/src/permissions.rs:120-136 | the marker itself moves even where a rule makes it immutable |
| Permissions.FrozenUntilLifted | crates/diwe/src/permissions.rs:120-136 | a frozen document stays as it is until an attempt whose only effect is lifting the freeze |
| Permissions.FreezeProtects | crates/diwe/src/permissions.rs:641-666 | without any rule, a document resists some write exactly when its marker is the value true |
| Permissions.FrozenPermits | crates/diwe/src/permissions.rs:120-136 | the one write a frozen document permits keeps text and every other field and has a marker that is no longer true |
| Permissions.FrozenRemoval | crates/diwe/src/permissions.rs:660-666 | a frozen document can be removed exactly when it has no body and no other field |
| Permissions.DeletionProhibited | crates/diwe/src/permissions.rs:660-686 | a removal goes through exactly when the document is frozen and otherwise empty, or not frozen and not prohibited |
| Permissions.CreatedWithout | crates/diwe/src/permissions.rs:164-187 | a document can be created exactly when it has no text if its body is immutable and lacks every immutable field |
| Permissions.CreationRefused | crates/diwe/src/permissions.rs:164-187 | two documents whose creation is refused for that |

## Left out

- I/O errors, torn record writes and a lock file cut short while in use: reads and writes of files succeed; a short lock file reads as never held, as in the code.
- The 64-bit generation counter wraps; the protocol theorems cover all runs before it does.
- Writers that do not take the lock (editors, a store without an `.iwe` directory) inside `CommitProtocol`; `Transaction` and `Integrity.Event` allow the store to change in any way between calls.
- Digests: `Transaction` states what holds for separating digests and `CommitProtocol` keeps contents in the baseline; the hash functions themselves are parameters.
- Parsing Markdown, YAML and TOML, key patterns, tokenizers and the logarithm: parameters; results about scores ask of the logarithm only that it is positive above 1, and those about rarity that it increases. Floats are reals, and the total length is an integer.
- Wiki-style links whose target depends on which documents exist: a document's link targets are decided by its own content.
- LinkRules.CheckTarget: what a filter allows for a document is a function of the store; evaluating filters is not modelled.
- LinkRules.CheckSome: what a filter allows for a document is a function of the store; evaluating filters is not modelled.
- LinkRules.CheckCovers: the same, and which keys the front matter names is a function of the document.
- LinkRules.CheckRule: evaluating filters is not modelled, nor a violation's breadcrumb, hint and rule index.
- LinkRules.CheckRuleBounded: a violation's breadcrumb, hint and rule index are not modelled.
- LinkRules.CheckLinks: evaluating filters is not modelled, nor a violation's breadcrumb, hint and rule index.
- LinkRules.CheckLinksBounded: a violation's breadcrumb, hint and rule index are not modelled.
- AffectedSet.CheckDocument: structural schemas, `requires` and `asserts` are one uninterpreted check per document and schema (`Config.rest`), and the `[invariants]` one per store (`Config.invariants`). Affected-set scope runs the former, and every filter form, on affected documents only, and no claim is made that others keep their verdicts.
- Schema configurations that do not compile: every schema bound to a document is present.
- LinkGraph.Inbound: the distances the walk also computes, which validation ignores, and its distance bound, which validation sets to the largest number there is.
- A violation's breadcrumb, hint and rule index: findings are compared by key, schema and message as the code does, so two rules with the same message can stand in for each other.
- Transaction.AcceptedAddsNothing: in affected-set scope only for walkable stores, which Soundness.DetectsIffWalkable shows to be necessary, for rules whose `when` is about the document itself, and for link counts, links to no document and chains.
- StoreHistory.AffectedHistoryAddsNothing: only for such stores, rules and findings, for the same reason.
- StoreHistory.HistoryAddsNothing: between crashes in mid-application, whose partial writes nobody has validated, and for written contents that reading leaves as they are; the same holds of StoreHistory.HistoryKeepsIntegrity.
- Soundness.VerdictUnchanged: only for walkable stores, which Soundness.DetectsIffWalkable shows to be necessary, and for rules whose `when` is about the document itself.
- Soundness.ReachUnchanged: only for walkable stores, for the same reason.
- Soundness.IncrementalAgrees: only for walkable stores and such rules, for the same reason.
- Soundness.ScopesAgree: only for walkable stores and such rules, for the same reason.
- Soundness.AffectedRunShrinks: only for runs that meet walkable stores and such rules, for the same reason.
- The external checkers and the expiry checker: one yes or no per commit that does not change the store.
- Transaction.ValidatingTransaction.CommitLocked: I/O failures, and schema configurations that do not compile, are not among the reasons to refuse.
- CommitProtocol.JudgeKeeps: there, whether a commit is accepted is one function of the state read, the state it would produce and its writes; `StoreHistory` puts in the one of `Transaction`.
- The permission check reads the document again after the baseline was taken; within one call of `ApplyChanges` the store does not change.
- The order in which sets of findings, broken links, orphans, pairs and referrers are listed.
- SearchIndex.Bm25Index.Upsert: the fields of the index are kept in one record, and the lists and maps in them are values that the methods reassign.
- The embedding library, which is not part of this model: what it weighs a token at a fitted average that is not positive, and what average it fits documents without any text to, are parameters (`Bm25.Library`). It is assumed to weigh by the formula of `reweight` at a positive average and to report the average it was given.
- Building an index in parallel, cloning it, stop-word questions (`has_query_terms`), the `scores` map and the fuzzy matcher, whose lists `SearchQuery` takes as given.
- Cascade.RewriteAt: trees are values, so the rewriting in place is modelled by returning the new tree; a mapping's order is not kept.
- Cascade.CascadeRename: bodies are compared as the rename leaves them, not the leading blank lines that rendering drops; a document listed twice among the changes is not modelled.
- Command line, rendering, help, init, scripts, journal, token budgets, configuration migrations and glob lists: no deep property.
