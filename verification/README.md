# Verified models of the SpeedTree pipeline's safety code

The pipeline deletes backups, rewrites Atlas manifests, moves Blender objects between
collections, shares content digests between threads and owns child processes. This project
models the six components that decide those things and proves what they promise. One Dafny
module per protocol or algorithm:

| modules | component |
|---|---|
| `RetentionPlan`, `GuardedApply`, `BundlePaths`, `SealedBundle`, `RecoveryArchive`, `CrashBridge`, `Reservations` | artifact retention (`artifact_retention.py`) |
| `ManifestClaims`, `ClaimLaws`, `ManifestResolution`, `ManifestFates`, `ManifestProjection`, `ManifestRepair` | Atlas manifest resolution and mirror repair (`atlas_manifest_resolver.py`) |
| `SlotOwnership`, `SlotReconciliation`, `SlotCoverage`, `SlotEvidence`, `SlotFixedPoint`, `SlotResolution`, `FleetApply` | live slot ownership (`atlas_slot_ownership.py`) |
| `DigestMemo`, `ArtifactSampling` | content keys and the shared digest memo (`artifact_content_key.py`) |
| `ProcessOwnership`, `ReceiptRecovery` | child processes and their receipts (`process_lifecycle.py`) |
| `ExportHandoff` | Export collection reconciliation (`cluster_export_handoff_contract.py`) |

`Texts` and `Sorting` are helpers: orders on texts, and the stable sort with its uniqueness.

Code that changes state in place is a class whose methods are proved against a specification
function or a step of a transition system; what the component promises is then proved about
that function, or about every run of that system. Where a step can fail, its failures are
inputs, so the results hold for every pattern of failures.

## Where the code does not meet the plain statement

Each of these is proved with the exact condition under which the code meets it, and with an
input that shows the failure.

* A sealed backup directory is deleted exactly when the plan carries the real hash of every
  member and no directory text of the manifest has a backslash
  (`CrashBridge.BackupNamespace.DeleteSealed`). `RecoveryArchive.BackwardNeverReady` is a bundle
  that verifies and, for its backslash, is never deleted by any plan. The planner leaves the hashes of production
  backups blank (`RetentionPlan.Planner.ProductionStaysBlank`), so with its own plans the
  deletion never starts (`CrashBridge.BlankPlanIsNotReal`); the crash safety holds for
  arbitrary plans.
* The recovery archive written from a verified bundle is accepted by the archive verifier
  exactly when the manifest's directory texts are canonical
  (`RecoveryArchive.WrittenArchiveAccepted`). The sealer's own always are
  (`PlainIsAccepted`); a manifest that lists `./a` verifies, and its archive is written but
  never accepted (`OddArchiveRefused`). It still holds all of the bundle.
* One ownership reconciliation pass is a fixed point exactly when every record has evidence to
  keep as authored or its provider owns no live slot (`SlotFixedPoint.FirstPassFixedIff`). Two
  passes always are (`SecondPassIsFixed`). Since the check after the write demands a fixed
  point, an apply on any other folder is rolled back, on every run
  (`SlotResolution.ApplyReconciliation`; `BareIsRolledBack` is a folder of one manifest without
  run evidence).
* Finishing a reservation counts bytes written under other reservations twice, so it can raise
  while managed bytes are below the target. When it does can be read off the state before the
  call (`Reservations.FinishRaisesIff`); `CrowdIsReached` and `FinishCanRaiseBelowTarget` are a
  run that ends so.
* A memo entry can be replaced in place exactly when the stored value is None
  (`DigestMemo.ReplaceableIffNone`); `NoneIsReplaced` is a run that does it.
* Objects moved to the source collection all arrive exactly when no other object there bears
  the name of one of them, because the collection is asked by name
  (`ExportHandoff.Scene.MoveToSource`). `NamesakeIsLost` loses one to an object of the same
  name linked from another library.
* One recovery pass leaves an exact index exactly when the scan marker is written and every open
  receipt could be read, was not overlooked, and was not found by the legacy scan alone while
  its rewrite failed (`ReceiptRecovery.IndexExactIff`, with `StrayPass`). One failed read of an
  indexed receipt takes it out of the index (`LostOnce`), and no later pass finds it again
  (`LostForGood`).
* A seal writes a manifest exactly when its first checks pass. If the manifest is then too long
  to verify or its transaction id is blank, it stays behind, and every later attempt refuses
  because one is there (`SealedBundle.Transaction.Seal`, `SealAgain`).

## Model

| member | source | states |
|---|---|---|
| `DigestMemo.ConcurrentContentDigestMemo.Enter` | artifact_content_key.py:62-77 | first lock region of the plain entry point, as one step of the memo |
| `DigestMemo.ConcurrentContentDigestMemo.EnterVerified` | artifact_content_key.py:101-121 | first lock region of the verified entry point: joins a pending computation, never a stored value |
| `DigestMemo.ConcurrentContentDigestMemo.Finish` | artifact_content_key.py:78-99 | the owner's closing lock region: a clash with a stored digest forgets it and fails, else the value is stored; the future is set once |
| `DigestMemo.ConcurrentContentDigestMemo.Seed` | artifact_content_key.py:145-156 | seeding stores only where nothing is stored, and refuses a clash without changing anything |
| `DigestMemo.StepCoherent` | artifact_content_key.py:62-156 | every event of any thread keeps the invariant of pending table, futures, calls and counters |
| `DigestMemo.SingleFlight` | artifact_content_key.py:62-143 | in every reachable state a key has at most one computation in flight, and has one exactly while it is pending |
| `DigestMemo.CompletedExactlyOnce` | artifact_content_key.py:84-143 | over every run, a future is completed once if it is set and never otherwise |
| `DigestMemo.FutureStable` | artifact_content_key.py:84-143 | a step sets exactly the future it finishes, which was unset, and changes no other |
| `DigestMemo.SharedOutcome` | artifact_content_key.py:76-121 | all who shared a future saw one outcome, whenever they woke |
| `DigestMemo.NothingLeftPending` | artifact_content_key.py:84-143 | once no owner computes, nothing is pending and every future is set |
| `DigestMemo.CountersBalance` | artifact_content_key.py:62-121 | hits, misses and waits add up to the calls begun; misses equal computations |
| `DigestMemo.StoredNeverReplaced` | artifact_content_key.py:101-156 | over every run, a stored digest that is never forgotten never changes |
| `DigestMemo.ReplaceableIffNone` | artifact_content_key.py:85-156 | a stored result can be replaced in place if and only if it is None |
| `DigestMemo.NoneIsReplaced` | artifact_content_key.py:85-156 | a run from the empty memo that replaces a stored None |
| `DigestMemo.VerifiedReadFailsClosed` | artifact_content_key.py:118-143 | a verified read that disagrees with the stored digest fails, forgets it, and fails every waiter |
| `DigestMemo.BeginFate` | artifact_content_key.py:62-121 | a call that begins joins the pending future of its key, else hits the stored value if it is plain and there is one, else opens a future; each counts once, and nothing else changes |
| `DigestMemo.DoneFate` | artifact_content_key.py:78-143 | a completed owner sees what it computed, unless that differs from a stored digest: then the conflict; a result is stored, a failure forgets the key |
| `DigestMemo.SeedFate` | artifact_content_key.py:145-156 | a seed is stored and counted exactly when no digest is stored |
| `DigestMemo.CallBegan` | artifact_content_key.py:62-121 | over every run, a call that ends with a stored value was a plain one and began when its key was not pending and that value was stored; a verified call never ends so |
| `DigestMemo.StoredCameFrom` | artifact_content_key.py:84-156 | over every run, a stored value was computed by an owner of its key or given to a seed of it |
| `DigestMemo.HitCameFrom` | artifact_content_key.py:62-156 | over every run, what a hit returns was computed or seeded for that key before the call began |
| `ArtifactSampling.WindowsSound` | artifact_content_key.py:204-214 | for every size: windows ordered, disjoint, in range, with first and last byte, min(size, 512 KiB) in all |
| `ArtifactSampling.WindowsSpread` | artifact_content_key.py:204-214 | one window up to 512 KiB; beyond that eight of 64 KiB, number i at i sevenths of the way, rounded down |
| `ArtifactSampling.WordInjective` | artifact_content_key.py:217-248 | the eight-byte encoding of sizes and offsets is injective below 2^64 |
| `ArtifactSampling.PackValue` | artifact_content_key.py:217-248 | the bytes of a word are its base-256 digits, the least first |
| `ArtifactSampling.StreamJoin` | artifact_content_key.py:226-248 | each window is hashed as its offset, the number of bytes read, and those bytes, in order |
| `ArtifactSampling.ReadWindows` | artifact_content_key.py:226-248 | the read loop hashes exactly the framed windows, and reports whether each came back whole |
| `ArtifactSampling.WholeIffLongEnough` | artifact_content_key.py:217-248 | every window is read whole if and only if the file is as long as its stat said |
| `ArtifactSampling.DigestOpenFile` | artifact_content_key.py:217-248 | what is hashed, and exactly when the read is complete, for full and sampled digests |
| `ArtifactSampling.FileContentKeySnapshot` | artifact_content_key.py:251-272 | publishes the first attempt whose two stats agree and whose read was as long as the stat said, with what it read; raises exactly when neither is such |
| `ArtifactSampling.SampledKeyMeaning` | artifact_content_key.py:204-248 | two files have one sampled key iff sizes and all windows agree; up to 512 KiB, iff they are equal |
| `ArtifactSampling.FullKeyMeaning` | artifact_content_key.py:217-224 | two files have one full key iff they are equal |
| `ExportHandoff.ComponentIsLeastClosed` | cluster_export_handoff_contract.py:174-189 | the parent/child component is closed under links in Export and inside every closed set with the root |
| `ExportHandoff.ComponentsAreDisjoint` | cluster_export_handoff_contract.py:174-189 | with consistent links, every member of a component has the same component |
| `ExportHandoff.ComponentMeans` | cluster_export_handoff_contract.py:174-189 | an object is in the component iff a way of single parent or child steps inside Export leads to it from the root |
| `ExportHandoff.ProvenMeans` | cluster_export_handoff_contract.py:113-212 | when a hierarchy is proven: one root bears the stem name in Export, none did before the run, and everything joined to it is new and tagged with this FBX and this source |
| `ExportHandoff.RefusalMeans` | cluster_export_handoff_contract.py:125-246 | which reason a refusal gives, by names, number and age of the roots |
| `ExportHandoff.Scene.CollectHierarchy` | cluster_export_handoff_contract.py:174-189 | the worklist terminates on any links, cycles included, with exactly the root's component |
| `ExportHandoff.Scene.MoveToSource` | cluster_export_handoff_contract.py:248-259 | Export loses exactly the moved set; all of it arrives iff no name is taken, and what does not has a namesake there |
| `ExportHandoff.NamesakeIsLost` | cluster_export_handoff_contract.py:248-259 | a reconciliation that reports success and leaves an object in neither collection |
| `ExportHandoff.Scene.FindHierarchy` | cluster_export_handoff_contract.py:113-212 | finds the one new, exactly owned hierarchy iff there is one, else names the first reason |
| `ExportHandoff.Scene.Promote` | cluster_export_handoff_contract.py:214-234 | the root becomes the only pivot and is no unsuffixed root any more |
| `ExportHandoff.Scene.Reconcile` | cluster_export_handoff_contract.py:83-267 | each status holds exactly under its condition; only "reconciled" changes membership, by exactly the component; nothing is left for a second run |
| `ManifestClaims.WithBindings` | atlas_manifest_resolver.py:594-668 | which keys a record's bindings claim, or an error on a missing target or a slot targeted twice |
| `ManifestClaims.ClaimsOf` | atlas_manifest_resolver.py:576-696 | which keys a record claims: those of its groups and bindings, or the record itself when there are none |
| `ManifestClaims.LoadsIff` | atlas_manifest_resolver.py:594-668 | the bindings load iff every targeting row has both target IDs and no slot is targeted twice |
| `ManifestClaims.RecordLoadsIff` | atlas_manifest_resolver.py:576-696 | a record is a contract error iff a block it carries is invalid or its bindings do not load |
| `ManifestClaims.ClaimValues` | atlas_manifest_resolver.py:576-696 | what each claim says: the live target of the slot's last binding, the last group of that name or ID, or the record itself |
| `ClaimLaws.OwnershipValidIff` | atlas_manifest_resolver.py:351-457 | an explicit block is accepted iff it is sound, counts its rows, gives each slot one whole row and is sealed by their fingerprint |
| `ClaimLaws.CreatorsValidIff` | atlas_manifest_resolver.py:475-560 | creator rows are accepted iff each names a whole slot and no slot is named twice |
| `ClaimLaws.LoadableIff` | atlas_manifest_resolver.py:594-668 | the bindings of a record load iff each row that has to name a target does, and no two aim at one slot, by Generator id, else index, else name |
| `ClaimLaws.FingerprintMeans` | atlas_manifest_resolver.py:249-279 | the fingerprint has one entry per row, with its slot and target |
| `ClaimLaws.FingerprintOrderFree` | atlas_manifest_resolver.py:249-279 | listing rows of distinct slots in another order keeps the fingerprint |
| `ClaimLaws.LegacySlots` | atlas_manifest_resolver.py:594-625 | when two rows without target fields claim one slot: case is ignored, the index stands in for a missing Generator id, and the name for that |
| `ClaimLaws.FoldMeans` | atlas_manifest_resolver.py:594-625 | two texts fold to one iff they differ only in the case of letters A to Z |
| `ManifestResolution.Resolver.Resolve` | atlas_manifest_resolver.py:1328-1456 | the resolve loop computes the fold of the sorted records |
| `ManifestResolution.Resolver.Consider` | atlas_manifest_resolver.py:1337-1441 | one iteration, in the branch order of the source |
| `ManifestResolution.Resolver.FindSuperseding` | atlas_manifest_resolver.py:1346-1363 | finds the first selected per-target receipt that replaces this mirror |
| `ManifestResolution.Resolver.SelectRecord` | atlas_manifest_resolver.py:1436-1441 | selecting a record claims exactly the keys nobody held |
| `ManifestResolution.StepCoherent` | atlas_manifest_resolver.py:1337-1441 | every iteration, strict or diagnostic, keeps winners and selected records in agreement |
| `ManifestResolution.SelectedAgree` | atlas_manifest_resolver.py:1328-1456 | in both modes any two selected records agree on every claim they share |
| `ManifestResolution.StrictAccountsForAll` | atlas_manifest_resolver.py:1328-1456 | every valid record is selected, shadowed by earlier selected records it names, or reported conflicting |
| `ManifestResolution.FirstSelectedIsLeast` | atlas_manifest_resolver.py:1328-1337 | the first selected record is the least by identity rank, precedence and path |
| `ManifestResolution.OrderFree` | atlas_manifest_resolver.py:1328-1337 | permuting the input changes nothing when the sort keys differ |
| `ManifestResolution.DiagnosticIsStrict` | atlas_manifest_resolver.py:1406-1456 | the two modes of the fold are equal when the diagnostic one reports no conflict |
| `ManifestResolution.StrictIsDiagnostic` | atlas_manifest_resolver.py:1406-1456 | and when the strict one reports none |
| `ManifestFates.StepFate` | atlas_manifest_resolver.py:1337-1441 | one record against those selected before: which of the four fates it meets, and that the step does just that |
| `ManifestFates.EveryRecordIsTold` | atlas_manifest_resolver.py:1328-1456 | the fate of every record of a folder, told by ranks, kinds, identities and claims of the records selected before it, and shown in the result |
| `ManifestFates.ShadowsFit` | atlas_manifest_resolver.py:1346-1405 | a shadowed legacy name has a strictly larger rank than each record it names, all selected and in dispute with it; a shadowed mirror names the final receipt it mirrors |
| `ManifestFates.ConflictsFit` | atlas_manifest_resolver.py:1406-1431 | a reported conflict lists disputed claims only, each with a selected record that holds it |
| `ManifestFates.DisputeIsReported` | atlas_manifest_resolver.py:1389-1416 | a record that disputes a selected one is reported, unless a selected record disputes it under a strictly smaller rank or it mirrors a final receipt |
| `ManifestFates.DisputedFolderFails` | atlas_manifest_resolver.py:1389-1456 | then the folder does not resolve |
| `ManifestFates.ResolvedMeans` | atlas_manifest_resolver.py:1328-1456 | when a folder resolves, each valid record is selected, mirrors a selected final receipt, or is disputed under a strictly smaller rank |
| `ManifestFates.FirstIsFirst` | atlas_manifest_resolver.py:1346-1363 | a superseded mirror names the first selected receipt that it mirrors |
| `ManifestFates.OrderMeans` | atlas_manifest_resolver.py:1328-1337 | the order of resolution: rank, then the three kinds, then the path |
| `ManifestFates.ReadingMeans` | atlas_manifest_resolver.py:1166-1272 | what the resolver makes of one file: foreign, retired, fatal or valid, and with which rank |
| `ManifestRepair.DiagnosisIsStrict` | atlas_manifest_resolver.py:1166-1456 | for a whole folder, the audit reports neither fatal records nor conflicts iff strict resolution succeeds, and then both select the same records |
| `ManifestFates.DiagnosisMeans` | atlas_manifest_resolver.py:1166-1272 | the audit lists exactly the files that strict resolution could not have read |
| `ManifestProjection.ProjectedLoads` | atlas_manifest_resolver.py:699-872 | the payload projected onto free keys is again a valid record |
| `ManifestProjection.RederivedKeysDisjoint` | atlas_manifest_resolver.py:699-872 | claim keys derived again from a projected payload are disjoint from all that were taken |
| `ManifestProjection.DiagnosticStepSound` | atlas_manifest_resolver.py:1406-1433 | a conflicting record adds nothing, or a projection that claims nothing an earlier winner claims |
| `ClaimLaws.ProjectionIff` | atlas_manifest_resolver.py:699-872 | a conflicting record is carried into the audit iff something of it is free, and then with exactly the groups, bindings and claims that are |
| `ClaimLaws.GroupKept` | atlas_manifest_resolver.py:726-740 | kept groups keep their places |
| `ClaimLaws.BindingKept` | atlas_manifest_resolver.py:790-830 | kept bindings keep their places |
| `ManifestRepair.ProjectedAreDisjoint` | atlas_manifest_resolver.py:1328-1456 | for a whole folder, each projected record the audit selects reloads, and its claims derived anew are disjoint from those of all records selected before it |
| `ManifestRepair.CopyMakesClaimsEqual` | atlas_manifest_resolver.py:1459-1469 | copying the ownership fields makes the mirror's claims equal to the authority's |
| `ManifestFates.RepairTouches` | atlas_manifest_resolver.py:1459-1469 | a repair copies the identity and the ownership blocks into the mirrors, and leaves every other field and file |
| `ManifestRepair.PlanMeans` | atlas_manifest_resolver.py:1548-1674 | what a repairable plan guarantees about its one authority and its mirrors |
| `ManifestFates.PlanIff` | atlas_manifest_resolver.py:1548-1674 | a folder needs no repair iff it resolves; it can be repaired iff all its files of this target are readable, one final receipt is selected, and every conflict is of a lower manifest of the same source that claims the same keys and is disputed by that receipt alone |
| `ManifestRepair.RepairThenResolve` | atlas_manifest_resolver.py:1328-1456 | for every repairable folder the repaired folder resolves, with the old selection plus exactly the repaired mirrors |
| `ManifestRepair.ManifestFolder.RewriteMirror` | atlas_manifest_resolver.py:1758-1770 | one mirror is rewritten and its original kept |
| `ManifestRepair.ManifestFolder.WriteMirrors` | atlas_manifest_resolver.py:1755-1782 | all mirrors are rewritten, or all but those whose rollback fails are put back |
| `ManifestRepair.ManifestFolder.RollBack` | atlas_manifest_resolver.py:1773-1781 | restores exactly the committed mirrors whose rollback write works |
| `ManifestRepair.ManifestFolder.RepairMirrors` | atlas_manifest_resolver.py:1737-1786 | the outcome of a repair per plan status and write failure; when all writes work the verification cannot fail |
| `SlotOwnership.LiveOwnerAssignments` | atlas_slot_ownership.py:677-758 | the loop over live bindings computes the assignment, or blocks |
| `SlotOwnership.CollectCreators` | atlas_slot_ownership.py:603-674 | one provider's creator rows over all its mirrors |
| `SlotReconciliation.StatesAgree` | atlas_slot_ownership.py:369-382 | created rows of one slot that differ only in their state are one creator row |
| `SlotOwnership.OwnershipStore.Reconcile` | atlas_slot_ownership.py:954-1072 | every record is rewritten as planned, and nothing when the plan blocks |
| `SlotReconciliation.AssignsIffPlaceable` | atlas_slot_ownership.py:677-758 | the planner blocks on live slots if and only if some binding has no unique owner, no full slot identity, or a repeated slot |
| `SlotEvidence.PlannableIff` | atlas_slot_ownership.py:954-1072 | a plan exists iff every manifest can be read, mirrors of one provider agree on materials and creators, and every live binding can be placed |
| `SlotEvidence.ProviderCreatorsIff` | atlas_slot_ownership.py:603-674 | creators of one provider are collected iff its manifests can be read and no two credit one slot differently |
| `SlotReconciliation.AssignedSound` | atlas_slot_ownership.py:677-758 | assigned slots are distinct and complete, and each goes to the only provider of its pair |
| `SlotReconciliation.EveryManagedSlotHasOneOwner` | atlas_slot_ownership.py:677-758 | when nothing blocks, each readable binding with a managed positive material is assigned once, to its one provider |
| `SlotCoverage.EveryAssignmentIsWritten` | atlas_slot_ownership.py:901-945 | each manifest of a provider is written with one row per slot assigned to it, in slot order, in both evidence fields, and with no other row |
| `SlotCoverage.EveryManagedSlotIsWritten` | atlas_slot_ownership.py:677-945 | each managed readable live binding stands in all manifests of the one provider that supplies it, and its slot in no other manifest |
| `SlotEvidence.MaterialsMean` | atlas_slot_ownership.py:469-491 | the material table: it exists iff groups of one positive id say the same, and then says what they say |
| `SlotEvidence.OwnersMean` | atlas_slot_ownership.py:677-740 | the owners of a pair are the providers with a group that holds the material and the mesh, or the default cutout |
| `SlotReconciliation.BestIsLeast` | atlas_slot_ownership.py:798-844 | the template of a current row is a least one: fits the live pair, then precedence, then path |
| `SlotEvidence.EveryRowInherits` | atlas_slot_ownership.py:798-844 | every written row carries on its provider's first piece of evidence about the slot: one that fits the live pair, then the stronger kind, then the path; without evidence it starts bare |
| `SlotReconciliation.RowsStable` | atlas_slot_ownership.py:798-844 | planned again over its own output, a provider gets the same rows |
| `SlotReconciliation.HistoryNamesSuccessor` | atlas_slot_ownership.py:860-898 | a relinquished row names its slot's new owner and live pair, or says that the slot is gone |
| `SlotFixedPoint.PlannableAgain` | atlas_slot_ownership.py:901-945 | what was written can be planned again |
| `SlotFixedPoint.SecondPassIsFixed` | atlas_slot_ownership.py:901-945 | for every record set, a third pass changes nothing after two |
| `SlotFixedPoint.FirstPassFixedIff` | atlas_slot_ownership.py:901-945 | one pass is a fixed point if and only if every record is evidenced or its provider owns nothing |
| `SlotResolution.ApplyReconciliation` | atlas_slot_ownership.py:1233-1349 | an apply is kept exactly when the rewritten folder resolves, the live diagnostics agree and the plan is a fixed point; else the records are as before |
| `SlotFixedPoint.BareNotFixed` | atlas_slot_ownership.py:901-945 | a folder of one manifest without run evidence that can be planned and is no fixed point after one pass |
| `SlotResolution.BareIsRolledBack` | atlas_slot_ownership.py:1300-1310 | every apply on it is rolled back, whatever the other checks say |
| `SlotFixedPoint.NoEvidenceLost` | atlas_slot_ownership.py:860-945 | every row a record owned still stands or is in its history; history grows; authored bindings never change |
| `SlotEvidence.HistoryIff` | atlas_slot_ownership.py:860-898 | a row enters the history iff it was current and no longer stands; its entry names the provider that took the slot and the live pair, or says that the slot is gone |
| `SlotEvidence.CreatorsAreKept` | atlas_slot_ownership.py:603-674 | every rewritten manifest credits exactly the creators that its provider's manifests credited before, one per slot |
| `SlotEvidence.NothingElseChanges` | atlas_slot_ownership.py:901-945 | a rewrite touches the three ownership blocks only; authored evidence is filled in once |
| `SlotFixedPoint.RewrittenLoads` | atlas_manifest_resolver.py:351-457 | every rewritten manifest passes the resolver's contract checks, and its slot claims come from its provider's rows |
| `SlotFixedPoint.SlotClaimsNeverDiffer` | atlas_manifest_resolver.py:594-668 | two rewritten manifests that claim one Generator slot make the same claim, for one provider |
| `SlotResolution.SlotConflictIsForeign` | atlas_manifest_resolver.py:1328-1431 | a slot conflict found in the rewritten folder involves a file that the planner ignored |
| `SlotResolution.NoSlotConflict` | atlas_manifest_resolver.py:1328-1431 | without valid files of that kind, resolving the rewritten folder reports no conflict on any Generator slot |
| `SlotResolution.OnlySchemaIsFatal` | atlas_manifest_resolver.py:1168-1272 | a rewritten record is fatal to the resolver only for an unsupported schema |
| `FleetApply.MergedWrites` | atlas_slot_ownership.py:1467-1489 | the merged writes are exactly the children's writes, one per path, or there is none |
| `FleetApply.ReadyIff` | atlas_slot_ownership.py:1467-1505 | the preconditions, write by write: targets as planned, manifests as planned, payloads as announced, no two targets at odds over one manifest |
| `FleetApply.WrittenLands` | atlas_slot_ownership.py:1511-1517 | then the written store holds every planned payload and every other file as it was |
| `FleetApply.ManifestStore.CollectWrites` | atlas_slot_ownership.py:1467-1489 | the checks before the first write, over any number of targets sharing manifests |
| `FleetApply.ManifestStore.CommitWrites` | atlas_slot_ownership.py:1511-1517 | the written part is exactly what is planned for the committed paths |
| `FleetApply.ManifestStore.RollBack` | atlas_slot_ownership.py:1557-1575 | exactly the paths whose rollback write fails stay written |
| `FleetApply.ManifestStore.Apply` | atlas_slot_ownership.py:1456-1592 | already current iff every target is; refused iff one is not and some precondition fails, and then nothing is written; applied iff nothing fails; else the store holds the original bytes but for failed rollbacks |
| `BundlePaths.NameParses` | artifact_retention.py:1130-1140 | the text of a path reads back as that path, so that names are unique |
| `BundlePaths.ParseIff` | artifact_retention.py:1130-1140 | which texts are paths, and which pieces they have |
| `SealedBundle.Transaction.Seal` | artifact_retention.py:1171-1247 | exactly when a seal succeeds, and then it verifies; exactly when a manifest is written, with the other files untouched |
| `SealedBundle.Transaction.SealAgain` | artifact_retention.py:1191-1193 | after any seal that wrote a manifest, failed ones included, sealing is refused |
| `SealedBundle.VerifyTransaction` | artifact_retention.py:1250-1313 | verification succeeds iff files, directories, sizes and contents equal the sealed ones |
| `SealedBundle.VerifiedIff` | artifact_retention.py:1250-1313 | verification row by row and directory by directory, with the limit of 32 MiB |
| `SealedBundle.TamperingIsNoticed` | artifact_retention.py:1250-1313 | a tree with the manifest of a sealed one verifies iff it is the same tree |
| `RecoveryArchive.ArchiveNameParses` | artifact_retention.py:1931-1966 | an archive name parses back to its bundle name, exactly for names that stay one component |
| `RecoveryArchive.ArchiveNameIff` | artifact_retention.py:1931-1966 | which file names are archive names, in any case of letters |
| `RecoveryArchive.WriteArchive` | artifact_retention.py:2065-2080 | the writer's ZIP has exactly the directory entries and the files, by flat name |
| `RecoveryArchive.Recheck` | artifact_retention.py:2083-2095 | the check after writing passes iff the names are the expected ones and every planned hash is the member's |
| `RecoveryArchive.RecheckMeaning` | artifact_retention.py:2065-2095 | the archive just written passes it iff no directory text has a backslash and every planned hash is real |
| `RecoveryArchive.VerifyArchive` | artifact_retention.py:1316-1394 | the archive verifier, over flat names: passes iff manifest, file name, exact names, sizes and contents fit |
| `RecoveryArchive.ArchiveIff` | artifact_retention.py:1316-1394 | the same member by member: the limit of 32 MiB, the name, the rows, and no member but those, the directories and the manifest |
| `RecoveryArchive.ArchiveUnpacks` | artifact_retention.py:2065-2080 | the archive determines the bundle: it unpacks to the tree it was written from |
| `RecoveryArchive.WrittenArchiveAccepted` | artifact_retention.py:1316-1394 | the archive written from a verified bundle is accepted iff the manifest's directory texts are canonical |
| `RecoveryArchive.AcceptedIffWhole` | artifact_retention.py:1316-1394 | of all ZIPs with the manifest of a verified bundle, the verifier accepts exactly those with its very names and contents |
| `RecoveryArchive.PlainIsAccepted` | artifact_retention.py:1228-1239 | the sealer's own directory texts are canonical and without backslash |
| `RecoveryArchive.OddArchiveRefused` | artifact_retention.py:1355-1363 | a verified bundle whose archive is written and never accepted |
| `RecoveryArchive.BackwardNeverReady` | artifact_retention.py:2083-2088 | a verified bundle whose archive never passes the check after writing |
| `CrashBridge.BackupNamespace.DeleteSealed` | artifact_retention.py:2045-2147 | stopped anywhere it is safe; complete iff the hashes are real, the stats hold, no directory text has a backslash and no operation fails; a blank or wrong hash changes nothing |
| `CrashBridge.BackupNamespace.PrepareArchive` | artifact_retention.py:2065-2098 | verify, write and recheck: exactly when the archive may be installed |
| `CrashBridge.BackupNamespace.ReconcileArchive` | artifact_retention.py:1969-2042 | stopped anywhere it is safe; complete iff the archive verifies, its entry matches and no operation fails; the archive goes last |
| `CrashBridge.SourceMatches` | artifact_retention.py:1980-2008 | the checks on a partial source: only declared files and directories, each file equal to its archive member |
| `CrashBridge.RemnantWithin` | artifact_retention.py:1980-2008 | any remnant of a sealed bundle passes them |
| `CrashBridge.WithinIffRemnant` | artifact_retention.py:1980-2008 | they pass exactly remnants: only files and directories of the bundle, with equal contents |
| `CrashBridge.BackupNamespace.RemoveSource` | artifact_retention.py:2107-2124 | files, then directories from the leaves, then the root; done iff every file checks out and every operation succeeds |
| `CrashBridge.BackupNamespace.Lifetime` | artifact_retention.py:1969-2147 | after any number of runs of both kinds, each stopped anywhere, no partial set stands alone |
| `CrashBridge.BackupNamespace.NeverPartialAlone` | artifact_retention.py:2045-2147 | whenever the source is not whole, an installed archive unpacks to all of it; the verifier accepts it iff the directory texts are canonical |
| `CrashBridge.VerifiedRemnantIsWhole` | artifact_retention.py:1250-1313 | a remnant that passes the manifest check is the whole bundle |
| `CrashBridge.BlankPlanIsNotReal` | artifact_retention.py:1489-1498 | a plan with blank hashes never meets the archive's hash check |
| `RetentionPlan.EligibleIff` | artifact_retention.py:1580-1735 | exactly which bundles may be planned; never one with a protected member |
| `RetentionPlan.EligibleMeans` | artifact_retention.py:1580-1735 | the same for whole bundles in the facts of their members: protection, pins, seals, originals, replaceability, single files and archives |
| `RetentionPlan.GuardingNeverFrees` | artifact_retention.py:1596-1735 | further protection of any files never makes a bundle eligible |
| `RetentionPlan.Planner.Prepare` | artifact_retention.py:1481-1510 | a bundle is marked all or nothing with its identity modes, and the projection drops by its bytes; an unstable one stays and says so |
| `RetentionPlan.Planner.ProductionStaysBlank` | artifact_retention.py:1489-1498 | the marked entries of a production backup never carry a hash |
| `RetentionPlan.Planner.AgePass` | artifact_retention.py:1756-1761 | marks exactly the eligible, expired, stable bundles |
| `RetentionPlan.Planner.CapacityPass` | artifact_retention.py:2652-2658 | marks the stable bundles of the shortest prefix that meets the target, and nothing else |
| `RetentionPlan.Planner.PlanScope` | artifact_retention.py:1746-1773 | both passes of one scope; projected bytes always equal generated minus marked; candidates are ordered by time, then id; none left stable and unmarked is older than one marked for capacity |
| `RetentionPlan.Planner.PlanGlobal` | artifact_retention.py:2615-2658 | both passes over all scopes, ordered by time, scope and id; none left stable and unmarked is older than one marked for capacity; with the target unmet all stable candidates are marked; un-marking the last reaches the limit |
| `RetentionPlan.PassMeans` | artifact_retention.py:2652-2658 | the shortest sufficient prefix gives marks that are complete, oldest first and minimal |
| `RetentionPlan.Planner.RefreshSummary` | artifact_retention.py:2538-2558 | a scope's planned bytes, added up from single entries |
| `RetentionPlan.ScopesAddUp` | artifact_retention.py:2660-2675 | the scope summaries account for exactly the bytes the passes subtracted |
| `RetentionPlan.LastMarkNeeded` | artifact_retention.py:2652-2658 | un-marking the last marked bundle brings the total back to the limit |
| `RetentionPlan.UnmetMarksAll` | artifact_retention.py:2652-2658 | if the target is unmet, every stable candidate carries a mark |
| `RetentionPlan.OldestGoFirst` | artifact_retention.py:2645-2658 | no stable bundle left without a mark has a smaller time than a marked one |
| `RetentionPlan.OrderIsByAge` | artifact_retention.py:2643-2649 | the candidates are ordered by ascending time, with scope and id as the tie-break |
| `RetentionPlan.MarkedAreOldest` | artifact_retention.py:2652-2658 | what the capacity pass marks is no younger than any stable candidate it leaves |
| `RetentionPlan.ShortestIsUnique` | artifact_retention.py:2652-2658 | the pass has no freedom in what it marks |
| `GuardedApply.Applier.Screen` | artifact_retention.py:2218-2444 | whatever changes meanwhile, a bundle passes only with guards just read that clear it |
| `GuardedApply.Applier.UnlinkEntry` | artifact_retention.py:1851-1896 | unlinks only right after a look that matches the plan |
| `GuardedApply.Applier.DeleteSealed` | artifact_retention.py:2445-2458 | the members of a sealed directory are each unlinked or skipped, once |
| `GuardedApply.Applier.DeleteOriginals` | artifact_retention.py:2460-2482 | verified originals are each unlinked or skipped, once |
| `GuardedApply.Applier.FinishSource` | artifact_retention.py:2486-2509 | what reconciling an archive deletes lies in that archive's source |
| `GuardedApply.Applier.DeleteSingle` | artifact_retention.py:2484-2524 | a single file, or an archive after its source |
| `GuardedApply.Applier.ApplyBundle` | artifact_retention.py:2198-2524 | a bundle that is not atomic is skipped untouched; an atomic one left in peace is deleted whole |
| `GuardedApply.Applier.ApplyPlan` | artifact_retention.py:2150-2531 | every deletion is guarded; what is reported deleted is exactly what was deleted; every planned path is unlinked or skipped exactly once, and only a path in the source of a planned archive can be reported beyond that; nothing is skipped when nothing changes |
| `GuardedApply.GuardedEverywhere` | artifact_retention.py:2358-2444 | the log invariant says of every unlink that its look matched, and of every deletion that the last guards cleared it |
| `GuardedApply.DeletedAreClear` | artifact_retention.py:1457-1478 | the guards as last read overlap nothing that is deleted, neither planned paths nor those of an archive's source |
| `GuardedApply.GuardShieldsTree` | artifact_retention.py:1457-1478 | a guard shields what it contains and what contains it, sealed roots and archive sources included |
| `GuardedApply.UnlinkedAsPlanned` | artifact_retention.py:1851-2444 | each unlink in the log follows a look that found the planned file identity and, where a hash was planned, the planned content, and the guards last read part from every path of its bundle |
| `GuardedApply.ReconciledInSource` | artifact_retention.py:2486-2509 | what reconciling deletes lies below the source of its archive, from which the guards last read part |
| `GuardedApply.CalmIff` | artifact_retention.py:2150-2531 | when a bundle is left in peace, in the terms of what is looked at |
| `GuardedApply.PlannedOnce` | artifact_retention.py:2150-2531 | a path planned at one place is counted once |
| `Reservations.ReservationLedger.ActiveReservations` | artifact_retention.py:2701-2734 | dead, expired and unreadable receipts are unlinked; the rest is summed |
| `Reservations.ReservationLedger.BeginReservation` | artifact_retention.py:2829-2868 | one mutex region as one step; granted exactly when re-measured bytes and all reservations stay below the target |
| `Reservations.ReservationLedger.FinishReservation` | artifact_retention.py:2871-2893 | one mutex region as one step; raises exactly at the hard limit |
| `Reservations.StepKeeps` | artifact_retention.py:2701-2893 | every event keeps base bytes plus all expectations below the target |
| `Reservations.ManagedStaysBelowTarget` | artifact_retention.py:2829-2893 | in every interleaving, managed bytes are strictly below the target after the first granted reservation |
| `Reservations.FinishFinds` | artifact_retention.py:2871-2893 | what finishing will measure and sum up, from the state before the call |
| `Reservations.FinishRaisesIff` | artifact_retention.py:2871-2893 | from the state before the call, exactly when finishing raises; within the bound never while others wrote no more than the headroom |
| `Reservations.CrowdIsReached` | artifact_retention.py:2829-2893 | a run from an empty ledger into the state where finishing raises |
| `Reservations.FinishCanRaiseBelowTarget` | artifact_retention.py:2871-2893 | a concrete state in which finishing raises below the target |
| `Reservations.PurgeMeans` | artifact_retention.py:2701-2734 | which receipts stay: readable, owner alive, at most the age limit old; the bytes written under others stay counted |
| `Reservations.BeginFate` | artifact_retention.py:2829-2868 | when a request is granted, in numbers, and that its receipt is stamped with the time of the grant |
| `Reservations.FinishFate` | artifact_retention.py:2871-2893 | finishing removes the receipt of its token and no other |
| `Reservations.GrantStays` | artifact_retention.py:2844-2868 | over runs from any time: a granted receipt stays in the ledger with what it expects while its owner lives, its token is not finished and its age is within the limit |
| `Reservations.GrantsInForceFit` | artifact_retention.py:2829-2893 | over runs: whatever number of grants is in force at once, they add up to less than the target |
| `ProcessOwnership.ProcessSupervisor.RegisterOwned` | process_lifecycle.py:861-911 | the entry is added with its receipt, or taken back |
| `ProcessOwnership.ProcessSupervisor.PrepareChild` | process_lifecycle.py:976-997 | suspended, in both Jobs and named in the receipt, or not ready |
| `ProcessOwnership.ProcessSupervisor.SpawnOwned` | process_lifecycle.py:951-1018 | a spawn is the steps it takes; it returns a child iff nothing fails, and a failed one was never resumed |
| `ProcessOwnership.ProcessSupervisor.CloseTrees` | process_lifecycle.py:1287-1314 | every tree Job of the snapshot is closed |
| `ProcessOwnership.ProcessSupervisor.TerminateAll` | process_lifecycle.py:1287-1308 | terminates the tree Jobs and the session Job that still have a living member, and records who is left |
| `ProcessOwnership.ProcessSupervisor.Shutdown` | process_lifecycle.py:1228-1327 | goes through iff its first receipt write works or it already had; then nothing that ran is alive; it reports survivors iff some process outlived the termination |
| `ProcessOwnership.Reachable` | process_lifecycle.py:861-1327 | the ownership invariant in every state of every run |
| `ProcessOwnership.ResumedOnlyWhenOwned` | process_lifecycle.py:985-1008 | a tool-owned child is resumed only in both Jobs and named in the durable receipt, from then on |
| `ProcessOwnership.NothingAddedAfterSnapshot` | process_lifecycle.py:1235-1250 | no owned child is added after shutdown's snapshot |
| `ProcessOwnership.NothingSurvivesTheSession` | process_lifecycle.py:414-430 | once the session Job is closed, by shutdown or by owner death, no process that ran is alive, then or later |
| `ProcessOwnership.WhoDies` | process_lifecycle.py:414-1327 | which processes each step ends: whole tree Jobs, the whole session Job, or one process; none is revived or forgotten |
| `ProcessOwnership.WhoMoves` | process_lifecycle.py:960-1018 | only the child of the spawn in progress enters a Job |
| `ProcessOwnership.WhoIsResumed` | process_lifecycle.py:995-1000 | only that child is resumed |
| `ProcessOwnership.WhoIsBorn` | process_lifecycle.py:960-1018 | a new process is a suspended child in no Job, or the fork of a running one in all its Jobs |
| `ProcessOwnership.StagesInOrder` | process_lifecycle.py:960-1018 | a spawn goes through its stages in order, one at a time, and begins only while nothing is shut down |
| `ProcessOwnership.OpenJobs` | process_lifecycle.py:414-430 | which Jobs are open after each step |
| `ProcessOwnership.ReceiptMeans` | process_lifecycle.py:810-911 | what each write leaves in the durable receipt |
| `ProcessOwnership.SurvivorsAreTheLiving` | process_lifecycle.py:1303-1308 | the survivors recorded are all living processes of the session that ran, descendants included |
| `ReceiptRecovery.ReceiptStore.Visit` | process_lifecycle.py:630-692 | what one candidate's receipt and marker become |
| `ReceiptRecovery.ReceiptStore.VisitAll` | process_lifecycle.py:574-692 | the loop over the candidates, whatever their order |
| `ReceiptRecovery.ReceiptStore.PruneTerminal` | process_lifecycle.py:693-702 | keeps the newest 512 terminal receipts and deletes the rest |
| `ReceiptRecovery.ReceiptStore.Recover` | process_lifecycle.py:613-709 | one recovery pass over any directory, whatever cannot be read, rewritten, deleted or marked |
| `ReceiptRecovery.NeverDeletesOpen` | process_lifecycle.py:613-709 | an open receipt whose owner may live is never touched; only terminal ones are deleted |
| `ReceiptRecovery.ReceiptFate` | process_lifecycle.py:613-709 | what one pass makes of each receipt, running or shutting down, by its owner, its index entry and the faults: ended, left open, or ended before |
| `ReceiptRecovery.ScanKeepsNewest` | process_lifecycle.py:693-702 | the one scan deletes ended receipts only, the oldest first, and keeps 512; no other pass deletes |
| `ReceiptRecovery.OnePassRecovers` | process_lifecycle.py:613-709 | one pass seals and un-indexes exactly the open receipts of dead owners, and indexes all others |
| `ReceiptRecovery.SecondPassIdle` | process_lifecycle.py:574-709 | a second pass with the same liveness changes nothing |
| `ReceiptRecovery.IndexExactIff` | process_lifecycle.py:613-709 | exactly when a pass with faults leaves an exact index |
| `ReceiptRecovery.LostOnce` | process_lifecycle.py:631-635 | an open receipt that cannot be read in one pass is outside the index afterwards |
| `ReceiptRecovery.LostForGood` | process_lifecycle.py:574-586 | after the migration no later pass finds an open receipt outside the index |
| `ReceiptRecovery.StrayPass` | process_lifecycle.py:677-689 | a pass that leaves a dead owner's receipt open and outside the index |
| `ReceiptRecovery.ReceiptStore.RecoverCut` | process_lifecycle.py:630-692 | a pass killed after any visits, or between a rewrite and the removal of its marker |
| `ReceiptRecovery.PruneResumes` | process_lifecycle.py:693-702 | pruning that was killed and resumed deletes what one pruning could have deleted |
| `ReceiptRecovery.FullPassAfterCut` | process_lifecycle.py:613-709 | a full pass after a killed one ends where a full pass alone could have ended |
| `ReceiptRecovery.KilledPassesRecover` | process_lifecycle.py:613-709 | the same after any number of killed passes |
| `ReceiptRecovery.SealEndsAll` | process_lifecycle.py:655-683 | sealing ends every entry that had not ended, and touches no other |

## Left out

- Filesystem walking, classification of file names, OneDrive and reparse checks, command lines and environment variables: the classified inventory is the input.
- Real hashes, JSON text, gzip and ZIP bytes: a digest is the content itself; an archive is a table from member names to contents. Drive letters in manifest paths and names that differ only in case.
- ctypes calls, timeouts and polling: a Job is a set of processes that die when it closes.
- Text folding is ASCII only; the original folds all of Unicode.
- GuardedApply.Applier.Screen: the structural checks of a bundle (root, links, classification, originals, seal, bundle identity) are given as verdicts of the moment; entries come already grouped by bundle.
- GuardedApply.Applier.DeleteSealed: the archive and directory work around the member unlinks is a verdict here; `CrashBridge` models it. Members are visited in the order given, not deepest first.
- GuardedApply.Applier.FinishSource: which files of its source a reconciliation deletes is given; `CrashBridge` models the checks it makes. It compares them with the archive and not with the plan, so a planned path in such a source is deleted without a look of its own.
- CrashBridge.BackupNamespace.RemoveSource: files are unlinked in any order, not deepest first; no other program writes meanwhile, so the re-hash of each file right before its unlink is always equal.
- CrashBridge.BackupNamespace.ReconcileArchive: an archive or source that cannot be read counts as one that ends the run at its start.
- CrashBridge.BackupNamespace.DeleteSealed: the temporary file the archive is written to before its atomic rename; a write that fails leaves nothing installed.
- SealedBundle.Transaction.Seal: the file name and path checks of the declared names are one verdict.
- RetentionPlan.Planner.AgePass: whether a bundle is past its maximum age is given with it, since the clock is.
- RetentionPlan.Planner.Prepare: whether a bundle is found unstable while its entries are hashed is given per pass; the sizes then read are those of the inventory.
- Reservations.ReservationLedger.BeginReservation: the planning and deletion inside the region are the bytes they free; receipts that cannot be written are not modelled.
- ManifestClaims.ClaimsOf: claim keys and values stay structured instead of being joined into text; the reasons of contract errors are one value. The reader's schema checks are taken as passed.
- ManifestResolution.Resolver.Consider: a legacy record that several winners outrank lists all of them instead of the first in key order; the conflicts of one record are one entry instead of one row per key.
- ManifestProjection.ProjectedLoads: the convenience fields at the root of a projected payload and its adoption notes are not carried.
- ManifestRepair.PlanMeans: caller filters (expected blend, collection and scope), the publication under a missing canonical name (lines 1489-1545) and the isolated-bark path remapping are not modelled.
- `resolve_manifest_material_ownership` and `diagnose_manifest_generator_candidates`: whether the live diagnostics after an apply are coherent is given.
- ManifestRepair.ManifestFolder.RepairMirrors: the branch that publishes canonical-name records (lines 1703-1735) is not modelled.
- SlotOwnership.OwnershipStore.Reconcile: the takeover report and the shape checks of created property names are not modelled; creator rows of one slot that tie are equal, so the tie-break by row text never decides.
- SlotResolution.ApplyReconciliation: its writes and rollback writes always work; `FleetApply` models their failures.
- FleetApply.ManifestStore.Apply: the plan hashes that seal a fleet plan are taken as valid.
- ProcessOwnership.ProcessSupervisor.SpawnOwned: only the Windows branch; a process id is not reused within one session.
- ProcessOwnership.ProcessSupervisor.Shutdown: a cooperative cancel shows only as the exit it may cause; completing and terminating single processes are not methods here.
- ProcessOwnership.ProcessSupervisor.CloseTrees: the labels on entries (state, graceful and forced result) are not modelled.
- ReceiptRecovery.ReceiptStore.Recover: the crash window between the first receipt replace and its index marker (process_lifecycle.py:833-841), which the code does not cover; an index marker that cannot be written or removed.
- ExportHandoff.Scene.Reconcile: the list of issues in a report, and the suffix Blender adds when the new pivot name is taken. The contract issue listing and the report finalization are simple checks over the same data.
- `cluster_blend_sync.py`, `atlas_producer_rebind.py`, `atlas_target_registry.py`, `generator_delivery_scope.py`, `cluster_spm_pair_contract.py` and `exact_target_command.py`: field validation and compare-then-replace, which would only add easy members.
