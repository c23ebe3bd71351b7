/** What the resolver finds in a folder that slot reconciliation has rewritten, and the apply that
    depends on it (atlas_slot_ownership.py, atlas_manifest_resolver.py). No rewritten record fails
    a contract check, and rewritten records never conflict about a Generator slot.

    `others` are the files beside the records that the planner ignored and the resolver reads:
    those of other targets, retired ones, and those under a Cluster pair's legacy name. */
module SlotResolution {
  import opened Texts
  import opened ManifestClaims
  import opened ManifestResolution
  import ManifestRepair
  import opened SlotOwnership
  import opened SlotReconciliation
  import opened SlotFixedPoint
  import Sorting

  type File = ManifestRepair.Record
  type Target = ManifestRepair.Target

  /** The files as the resolver reads them. */
  function AsFound(records: seq<Record>): (r: seq<File>)
    ensures |r| == |records|
    ensures forall i :: 0 <= i < |records| ==>
              r[i] == ManifestRepair.Record(records[i].path, records[i].kind, Some(records[i].payload))
  {
    seq(|records|, i requires 0 <= i < |records| =>
          ManifestRepair.Record(records[i].path, records[i].kind, Some(records[i].payload)))
  }

  /** The whole folder after one pass. */
  function Folder(records: seq<Record>, live: seq<Live>, spm: int, others: seq<File>): seq<File> {
    AsFound(Reconciled(records, live, spm)) + others
  }

  lemma {:induction false} ValidConcat(target: Target, a: seq<File>, b: seq<File>)
    ensures ManifestRepair.ValidRecords(target, a + b)
         == ManifestRepair.ValidRecords(target, a) + ManifestRepair.ValidRecords(target, b)
  {
    if a == [] {
      assert a + b == b;
    } else {
      assert (a + b)[1..] == a[1..] + b;
      ValidConcat(target, a[1..], b);
    }
  }

  /** A valid candidate was read from one rewritten record and claims what its payload claims. */
  lemma ReadFrom(target: Target, records: seq<Record>, c: Candidate) returns (i: nat)
    requires c in ManifestRepair.ValidRecords(target, AsFound(records))
    ensures i < |records| && c.payload == records[i].payload && ClaimsOf(c.payload, c.kind) == Ok(c.claims)
  {
    var found := AsFound(records);
    ManifestRepair.ValidRecordsAre(target, found, c);
    var q :| q in found && ManifestRepair.ReadRecord(target, q) == ManifestRepair.Valid(c);
    i :| 0 <= i < |found| && found[i] == q;
  }

  /** Two rewritten candidates that share a slot agree on it. */
  lemma CandidatesAgree(
      target: Target, records: seq<Record>, live: seq<Live>, spm: int, a: Candidate, b: Candidate, key: ClaimKey)
    requires Plannable(records, live) && key.GeneratorSlot? && key in a.claims && key in b.claims
    requires var valid := ManifestRepair.ValidRecords(target, AsFound(Reconciled(records, live, spm)));
             a in valid && b in valid
    ensures a.claims[key] == b.claims[key]
  {
    var once := Reconciled(records, live, spm);
    var i := ReadFrom(target, once, a);
    var j := ReadFrom(target, once, b);
    SlotClaimsNeverDiffer(records, live, spm, i, j, a.kind, b.kind, key);
  }

  /** The two records behind a disputed claim. */
  lemma DisputeOf(valid: seq<Candidate>, x: Conflict, key: ClaimKey) returns (w: Candidate, c: Candidate)
    requires x in Resolved(valid, false).conflicting && key in x.disputed
    ensures w in valid && c in valid && c.path == x.path && w.path == x.disputed[key]
    ensures key in w.claims && key in c.claims && w.claims[key] != c.claims[key]
  {
    var sorted := Sorting.Sort(valid, CandidateLe);
    Sorting.SortMembers(valid, CandidateLe);
    var i := ManifestRepair.ConflictOrigin(sorted, x);
    var st := FoldAll(START, sorted[..i], false);
    FoldCoherent(START, sorted[..i], false);
    StrictSelectsInput(START, sorted, i);
    w, c := st.winners[key], sorted[i];
    assert w in sorted && c in sorted && key in Disagreements(st.winners, c);
  }

  /** A conflict about a Generator slot that resolving the folder reports involves one of the other
      files: rewritten records alone never have one. */
  lemma SlotConflictIsForeign(
      target: Target, records: seq<Record>, live: seq<Live>, spm: int, others: seq<File>, x: Conflict, key: ClaimKey)
    requires Plannable(records, live) && key.GeneratorSlot? && key in x.disputed
    requires var valid := ManifestRepair.ValidRecords(target, Folder(records, live, spm, others));
             x in Resolved(valid, false).conflicting
    ensures exists c :: c in ManifestRepair.ValidRecords(target, others) && key in c.claims
                     && (c.path == x.path || c.path == x.disputed[key])
  {
    var rewritten := AsFound(Reconciled(records, live, spm));
    var valid := ManifestRepair.ValidRecords(target, rewritten + others);
    ValidConcat(target, rewritten, others);
    var w, c := DisputeOf(valid, x, key);
    if w !in ManifestRepair.ValidRecords(target, others) && c !in ManifestRepair.ValidRecords(target, others) {
      CandidatesAgree(target, records, live, spm, w, c, key);
    }
  }

  /** So when the other files are no records of this target, no conflict is about a slot. */
  lemma NoSlotConflict(
      target: Target, records: seq<Record>, live: seq<Live>, spm: int, others: seq<File>, x: Conflict, key: ClaimKey)
    requires Plannable(records, live) && ManifestRepair.ValidRecords(target, others) == []
    requires var valid := ManifestRepair.ValidRecords(target, Folder(records, live, spm, others));
             x in Resolved(valid, false).conflicting
    requires key in x.disputed
    ensures !key.GeneratorSlot?
  {
    if key.GeneratorSlot? {
      SlotConflictIsForeign(target, records, live, spm, others, x, key);
    }
  }

  lemma FatalBySchema(target: Target, path: Path, kind: Kind, p: Payload)
    requires ClaimsOf(p, kind).Ok?
    ensures ManifestRepair.ReadRecord(target, ManifestRepair.Record(path, kind, Some(p))).Fatal? <==>
              p.spm != "" && p.spm in target.names && !p.retired && !p.schemaSupported
  {}

  lemma RewriteKeeps(records: seq<Record>, live: seq<Live>, spm: int, i: nat)
    requires Plannable(records, live) && i < |records|
    ensures var r, p := Reconciled(records, live, spm)[i], records[i].payload;
            && r.path == records[i].path && r.kind == records[i].kind && r.payload.spm == p.spm
            && r.payload.retired == p.retired && r.payload.schemaSupported == p.schemaSupported
  {
    assert records[i] in records;
  }

  /** A rewritten record is fatal to the resolver only for an unsupported schema: its ownership
      and provenance blocks always pass. */
  lemma OnlySchemaIsFatal(target: Target, records: seq<Record>, live: seq<Live>, spm: int, i: nat)
    requires Plannable(records, live) && i < |records|
    ensures var r, p := AsFound(Reconciled(records, live, spm))[i], records[i].payload;
            ManifestRepair.ReadRecord(target, r).Fatal? <==>
              p.spm != "" && p.spm in target.names && !p.retired && !p.schemaSupported
  {
    var r := Reconciled(records, live, spm)[i];
    RewrittenLoads(records, live, spm, i, r.kind);
    RewriteKeeps(records, live, spm, i);
    FatalBySchema(target, r.path, r.kind, r.payload);
  }

  // ---- The apply ----

  datatype ApplyStatus = PlanBlocked | AlreadyCurrent | NowReconciled | RolledBack

  /** Everything the checks after the write ask of a plannable folder: it resolves, the live
      diagnostics are coherent, and planning again finds nothing left to do. */
  predicate Kept(
      records: seq<Record>, live: seq<Live>, spm: int, target: Target, others: seq<File>, coherent: bool)
    requires Plannable(records, live)
  {
    && ManifestRepair.ResolveFolder(target, Folder(records, live, spm, others)).Selected?
    && coherent
    && forall r :: r in records ==> Evidenced(r, Assign(records, live).value)
  }

  /** `apply_atlas_slot_ownership_reconciliation` with working writes; `coherent` is the verdict of
      the live diagnostics. An unevidenced record rolls the apply back, on this run and on every
      later one. */
  method ApplyReconciliation(
      store: OwnershipStore, live: seq<Live>, spm: int, target: Target, others: seq<File>, coherent: bool)
      returns (status: ApplyStatus)
    modifies store
    ensures var was := old(store.records);
            && (status.PlanBlocked? <==> !Plannable(was, live))
            && (status.AlreadyCurrent? <==> Plannable(was, live) && Reconciled(was, live, spm) == was)
            && (status.NowReconciled? <==>
                 && Plannable(was, live) && Reconciled(was, live, spm) != was
                 && Kept(was, live, spm, target, others, coherent))
            && store.records == if status.NowReconciled? then Reconciled(was, live, spm) else was
    ensures !status.PlanBlocked? && !status.RolledBack? ==> Reconciled(store.records, live, spm) == store.records
  {
    var was := store.records;
    if !Plannable(was, live) {
      return PlanBlocked;
    }
    if Reconciled(was, live, spm) == was {
      return AlreadyCurrent;
    }
    var blocked := store.Reconcile(live, spm);
    PlannableAgain(was, live, spm);
    FirstPassFixedIff(was, live, spm);
    if ManifestRepair.ResolveFolder(target, AsFound(store.records) + others).Selected? && coherent
       && Plannable(store.records, live) && Reconciled(store.records, live, spm) == store.records {
      return NowReconciled;
    }
    store.records := was;
    return RolledBack;
  }

  /** The folder without run evidence can be planned, and yet every apply is rolled back. */
  method BareIsRolledBack(spm: int, target: Target, others: seq<File>, coherent: bool) returns (status: ApplyStatus)
    ensures status.RolledBack?
  {
    BareNotFixed(spm);
    BareAssigned();
    var store := new OwnershipStore([BARE]);
    assert BARE in [BARE] && Assigned(PROVIDER, ToAssignment(SLOT)) in Assign([BARE], [SLOT]).value;
    assert !Evidenced(BARE, Assign([BARE], [SLOT]).value);
    status := ApplyReconciliation(store, [SLOT], spm, target, others, coherent);
  }
}
