/** Resolving a whole manifest folder, and repairing stale mirrors of a per-target receipt
    (atlas_manifest_resolver.py). The main theorem: a repair that is planned always works. */
module ManifestRepair {
  import opened Texts
  import opened ManifestClaims
  import opened ManifestResolution
  import opened ManifestProjection
  import Sorting

  /** A manifest file found beside the target; `None` is unreadable JSON. */
  datatype Record = Record(path: Path, kind: Kind, content: Option<Payload>)

  /** The names of the target: its own, and a receipt-proven Cluster counterpart's. */
  datatype Target = Target(names: set<Path>, legacyName: Option<Path>)

  datatype Reading = Rejected | RetiredScope | Fatal | Valid(candidate: Candidate)

  /** What the resolver makes of one file, without caller filters. */
  function ReadRecord(target: Target, r: Record): Reading {
    if r.content.None? then Fatal
    else
      var p := r.content.value;
      if p.spm == "" || p.spm !in target.names then Rejected
      else if p.retired then RetiredScope
      else if !p.schemaSupported then Fatal
      else
        var loaded := ClaimsOf(p, r.kind);
        if loaded.Bad? then Fatal
        else Valid(Candidate(r.path, r.kind, if target.legacyName == Some(p.spm) then 1 else 0, p, loaded.claims))
  }

  function ValidRecords(target: Target, records: seq<Record>): seq<Candidate> {
    if records == [] then []
    else
      var first := ReadRecord(target, records[0]);
      (if first.Valid? then [first.candidate] else []) + ValidRecords(target, records[1..])
  }

  predicate AnyFatal(target: Target, records: seq<Record>) {
    exists r :: r in records && ReadRecord(target, r).Fatal?
  }

  /** Strict resolution, or the evidence that its error carries. */
  datatype Outcome = Selected(selected: seq<Candidate>) | FatalRecord | Conflicting(evidence: Resolution)

  function ResolveFolder(target: Target, records: seq<Record>): Outcome {
    var r := Resolved(ValidRecords(target, records), false);
    if AnyFatal(target, records) then FatalRecord
    else if r.conflicting != [] then Conflicting(r)
    else Selected(r.selected)
  }

  /** What the read-only audit gets: it never fails, and lists fatal records as conflicts too. */
  datatype Diagnosis = Diagnosis(selected: seq<Candidate>, fatal: set<Path>, conflicting: seq<Conflict>)

  function DiagnoseFolder(target: Target, records: seq<Record>): Diagnosis {
    var r := Resolved(ValidRecords(target, records), true);
    Diagnosis(r.selected, set q | q in records && ReadRecord(target, q).Fatal? :: q.path, r.conflicting)
  }

  /** The audit reports nothing exactly when strict resolution succeeds, and then both select
      the same records. */
  lemma DiagnosisIsStrict(target: Target, records: seq<Record>)
    ensures var d := DiagnoseFolder(target, records);
            && (ResolveFolder(target, records).Selected? <==> d.fatal == {} && d.conflicting == [])
            && (ResolveFolder(target, records).Selected? ==> ResolveFolder(target, records) == Selected(d.selected))
  {
    var d, sorted := DiagnoseFolder(target, records), Sorting.Sort(ValidRecords(target, records), CandidateLe);
    if d.conflicting == [] { DiagnosticIsStrict(START, sorted); }
    if Resolved(ValidRecords(target, records), false).conflicting == [] { StrictIsDiagnostic(START, sorted); }
    if AnyFatal(target, records) {
      var r :| r in records && ReadRecord(target, r).Fatal?;
      assert r.path in d.fatal;
    }
  }

  // ---- The repair plan ----

  function Authorities(selected: seq<Candidate>): seq<Candidate> {
    if selected == [] then []
    else (if selected[0].kind == PerTarget then [selected[0]] else []) + Authorities(selected[1..])
  }

  /** A conflicting record that is only a drifted lower mirror of the authority. */
  predicate StaleMirror(authority: Candidate, x: Conflict, mirror: Candidate) {
    && mirror.path == x.path && mirror.kind == x.kind
    && (forall key :: key in x.disputed ==> x.disputed[key] == authority.path)
    && Precedence(x.kind) > Precedence(authority.kind)
    && mirror.payload.identity == authority.payload.identity
    && mirror.claims.Keys == authority.claims.Keys
  }

  datatype Plan = NotNeeded | Unrepairable | Repairable(authority: Candidate, mirrors: set<Path>)

  /** `atlas_manifest_mirror_repair_plan`, for a folder whose conflict needs a repair. */
  function PlanRepair(target: Target, records: seq<Record>): Plan {
    match ResolveFolder(target, records)
    case Selected(_) => NotNeeded
    case FatalRecord => Unrepairable
    case Conflicting(r) =>
      var authorities := Authorities(r.selected);
      if |authorities| != 1 then Unrepairable
      else if forall x :: x in r.conflicting ==>
           exists m :: m in ValidRecords(target, records) && StaleMirror(authorities[0], x, m)
      then Repairable(authorities[0], set x | x in r.conflicting :: x.path)
      else Unrepairable
  }

  /** Copy every ownership field of the authority, present or absent, into a mirror. */
  function CopyOwnership(authority: Payload, mirror: Payload): Payload {
    mirror.(identity := authority.identity, finalGroups := authority.finalGroups, earlyGroups := authority.earlyGroups,
            connection := authority.connection, ownership := authority.ownership, provenance := authority.provenance,
            tombstone := authority.tombstone)
  }

  function RepairRecord(authority: Payload, mirrors: set<Path>, r: Record): Record {
    if r.path in mirrors && r.content.Some? then r.(content := Some(CopyOwnership(authority, r.content.value))) else r
  }

  function RepairRecords(authority: Payload, mirrors: set<Path>, records: seq<Record>): seq<Record> {
    seq(|records|, i requires 0 <= i < |records| => RepairRecord(authority, mirrors, records[i]))
  }

  // ---- Copying makes the claim maps equal ----

  lemma CopyMakesClaimsEqual(authority: Candidate, mirror: Candidate)
    requires Derived(authority) && Derived(mirror)
    requires mirror.payload.identity == authority.payload.identity
    requires mirror.claims.Keys == authority.claims.Keys
    ensures ClaimsOf(CopyOwnership(authority.payload, mirror.payload), mirror.kind) == Ok(authority.claims)
  {
    var p := authority.payload;
    var q := CopyOwnership(p, mirror.payload);
    assert MaterialGroups(q) == MaterialGroups(p) && CurrentBindings(q) == CurrentBindings(p);
    if GroupsKeys(MaterialGroups(p)) + BindingsKeys(CurrentBindings(p), p.ownership.Some?) == {} {
      assert authority.claims.Keys == {RecordKey(p.identity, authority.kind)};
      assert RecordKey(p.identity, authority.kind) in mirror.claims;
      RecordKeyOnlyAlone(mirror.payload, mirror.kind);
      assert RecordKey(p.identity, mirror.kind) in mirror.claims;
      assert RecordKey(p.identity, mirror.kind) == RecordKey(p.identity, authority.kind);
    }
  }

  // ---- Sorting and reading commute with the repair ----

  function Repaired(authority: Candidate, mirrors: set<Path>, c: Candidate): Candidate {
    if c.path !in mirrors then c
    else c.(payload := CopyOwnership(authority.payload, c.payload), claims := authority.claims)
  }

  function Repairer(authority: Candidate, mirrors: set<Path>): Candidate -> Candidate {
    c => Repaired(authority, mirrors, c)
  }

  function RepairedAll(authority: Candidate, mirrors: set<Path>, cs: seq<Candidate>): (r: seq<Candidate>)
    ensures |r| == |cs| && forall i :: 0 <= i < |cs| ==> r[i] == Repaired(authority, mirrors, cs[i])
  {
    Sorting.Map(Repairer(authority, mirrors), cs)
  }

  lemma RepairedAllCons(authority: Candidate, mirrors: set<Path>, c: Candidate, cs: seq<Candidate>)
    ensures RepairedAll(authority, mirrors, [c] + cs)
         == [Repaired(authority, mirrors, c)] + RepairedAll(authority, mirrors, cs)
  {
    Sorting.MapCons(Repairer(authority, mirrors), c, cs);
  }

  lemma SortCommutes(authority: Candidate, mirrors: set<Path>, cs: seq<Candidate>)
    ensures Sorting.Sort(RepairedAll(authority, mirrors, cs), CandidateLe)
         == RepairedAll(authority, mirrors, Sorting.Sort(cs, CandidateLe))
  {
    RepairerKeepsOrder(authority, mirrors);
    Sorting.SortMap(Repairer(authority, mirrors), cs, CandidateLe, CandidateLe);
  }

  lemma RepairedKey(authority: Candidate, mirrors: set<Path>, c: Candidate)
    ensures var r := Repaired(authority, mirrors, c);
            Repairer(authority, mirrors)(c) == r && r.rank == c.rank && r.kind == c.kind && r.path == c.path
  {}

  lemma RepairerKeepsOrder(authority: Candidate, mirrors: set<Path>)
    ensures Sorting.KeepsOrder(Repairer(authority, mirrors), CandidateLe, CandidateLe)
  {
    var f := Repairer(authority, mirrors);
    forall a, b ensures CandidateLe(f(a), f(b)) == CandidateLe(a, b) {
      RepairedKey(authority, mirrors, a);
      RepairedKey(authority, mirrors, b);
    }
  }

  ghost predicate DistinctPaths(records: seq<Record>) {
    forall i, j :: 0 <= i < j < |records| ==> records[i].path != records[j].path
  }

  ghost predicate DistinctCandidates(cs: seq<Candidate>) {
    forall i, j :: 0 <= i < j < |cs| ==> cs[i].path != cs[j].path
  }

  lemma SortDistinct(cs: seq<Candidate>)
    requires DistinctCandidates(cs)
    ensures DistinctCandidates(Sorting.Sort(cs, CandidateLe))
  {
    Sorting.SortDistinctBy(cs, CandidateLe, (c: Candidate) => c.path);
  }

  lemma {:induction false} ValidRecordsAre(target: Target, records: seq<Record>, c: Candidate)
    ensures c in ValidRecords(target, records) <==> exists r :: r in records && ReadRecord(target, r) == Valid(c)
  {
    if records != [] {
      ValidRecordsAre(target, records[1..], c);
      assert records == [records[0]] + records[1..];
    }
  }

  lemma ValidRecordsDerived(target: Target, records: seq<Record>)
    ensures forall a :: a in ValidRecords(target, records) ==> Derived(a)
  {
    forall a | a in ValidRecords(target, records) ensures Derived(a) {
      ValidRecordsAre(target, records, a);
    }
  }

  /** In what the audit selects, every record that is not a whole record of the folder reloads, and
      the claims derived from it anew are disjoint from those of all records selected before. */
  lemma ProjectedAreDisjoint(target: Target, records: seq<Record>, k: nat)
    requires k < |DiagnoseFolder(target, records).selected|
    ensures WholeOrDisjoint(DiagnoseFolder(target, records).selected, ValidRecords(target, records), k)
  {
    var valid := ValidRecords(target, records);
    var sorted := Sorting.Sort(valid, CandidateLe);
    ValidRecordsDerived(target, records);
    Sorting.SortMembers(valid, CandidateLe);
    DiagnosticFoldSound(START, valid, sorted);
  }

  lemma {:induction false} ValidRecordsDistinct(target: Target, records: seq<Record>)
    requires DistinctPaths(records)
    ensures DistinctCandidates(ValidRecords(target, records))
  {
    if records != [] {
      ValidRecordsDistinct(target, records[1..]);
      forall c | c in ValidRecords(target, records[1..]) ensures c.path != records[0].path {
        ValidRecordsAre(target, records[1..], c);
      }
    }
  }

  /** Every mirror among the valid records can be read again after the copy. */
  ghost predicate Copyable(authority: Candidate, mirrors: set<Path>, c: Candidate) {
    c.path in mirrors ==> ClaimsOf(CopyOwnership(authority.payload, c.payload), c.kind) == Ok(authority.claims)
  }

  lemma RepairedReading(target: Target, authority: Candidate, mirrors: set<Path>, r: Record)
    requires ReadRecord(target, r).Valid? ==> Copyable(authority, mirrors, ReadRecord(target, r).candidate)
    requires r.path in mirrors ==> ReadRecord(target, r).Valid?
    ensures var before, after := ReadRecord(target, r), ReadRecord(target, RepairRecord(authority.payload, mirrors, r));
            if before.Valid? then after == Valid(Repaired(authority, mirrors, before.candidate)) else after == before
  {}

  lemma {:induction false} RepairedRecordsRead(
      target: Target, authority: Candidate, mirrors: set<Path>, records: seq<Record>)
    requires forall r :: r in records && ReadRecord(target, r).Valid? ==>
               Copyable(authority, mirrors, ReadRecord(target, r).candidate)
    requires forall r :: r in records && r.path in mirrors ==> ReadRecord(target, r).Valid?
    ensures ValidRecords(target, RepairRecords(authority.payload, mirrors, records))
         == RepairedAll(authority, mirrors, ValidRecords(target, records))
  {
    if records != [] {
      var after := RepairRecords(authority.payload, mirrors, records);
      assert records[0] in records;
      RepairedReading(target, authority, mirrors, records[0]);
      RepairedRecordsRead(target, authority, mirrors, records[1..]);
      assert after[1..] == RepairRecords(authority.payload, mirrors, records[1..]);
      var first := ReadRecord(target, records[0]);
      if first.Valid? {
        RepairedAllCons(authority, mirrors, first.candidate, ValidRecords(target, records[1..]));
      }
    }
  }

  lemma RepairedNotFatal(target: Target, authority: Candidate, mirrors: set<Path>, records: seq<Record>)
    requires forall r :: r in records && ReadRecord(target, r).Valid? ==>
               Copyable(authority, mirrors, ReadRecord(target, r).candidate)
    requires forall r :: r in records && r.path in mirrors ==> ReadRecord(target, r).Valid?
    ensures AnyFatal(target, RepairRecords(authority.payload, mirrors, records)) ==> AnyFatal(target, records)
  {
    var after := RepairRecords(authority.payload, mirrors, records);
    forall i | 0 <= i < |records|
      ensures ReadRecord(target, after[i]).Fatal? ==> ReadRecord(target, records[i]).Fatal?
    {
      RepairedReading(target, authority, mirrors, records[i]);
    }
  }

  // ---- The fold over the repaired records ----

  function Unrepaired(selected: seq<Candidate>, mirrors: set<Path>): seq<Candidate> {
    if selected == [] then []
    else Unrepaired(selected[..|selected| - 1], mirrors)
         + if selected[|selected| - 1].path in mirrors then [] else [selected[|selected| - 1]]
  }

  lemma UnrepairedSnoc(selected: seq<Candidate>, c: Candidate, mirrors: set<Path>)
    ensures Unrepaired(selected + [c], mirrors)
         == if c.path in mirrors then Unrepaired(selected, mirrors) else Unrepaired(selected, mirrors) + [c]
  {
    assert (selected + [c])[..|selected|] == selected;
  }

  lemma {:induction false} UnrepairedMembers(selected: seq<Candidate>, mirrors: set<Path>)
    ensures forall w :: w in Unrepaired(selected, mirrors) <==> w in selected && w.path !in mirrors
  {
    if selected != [] {
      var n := |selected| - 1;
      UnrepairedMembers(selected[..n], mirrors);
      assert selected == selected[..n] + [selected[n]];
    }
  }

  /** The two folds in step: repaired mirrors are selected and change nothing else. */
  ghost predicate InStep(authority: Candidate, mirrors: set<Path>, st: Resolution, after: Resolution) {
    && after.winners == st.winners && after.shadowed == st.shadowed && after.conflicting == []
    && Unrepaired(after.selected, mirrors) == st.selected
    && forall w :: w in after.selected && w.path in mirrors ==> w.kind != PerTarget
  }

  lemma {:induction false} SupersedingIgnoresMirrors(selected: seq<Candidate>, mirrors: set<Path>, c: Candidate)
    requires forall w :: w in selected && w.path in mirrors ==> w.kind != PerTarget
    ensures FirstSuperseding(selected, c) == FirstSuperseding(Unrepaired(selected, mirrors), c)
  {
    if selected != [] {
      var n := |selected| - 1;
      assert selected == selected[..n] + [selected[n]];
      SupersedingIgnoresMirrors(selected[..n], mirrors, c);
      FirstSupersedingSnoc(selected[..n], selected[n], c);
      FirstSupersedingSnoc(Unrepaired(selected[..n], mirrors), selected[n], c);
    }
  }

  lemma {:induction false} FirstSupersedingSnoc(selected: seq<Candidate>, w: Candidate, c: Candidate)
    ensures FirstSuperseding(selected + [w], c)
         == if FirstSuperseding(selected, c).Some? then FirstSuperseding(selected, c)
            else if Supersedes(w, c) then Some(w.path) else None
  {
    if selected != [] {
      assert (selected + [w])[1..] == selected[1..] + [w];
      FirstSupersedingSnoc(selected[1..], w, c);
    }
  }

  /** A record that did not conflict does the same in both folds. */
  lemma OtherStep(authority: Candidate, mirrors: set<Path>, st: Resolution, after: Resolution, c: Candidate)
    requires InStep(authority, mirrors, st, after) && c.path !in mirrors
    requires FoldStep(st, c, false).conflicting == st.conflicting
    ensures InStep(authority, mirrors, FoldStep(st, c, false), FoldStep(after, c, false))
  {
    SupersedingIgnoresMirrors(after.selected, mirrors, c);
    UnrepairedSnoc(after.selected, c, mirrors);
  }

  /** A repaired mirror joins the selection, because the authority already holds its claims. */
  lemma MirrorStep(authority: Candidate, mirrors: set<Path>, st: Resolution, after: Resolution, c: Candidate)
    requires InStep(authority, mirrors, st, after) && Coherent(st) && c.path in mirrors && c.kind != PerTarget
    requires authority in st.selected
    requires forall w :: w in st.selected && w.kind == PerTarget ==> w == authority
    ensures var m := Repaired(authority, mirrors, c);
            FoldStep(after, m, false) == after.(selected := after.selected + [m])
    ensures InStep(authority, mirrors, st, FoldStep(after, Repaired(authority, mirrors, c), false))
  {
    var m := Repaired(authority, mirrors, c);
    UnrepairedMembers(after.selected, mirrors);
    forall w | w in after.selected ensures !Supersedes(w, m) {
      if w.kind == PerTarget { assert w in st.selected; }
    }
    forall key | key in m.claims ensures key in after.winners && Holds(after.winners[key], key, m.claims[key]) {
      assert key in authority.claims;
    }
    assert Disagreements(after.winners, m) == {};
    assert Adopt(after.winners, m) == after.winners;
    UnrepairedSnoc(after.selected, m, mirrors);
  }

  /** What a repairable plan says about the strict fold of the sorted records. */
  ghost predicate Repairing(authority: Candidate, mirrors: set<Path>, sorted: seq<Candidate>) {
    var r := FoldAll(START, sorted, false);
    && mirrors == (set x | x in r.conflicting :: x.path)
    && DistinctCandidates(sorted)
    && (forall w :: w in r.selected && w.kind == PerTarget <==> w == authority)
    && (forall x :: x in r.conflicting ==> exists m :: m in sorted && StaleMirror(authority, x, m))
  }

  /** The strict step on `c` reports `x`, and does nothing else. */
  ghost predicate ConflictedBy(st: Resolution, c: Candidate, x: Conflict) {
    && x.path == c.path
    && FoldStep(st, c, false) == st.(conflicting := st.conflicting + [x])
    && x == ConflictOf(st.winners, c) && x.disputed != map[]
  }

  ghost predicate ConflictedAt(sorted: seq<Candidate>, i: nat, x: Conflict)
    requires i < |sorted|
  {
    ConflictedBy(FoldAll(START, sorted[..i], false), sorted[i], x)
  }

  lemma NewConflict(st: Resolution, c: Candidate, x: Conflict)
    requires x in FoldStep(st, c, false).conflicting && x !in st.conflicting
    ensures ConflictedBy(st, c, x)
  {
    assert x == ConflictOf(st.winners, c);
    assert x.disputed.Keys == Disagreements(st.winners, c);
  }

  lemma {:induction false} ConflictsCameFrom(sorted: seq<Candidate>, n: nat)
    requires n <= |sorted|
    ensures forall x :: x in FoldAll(START, sorted[..n], false).conflicting ==>
              exists i :: 0 <= i < n && ConflictedAt(sorted, i, x)
  {
    if n > 0 {
      ConflictsCameFrom(sorted, n - 1);
      FoldSnoc(START, sorted, n - 1, false);
      var st := FoldAll(START, sorted[..n - 1], false);
      var t := FoldAll(START, sorted[..n], false);
      forall x | x in t.conflicting ensures exists i :: 0 <= i < n && ConflictedAt(sorted, i, x) {
        if x !in st.conflicting {
          NewConflict(st, sorted[n - 1], x);
          assert ConflictedAt(sorted, n - 1, x);
        }
      }
    }
  }

  /** Every conflict arose at one record. */
  lemma {:induction false} ConflictOrigin(sorted: seq<Candidate>, x: Conflict) returns (i: nat)
    requires x in FoldAll(START, sorted, false).conflicting
    ensures i < |sorted| && ConflictedAt(sorted, i, x)
  {
    assert sorted[..|sorted|] == sorted;
    ConflictsCameFrom(sorted, |sorted|);
    i :| 0 <= i < |sorted| && ConflictedAt(sorted, i, x);
  }

  /** Where a mirror stood in the sorted records, its conflict was with the authority,
      which had therefore been selected before it. */
  lemma AuthorityCameFirst(authority: Candidate, mirrors: set<Path>, sorted: seq<Candidate>, n: nat, x: Conflict)
    requires Repairing(authority, mirrors, sorted) && n < |sorted|
    requires x in FoldAll(START, sorted, false).conflicting && ConflictedAt(sorted, n, x)
    ensures authority in FoldAll(START, sorted[..n], false).selected && sorted[n].kind != PerTarget
  {
    var st := FoldAll(START, sorted[..n], false);
    var m := MirrorOf(authority, mirrors, sorted, x);
    var key :| key in x.disputed;
    FoldCoherent(START, sorted[..n], false);
    DisputedWinner(st, sorted[n], key);
    var w := st.winners[key];
    StrictSelectsInput(START, sorted, n);
    assert w in sorted;
    SelectedAreRecords(sorted, authority);
    SameRecord(sorted, w, authority);
  }

  lemma MirrorOf(authority: Candidate, mirrors: set<Path>, sorted: seq<Candidate>, x: Conflict) returns (m: Candidate)
    requires Repairing(authority, mirrors, sorted) && x in FoldAll(START, sorted, false).conflicting
    ensures m in sorted && StaleMirror(authority, x, m)
    ensures authority in FoldAll(START, sorted, false).selected
  {
    m :| m in sorted && StaleMirror(authority, x, m);
  }

  lemma DisputedWinner(st: Resolution, c: Candidate, key: ClaimKey)
    requires Coherent(st) && key in ConflictOf(st.winners, c).disputed
    ensures key in st.winners && st.winners[key] in st.selected
    ensures ConflictOf(st.winners, c).disputed[key] == st.winners[key].path
  {}

  lemma SelectedAreRecords(sorted: seq<Candidate>, w: Candidate)
    requires w in FoldAll(START, sorted, false).selected
    ensures w in sorted
  {
    assert sorted[..|sorted|] == sorted;
    StrictSelectsInput(START, sorted, |sorted|);
  }

  lemma SameRecord(cs: seq<Candidate>, a: Candidate, b: Candidate)
    requires DistinctCandidates(cs) && a in cs && b in cs && a.path == b.path
    ensures a == b
  {}

  lemma ConflictPosition(authority: Candidate, mirrors: set<Path>, sorted: seq<Candidate>, n: nat) returns (x: Conflict)
    requires Repairing(authority, mirrors, sorted) && n < |sorted| && sorted[n].path in mirrors
    ensures x in FoldAll(START, sorted, false).conflicting && ConflictedAt(sorted, n, x)
  {
    x :| x in FoldAll(START, sorted, false).conflicting && x.path == sorted[n].path;
    var i := ConflictOrigin(sorted, x);
    assert i == n;
  }

  lemma ConflictIsReported(sorted: seq<Candidate>, n: nat)
    requires n < |sorted|
    ensures var st := FoldAll(START, sorted[..n], false);
            FoldStep(st, sorted[n], false).conflicting != st.conflicting ==>
              exists x :: x in FoldAll(START, sorted, false).conflicting && x.path == sorted[n].path
  {
    var st := FoldAll(START, sorted[..n], false);
    var t := FoldStep(st, sorted[n], false);
    AroundPosition(sorted, n);
    if t.conflicting != st.conflicting {
      var x := ConflictOf(st.winners, sorted[n]);
      assert t.conflicting == st.conflicting + [x];
      assert x in t.conflicting;
      PrefixMembers(t.conflicting, t.conflicting, FoldAll(START, sorted, false).conflicting);
    }
  }

  /** A record outside the mirrors did not conflict. */
  lemma OthersDidNotConflict(authority: Candidate, mirrors: set<Path>, sorted: seq<Candidate>, n: nat)
    requires Repairing(authority, mirrors, sorted) && n < |sorted| && sorted[n].path !in mirrors
    ensures var st := FoldAll(START, sorted[..n], false);
            FoldStep(st, sorted[n], false).conflicting == st.conflicting
  {
    ConflictIsReported(sorted, n);
  }

  lemma NextInStep(authority: Candidate, mirrors: set<Path>, sorted: seq<Candidate>, n: nat, after: Resolution)
    requires Repairing(authority, mirrors, sorted) && n < |sorted|
    requires InStep(authority, mirrors, FoldAll(START, sorted[..n], false), after)
    ensures var m := Repaired(authority, mirrors, sorted[n]);
            && InStep(authority, mirrors, FoldAll(START, sorted[..n + 1], false), FoldStep(after, m, false))
            && (sorted[n].path in mirrors ==> FoldStep(after, m, false).selected == after.selected + [m])
  {
    var st := FoldAll(START, sorted[..n], false);
    FoldSnoc(START, sorted, n, false);
    if sorted[n].path in mirrors {
      var x := ConflictPosition(authority, mirrors, sorted, n);
      AuthorityCameFirst(authority, mirrors, sorted, n, x);
      FoldCoherent(START, sorted[..n], false);
      SelectedSoFar(sorted, n);
      MirrorStep(authority, mirrors, st, after, sorted[n]);
      StepWithConflict(authority, mirrors, st, FoldStep(after, Repaired(authority, mirrors, sorted[n]), false), x);
    } else {
      OthersDidNotConflict(authority, mirrors, sorted, n);
      OtherStep(authority, mirrors, st, after, sorted[n]);
    }
  }

  lemma SelectedSoFar(sorted: seq<Candidate>, n: nat)
    requires n < |sorted|
    ensures forall w :: w in FoldAll(START, sorted[..n], false).selected ==> w in FoldAll(START, sorted, false).selected
  {
    AroundPosition(sorted, n);
    PrefixMembers(FoldAll(START, sorted[..n], false).selected,
                  FoldStep(FoldAll(START, sorted[..n], false), sorted[n], false).selected,
                  FoldAll(START, sorted, false).selected);
  }

  lemma {:induction false} FoldsInStep(authority: Candidate, mirrors: set<Path>, sorted: seq<Candidate>, n: nat)
    requires Repairing(authority, mirrors, sorted) && n <= |sorted|
    ensures var repaired := RepairedAll(authority, mirrors, sorted);
            InStep(authority, mirrors, FoldAll(START, sorted[..n], false), FoldAll(START, repaired[..n], false))
  {
    if n > 0 {
      FoldsInStep(authority, mirrors, sorted, n - 1);
      StepsTogether(authority, mirrors, sorted, n - 1);
    }
  }

  lemma StepsTogether(authority: Candidate, mirrors: set<Path>, sorted: seq<Candidate>, n: nat)
    requires Repairing(authority, mirrors, sorted) && n < |sorted|
    requires var repaired := RepairedAll(authority, mirrors, sorted);
             InStep(authority, mirrors, FoldAll(START, sorted[..n], false), FoldAll(START, repaired[..n], false))
    ensures var repaired := RepairedAll(authority, mirrors, sorted);
            InStep(authority, mirrors, FoldAll(START, sorted[..n + 1], false), FoldAll(START, repaired[..n + 1], false))
  {
    var after := RepairedFold(authority, mirrors, sorted, n);
    NextInStep(authority, mirrors, sorted, n, after);
  }

  lemma RepairedFold(
      authority: Candidate, mirrors: set<Path>, sorted: seq<Candidate>, n: nat) returns (after: Resolution)
    requires n < |sorted|
    ensures var repaired := RepairedAll(authority, mirrors, sorted);
            && after == FoldAll(START, repaired[..n], false)
            && FoldAll(START, repaired[..n + 1], false) ==
                FoldStep(after, Repaired(authority, mirrors, sorted[n]), false)
  {
    var repaired := RepairedAll(authority, mirrors, sorted);
    after := FoldAll(START, repaired[..n], false);
    FoldSnoc(START, repaired, n, false);
  }

  lemma RepairedIsSelected(authority: Candidate, mirrors: set<Path>, sorted: seq<Candidate>, n: nat)
    requires Repairing(authority, mirrors, sorted) && n < |sorted| && sorted[n].path in mirrors
    ensures var repaired := RepairedAll(authority, mirrors, sorted);
            Repaired(authority, mirrors, sorted[n]) in FoldAll(START, repaired, false).selected
  {
    var repaired := RepairedAll(authority, mirrors, sorted);
    FoldsInStep(authority, mirrors, sorted, n);
    var after := FoldAll(START, repaired[..n], false);
    NextInStep(authority, mirrors, sorted, n, after);
    AroundPosition(repaired, n);
    var next := FoldStep(after, repaired[n], false);
    assert repaired[n] == next.selected[|after.selected|];
    PrefixMembers(next.selected, next.selected, FoldAll(START, repaired, false).selected);
  }

  lemma StepWithConflict(authority: Candidate, mirrors: set<Path>, st: Resolution, after: Resolution, x: Conflict)
    requires InStep(authority, mirrors, st, after)
    ensures InStep(authority, mirrors, st.(conflicting := st.conflicting + [x]), after)
  {}

  lemma {:induction false} AuthoritiesAre(selected: seq<Candidate>)
    ensures forall w :: w in Authorities(selected) <==> w in selected && w.kind == PerTarget
  {
    if selected != [] {
      AuthoritiesAre(selected[1..]);
      assert selected == [selected[0]] + selected[1..];
    }
  }

  lemma OnlyAuthority(selected: seq<Candidate>, authority: Candidate)
    requires |Authorities(selected)| == 1 && Authorities(selected)[0] == authority
    ensures forall w :: w in selected && w.kind == PerTarget <==> w == authority
  {
    AuthoritiesAre(selected);
    assert Authorities(selected) == [authority];
    assert authority in Authorities(selected);
  }

  /** A repairable plan describes the strict fold of the sorted records. */
  lemma PlanIsRepairing(target: Target, records: seq<Record>)
    requires DistinctPaths(records) && PlanRepair(target, records).Repairable?
    ensures var plan, valid := PlanRepair(target, records), ValidRecords(target, records);
            && Repairing(plan.authority, plan.mirrors, Sorting.Sort(valid, CandidateLe))
            && plan.authority in valid && !AnyFatal(target, records)
  {
    var plan, valid := PlanRepair(target, records), ValidRecords(target, records);
    var sorted := Sorting.Sort(valid, CandidateLe);
    var r := FoldAll(START, sorted, false);
    ValidRecordsDistinct(target, records);
    SortDistinct(valid);
    Sorting.SortMembers(valid, CandidateLe);
    OnlyAuthority(r.selected, plan.authority);
    SelectedAreRecords(sorted, plan.authority);
    forall x | x in r.conflicting ensures exists m :: m in sorted && StaleMirror(plan.authority, x, m) {
      var m :| m in valid && StaleMirror(plan.authority, x, m);
      assert m in sorted;
    }
  }

  lemma PlanMeans(target: Target, records: seq<Record>)
    requires DistinctPaths(records) && PlanRepair(target, records).Repairable?
    ensures var plan, valid := PlanRepair(target, records), ValidRecords(target, records);
            && Repairing(plan.authority, plan.mirrors, Sorting.Sort(valid, CandidateLe))
            && !AnyFatal(target, records)
            && plan.authority in valid && Derived(plan.authority)
            && (forall c :: c in valid ==> Copyable(plan.authority, plan.mirrors, c))
            && (forall p :: p in plan.mirrors ==> exists c :: c in valid && c.path == p)
  {
    var plan, valid := PlanRepair(target, records), ValidRecords(target, records);
    PlanIsRepairing(target, records);
    ValidRecordsDerived(target, records);
    ValidRecordsDistinct(target, records);
    Sorting.SortMembers(valid, CandidateLe);
    MirrorsCopyable(valid, plan.authority, plan.mirrors);
  }

  lemma MirrorsCopyable(valid: seq<Candidate>, authority: Candidate, mirrors: set<Path>)
    requires Repairing(authority, mirrors, Sorting.Sort(valid, CandidateLe)) && DistinctCandidates(valid)
    requires authority in valid && forall c :: c in valid ==> Derived(c)
    ensures forall c :: c in valid ==> Copyable(authority, mirrors, c)
    ensures forall p :: p in mirrors ==> exists c :: c in valid && c.path == p
  {
    var sorted := Sorting.Sort(valid, CandidateLe);
    Sorting.SortMembers(valid, CandidateLe);
    forall p | p in mirrors ensures exists c :: c in valid && c.path == p {
      var x :| x in FoldAll(START, sorted, false).conflicting && x.path == p;
      var m := MirrorOf(authority, mirrors, sorted, x);
      assert m in valid;
    }
    forall c | c in valid && c.path in mirrors ensures Copyable(authority, mirrors, c) {
      var x :| x in FoldAll(START, sorted, false).conflicting && x.path == c.path;
      var m := MirrorOf(authority, mirrors, sorted, x);
      assert m in valid;
      MirrorCopyable(valid, authority, mirrors, x, c);
    }
  }

  lemma MirrorCopyable(valid: seq<Candidate>, authority: Candidate, mirrors: set<Path>, x: Conflict, c: Candidate)
    requires DistinctCandidates(valid) && c in valid && x.path == c.path && Derived(authority) && Derived(c)
    requires exists m :: m in valid && StaleMirror(authority, x, m)
    ensures Copyable(authority, mirrors, c)
  {
    var m :| m in valid && StaleMirror(authority, x, m);
    SameRecord(valid, m, c);
    CopyMakesClaimsEqual(authority, c);
  }

  lemma RepairedFolderFold(target: Target, records: seq<Record>)
    requires DistinctPaths(records) && PlanRepair(target, records).Repairable?
    ensures var plan := PlanRepair(target, records);
            var repairedFolder := RepairRecords(plan.authority.payload, plan.mirrors, records);
            && !AnyFatal(target, repairedFolder)
            && Resolved(ValidRecords(target, repairedFolder), false)
            == FoldAll(START, RepairedAll(plan.authority, plan.mirrors,
                Sorting.Sort(ValidRecords(target, records), CandidateLe)), false)
  {
    var plan, valid := PlanRepair(target, records), ValidRecords(target, records);
    PlanMeans(target, records);
    MirrorsAreRead(target, records, plan.mirrors);
    forall r | r in records && ReadRecord(target, r).Valid?
      ensures Copyable(plan.authority, plan.mirrors, ReadRecord(target, r).candidate)
    {
      ValidRecordsAre(target, records, ReadRecord(target, r).candidate);
    }
    RepairedRecordsRead(target, plan.authority, plan.mirrors, records);
    RepairedNotFatal(target, plan.authority, plan.mirrors, records);
    SortCommutes(plan.authority, plan.mirrors, valid);
  }

  lemma RepairedSelection(authority: Candidate, mirrors: set<Path>, sorted: seq<Candidate>)
    requires Repairing(authority, mirrors, sorted)
    ensures var after := FoldAll(START, RepairedAll(authority, mirrors, sorted), false);
            && after.conflicting == []
            && Unrepaired(after.selected, mirrors) == FoldAll(START, sorted, false).selected
            && (forall p :: p in mirrors ==> exists w :: w in after.selected && w.path == p)
            && (forall w :: w in after.selected && w.path in mirrors ==> w.claims == authority.claims)
  {
    var repaired := RepairedAll(authority, mirrors, sorted);
    var after := FoldAll(START, repaired, false);
    FoldsInStep(authority, mirrors, sorted, |sorted|);
    assert sorted[..|sorted|] == sorted && repaired[..|repaired|] == repaired;
    forall p | p in mirrors ensures exists w :: w in after.selected && w.path == p {
      var w := MirrorWasSelected(authority, mirrors, sorted, p);
    }
    forall w | w in after.selected && w.path in mirrors ensures w.claims == authority.claims {
      SelectedAreRecords(repaired, w);
      var i :| 0 <= i < |repaired| && repaired[i] == w;
    }
  }

  lemma MirrorPosition(authority: Candidate, mirrors: set<Path>, sorted: seq<Candidate>, p: Path) returns (i: nat)
    requires Repairing(authority, mirrors, sorted) && p in mirrors
    ensures i < |sorted| && sorted[i].path == p
  {
    var x :| x in FoldAll(START, sorted, false).conflicting && x.path == p;
    i := ConflictOrigin(sorted, x);
  }

  lemma MirrorWasSelected(
      authority: Candidate, mirrors: set<Path>, sorted: seq<Candidate>, p: Path) returns (w: Candidate)
    requires Repairing(authority, mirrors, sorted) && p in mirrors
    ensures w in FoldAll(START, RepairedAll(authority, mirrors, sorted), false).selected && w.path == p
  {
    var i := MirrorPosition(authority, mirrors, sorted, p);
    RepairedIsSelected(authority, mirrors, sorted, i);
    w := Repaired(authority, mirrors, sorted[i]);
  }

  /** Repairing a conflict always works. For every folder whose plan is repairable, copying the
      ownership fields leaves a folder that resolves, and the new selection is the old one with
      exactly the repaired mirrors added, each now claiming just what the authority claims. */
  lemma RepairThenResolve(target: Target, records: seq<Record>)
    requires DistinctPaths(records) && PlanRepair(target, records).Repairable?
    ensures var plan := PlanRepair(target, records);
            var before := ResolveFolder(target, records).evidence.selected;
            var after := ResolveFolder(target, RepairRecords(plan.authority.payload, plan.mirrors, records));
            && after.Selected?
            && Unrepaired(after.selected, plan.mirrors) == before
            && (forall p :: p in plan.mirrors ==> exists w :: w in after.selected && w.path == p)
            && (forall w :: w in after.selected && w.path in plan.mirrors ==> w.claims == plan.authority.claims)
  {
    var plan := PlanRepair(target, records);
    PlanMeans(target, records);
    RepairedFolderFold(target, records);
    RepairedSelection(plan.authority, plan.mirrors, Sorting.Sort(ValidRecords(target, records), CandidateLe));
  }

  lemma MirrorsAreRead(target: Target, records: seq<Record>, mirrors: set<Path>)
    requires DistinctPaths(records)
    requires forall p :: p in mirrors ==> exists c :: c in ValidRecords(target, records) && c.path == p
    ensures forall r :: r in records && r.path in mirrors ==> ReadRecord(target, r).Valid?
  {
    forall r | r in records && r.path in mirrors ensures ReadRecord(target, r).Valid? {
      var c :| c in ValidRecords(target, records) && c.path == r.path;
      ValidRecordsAre(target, records, c);
      var q :| q in records && ReadRecord(target, q) == Valid(c);
      assert q == r;
    }
  }

  // ---- The repair as the source runs it ----

  datatype RepairStatus = Current | Refused | RolledBack | RepairedFolder

  function WithPayload(records: seq<Record>, path: Path, payload: Payload): seq<Record> {
    seq(|records|, i requires 0 <= i < |records| =>
          if records[i].path == path then records[i].(content := Some(payload)) else records[i])
  }

  ghost predicate HadPayload(was: seq<Record>, path: Path, payload: Payload) {
    exists r :: r in was && r.path == path && r.content == Some(payload)
  }

  ghost predicate HasPayload(was: seq<Record>, path: Path) {
    exists r :: r in was && r.path == path && r.content.Some?
  }

  /** Exactly the `committed` mirrors are rewritten, and their original payloads are at hand. */
  ghost predicate Progress(
      was: seq<Record>, now: seq<Record>, authority: Payload, committed: set<Path>, originals: map<Path, Payload>)
  {
    && DistinctPaths(was) && now == RepairRecords(authority, committed, was)
    && originals.Keys == committed
    && forall p :: p in committed ==> HadPayload(was, p, originals[p])
  }

  class ManifestFolder {
    var records: seq<Record>

    constructor (found: seq<Record>)
      ensures records == found
    {
      records := found;
    }

    method ReadPayload(path: Path) returns (payload: Payload)
      requires HasPayload(records, path) && DistinctPaths(records)
      ensures HadPayload(records, path, payload)
    {
      ghost var r :| r in records && r.path == path && r.content.Some?;
      ghost var k :| 0 <= k < |records| && records[k] == r;
      var i := 0;
      while records[i].path != path
        invariant 0 <= i <= k
        decreases k - i
      {
        i := i + 1;
      }
      payload := records[i].content.value;
    }

    /** Read one mirror, then replace it by its repaired payload. */
    method RewriteMirror(
        path: Path, authority: Payload, originals: map<Path, Payload>, ghost committed: set<Path>,
        ghost was: seq<Record>)
        returns (more: map<Path, Payload>)
      requires Progress(was, records, authority, committed, originals) && path !in committed && HasPayload(was, path)
      modifies this
      ensures Progress(was, records, authority, committed + {path}, more)
    {
      StillReadable(was, records, authority, committed, originals, path);
      var original := ReadPayload(path);
      RewriteStep(was, records, authority, committed, originals, path, original);
      records := WithPayload(records, path, CopyOwnership(authority, original));
      more := originals[path := original];
    }

    /** Put the original bytes of a committed mirror back. */
    method Restore(
        path: Path, original: Payload, authority: Payload, ghost committed: set<Path>, ghost was: seq<Record>)
      requires DistinctPaths(was) && records == RepairRecords(authority, committed, was) && path in committed
      requires HadPayload(was, path, original)
      modifies this
      ensures records == RepairRecords(authority, committed - {path}, was)
    {
      records := WithPayload(records, path, original);
    }

    /** `repair_atlas_manifest_mirrors`: write number `failing` raises, and then every mirror
        already written is put back, except those in `stuck`, whose rollback write fails too
        and is ignored. When all writes work the folder resolves, so the verification that
        follows them cannot fail. */
    method RepairMirrors(
        target: Target, failing: nat, stuck: set<Path>) returns (status: RepairStatus, ghost left: set<Path>)
      requires DistinctPaths(records)
      modifies this
      ensures var plan := PlanRepair(target, old(records));
              match status
              case Current => plan.NotNeeded? && records == old(records)
              case Refused => plan.Unrepairable? && records == old(records)
              case RolledBack =>
                && plan.Repairable? && failing < |plan.mirrors| && left <= plan.mirrors * stuck
                && records == RepairRecords(plan.authority.payload, left, old(records))
                && (left == {} ==> records == old(records))
              case RepairedFolder =>
                && plan.Repairable? && failing >= |plan.mirrors|
                && records == RepairRecords(plan.authority.payload, plan.mirrors, old(records))
                && ResolveFolder(target, records).Selected?
    {
      var plan := PlanRepair(target, records);
      left := {};
      if plan.NotNeeded? { return Current, left; }
      if plan.Unrepairable? { return Refused, left; }
      ghost var was := records;
      MirrorsReadable(target, was);
      var ok;
      ok, left := WriteMirrors(plan.authority.payload, plan.mirrors, failing, stuck);
      if !ok {
        assert RepairRecords(plan.authority.payload, {}, was) == was;
        return RolledBack, left;
      }
      RepairThenResolve(target, was);
      return RepairedFolder, left;
    }

    /** The write loop with its rollback. */
    method WriteMirrors(authority: Payload, mirrors: set<Path>, failing: nat, stuck: set<Path>)
        returns (ok: bool, ghost left: set<Path>)
      requires DistinctPaths(records)
      requires forall p :: p in mirrors ==> HasPayload(records, p)
      modifies this
      ensures ok <==> failing >= |mirrors|
      ensures records == RepairRecords(authority, if ok then mirrors else left, old(records))
      ensures left <= mirrors * stuck
    {
      ghost var was := records;
      var todo, count, originals := mirrors, 0, map[];
      assert records == RepairRecords(authority, {}, was);
      while todo != {}
        invariant todo <= mirrors && |todo| + count == |mirrors| && count <= failing
        invariant Progress(was, records, authority, mirrors - todo, originals)
        decreases todo
      {
        if count == failing {
          left := RollBack(authority, mirrors - todo, originals, stuck, was);
          return false, left;
        }
        var path :| path in todo;
        OneMoreDone(mirrors, todo, path);
        originals := RewriteMirror(path, authority, originals, mirrors - todo, was);
        todo, count := todo - {path}, count + 1;
      }
      assert mirrors - todo == mirrors;
      return true, {};
    }

    method RollBack(
        authority: Payload, ghost committed: set<Path>, originals: map<Path, Payload>, stuck: set<Path>,
        ghost was: seq<Record>)
        returns (ghost left: set<Path>)
      requires Progress(was, records, authority, committed, originals)
      modifies this
      ensures left == committed * stuck && records == RepairRecords(authority, left, was)
    {
      var todo := originals.Keys;
      left := committed;
      while todo != {}
        invariant todo <= committed && left == todo + (committed - todo) * stuck
        invariant records == RepairRecords(authority, left, was)
        decreases todo
      {
        var path :| path in todo;
        if path !in stuck {
          Restore(path, originals[path], authority, left, was);
          left := left - {path};
        }
        todo := todo - {path};
      }
    }
  }

  lemma StillReadable(
      was: seq<Record>, now: seq<Record>, authority: Payload, committed: set<Path>, originals: map<Path, Payload>,
      path: Path)
    requires Progress(was, now, authority, committed, originals) && path !in committed && HasPayload(was, path)
    ensures HasPayload(now, path) && DistinctPaths(now)
    ensures forall payload :: HadPayload(now, path, payload) ==> HadPayload(was, path, payload)
  {
    var r :| r in was && r.path == path && r.content.Some?;
    var k :| 0 <= k < |was| && was[k] == r;
    assert now[k] == r && r in now;
    forall q | q in now && q.path == path ensures q == r {
      var j :| 0 <= j < |now| && now[j] == q;
      assert was[j].path == path;
    }
  }

  lemma RewriteStep(
      was: seq<Record>, now: seq<Record>, authority: Payload, committed: set<Path>, originals: map<Path, Payload>,
      path: Path, original: Payload)
    requires Progress(was, now, authority, committed, originals) && path !in committed &&
        HadPayload(was, path, original)
    ensures Progress(was, WithPayload(now, path, CopyOwnership(authority, original)), authority,
                     committed + {path}, originals[path := original])
  {
    var r :| r in was && r.path == path && r.content == Some(original);
    forall i | 0 <= i < |was| && was[i].path == path ensures was[i] == r {
      var k :| 0 <= k < |was| && was[k] == r;
    }
  }

  lemma OneMoreDone(all: set<Path>, todo: set<Path>, path: Path)
    requires todo <= all && path in todo
    ensures all - todo + {path} == all - (todo - {path}) && |todo - {path}| == |todo| - 1
  {}

  lemma CandidateReadable(target: Target, records: seq<Record>, c: Candidate)
    requires c in ValidRecords(target, records)
    ensures HasPayload(records, c.path)
  {
    ValidRecordsAre(target, records, c);
  }

  lemma MirrorsReadable(target: Target, records: seq<Record>)
    requires DistinctPaths(records) && PlanRepair(target, records).Repairable?
    ensures forall p :: p in PlanRepair(target, records).mirrors ==> HasPayload(records, p)
  {
    PlanMeans(target, records);
    forall p | p in PlanRepair(target, records).mirrors ensures HasPayload(records, p) {
      var c :| c in ValidRecords(target, records) && c.path == p;
      CandidateReadable(target, records, c);
    }
  }
}
