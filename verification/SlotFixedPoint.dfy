/** Repeating the reconciliation of slot ownership on one live snapshot
    (atlas_slot_ownership.py): the second pass is always a fixed point, the first one is
    exactly when no provider with live slots had to start without any binding evidence, and
    the rewritten manifests satisfy the resolver. */
module SlotFixedPoint {
  import opened Texts
  import opened ManifestClaims
  import opened SlotOwnership
  import opened SlotReconciliation
  import opened ManifestProjection
  import Sorting

  // ---- Rewriting keeps what the plan depends on ----

  /** Same manifests in the same order, with the same identities and material groups. */
  ghost predicate SameProviders(before: seq<Record>, after: seq<Record>) {
    && |before| == |after|
    && forall i :: 0 <= i < |before| ==>
         && after[i].payload.identity == before[i].payload.identity
         && MaterialGroups(after[i].payload) == MaterialGroups(before[i].payload)
  }

  lemma OwnersKept(before: seq<Record>, after: seq<Record>, material: int, mesh: int)
    requires SameProviders(before, after)
    ensures OwnersOf(before, material, mesh) <= OwnersOf(after, material, mesh)
    ensures (exists r :: r in before && Manages(r, material, mesh)) ==>
        exists r :: r in after && Manages(r, material, mesh)
  {
    forall id | id in OwnersOf(before, material, mesh) ensures id in OwnersOf(after, material, mesh) {
      var r :| r in before && Provides(r, material, mesh) && r.payload.identity == id;
      var i :| 0 <= i < |before| && before[i] == r;
      assert after[i] in after && Provides(after[i], material, mesh);
    }
    if exists r :: r in before && Manages(r, material, mesh) {
      var r :| r in before && Manages(r, material, mesh);
      var i :| 0 <= i < |before| && before[i] == r;
      assert after[i] in after && Manages(after[i], material, mesh);
    }
  }

  lemma SameOwners(before: seq<Record>, after: seq<Record>, material: int, mesh: int)
    requires SameProviders(before, after)
    ensures OwnersOf(before, material, mesh) == OwnersOf(after, material, mesh)
    ensures (exists r :: r in before && Manages(r, material, mesh)) <==>
        exists r :: r in after && Manages(r, material, mesh)
  {
    OwnersKept(before, after, material, mesh);
    ProvidersBack(before, after);
    OwnersKept(after, before, material, mesh);
  }

  lemma ProvidersBack(before: seq<Record>, after: seq<Record>)
    requires SameProviders(before, after)
    ensures SameProviders(after, before)
  {}

  lemma JudgedAlike(before: seq<Record>, after: seq<Record>, live: Live, seen: set<(string, string)>)
    requires SameProviders(before, after)
    ensures Judge(after, live, seen) == Judge(before, live, seen)
  {
    if Readable(live) {
      SameOwners(before, after, live.material.value, live.mesh.value);
    }
  }

  lemma {:induction false} AssignKept(before: seq<Record>, after: seq<Record>, live: seq<Live>)
    requires SameProviders(before, after)
    ensures Assign(after, live) == Assign(before, live)
  {
    if live != [] {
      var n := |live| - 1;
      AssignKept(before, after, live[..n]);
      if Assign(before, live[..n]).Some? {
        JudgedAlike(before, after, live[n], SlotsOf(Assign(before, live[..n]).value));
      }
    }
  }

  // ---- One pass, seen from the record it wrote ----

  /** What every record of a reconciled set looks like. */
  ghost predicate WrittenAs(p: Payload, rows: seq<Binding>, creators: seq<Creator>, spm: int) {
    && p.connection.Some? && p.connection.value.bindings == rows
    && p.ownership == Some(CurrentOwnership(rows, spm))
    && p.provenance == Some(CreationProvenance(creators))
  }

  /** The second pass on a record: its rows become its authored evidence if it has none. */
  function Filled(p: Payload): Payload
    requires p.connection.Some?
  {
    var c := p.connection.value;
    if c.bindings != [] && c.authored.None? then p.(connection := Some(c.(authored := Some(c.bindings)))) else p
  }

  lemma {:induction false} NothingRelinquished(
      history: seq<History>, rows: seq<Binding>, owner: Identity, current: seq<Binding>, owned: seq<Assigned>)
    requires forall b :: b in rows ==> b in current
    ensures Relinquish(history, rows, owner, current, owned) == history
  {
    if rows != [] {
      assert rows[0] in current;
      NothingRelinquished(history, rows[1..], owner, current, owned);
    }
  }

  /** Writing the same rows and creators over themselves only fills in authored evidence. */
  lemma RewriteAgain(
      p: Payload, rows: seq<Binding>, creators: seq<Creator>, again: seq<Creator>, owned: seq<Assigned>, spm: int)
    requires WrittenAs(p, rows, creators, spm) && CreationProvenance(again) == CreationProvenance(creators)
    ensures UpdatedPayload(p, rows, again, owned, spm) == Filled(p)
  {
    var c := p.connection.value;
    var past := if c.relinquished.Some? then c.relinquished.value else [];
    NothingRelinquished(past, rows, p.identity, rows, owned);
  }

  lemma RowsAreValid(slots: seq<Assignment>, rows: seq<Binding>, seen: set<(string, string)>)
    requires DistinctAssignments(slots) && (forall a :: a in slots ==> Complete(a))
    requires |rows| == |slots|
    requires forall i :: 0 <= i < |slots| ==>
               SlotOf(rows[i]) == (slots[i].guid, slots[i].slot) && Targets(rows[i], slots[i])
    requires forall a :: a in slots ==> (a.guid, a.slot) !in seen
    ensures RowsValid(rows, seen)
    decreases |rows|
  {
    if rows != [] {
      assert slots[0] in slots;
      RowsAreValid(slots[1..], rows[1..], seen + {SlotOf(rows[0])});
    }
  }

  lemma OwnershipWritten(records: seq<Record>, live: seq<Live>, owner: Identity, spm: int)
    requires Assign(records, live).Some?
    ensures OwnershipValid(CurrentOwnership(RowsFor(records, live, owner), spm))
  {
    var slots := SlotsFor(Assign(records, live).value, owner);
    SlotsForSound(records, live, owner);
    RowsAreValid(slots, RowsFor(records, live, owner), {});
  }

  // ---- The second pass ----

  lemma UpdateWrites(p: Payload, rows: seq<Binding>, creators: seq<Creator>, owned: seq<Assigned>, spm: int)
    ensures var q := UpdatedPayload(p, rows, creators, owned, spm);
            q.identity == p.identity && MaterialGroups(q) == MaterialGroups(p) && WrittenAs(q, rows, creators, spm)
  {}

  lemma PassWrites(records: seq<Record>, live: seq<Live>, spm: int, i: nat)
    requires Plannable(records, live) && i < |records|
    ensures var r := Reconciled(records, live, spm)[i];
            && r.payload.identity == records[i].payload.identity
            && MaterialGroups(r.payload) == MaterialGroups(records[i].payload)
            && ProviderCreators(records, r.payload.identity).Some?
            && WrittenAs(r.payload, RowsFor(records, live, r.payload.identity),
                         ProviderCreators(records, r.payload.identity).value, spm)
  {
    var r := records[i];
    assert r in records;
    UpdateWrites(r.payload, RowsFor(records, live, r.payload.identity),
        ProviderCreators(records, r.payload.identity).value,
                 Assign(records, live).value, spm);
  }

  lemma PassKeepsProviders(records: seq<Record>, live: seq<Live>, spm: int)
    requires Plannable(records, live)
    ensures SameProviders(records, Reconciled(records, live, spm))
    ensures Assign(Reconciled(records, live, spm), live) == Assign(records, live)
  {
    var after := Reconciled(records, live, spm);
    forall i | 0 <= i < |records|
      ensures after[i].payload.identity == records[i].payload.identity
      ensures MaterialGroups(after[i].payload) == MaterialGroups(records[i].payload)
    {
      PassWrites(records, live, spm, i);
    }
    AssignKept(records, after, live);
  }

  lemma ReconciledAt(records: seq<Record>, live: seq<Live>, spm: int, r: Record)
    requires Plannable(records, live) && r in Reconciled(records, live, spm)
    ensures ProviderCreators(records, r.payload.identity).Some?
    ensures WrittenAs(r.payload, RowsFor(records, live, r.payload.identity),
        ProviderCreators(records, r.payload.identity).value, spm)
  {
    var after := Reconciled(records, live, spm);
    var i :| 0 <= i < |after| && after[i] == r;
    PassWrites(records, live, spm, i);
  }

  /** Every mirror of a provider was written with the same rows and the same creators. */
  lemma PassWritesProvider(records: seq<Record>, live: seq<Live>, spm: int, owner: Identity)
    requires Plannable(records, live) && exists r :: r in records && r.payload.identity == owner
    ensures ProviderCreators(records, owner).Some?
    ensures forall r :: r in Reconciled(records, live, spm) && r.payload.identity == owner ==>
              WrittenAs(r.payload, RowsFor(records, live, owner), ProviderCreators(records, owner).value, spm)
    ensures exists r :: r in Reconciled(records, live, spm) && r.payload.identity == owner
  {
    var after := Reconciled(records, live, spm);
    forall r | r in after && r.payload.identity == owner
      ensures WrittenAs(r.payload, RowsFor(records, live, owner), ProviderCreators(records, owner).value, spm)
    {
      ReconciledAt(records, live, spm, r);
    }
    var q :| q in records && q.payload.identity == owner;
    var k :| 0 <= k < |records| && records[k] == q;
    PassWrites(records, live, spm, k);
    assert after[k] in after;
  }

  /** Planned again, a provider gets the same rows and an equal provenance block. */
  lemma ProviderSettled(records: seq<Record>, live: seq<Live>, spm: int, owner: Identity)
    requires Plannable(records, live) && exists r :: r in records && r.payload.identity == owner
    ensures var after := Reconciled(records, live, spm);
            && Assign(after, live) == Assign(records, live)
            && RowsFor(after, live, owner) == RowsFor(records, live, owner)
            && ProviderCreators(after, owner).Some?
            && CreationProvenance(ProviderCreators(after, owner).value) ==
                CreationProvenance(ProviderCreators(records, owner).value)
            && forall r :: r in after && r.payload.identity == owner ==> CreatorsOf(r.payload).Some?
  {
    var after := Reconciled(records, live, spm);
    var creators := ProviderCreators(records, owner).value;
    PassKeepsProviders(records, live, spm);
    PassWritesProvider(records, live, spm, owner);
    SlotsForSound(records, live, owner);
    RowsStable(records, after, owner, SlotsFor(Assign(records, live).value, owner));
    ProviderCreatorsDistinct(records, owner);
    var sorted := Sorting.Sort(creators, CreatorLe);
    forall r | r in after && r.payload.identity == owner ensures CreatorsOf(r.payload) == Some(sorted) {
      ProvenanceReadsBack(r.payload, creators);
    }
    var q :| q in after && q.payload.identity == owner;
    ProvenanceReadsBack(q.payload, creators);
    CreatorsStable(after, owner, sorted);
  }

  lemma OwnerPresent(records: seq<Record>, live: seq<Live>, spm: int, r: Record)
    requires Plannable(records, live) && r in Reconciled(records, live, spm)
    ensures exists q :: q in records && q.payload.identity == r.payload.identity && MaterialsOf(q) == MaterialsOf(r)
    ensures r.payload.ownership.Some? && OwnershipValid(r.payload.ownership.value)
  {
    var i :| 0 <= i < |records| && Reconciled(records, live, spm)[i] == r;
    PassWrites(records, live, spm, i);
    assert records[i] in records;
    OwnershipWritten(records, live, r.payload.identity, spm);
  }

  /** A reconciled set can be planned again: nothing in it blocks. */
  lemma PlannableAgain(records: seq<Record>, live: seq<Live>, spm: int)
    requires Plannable(records, live)
    ensures Plannable(Reconciled(records, live, spm), live)
  {
    var after := Reconciled(records, live, spm);
    PassKeepsProviders(records, live, spm);
    forall r | r in after ensures RecordAccepted(r) && ProviderCreators(after, r.payload.identity).Some? {
      OwnerPresent(records, live, spm, r);
      ProviderSettled(records, live, spm, r.payload.identity);
    }
    forall r, q | r in after && q in after && r.payload.identity == q.payload.identity
      ensures MaterialsOf(r) == MaterialsOf(q)
    {
      OwnerPresent(records, live, spm, r);
      OwnerPresent(records, live, spm, q);
    }
  }

  /** The second pass changes a record only by filling in missing authored evidence. */
  lemma SecondPass(records: seq<Record>, live: seq<Live>, spm: int, i: nat)
    requires Plannable(records, live) && i < |records|
    ensures var once := Reconciled(records, live, spm);
            var twice := Reconciled(once, live, spm);
            once[i].payload.connection.Some? && twice[i] == once[i].(payload := Filled(once[i].payload))
  {
    var once := Reconciled(records, live, spm);
    PlannableAgain(records, live, spm);
    PassWrites(records, live, spm, i);
    assert records[i] in records && once[i] in once;
    var owner := once[i].payload.identity;
    ProviderSettled(records, live, spm, owner);
    RewriteAgain(once[i].payload, RowsFor(records, live, owner), ProviderCreators(records, owner).value,
                 ProviderCreators(once, owner).value, Assign(records, live).value, spm);
  }

  lemma ThirdPassAt(records: seq<Record>, live: seq<Live>, spm: int, i: nat)
    requires Plannable(records, live) && i < |records|
    ensures var twice := Reconciled(Reconciled(records, live, spm), live, spm);
            Reconciled(twice, live, spm)[i] == twice[i]
  {
    PlannableAgain(records, live, spm);
    SecondPass(records, live, spm, i);
    SecondPass(Reconciled(records, live, spm), live, spm, i);
  }

  /** With f one "plan and write all payloads" on a fixed live snapshot: f(f(f(x))) == f(f(x))
      for every set of records, blocked or not. */
  lemma SecondPassIsFixed(records: seq<Record>, live: seq<Live>, spm: int)
    ensures var twice := Reconciled(Reconciled(records, live, spm), live, spm);
            Reconciled(twice, live, spm) == twice
  {
    if Plannable(records, live) {
      var once := Reconciled(records, live, spm);
      var twice := Reconciled(once, live, spm);
      PlannableAgain(records, live, spm);
      forall i | 0 <= i < |records| ensures Reconciled(twice, live, spm)[i] == twice[i] {
        ThirdPassAt(records, live, spm, i);
      }
    }
  }

  /** The record has evidence to keep as authored, or its provider owns no live slot. */
  predicate Evidenced(r: Record, owned: seq<Assigned>) {
    || ConnectionOf(r.payload).bindings != []
    || ConnectionOf(r.payload).authored.Some?
    || forall a :: a in owned ==> a.owner != r.payload.identity
  }

  lemma FirstPassFixedAt(records: seq<Record>, live: seq<Live>, spm: int, i: nat)
    requires Plannable(records, live) && i < |records|
    ensures var once := Reconciled(records, live, spm);
            Reconciled(once, live, spm)[i] == once[i] <==> Evidenced(records[i], Assign(records, live).value)
  {
    var once := Reconciled(records, live, spm);
    SecondPass(records, live, spm, i);
    SlotsForSound(records, live, records[i].payload.identity);
    assert records[i] in records;
    assert once[i].payload.connection.value.bindings == RowsFor(records, live, records[i].payload.identity);
  }

  /** One pass is already a fixed point, so that the check after the write finds nothing left
      to do, if and only if every record is evidenced; otherwise the apply is rolled back. */
  lemma FirstPassFixedIff(records: seq<Record>, live: seq<Live>, spm: int)
    requires Plannable(records, live)
    ensures var once := Reconciled(records, live, spm);
            Reconciled(once, live, spm) == once <==>
                forall r :: r in records ==> Evidenced(r, Assign(records, live).value)
  {
    var once := Reconciled(records, live, spm);
    var twice := Reconciled(once, live, spm);
    var owned := Assign(records, live).value;
    if twice == once {
      forall r | r in records ensures Evidenced(r, owned) {
        var i :| 0 <= i < |records| && records[i] == r;
        FirstPassFixedAt(records, live, spm, i);
      }
    } else {
      var i :| 0 <= i < |records| && twice[i] != once[i];
      FirstPassFixedAt(records, live, spm, i);
      assert records[i] in records;
    }
  }

  // ---- A folder that one pass does not settle ----

  const PROVIDER := Identity("leaves.blend", "Leaves", "scope")

  const LEAF := Group("leaf", "7", Some(7), {3}, 0, 0)

  /** One manifest that declares a material and has no run evidence at all. */
  const BARE := Record("m.json", PerTarget, Payload(
    "tree.spm", false, true, "m.json", PROVIDER, Some([LEAF]), None, None, None, None, 0, 0, 0))

  /** One live slot that uses that material. */
  const SLOT := Live("guid", "slot", "0", "Leaf", "leaf", Some(7), Some(3))

  lemma BareMaterials()
    ensures MaterialsOf(BARE) == Some(map[7 := Material("leaf", {3})])
  {
    assert MaterialGroups(BARE.payload) == [LEAF] && [LEAF][..0] == [];
    assert Materials([]) == Some(map[]) && (set m | m in LEAF.meshIds && m > 0) == {3};
    assert Materials([LEAF]) == Some(map[][7 := Material("leaf", {3})]);
  }

  lemma BareOwned()
    ensures Judge([BARE], SLOT, {}) == Owned(PROVIDER)
  {
    BareMaterials();
    var owners := OwnersOf([BARE], 7, 3);
    assert Provides(BARE, 7, 3) && BARE in [BARE];
    assert owners == {PROVIDER};
  }

  lemma BareAssigned()
    ensures Assign([BARE], [SLOT]) == Some([Assigned(PROVIDER, ToAssignment(SLOT))])
  {
    BareOwned();
    assert [SLOT][..0] == [] && Assign([BARE], []) == Some([]) && SlotsOf([]) == {};
    assert [] + [Assigned(PROVIDER, ToAssignment(SLOT))] == [Assigned(PROVIDER, ToAssignment(SLOT))];
  }

  lemma BarePlannable()
    ensures Plannable([BARE], [SLOT])
  {
    BareMaterials();
    BareAssigned();
    assert TemplateRows(BARE.payload) == [] && CreatorsOf(BARE.payload) == Some([]);
    assert [BARE][..0] == [] && ProviderCreators([], PROVIDER) == Some([]);
    assert ProviderCreators([BARE], PROVIDER) == WithCreators(Some([]), []);
  }

  /** One pass over this folder is no fixed point. */
  lemma BareNotFixed(spm: int)
    ensures Plannable([BARE], [SLOT])
    ensures var once := Reconciled([BARE], [SLOT], spm); Reconciled(once, [SLOT], spm) != once
  {
    BarePlannable();
    BareAssigned();
    var owned := Assign([BARE], [SLOT]).value;
    assert Assigned(PROVIDER, ToAssignment(SLOT)) in owned && BARE in [BARE];
    assert !Evidenced(BARE, owned);
    FirstPassFixedIff([BARE], [SLOT], spm);
  }

  // ---- No evidence is lost ----

  lemma {:induction false} RelinquishedKept(
      history: seq<History>, rows: seq<Binding>, owner: Identity, current: seq<Binding>, owned: seq<Assigned>,
      b: Binding)
    requires b in rows && !Retained(b, current)
    ensures HistoryOf(b, owner, owned) in Relinquish(history, rows, owner, current, owned)
    decreases |rows|
  {
    var h := HistoryOf(rows[0], owner, owned);
    if b == rows[0] {
      var next := if h in history then history else history + [h];
      assert h in next;
    } else {
      assert b in rows[1..];
      var next := if Retained(rows[0], current) || h in history then history else history + [h];
      RelinquishedKept(next, rows[1..], owner, current, owned, b);
    }
  }

  /** A rewrite loses no evidence: each row a record owned either still stands with the same
      Material and Mesh or is in its relinquished history with its successor; earlier history
      is kept, and authored bindings, once there, never change. */
  lemma NoEvidenceLost(records: seq<Record>, live: seq<Live>, spm: int, i: nat, b: Binding)
    requires Plannable(records, live) && i < |records|
    ensures var p, q := records[i].payload, Reconciled(records, live, spm)[i].payload;
            var before, after := ConnectionOf(p), ConnectionOf(q);
            && (b in CurrentBindings(p) && !Retained(b, CurrentBindings(q)) ==>
                 after.relinquished.Some? &&
                     HistoryOf(b, p.identity, Assign(records, live).value) in after.relinquished.value)
            && (before.relinquished.Some? ==>
                after.relinquished.Some? && before.relinquished.value <= after.relinquished.value)
            && (before.authored.Some? ==> after.authored == before.authored)
            && (before.authored.None? && before.bindings != [] ==> after.authored == Some(before.bindings))
  {
    assert records[i] in records;
    var p, rows, owned := records[i].payload, RowsFor(records, live, records[i].payload.identity),
        Assign(records, live).value;
    var past := if ConnectionOf(p).relinquished.Some? then ConnectionOf(p).relinquished.value else [];
    if b in CurrentBindings(p) && !Retained(b, rows) {
      RelinquishedKept(past, CurrentBindings(p), p.identity, rows, owned, b);
    }
  }

  // ---- What the resolver makes of the rewritten manifests ----

  /** The row that the claim of a Generator slot comes from. */
  ghost predicate ClaimedBy(claim: Claim, key: ClaimKey, rows: seq<Binding>, identity: Identity) {
    exists b :: b in rows && key == GeneratorSlot(GuidOwner(b.guid), b.slot)
      && b.material.Some? && b.mesh.Some?
      && claim == SlotClaim(identity, GuidOwner(b.guid), b.slot, b.material.value, b.mesh.value)
  }

  /** Valid explicit rows load, and each slot claim that they add comes from one of them. */
  lemma {:induction false} ExplicitRowsLoad(
      claims: Claims, seen: set<ClaimKey>, slots: set<(string, string)>, rows: seq<Binding>, identity: Identity)
    requires RowsValid(rows, slots)
    requires forall key :: key in seen ==>
        key.GeneratorSlot? && key.owner.GuidOwner? && (key.owner.guid, key.slot) in slots
    ensures var r := WithBindings(claims, seen, rows, true, identity);
            && r.Ok?
            && forall key :: key in r.claims && key.GeneratorSlot? ==>
                 (key in claims && r.claims[key] == claims[key]) || ClaimedBy(r.claims[key], key, rows, identity)
    decreases |rows|
  {
    if rows != [] {
      var b := rows[0];
      var key := GeneratorSlot(GuidOwner(b.guid), b.slot);
      assert key !in seen;
      var claim := SlotClaim(identity, key.owner, b.slot, b.material.value, b.mesh.value);
      ExplicitRowsLoad(claims[key := claim], seen + {key}, slots + {SlotOf(b)}, rows[1..], identity);
      var r := WithBindings(claims, seen, rows, true, identity);
      assert r == WithBindings(claims[key := claim], seen + {key}, rows[1..], true, identity);
      forall k | k in r.claims && k.GeneratorSlot?
        ensures (k in claims && r.claims[k] == claims[k]) || ClaimedBy(r.claims[k], k, rows, identity)
      {
        if ClaimedBy(r.claims[k], k, rows[1..], identity) {
          var c :| c in rows[1..] && k == GeneratorSlot(GuidOwner(c.guid), c.slot) && c.material.Some? && c.mesh.Some?
            && r.claims[k] == SlotClaim(identity, GuidOwner(c.guid), c.slot, c.material.value, c.mesh.value);
          assert c in rows;
        } else if k == key {
          assert b in rows;
        }
      }
    }
  }

  lemma {:induction false} DistinctCreatorsValid(cs: seq<Creator>, seen: set<(string, string)>)
    requires DistinctCreators(cs) && forall c :: c in cs ==> CreatorSlot(c) !in seen
    ensures CreatorsValid(cs, seen)
    decreases |cs|
  {
    if cs != [] {
      assert cs[0] in cs;
      DistinctCreatorsValid(cs[1..], seen + {CreatorSlot(cs[0])});
    }
  }

  lemma WrittenProvenanceValid(creators: seq<Creator>)
    requires DistinctCreators(creators)
    ensures ProvenanceValid(CreationProvenance(creators))
  {
    SortCreatorsDistinct(creators);
    DistinctCreatorsValid(Sorting.Sort(creators, CreatorLe), {});
  }

  lemma WrittenLoads(p: Payload, rows: seq<Binding>, creators: seq<Creator>, spm: int, kind: Kind)
    requires WrittenAs(p, rows, creators, spm) && DistinctCreators(creators) &&
        OwnershipValid(CurrentOwnership(rows, spm))
    ensures ClaimsOf(p, kind).Ok?
    ensures forall key :: key in ClaimsOf(p, kind).claims && key.GeneratorSlot? ==>
              ClaimedBy(ClaimsOf(p, kind).claims[key], key, rows, p.identity)
  {
    WrittenProvenanceValid(creators);
    GroupsKeysAreMaterials(MaterialGroups(p));
    var groups := WithGroups(map[], MaterialGroups(p), p.identity);
    ExplicitRowsLoad(groups, {}, {}, rows, p.identity);
    ValidBlocksLoad(p, kind, WithBindings(groups, {}, rows, true, p.identity));
  }

  /** With valid blocks the claims are those of the groups and rows, unless there are none. */
  lemma ValidBlocksLoad(p: Payload, kind: Kind, all: Loaded)
    requires p.provenance.Some? && ProvenanceValid(p.provenance.value)
    requires p.ownership.Some? && OwnershipValid(p.ownership.value)
    requires all == WithBindings(WithGroups(map[], MaterialGroups(p), p.identity), {}, p.ownership.value.bindings,
        true, p.identity)
    requires all.Ok?
    ensures ClaimsOf(p, kind).Ok?
    ensures forall key :: key in ClaimsOf(p, kind).claims && key.GeneratorSlot? ==>
              key in all.claims && ClaimsOf(p, kind).claims[key] == all.claims[key]
  {}

  /** The resolver accepts every rewritten manifest, and each Generator slot claim in it comes
      from one of the provider's rows. */
  lemma RewrittenLoads(records: seq<Record>, live: seq<Live>, spm: int, i: nat, kind: Kind)
    requires Plannable(records, live) && i < |records|
    ensures var p := Reconciled(records, live, spm)[i].payload;
            && ClaimsOf(p, kind).Ok?
            && forall key :: key in ClaimsOf(p, kind).claims && key.GeneratorSlot? ==>
                 ClaimedBy(ClaimsOf(p, kind).claims[key], key, RowsFor(records, live, p.identity), p.identity)
  {
    var p := Reconciled(records, live, spm)[i].payload;
    PassWrites(records, live, spm, i);
    OwnershipWritten(records, live, p.identity, spm);
    ProviderCreatorsDistinct(records, p.identity);
    WrittenLoads(p, RowsFor(records, live, p.identity), ProviderCreators(records, p.identity).value, spm, kind);
  }

  /** A row was written for one assigned slot of its provider. */
  lemma RowWasAssigned(records: seq<Record>, live: seq<Live>, owner: Identity, b: Binding) returns (k: nat)
    requires Assign(records, live).Some? && b in RowsFor(records, live, owner)
    ensures var owned := Assign(records, live).value;
            k < |owned| && owned[k].owner == owner && SlotAt(owned, k) == SlotOf(b) && Targets(b, owned[k].binding)
  {
    var owned := Assign(records, live).value;
    var rows, slots := RowsFor(records, live, owner), SlotsFor(owned, owner);
    var i :| 0 <= i < |rows| && rows[i] == b;
    Sorting.SortMembers(BindingsOf(owned, owner), AssignmentLe);
    BindingsOfMembers(owned, owner);
    assert slots[i] in slots;
    var a :| a in owned && a.owner == owner && a.binding == slots[i];
    k :| 0 <= k < |owned| && owned[k] == a;
  }

  /** Reconciled manifests cannot disagree on slots: any two of them, of one provider or of
      two, that claim the same Generator slot make the same claim. */
  lemma SlotClaimsNeverDiffer(
      records: seq<Record>, live: seq<Live>, spm: int, i: nat, j: nat, iKind: Kind, jKind: Kind, key: ClaimKey)
    requires Plannable(records, live) && i < |records| && j < |records| && key.GeneratorSlot?
    ensures var a, b := Reconciled(records, live, spm)[i].payload, Reconciled(records, live, spm)[j].payload;
            && ClaimsOf(a, iKind).Ok? && ClaimsOf(b, jKind).Ok?
            && (key in ClaimsOf(a, iKind).claims && key in ClaimsOf(b, jKind).claims ==>
                 a.identity == b.identity && ClaimsOf(a, iKind).claims[key] == ClaimsOf(b, jKind).claims[key])
  {
    var a, b := Reconciled(records, live, spm)[i].payload, Reconciled(records, live, spm)[j].payload;
    RewrittenLoads(records, live, spm, i, iKind);
    RewrittenLoads(records, live, spm, j, jKind);
    if key in ClaimsOf(a, iKind).claims && key in ClaimsOf(b, jKind).claims {
      OneSlotOneClaim(records, live, a.identity, b.identity, key, ClaimsOf(a, iKind).claims[key],
          ClaimsOf(b, jKind).claims[key]);
    }
  }

  lemma OneSlotOneClaim(
      records: seq<Record>, live: seq<Live>, a: Identity, b: Identity, key: ClaimKey, x: Claim, y: Claim)
    requires Assign(records, live).Some?
    requires ClaimedBy(x, key, RowsFor(records, live, a), a) && ClaimedBy(y, key, RowsFor(records, live, b), b)
    ensures a == b && x == y
  {
    var k := ClaimedSlot(records, live, a, key, x);
    var m := ClaimedSlot(records, live, b, key, y);
    AssignedSound(records, live);
    assert SlotAt(Assign(records, live).value, k) == SlotAt(Assign(records, live).value, m);
  }

  lemma ClaimedSlot(
      records: seq<Record>, live: seq<Live>, owner: Identity, key: ClaimKey, claim: Claim) returns (k: nat)
    requires Assign(records, live).Some? && ClaimedBy(claim, key, RowsFor(records, live, owner), owner)
    ensures var owned := Assign(records, live).value;
            && k < |owned| && owned[k].owner == owner &&
                key == GeneratorSlot(GuidOwner(SlotAt(owned, k).0), SlotAt(owned, k).1)
            && claim == SlotClaim(owner, key.owner, key.slot, owned[k].binding.material, owned[k].binding.mesh)
  {
    var b :| b in RowsFor(records, live, owner) && key == GeneratorSlot(GuidOwner(b.guid), b.slot)
      && b.material.Some? && b.mesh.Some?
      && claim == SlotClaim(owner, GuidOwner(b.guid), b.slot, b.material.value, b.mesh.value);
    k := RowWasAssigned(records, live, owner, b);
  }
}
