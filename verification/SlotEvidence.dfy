/** Where the content of a rewritten manifest comes from (atlas_slot_ownership.py): who supplies a
    Material/Mesh pair, which evidence a row inherits, and what becomes of creators and history. All
    of it is told by the fields of the manifests. */
module SlotEvidence {
  import opened Texts
  import opened ManifestClaims
  import opened SlotOwnership
  import opened SlotReconciliation
  import opened SlotFixedPoint
  import opened SlotCoverage
  import Sorting

  // ---- Who supplies a pair ----

  predicate Declares(g: Group, id: int) { id > 0 && g.idNumber == Some(id) }

  predicate SameMaterial(g: Group, h: Group) {
    g.name == h.name && forall m :: m in g.meshIds + h.meshIds && m > 0 ==> m in g.meshIds && m in h.meshIds
  }

  /** The groups of one positive ID say the same thing. */
  ghost predicate OneMaterialEach(groups: seq<Group>) {
    forall g, h, id :: g in groups && h in groups && Declares(g, id) && Declares(h, id) ==> SameMaterial(g, h)
  }

  ghost predicate Row(all: map<int, Material>, g: Group, id: int) {
    id in all && all[id].name == g.name && forall m :: m in all[id].meshIds <==> m > 0 && m in g.meshIds
  }

  lemma {:induction false} MaterialsMean(groups: seq<Group>)
    ensures Materials(groups).Some? <==> OneMaterialEach(groups)
    ensures Materials(groups).Some? ==> Tells(Materials(groups).value, groups)
  {
    if groups != [] {
      var n := |groups| - 1;
      var before, g := groups[..n], groups[n];
      assert groups == before + [g];
      MaterialsMean(before);
      if Materials(before).None? {
        assert OneMaterialEach(groups) ==> OneMaterialEach(before);
      } else if g.idNumber.Some? && g.idNumber.value > 0 {
        MaterialsSnoc(before, g, g.idNumber.value);
      } else {
        assert forall id :: !Declares(g, id);
        assert OneMaterialEach(groups) <==> OneMaterialEach(before);
      }
    }
  }

  /** The table describes just these groups. */
  ghost predicate Tells(all: map<int, Material>, groups: seq<Group>) {
    && (forall id :: id in all ==> exists g :: g in groups && Declares(g, id))
    && forall g, id :: g in groups && Declares(g, id) ==> Row(all, g, id)
  }

  lemma MaterialsSnoc(before: seq<Group>, g: Group, id: int)
    requires Declares(g, id) && Materials(before).Some? && OneMaterialEach(before) &&
        Tells(Materials(before).value, before)
    ensures var groups := before + [g];
            && (Materials(groups).Some? <==> OneMaterialEach(groups))
            && (Materials(groups).Some? ==> Tells(Materials(groups).value, groups))
  {
    var groups, was := before + [g], Materials(before).value;
    assert groups[..|before|] == before;
    assert forall h :: h in groups <==> h in before || h == g;
    if id in was {
      OldMaterial(before, g, id, was);
    } else {
      NewMaterial(before, g, id, was);
    }
  }

  lemma OldMaterial(before: seq<Group>, g: Group, id: int, was: map<int, Material>)
    requires Declares(g, id) && OneMaterialEach(before) && Tells(was, before) && id in was
    ensures was[id] == Material(g.name, set m | m in g.meshIds && m > 0) <==> OneMaterialEach(before + [g])
    ensures was[id] == Material(g.name, set m | m in g.meshIds && m > 0) ==> Tells(was, before + [g])
  {
    var groups := before + [g];
    assert forall h :: h in groups <==> h in before || h == g;
    var h :| h in before && Declares(h, id);
    SameRow(was, h, g, id);
    assert h in groups && g in groups;
    forall a | a in before && Declares(a, id)
      ensures was[id] == Material(g.name, set m | m in g.meshIds && m > 0) <==> SameMaterial(a, g)
    {
      SameRow(was, a, g, id);
    }
  }

  lemma NewMaterial(before: seq<Group>, g: Group, id: int, was: map<int, Material>)
    requires Declares(g, id) && OneMaterialEach(before) && Tells(was, before) && id !in was
    ensures OneMaterialEach(before + [g])
    ensures Tells(was[id := Material(g.name, set m | m in g.meshIds && m > 0)], before + [g])
  {
    var groups := before + [g];
    assert forall h :: h in groups <==> h in before || h == g;
    assert forall a :: a in before && Declares(a, id) ==> Row(was, a, id);
    assert g in groups;
  }

  lemma SameRow(was: map<int, Material>, h: Group, g: Group, id: int)
    requires Row(was, h, id)
    ensures was[id] == Material(g.name, set m | m in g.meshIds && m > 0) <==> SameMaterial(h, g)
  {
    var mine := set m | m in g.meshIds && m > 0;
    if SameMaterial(h, g) {
      forall m ensures m in was[id].meshIds <==> m in mine {
        assert m > 0 ==> (m in h.meshIds + g.meshIds ==> m in h.meshIds && m in g.meshIds);
      }
    }
  }

  /** Some group of the record holds the pair; the default cutout, -10, goes with any mesh set. */
  ghost predicate Supplies(p: Payload, material: int, mesh: int) {
    exists g :: g in MaterialGroups(p) && Declares(g, material) && (mesh == -10 || (mesh > 0 && mesh in g.meshIds))
  }

  /** Some group of the record names the material, or holds the positive mesh. */
  ghost predicate Touches(p: Payload, material: int, mesh: int) {
    exists g, id :: g in MaterialGroups(p) && Declares(g, id) && (id == material || (mesh > 0 && mesh in g.meshIds))
  }

  lemma SuppliesIff(r: Record, material: int, mesh: int)
    requires MaterialsOf(r).Some?
    ensures Provides(r, material, mesh) <==> Supplies(r.payload, material, mesh)
    ensures Manages(r, material, mesh) <==> Touches(r.payload, material, mesh)
  {
    var groups, all := MaterialGroups(r.payload), MaterialsOf(r).value;
    MaterialsMean(groups);
    if Provides(r, material, mesh) {
      var g :| g in groups && Declares(g, material);
      assert Row(all, g, material);
    }
    if Manages(r, material, mesh) {
      var id :| id in all && (id == material || (mesh > 0 && mesh in all[id].meshIds));
      var g :| g in groups && Declares(g, id);
      assert Row(all, g, id);
    }
    if g, id :| g in groups && Declares(g, id) && (id == material || (mesh > 0 && mesh in g.meshIds)) {
      assert Row(all, g, id);
    }
  }

  /** When materials are sound, the owners of a pair are the providers that supply it. */
  lemma OwnersMean(records: seq<Record>, material: int, mesh: int, owner: Identity)
    requires forall r :: r in records ==> MaterialsOf(r).Some?
    ensures owner in OwnersOf(records, material, mesh) <==>
              exists r :: r in records && r.payload.identity == owner && Supplies(r.payload, material, mesh)
  {
    forall r | r in records ensures Provides(r, material, mesh) <==> Supplies(r.payload, material, mesh) {
      SuppliesIff(r, material, mesh);
    }
  }

  // ---- What a row inherits ----

  predicate InEvidence(p: Payload, row: Binding) {
    && p.connection.Some?
    && (row in p.connection.value.bindings
        || (p.connection.value.authored.Some? && row in p.connection.value.authored.value))
  }

  /** `row` is what `owner` knows about a slot, by its record `r`. */
  predicate Evidence(records: seq<Record>, owner: Identity, slot: (string, string), r: Record, row: Binding) {
    r in records && r.payload.identity == owner && (row.guid, row.slot) == slot && InEvidence(r.payload, row)
  }

  lemma {:induction false} RowsAtAre(rows: seq<Binding>, slot: (string, string), r: Record, t: Template)
    ensures t in RowsAt(rows, slot, r) <==>
              t.row in rows && (t.row.guid, t.row.slot) == slot && t.precedence == Precedence(r.kind) &&
                  t.path == r.path
  {
    if rows != [] {
      assert rows == [rows[0]] + rows[1..];
      RowsAtAre(rows[1..], slot, r, t);
    }
  }

  ghost predicate FromRecord(records: seq<Record>, owner: Identity, slot: (string, string), t: Template) {
    exists r :: Evidence(records, owner, slot, r, t.row) && t.precedence == Precedence(r.kind) && t.path == r.path
  }

  lemma {:induction false} TemplatesAre(records: seq<Record>, owner: Identity, slot: (string, string), t: Template)
    ensures t in Templates(records, owner, slot) <==> FromRecord(records, owner, slot, t)
  {
    if records != [] {
      var r, rest := records[0], records[1..];
      assert records == [r] + rest;
      TemplatesAre(rest, owner, slot, t);
      RowsAtAre(TemplateRows(r.payload), slot, r, t);
      assert InEvidence(r.payload, t.row) <==> t.row in TemplateRows(r.payload);
      assert FromRecord(records, owner, slot, t) <==>
          || FromRecord(rest, owner, slot, t)
          || (Evidence(records, owner, slot, r, t.row) && t.precedence == Precedence(r.kind) && t.path == r.path);
    }
  }

  predicate Fits(row: Binding, b: Binding) { row.material == b.material && row.mesh == b.mesh }

  predicate KindBefore(a: Kind, b: Kind) {
    (a == PerTarget && b != PerTarget) || (a == TargetScope && b == GlobalTarget)
  }

  /** For the written row `b`, the first piece of evidence comes before the second: it fits the live
      pair and the other does not; or, if both or neither fit, its manifest is of a stronger kind, or
      of the same kind with a path no later. */
  predicate Prior(b: Binding, r: Record, row: Binding, q: Record, other: Binding) {
    if Fits(row, b) != Fits(other, b) then Fits(row, b)
    else KindBefore(r.kind, q.kind) || (r.kind == q.kind && TextLe(r.path, q.path))
  }

  /** The row carries on the evidence: its free part, and its state if it already fitted. */
  ghost predicate Inherits(records: seq<Record>, owner: Identity, b: Binding, r: Record, row: Binding) {
    && Evidence(records, owner, (b.guid, b.slot), r, row)
    && b.rest == row.rest && b.state == (if Fits(row, b) then row.state else "reconciled_live_owner")
    && forall q, other :: Evidence(records, owner, (b.guid, b.slot), q, other) ==> Prior(b, r, row, q, other)
  }

  /** Every written row carries on the first piece of evidence that its provider has about the slot;
      without evidence it starts bare. */
  lemma EveryRowInherits(records: seq<Record>, live: seq<Live>, spm: int, i: nat, b: Binding)
    requires Plannable(records, live) && i < |records| && b in Written(Reconciled(records, live, spm)[i].payload)
    ensures var owner := records[i].payload.identity;
            || (exists r, row :: Inherits(records, owner, b, r, row))
            || (&& (forall r, row :: !Evidence(records, owner, (b.guid, b.slot), r, row))
                && b.rest == 0 && b.state == "reconciled_live_owner")
    ensures b.hasTarget && !b.created && b.creation == 0
  {
    var owner := records[i].payload.identity;
    WrittenRows(records, live, spm, i);
    var slots, rows := SlotsFor(Assign(records, live).value, owner), RowsFor(records, live, owner);
    var k :| 0 <= k < |rows| && rows[k] == b;
    BestInherits(records, owner, slots[k], b);
  }

  lemma BestInherits(records: seq<Record>, owner: Identity, a: Assignment, b: Binding)
    requires b == CurrentRow(a, Best(a, Templates(records, owner, (a.guid, a.slot))))
    ensures || (exists r, row :: Inherits(records, owner, b, r, row))
            || (&& (forall r, row :: !Evidence(records, owner, (b.guid, b.slot), r, row))
                && b.rest == 0 && b.state == "reconciled_live_owner")
  {
    var slot := (a.guid, a.slot);
    var ts := Templates(records, owner, slot);
    BestIsMember(a, ts);
    if ts == [] {
      forall r, row ensures !Evidence(records, owner, slot, r, row) {
        if Evidence(records, owner, slot, r, row) { EvidenceIsTemplate(records, owner, slot, r, row); }
      }
    } else {
      var best := Best(a, ts).value;
      TemplatesAre(records, owner, slot, best);
      var r :| Evidence(records, owner, slot, r, best.row) && best.precedence == Precedence(r.kind) &&
          best.path == r.path;
      forall q, other | Evidence(records, owner, slot, q, other) ensures Prior(b, r, best.row, q, other) {
        EvidenceIsTemplate(records, owner, slot, q, other);
        BestIsLeast(a, ts, Template(other, Precedence(q.kind), q.path));
      }
      assert Inherits(records, owner, b, r, best.row);
    }
  }

  lemma EvidenceIsTemplate(records: seq<Record>, owner: Identity, slot: (string, string), r: Record, row: Binding)
    requires Evidence(records, owner, slot, r, row)
    ensures Template(row, Precedence(r.kind), r.path) in Templates(records, owner, slot)
  {
    TemplatesAre(records, owner, slot, Template(row, Precedence(r.kind), r.path));
  }

  // ---- Creators ----

  /** What a record says about who created a slot: its explicit block, else its created rows. */
  ghost predicate Credits(p: Payload, c: Creator) {
    if p.provenance.Some? then c in p.provenance.value.slots
    else exists row :: InEvidence(p, row) && row.created && IsCredit(c, row)
  }

  /** The creator row of a created binding says what the binding says, whatever its state. */
  predicate IsCredit(c: Creator, row: Binding) {
    c.guid == row.guid && c.slot == row.slot && c.body == FromBinding(row.(state := "", created := false))
  }

  lemma {:induction false} LegacyCreatorsAre(rows: seq<Binding>, c: Creator)
    ensures c in LegacyCreators(rows) <==> exists row :: row in rows && row.created && IsCredit(c, row)
  {
    if rows != [] {
      assert rows == [rows[0]] + rows[1..];
      LegacyCreatorsAre(rows[1..], c);
    }
  }

  ghost predicate Sound(cs: seq<Creator>) {
    && (forall c :: c in cs ==> c.guid != "" && c.slot != "")
    && forall c, d :: c in cs && d in cs && c.guid == d.guid && c.slot == d.slot ==> c == d
  }

  lemma {:induction false} WithCreatorsAre(creators: seq<Creator>, more: seq<Creator>, c: Creator)
    requires Sound(creators)
    ensures WithCreators(Some(creators), more).Some? <==> Sound(creators + more)
    ensures WithCreators(Some(creators), more).Some? ==>
              (c in WithCreators(Some(creators), more).value <==> c in creators || c in more)
    decreases |more|
  {
    if more == [] {
      assert creators + more == creators;
    } else {
      var next := WithCreator(Some(creators), more[0]);
      assert forall d :: d in creators + more <==> d in creators || d == more[0] || d in more[1..];
      if next.None? {
        NoCreators(more[1..]);
        NotSound(creators, more);
      } else {
        assert forall d :: d in next.value <==> d in creators || d == more[0];
        assert forall d :: d in next.value + more[1..] <==> d in creators + more;
        WithCreatorsAre(next.value, more[1..], c);
      }
    }
  }

  lemma NotSound(creators: seq<Creator>, more: seq<Creator>)
    requires more != [] && WithCreator(Some(creators), more[0]).None?
    ensures !Sound(creators + more)
  {
    var c := more[0];
    assert c == (creators + more)[|creators|] && c in creators + more;
    if c.guid != "" && c.slot != "" {
      var d :| d in creators && CreatorSlot(d) == CreatorSlot(c);
      assert d in creators + more && c != d;
    }
  }

  lemma CreatorsAre(p: Payload, c: Creator)
    requires CreatorsOf(p).Some?
    ensures c in CreatorsOf(p).value <==> Credits(p, c)
  {
    if p.provenance.None? {
      LegacyCreatorsAre(TemplateRows(p), c);
      assert forall row :: InEvidence(p, row) <==> row in TemplateRows(p);
    } else {
      var slots := p.provenance.value.slots;
      assert [] + slots == slots;
      WithCreatorsAre([], slots, c);
      Sorting.SortMembers(WithCreators(Some([]), slots).value, CreatorLe);
    }
  }

  ghost predicate Credited(records: seq<Record>, owner: Identity, c: Creator) {
    exists r :: r in records && r.payload.identity == owner && Credits(r.payload, c)
  }

  lemma {:induction false} ProviderCreatorsAre(records: seq<Record>, owner: Identity, c: Creator)
    requires ProviderCreators(records, owner).Some?
    ensures c in ProviderCreators(records, owner).value <==> Credited(records, owner, c)
    ensures Sound(ProviderCreators(records, owner).value)
  {
    if records != [] {
      var n := |records| - 1;
      var before, r := records[..n], records[n];
      assert records == before + [r];
      ProviderCreatorsAre(before, owner, c);
      if r.payload.identity == owner {
        var was, more := ProviderCreators(before, owner).value, CreatorsOf(r.payload).value;
        WithCreatorsAre(was, more, c);
        CreatorsAre(r.payload, c);
        StaysSound(was, more);
      }
      assert Credited(records, owner, c) <==>
          Credited(before, owner, c) || (r.payload.identity == owner && Credits(r.payload, c));
    }
  }

  lemma StaysSound(was: seq<Creator>, more: seq<Creator>)
    requires Sound(was) && WithCreators(Some(was), more).Some?
    ensures Sound(WithCreators(Some(was), more).value)
  {
    var all := WithCreators(Some(was), more).value;
    forall c ensures c in all <==> c in was + more {
      WithCreatorsAre(was, more, c);
    }
    if all != [] { WithCreatorsAre(was, more, all[0]); }
        else { WithCreatorsAre(was, more, Creator("", "", Recorded(0))); }
  }

  /** Every rewritten manifest credits exactly the creators that its provider's manifests credited
      before, one for each slot; the block counts them and is sealed. */
  lemma CreatorsAreKept(records: seq<Record>, live: seq<Live>, spm: int, i: nat, c: Creator)
    requires Plannable(records, live) && i < |records|
    ensures var q := Reconciled(records, live, spm)[i].payload;
            && q.provenance.Some? && q.provenance.value.sound && q.provenance.value.count == |q.provenance.value.slots|
            && (c in q.provenance.value.slots <==> Credited(records, records[i].payload.identity, c))
            && Sound(q.provenance.value.slots)
  {
    var owner := records[i].payload.identity;
    PassWrites(records, live, spm, i);
    ProviderCreatorsAre(records, owner, c);
    SoundSorted(ProviderCreators(records, owner).value, c);
  }

  lemma SoundSorted(creators: seq<Creator>, c: Creator)
    ensures c in Sorting.Sort(creators, CreatorLe) <==> c in creators
    ensures Sound(creators) ==> Sound(Sorting.Sort(creators, CreatorLe))
  {
    Sorting.SortMembers(creators, CreatorLe);
  }

  // ---- History ----

  /** A row stands as before when a current row has its slot and its pair. */
  predicate Stands(row: Binding, rows: seq<Binding>) {
    exists b :: b in rows && b.guid == row.guid && b.slot == row.slot && b.material == row.material &&
        b.mesh == row.mesh
  }

  /** The entry says which assignment took the slot over, or that there is none. */
  ghost predicate TellsWhy(h: History, owner: Identity, owned: seq<Assigned>) {
    if exists k :: 0 <= k < |owned| && SlotAt(owned, k) == (h.row.guid, h.row.slot) then
      exists k :: 0 <= k < |owned| && SlotAt(owned, k) == (h.row.guid, h.row.slot) &&
          h.successor == Some(owned[k].owner)
        && h.liveMaterial == owned[k].binding.material && h.liveMesh == owned[k].binding.mesh
        && h.reason == if owned[k].owner == owner then SameProviderRebound else ExactSuccessor
    else h.reason == SlotMissing && h.successor == None && h.liveMaterial == 0 && h.liveMesh == 0
  }

  lemma {:induction false} RelinquishedAre(
      history: seq<History>, rows: seq<Binding>, owner: Identity, current: seq<Binding>, owned: seq<Assigned>,
      h: History)
    requires h in Relinquish(history, rows, owner, current, owned)
    ensures h in history || (h.row in rows && !Retained(h.row, current) && h == HistoryOf(h.row, owner, owned))
    decreases |rows|
  {
    if rows != [] {
      assert rows == [rows[0]] + rows[1..];
      var next := HistoryOf(rows[0], owner, owned);
      RelinquishedAre(if Retained(rows[0], current) || next in history then history else history + [next],
                      rows[1..], owner, current, owned, h);
    }
  }

  lemma HistoryTellsWhy(owned: seq<Assigned>, row: Binding, owner: Identity)
    requires DistinctSlots(owned)
    ensures HistoryOf(row, owner, owned).row == row && TellsWhy(HistoryOf(row, owner, owned), owner, owned)
  {
    if k :| 0 <= k < |owned| && SlotAt(owned, k) == (row.guid, row.slot) {
      HistoryNamesSuccessor(owned, row, owner, k);
    } else {
      NoSuccessor(owned, (row.guid, row.slot));
    }
  }

  lemma {:induction false} NoSuccessor(owned: seq<Assigned>, slot: (string, string))
    requires forall k :: 0 <= k < |owned| ==> SlotAt(owned, k) != slot
    ensures SuccessorOf(owned, slot).None?
  {
    if owned != [] {
      assert SlotAt(owned, 0) != slot;
      assert forall k :: 0 <= k < |owned| - 1 ==> SlotAt(owned[1..], k) == SlotAt(owned, k + 1);
      NoSuccessor(owned[1..], slot);
    }
  }

  function Past(p: Payload): seq<History> {
    if p.connection.Some? && p.connection.value.relinquished.Some? then p.connection.value.relinquished.value else []
  }

  /** A row enters the history exactly when it was current and does not stand; its entry says why. */
  lemma HistoryIff(records: seq<Record>, live: seq<Live>, spm: int, i: nat, h: History)
    requires Plannable(records, live) && i < |records|
    ensures var p, q := records[i].payload, Reconciled(records, live, spm)[i].payload;
            && Past(p) <= Past(q)
            && (h in Past(q) && h !in Past(p) ==>
                 && h.row in CurrentBindings(p) && !Stands(h.row, Written(q))
                 && TellsWhy(h, p.identity, Assign(records, live).value))
            && (h.row in CurrentBindings(p) && !Stands(h.row, Written(q)) ==>
                 exists e :: e in Past(q) && e.row == h.row && TellsWhy(e, p.identity, Assign(records, live).value))
  {
    var p, q, owned := records[i].payload, Reconciled(records, live, spm)[i].payload, Assign(records, live).value;
    assert records[i] in records;
    WrittenRows(records, live, spm, i);
    AssignedSound(records, live);
    var rows := RowsFor(records, live, p.identity);
    assert Past(q) == Relinquish(Past(p), CurrentBindings(p), p.identity, rows, owned);
    assert Stands(h.row, rows) <==> Retained(h.row, rows);
    HistoryTellsWhy(owned, h.row, p.identity);
    if h in Past(q) { RelinquishedAre(Past(p), CurrentBindings(p), p.identity, rows, owned, h); }
    if h.row in CurrentBindings(p) && !Stands(h.row, rows) {
      RelinquishedKept(Past(p), CurrentBindings(p), p.identity, rows, owned, h.row);
    }
  }

  /** A rewrite touches the three ownership blocks only; authored evidence is filled in once. */
  lemma NothingElseChanges(records: seq<Record>, live: seq<Live>, spm: int, i: nat)
    requires Plannable(records, live) && i < |records|
    ensures var r, s := records[i], Reconciled(records, live, spm)[i];
            && s.path == r.path && s.kind == r.kind && s.payload.connection.Some?
            && s.payload.(connection := r.payload.connection, ownership := r.payload.ownership,
                          provenance := r.payload.provenance) == r.payload
            && (r.payload.connection.None? ==>
                 s.payload.connection.value.authored == None && s.payload.connection.value.rest == 0)
            && (r.payload.connection.Some? ==>
                 var was, now := r.payload.connection.value, s.payload.connection.value;
                 && now.rest == was.rest
                 && now.authored == if was.authored.Some? ||
                     |was.bindings| == 0 then was.authored else Some(was.bindings))
  {
    assert records[i] in records;
  }

  // ---- When a plan exists ----

  /** A record's creators can be read: without an explicit block always; with one, if it is sound,
      says one thing about each slot, counts its slots and is sealed by their fingerprint. */
  lemma CreatorsIff(p: Payload, slots: seq<Creator>)
    requires p.provenance.Some? && NormalizedCreators(p.provenance.value.slots) == Some(slots)
    ensures (forall c :: c in slots <==> c in p.provenance.value.slots) && Sound(p.provenance.value.slots)
    ensures CreatorsOf(p).Some? <==>
              && p.provenance.value.sound && p.provenance.value.count == |slots|
              && p.provenance.value.fingerprint == ProvenanceFingerprint(slots)
    ensures CreatorsOf(p).Some? ==> CreatorsOf(p).value == slots
  {
    var rows := p.provenance.value.slots;
    assert [] + rows == rows;
    var all := WithCreators(Some([]), rows).value;
    Sorting.SortMembers(all, CreatorLe);
    forall c ensures c in slots <==> c in rows {
      WithCreatorsAre([], rows, c);
    }
    WithCreatorsAre([], rows, Creator("", "", Recorded(0)));
  }

  lemma CreatorsRefused(p: Payload)
    ensures p.provenance.None? ==> CreatorsOf(p).Some?
    ensures p.provenance.Some? && !Sound(p.provenance.value.slots) ==> CreatorsOf(p).None?
  {
    if p.provenance.Some? {
      var rows := p.provenance.value.slots;
      assert [] + rows == rows;
      WithCreatorsAre([], rows, Creator("", "", Recorded(0)));
    }
  }

  ghost predicate AllRead(records: seq<Record>, owner: Identity) {
    forall r :: r in records && r.payload.identity == owner ==> CreatorsOf(r.payload).Some?
  }

  /** What a provider's manifests credit can be told apart by slot. */
  ghost predicate CreditsAgree(records: seq<Record>, owner: Identity) {
    && (forall c :: Credited(records, owner, c) ==> c.guid != "" && c.slot != "")
    && forall c, d | Credited(records, owner, c) && Credited(records, owner, d) ::
         c.guid == d.guid && c.slot == d.slot ==> c == d
  }

  lemma CreditedSnoc(before: seq<Record>, r: Record, owner: Identity, c: Creator)
    ensures Credited(before + [r], owner, c) <==>
              Credited(before, owner, c) || (r.payload.identity == owner && Credits(r.payload, c))
  {
    assert forall q :: q in before + [r] <==> q in before || q == r;
  }

  lemma AgreeAsOne(before: seq<Record>, r: Record, owner: Identity, was: seq<Creator>, more: seq<Creator>)
    requires r.payload.identity == owner
    requires forall c :: c in was <==> Credited(before, owner, c)
    requires forall c :: c in more <==> Credits(r.payload, c)
    ensures CreditsAgree(before + [r], owner) <==> Sound(was + more)
  {
    forall c ensures Credited(before + [r], owner, c) <==> c in was + more {
      CreditedSnoc(before, r, owner, c);
    }
  }

  /** The creators of one provider are collected exactly when each of its manifests can be read and no
      two of them credit one slot differently. */
  lemma {:induction false} ProviderCreatorsIff(records: seq<Record>, owner: Identity)
    ensures ProviderCreators(records, owner).Some? <==> AllRead(records, owner) && CreditsAgree(records, owner)
  {
    if records != [] {
      var n := |records| - 1;
      var before, r := records[..n], records[n];
      assert records == before + [r];
      ProviderCreatorsIff(before, owner);
      forall c ensures Credited(records, owner, c) <==>
                         Credited(before, owner, c) || (r.payload.identity == owner && Credits(r.payload, c))
      {
        CreditedSnoc(before, r, owner, c);
      }
      if ProviderCreators(before, owner).Some? && r.payload.identity == owner && CreatorsOf(r.payload).Some? {
        var was, more := ProviderCreators(before, owner).value, CreatorsOf(r.payload).value;
        forall c ensures (c in was <==> Credited(before, owner, c)) && (c in more <==> Credits(r.payload, c)) {
          ProviderCreatorsAre(before, owner, c);
          CreatorsAre(r.payload, c);
        }
        ProviderCreatorsAre(before, owner, Creator("", "", Recorded(0)));
        AgreeAsOne(before, r, owner, was, more);
        WithCreatorsAre(was, more, Creator("", "", Recorded(0)));
      }
    }
  }

  ghost predicate RecordReads(r: Record) {
    && (r.payload.ownership.Some? ==> OwnershipValid(r.payload.ownership.value))
    && r.payload.identity.blend != "" && r.payload.identity.collection != "" && r.payload.identity.scope != ""
    && OneMaterialEach(MaterialGroups(r.payload)) && CreatorsOf(r.payload).Some?
  }

  /** Two manifests of one provider declare the same materials. */
  ghost predicate SameDeclared(p: Payload, q: Payload) {
    && (forall g, id :: g in MaterialGroups(p) && Declares(g, id) ==> DeclaredIn(q, g, id))
    && forall g, id :: g in MaterialGroups(q) && Declares(g, id) ==> DeclaredIn(p, g, id)
  }

  ghost predicate DeclaredIn(p: Payload, g: Group, id: int) {
    exists h :: h in MaterialGroups(p) && Declares(h, id) && SameMaterial(h, g)
  }

  lemma SameDeclaredIff(r: Record, q: Record)
    requires MaterialsOf(r).Some? && MaterialsOf(q).Some?
    ensures MaterialsOf(r) == MaterialsOf(q) <==> SameDeclared(r.payload, q.payload)
  {
    MaterialsMean(MaterialGroups(r.payload));
    MaterialsMean(MaterialGroups(q.payload));
    var a, b := MaterialsOf(r).value, MaterialsOf(q).value;
    if a == b {
      EqualDeclare(a, MaterialGroups(r.payload), MaterialGroups(q.payload), r.payload, q.payload);
    }
    if SameDeclared(r.payload, q.payload) {
      DeclaredEqual(r.payload, q.payload, a, b);
      DeclaredEqual(q.payload, r.payload, b, a);
      EqualMaps(a, b);
    }
  }

  lemma EqualMaps(a: map<int, Material>, b: map<int, Material>)
    requires (forall k :: k in a ==> k in b && a[k] == b[k]) && (forall k :: k in b ==> k in a && b[k] == a[k])
    ensures a == b
  {
    forall k ensures k in a.Keys <==> k in b.Keys {
      assert k in a <==> k in b;
    }
    assert a.Keys == b.Keys;
    assert forall k :: k in a ==> a[k] == b[k];
  }

  lemma EqualDeclare(all: map<int, Material>, xs: seq<Group>, ys: seq<Group>, p: Payload, q: Payload)
    requires Tells(all, xs) && Tells(all, ys) && xs == MaterialGroups(p) && ys == MaterialGroups(q)
    ensures SameDeclared(p, q)
  {
    forall g, id | g in xs && Declares(g, id) ensures DeclaredIn(q, g, id) { FoundIn(all, xs, q, g, id); }
    forall g, id | g in ys && Declares(g, id) ensures DeclaredIn(p, g, id) { FoundIn(all, ys, p, g, id); }
  }

  lemma FoundIn(all: map<int, Material>, xs: seq<Group>, q: Payload, g: Group, id: int)
    requires Tells(all, xs) && Tells(all, MaterialGroups(q)) && g in xs && Declares(g, id)
    ensures DeclaredIn(q, g, id)
  {
    assert Row(all, g, id);
    var h :| h in MaterialGroups(q) && Declares(h, id);
    assert Row(all, h, id);
    assert forall m :: m > 0 ==> (m in h.meshIds <==> m in g.meshIds);
    assert SameMaterial(h, g);
  }

  lemma DeclaredEqual(p: Payload, q: Payload, a: map<int, Material>, b: map<int, Material>)
    requires Tells(a, MaterialGroups(p)) && Tells(b, MaterialGroups(q)) && SameDeclared(p, q)
    ensures forall id :: id in a ==> id in b && a[id] == b[id]
  {
    forall id | id in a ensures id in b && a[id] == b[id] {
      var g :| g in MaterialGroups(p) && Declares(g, id);
      assert Row(a, g, id) && DeclaredIn(q, g, id);
      var h :| h in MaterialGroups(q) && Declares(h, id) && SameMaterial(h, g);
      assert Row(b, h, id);
      SameRowSets(a, b, g, h, id);
    }
  }

  lemma SameRowSets(a: map<int, Material>, b: map<int, Material>, g: Group, h: Group, id: int)
    requires Row(a, g, id) && Row(b, h, id) && SameMaterial(h, g)
    ensures a[id] == b[id]
  {
    SameRow(a, g, h, id);
    SameRow(b, h, h, id);
    assert SameMaterial(g, h) by {
      assert forall m :: m in g.meshIds + h.meshIds ==> m in h.meshIds + g.meshIds;
    }
  }

  /** A plan exists exactly when there are manifests, each can be read and names its whole source, the
      mirrors of each provider declare the same materials and do not credit one slot differently,
      and every live binding can be placed. */
  lemma PlannableIff(records: seq<Record>, live: seq<Live>)
    ensures Plannable(records, live) <==>
              && records != [] && (forall r :: r in records ==> RecordReads(r))
              && (forall r, q :: r in records && q in records && r.payload.identity == q.payload.identity ==>
                   SameDeclared(r.payload, q.payload))
              && (forall r :: r in records ==> CreditsAgree(records, r.payload.identity))
              && forall i :: 0 <= i < |live| ==> Placeable(records, live, i)
  {
    forall r | r in records ensures RecordAccepted(r) <==> RecordReads(r) { MaterialsMean(MaterialGroups(r.payload)); }
    forall r | r in records
      ensures ProviderCreators(records, r.payload.identity).Some? <==>
                AllRead(records, r.payload.identity) && CreditsAgree(records, r.payload.identity)
    {
      ProviderCreatorsIff(records, r.payload.identity);
    }
    forall r, q | r in records && q in records && MaterialsOf(r).Some? && MaterialsOf(q).Some?
      ensures MaterialsOf(r) == MaterialsOf(q) <==> SameDeclared(r.payload, q.payload)
    {
      SameDeclaredIff(r, q);
    }
    AssignsIffPlaceable(records, live, |live|);
    assert live[..|live|] == live;
  }
}
