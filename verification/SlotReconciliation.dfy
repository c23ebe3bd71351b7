/** What planning slot ownership achieves (atlas_slot_ownership.py): every managed live slot
    gets one owner, and planning again over its own output gives each provider the same rows
    and the same creators. */
module SlotReconciliation {
  import opened Texts
  import opened ManifestClaims
  import opened SlotOwnership
  import Sorting

  // ---- Every managed live slot has exactly one owner ----

  function SlotAt(owned: seq<Assigned>, i: nat): (string, string)
    requires i < |owned|
  {
    (owned[i].binding.guid, owned[i].binding.slot)
  }

  ghost predicate DistinctSlots(owned: seq<Assigned>) {
    forall i, j :: 0 <= i < j < |owned| ==> SlotAt(owned, i) != SlotAt(owned, j)
  }

  lemma DistinctSnoc(owned: seq<Assigned>, a: Assigned)
    requires DistinctSlots(owned) && (a.binding.guid, a.binding.slot) !in SlotsOf(owned)
    ensures DistinctSlots(owned + [a])
  {
    forall i | 0 <= i < |owned| ensures SlotAt(owned, i) != (a.binding.guid, a.binding.slot) {
      assert owned[i] in owned;
    }
    assert forall i :: 0 <= i < |owned| ==> SlotAt(owned + [a], i) == SlotAt(owned, i);
  }

  predicate Complete(a: Assignment) {
    a.guid != "" && a.slot != "" && a.material > 0 && (a.mesh == DEFAULT_CUTOUT || a.mesh > 0)
  }

  lemma {:induction false} MeshIdsPositive(groups: seq<Group>)
    ensures Materials(groups).Some? ==>
              forall id, m :: id in Materials(groups).value && m in Materials(groups).value[id].meshIds ==> m > 0
  {
    if groups != [] { MeshIdsPositive(groups[..|groups| - 1]); }
  }

  lemma {:induction false} AssignedSound(records: seq<Record>, live: seq<Live>)
    requires Assign(records, live).Some?
    ensures var owned := Assign(records, live).value;
            && DistinctSlots(owned)
            && forall a :: a in owned ==>
                 Complete(a.binding) && OwnersOf(records, a.binding.material, a.binding.mesh) == {a.owner}
  {
    if live != [] {
      var n := |live| - 1;
      AssignedSound(records, live[..n]);
      var before := Assign(records, live[..n]).value;
      var verdict := Judge(records, live[n], SlotsOf(before));
      if verdict.Owned? {
        var m, x := live[n].material.value, live[n].mesh.value;
        assert verdict.owner in OwnersOf(records, m, x);
        var r :| r in records && Provides(r, m, x);
        MeshIdsPositive(MaterialGroups(r.payload));
        DistinctSnoc(before, Assigned(verdict.owner, ToAssignment(live[n])));
      }
    }
  }

  /** When nothing blocks, every live binding with a managed positive material and a readable
      mesh is assigned once, to the only provider whose groups contain its pair. */
  lemma {:induction false} EveryManagedSlotHasOneOwner(records: seq<Record>, live: seq<Live>, l: Live)
    requires Assign(records, live).Some? && l in live && Readable(l)
    requires exists r :: r in records && MaterialsOf(r).Some? && l.material.value in MaterialsOf(r).value
    ensures var owned := Assign(records, live).value;
            exists i :: 0 <= i < |owned| && owned[i].binding == ToAssignment(l)
              && OwnersOf(records, l.material.value, l.mesh.value) == {owned[i].owner}
              && forall j :: 0 <= j < |owned| && SlotAt(owned, j) == (l.guid, l.slot) ==> j == i
  {
    var owned := Assign(records, live).value;
    var n := |live| - 1;
    AssignedSound(records, live);
    if l == live[n] {
      var r :| r in records && MaterialsOf(r).Some? && l.material.value in MaterialsOf(r).value;
      assert Manages(r, l.material.value, l.mesh.value);
      assert owned[|owned| - 1].binding == ToAssignment(l);
      assert owned[|owned| - 1] in owned;
      assert forall j :: 0 <= j < |owned| - 1 ==> SlotAt(owned, j) != SlotAt(owned, |owned| - 1);
    } else {
      assert live == live[..n] + [live[n]];
      EveryManagedSlotHasOneOwner(records, live[..n], l);
      var before := Assign(records, live[..n]).value;
      var i :| 0 <= i < |before| && before[i].binding == ToAssignment(l)
        && OwnersOf(records, l.material.value, l.mesh.value) == {before[i].owner};
      assert owned[i] == before[i];
      forall j | 0 <= j < |owned| && SlotAt(owned, j) == (l.guid, l.slot) ensures j == i {
        assert SlotAt(owned, j) == SlotAt(owned, i);
      }
    }
  }

  /** The binding needs an owner: it is readable and some group contains its pair. */
  predicate Wanted(records: seq<Record>, l: Live) {
    Readable(l) && OwnersOf(records, l.material.value, l.mesh.value) != {}
  }

  /** Nothing is wrong with live binding `i`: it touches nothing managed, or it has one owner, a
      full slot identity, and no earlier owned binding has the same slot. */
  predicate Placeable(records: seq<Record>, live: seq<Live>, i: nat)
    requires i < |live|
  {
    var l := live[i];
    Readable(l) ==>
      if Wanted(records, l) then
        && |OwnersOf(records, l.material.value, l.mesh.value)| == 1 && l.guid != "" && l.slot != ""
        && forall j :: 0 <= j < i && Wanted(records, live[j]) ==> (live[j].guid, live[j].slot) != (l.guid, l.slot)
      else forall r :: r in records ==> !Manages(r, l.material.value, l.mesh.value)
  }

  /** One of the first `n` bindings that need an owner has this slot. */
  predicate Taken(records: seq<Record>, live: seq<Live>, n: nat, slot: (string, string))
    requires n <= |live|
  {
    exists j :: 0 <= j < n && Wanted(records, live[j]) && (live[j].guid, live[j].slot) == slot
  }

  lemma TakenSnoc(records: seq<Record>, live: seq<Live>, n: nat, slot: (string, string))
    requires n < |live|
    ensures Taken(records, live, n + 1, slot) <==>
              Taken(records, live, n, slot) || (Wanted(records, live[n]) && (live[n].guid, live[n].slot) == slot)
  {}

  lemma SlotsSnocJudged(records: seq<Record>, live: seq<Live>, n: nat, slot: (string, string))
    requires n < |live| && Assign(records, live[..n + 1]).Some?
    ensures Assign(records, live[..n]).Some?
    ensures slot in SlotsOf(Assign(records, live[..n + 1]).value) <==>
              slot in SlotsOf(Assign(records, live[..n]).value) ||
                  (Wanted(records, live[n]) && (live[n].guid, live[n].slot) == slot)
  {
    assert live[..n + 1][..n] == live[..n] && live[..n + 1][n] == live[n];
    var before := Assign(records, live[..n]).value;
    var verdict := Judge(records, live[n], SlotsOf(before));
    if verdict.Owned? {
      SlotsSnoc(before, Assigned(verdict.owner, ToAssignment(live[n])));
    }
  }

  lemma {:induction false} SlotsTaken(records: seq<Record>, live: seq<Live>, n: nat, slot: (string, string))
    requires n <= |live| && Assign(records, live[..n]).Some?
    ensures slot in SlotsOf(Assign(records, live[..n]).value) <==> Taken(records, live, n, slot)
  {
    if n > 0 {
      SlotsSnocJudged(records, live, n - 1, slot);
      SlotsTaken(records, live, n - 1, slot);
      TakenSnoc(records, live, n - 1, slot);
    }
  }

  lemma AssignsOneMore(records: seq<Record>, live: seq<Live>, n: nat)
    requires n < |live|
    ensures Assign(records, live[..n + 1]).Some? <==> Assign(records, live[..n]).Some? && Placeable(records, live, n)
  {
    assert live[..n + 1][..n] == live[..n] && live[..n + 1][n] == live[n];
    if Assign(records, live[..n]).Some? {
      var seen := SlotsOf(Assign(records, live[..n]).value);
      SlotsTaken(records, live, n, (live[n].guid, live[n].slot));
      assert Judge(records, live[n], seen).Blocks? <==> !Placeable(records, live, n);
    }
  }

  /** The planner blocks on live slots if and only if some binding cannot be placed. */
  lemma {:induction false} AssignsIffPlaceable(records: seq<Record>, live: seq<Live>, n: nat)
    requires n <= |live|
    ensures Assign(records, live[..n]).Some? <==> forall i :: 0 <= i < n ==> Placeable(records, live, i)
  {
    if n > 0 {
      AssignsIffPlaceable(records, live, n - 1);
      AssignsOneMore(records, live, n - 1);
    }
  }

  /** A relinquished row names its slot's one new owner and live pair, and says whether that is
      the same provider; without a new owner it says that the slot is gone. */
  lemma {:induction false} HistoryNamesSuccessor(owned: seq<Assigned>, row: Binding, owner: Identity, k: nat)
    requires DistinctSlots(owned)
    ensures k < |owned| && SlotAt(owned, k) == SlotOf(row) ==>
              var h := HistoryOf(row, owner, owned);
              && h.successor == Some(owned[k].owner) && h.liveMaterial == owned[k].binding.material &&
                  h.liveMesh == owned[k].binding.mesh
              && h.reason == if owned[k].owner == owner then SameProviderRebound else ExactSuccessor
    ensures (forall i :: 0 <= i < |owned| ==> SlotAt(owned, i) != SlotOf(row)) ==>
        HistoryOf(row, owner, owned).reason == SlotMissing
  {
    if owned != [] {
      assert SlotAt(owned, 0) == (owned[0].binding.guid, owned[0].binding.slot);
      assert forall i :: 0 <= i < |owned| - 1 ==> SlotAt(owned[1..], i) == SlotAt(owned, i + 1);
      HistoryNamesSuccessor(owned[1..], row, owner, if k > 0 then k - 1 else |owned|);
      if k < |owned| && SlotAt(owned, k) == SlotOf(row) && k > 0 {
        assert SlotAt(owned, 0) != SlotAt(owned, k);
      }
    }
  }

  // ---- One provider's sorted slots ----

  ghost predicate DistinctAssignments(slots: seq<Assignment>) {
    forall i, j :: 0 <= i < j < |slots| ==> (slots[i].guid, slots[i].slot) != (slots[j].guid, slots[j].slot)
  }

  lemma {:induction false} BindingsOfMembers(owned: seq<Assigned>, owner: Identity)
    ensures forall b :: b in BindingsOf(owned, owner) <==> exists a :: a in owned && a.owner == owner && a.binding == b
    ensures BindingsOf(owned, owner) == [] <==> forall a :: a in owned ==> a.owner != owner
  {
    if owned != [] {
      var n := |owned| - 1;
      BindingsOfMembers(owned[..n], owner);
      assert owned == owned[..n] + [owned[n]];
      forall b | b in BindingsOf(owned, owner) ensures exists a :: a in owned && a.owner == owner && a.binding == b {
        if b in BindingsOf(owned[..n], owner) {
          var a :| a in owned[..n] && a.owner == owner && a.binding == b;
          assert a in owned;
        } else {
          assert owned[n] in owned && owned[n].binding == b;
        }
      }
    }
  }

  lemma {:induction false} BindingsOfDistinct(owned: seq<Assigned>, owner: Identity)
    requires DistinctSlots(owned)
    ensures DistinctAssignments(BindingsOf(owned, owner))
  {
    if owned != [] {
      var n := |owned| - 1;
      assert forall i :: 0 <= i < n ==> SlotAt(owned[..n], i) == SlotAt(owned, i);
      BindingsOfDistinct(owned[..n], owner);
      BindingsOfMembers(owned[..n], owner);
      forall b | b in BindingsOf(owned[..n], owner) ensures (b.guid, b.slot) != SlotAt(owned, n) {
        var a :| a in owned[..n] && a.owner == owner && a.binding == b;
        var i :| 0 <= i < n && owned[i] == a;
        assert SlotAt(owned, i) != SlotAt(owned, n);
      }
    }
  }

  lemma SortKeepsDistinct(slots: seq<Assignment>)
    requires DistinctAssignments(slots)
    ensures DistinctAssignments(Sorting.Sort(slots, AssignmentLe))
  {
    Sorting.SortDistinctBy(slots, AssignmentLe, (a: Assignment) => (a.guid, a.slot));
  }

  lemma SlotsForSound(records: seq<Record>, live: seq<Live>, owner: Identity)
    requires Assign(records, live).Some?
    ensures var slots := SlotsFor(Assign(records, live).value, owner);
            DistinctAssignments(slots) && forall a :: a in slots ==> Complete(a)
    ensures SlotsFor(Assign(records, live).value, owner) == [] <==>
              forall a :: a in Assign(records, live).value ==> a.owner != owner
  {
    var owned := Assign(records, live).value;
    AssignedSound(records, live);
    BindingsOfDistinct(owned, owner);
    BindingsOfMembers(owned, owner);
    SortKeepsDistinct(BindingsOf(owned, owner));
    Sorting.SortMembers(BindingsOf(owned, owner), AssignmentLe);
  }

  // ---- The head of the template order ----

  function Pick(a: Assignment, x: Option<Template>, y: Option<Template>): Option<Template> {
    if x.None? then y
    else if y.None? || TemplateLe(a, x.value, y.value) then x
    else y
  }

  lemma PickAssociative(a: Assignment, x: Option<Template>, y: Option<Template>, z: Option<Template>)
    ensures Pick(a, x, Pick(a, y, z)) == Pick(a, Pick(a, x, y), z)
  {
    if x.Some? && y.Some? && z.Some? {
      var p, q, r := x.value.path, y.value.path, z.value.path;
      TextLeTotal(p, q); TextLeTotal(q, r); TextLeTotal(p, r);
      if TextLe(p, q) && TextLe(q, r) { TextLeTransitive(p, q, r); }
      if TextLe(r, q) && TextLe(q, p) { TextLeTransitive(r, q, p); }
    }
  }

  lemma {:induction false} BestConcat(a: Assignment, xs: seq<Template>, ys: seq<Template>)
    ensures Best(a, xs + ys) == Pick(a, Best(a, xs), Best(a, ys))
  {
    if xs == [] {
      assert xs + ys == ys;
    } else {
      assert (xs + ys)[1..] == xs[1..] + ys;
      BestConcat(a, xs[1..], ys);
      PickAssociative(a, Some(xs[0]), Best(a, xs[1..]), Best(a, ys));
    }
  }

  /** Among rows of one mirror, a leading row that targets the live pair stays first. */
  lemma LeadingTargetWins(a: Assignment, t: Template, rest: seq<Template>)
    requires Targets(t.row, a)
    requires forall u :: u in rest ==> u.precedence == t.precedence && u.path == t.path
    ensures Best(a, [t] + rest) == Some(t)
  {
    assert ([t] + rest)[1..] == rest;
    BestIsMember(a, rest);
    TextLeTotal(t.path, t.path);
  }

  /** The template used is a least one: no other row of the provider fits the live pair better
      or, fitting as well, comes from a mirror of higher precedence. */
  lemma {:induction false} BestIsLeast(a: Assignment, ts: seq<Template>, t: Template)
    requires t in ts
    ensures Best(a, ts).Some? && Best(a, ts).value in ts && TemplateLe(a, Best(a, ts).value, t)
  {
    BestIsMember(a, ts);
    TextLeTotal(t.path, t.path);
    assert ts == [ts[0]] + ts[1..];
    var rest := Best(a, ts[1..]);
    if rest.Some? {
      TextLeTotal(ts[0].path, rest.value.path);
      if t in ts[1..] {
        BestIsLeast(a, ts[1..], t);
        if TextLe(ts[0].path, rest.value.path) && TextLe(rest.value.path, t.path) {
          TextLeTransitive(ts[0].path, rest.value.path, t.path);
        }
      }
    } else {
      BestIsMember(a, ts[1..]);
    }
  }

  lemma {:induction false} BestIsMember(a: Assignment, ts: seq<Template>)
    ensures Best(a, ts).None? <==> ts == []
    ensures Best(a, ts).Some? ==> Best(a, ts).value in ts
  {
    if ts != [] { BestIsMember(a, ts[1..]); }
  }

  // ---- Rows written once are found again ----

  lemma {:induction false} RowsAtConcat(xs: seq<Binding>, ys: seq<Binding>, slot: (string, string), r: Record)
    ensures RowsAt(xs + ys, slot, r) == RowsAt(xs, slot, r) + RowsAt(ys, slot, r)
  {
    if xs == [] {
      assert xs + ys == ys;
    } else {
      assert (xs + ys)[1..] == xs[1..] + ys;
      RowsAtConcat(xs[1..], ys, slot, r);
    }
  }

  lemma {:induction false} RowsAtOrigin(rows: seq<Binding>, slot: (string, string), r: Record)
    ensures forall t :: t in RowsAt(rows, slot, r) ==> t.precedence == Precedence(r.kind) && t.path == r.path
    ensures (forall b :: b in rows ==> SlotOf(b) != slot) ==> RowsAt(rows, slot, r) == []
  {
    if rows != [] {
      RowsAtOrigin(rows[1..], slot, r);
      assert rows == [rows[0]] + rows[1..];
    }
  }

  ghost predicate DistinctRows(rows: seq<Binding>) {
    forall i, j :: 0 <= i < j < |rows| ==> SlotOf(rows[i]) != SlotOf(rows[j])
  }

  lemma RowsAtDistinct(rows: seq<Binding>, k: nat, r: Record)
    requires DistinctRows(rows) && k < |rows|
    ensures RowsAt(rows, SlotOf(rows[k]), r) == [Template(rows[k], Precedence(r.kind), r.path)]
  {
    var slot := SlotOf(rows[k]);
    assert rows == rows[..k] + ([rows[k]] + rows[k + 1..]);
    RowsAtConcat(rows[..k], [rows[k]] + rows[k + 1..], slot, r);
    RowsAtConcat([rows[k]], rows[k + 1..], slot, r);
    RowsAtOrigin(rows[..k], slot, r);
    RowsAtOrigin(rows[k + 1..], slot, r);
    assert RowsAt([rows[k]], slot, r) == [Template(rows[k], Precedence(r.kind), r.path)] + RowsAt([], slot, r);
  }

  /** All mirrors of `owner` list exactly `rows` as their current bindings. */
  ghost predicate AllListRows(records: seq<Record>, owner: Identity, rows: seq<Binding>) {
    forall r :: r in records && r.payload.identity == owner ==>
      r.payload.connection.Some? && r.payload.connection.value.bindings == rows
  }

  lemma {:induction false} SettledTemplate(
      records: seq<Record>, owner: Identity, rows: seq<Binding>, k: nat, a: Assignment)
    requires DistinctRows(rows) && k < |rows| && Targets(rows[k], a) && AllListRows(records, owner, rows)
    ensures var best := Best(a, Templates(records, owner, SlotOf(rows[k])));
            if exists r :: r in records && r.payload.identity == owner then best.Some? && best.value.row == rows[k]
            else best.None?
  {
    if records != [] {
      var r, slot := records[0], SlotOf(rows[k]);
      assert records == [r] + records[1..];
      SettledTemplate(records[1..], owner, rows, k, a);
      if r.payload.identity == owner {
        var authored := if r.payload.connection.value.authored.Some?
            then r.payload.connection.value.authored.value else [];
        RowsAtConcat(rows, authored, slot, r);
        RowsAtDistinct(rows, k, r);
        RowsAtOrigin(authored, slot, r);
        LeadingTargetWins(a, Template(rows[k], Precedence(r.kind), r.path), RowsAt(authored, slot, r));
        BestConcat(a, RowsAt(TemplateRows(r.payload), slot, r), Templates(records[1..], owner, slot));
      } else {
        assert [] + Templates(records[1..], owner, slot) == Templates(records[1..], owner, slot);
      }
    }
  }

  /** Rows computed once are computed again from any records that list them. */
  lemma RowsStable(before: seq<Record>, after: seq<Record>, owner: Identity, slots: seq<Assignment>)
    requires DistinctAssignments(slots)
    requires AllListRows(after, owner, CurrentRows(before, owner, slots))
    requires exists r :: r in after && r.payload.identity == owner
    ensures CurrentRows(after, owner, slots) == CurrentRows(before, owner, slots)
  {
    var rows := CurrentRows(before, owner, slots);
    forall i | 0 <= i < |slots| ensures CurrentRows(after, owner, slots)[i] == rows[i] {
      SettledTemplate(after, owner, rows, i, slots[i]);
    }
  }

  // ---- Creators written once are found again ----

  ghost predicate DistinctCreators(cs: seq<Creator>) {
    && (forall i, j :: 0 <= i < j < |cs| ==> CreatorSlot(cs[i]) != CreatorSlot(cs[j]))
    && forall c :: c in cs ==> c.guid != "" && c.slot != ""
  }

  lemma {:induction false} WithCreatorsDistinct(creators: seq<Creator>, more: seq<Creator>)
    requires DistinctCreators(creators)
    ensures WithCreators(Some(creators), more).Some? ==> DistinctCreators(WithCreators(Some(creators), more).value)
    decreases |more|
  {
    if more != [] {
      var next := WithCreator(Some(creators), more[0]);
      if next.Some? {
        WithCreatorsDistinct(next.value, more[1..]);
      } else {
        NoCreators(more[1..]);
      }
    }
  }

  lemma {:induction false} NoCreators(more: seq<Creator>)
    ensures WithCreators(None, more).None?
  {
    if more != [] { NoCreators(more[1..]); }
  }

  /** Adding rows of new slots appends them. */
  lemma {:induction false} AppendCreators(creators: seq<Creator>, more: seq<Creator>)
    requires DistinctCreators(creators + more)
    ensures WithCreators(Some(creators), more) == Some(creators + more)
    decreases |more|
  {
    if more == [] {
      assert creators + more == creators;
    } else {
      assert (creators + more)[|creators|] == more[0] && more[0] in creators + more;
      forall d | d in creators ensures CreatorSlot(d) != CreatorSlot(more[0]) {
        var i :| 0 <= i < |creators| && creators[i] == d;
        assert CreatorSlot((creators + more)[i]) != CreatorSlot((creators + more)[|creators|]);
      }
      assert (creators + [more[0]]) + more[1..] == creators + more;
      AppendCreators(creators + [more[0]], more[1..]);
    }
  }

  /** Adding rows that are there already changes nothing. */
  lemma {:induction false} RepeatCreators(creators: seq<Creator>, more: seq<Creator>)
    requires DistinctCreators(creators) && forall c :: c in more ==> c in creators
    ensures WithCreators(Some(creators), more) == Some(creators)
    decreases |more|
  {
    if more != [] {
      assert more[0] in creators;
      assert WithCreator(Some(creators), more[0]) == Some(creators);
      RepeatCreators(creators, more[1..]);
    }
  }

  lemma SortCreatorsDistinct(cs: seq<Creator>)
    requires DistinctCreators(cs)
    ensures DistinctCreators(Sorting.Sort(cs, CreatorLe))
  {
    Sorting.SortDistinctBy(cs, CreatorLe, CreatorSlot);
    Sorting.SortMembers(cs, CreatorLe);
  }

  /** Created rows of one slot that differ in their state only are one creator row. */
  lemma StatesAgree(row: Binding, state: string)
    requires row.created && row.guid != "" && row.slot != ""
    ensures WithCreators(Some([]), LegacyCreators([row, row.(state := state)])) == Some([LegacyCreator(row)])
  {
    var other := row.(state := state);
    assert [row, other][1..] == [other] && [other][1..] == [];
    assert LegacyCreators([]) == [] && LegacyCreators([other]) == [LegacyCreator(other)] + [];
    assert LegacyCreator(other) == LegacyCreator(row);
    assert LegacyCreators([row, other]) == [LegacyCreator(row), LegacyCreator(row)];
    var c := LegacyCreator(row);
    assert [c, c][1..] == [c] && [c][1..] == [] && [] + [c] == [c];
    assert WithCreator(Some([]), c) == Some([c]);
    assert [c][0] == c && c in [c] && WithCreator(Some([c]), c) == Some([c]);
    assert WithCreators(Some([c]), [c]) == WithCreators(Some([c]), []);
  }

  lemma CreatorOrder()
    ensures Sorting.TotalPreorder(CreatorLe)
  {
    forall a: Creator, b: Creator ensures CreatorLe(a, b) || CreatorLe(b, a) {
      PairLeTotal(CreatorSlot(a), CreatorSlot(b));
    }
    forall a: Creator, b: Creator, c: Creator | CreatorLe(a, b) && CreatorLe(b, c) ensures CreatorLe(a, c) {
      PairLeTransitive(CreatorSlot(a), CreatorSlot(b), CreatorSlot(c));
    }
  }

  lemma SortedCreators(creators: seq<Creator>)
    requires DistinctCreators(creators)
    ensures var sorted := Sorting.Sort(creators, CreatorLe);
            DistinctCreators(sorted) && Sorting.Sort(sorted, CreatorLe) == sorted &&
                NormalizedCreators(sorted) == Some(sorted)
  {
    var sorted := Sorting.Sort(creators, CreatorLe);
    CreatorOrder();
    Sorting.SortOrdered(creators, CreatorLe);
    SortCreatorsDistinct(creators);
    assert [] + sorted == sorted;
    AppendCreators([], sorted);
    Sorting.SortOfOrdered(sorted, CreatorLe);
  }

  /** A provenance block that was written reads back as its own sorted rows. */
  lemma ProvenanceReadsBack(p: Payload, creators: seq<Creator>)
    requires DistinctCreators(creators) && p.provenance == Some(CreationProvenance(creators))
    ensures CreatorsOf(p) == Some(Sorting.Sort(creators, CreatorLe))
    ensures Sorting.Sort(Sorting.Sort(creators, CreatorLe), CreatorLe) == Sorting.Sort(creators, CreatorLe)
    ensures DistinctCreators(Sorting.Sort(creators, CreatorLe))
  {
    SortedCreators(creators);
  }

  lemma {:induction false} ProviderCreatorsDistinct(records: seq<Record>, owner: Identity)
    ensures ProviderCreators(records, owner).Some? ==> DistinctCreators(ProviderCreators(records, owner).value)
  {
    if records != [] {
      var n := |records| - 1;
      ProviderCreatorsDistinct(records[..n], owner);
      if ProviderCreators(records[..n], owner).Some? && records[n].payload.identity == owner &&
          CreatorsOf(records[n].payload).Some? {
        WithCreatorsDistinct(ProviderCreators(records[..n], owner).value, CreatorsOf(records[n].payload).value);
      }
    }
  }

  lemma ReadAgain(sorted: seq<Creator>)
    requires DistinctCreators(sorted)
    ensures WithCreators(Some([]), sorted) == Some(sorted)
    ensures WithCreators(Some(sorted), sorted) == Some(sorted)
  {
    assert [] + sorted == sorted;
    AppendCreators([], sorted);
    RepeatCreators(sorted, sorted);
  }

  lemma {:induction false} CreatorsStable(after: seq<Record>, owner: Identity, sorted: seq<Creator>)
    requires DistinctCreators(sorted)
    requires forall r :: r in after && r.payload.identity == owner ==> CreatorsOf(r.payload) == Some(sorted)
    ensures ProviderCreators(after, owner)
         == if exists r :: r in after && r.payload.identity == owner then Some(sorted) else Some([])
  {
    if after != [] {
      var n := |after| - 1;
      var r := after[n];
      assert after == after[..n] + [r];
      CreatorsStable(after[..n], owner, sorted);
      ReadAgain(sorted);
      if r.payload.identity == owner {
        assert CreatorsOf(r.payload) == Some(sorted);
      }
    }
  }
}
