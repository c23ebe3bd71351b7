/** What reconciliation writes for the live slots (atlas_slot_ownership.py): each owned slot gets its
    row in every manifest of its provider and in no other, and the two evidence fields agree. */
module SlotCoverage {
  import opened Texts
  import opened ManifestClaims
  import opened SlotOwnership
  import opened SlotReconciliation
  import opened SlotFixedPoint
  import Sorting

  /** The row says just what the live slot says. */
  predicate RowSays(b: Binding, a: Assignment) {
    && b.guid == a.guid && b.slot == a.slot && b.index == a.index && b.name == a.name && b.gtype == a.gtype
    && b.hasTarget && b.material == Some(a.material) && b.mesh == Some(a.mesh) && !b.created
  }

  /** How many of the assignments are this provider's. */
  function Share(owned: seq<Assigned>, owner: Identity): nat {
    if owned == [] then 0
    else Share(owned[..|owned| - 1], owner) + if owned[|owned| - 1].owner == owner then 1 else 0
  }

  lemma {:induction false} ShareCounts(owned: seq<Assigned>, owner: Identity)
    ensures |BindingsOf(owned, owner)| == Share(owned, owner)
  {
    if owned != [] { ShareCounts(owned[..|owned| - 1], owner); }
  }

  lemma SortCounts<T>(s: seq<T>, le: (T, T) -> bool)
    ensures |Sorting.Sort(s, le)| == |s|
  {
    assert multiset(Sorting.Sort(s, le)) == multiset(s);
    assert |multiset(Sorting.Sort(s, le))| == |multiset(s)|;
  }

  predicate HasRow(rows: seq<Binding>, a: Assignment) {
    exists b :: b in rows && RowSays(b, a)
  }

  predicate Backed(owned: seq<Assigned>, owner: Identity, b: Binding) {
    exists a :: a in owned && a.owner == owner && RowSays(b, a.binding)
  }

  lemma RowsCover(records: seq<Record>, live: seq<Live>, owner: Identity, a: Assigned)
    requires Assign(records, live).Some? && a in Assign(records, live).value && a.owner == owner
    ensures HasRow(RowsFor(records, live, owner), a.binding)
  {
    var owned, rows := Assign(records, live).value, RowsFor(records, live, owner);
    var slots := SlotsFor(owned, owner);
    Sorting.SortMembers(BindingsOf(owned, owner), AssignmentLe);
    BindingsOfMembers(owned, owner);
    assert a.binding in slots;
    var k :| 0 <= k < |slots| && slots[k] == a.binding;
    assert RowSays(rows[k], a.binding) && rows[k] in rows;
  }

  lemma RowsBacked(records: seq<Record>, live: seq<Live>, owner: Identity, b: Binding)
    requires Assign(records, live).Some? && b in RowsFor(records, live, owner)
    ensures Backed(Assign(records, live).value, owner, b)
  {
    var owned, rows := Assign(records, live).value, RowsFor(records, live, owner);
    var slots := SlotsFor(owned, owner);
    var k :| 0 <= k < |rows| && rows[k] == b;
    Sorting.SortMembers(BindingsOf(owned, owner), AssignmentLe);
    BindingsOfMembers(owned, owner);
    assert slots[k] in slots;
    var a :| a in owned && a.owner == owner && a.binding == slots[k];
    assert RowSays(b, a.binding);
  }

  lemma RowsCounted(records: seq<Record>, live: seq<Live>, owner: Identity)
    requires Assign(records, live).Some?
    ensures |RowsFor(records, live, owner)| == Share(Assign(records, live).value, owner)
  {
    var owned := Assign(records, live).value;
    ShareCounts(owned, owner);
    SortCounts(BindingsOf(owned, owner), AssignmentLe);
  }

  ghost predicate InSlotOrder(rows: seq<Binding>) {
    forall j, k :: 0 <= j < k < |rows| ==>
      && (rows[j].guid, rows[j].slot) != (rows[k].guid, rows[k].slot)
      && PairLe((rows[j].guid, rows[j].slot), (rows[k].guid, rows[k].slot))
  }

  lemma RowsOrdered(records: seq<Record>, live: seq<Live>, owner: Identity)
    requires Assign(records, live).Some?
    ensures InSlotOrder(RowsFor(records, live, owner))
  {
    var owned, rows := Assign(records, live).value, RowsFor(records, live, owner);
    var slots := SlotsFor(owned, owner);
    SlotsForSound(records, live, owner);
    AssignmentOrder();
    Sorting.SortOrdered(BindingsOf(owned, owner), AssignmentLe);
    forall j, k | 0 <= j < k < |rows|
      ensures (rows[j].guid, rows[j].slot) != (rows[k].guid, rows[k].slot)
      ensures PairLe((rows[j].guid, rows[j].slot), (rows[k].guid, rows[k].slot))
    {
      assert AssignmentLe(slots[j], slots[k]);
    }
  }

  lemma AssignmentOrder()
    ensures Sorting.TotalPreorder(AssignmentLe)
  {
    forall a: Assignment, b: Assignment ensures AssignmentLe(a, b) || AssignmentLe(b, a) {
      PairLeTotal((a.guid, a.slot), (b.guid, b.slot));
    }
    forall a: Assignment, b: Assignment, c: Assignment | AssignmentLe(a, b) &&
        AssignmentLe(b, c) ensures AssignmentLe(a, c) {
      PairLeTransitive((a.guid, a.slot), (b.guid, b.slot), (c.guid, c.slot));
    }
  }

  /** What a rewritten manifest holds as its current rows, in both places. */
  function Written(p: Payload): seq<Binding> {
    if p.ownership.Some? then p.ownership.value.bindings else []
  }

  lemma WrittenRows(records: seq<Record>, live: seq<Live>, spm: int, i: nat)
    requires Plannable(records, live) && i < |records|
    ensures var p := Reconciled(records, live, spm)[i].payload;
            && p.identity == records[i].payload.identity
            && p.ownership.Some? && p.ownership.value.spm == spm && p.ownership.value.sound
            && p.ownership.value.count == |Written(p)|
            && p.connection.Some? && p.connection.value.bindings == Written(p)
            && Written(p) == RowsFor(records, live, p.identity)
  {
    assert records[i] in records;
  }

  /** Every manifest of a provider is written with exactly one row for each slot assigned to it, in
      slot order. */
  lemma EveryAssignmentIsWritten(records: seq<Record>, live: seq<Live>, spm: int, i: nat)
    requires Plannable(records, live) && i < |records|
    ensures var owned, p := Assign(records, live).value, Reconciled(records, live, spm)[i].payload;
            && p.ownership.Some? && p.connection.Some? && p.connection.value.bindings == p.ownership.value.bindings
            && |p.ownership.value.bindings| == Share(owned, records[i].payload.identity)
            && InSlotOrder(p.ownership.value.bindings)
    ensures var owned, p := Assign(records, live).value, Reconciled(records, live, spm)[i].payload;
            && (forall a :: a in owned && a.owner == records[i].payload.identity ==> HasRow(Written(p), a.binding))
            && (forall b :: b in Written(p) ==> Backed(owned, records[i].payload.identity, b))
  {
    var owner := records[i].payload.identity;
    WrittenRows(records, live, spm, i);
    RowsCounted(records, live, owner);
    RowsOrdered(records, live, owner);
    forall a | a in Assign(records, live).value &&
        a.owner == owner ensures HasRow(RowsFor(records, live, owner), a.binding) {
      RowsCover(records, live, owner, a);
    }
    forall b | b in RowsFor(records, live, owner) ensures Backed(Assign(records, live).value, owner, b) {
      RowsBacked(records, live, owner, b);
    }
  }

  /** The binding reads like the live one. */
  predicate RowIs(b: Binding, l: Live) {
    && b.guid == l.guid && b.slot == l.slot && b.index == l.index && b.name == l.name && b.gtype == l.gtype
    && b.material == l.material && b.mesh == l.mesh
  }

  /** The rows hold the live binding, or nothing at its slot. */
  predicate HoldsIt(rows: seq<Binding>, l: Live) { exists b :: b in rows && RowIs(b, l) }

  predicate Misses(rows: seq<Binding>, l: Live) { forall b :: b in rows ==> (b.guid, b.slot) != (l.guid, l.slot) }

  /** Each managed readable live binding ends with one provider: all its manifests have its row, and
      no manifest of any other provider has a row for its slot. */
  lemma EveryManagedSlotIsWritten(records: seq<Record>, live: seq<Live>, spm: int, l: Live) returns (owner: Identity)
    requires Plannable(records, live) && l in live && Readable(l)
    requires exists r :: r in records && MaterialsOf(r).Some? && l.material.value in MaterialsOf(r).value
    ensures exists r :: r in records && r.payload.identity == owner && Provides(r, l.material.value, l.mesh.value)
    ensures forall i :: 0 <= i < |records| ==>
              var rows := Written(Reconciled(records, live, spm)[i].payload);
              if records[i].payload.identity == owner then HoldsIt(rows, l) else Misses(rows, l)
  {
    var owned := Assign(records, live).value;
    EveryManagedSlotHasOneOwner(records, live, l);
    var j :| 0 <= j < |owned| && owned[j].binding == ToAssignment(l)
      && OwnersOf(records, l.material.value, l.mesh.value) == {owned[j].owner}
      && forall k :: 0 <= k < |owned| && SlotAt(owned, k) == (l.guid, l.slot) ==> k == j;
    owner := owned[j].owner;
    assert owner in OwnersOf(records, l.material.value, l.mesh.value);
    forall i | 0 <= i < |records|
      ensures var rows := Written(Reconciled(records, live, spm)[i].payload);
              if records[i].payload.identity == owner then HoldsIt(rows, l) else Misses(rows, l)
    {
      if records[i].payload.identity == owner {
        OwnerHoldsIt(records, live, spm, i, l, owned[j]);
      } else {
        OthersMissIt(records, live, spm, i, l, j);
      }
    }
  }

  lemma OwnerHoldsIt(records: seq<Record>, live: seq<Live>, spm: int, i: nat, l: Live, a: Assigned)
    requires Plannable(records, live) && i < |records| && Readable(l) && a.binding == ToAssignment(l)
    requires a in Assign(records, live).value && a.owner == records[i].payload.identity
    ensures HoldsIt(Written(Reconciled(records, live, spm)[i].payload), l)
  {
    EveryAssignmentIsWritten(records, live, spm, i);
    var rows := Written(Reconciled(records, live, spm)[i].payload);
    var b :| b in rows && RowSays(b, a.binding);
    assert RowIs(b, l);
  }

  lemma BackedAt(owned: seq<Assigned>, owner: Identity, b: Binding) returns (m: nat)
    requires Backed(owned, owner, b)
    ensures m < |owned| && owned[m].owner == owner && SlotAt(owned, m) == (b.guid, b.slot)
  {
    var a :| a in owned && a.owner == owner && RowSays(b, a.binding);
    m :| 0 <= m < |owned| && owned[m] == a;
  }

  lemma UnbackedMiss(owned: seq<Assigned>, owner: Identity, rows: seq<Binding>, l: Live, j: nat)
    requires j < |owned| && owned[j].owner != owner && forall b :: b in rows ==> Backed(owned, owner, b)
    requires forall k :: 0 <= k < |owned| && SlotAt(owned, k) == (l.guid, l.slot) ==> k == j
    ensures Misses(rows, l)
  {
    forall b | b in rows ensures (b.guid, b.slot) != (l.guid, l.slot) {
      var m := BackedAt(owned, owner, b);
    }
  }

  lemma OthersMissIt(records: seq<Record>, live: seq<Live>, spm: int, i: nat, l: Live, j: nat)
    requires Plannable(records, live) && i < |records| && j < |Assign(records, live).value|
    requires var owned := Assign(records, live).value;
             && owned[j].owner != records[i].payload.identity
             && forall k :: 0 <= k < |owned| && SlotAt(owned, k) == (l.guid, l.slot) ==> k == j
    ensures Misses(Written(Reconciled(records, live, spm)[i].payload), l)
  {
    EveryAssignmentIsWritten(records, live, spm, i);
    UnbackedMiss(Assign(records, live).value, records[i].payload.identity,
        Written(Reconciled(records, live, spm)[i].payload), l, j);
  }
}
