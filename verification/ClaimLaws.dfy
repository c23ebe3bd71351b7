/** What the rows of a manifest must look like, which keys they claim, and which of them a diagnostic
    projection keeps (atlas_manifest_resolver.py), told by the fields of the rows. */
module ClaimLaws {
  import opened Texts
  import opened ManifestClaims
  import opened ManifestResolution
  import Sorting

  // ---- Valid contract blocks ----

  /** A row of an explicit contract: a whole slot and a whole live target. */
  predicate Whole(b: Binding) {
    && b.guid != "" && b.slot != "" && b.material.Some? && b.material.value > 0
    && b.mesh.Some? && (b.mesh.value > 0 || b.mesh.value == -10)
  }

  ghost predicate OneRowASlot(bs: seq<Binding>) {
    forall j, k :: 0 <= j < k < |bs| ==> bs[j].guid != bs[k].guid || bs[j].slot != bs[k].slot
  }

  lemma {:induction false} RowsValidIff(bs: seq<Binding>, seen: set<(string, string)>)
    ensures RowsValid(bs, seen) <==>
              && OneRowASlot(bs)
              && forall k :: 0 <= k < |bs| ==> Whole(bs[k]) && (bs[k].guid, bs[k].slot) !in seen
    decreases |bs|
  {
    if bs != [] {
      var rest := bs[1..];
      assert forall k :: 0 < k < |bs| ==> bs[k] == rest[k - 1];
      assert forall k :: 0 <= k < |rest| ==> rest[k] == bs[k + 1];
      RowsValidIff(rest, seen + {SlotOf(bs[0])});
    }
  }

  lemma {:induction false} CreatorsValidIff(slots: seq<Creator>, seen: set<(string, string)>)
    ensures CreatorsValid(slots, seen) <==>
              && (forall j, k :: 0 <= j < k < |slots| ==>
                   slots[j].guid != slots[k].guid || slots[j].slot != slots[k].slot)
              && forall k :: 0 <= k < |slots| ==>
                   slots[k].guid != "" && slots[k].slot != "" && (slots[k].guid, slots[k].slot) !in seen
    decreases |slots|
  {
    if slots != [] {
      var rest := slots[1..];
      assert forall k :: 0 < k < |slots| ==> slots[k] == rest[k - 1];
      assert forall k :: 0 <= k < |rest| ==> rest[k] == slots[k + 1];
      CreatorsValidIff(rest, seen + {CreatorSlot(slots[0])});
    }
  }

  /** A row as the fingerprint sees it. */
  ghost predicate Prints(row: SlotRow, b: Binding) {
    row.guid == b.guid && row.slot == b.slot && row.material == b.material && row.mesh == b.mesh
  }

  /** The fingerprint has one entry for each row, with its slot and its target. */
  lemma FingerprintMeans(bs: seq<Binding>, row: SlotRow)
    requires forall b :: b in bs ==> Whole(b)
    ensures |OwnershipFingerprint(bs)| == |bs|
    ensures row in OwnershipFingerprint(bs) <==> exists b :: b in bs && Prints(row, b)
  {
    var rows := SlotRows(bs);
    Sorting.SortMembers(rows, SlotRowLe);
    Sorting.SameMembers(rows, OwnershipFingerprint(bs));
    forall k | 0 <= k < |bs| ensures Prints(rows[k], bs[k]) { assert bs[k] in bs; }
    if row in rows {
      var k :| 0 <= k < |rows| && rows[k] == row;
      assert bs[k] in bs;
    }
    if b :| b in bs && Prints(row, b) {
      var k :| 0 <= k < |bs| && bs[k] == b;
      assert rows[k] == row;
    }
  }

  lemma SlotRowOrder()
    ensures Sorting.TotalPreorder(SlotRowLe)
  {
    forall a: SlotRow, b: SlotRow ensures SlotRowLe(a, b) || SlotRowLe(b, a) {
      PairLeTotal((a.guid, a.slot), (b.guid, b.slot));
    }
    forall a: SlotRow, b: SlotRow, c: SlotRow | SlotRowLe(a, b) && SlotRowLe(b, c) ensures SlotRowLe(a, c) {
      PairLeTransitive((a.guid, a.slot), (b.guid, b.slot), (c.guid, c.slot));
    }
  }

  /** Listing the rows of distinct slots in another order does not change the fingerprint. */
  lemma FingerprintOrderFree(a: seq<Binding>, b: seq<Binding>)
    requires multiset(SlotRows(a)) == multiset(SlotRows(b)) && OneRowASlot(a)
    ensures OwnershipFingerprint(a) == OwnershipFingerprint(b)
  {
    SlotRowOrder();
    var rows := SlotRows(a);
    forall j, k | 0 <= j < k < |rows| ensures !(SlotRowLe(rows[j], rows[k]) && SlotRowLe(rows[k], rows[j])) {
      PairLeTotal((rows[j].guid, rows[j].slot), (rows[k].guid, rows[k].slot));
    }
    Sorting.SortCanonical(rows, SlotRows(b), SlotRowLe);
  }

  // ---- When a record loads, in fields ----

  /** An explicit ownership block is accepted exactly when it is of the right kind, counts its rows,
      gives each slot one whole row, and is sealed by the fingerprint of those rows. */
  lemma OwnershipValidIff(o: Ownership)
    ensures OwnershipValid(o) <==>
              && o.sound && o.count == |o.bindings| && OneRowASlot(o.bindings)
              && (forall k :: 0 <= k < |o.bindings| ==> Whole(o.bindings[k]))
              && o.fingerprint == OwnershipFingerprint(o.bindings)
  {
    RowsValidIff(o.bindings, {});
  }

  /** Final groups when there are any, else the early ones; an explicit block, even an empty one,
      in place of the run evidence. */
  lemma EvidenceMeans(p: Payload)
    ensures p.finalGroups.Some? && |p.finalGroups.value| > 0 ==> MaterialGroups(p) == p.finalGroups.value
    ensures p.finalGroups.None? || |p.finalGroups.value| == 0 ==>
              MaterialGroups(p) == if p.earlyGroups.Some? then p.earlyGroups.value else []
    ensures p.ownership.Some? ==> CurrentBindings(p) == p.ownership.value.bindings
    ensures p.ownership.None? && p.connection.Some? ==> CurrentBindings(p) == p.connection.value.bindings
    ensures p.ownership.None? && p.connection.None? ==> CurrentBindings(p) == []
  {}

  // ---- Which rows claim one slot ----

  /** Two rows of an explicit block claim one slot exactly when Generator and slot are the same. */
  lemma ExplicitSlots(a: Binding, b: Binding)
    ensures BindingKey(a, true).Some? <==> a.guid != "" && a.slot != ""
    ensures BindingKey(a, true).Some? ==> (BindingKey(a, true) == BindingKey(b, true) <==>
        a.guid == b.guid && a.slot == b.slot)
  {}

  /** A row without target fields claims its slot whatever the case of its texts; without a
      Generator id the index stands in, and without that the name. */
  lemma LegacySlots(a: Binding, b: Binding)
    requires !a.hasTarget && !b.hasTarget
    ensures BindingKey(a, false).Some? <==> a.slot != "" && (a.guid != "" || a.index != "" || a.name != "")
    ensures BindingKey(a, false).Some? && BindingKey(b, false).Some? ==>
              (BindingKey(a, false) == BindingKey(b, false) <==>
                 && Fold(a.slot) == Fold(b.slot) && (a.guid == "" <==> b.guid == "")
                 && if a.guid != "" then Fold(a.guid) == Fold(b.guid)
                    else (a.index == "" <==> b.index == "")
                         && if a.index != "" then a.index == b.index else Fold(a.name) == Fold(b.name))
  {
    assert forall s: string :: |Fold(s)| == |s|;
  }

  /** A row with a target is read exactly; only a Generator name forgets its case. */
  lemma TargetedSlots(a: Binding, b: Binding)
    requires a.hasTarget && b.hasTarget
    ensures BindingKey(a, false).Some? <==> a.slot != "" && (a.guid != "" || a.index != "" || a.name != "")
    ensures BindingKey(a, false).Some? && BindingKey(b, false).Some? ==>
              (BindingKey(a, false) == BindingKey(b, false) <==>
                 && a.slot == b.slot && a.guid == b.guid
                 && (a.guid == "" ==> a.index == b.index && (a.index == "" ==> Fold(a.name) == Fold(b.name))))
  {}

  /** A group claims its name, in any case, and its material ID. */
  lemma GroupClaimsMean(g: Group, key: ClaimKey)
    ensures key in GroupKeys(g) <==>
              || (g.name != "" && key == MaterialName(Fold(g.name)))
              || (g.idText != "" && key == MaterialId(g.idText))
  {}

  /** Two texts fold to one exactly when they differ in the case of letters A to Z only. */
  lemma FoldMeans(a: string, b: string)
    ensures Fold(a) == Fold(b) <==> |a| == |b| && forall k :: 0 <= k < |a| ==> SameLetter(a[k], b[k])
  {
    if Fold(a) == Fold(b) {
      forall k | 0 <= k < |a| ensures SameLetter(a[k], b[k]) {
        assert Fold(a)[k] == Fold(b)[k];
      }
    }
  }

  predicate SameLetter(a: char, b: char) {
    || a == b
    || ('A' <= a <= 'Z' && b as int == a as int + 32)
    || ('A' <= b <= 'Z' && a as int == b as int + 32)
  }

  // ---- What a projection keeps ----

  lemma Cons<T>(a: seq<T>, b: seq<T>)
    requires a != []
    ensures a + b != [] && (a + b)[0] == a[0] && (a + b)[1..] == a[1..] + b
  {}

  lemma Associative<T>(a: seq<T>, b: seq<T>, c: seq<T>)
    ensures (a + b) + c == a + (b + c)
  {}

  lemma {:induction false} GroupsJoin(a: seq<Group>, b: seq<Group>, allowed: set<ClaimKey>)
    ensures KeepGroups(a + b, allowed) == KeepGroups(a, allowed) + KeepGroups(b, allowed)
  {
    if a == [] {
      assert a + b == b;
    } else {
      Cons(a, b);
      GroupsJoin(a[1..], b, allowed);
      var keys := GroupKeys(a[0]);
      Associative(if keys != {} &&
          keys <= allowed then [a[0]] else [], KeepGroups(a[1..], allowed), KeepGroups(b, allowed));
    }
  }

  lemma {:induction false} BindingsJoin(a: seq<Binding>, b: seq<Binding>, explicit: bool, allowed: set<ClaimKey>)
    ensures KeepBindings(a + b, explicit, allowed) ==
        KeepBindings(a, explicit, allowed) + KeepBindings(b, explicit, allowed)
  {
    if a == [] {
      assert a + b == b;
    } else {
      Cons(a, b);
      BindingsJoin(a[1..], b, explicit, allowed);
      var key := BindingKey(a[0], explicit);
      Associative(if key.Some? && key.value in allowed then [a[0]] else [],
                  KeepBindings(a[1..], explicit, allowed), KeepBindings(b, explicit, allowed));
    }
  }

  /** A group is kept, in its place, exactly when it claims something and nothing it claims is
      outside `allowed`. */
  lemma GroupKept(a: seq<Group>, g: Group, b: seq<Group>, allowed: set<ClaimKey>)
    ensures var free := (g.name != "" || g.idText != "") && forall key :: key in GroupKeys(g) ==> key in allowed;
            KeepGroups(a + [g] + b, allowed) ==
                KeepGroups(a, allowed) + (if free then [g] else []) + KeepGroups(b, allowed)
  {
    GroupsJoin(a + [g], b, allowed);
    GroupsJoin(a, [g], allowed);
    assert [g][1..] == [];
    assert (g.name != "" || g.idText != "") <==> GroupKeys(g) != {} by {
      if g.name != "" { assert MaterialName(Fold(g.name)) in GroupKeys(g); }
      if g.idText != "" { assert MaterialId(g.idText) in GroupKeys(g); }
    }
  }

  lemma BindingKept(a: seq<Binding>, b: Binding, c: seq<Binding>, explicit: bool, allowed: set<ClaimKey>)
    ensures var free := exists key :: key in allowed && BindingKey(b, explicit) == Some(key);
            KeepBindings(a + [b] + c, explicit, allowed) ==
                KeepBindings(a, explicit, allowed) + (if free then [b] else []) + KeepBindings(c, explicit, allowed)
  {
    BindingsJoin(a + [b], c, explicit, allowed);
    BindingsJoin(a, [b], explicit, allowed);
    OneBinding(b, explicit, allowed);
  }

  lemma OneBinding(b: Binding, explicit: bool, allowed: set<ClaimKey>)
    ensures KeepBindings([b], explicit, allowed) ==
        if exists key :: key in allowed && BindingKey(b, explicit) == Some(key) then [b] else []
  {
    assert [b][1..] == [];
  }

  lemma {:induction false} KeptAre(bs: seq<Binding>, explicit: bool, allowed: set<ClaimKey>, b: Binding)
    ensures b in KeepBindings(bs, explicit, allowed) <==>
              b in bs && exists key :: key in allowed && BindingKey(b, explicit) == Some(key)
  {
    if bs != [] {
      assert bs == [bs[0]] + bs[1..];
      KeptAre(bs[1..], explicit, allowed, b);
    }
  }

  lemma {:induction false} KeptGroupsAre(groups: seq<Group>, allowed: set<ClaimKey>, g: Group)
    ensures g in KeepGroups(groups, allowed) <==>
              g in groups && GroupKeys(g) != {} && forall key :: key in GroupKeys(g) ==> key in allowed
  {
    if groups != [] {
      assert groups == [groups[0]] + groups[1..];
      KeptGroupsAre(groups[1..], allowed, g);
    }
  }

  /** Something of the record is its own: a claim nobody holds, carried by a group, a binding or
      the record itself. */
  ghost predicate Offers(c: Candidate, taken: set<ClaimKey>) {
    || (exists b :: b in CurrentBindings(c.payload) && OffersRow(c, taken, b))
    || (c.payload.finalGroups.Some? && exists g :: g in c.payload.finalGroups.value && OffersGroup(c, taken, g))
    || (c.payload.earlyGroups.Some? && exists g :: g in c.payload.earlyGroups.value && OffersGroup(c, taken, g))
    || (exists key :: key in c.claims && key !in taken && key.RecordOf?)
  }

  ghost predicate OffersRow(c: Candidate, taken: set<ClaimKey>, b: Binding) {
    exists key :: key in c.claims && key !in taken && BindingKey(b, c.payload.ownership.Some?) == Some(key)
  }

  ghost predicate OffersGroup(c: Candidate, taken: set<ClaimKey>, g: Group) {
    GroupKeys(g) != {} && forall key :: key in GroupKeys(g) ==> key in c.claims && key !in taken
  }

  /** A conflicting record is carried into the audit exactly when it offers something, and then
      with exactly the rows, groups and claims that it offers. */
  lemma ProjectionIff(c: Candidate, taken: set<ClaimKey>, b: Binding, g: Group, key: ClaimKey)
    ensures Project(c, taken).Some? <==> Offers(c, taken)
    ensures Project(c, taken).Some? ==>
              var q := Project(c, taken).value;
              && (b in CurrentBindings(q.payload) <==> b in CurrentBindings(c.payload) && OffersRow(c, taken, b))
              && SameField(q.payload.finalGroups, c.payload.finalGroups, g, OffersGroup(c, taken, g))
              && SameField(q.payload.earlyGroups, c.payload.earlyGroups, g, OffersGroup(c, taken, g))
              && (key in q.claims <==> key in c.claims && key !in taken)
              && q.payload.seals == 0 && q.payload.identity == c.payload.identity
  {
    var allowed, explicit := c.claims.Keys - taken, c.payload.ownership.Some?;
    var p := ProjectPayload(c.payload, allowed);
    assert CurrentBindings(p) == KeepBindings(CurrentBindings(c.payload), explicit, allowed);
    KeptAre(CurrentBindings(c.payload), explicit, allowed, b);
    BindingsNone(c, taken);
    FieldKept(c, taken, c.payload.finalGroups, g);
    FieldKept(c, taken, c.payload.earlyGroups, g);
    FieldNone(c, taken, c.payload.finalGroups);
    FieldNone(c, taken, c.payload.earlyGroups);
    OffersAllowed(c, taken);
  }

  /** The field keeps the group exactly when it had it and the record offers it. */
  ghost predicate SameField(now: Option<seq<Group>>, was: Option<seq<Group>>, g: Group, offered: bool) {
    && (now.Some? <==> was.Some?)
    && (now.Some? ==> (g in now.value <==> g in was.value && offered))
  }

  lemma FieldKept(c: Candidate, taken: set<ClaimKey>, field: Option<seq<Group>>, g: Group)
    ensures SameField(KeepField(field, c.claims.Keys - taken), field, g, OffersGroup(c, taken, g))
  {
    if field.Some? { KeptGroupsAre(field.value, c.claims.Keys - taken, g); }
  }

  lemma FieldNone(c: Candidate, taken: set<ClaimKey>, field: Option<seq<Group>>)
    ensures field.Some? ==>
              (KeepField(field, c.claims.Keys - taken).value == [] <==>
                 forall g :: g in field.value ==> !OffersGroup(c, taken, g))
  {
    if field.Some? {
      var kept := KeepField(field, c.claims.Keys - taken).value;
      if kept != [] {
        assert kept[0] in kept;
        KeptGroupsAre(field.value, c.claims.Keys - taken, kept[0]);
      }
      if g :| g in field.value && OffersGroup(c, taken, g) {
        KeptGroupsAre(field.value, c.claims.Keys - taken, g);
      }
    }
  }

  lemma BindingsNone(c: Candidate, taken: set<ClaimKey>)
    ensures var bs := CurrentBindings(c.payload);
            KeepBindings(bs, c.payload.ownership.Some?, c.claims.Keys - taken) == [] <==>
              forall b :: b in bs ==> !OffersRow(c, taken, b)
  {
    var bs, explicit, allowed := CurrentBindings(c.payload), c.payload.ownership.Some?, c.claims.Keys - taken;
    var kept := KeepBindings(bs, explicit, allowed);
    if kept != [] {
      assert kept[0] in kept;
      KeptAre(bs, explicit, allowed, kept[0]);
    }
    if b :| b in bs && OffersRow(c, taken, b) {
      KeptAre(bs, explicit, allowed, b);
    }
  }

  lemma WithinAllowed(keys: set<ClaimKey>, allowed: set<ClaimKey>)
    requires keys != {} && forall key :: key in keys ==> key in allowed
    ensures allowed != {}
  {
    assert keys <= allowed;
  }

  lemma GroupAllowed(c: Candidate, taken: set<ClaimKey>, g: Group)
    requires OffersGroup(c, taken, g)
    ensures c.claims.Keys - taken != {}
  {
    WithinAllowed(GroupKeys(g), c.claims.Keys - taken);
  }

  lemma OffersAllowed(c: Candidate, taken: set<ClaimKey>)
    ensures Offers(c, taken) ==> c.claims.Keys - taken != {}
  {
    if b :| b in CurrentBindings(c.payload) && OffersRow(c, taken, b) {
      var key :| key in c.claims && key !in taken && BindingKey(b, c.payload.ownership.Some?) == Some(key);
      assert key in c.claims.Keys - taken;
    } else if key :| key in c.claims && key !in taken && key.RecordOf? {
      assert key in c.claims.Keys - taken;
    } else if Offers(c, taken) {
      var g :| OffersGroup(c, taken, g);
      GroupAllowed(c, taken, g);
    }
  }

  // ---- When bindings load, in fields ----

  /** The row names a slot, and is one that has to name a live target. */
  predicate Aims(b: Binding, explicit: bool) {
    && b.slot != "" && (b.guid != "" || (!explicit && (b.index != "" || b.name != "")))
    && (explicit || b.hasTarget)
  }

  /** By Generator id; without one by index, without that by name in any case. */
  predicate SameSlot(a: Binding, b: Binding) {
    a.slot == b.slot && a.guid == b.guid
    && (a.guid == "" ==> a.index == b.index && (a.index == "" ==> Fold(a.name) == Fold(b.name)))
  }

  lemma AimsIff(a: Binding, b: Binding, explicit: bool)
    ensures Targeting(a, explicit) <==> Aims(a, explicit)
    ensures Aims(a, explicit) && Aims(b, explicit) ==>
              (BindingKey(a, explicit) == BindingKey(b, explicit) <==> SameSlot(a, b))
  {
    if Aims(a, explicit) && Aims(b, explicit) && !explicit { TargetedSlots(a, b); }
  }

  /** The bindings of a record load exactly when each row that has to names a positive material and a
      mesh, or the default cutout, and no two of them aim at one slot. */
  lemma LoadableIff(bs: seq<Binding>, explicit: bool)
    ensures Loadable(bs, explicit, {}) <==>
              && (forall k :: 0 <= k < |bs| && Aims(bs[k], explicit) ==>
                   && bs[k].material.Some? && bs[k].material.value > 0
                   && bs[k].mesh.Some? && (bs[k].mesh.value > 0 || bs[k].mesh.value == -10))
              && forall j, k :: 0 <= j < k < |bs| && Aims(bs[j], explicit) && Aims(bs[k], explicit) ==>
                  !SameSlot(bs[j], bs[k])
  {
    forall j, k | 0 <= j < |bs| && 0 <= k < |bs|
      ensures Targeting(bs[j], explicit) <==> Aims(bs[j], explicit)
      ensures Aims(bs[j], explicit) && Aims(bs[k], explicit) ==>
                (BindingKey(bs[j], explicit) == BindingKey(bs[k], explicit) <==> SameSlot(bs[j], bs[k]))
    {
      AimsIff(bs[j], bs[k], explicit);
    }
  }

  /** Records without rows of their own claim their target, or, as target scopes, their scope. */
  lemma RecordKeysMeet(i: Identity, j: Identity, kind: Kind, other: Kind)
    ensures var scope, otherScope := kind == TargetScope && i.scope != "", other == TargetScope && j.scope != "";
            RecordKey(i, kind) == RecordKey(j, other) <==> scope == otherScope && (scope ==> i.scope == j.scope)
  {}
}
