/** The diagnostic projection at payload level (atlas_manifest_resolver.py): whatever claims
    are derived again from a projected payload stay clear of the claims held before it. */
module ManifestProjection {
  import opened Texts
  import opened ManifestClaims
  import opened ManifestResolution

  /** A record carries the claims that its payload makes. */
  ghost predicate Derived(c: Candidate) {
    ClaimsOf(c.payload, c.kind) == Ok(c.claims)
  }

  lemma {:induction false} KeptGroupKeys(groups: seq<Group>, allowed: set<ClaimKey>)
    ensures GroupsKeys(KeepGroups(groups, allowed)) <= allowed
    ensures KeepGroups(groups, allowed) != [] ==> GroupsKeys(KeepGroups(groups, allowed)) != {}
  {
    if groups != [] {
      KeptGroupKeys(groups[1..], allowed);
      var g, rest := groups[0], KeepGroups(groups[1..], allowed);
      if GroupKeys(g) != {} && GroupKeys(g) <= allowed {
        assert ([g] + rest)[1..] == rest;
        assert GroupsKeys([g] + rest) == GroupKeys(g) + GroupsKeys(rest);
      } else {
        assert [] + rest == rest;
      }
    }
  }

  lemma KeptHead(b: Binding, bs: seq<Binding>, explicit: bool, allowed: set<ClaimKey>)
    ensures var key, rest := BindingKey(b, explicit), KeepBindings(bs, explicit, allowed);
            KeepBindings([b] + bs, explicit, allowed) == if key.Some? && key.value in allowed then [b] + rest else rest
  {
    assert ([b] + bs)[1..] == bs;
    assert [] + KeepBindings(bs, explicit, allowed) == KeepBindings(bs, explicit, allowed);
  }

  lemma {:induction false} KeptBindingKeys(bs: seq<Binding>, explicit: bool, allowed: set<ClaimKey>)
    ensures BindingsKeys(KeepBindings(bs, explicit, allowed), explicit) <= allowed
    ensures KeepBindings(bs, explicit, allowed) != [] ==>
              BindingsKeys(KeepBindings(bs, explicit, allowed), explicit) != {}
  {
    if bs != [] {
      KeptBindingKeys(bs[1..], explicit, allowed);
      assert bs == [bs[0]] + bs[1..];
      KeptHead(bs[0], bs[1..], explicit, allowed);
      var rest := KeepBindings(bs[1..], explicit, allowed);
      assert ([bs[0]] + rest)[1..] == rest;
    }
  }

  lemma {:induction false} KeptRowsValid(
      bs: seq<Binding>, allowed: set<ClaimKey>, seen: set<(string, string)>, fewer: set<(string, string)>)
    requires RowsValid(bs, seen) && fewer <= seen
    ensures RowsValid(KeepBindings(bs, true, allowed), fewer)
    decreases |bs|
  {
    if bs != [] {
      assert bs == [bs[0]] + bs[1..];
      KeptHead(bs[0], bs[1..], true, allowed);
      var rest := KeepBindings(bs[1..], true, allowed);
      assert ([bs[0]] + rest)[1..] == rest;
      KeptRowsValid(bs[1..], allowed, seen + {SlotOf(bs[0])}, fewer);
      KeptRowsValid(bs[1..], allowed, seen + {SlotOf(bs[0])}, fewer + {SlotOf(bs[0])});
    }
  }

  lemma {:induction false} KeptBindingsLoad(
      bs: seq<Binding>, explicit: bool, identity: Identity, allowed: set<ClaimKey>,
      claims: Claims, seen: set<ClaimKey>, fewerClaims: Claims, fewer: set<ClaimKey>)
    requires WithBindings(claims, seen, bs, explicit, identity).Ok? && fewer <= seen
    ensures WithBindings(fewerClaims, fewer, KeepBindings(bs, explicit, allowed), explicit, identity).Ok?
    decreases |bs|
  {
    if bs != [] {
      var b, key := bs[0], BindingKey(bs[0], explicit);
      assert bs == [b] + bs[1..];
      KeptHead(b, bs[1..], explicit, allowed);
      var rest := KeepBindings(bs[1..], explicit, allowed);
      assert ([b] + rest)[1..] == rest;
      if key.None? {
        KeptBindingsLoad(bs[1..], explicit, identity, allowed, claims, seen, fewerClaims, fewer);
      } else if Untargeted(b, explicit) {
        var more := claims[key.value := RowClaim(identity, b)];
        KeptBindingsLoad(bs[1..], explicit, identity, allowed, more, seen, fewerClaims, fewer);
        KeptBindingsLoad(bs[1..], explicit, identity, allowed, more, seen,
            fewerClaims[key.value := RowClaim(identity, b)], fewer);
      } else {
        var claim := SlotClaim(identity, key.value.owner, key.value.slot, TargetMaterial(b).value, TargetMesh(b).value);
        var more := claims[key.value := claim];
        KeptBindingsLoad(bs[1..], explicit, identity, allowed, more, seen + {key.value}, fewerClaims, fewer);
        KeptBindingsLoad(bs[1..], explicit, identity, allowed, more, seen + {key.value},
                         fewerClaims[key.value := claim], fewer + {key.value});
      }
    }
  }

  lemma {:induction false} BindingsKeysAreSlots(bs: seq<Binding>, explicit: bool)
    ensures forall key :: key in BindingsKeys(bs, explicit) ==> key.GeneratorSlot?
  {
    if bs != [] { BindingsKeysAreSlots(bs[1..], explicit); }
  }

  lemma {:induction false} GroupsKeysAreMaterials(groups: seq<Group>)
    ensures forall key :: key in GroupsKeys(groups) ==> key.MaterialName? || key.MaterialId?
  {
    if groups != [] { GroupsKeysAreMaterials(groups[1..]); }
  }

  lemma RecordKeyOnlyAlone(p: Payload, kind: Kind)
    requires ClaimsOf(p, kind).Ok?
    ensures forall key :: key in ClaimsOf(p, kind).claims && key.RecordOf? ==>
              ClaimsOf(p, kind).claims.Keys == {RecordKey(p.identity, kind)}
  {
    BindingsKeysAreSlots(CurrentBindings(p), p.ownership.Some?);
    GroupsKeysAreMaterials(MaterialGroups(p));
  }

  lemma ProjectedLoads(c: Candidate, allowed: set<ClaimKey>)
    requires Derived(c)
    ensures ClaimsOf(ProjectPayload(c.payload, allowed), c.kind).Ok?
  {
    var p, q := c.payload, ProjectPayload(c.payload, allowed);
    var explicit := p.ownership.Some?;
    if explicit {
      KeptRowsValid(p.ownership.value.bindings, allowed, {}, {});
    }
    assert CurrentBindings(q) == KeepBindings(CurrentBindings(p), explicit, allowed);
    KeptBindingsLoad(CurrentBindings(p), explicit, p.identity, allowed,
                     WithGroups(map[], MaterialGroups(p), p.identity), {},
                     WithGroups(map[], MaterialGroups(q), q.identity), {});
  }

  lemma ProjectedGroupKeys(p: Payload, allowed: set<ClaimKey>)
    ensures var q := ProjectPayload(p, allowed);
            && GroupsKeys(MaterialGroups(q)) <= allowed
            && (GroupsKeys(MaterialGroups(q)) == {} ==>
                 && (q.finalGroups.None? || q.finalGroups.value == [])
                 && (q.earlyGroups.None? || q.earlyGroups.value == []))
  {
    if p.finalGroups.Some? { KeptGroupKeys(p.finalGroups.value, allowed); }
    if p.earlyGroups.Some? { KeptGroupKeys(p.earlyGroups.value, allowed); }
  }

  /** A projected payload is again a valid record, and every claim key derived from it is
      among the projected claims, so it meets no claim that was already taken. */
  lemma RederivedKeysDisjoint(c: Candidate, taken: set<ClaimKey>)
    requires Derived(c) && Project(c, taken).Some?
    ensures var q := Project(c, taken).value;
            && ClaimsOf(q.payload, q.kind).Ok?
            && ClaimsOf(q.payload, q.kind).claims.Keys <= q.claims.Keys
            && ClaimsOf(q.payload, q.kind).claims.Keys !! taken
  {
    var allowed := c.claims.Keys - taken;
    var p, q := c.payload, ProjectPayload(c.payload, allowed);
    var explicit := p.ownership.Some?;
    ProjectedLoads(c, allowed);
    ProjectedGroupKeys(p, allowed);
    KeptBindingKeys(CurrentBindings(p), explicit, allowed);
    assert CurrentBindings(q) == KeepBindings(CurrentBindings(p), explicit, allowed);
    if GroupsKeys(MaterialGroups(q)) + BindingsKeys(CurrentBindings(q), explicit) == {} {
      var key :| key in allowed && key.RecordOf?;
      RecordKeyOnlyAlone(p, c.kind);
      assert RecordKey(q.identity, c.kind) == key;
    }
  }

  lemma ConflictStep(st: Resolution, c: Candidate)
    requires FoldStep(st, c, true).conflicting != st.conflicting
    ensures var projected := Project(c, st.winners.Keys);
            FoldStep(st, c, true).selected == st.selected + if projected.Some? then [projected.value] else []
    ensures Project(c, st.winners.Keys).Some? ==> Project(c, st.winners.Keys).value.path == c.path
  {}

  /** Through the diagnostic fold: each conflicting record either adds nothing or adds a
      projection whose payload claims nothing that any earlier winner claims. */
  lemma DiagnosticStepSound(st: Resolution, c: Candidate)
    requires Derived(c)
    ensures var t := FoldStep(st, c, true);
            t.conflicting != st.conflicting ==>
              || t.selected == st.selected
              || (&& |t.selected| == |st.selected| + 1 && t.selected[..|st.selected|] == st.selected
                  && var q := t.selected[|st.selected|];
                     && q.path == c.path && ClaimsOf(q.payload, q.kind).Ok?
                     && ClaimsOf(q.payload, q.kind).claims.Keys !! st.winners.Keys)
  {
    if FoldStep(st, c, true).conflicting != st.conflicting {
      ConflictStep(st, c);
      if Project(c, st.winners.Keys).Some? { RederivedKeysDisjoint(c, st.winners.Keys); }
    }
  }

  // ---- The whole diagnostic fold ----

  /** Selected record `k` is a whole record, or reloads and claims nothing that any record selected
      before it claims. */
  ghost predicate WholeOrDisjoint(selected: seq<Candidate>, cs: seq<Candidate>, k: nat)
    requires k < |selected|
  {
    var q := selected[k];
    || q in cs
    || (&& ClaimsOf(q.payload, q.kind).Ok?
        && forall j :: 0 <= j < k ==> ClaimsOf(q.payload, q.kind).claims.Keys !! selected[j].claims.Keys)
  }

  ghost predicate AllWholeOrDisjoint(selected: seq<Candidate>, cs: seq<Candidate>) {
    forall k :: 0 <= k < |selected| ==> WholeOrDisjoint(selected, cs, k)
  }

  lemma WholeOrDisjointSnoc(selected: seq<Candidate>, cs: seq<Candidate>, q: Candidate)
    requires AllWholeOrDisjoint(selected, cs) && WholeOrDisjoint(selected + [q], cs, |selected|)
    ensures AllWholeOrDisjoint(selected + [q], cs)
  {
    forall k | 0 <= k < |selected| + 1 ensures WholeOrDisjoint(selected + [q], cs, k) {
      if k < |selected| { assert WholeOrDisjoint(selected, cs, k); }
    }
  }

  lemma AvoidsOne(st: Resolution, keys: set<ClaimKey>, w: Candidate)
    requires Coherent(st) && w in st.selected && keys !! st.winners.Keys
    ensures keys !! w.claims.Keys
  {}

  /** Winners hold all claims of all selected records, so what avoids them avoids each of those. */
  lemma AvoidsSelected(st: Resolution, cs: seq<Candidate>, q: Candidate)
    requires Coherent(st) && ClaimsOf(q.payload, q.kind).Ok?
    requires ClaimsOf(q.payload, q.kind).claims.Keys !! st.winners.Keys
    ensures WholeOrDisjoint(st.selected + [q], cs, |st.selected|)
  {
    var keys := ClaimsOf(q.payload, q.kind).claims.Keys;
    forall j | 0 <= j < |st.selected| ensures keys !! (st.selected + [q])[j].claims.Keys {
      AvoidsOne(st, keys, st.selected[j]);
    }
  }

  lemma DiagnosticStepKeeps(st: Resolution, cs: seq<Candidate>, c: Candidate)
    requires Coherent(st) && Derived(c) && c in cs && AllWholeOrDisjoint(st.selected, cs)
    ensures AllWholeOrDisjoint(FoldStep(st, c, true).selected, cs)
  {
    var t := FoldStep(st, c, true);
    if t.conflicting != st.conflicting {
      ConflictStep(st, c);
      var projected := Project(c, st.winners.Keys);
      if projected.Some? {
        RederivedKeysDisjoint(c, st.winners.Keys);
        AvoidsSelected(st, cs, projected.value);
        WholeOrDisjointSnoc(st.selected, cs, projected.value);
      } else {
        assert t.selected == st.selected;
      }
    } else if t.selected != st.selected {
      WholeSelected(st, c);
      WholeOrDisjointSnoc(st.selected, cs, c);
    }
  }

  lemma WholeSelected(st: Resolution, c: Candidate)
    requires FoldStep(st, c, true).conflicting == st.conflicting && FoldStep(st, c, true).selected != st.selected
    ensures FoldStep(st, c, true).selected == st.selected + [c]
  {}

  lemma {:induction false} DiagnosticFoldSound(st: Resolution, cs: seq<Candidate>, rest: seq<Candidate>)
    requires Coherent(st) && AllWholeOrDisjoint(st.selected, cs)
    requires forall c :: c in rest ==> c in cs && Derived(c)
    ensures AllWholeOrDisjoint(FoldAll(st, rest, true).selected, cs)
    decreases |rest|
  {
    if rest != [] {
      StepCoherent(st, rest[0], true);
      DiagnosticStepKeeps(st, cs, rest[0]);
      DiagnosticFoldSound(FoldStep(st, rest[0], true), cs, rest[1..]);
    }
  }
}
