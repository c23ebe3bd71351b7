/** Atlas manifest payloads and the ownership claims they make (atlas_manifest_resolver.py).

    Texts are taken already stripped, integers already read, and paths already normalized.
    A fingerprint is modelled by the exact rows that are hashed. */
module ManifestClaims {
  import opened Texts
  import Sorting

  type Path = string

  /** The normalized source identity: blend file, collection and export scope. */
  datatype Identity = Identity(blend: string, collection: string, scope: string)

  /** One material group. `core` stands for the rest of the row, `derived` for the derived
      texture fields that claims ignore. */
  datatype Group = Group(
    name: string, idText: string, idNumber: Option<int>, meshIds: set<int>, core: int, derived: int)

  /** One Generator binding row. `hasTarget` says whether either target field is present;
      `creation` stands for the creator-only property fields, 0 when there are none. */
  datatype Binding = Binding(
    guid: string, slot: string, index: string, name: string, gtype: string,
    hasTarget: bool, material: Option<int>, mesh: Option<int>,
    created: bool, state: string, creation: int, rest: int)

  datatype Reason = SlotMissing | SameProviderRebound | ExactSuccessor

  /** A row a provider no longer owns, with the live binding that replaced it. */
  datatype History = History(
    row: Binding, reason: Reason, liveMaterial: int, liveMesh: int, successor: Option<Identity>)

  datatype Connection = Connection(
    bindings: seq<Binding>, authored: Option<seq<Binding>>, relinquished: Option<seq<History>>, rest: int)

  datatype SlotRow = SlotRow(guid: string, slot: string, material: Option<int>, mesh: Option<int>)

  /** `generator_binding_ownership`; `sound` is false for a wrong contract, version or shape. */
  datatype Ownership = Ownership(
    sound: bool, bindings: seq<Binding>, count: int, fingerprint: seq<SlotRow>, spm: int)

  /** A creator row: kept from an explicit block, or read off an old binding. */
  datatype CreatorBody = Recorded(content: int) | FromBinding(row: Binding)
  datatype Creator = Creator(guid: string, slot: string, body: CreatorBody)

  datatype Provenance = Provenance(sound: bool, slots: seq<Creator>, count: int, fingerprint: seq<Creator>)

  datatype Payload = Payload(
    spm: Path, retired: bool, schemaSupported: bool, targetManifest: Path,
    identity: Identity,
    finalGroups: Option<seq<Group>>, earlyGroups: Option<seq<Group>>,
    connection: Option<Connection>, ownership: Option<Ownership>, provenance: Option<Provenance>,
    tombstone: int, seals: int, rest: int)

  datatype Kind = PerTarget | TargetScope | GlobalTarget

  function Precedence(kind: Kind): nat {
    match kind
    case PerTarget => 0
    case TargetScope => 1
    case GlobalTarget => 2
  }

  // ---- Slot rows, their order and their fingerprints ----

  function TargetMaterial(b: Binding): (r: Option<int>)
    ensures r.Some? ==> r.value > 0
  {
    if b.material.Some? && b.material.value > 0 then b.material else None
  }

  /** A positive Mesh ID, or SpeedTree's default cutout, -10. */
  function TargetMesh(b: Binding): (r: Option<int>)
    ensures r.Some? ==> r.value > 0 || r.value == -10
  {
    if b.mesh.Some? && (b.mesh.value > 0 || b.mesh.value == -10) then b.mesh else None
  }

  function SlotOf(b: Binding): (string, string) { (b.guid, b.slot) }

  function SlotRowOf(b: Binding): SlotRow { SlotRow(b.guid, b.slot, TargetMaterial(b), TargetMesh(b)) }

  function SlotRows(bs: seq<Binding>): (r: seq<SlotRow>)
    ensures |r| == |bs| && forall i :: 0 <= i < |bs| ==> r[i] == SlotRowOf(bs[i])
  {
    seq(|bs|, i requires 0 <= i < |bs| => SlotRowOf(bs[i]))
  }

  predicate SlotRowLe(a: SlotRow, b: SlotRow) { PairLe((a.guid, a.slot), (b.guid, b.slot)) }

  /** `generator_binding_ownership_fingerprint`. */
  function OwnershipFingerprint(bs: seq<Binding>): seq<SlotRow> {
    Sorting.Sort(SlotRows(bs), SlotRowLe)
  }

  function CreatorSlot(c: Creator): (string, string) { (c.guid, c.slot) }

  /** The source breaks ties by the row's text; valid rows never tie. */
  predicate CreatorLe(a: Creator, b: Creator) { PairLe(CreatorSlot(a), CreatorSlot(b)) }

  function ProvenanceFingerprint(slots: seq<Creator>): seq<Creator> {
    Sorting.Sort(slots, CreatorLe)
  }

  // ---- The two explicit contracts ----

  /** Complete rows, no two for one slot, none for a slot in `seen`. */
  predicate RowsValid(bs: seq<Binding>, seen: set<(string, string)>) {
    bs != [] ==>
      && bs[0].guid != "" && bs[0].slot != ""
      && TargetMaterial(bs[0]).Some? && TargetMesh(bs[0]).Some?
      && SlotOf(bs[0]) !in seen
      && RowsValid(bs[1..], seen + {SlotOf(bs[0])})
  }

  predicate OwnershipValid(o: Ownership) {
    o.sound && o.count == |o.bindings| && RowsValid(o.bindings, {}) && o.fingerprint == OwnershipFingerprint(o.bindings)
  }

  predicate CreatorsValid(slots: seq<Creator>, seen: set<(string, string)>) {
    slots != [] ==>
      && slots[0].guid != "" && slots[0].slot != "" && CreatorSlot(slots[0]) !in seen
      && CreatorsValid(slots[1..], seen + {CreatorSlot(slots[0])})
  }

  predicate ProvenanceValid(p: Provenance) {
    p.sound && p.count == |p.slots| && CreatorsValid(p.slots, {}) && p.fingerprint == ProvenanceFingerprint(p.slots)
  }

  /** An explicit ownership block, even an empty one, replaces the run evidence. */
  function CurrentBindings(p: Payload): seq<Binding> {
    if p.ownership.Some? then p.ownership.value.bindings
    else if p.connection.Some? then p.connection.value.bindings
    else []
  }

  function MaterialGroups(p: Payload): seq<Group> {
    if p.finalGroups.Some? && p.finalGroups.value != [] then p.finalGroups.value
    else if p.earlyGroups.Some? then p.earlyGroups.value
    else []
  }

  // ---- Claims ----

  datatype Owner = GuidOwner(guid: string) | IndexOwner(index: string) | NameOwner(name: string)

  datatype ClaimKey =
    | MaterialName(name: string)
    | MaterialId(id: string)
    | GeneratorSlot(owner: Owner, slot: string)
    | RecordOf(scope: Option<string>)

  datatype Claim =
    | GroupClaim(identity: Identity, name: string, idText: string, meshIds: set<int>, core: int)
    | SlotClaim(identity: Identity, owner: Owner, slot: string, material: int, mesh: int)
    | RowClaim(identity: Identity, row: Binding)
    | RecordClaim(identity: Identity, unnamedBindings: nat, tombstone: int)

  type Claims = map<ClaimKey, Claim>

  datatype Loaded = Ok(claims: Claims) | Bad

  function GroupKeys(g: Group): set<ClaimKey> {
    (if g.name != "" then {MaterialName(Fold(g.name))} else {})
    + (if g.idText != "" then {MaterialId(g.idText)} else {})
  }

  function GroupsKeys(groups: seq<Group>): set<ClaimKey> {
    if groups == [] then {} else GroupKeys(groups[0]) + GroupsKeys(groups[1..])
  }

  function WithGroup(claims: Claims, g: Group, identity: Identity): Claims {
    var claim := GroupClaim(identity, g.name, g.idText, g.meshIds, g.core);
    var named := if g.name != "" then claims[MaterialName(Fold(g.name)) := claim] else claims;
    if g.idText != "" then named[MaterialId(g.idText) := claim] else named
  }

  function WithGroups(claims: Claims, groups: seq<Group>, identity: Identity): (r: Claims)
    ensures r.Keys == claims.Keys + GroupsKeys(groups)
    decreases |groups|
  {
    if groups == [] then claims else WithGroups(WithGroup(claims, groups[0], identity), groups[1..], identity)
  }

  /** Rows older than the ownership contract carry no target fields at all. */
  predicate Untargeted(b: Binding, explicit: bool) { !explicit && !b.hasTarget }

  function OwnerOf(b: Binding, explicit: bool): Option<Owner> {
    if b.guid != "" then Some(GuidOwner(if Untargeted(b, explicit) then Fold(b.guid) else b.guid))
    else if explicit then None
    else if b.index != "" then Some(IndexOwner(b.index))
    else if b.name != "" then Some(NameOwner(Fold(b.name)))
    else None
  }

  function BindingKey(b: Binding, explicit: bool): Option<ClaimKey> {
    var owner := OwnerOf(b, explicit);
    if owner.None? || b.slot == "" then None
    else Some(GeneratorSlot(owner.value, if Untargeted(b, explicit) then Fold(b.slot) else b.slot))
  }

  function BindingsKeys(bs: seq<Binding>, explicit: bool): set<ClaimKey> {
    if bs == [] then {}
    else
      var key := BindingKey(bs[0], explicit);
      (if key.Some? then {key.value} else {}) + BindingsKeys(bs[1..], explicit)
  }

  /** The binding loop: rows without an owner or slot are skipped, a targeted row needs both
      target IDs, and no slot may be targeted twice. */
  function WithBindings(
      claims: Claims, seen: set<ClaimKey>, bs: seq<Binding>, explicit: bool, identity: Identity): (r: Loaded)
    ensures r.Ok? ==> r.claims.Keys == claims.Keys + BindingsKeys(bs, explicit)
    decreases |bs|
  {
    if bs == [] then Ok(claims)
    else
      var b, key := bs[0], BindingKey(bs[0], explicit);
      if key.None? then WithBindings(claims, seen, bs[1..], explicit, identity)
      else if Untargeted(b, explicit) then
        WithBindings(claims[key.value := RowClaim(identity, b)], seen, bs[1..], explicit, identity)
      else if TargetMaterial(b).None? || TargetMesh(b).None? || key.value in seen then Bad
      else
        var claim := SlotClaim(identity, key.value.owner, key.value.slot, TargetMaterial(b).value, TargetMesh(b).value);
        WithBindings(claims[key.value := claim], seen + {key.value}, bs[1..], explicit, identity)
  }

  function RecordKey(identity: Identity, kind: Kind): ClaimKey {
    RecordOf(if kind == TargetScope && identity.scope != "" then Some(identity.scope) else None)
  }

  /** `_candidate_claims`: `Bad` where the source raises a contract error. */
  function ClaimsOf(p: Payload, kind: Kind): (r: Loaded)
    ensures r.Ok? ==>
              var keys := GroupsKeys(MaterialGroups(p)) + BindingsKeys(CurrentBindings(p), p.ownership.Some?);
              r.claims.Keys == if keys == {} then {RecordKey(p.identity, kind)} else keys
  {
    if p.provenance.Some? && !ProvenanceValid(p.provenance.value) then Bad
    else if p.ownership.Some? && !OwnershipValid(p.ownership.value) then Bad
    else
      var groups := WithGroups(map[], MaterialGroups(p), p.identity);
      var all := WithBindings(groups, {}, CurrentBindings(p), p.ownership.Some?, p.identity);
      if all.Ok? && all.claims.Keys == {} then
        Ok(map[RecordKey(p.identity, kind) := RecordClaim(p.identity, |CurrentBindings(p)|, p.tombstone)])
      else all
  }

  // ---- When a record loads ----

  /** The row names a slot and a live target for it. */
  predicate Targeting(b: Binding, explicit: bool) {
    BindingKey(b, explicit).Some? && !Untargeted(b, explicit)
  }

  /** Every targeting row has both target IDs, and no slot is targeted twice or is in `seen`. */
  ghost predicate Loadable(bs: seq<Binding>, explicit: bool, seen: set<ClaimKey>) {
    && (forall k :: 0 <= k < |bs| && Targeting(bs[k], explicit) ==>
         TargetMaterial(bs[k]).Some? && TargetMesh(bs[k]).Some? && BindingKey(bs[k], explicit).value !in seen)
    && forall j, k :: 0 <= j < k < |bs| && Targeting(bs[j], explicit) && Targeting(bs[k], explicit) ==>
         BindingKey(bs[j], explicit) != BindingKey(bs[k], explicit)
  }

  lemma LoadableCons(b: Binding, bs: seq<Binding>, explicit: bool, seen: set<ClaimKey>)
    ensures Loadable([b] + bs, explicit, seen) <==>
              && (Targeting(b, explicit) ==>
                   TargetMaterial(b).Some? && TargetMesh(b).Some? && BindingKey(b, explicit).value !in seen)
              && Loadable(bs, explicit, if Targeting(b, explicit) then seen + {BindingKey(b, explicit).value} else seen)
  {
    var all := [b] + bs;
    assert all[0] == b && forall k :: 0 < k < |all| ==> all[k] == bs[k - 1];
    assert forall k :: 0 <= k < |bs| ==> bs[k] == all[k + 1];
  }

  lemma {:induction false} LoadsIff(
      claims: Claims, seen: set<ClaimKey>, bs: seq<Binding>, explicit: bool, identity: Identity)
    ensures WithBindings(claims, seen, bs, explicit, identity).Ok? <==> Loadable(bs, explicit, seen)
    decreases |bs|
  {
    if bs != [] {
      var b := bs[0];
      assert bs == [b] + bs[1..];
      LoadableCons(b, bs[1..], explicit, seen);
      LoadsIff(AfterBinding(claims, b, explicit, identity), AfterSeen(seen, b, explicit), bs[1..], explicit, identity);
    }
  }

  /** A record is a contract error exactly when a block it carries is invalid, or its current
      bindings target a slot without both IDs or twice. */
  lemma RecordLoadsIff(p: Payload, kind: Kind)
    ensures ClaimsOf(p, kind).Ok? <==>
              && (p.provenance.Some? ==> ProvenanceValid(p.provenance.value))
              && (p.ownership.Some? ==> OwnershipValid(p.ownership.value))
              && Loadable(CurrentBindings(p), p.ownership.Some?, {})
  {
    LoadsIff(WithGroups(map[], MaterialGroups(p), p.identity), {}, CurrentBindings(p), p.ownership.Some?, p.identity);
  }

  // ---- What each claim says ----

  /** The row at `k` has this key, and no later row has it. */
  ghost predicate LastGroup(groups: seq<Group>, key: ClaimKey, k: nat) {
    && k < |groups| && key in GroupKeys(groups[k])
    && forall j :: k < j < |groups| ==> key !in GroupKeys(groups[j])
  }

  ghost predicate LastBinding(bs: seq<Binding>, explicit: bool, key: ClaimKey, k: nat) {
    && k < |bs| && BindingKey(bs[k], explicit) == Some(key)
    && forall j :: k < j < |bs| ==> BindingKey(bs[j], explicit) != Some(key)
  }

  function ClaimOfGroup(g: Group, identity: Identity): Claim {
    GroupClaim(identity, g.name, g.idText, g.meshIds, g.core)
  }

  /** A row's claim: its live target, or the row itself when it is older than targets. */
  ghost predicate IsClaimOf(claim: Claim, b: Binding, explicit: bool, key: ClaimKey, identity: Identity) {
    if Untargeted(b, explicit) then claim == RowClaim(identity, b)
    else
      && key.GeneratorSlot? && TargetMaterial(b).Some? && TargetMesh(b).Some?
      && claim == SlotClaim(identity, key.owner, key.slot, TargetMaterial(b).value, TargetMesh(b).value)
  }

  /** The claim of the last group, or of the last row, with this key. */
  ghost predicate FromGroup(value: Claim, groups: seq<Group>, key: ClaimKey, identity: Identity) {
    exists k: nat :: LastGroup(groups, key, k) && value == ClaimOfGroup(groups[k], identity)
  }

  ghost predicate FromRow(value: Claim, bs: seq<Binding>, explicit: bool, key: ClaimKey, identity: Identity) {
    exists k: nat :: LastBinding(bs, explicit, key, k) && IsClaimOf(value, bs[k], explicit, key, identity)
  }

  lemma {:induction false} GroupValues(claims: Claims, groups: seq<Group>, identity: Identity, key: ClaimKey)
    requires key in WithGroups(claims, groups, identity)
    ensures var value := WithGroups(claims, groups, identity)[key];
            if key in GroupsKeys(groups) then FromGroup(value, groups, key, identity)
            else key in claims && value == claims[key]
    decreases |groups|
  {
    if groups != [] {
      var more, rest := WithGroup(claims, groups[0], identity), groups[1..];
      GroupValues(more, rest, identity, key);
      if key in GroupsKeys(rest) {
        var value := WithGroups(more, rest, identity)[key];
        var k: nat :| LastGroup(rest, key, k) && value == ClaimOfGroup(rest[k], identity);
        assert LastGroup(groups, key, k + 1) by {
          forall j | k + 1 < j < |groups| ensures key !in GroupKeys(groups[j]) { assert groups[j] == rest[j - 1]; }
        }
      } else if key in GroupKeys(groups[0]) {
        NotInGroups(rest, key);
        assert LastGroup(groups, key, 0) by {
          forall j | 0 < j < |groups| ensures key !in GroupKeys(groups[j]) { assert groups[j] == rest[j - 1]; }
        }
      }
    }
  }

  lemma {:induction false} NotInGroups(groups: seq<Group>, key: ClaimKey)
    ensures key !in GroupsKeys(groups) <==> forall j :: 0 <= j < |groups| ==> key !in GroupKeys(groups[j])
  {
    if groups != [] {
      NotInGroups(groups[1..], key);
      assert forall j :: 0 < j < |groups| ==> groups[j] == groups[1..][j - 1];
      assert forall j :: 0 <= j < |groups| - 1 ==> groups[1..][j] == groups[j + 1];
    }
  }

  lemma {:induction false} NotInBindings(bs: seq<Binding>, explicit: bool, key: ClaimKey)
    ensures key !in BindingsKeys(bs, explicit) <==>
        forall j :: 0 <= j < |bs| ==> BindingKey(bs[j], explicit) != Some(key)
  {
    if bs != [] {
      NotInBindings(bs[1..], explicit, key);
      assert forall j :: 0 < j < |bs| ==> bs[j] == bs[1..][j - 1];
      assert forall j :: 0 <= j < |bs| - 1 ==> bs[1..][j] == bs[j + 1];
    }
  }

  /** The claims and seen slots after one row, unless the row is an error. */
  function AfterBinding(claims: Claims, b: Binding, explicit: bool, identity: Identity): Claims {
    var key := BindingKey(b, explicit);
    if key.None? then claims
    else if Untargeted(b, explicit) then claims[key.value := RowClaim(identity, b)]
    else if TargetMaterial(b).None? || TargetMesh(b).None? then claims
    else
      var owner, slot := key.value.owner, key.value.slot;
      claims[key.value := SlotClaim(identity, owner, slot, TargetMaterial(b).value, TargetMesh(b).value)]
  }

  function AfterSeen(seen: set<ClaimKey>, b: Binding, explicit: bool): set<ClaimKey> {
    if BindingKey(b, explicit).Some? && !Untargeted(b, explicit) then seen + {BindingKey(b, explicit).value} else seen
  }

  lemma {:induction false} BindingValues(
      claims: Claims, seen: set<ClaimKey>, bs: seq<Binding>, explicit: bool, identity: Identity, key: ClaimKey)
    requires var all := WithBindings(claims, seen, bs, explicit, identity); all.Ok? && key in all.claims
    ensures var value := WithBindings(claims, seen, bs, explicit, identity).claims[key];
            if key in BindingsKeys(bs, explicit) then FromRow(value, bs, explicit, key, identity)
            else key in claims && value == claims[key]
    decreases |bs|
  {
    if bs != [] {
      var more, rest := AfterBinding(claims, bs[0], explicit, identity), bs[1..];
      var nextSeen := AfterSeen(seen, bs[0], explicit);
      var all := WithBindings(claims, seen, bs, explicit, identity);
      assert all == WithBindings(more, nextSeen, rest, explicit, identity);
      BindingValues(more, nextSeen, rest, explicit, identity, key);
      if key in BindingsKeys(rest, explicit) {
        var k: nat :| LastBinding(rest, explicit, key, k) &&
            IsClaimOf(all.claims[key], rest[k], explicit, key, identity);
        assert LastBinding(bs, explicit, key, k + 1) by {
          forall j | k + 1 < j < |bs| ensures BindingKey(bs[j], explicit) != Some(key) { assert bs[j] == rest[j - 1]; }
        }
      } else if BindingKey(bs[0], explicit) == Some(key) {
        NotInBindings(rest, explicit, key);
        assert LastBinding(bs, explicit, key, 0) by {
          forall j | 0 < j < |bs| ensures BindingKey(bs[j], explicit) != Some(key) { assert bs[j] == rest[j - 1]; }
        }
      }
    }
  }

  /** What every claim of a record says: a slot's claim is the target of the last current binding
      of that slot, any other is the last group of that name or ID; a record without either
      claims itself. */
  lemma ClaimValues(p: Payload, kind: Kind, key: ClaimKey)
    requires ClaimsOf(p, kind).Ok? && key in ClaimsOf(p, kind).claims
    ensures var value, bs, explicit := ClaimsOf(p, kind).claims[key], CurrentBindings(p), p.ownership.Some?;
            || FromRow(value, bs, explicit, key, p.identity)
            || FromGroup(value, MaterialGroups(p), key, p.identity)
            || (key == RecordKey(p.identity, kind) && value == RecordClaim(p.identity, |bs|, p.tombstone))
  {
    var groups := WithGroups(map[], MaterialGroups(p), p.identity);
    var all := WithBindings(groups, {}, CurrentBindings(p), p.ownership.Some?, p.identity);
    if all.claims.Keys != {} {
      BindingValues(groups, {}, CurrentBindings(p), p.ownership.Some?, p.identity, key);
      if key !in BindingsKeys(CurrentBindings(p), p.ownership.Some?) {
        GroupValues(map[], MaterialGroups(p), p.identity, key);
      }
    }
  }
}
