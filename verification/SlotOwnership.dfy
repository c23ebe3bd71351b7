/** Reconciling current slot ownership with the saved SPM (atlas_slot_ownership.py).

    Each live slot goes to the one provider whose material group contains its Material/Mesh
    pair, and every mirror of every provider is rewritten to say so. A record set is the list
    of accepted manifests of one target; a provider is a source identity. */
module SlotOwnership {
  import opened Texts
  import opened ManifestClaims
  import Sorting

  datatype Record = Record(path: Path, kind: Kind, payload: Payload)

  /** A Generator binding of the live SPM. */
  datatype Live = Live(
    guid: string, slot: string, index: string, name: string, gtype: string,
    material: Option<int>, mesh: Option<int>)

  datatype Assignment = Assignment(
    guid: string, slot: string, index: string, name: string, gtype: string, material: int, mesh: int)

  datatype Assigned = Assigned(owner: Identity, binding: Assignment)

  const DEFAULT_CUTOUT := -10
  const RECONCILED := "reconciled_live_owner"

  // ---- Material ownership ----

  datatype Material = Material(name: string, meshIds: set<int>)

  /** `_material_projection`, by material ID; `None` if one ID is declared in two ways. */
  function Materials(groups: seq<Group>): Option<map<int, Material>> {
    if groups == [] then Some(map[])
    else
      var g, before := groups[|groups| - 1], Materials(groups[..|groups| - 1]);
      if before.None? || g.idNumber.None? || g.idNumber.value <= 0 then before
      else
        var id, row := g.idNumber.value, Material(g.name, set m | m in g.meshIds && m > 0);
        if id !in before.value then Some(before.value[id := row])
        else if before.value[id] == row then before
        else None
  }

  function MaterialsOf(r: Record): Option<map<int, Material>> { Materials(MaterialGroups(r.payload)) }

  predicate Provides(r: Record, material: int, mesh: int) {
    && MaterialsOf(r).Some? && material in MaterialsOf(r).value
    && (mesh == DEFAULT_CUTOUT || mesh in MaterialsOf(r).value[material].meshIds)
  }

  predicate Manages(r: Record, material: int, mesh: int) {
    && MaterialsOf(r).Some?
    && (material in MaterialsOf(r).value
        || (mesh > 0 && exists m :: m in MaterialsOf(r).value && mesh in MaterialsOf(r).value[m].meshIds))
  }

  function OwnersOf(records: seq<Record>, material: int, mesh: int): set<Identity> {
    set r | r in records && Provides(r, material, mesh) :: r.payload.identity
  }

  // ---- Assigning live slots ----

  /** A binding the assignment loop looks at: positive material, readable mesh. */
  predicate Readable(live: Live) {
    live.material.Some? && live.material.value > 0 && live.mesh.Some?
  }

  datatype Verdict = Ignored | Blocks | Owned(owner: Identity)

  function Judge(records: seq<Record>, live: Live, seen: set<(string, string)>): Verdict {
    if !Readable(live) then Ignored
    else
      JudgeOwners(OwnersOf(records, live.material.value, live.mesh.value),
                  exists r :: r in records && Manages(r, live.material.value, live.mesh.value), live, seen)
  }

  function JudgeOwners(owners: set<Identity>, managed: bool, live: Live, seen: set<(string, string)>): Verdict {
    if owners == {} then
      if managed then Blocks else Ignored
    else if |owners| != 1 || live.guid == "" || live.slot == "" || (live.guid, live.slot) in seen then Blocks
    else Owned(Only(owners))
  }

  function Only<T>(s: set<T>): (x: T)
    requires |s| == 1
    ensures s == {x}
  {
    OnlyOne(s);
    var x :| x in s;
    x
  }

  lemma OnlyOne<T>(s: set<T>)
    requires |s| == 1
    ensures forall x, y :: x in s && y in s ==> x == y
    ensures exists x :: s == {x}
  {
    var x :| x in s;
    assert |s - {x}| == 0;
    assert s == {x};
  }

  function ToAssignment(live: Live): Assignment
    requires Readable(live)
  {
    Assignment(live.guid, live.slot, live.index, live.name, live.gtype, live.material.value, live.mesh.value)
  }

  function SlotsOf(owned: seq<Assigned>): set<(string, string)> {
    set a | a in owned :: (a.binding.guid, a.binding.slot)
  }

  /** The assignment loop after `live`: what was assigned, or `None` once anything blocks. */
  function Assign(records: seq<Record>, live: seq<Live>): Option<seq<Assigned>> {
    if live == [] then Some([])
    else
      var before, last := Assign(records, live[..|live| - 1]), live[|live| - 1];
      if before.None? then None
      else match Judge(records, last, SlotsOf(before.value))
        case Ignored => before
        case Blocks => None
        case Owned(owner) => Some(before.value + [Assigned(owner, ToAssignment(last))])
  }

  predicate AssignmentLe(a: Assignment, b: Assignment) { PairLe((a.guid, a.slot), (b.guid, b.slot)) }

  function BindingsOf(owned: seq<Assigned>, owner: Identity): seq<Assignment> {
    if owned == [] then []
    else BindingsOf(owned[..|owned| - 1], owner)
         + if owned[|owned| - 1].owner == owner then [owned[|owned| - 1].binding] else []
  }

  /** One provider's slots, in slot order. */
  function SlotsFor(owned: seq<Assigned>, owner: Identity): seq<Assignment> {
    Sorting.Sort(BindingsOf(owned, owner), AssignmentLe)
  }

  // ---- The current row of one slot ----

  datatype Template = Template(row: Binding, precedence: nat, path: Path)

  function TemplateRows(p: Payload): seq<Binding> {
    if p.connection.None? then []
    else p.connection.value.bindings
         + if p.connection.value.authored.Some? then p.connection.value.authored.value else []
  }

  function RowsAt(rows: seq<Binding>, slot: (string, string), r: Record): seq<Template> {
    if rows == [] then []
    else (if SlotOf(rows[0]) == slot then [Template(rows[0], Precedence(r.kind), r.path)] else [])
         + RowsAt(rows[1..], slot, r)
  }

  /** The evidence every mirror of `owner` holds about a slot. */
  function Templates(records: seq<Record>, owner: Identity, slot: (string, string)): seq<Template> {
    if records == [] then []
    else
      var p := records[0].payload;
      (if p.identity == owner then RowsAt(TemplateRows(p), slot, records[0]) else [])
         + Templates(records[1..], owner, slot)
  }

  predicate Targets(row: Binding, a: Assignment) {
    row.material == Some(a.material) && row.mesh == Some(a.mesh)
  }

  /** Rows that already target the live pair first, then by precedence and path. */
  predicate TemplateLe(a: Assignment, x: Template, y: Template) {
    if Targets(x.row, a) != Targets(y.row, a) then Targets(x.row, a)
    else if x.precedence != y.precedence then x.precedence < y.precedence
    else TextLe(x.path, y.path)
  }

  /** The head of the stable sort: the earliest of the least templates. */
  function Best(a: Assignment, ts: seq<Template>): Option<Template> {
    if ts == [] then None
    else
      var rest := Best(a, ts[1..]);
      if rest.None? || TemplateLe(a, ts[0], rest.value) then Some(ts[0]) else rest
  }

  function CurrentRow(a: Assignment, best: Option<Template>): Binding {
    var base := if best.Some? then best.value.row
                else Binding("", "", "", "", "", false, None, None, false, RECONCILED, 0, 0);
    base.(guid := a.guid, slot := a.slot, index := a.index, name := a.name, gtype := a.gtype,
          hasTarget := true, material := Some(a.material), mesh := Some(a.mesh), created := false, creation := 0,
          state := if best.Some? && Targets(best.value.row, a) then best.value.row.state else RECONCILED)
  }

  function CurrentRows(records: seq<Record>, owner: Identity, slots: seq<Assignment>): (rows: seq<Binding>)
    ensures |rows| == |slots|
    ensures forall i :: 0 <= i < |slots| ==>
              rows[i] == CurrentRow(slots[i], Best(slots[i], Templates(records, owner, (slots[i].guid, slots[i].slot))))
  {
    seq(|slots|, i requires 0 <= i < |slots| =>
          CurrentRow(slots[i], Best(slots[i], Templates(records, owner, (slots[i].guid, slots[i].slot)))))
  }

  // ---- Creator provenance ----

  function WithCreator(creators: Option<seq<Creator>>, c: Creator): Option<seq<Creator>> {
    if creators.None? || c.guid == "" || c.slot == "" then None
    else if forall d :: d in creators.value ==> CreatorSlot(d) != CreatorSlot(c) then Some(creators.value + [c])
    else if c in creators.value then creators
    else None
  }

  /** Collect rows of distinct slots in order; two different rows for one slot are an error. */
  function WithCreators(creators: Option<seq<Creator>>, more: seq<Creator>): Option<seq<Creator>>
    decreases |more|
  {
    if more == [] then creators else WithCreators(WithCreator(creators, more[0]), more[1..])
  }

  function NormalizedCreators(slots: seq<Creator>): Option<seq<Creator>> {
    var all := WithCreators(Some([]), slots);
    if all.None? then None else Some(Sorting.Sort(all.value, CreatorLe))
  }

  /** `_legacy_creator_row`: a created row says what it says whatever its state. */
  function LegacyCreator(row: Binding): Creator {
    Creator(row.guid, row.slot, FromBinding(row.(state := "", created := false)))
  }

  function LegacyCreators(rows: seq<Binding>): seq<Creator> {
    if rows == [] then []
    else (if rows[0].created then [LegacyCreator(rows[0])] else []) + LegacyCreators(rows[1..])
  }

  /** An explicit block that validates, else the created rows of the run evidence. */
  function CreatorsOf(p: Payload): Option<seq<Creator>> {
    if p.provenance.None? then Some(LegacyCreators(TemplateRows(p)))
    else
      var rows := NormalizedCreators(p.provenance.value.slots);
      if p.provenance.value.sound && rows.Some? && p.provenance.value.count == |rows.value|
         && p.provenance.value.fingerprint == ProvenanceFingerprint(rows.value)
      then rows else None
  }

  /** `creator_rows` of one provider after its records, in the order they were met. */
  function ProviderCreators(records: seq<Record>, owner: Identity): Option<seq<Creator>> {
    if records == [] then Some([])
    else
      NextCreators(ProviderCreators(records[..|records| - 1], owner), records[|records| - 1], owner)
  }

  function NextCreators(before: Option<seq<Creator>>, r: Record, owner: Identity): Option<seq<Creator>> {
    if before.None? || r.payload.identity != owner then before
    else if CreatorsOf(r.payload).None? then None
    else WithCreators(before, CreatorsOf(r.payload).value)
  }

  function CreationProvenance(creators: seq<Creator>): Provenance {
    var sorted := Sorting.Sort(creators, CreatorLe);
    Provenance(true, sorted, |sorted|, ProvenanceFingerprint(sorted))
  }

  // ---- Rewriting one record ----

  function SuccessorOf(owned: seq<Assigned>, slot: (string, string)): Option<Assigned> {
    if owned == [] then None
    else if (owned[0].binding.guid, owned[0].binding.slot) == slot then Some(owned[0])
    else SuccessorOf(owned[1..], slot)
  }

  /** The row still stands, with the same Material and Mesh. */
  predicate Retained(row: Binding, current: seq<Binding>) {
    exists c :: c in current && SlotOf(c) == SlotOf(row) && c.material == row.material && c.mesh == row.mesh
  }

  function HistoryOf(row: Binding, owner: Identity, owned: seq<Assigned>): History {
    var s := SuccessorOf(owned, SlotOf(row));
    if s.None? then History(row, SlotMissing, 0, 0, None)
    else History(row, if s.value.owner == owner then SameProviderRebound else ExactSuccessor,
                 s.value.binding.material, s.value.binding.mesh, Some(s.value.owner))
  }

  /** Append what is given up to the history, each entry once. */
  function Relinquish(
      history: seq<History>, rows: seq<Binding>, owner: Identity, current: seq<Binding>, owned: seq<Assigned>)
    : (r: seq<History>)
    ensures history <= r
    decreases |rows|
  {
    if rows == [] then history
    else
      var h := HistoryOf(rows[0], owner, owned);
      if Retained(rows[0], current) || h in history then Relinquish(history, rows[1..], owner, current, owned)
      else Relinquish(history + [h], rows[1..], owner, current, owned)
  }

  function CurrentOwnership(rows: seq<Binding>, spm: int): Ownership {
    Ownership(true, rows, |rows|, OwnershipFingerprint(rows), spm)
  }

  function ConnectionOf(p: Payload): Connection {
    if p.connection.Some? then p.connection.value else Connection([], None, None, 0)
  }

  /** `_updated_payload`. */
  function UpdatedPayload(
      p: Payload, rows: seq<Binding>, creators: seq<Creator>, owned: seq<Assigned>, spm: int): Payload
  {
    var was := ConnectionOf(p);
    var past := if was.relinquished.Some? then was.relinquished.value else [];
    var history := Relinquish(past, CurrentBindings(p), p.identity, rows, owned);
    p.(connection := Some(Connection(
         rows,
         if was.bindings != [] && was.authored.None? then Some(was.bindings) else was.authored,
         if history != [] then Some(history) else was.relinquished,
         was.rest)),
       ownership := Some(CurrentOwnership(rows, spm)),
       provenance := Some(CreationProvenance(creators)))
  }

  // ---- The whole plan ----

  predicate RecordAccepted(r: Record) {
    && (r.payload.ownership.Some? ==> OwnershipValid(r.payload.ownership.value))
    && CreatorsOf(r.payload).Some?
    && r.payload.identity.blend != "" && r.payload.identity.collection != "" && r.payload.identity.scope != ""
    && MaterialsOf(r).Some?
  }

  /** Nothing makes the planner block: every record is accepted, mirrors of one provider agree
      on materials and creators, and every managed live slot has one owner. */
  predicate Plannable(records: seq<Record>, live: seq<Live>) {
    && records != []
    && (forall r :: r in records ==> RecordAccepted(r))
    && (forall r, q :: r in records && q in records && r.payload.identity == q.payload.identity ==>
         MaterialsOf(r) == MaterialsOf(q))
    && (forall r :: r in records ==> ProviderCreators(records, r.payload.identity).Some?)
    && Assign(records, live).Some?
  }

  function RowsFor(records: seq<Record>, live: seq<Live>, owner: Identity): seq<Binding>
    requires Assign(records, live).Some?
  {
    CurrentRows(records, owner, SlotsFor(Assign(records, live).value, owner))
  }

  function Rewritten(records: seq<Record>, live: seq<Live>, spm: int, r: Record): Record
    requires Plannable(records, live) && r in records
  {
    r.(payload := UpdatedPayload(r.payload, RowsFor(records, live, r.payload.identity),
                                 ProviderCreators(records, r.payload.identity).value,
                                 Assign(records, live).value, spm))
  }

  /** Plan, then write every planned payload; a blocked plan writes nothing. */
  function Reconciled(records: seq<Record>, live: seq<Live>, spm: int): (r: seq<Record>)
    ensures |r| == |records|
  {
    if !Plannable(records, live) then records
    else seq(|records|, i requires 0 <= i < |records| => Rewritten(records, live, spm, records[i]))
  }

  // ---- The loops of the source ----

  /** `_live_owner_assignments`: the loop over the live bindings. */
  method LiveOwnerAssignments(records: seq<Record>, live: seq<Live>) returns (owned: seq<Assigned>, blocked: bool)
    ensures blocked <==> Assign(records, live).None?
    ensures !blocked ==> Assign(records, live) == Some(owned)
  {
    owned, blocked := [], false;
    var seen: set<(string, string)> := {};
    var i := 0;
    while i < |live|
      invariant 0 <= i <= |live|
      invariant blocked <==> Assign(records, live[..i]).None?
      invariant !blocked ==> Assign(records, live[..i]) == Some(owned) && seen == SlotsOf(owned)
    {
      assert live[..i + 1][..i] == live[..i];
      match Judge(records, live[i], seen) {
        case Ignored =>
        case Blocks => blocked := true;
        case Owned(owner) =>
          ghost var was := owned;
          owned := owned + [Assigned(owner, ToAssignment(live[i]))];
          seen := seen + {(live[i].guid, live[i].slot)};
          SlotsSnoc(was, Assigned(owner, ToAssignment(live[i])));
      }
      i := i + 1;
    }
    assert live[..i] == live;
  }

  lemma SlotsSnoc(owned: seq<Assigned>, a: Assigned)
    ensures SlotsOf(owned + [a]) == SlotsOf(owned) + {(a.binding.guid, a.binding.slot)}
  {
    assert forall x :: x in owned + [a] <==> x in owned || x == a;
  }

  lemma CreatorsSnoc(records: seq<Record>, owner: Identity, i: nat)
    requires i < |records|
    ensures ProviderCreators(records[..i + 1], owner) ==
        NextCreators(ProviderCreators(records[..i], owner), records[i], owner)
  {
    assert records[..i + 1][..i] == records[..i];
  }

  /** The creator part of `_provider_state`: one pass over the records. */
  method CollectCreators(records: seq<Record>, owner: Identity) returns (creators: Option<seq<Creator>>)
    ensures creators == ProviderCreators(records, owner)
  {
    creators := Some([]);
    var i := 0;
    while i < |records|
      invariant 0 <= i <= |records|
      invariant creators == ProviderCreators(records[..i], owner)
    {
      CreatorsSnoc(records, owner, i);
      if creators.Some? && records[i].payload.identity == owner {
        var rows := CreatorsOf(records[i].payload);
        creators := if rows.None? then None else WithCreators(creators, rows.value);
      }
      i := i + 1;
    }
    assert records[..i] == records;
  }

  /** The manifest store of one target, and the reconciliation that rewrites it. */
  class OwnershipStore {
    var records: seq<Record>

    constructor (found: seq<Record>)
      ensures records == found
    {
      records := found;
    }

    method Reconcile(live: seq<Live>, spm: int) returns (blocked: bool)
      modifies this
      ensures blocked <==> !Plannable(old(records), live)
      ensures records == Reconciled(old(records), live, spm)
    {
      if !Plannable(records, live) {
        return true;
      }
      var was := records;
      var owned, stuck := LiveOwnerAssignments(was, live);
      var i := 0;
      while i < |was|
        invariant 0 <= i <= |was| && |records| == |was|
        invariant forall k :: 0 <= k < |was| ==>
            records[k] == if k < i then Rewritten(was, live, spm, was[k]) else was[k]
      {
        var owner := was[i].payload.identity;
        var creators := CollectCreators(was, owner);
        var rows := CurrentRows(was, owner, SlotsFor(owned, owner));
        records := records[i := was[i].(payload := UpdatedPayload(was[i].payload, rows, creators.value, owned, spm))];
        i := i + 1;
      }
      return false;
    }
  }
}
