/** The precedence fold that selects operational manifests (atlas_manifest_resolver.py).

    `Resolve` is the loop of the source, proved against the recursive `FoldAll`. The lemmas say
    what a selection means: nothing valid is dropped silently, selected records agree, the
    input order does not matter, and the read-only diagnostic mode keeps all of that. */
module ManifestResolution {
  import opened Texts
  import opened ManifestClaims
  import Sorting

  /** A valid operational record. `rank` is 1 for the legacy name of a Cluster pair. */
  datatype Candidate = Candidate(path: Path, kind: Kind, rank: nat, payload: Payload, claims: Claims)

  datatype ShadowReason = SameSourceMirror | LegacyName

  /** `outrankedBy` are the records that outrank the shadowed one; the source names one of them. */
  datatype Shadow = Shadow(path: Path, reason: ShadowReason, outrankedBy: set<Path>)

  /** One conflicting record with every disputed claim and the record that holds it. */
  datatype Conflict = Conflict(path: Path, kind: Kind, disputed: map<ClaimKey, Path>)

  datatype Resolution = Resolution(
    selected: seq<Candidate>, winners: map<ClaimKey, Candidate>,
    shadowed: seq<Shadow>, conflicting: seq<Conflict>)

  const START := Resolution([], map[], [], [])

  predicate CandidateLe(a: Candidate, b: Candidate) {
    if a.rank != b.rank then a.rank < b.rank
    else if Precedence(a.kind) != Precedence(b.kind) then Precedence(a.kind) < Precedence(b.kind)
    else TextLe(a.path, b.path)
  }

  predicate SameKey(a: Candidate, b: Candidate) {
    a.rank == b.rank && a.kind == b.kind && a.path == b.path
  }

  lemma CandidateOrder()
    ensures Sorting.TotalPreorder(CandidateLe)
    ensures forall a, b :: CandidateLe(a, b) && CandidateLe(b, a) ==> SameKey(a, b)
  {
    forall a: Candidate, b: Candidate
      ensures CandidateLe(a, b) || CandidateLe(b, a)
      ensures CandidateLe(a, b) && CandidateLe(b, a) ==> SameKey(a, b)
    {
      TextLeTotal(a.path, b.path);
    }
    forall a: Candidate, b: Candidate, c: Candidate | CandidateLe(a, b) && CandidateLe(b, c)
      ensures CandidateLe(a, c)
    {
      if a.rank == b.rank == c.rank && Precedence(a.kind) == Precedence(b.kind) == Precedence(c.kind) {
        TextLeTransitive(a.path, b.path, c.path);
      }
    }
  }

  // ---- One step of the fold ----

  /** A lower mirror of a final per-target receipt whose claim set has changed. */
  predicate Supersedes(w: Candidate, c: Candidate) {
    && w.kind == PerTarget && Precedence(w.kind) < Precedence(c.kind)
    && w.payload.identity == c.payload.identity
    && c.payload.targetManifest == w.path
    && c.claims != w.claims
  }

  function FirstSuperseding(selected: seq<Candidate>, c: Candidate): (r: Option<Path>)
    ensures r.None? <==> forall w :: w in selected ==> !Supersedes(w, c)
    ensures r.Some? ==> exists w :: w in selected && Supersedes(w, c) && r.value == w.path
  {
    if selected == [] then None
    else if Supersedes(selected[0], c) then Some(selected[0].path)
    else FirstSuperseding(selected[1..], c)
  }

  predicate Holds(w: Candidate, key: ClaimKey, claim: Claim) {
    key in w.claims && w.claims[key] == claim
  }

  function Disagreements(winners: map<ClaimKey, Candidate>, c: Candidate): set<ClaimKey> {
    set key | key in c.claims && key in winners && !Holds(winners[key], key, c.claims[key])
  }

  function Outranking(winners: map<ClaimKey, Candidate>, c: Candidate): set<Path> {
    set key | key in Disagreements(winners, c) && winners[key].rank < c.rank :: winners[key].path
  }

  function Adopt(winners: map<ClaimKey, Candidate>, c: Candidate): map<ClaimKey, Candidate> {
    (map key | key in c.claims :: c) + winners
  }

  function ConflictOf(winners: map<ClaimKey, Candidate>, c: Candidate): Conflict {
    Conflict(c.path, c.kind, map key | key in Disagreements(winners, c) :: winners[key].path)
  }

  function Select(st: Resolution, c: Candidate): Resolution {
    st.(selected := st.selected + [c], winners := Adopt(st.winners, c))
  }

  function FoldStep(st: Resolution, c: Candidate, diagnostic: bool): Resolution {
    var first := FirstSuperseding(st.selected, c);
    if first.Some? then st.(shadowed := st.shadowed + [Shadow(c.path, SameSourceMirror, {first.value})])
    else if Disagreements(st.winners, c) == {} then Select(st, c)
    else if Outranking(st.winners, c) != {} then
      st.(shadowed := st.shadowed + [Shadow(c.path, LegacyName, Outranking(st.winners, c))])
    else
      var disputed := st.(conflicting := st.conflicting + [ConflictOf(st.winners, c)]);
      if !diagnostic then disputed
      else
        var projected := Project(c, st.winners.Keys);
        if projected.Some? then Select(disputed, projected.value) else disputed
  }

  function FoldAll(st: Resolution, cs: seq<Candidate>, diagnostic: bool): Resolution
    decreases |cs|
  {
    if cs == [] then st else FoldAll(FoldStep(st, cs[0], diagnostic), cs[1..], diagnostic)
  }

  function Resolved(cs: seq<Candidate>, diagnostic: bool): Resolution {
    FoldAll(START, Sorting.Sort(cs, CandidateLe), diagnostic)
  }

  lemma {:induction false} FoldConcat(st: Resolution, a: seq<Candidate>, b: seq<Candidate>, diagnostic: bool)
    ensures FoldAll(st, a + b, diagnostic) == FoldAll(FoldAll(st, a, diagnostic), b, diagnostic)
    decreases |a|
  {
    if a == [] {
      assert a + b == b;
    } else {
      assert (a + b)[1..] == a[1..] + b;
      FoldConcat(FoldStep(st, a[0], diagnostic), a[1..], b, diagnostic);
    }
  }

  lemma FoldSnoc(st: Resolution, cs: seq<Candidate>, n: nat, diagnostic: bool)
    requires n < |cs|
    ensures FoldAll(st, cs[..n + 1], diagnostic) == FoldStep(FoldAll(st, cs[..n], diagnostic), cs[n], diagnostic)
  {
    assert cs[..n + 1] == cs[..n] + [cs[n]];
    FoldConcat(st, cs[..n], [cs[n]], diagnostic);
    assert [cs[n]][1..] == [];
  }

  // ---- The loop of the source ----

  class Resolver {
    var selected: seq<Candidate>
    var winners: map<ClaimKey, Candidate>
    var shadowed: seq<Shadow>
    var conflicting: seq<Conflict>

    ghost function State(): Resolution
      reads this
    {
      Resolution(selected, winners, shadowed, conflicting)
    }

    constructor ()
      ensures State() == START
    {
      selected, winners, shadowed, conflicting := [], map[], [], [];
    }

    /** `winners.setdefault` for each claim of a selected record. */
    method SelectRecord(c: Candidate)
      modifies this
      ensures State() == Select(old(State()), c)
    {
      selected := selected + [c];
      var keys := c.claims.Keys;
      ghost var done: set<ClaimKey> := {};
      while keys != {}
        invariant done + keys == c.claims.Keys
        invariant selected == old(selected) + [c] && shadowed == old(shadowed) && conflicting == old(conflicting)
        invariant winners.Keys == old(winners).Keys + done
        invariant forall k :: k in winners ==> winners[k] == if k in old(winners) then old(winners)[k] else c
        decreases keys
      {
        var key :| key in keys;
        if key !in winners {
          winners := winners[key := c];
        }
        keys, done := keys - {key}, done + {key};
      }
      assert winners == Adopt(old(winners), c);
    }

    method FindSuperseding(c: Candidate) returns (first: Option<Path>)
      ensures first == FirstSuperseding(selected, c)
    {
      var i := 0;
      while i < |selected|
        invariant 0 <= i <= |selected|
        invariant FirstSuperseding(selected, c) == FirstSuperseding(selected[i..], c)
      {
        if Supersedes(selected[i], c) {
          return Some(selected[i].path);
        }
        i := i + 1;
      }
      return None;
    }

    method Consider(c: Candidate, diagnostic: bool)
      modifies this
      ensures State() == FoldStep(old(State()), c, diagnostic)
    {
      var superseding := FindSuperseding(c);
      if superseding.Some? {
        shadowed := shadowed + [Shadow(c.path, SameSourceMirror, {superseding.value})];
        return;
      }
      var disagreements := Disagreements(winners, c);
      if disagreements != {} {
        var outranking := Outranking(winners, c);
        if outranking != {} {
          shadowed := shadowed + [Shadow(c.path, LegacyName, outranking)];
          return;
        }
        conflicting := conflicting + [ConflictOf(winners, c)];
        if diagnostic {
          var projected := Project(c, winners.Keys);
          if projected.Some? {
            SelectRecord(projected.value);
          }
        }
        return;
      }
      SelectRecord(c);
    }

    /** The selection loop of `resolve_atlas_manifests` over the valid records. */
    method Resolve(valid: seq<Candidate>, diagnostic: bool)
      requires State() == START
      modifies this
      ensures State() == Resolved(valid, diagnostic)
    {
      var sorted := Sorting.Sort(valid, CandidateLe);
      var i := 0;
      while i < |sorted|
        invariant 0 <= i <= |sorted|
        invariant State() == FoldAll(START, sorted[..i], diagnostic)
      {
        FoldSnoc(START, sorted, i, diagnostic);
        Consider(sorted[i], diagnostic);
        i := i + 1;
      }
      assert sorted[..i] == sorted;
    }
  }

  // ---- The diagnostic projection ----

  function KeepGroups(groups: seq<Group>, allowed: set<ClaimKey>): seq<Group> {
    if groups == [] then []
    else
      var keys := GroupKeys(groups[0]);
      (if keys != {} && keys <= allowed then [groups[0]] else []) + KeepGroups(groups[1..], allowed)
  }

  function KeepBindings(bs: seq<Binding>, explicit: bool, allowed: set<ClaimKey>): seq<Binding> {
    if bs == [] then []
    else
      var key := BindingKey(bs[0], explicit);
      (if key.Some? && key.value in allowed then [bs[0]] else []) + KeepBindings(bs[1..], explicit, allowed)
  }

  function KeepField(groups: Option<seq<Group>>, allowed: set<ClaimKey>): Option<seq<Group>> {
    if groups.None? then None else Some(KeepGroups(groups.value, allowed))
  }

  /** The payload with only the groups and bindings whose keys are all allowed; an explicit
      ownership block is counted and fingerprinted again, and full-output seals are dropped. */
  function ProjectPayload(p: Payload, allowed: set<ClaimKey>): Payload {
    var kept := KeepBindings(CurrentBindings(p), p.ownership.Some?, allowed);
    p.(finalGroups := KeepField(p.finalGroups, allowed),
       earlyGroups := KeepField(p.earlyGroups, allowed),
       seals := 0,
       ownership :=
         if p.ownership.Some? then
           Some(p.ownership.value.(bindings := kept, count := |kept|, fingerprint := OwnershipFingerprint(kept)))
         else None,
       connection :=
         if p.ownership.None? && p.connection.Some? then Some(p.connection.value.(bindings := kept)) else p.connection)
  }

  /** `_diagnostic_disjoint_candidate`. A disputed key is always taken, so `taken` covers the
      disagreement set too. */
  function Project(c: Candidate, taken: set<ClaimKey>): Option<Candidate> {
    var allowed := c.claims.Keys - taken;
    var p := ProjectPayload(c.payload, allowed);
    var nothingKept :=
      && (p.finalGroups.None? || p.finalGroups.value == [])
      && (p.earlyGroups.None? || p.earlyGroups.value == [])
      && CurrentBindings(p) == []
      && forall key :: key in allowed ==> !key.RecordOf?;
    if allowed == {} || nothingKept then None
    else Some(c.(payload := p, claims := map key | key in allowed :: c.claims[key]))
  }

  // ---- What a selection means ----

  /** Winners are selected records and agree with every selected record on its claims. */
  ghost predicate Coherent(st: Resolution) {
    && (forall key :: key in st.winners ==> st.winners[key] in st.selected && key in st.winners[key].claims)
    && (forall c, key :: c in st.selected && key in c.claims ==>
         key in st.winners && Holds(st.winners[key], key, c.claims[key]))
  }

  ghost predicate Agree(a: Candidate, b: Candidate) {
    forall key :: key in a.claims && key in b.claims ==> a.claims[key] == b.claims[key]
  }

  lemma ProjectedClaims(c: Candidate, taken: set<ClaimKey>)
    requires Project(c, taken).Some?
    ensures var q := Project(c, taken).value;
            && q.claims.Keys == c.claims.Keys - taken && q.claims.Keys !! taken
            && (forall key :: key in q.claims ==> q.claims[key] == c.claims[key])
            && q.path == c.path && q.kind == c.kind && q.rank == c.rank
  {}

  lemma SelectCoherent(st: Resolution, c: Candidate)
    requires Coherent(st) && Disagreements(st.winners, c) == {}
    ensures Coherent(Select(st, c))
  {
    var t := Select(st, c);
    assert forall x :: x in t.selected <==> x in st.selected || x == c;
    forall x, key | x in t.selected && key in x.claims
      ensures key in t.winners && Holds(t.winners[key], key, x.claims[key])
    {
      if x == c && key in st.winners {
        assert key !in Disagreements(st.winners, c);
      }
    }
  }

  lemma CoherentFrame(a: Resolution, b: Resolution)
    requires Coherent(a) && a.selected == b.selected && a.winners == b.winners
    ensures Coherent(b)
  {}

  lemma StepCoherent(st: Resolution, c: Candidate, diagnostic: bool)
    requires Coherent(st)
    ensures Coherent(FoldStep(st, c, diagnostic))
  {
    var t := FoldStep(st, c, diagnostic);
    if t.selected == st.selected && t.winners == st.winners {
      CoherentFrame(st, t);
    } else if Disagreements(st.winners, c) == {} {
      SelectCoherent(st, c);
    } else {
      var disputed := st.(conflicting := st.conflicting + [ConflictOf(st.winners, c)]);
      CoherentFrame(st, disputed);
      var q := Project(c, st.winners.Keys).value;
      ProjectedClaims(c, st.winners.Keys);
      assert Disagreements(st.winners, q) == {};
      SelectCoherent(disputed, q);
    }
  }

  lemma {:induction false} FoldCoherent(st: Resolution, cs: seq<Candidate>, diagnostic: bool)
    requires Coherent(st)
    ensures Coherent(FoldAll(st, cs, diagnostic))
    decreases |cs|
  {
    if cs != [] {
      StepCoherent(st, cs[0], diagnostic);
      FoldCoherent(FoldStep(st, cs[0], diagnostic), cs[1..], diagnostic);
    }
  }

  lemma CoherentAgree(st: Resolution, a: Candidate, b: Candidate)
    requires Coherent(st) && a in st.selected && b in st.selected
    ensures Agree(a, b)
  {
    forall key | key in a.claims && key in b.claims ensures a.claims[key] == b.claims[key] {
      assert Holds(st.winners[key], key, a.claims[key]) && Holds(st.winners[key], key, b.claims[key]);
    }
  }

  /** In both modes, any two selected records agree on every claim they share. */
  lemma SelectedAgree(cs: seq<Candidate>, diagnostic: bool, a: Candidate, b: Candidate)
    requires a in Resolved(cs, diagnostic).selected && b in Resolved(cs, diagnostic).selected
    ensures Agree(a, b)
  {
    FoldCoherent(START, Sorting.Sort(cs, CandidateLe), diagnostic);
    CoherentAgree(Resolved(cs, diagnostic), a, b);
  }

  /** What became of record `c`, where `before` are the records selected ahead of it. */
  ghost predicate AccountedFor(c: Candidate, before: seq<Candidate>, r: Resolution) {
    || c in r.selected
    || (exists s :: s in r.shadowed && s.path == c.path && s.outrankedBy != {}
          && forall p :: p in s.outrankedBy ==> exists w :: w in before && w.path == p && CandidateLe(w, c))
    || (exists x :: x in r.conflicting && x.path == c.path && x.kind == c.kind && x.disputed != map[])
  }

  ghost predicate Grows(a: Resolution, b: Resolution) {
    a.selected <= b.selected && a.shadowed <= b.shadowed && a.conflicting <= b.conflicting
  }

  lemma StepGrows(st: Resolution, c: Candidate, diagnostic: bool)
    ensures Grows(st, FoldStep(st, c, diagnostic))
  {}

  lemma {:induction false} FoldGrows(st: Resolution, cs: seq<Candidate>, diagnostic: bool)
    ensures Grows(st, FoldAll(st, cs, diagnostic))
    decreases |cs|
  {
    if cs != [] {
      StepGrows(st, cs[0], diagnostic);
      FoldGrows(FoldStep(st, cs[0], diagnostic), cs[1..], diagnostic);
    }
  }

  lemma StepSelects(st: Resolution, c: Candidate)
    ensures forall w :: w in FoldStep(st, c, false).selected ==> w in st.selected || w == c
  {}

  /** The strict mode selects only whole records of the input, in their order. */
  lemma {:induction false} StrictSelectsInput(st: Resolution, cs: seq<Candidate>, n: nat)
    requires n <= |cs| && st.selected == []
    ensures forall w :: w in FoldAll(st, cs[..n], false).selected ==> w in cs[..n]
  {
    if n > 0 {
      StrictSelectsInput(st, cs, n - 1);
      FoldSnoc(st, cs, n - 1, false);
      StepSelects(FoldAll(st, cs[..n - 1], false), cs[n - 1]);
      assert forall w :: w in cs[..n - 1] ==> w in cs[..n];
      assert cs[n - 1] in cs[..n];
    }
  }

  lemma Rejoin<T>(s: seq<T>, n: nat)
    requires n < |s|
    ensures s == s[..n] + [s[n]] + s[n + 1..]
  {}

  lemma FoldCut(st: Resolution, cs: seq<Candidate>, a: seq<Candidate>, c: Candidate, b: seq<Candidate>)
    requires cs == a + [c] + b
    ensures FoldAll(st, cs, false) == FoldAll(FoldStep(FoldAll(st, a, false), c, false), b, false)
  {
    FoldConcat(st, a + [c], b, false);
    FoldConcat(st, a, [c], false);
    assert [c][1..] == [];
  }

  lemma FoldSplit(sorted: seq<Candidate>, n: nat)
    requires n < |sorted|
    ensures FoldAll(START, sorted, false)
         == FoldAll(FoldStep(FoldAll(START, sorted[..n], false), sorted[n], false), sorted[n + 1..], false)
  {
    Rejoin(sorted, n);
    FoldCut(START, sorted, sorted[..n], sorted[n], sorted[n + 1..]);
  }

  /** The fold around the record at position `n`: the state before it grows into the result. */
  lemma AroundPosition(sorted: seq<Candidate>, n: nat)
    requires n < |sorted|
    ensures var st := FoldAll(START, sorted[..n], false);
            && Grows(st, FoldStep(st, sorted[n], false))
            && Grows(FoldStep(st, sorted[n], false), FoldAll(START, sorted, false))
  {
    var st := FoldAll(START, sorted[..n], false);
    FoldSplit(sorted, n);
    StepGrows(st, sorted[n], false);
    FoldGrows(FoldStep(st, sorted[n], false), sorted[n + 1..], false);
  }

  lemma SelectedBefore(sorted: seq<Candidate>, n: nat)
    requires n < |sorted| && Sorting.Ordered(sorted, CandidateLe)
    ensures var st := FoldAll(START, sorted[..n], false);
            Coherent(st) && forall w :: w in st.selected ==> CandidateLe(w, sorted[n])
  {
    StrictSelectsInput(START, sorted, n);
    FoldCoherent(START, sorted[..n], false);
  }

  /** Nothing valid is dropped silently: in the strict fold every record is selected, shadowed
      by earlier selected records it names, or reported as conflicting. */
  lemma StrictAccountsForAll(cs: seq<Candidate>, c: Candidate)
    requires c in cs
    ensures AccountedFor(c, Resolved(cs, false).selected, Resolved(cs, false))
  {
    var sorted := Sorting.Sort(cs, CandidateLe);
    CandidateOrder();
    Sorting.SortOrdered(cs, CandidateLe);
    Sorting.SortMembers(cs, CandidateLe);
    var n :| 0 <= n < |sorted| && sorted[n] == c;
    var st := FoldAll(START, sorted[..n], false);
    AroundPosition(sorted, n);
    SelectedBefore(sorted, n);
    PrefixMembers(st.selected, FoldStep(st, c, false).selected, FoldAll(START, sorted, false).selected);
    LandsIn(st, c, FoldStep(st, c, false), FoldAll(START, sorted, false));
  }

  lemma PrefixMembers<T>(a: seq<T>, b: seq<T>, c: seq<T>)
    requires a <= b <= c
    ensures forall x :: x in a ==> x in c
  {}

  lemma LandsIn(st: Resolution, c: Candidate, t: Resolution, r: Resolution)
    requires Coherent(st) && t == FoldStep(st, c, false) && Grows(t, r)
    requires forall w :: w in st.selected ==> w in r.selected && CandidateLe(w, c)
    ensures AccountedFor(c, r.selected, r)
  {
    var first := FirstSuperseding(st.selected, c);
    if first.Some? {
      var s := Shadow(c.path, SameSourceMirror, {first.value});
      assert s == t.shadowed[|t.shadowed| - 1] && s in r.shadowed;
    } else if Disagreements(st.winners, c) == {} {
      assert c == t.selected[|t.selected| - 1] && c in r.selected;
    } else if Outranking(st.winners, c) != {} {
      var s := Shadow(c.path, LegacyName, Outranking(st.winners, c));
      assert s == t.shadowed[|t.shadowed| - 1] && s in r.shadowed;
    } else {
      var x := ConflictOf(st.winners, c);
      assert x == t.conflicting[|t.conflicting| - 1] && x in r.conflicting;
      assert x.disputed.Keys == Disagreements(st.winners, c);
    }
  }

  /** The first selected record is the least by (identity rank, precedence, path). */
  lemma FirstSelectedIsLeast(cs: seq<Candidate>)
    requires cs != []
    ensures var r := Resolved(cs, false).selected;
            r != [] && r[0] in cs && forall c :: c in cs ==> CandidateLe(r[0], c)
  {
    var sorted := Sorting.Sort(cs, CandidateLe);
    CandidateOrder();
    Sorting.SortOrdered(cs, CandidateLe);
    Sorting.SortMembers(cs, CandidateLe);
    var t := FoldStep(START, sorted[0], false);
    assert t.selected == [sorted[0]];
    FoldGrows(t, sorted[1..], false);
    forall c | c in cs ensures CandidateLe(sorted[0], c) {
      assert CandidateLe(c, c);
    }
  }

  /** Listing the records in another order changes nothing when their sort keys differ. */
  lemma OrderFree(cs: seq<Candidate>, ds: seq<Candidate>, diagnostic: bool)
    requires multiset(cs) == multiset(ds)
    requires forall a, b :: a in cs && b in cs && SameKey(a, b) ==> a == b
    ensures Resolved(cs, diagnostic) == Resolved(ds, diagnostic)
  {
    CandidateOrder();
    Sorting.SortCanonical(cs, ds, CandidateLe);
  }

  /** Without conflicts the diagnostic mode is the strict mode. */
  lemma {:induction false} DiagnosticIsStrict(st: Resolution, cs: seq<Candidate>)
    requires FoldAll(st, cs, true).conflicting == []
    ensures FoldAll(st, cs, true) == FoldAll(st, cs, false)
    decreases |cs|
  {
    if cs != [] {
      FoldGrows(FoldStep(st, cs[0], true), cs[1..], true);
      assert FoldStep(st, cs[0], true).conflicting == [];
      DiagnosticIsStrict(FoldStep(st, cs[0], true), cs[1..]);
    }
  }

  /** The other way round: when the strict mode finds no conflict, neither does the diagnostic. */
  lemma {:induction false} StrictIsDiagnostic(st: Resolution, cs: seq<Candidate>)
    requires FoldAll(st, cs, false).conflicting == []
    ensures FoldAll(st, cs, true) == FoldAll(st, cs, false)
    decreases |cs|
  {
    if cs != [] {
      FoldGrows(FoldStep(st, cs[0], false), cs[1..], false);
      assert FoldStep(st, cs[0], false).conflicting == [];
      StrictIsDiagnostic(FoldStep(st, cs[0], false), cs[1..]);
    }
  }
}
