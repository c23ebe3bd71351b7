/** What becomes of each manifest record, told by the records themselves (atlas_manifest_resolver.py):
    by their ranks, kinds, identities, paths and claims, and by who was selected before. */
module ManifestFates {
  import opened Texts
  import opened ManifestClaims
  import opened ManifestResolution
  import ManifestRepair
  import Sorting

  /** They claim one key differently. */
  predicate Disputes(w: Candidate, c: Candidate) {
    exists key :: key in w.claims && key in c.claims && w.claims[key] != c.claims[key]
  }

  /** `w` is the final per-target receipt that `c` mirrors, and `c` claims something else. */
  predicate Replaces(w: Candidate, c: Candidate) {
    && w.kind == PerTarget && c.kind != PerTarget
    && w.payload.identity == c.payload.identity && c.payload.targetManifest == w.path
    && c.claims != w.claims
  }

  // ---- One record against those selected before it ----

  datatype Fate = Superseded | Chosen | LegacyShadow | Disputed

  ghost predicate Meets(before: seq<Candidate>, c: Candidate, fate: Fate) {
    var superseded := exists w :: w in before && Replaces(w, c);
    var disputed := exists w :: w in before && Disputes(w, c);
    var outranked := exists w :: w in before && Disputes(w, c) && w.rank < c.rank;
    match fate
    case Superseded => superseded
    case Chosen => !superseded && !disputed
    case LegacyShadow => !superseded && outranked
    case Disputed => !superseded && disputed && !outranked
  }

  lemma FatesCover(before: seq<Candidate>, c: Candidate) returns (fate: Fate)
    ensures Meets(before, c, fate)
    ensures forall other :: Meets(before, c, other) ==> other == fate
  {
    fate :=
      if exists w :: w in before && Replaces(w, c) then Superseded
      else if exists w :: w in before && Disputes(w, c) && w.rank < c.rank then LegacyShadow
      else if exists w :: w in before && Disputes(w, c) then Disputed
      else Chosen;
  }

  /** The shadow names records selected before; the mirror's receipt, or records that dispute it
      under a strictly better name. */
  ghost predicate ShadowFits(before: seq<Candidate>, c: Candidate, s: Shadow) {
    && s.path == c.path && s.outrankedBy != {}
    && forall p :: p in s.outrankedBy ==> Outranks(before, c, s.reason, p)
  }

  /** Some record at `p`, selected before, is reason enough to shadow `c`. */
  ghost predicate Outranks(before: seq<Candidate>, c: Candidate, reason: ShadowReason, p: Path) {
    exists w :: w in before && w.path == p
      && if reason == LegacyName then Disputes(w, c) && w.rank < c.rank else Replaces(w, c)
  }

  /** The conflict lists every disputed claim, with a record selected before that holds it. */
  ghost predicate ConflictFits(before: seq<Candidate>, c: Candidate, x: Conflict) {
    && x.path == c.path && x.kind == c.kind && x.disputed != map[]
    && (forall w, key :: w in before && key in w.claims && key in c.claims && w.claims[key] != c.claims[key] ==>
        key in x.disputed)
    && forall key :: key in x.disputed ==> HolderFits(before, c, key, x.disputed[key])
  }

  predicate HolderFits(before: seq<Candidate>, c: Candidate, key: ClaimKey, p: Path) {
    exists w :: w in before && w.path == p && key in w.claims && key in c.claims && w.claims[key] != c.claims[key]
  }

  /** Winners are the best-ranked holders of their claims. */
  ghost predicate BestHolders(st: Resolution) {
    forall w, key :: w in st.selected && key in w.claims ==> key in st.winners && st.winners[key].rank <= w.rank
  }

  lemma BestHoldersKept(st: Resolution, c: Candidate)
    requires Coherent(st) && BestHolders(st) && forall w :: w in st.selected ==> w.rank <= c.rank
    ensures BestHolders(FoldStep(st, c, false))
  {
    var t := FoldStep(st, c, false);
    if t.selected != st.selected {
      assert t == Select(st, c);
      forall w, key | w in t.selected && key in w.claims ensures key in t.winners && t.winners[key].rank <= w.rank {
        assert w in st.selected || w == c;
      }
    }
  }

  lemma SupersededMeans(selected: seq<Candidate>, c: Candidate)
    ensures FirstSuperseding(selected, c).Some? <==> exists w :: w in selected && Replaces(w, c)
    ensures FirstSuperseding(selected, c).Some? ==>
              exists w :: w in selected && Replaces(w, c) && w.path == FirstSuperseding(selected, c).value
  {
    assert forall w :: Supersedes(w, c) <==> Replaces(w, c);
  }

  /** The receipt named is the first one selected that the record mirrors. */
  lemma {:induction false} FirstIsFirst(selected: seq<Candidate>, c: Candidate) returns (i: nat)
    requires FirstSuperseding(selected, c).Some?
    ensures i < |selected| && Replaces(selected[i], c) && selected[i].path == FirstSuperseding(selected, c).value
    ensures forall j :: 0 <= j < i ==> !Replaces(selected[j], c)
  {
    SupersedesIs(selected[0], c);
    if Supersedes(selected[0], c) {
      i := 0;
    } else {
      var k := FirstIsFirst(selected[1..], c);
      i := k + 1;
      forall j | 0 <= j < i ensures !Replaces(selected[j], c) {
        if j > 0 { assert selected[j] == selected[1..][j - 1]; }
      }
    }
  }

  lemma SupersedesIs(w: Candidate, c: Candidate)
    ensures Supersedes(w, c) <==> Replaces(w, c)
  {}

  lemma DisputedKey(st: Resolution, c: Candidate, w: Candidate, key: ClaimKey)
    requires Coherent(st) && BestHolders(st) && w in st.selected
    requires key in w.claims && key in c.claims && w.claims[key] != c.claims[key]
    ensures key in Disagreements(st.winners, c) && st.winners[key].rank <= w.rank
  {
    assert Holds(st.winners[key], key, w.claims[key]);
  }

  lemma HolderDisputes(st: Resolution, c: Candidate, key: ClaimKey)
    requires Coherent(st) && key in Disagreements(st.winners, c)
    ensures var w := st.winners[key];
            w in st.selected && key in w.claims && key in c.claims && w.claims[key] != c.claims[key] && Disputes(w, c)
  {}

  lemma DisputedMeans(st: Resolution, c: Candidate)
    requires Coherent(st) && BestHolders(st)
    ensures Disagreements(st.winners, c) != {} <==> exists w :: w in st.selected && Disputes(w, c)
    ensures Outranking(st.winners, c) != {} <==> exists w :: w in st.selected && Disputes(w, c) && w.rank < c.rank
  {
    if key :| key in Disagreements(st.winners, c) {
      HolderDisputes(st, c, key);
    }
    if w :| w in st.selected && Disputes(w, c) {
      var key :| key in w.claims && key in c.claims && w.claims[key] != c.claims[key];
      DisputedKey(st, c, w, key);
    }
    if p :| p in Outranking(st.winners, c) {
      var key :| key in Disagreements(st.winners, c) && st.winners[key].rank < c.rank && st.winners[key].path == p;
      HolderDisputes(st, c, key);
    }
    if w :| w in st.selected && Disputes(w, c) && w.rank < c.rank {
      var key :| key in w.claims && key in c.claims && w.claims[key] != c.claims[key];
      DisputedKey(st, c, w, key);
      assert st.winners[key].path in Outranking(st.winners, c);
    }
  }

  /** The step on one record, by its fate: it does just that, and nothing else. */
  lemma StepFate(st: Resolution, c: Candidate, fate: Fate)
    requires Coherent(st) && BestHolders(st) && Meets(st.selected, c, fate)
    ensures var t := FoldStep(st, c, false);
            match fate
            case Chosen =>
              t.selected == st.selected + [c] && t.shadowed == st.shadowed && t.conflicting == st.conflicting
            case Disputed =>
              && |t.conflicting| == |st.conflicting| + 1 && t == st.(conflicting := t.conflicting)
              && t.conflicting[..|st.conflicting|] == st.conflicting
              && ConflictFits(st.selected, c, t.conflicting[|st.conflicting|])
            case _ =>
              && |t.shadowed| == |st.shadowed| + 1 && t == st.(shadowed := t.shadowed)
              && t.shadowed[..|st.shadowed|] == st.shadowed
              && ShadowFits(st.selected, c, t.shadowed[|st.shadowed|])
              && t.shadowed[|st.shadowed|].reason == if fate.Superseded? then SameSourceMirror else LegacyName
  {
    SupersededMeans(st.selected, c);
    DisputedMeans(st, c);
    if fate.LegacyShadow? {
      LegacyFits(st, c);
    } else if fate.Disputed? {
      DisputeFits(st, c);
    }
  }

  lemma LegacyFits(st: Resolution, c: Candidate)
    requires Coherent(st) && Outranking(st.winners, c) != {}
    ensures ShadowFits(st.selected, c, Shadow(c.path, LegacyName, Outranking(st.winners, c)))
  {
    forall p | p in Outranking(st.winners, c) ensures Outranks(st.selected, c, LegacyName, p) {
      var key :| key in Disagreements(st.winners, c) && st.winners[key].rank < c.rank && st.winners[key].path == p;
      HolderDisputes(st, c, key);
    }
  }

  lemma DisputeFits(st: Resolution, c: Candidate)
    requires Coherent(st) && BestHolders(st) && Disagreements(st.winners, c) != {}
    ensures ConflictFits(st.selected, c, ConflictOf(st.winners, c))
  {
    var x := ConflictOf(st.winners, c);
    assert x.disputed.Keys == Disagreements(st.winners, c);
    forall w, key | w in st.selected && key in w.claims && key in c.claims && w.claims[key] != c.claims[key]
      ensures key in x.disputed
    {
      DisputedKey(st, c, w, key);
    }
    forall key | key in x.disputed ensures HolderFits(st.selected, c, key, x.disputed[key]) {
      HolderDisputes(st, c, key);
    }
  }

  // ---- Every record of a folder ----

  lemma {:induction false} PrefixHolders(sorted: seq<Candidate>, n: nat)
    requires n <= |sorted| && Sorting.Ordered(sorted, CandidateLe)
    ensures Coherent(FoldAll(START, sorted[..n], false)) && BestHolders(FoldAll(START, sorted[..n], false))
    ensures n < |sorted| ==> forall w :: w in FoldAll(START, sorted[..n], false).selected ==> w.rank <= sorted[n].rank
  {
    if n < |sorted| {
      RanksBefore(sorted, n);
    }
    if n > 0 {
      PrefixHolders(sorted, n - 1);
      NextHolders(sorted, n - 1);
    } else {
      assert sorted[..0] == [];
    }
  }

  lemma NextHolders(sorted: seq<Candidate>, n: nat)
    requires n < |sorted|
    requires var st := FoldAll(START, sorted[..n], false);
             Coherent(st) && BestHolders(st) && forall w :: w in st.selected ==> w.rank <= sorted[n].rank
    ensures var t := FoldAll(START, sorted[..n + 1], false); Coherent(t) && BestHolders(t)
  {
    var st := FoldAll(START, sorted[..n], false);
    FoldSnoc(START, sorted, n, false);
    BestHoldersKept(st, sorted[n]);
    StepCoherent(st, sorted[n], false);
  }

  lemma RanksBefore(sorted: seq<Candidate>, n: nat)
    requires n < |sorted| && Sorting.Ordered(sorted, CandidateLe)
    ensures forall w :: w in FoldAll(START, sorted[..n], false).selected ==> w.rank <= sorted[n].rank
  {
    SelectedBefore(sorted, n);
    assert forall w :: CandidateLe(w, sorted[n]) ==> w.rank <= sorted[n].rank;
  }

  lemma {:induction false} SelectsOnly(st: Resolution, rest: seq<Candidate>)
    ensures var r := FoldAll(st, rest, false).selected; st.selected <= r && AddedFrom(st.selected, r, rest)
    decreases |rest|
  {
    if rest != [] {
      var t := FoldStep(st, rest[0], false);
      StepSelectsAtEnd(st, rest[0]);
      SelectsOnly(t, rest[1..]);
      AddedByOne(st.selected, t.selected, FoldAll(st, rest, false).selected, rest);
    }
  }

  /** What is selected after `a` comes from these records. */
  ghost predicate AddedFrom(a: seq<Candidate>, r: seq<Candidate>, rest: seq<Candidate>) {
    forall k :: |a| <= k < |r| ==> r[k] in rest
  }

  lemma AddedByOne(a: seq<Candidate>, t: seq<Candidate>, r: seq<Candidate>, rest: seq<Candidate>)
    requires rest != [] && (t == a || t == a + [rest[0]]) && t <= r && AddedFrom(t, r, rest[1..])
    ensures a <= r && AddedFrom(a, r, rest)
  {
    forall k | |a| <= k < |r| ensures r[k] in rest {
      if k >= |t| { assert r[k] in rest[1..]; } else { assert r[k] == t[k]; }
    }
  }

  lemma StepSelectsAtEnd(st: Resolution, c: Candidate)
    ensures var t := FoldStep(st, c, false).selected; t == st.selected || t == st.selected + [c]
  {}

  /** The whole story of strict resolution: for each record there is a part of the selection, all of
      it before the record in rank, kind and path order, with the rest after it, that decides its
      fate; and the result shows that fate. */
  ghost predicate Told(r: Resolution, c: Candidate, n: nat, fate: Fate)
    requires n <= |r.selected|
  {
    && Meets(r.selected[..n], c, fate)
    && (fate == Chosen ==> n < |r.selected| && r.selected[n] == c)
    && (fate == Superseded ==>
         exists s :: s in r.shadowed && s.reason == SameSourceMirror && ShadowFits(r.selected[..n], c, s))
    && (fate == LegacyShadow ==>
        exists s :: s in r.shadowed && s.reason == LegacyName && ShadowFits(r.selected[..n], c, s))
    && (fate == Disputed ==> exists x :: x in r.conflicting && ConflictFits(r.selected[..n], c, x))
  }

  lemma EveryRecordIsTold(cs: seq<Candidate>, c: Candidate) returns (n: nat, fate: Fate)
    requires c in cs
    ensures var r := Resolved(cs, false);
            && n <= |r.selected| && Told(r, c, n, fate)
            && (forall w :: w in r.selected[..n] ==> CandidateLe(w, c))
            && (forall w :: w in r.selected[n..] ==> CandidateLe(c, w))
  {
    var sorted := Sorting.Sort(cs, CandidateLe);
    CandidateOrder();
    Sorting.SortOrdered(cs, CandidateLe);
    Sorting.SortMembers(cs, CandidateLe);
    var i :| 0 <= i < |sorted| && sorted[i] == c;
    n, fate := ToldAt(sorted, i);
    SelectedSplit(sorted, i);
  }

  lemma ToldAt(sorted: seq<Candidate>, i: nat) returns (n: nat, fate: Fate)
    requires i < |sorted| && Sorting.Ordered(sorted, CandidateLe)
    ensures n == |FoldAll(START, sorted[..i], false).selected|
    ensures n <= |FoldAll(START, sorted, false).selected| && Told(FoldAll(START, sorted, false), sorted[i], n, fate)
  {
    var st, r, c := FoldAll(START, sorted[..i], false), FoldAll(START, sorted, false), sorted[i];
    n := |st.selected|;
    PrefixHolders(sorted, i);
    AroundPosition(sorted, i);
    fate := FatesCover(st.selected, c);
    StepFate(st, c, fate);
    Shown(st, FoldStep(st, c, false), r, c, fate);
  }

  /** The selection before a record precedes it, and the rest of the selection does not. */
  lemma SelectedSplit(sorted: seq<Candidate>, i: nat)
    requires i < |sorted| && Sorting.Ordered(sorted, CandidateLe) && Sorting.TotalPreorder(CandidateLe)
    ensures var n, r := |FoldAll(START, sorted[..i], false).selected|, FoldAll(START, sorted, false).selected;
            && n <= |r|
            && (forall w :: w in r[..n] ==> CandidateLe(w, sorted[i]))
            && (forall w :: w in r[n..] ==> CandidateLe(sorted[i], w))
  {
    var st := FoldAll(START, sorted[..i], false);
    assert sorted == sorted[..i] + sorted[i..];
    FoldConcat(START, sorted[..i], sorted[i..], false);
    SelectsOnly(st, sorted[i..]);
    SelectedBefore(sorted, i);
    var r := FoldAll(START, sorted, false).selected;
    assert r[..|st.selected|] == st.selected;
    forall k | |st.selected| <= k < |r| ensures CandidateLe(sorted[i], r[k]) {
      Later(sorted, i, r[k]);
    }
  }

  lemma Later(sorted: seq<Candidate>, i: nat, w: Candidate)
    requires i < |sorted| && Sorting.Ordered(sorted, CandidateLe) && Sorting.TotalPreorder(CandidateLe)
    requires w in sorted[i..]
    ensures CandidateLe(sorted[i], w)
  {
    var k :| 0 <= k < |sorted| - i && sorted[i..][k] == w;
    assert sorted[i + k] == w && CandidateLe(w, w);
  }

  lemma Shown(st: Resolution, t: Resolution, r: Resolution, c: Candidate, fate: Fate)
    requires Meets(st.selected, c, fate) && Grows(t, r) && st.selected <= t.selected
    requires fate == Chosen ==> t.selected == st.selected + [c]
    requires fate == Disputed ==>
        t.conflicting != [] && ConflictFits(st.selected, c, t.conflicting[|t.conflicting| - 1])
    requires fate.Superseded? || fate.LegacyShadow? ==>
               && t.shadowed != [] && ShadowFits(st.selected, c, t.shadowed[|t.shadowed| - 1])
               && t.shadowed[|t.shadowed| - 1].reason == if fate.Superseded? then SameSourceMirror else LegacyName
    ensures |st.selected| <= |r.selected| && Told(r, c, |st.selected|, fate)
  {
    assert r.selected[..|st.selected|] == st.selected;
    match fate
    case Chosen => assert r.selected[|st.selected|] == t.selected[|st.selected|];
    case Disputed => assert t.conflicting[|t.conflicting| - 1] in r.conflicting;
    case _ => assert t.shadowed[|t.shadowed| - 1] in r.shadowed;
  }

  lemma MoreSelected(a: seq<Candidate>, b: seq<Candidate>, c: Candidate, s: Shadow)
    requires a <= b && ShadowFits(a, c, s)
    ensures ShadowFits(b, c, s)
  {
    forall p | p in s.outrankedBy ensures Outranks(b, c, s.reason, p) {
      assert Outranks(a, c, s.reason, p);
    }
  }

  lemma MoreHolders(a: seq<Candidate>, b: seq<Candidate>, c: Candidate, x: Conflict, key: ClaimKey)
    requires a <= b && key in x.disputed && HolderFits(a, c, key, x.disputed[key])
    ensures HolderFits(b, c, key, x.disputed[key])
  {}

  /** One step adds at most one shadow or one conflict, and it is about that record. */
  lemma StepEntries(st: Resolution, c: Candidate)
    requires Coherent(st) && BestHolders(st)
    ensures var t := FoldStep(st, c, false);
            && (forall s :: s in t.shadowed && s !in st.shadowed ==> ShadowFits(st.selected, c, s))
            && (forall x :: x in t.conflicting && x !in st.conflicting ==> ConflictFits(st.selected, c, x))
  {
    var fate := FatesCover(st.selected, c);
    StepFate(st, c, fate);
    var t := FoldStep(st, c, false);
    if t.shadowed != st.shadowed { OneNew(st.shadowed, t.shadowed); }
    if t.conflicting != st.conflicting { OneNew(st.conflicting, t.conflicting); }
  }

  lemma OneNew<T>(a: seq<T>, b: seq<T>)
    requires |b| == |a| + 1 && b[..|a|] == a
    ensures forall x :: x in b && x !in a ==> x == b[|a|]
  {
    assert b == a + [b[|a|]];
  }

  lemma NothingYet(sorted: seq<Candidate>)
    ensures FoldAll(START, sorted[..0], false) == START
  {}

  lemma {:induction false} ShadowCameFrom(sorted: seq<Candidate>, n: nat, s: Shadow) returns (i: nat)
    requires n <= |sorted| && Sorting.Ordered(sorted, CandidateLe)
    requires s in FoldAll(START, sorted[..n], false).shadowed
    ensures i < n && ShadowFits(FoldAll(START, sorted[..i], false).selected, sorted[i], s)
  {
    NothingYet(sorted);
    if s in FoldAll(START, sorted[..n - 1], false).shadowed {
      i := ShadowCameFrom(sorted, n - 1, s);
    } else {
      i := n - 1;
      NewShadowFits(sorted, i, s);
    }
  }

  lemma NewShadowFits(sorted: seq<Candidate>, i: nat, s: Shadow)
    requires i < |sorted| && Sorting.Ordered(sorted, CandidateLe)
    requires s !in FoldAll(START, sorted[..i], false).shadowed && s in FoldAll(START, sorted[..i + 1], false).shadowed
    ensures ShadowFits(FoldAll(START, sorted[..i], false).selected, sorted[i], s)
  {
    FoldSnoc(START, sorted, i, false);
    PrefixHolders(sorted, i);
    StepEntries(FoldAll(START, sorted[..i], false), sorted[i]);
  }

  lemma NewConflictFits(sorted: seq<Candidate>, i: nat, x: Conflict)
    requires i < |sorted| && Sorting.Ordered(sorted, CandidateLe)
    requires x !in FoldAll(START, sorted[..i], false).conflicting
    requires x in FoldAll(START, sorted[..i + 1], false).conflicting
    ensures ConflictFits(FoldAll(START, sorted[..i], false).selected, sorted[i], x)
  {
    FoldSnoc(START, sorted, i, false);
    PrefixHolders(sorted, i);
    StepEntries(FoldAll(START, sorted[..i], false), sorted[i]);
  }

  lemma {:induction false} ConflictCameFrom(sorted: seq<Candidate>, n: nat, x: Conflict) returns (i: nat)
    requires n <= |sorted| && Sorting.Ordered(sorted, CandidateLe)
    requires x in FoldAll(START, sorted[..n], false).conflicting
    ensures i < n && ConflictFits(FoldAll(START, sorted[..i], false).selected, sorted[i], x)
  {
    NothingYet(sorted);
    if x in FoldAll(START, sorted[..n - 1], false).conflicting {
      i := ConflictCameFrom(sorted, n - 1, x);
    } else {
      i := n - 1;
      NewConflictFits(sorted, i, x);
    }
  }

  lemma SortedFold(cs: seq<Candidate>)
    ensures var sorted := Sorting.Sort(cs, CandidateLe);
            && Sorting.Ordered(sorted, CandidateLe) && (forall c :: c in sorted <==> c in cs)
            && Resolved(cs, false) == FoldAll(START, sorted[..|sorted|], false)
  {
    var sorted := Sorting.Sort(cs, CandidateLe);
    CandidateOrder();
    Sorting.SortOrdered(cs, CandidateLe);
    Sorting.SortMembers(cs, CandidateLe);
    assert sorted[..|sorted|] == sorted;
  }

  /** Every shadow is of a record of the folder, and every record it names is selected: under a
      strictly better name and in dispute with it, or the receipt that it mirrors. */
  lemma ShadowsFit(cs: seq<Candidate>, s: Shadow) returns (c: Candidate)
    requires s in Resolved(cs, false).shadowed
    ensures c in cs && ShadowFits(Resolved(cs, false).selected, c, s)
  {
    var sorted := Sorting.Sort(cs, CandidateLe);
    SortedFold(cs);
    var i := ShadowCameFrom(sorted, |sorted|, s);
    c := sorted[i];
    AroundPosition(sorted, i);
    MoreSelected(FoldAll(START, sorted[..i], false).selected, Resolved(cs, false).selected, c, s);
  }

  /** Every conflict is of a record of the folder, with a selected record for each disputed claim. */
  lemma ConflictsFit(cs: seq<Candidate>, x: Conflict) returns (c: Candidate)
    requires x in Resolved(cs, false).conflicting
    ensures c in cs && x.path == c.path && x.kind == c.kind && x.disputed != map[]
    ensures forall key :: key in x.disputed ==> HolderFits(Resolved(cs, false).selected, c, key, x.disputed[key])
  {
    var sorted := Sorting.Sort(cs, CandidateLe);
    SortedFold(cs);
    var i := ConflictCameFrom(sorted, |sorted|, x);
    c := sorted[i];
    AroundPosition(sorted, i);
    forall key | key in x.disputed ensures HolderFits(Resolved(cs, false).selected, c, key, x.disputed[key]) {
      MoreHolders(FoldAll(START, sorted[..i], false).selected, Resolved(cs, false).selected, c, x, key);
    }
  }

  /** The order of resolution: canonical names before legacy ones, then per-target receipts before
      target scopes before the global manifest, then by path. */
  lemma OrderMeans(a: Candidate, b: Candidate)
    ensures CandidateLe(a, b) <==>
              || a.rank < b.rank
              || (a.rank == b.rank && a.kind == PerTarget && b.kind != PerTarget)
              || (a.rank == b.rank && a.kind == TargetScope && b.kind == GlobalTarget)
              || (a.rank == b.rank && a.kind == b.kind && TextLe(a.path, b.path))
  {}

  // ---- No ownership conflict vanishes ----

  /** A record that disputes a selected record is reported, unless a selected record disputes it
      under a strictly better name, or it mirrors a final receipt. Then the folder does not resolve. */
  lemma DisputeIsReported(cs: seq<Candidate>, c: Candidate, w: Candidate)
    requires c in cs && w in Resolved(cs, false).selected && Disputes(w, c)
    requires forall v :: v in Resolved(cs, false).selected ==> !Replaces(v, c) && !(Disputes(v, c) && v.rank < c.rank)
    ensures exists x :: x in Resolved(cs, false).conflicting && x.path == c.path && x.kind == c.kind
  {
    var r := Resolved(cs, false);
    var n, fate := EveryRecordIsTold(cs, c);
    assert forall v :: v in r.selected[..n] ==> v in r.selected;
    if fate == Chosen {
      assert c in r.selected;
      SelectedAgree(cs, false, w, c);
      assert false;
    }
    assert fate == Disputed;
    var x :| x in r.conflicting && ConflictFits(r.selected[..n], c, x);
  }

  lemma DisputedFolderFails(
      target: ManifestRepair.Target, records: seq<ManifestRepair.Record>, c: Candidate, w: Candidate)
    requires var cs := ManifestRepair.ValidRecords(target, records);
             && c in cs && w in Resolved(cs, false).selected && Disputes(w, c)
             && forall v :: v in Resolved(cs, false).selected ==>
                 !Replaces(v, c) && !(Disputes(v, c) && v.rank < c.rank)
    ensures !ManifestRepair.ResolveFolder(target, records).Selected?
  {
    DisputeIsReported(ManifestRepair.ValidRecords(target, records), c, w);
  }

  /** What the records of a successful resolution have in common: each is selected, mirrors a final
      receipt, or is disputed under a strictly better name. */
  lemma ResolvedMeans(target: ManifestRepair.Target, records: seq<ManifestRepair.Record>, c: Candidate)
    requires ManifestRepair.ResolveFolder(target, records).Selected? &&
        c in ManifestRepair.ValidRecords(target, records)
    ensures var selected := ManifestRepair.ResolveFolder(target, records).selected;
            || c in selected
            || (exists w :: w in selected && Replaces(w, c))
            || (exists w :: w in selected && Disputes(w, c) && w.rank < c.rank)
  {
    var cs := ManifestRepair.ValidRecords(target, records);
    var r := Resolved(cs, false);
    var n, fate := EveryRecordIsTold(cs, c);
    assert forall v :: v in r.selected[..n] ==> v in r.selected;
    if fate == Chosen {
      assert r.selected[n] in r.selected;
    }
  }

  // ---- Reading a file, and planning a repair ----

  /** What one file is to the resolver. Foreign files and retired scopes are passed over; an
      unreadable file or an invalid record of this target fails the whole resolution. */
  lemma ReadingMeans(target: ManifestRepair.Target, r: ManifestRepair.Record)
    ensures var reading := ManifestRepair.ReadRecord(target, r);
            if r.content.None? then reading.Fatal?
            else
              var p := r.content.value;
              var mine := p.spm != "" && p.spm in target.names;
              && (reading.Rejected? <==> !mine)
              && (reading.RetiredScope? <==> mine && p.retired)
              && (reading.Valid? <==> mine && !p.retired && p.schemaSupported && ClaimsOf(p, r.kind).Ok?)
              && (reading.Valid? ==>
                   var c := reading.candidate;
                   && c.path == r.path && c.kind == r.kind && c.payload == p && Ok(c.claims) == ClaimsOf(p, r.kind)
                   && c.rank <= 1 && (c.rank == 1 <==> target.legacyName == Some(p.spm)))
  {}

  /** The only per-target receipt among the selected records. */
  predicate OnlyReceipt(selected: seq<Candidate>, i: int) {
    0 <= i < |selected| && forall j :: 0 <= j < |selected| ==> (selected[j].kind == PerTarget <==> j == i)
  }

  /** `m` conflicts with the receipt alone; it is a lower manifest of the same source, and claims
      the same keys, with other values. */
  ghost predicate Drifted(receipt: Candidate, x: Conflict, m: Candidate) {
    && m.path == x.path && m.kind == x.kind && m.kind != PerTarget
    && x.disputed.Values <= {receipt.path}
    && m.payload.identity == receipt.payload.identity && m.claims.Keys == receipt.claims.Keys
  }

  ghost predicate AllDrifted(receipt: Candidate, r: Resolution, valid: seq<Candidate>) {
    forall x :: x in r.conflicting ==> exists m :: m in valid && Drifted(receipt, x, m)
  }

  /** Exactly when a folder needs no repair, and exactly when it can be repaired. */
  lemma PlanIff(target: ManifestRepair.Target, records: seq<ManifestRepair.Record>)
    ensures var plan, valid := ManifestRepair.PlanRepair(target, records), ManifestRepair.ValidRecords(target, records);
            var r := Resolved(valid, false);
            var readable := forall q :: q in records ==> !ManifestRepair.ReadRecord(target, q).Fatal?;
            && (plan.NotNeeded? <==> readable && r.conflicting == [])
            && (plan.Repairable? <==>
                 && readable && r.conflicting != []
                 && exists i :: OnlyReceipt(r.selected, i) && AllDrifted(r.selected[i], r, valid))
            && (plan.Repairable? ==>
                 && plan.authority in r.selected && plan.authority.kind == PerTarget
                 && forall p :: p in plan.mirrors <==> exists x :: x in r.conflicting && x.path == p)
  {
    var plan, valid := ManifestRepair.PlanRepair(target, records), ManifestRepair.ValidRecords(target, records);
    var r := Resolved(valid, false);
    assert ManifestRepair.AnyFatal(target, records) <==>
        exists q :: q in records && ManifestRepair.ReadRecord(target, q).Fatal?;
    if i :| OnlyReceipt(r.selected, i) && AllDrifted(r.selected[i], r, valid) {
      TheReceipt(r.selected, i);
      DriftedAreStale(r.selected[i], r, valid);
    }
    if plan.Repairable? {
      var i := FindReceipt(r.selected);
      TheReceipt(r.selected, i);
      DriftedAreStale(r.selected[i], r, valid);
    }
  }

  lemma DriftedAreStale(receipt: Candidate, r: Resolution, valid: seq<Candidate>)
    requires receipt.kind == PerTarget
    ensures AllDrifted(receipt, r, valid) <==>
              forall x :: x in r.conflicting ==> exists m :: m in valid && ManifestRepair.StaleMirror(receipt, x, m)
  {
    forall x, m ensures Drifted(receipt, x, m) <==> ManifestRepair.StaleMirror(receipt, x, m) {
      assert forall key :: key in x.disputed ==> x.disputed[key] in x.disputed.Values;
    }
  }

  lemma {:induction false} NoReceipt(selected: seq<Candidate>)
    ensures ManifestRepair.Authorities(selected) == [] <==>
              forall j :: 0 <= j < |selected| ==> selected[j].kind != PerTarget
  {
    if selected != [] {
      NoReceipt(selected[1..]);
      assert forall j :: 0 < j < |selected| ==> selected[j] == selected[1..][j - 1];
      assert forall j :: 0 <= j < |selected| - 1 ==> selected[1..][j] == selected[j + 1];
    }
  }

  lemma {:induction false} TheReceipt(selected: seq<Candidate>, i: int)
    requires OnlyReceipt(selected, i)
    ensures ManifestRepair.Authorities(selected) == [selected[i]]
    decreases |selected|
  {
    if i == 0 {
      NoReceipt(selected[1..]);
    } else {
      assert forall j :: 0 <= j < |selected| - 1 ==> selected[1..][j] == selected[j + 1];
      TheReceipt(selected[1..], i - 1);
    }
  }

  lemma {:induction false} FindReceipt(selected: seq<Candidate>) returns (i: int)
    requires |ManifestRepair.Authorities(selected)| == 1
    ensures OnlyReceipt(selected, i)
  {
    var rest := selected[1..];
    assert forall j :: 0 < j < |selected| ==> selected[j] == rest[j - 1];
    if selected[0].kind == PerTarget {
      NoReceipt(rest);
      i := 0;
    } else {
      var k := FindReceipt(rest);
      i := k + 1;
    }
  }

  /** A repair copies the source identity and the six ownership blocks into the mirrors, and leaves
      every other field and every other file as it was. */
  lemma RepairTouches(authority: Payload, mirrors: set<Path>, records: seq<ManifestRepair.Record>, i: nat)
    requires i < |records|
    ensures var r, s := records[i], ManifestRepair.RepairRecords(authority, mirrors, records)[i];
            && s.path == r.path && s.kind == r.kind
            && (r.path !in mirrors || r.content.None? ==> s == r)
            && (r.path in mirrors && r.content.Some? ==>
                 && s.content.Some? && Copied(s.content.value, authority) && Kept(s.content.value, r.content.value))
  {}

  predicate Copied(p: Payload, a: Payload) {
    && p.identity == a.identity && p.finalGroups == a.finalGroups && p.earlyGroups == a.earlyGroups
    && p.connection == a.connection && p.ownership == a.ownership && p.provenance == a.provenance
    && p.tombstone == a.tombstone
  }

  predicate Kept(p: Payload, was: Payload) {
    && p.spm == was.spm && p.retired == was.retired && p.schemaSupported == was.schemaSupported
    && p.targetManifest == was.targetManifest && p.seals == was.seals && p.rest == was.rest
  }

  /** The audit lists exactly the files that strict resolution could not have read. */
  lemma DiagnosisMeans(target: ManifestRepair.Target, records: seq<ManifestRepair.Record>, p: Path)
    ensures p in ManifestRepair.DiagnoseFolder(target, records).fatal <==>
              exists i :: 0 <= i < |records| && records[i].path == p &&
                  ManifestRepair.ReadRecord(target, records[i]).Fatal?
  {
    if p in ManifestRepair.DiagnoseFolder(target, records).fatal {
      var q :| q in records && ManifestRepair.ReadRecord(target, q).Fatal? && q.path == p;
      var i :| 0 <= i < |records| && records[i] == q;
    }
  }
}
