/** Age-then-capacity retention planning (artifact_retention.py).

    First which bundles may be planned at all, then the two passes that mark bundles in place
    while the projected byte count goes down. Each attempt to prepare a bundle may find it
    unstable; which ones do is given. */
module RetentionPlan {
  import opened Texts
  import Sorting

  // ---- Eligibility ----

  datatype Kind = ManualCopy | RecoveryArchive | Other

  datatype Basis =
    | WithinBudget | ManualCopyPolicy | ArchivePolicy | ArchiveInvalid | Protected | OriginalUnverified
    | Uncertain | UnknownFormat

  /** What the inventory knows of one file, and how the guards bear on it. */
  datatype Facts = Facts(
    kind: Kind, uncertainty: Basis, singleFile: bool,
    overlapsProtected: bool, sourceProtected: bool, archiveValid: bool, pinned: bool,
    asset: bool, originalVerified: bool, regenerable: bool, manualName: bool)

  datatype Policy = Policy(production: bool, manualCopies: bool, archives: bool)

  /** The guard cascade for one entry. */
  function EntryBasis(p: Policy, f: Facts): Basis {
    if f.kind == ManualCopy && !p.manualCopies then ManualCopyPolicy
    else if f.kind == RecoveryArchive && !p.archives then ArchivePolicy
    else if f.kind == RecoveryArchive && !f.archiveValid then ArchiveInvalid
    else if f.kind == RecoveryArchive && f.sourceProtected then Protected
    else if f.overlapsProtected then Protected
    else if f.pinned then Protected
    else if p.production && f.kind != RecoveryArchive && f.asset && !f.originalVerified then OriginalUnverified
    else f.uncertainty
  }

  datatype Atomicity = NotAtomic | SingleFile | SealedDirectory | VerifiedOriginals

  /** Whether a bundle's directory carries a valid seal, and a guard overlaps that directory. */
  datatype Seal = Seal(valid: bool, rootProtected: bool)

  predicate SealApplies(p: Policy, members: seq<Facts>, seal: Seal) {
    p.production && seal.valid && exists m :: m in members && !m.singleFile
  }

  /** An asset with a verified original, or an auxiliary file that can be made again. */
  predicate Replaceable(m: Facts) { if m.asset then m.originalVerified else m.regenerable }

  function AtomicityOf(p: Policy, members: seq<Facts>, seal: Seal): Atomicity {
    if SealApplies(p, members, seal) then SealedDirectory
    else if |members| == 1 && members[0].singleFile then SingleFile
    else if p.production && (exists m :: m in members && m.asset)
         && (forall m :: m in members ==> Replaceable(m)) then VerifiedOriginals
    else NotAtomic
  }

  /** The member's final basis: a proof of atomicity only lifts plain uncertainty. */
  function MemberBasis(p: Policy, members: seq<Facts>, seal: Seal, m: Facts): Basis {
    var own := EntryBasis(p, m);
    var lifted := if own == Uncertain then WithinBudget else own;
    match AtomicityOf(p, members, seal)
    case SealedDirectory =>
      if seal.rootProtected || exists n :: n in members && n.overlapsProtected then Protected
      else if !p.manualCopies && exists n :: n in members && n.manualName then ManualCopyPolicy
      else lifted
    case VerifiedOriginals => lifted
    case SingleFile => own
    case NotAtomic => own
  }

  predicate Eligible(p: Policy, members: seq<Facts>, seal: Seal) {
    && AtomicityOf(p, members, seal) != NotAtomic
    && forall m :: m in members ==> MemberBasis(p, members, seal, m) == WithinBudget
  }

  /** No guard and no policy stands against the file itself. */
  predicate Unobjectionable(p: Policy, m: Facts) {
    && !m.overlapsProtected && !m.pinned
    && (m.kind == ManualCopy ==> p.manualCopies)
    && (m.kind == RecoveryArchive ==> p.archives && m.archiveValid && !m.sourceProtected)
    && (p.production && m.asset && m.kind != RecoveryArchive ==> m.originalVerified)
  }

  /** The exact condition: an atomic bundle of unobjectionable files, whose plain uncertainty a
      seal or verified originals resolve, in a directory that no guard or policy withholds. So a
      bundle with any protected member is never planned for deletion. */
  lemma {:induction false} EligibleIff(p: Policy, members: seq<Facts>, seal: Seal)
    ensures Eligible(p, members, seal) <==>
              && AtomicityOf(p, members, seal) != NotAtomic
              && (forall m :: m in members ==>
                   && Unobjectionable(p, m)
                   && (m.uncertainty == WithinBudget
                       || (m.uncertainty == Uncertain && AtomicityOf(p, members, seal) != SingleFile)))
              && (SealApplies(p, members, seal) ==>
                   !seal.rootProtected && (p.manualCopies || forall m :: m in members ==> !m.manualName))
  {
    if Eligible(p, members, seal) {
      forall m | m in members
        ensures Unobjectionable(p, m)
        ensures m.uncertainty == WithinBudget ||
            (m.uncertainty == Uncertain && AtomicityOf(p, members, seal) != SingleFile)
      {
        assert MemberBasis(p, members, seal, m) == WithinBudget;
      }
      if SealApplies(p, members, seal) {
        var m :| m in members && !m.singleFile;
        assert MemberBasis(p, members, seal, m) == WithinBudget;
      }
    }
  }

  /** Eligibility in full, by what is known of the files: every file is free of guards, allowed by
      the policy and, if it is a production asset, has its verified original; and the bundle is a
      sealed directory, a certain single file, or originals with only replaceable files besides. */
  lemma {:induction false} EligibleMeans(p: Policy, members: seq<Facts>, seal: Seal)
    ensures var sealed := p.production && seal.valid && exists m :: m in members && !m.singleFile;
            var single := |members| == 1 && members[0].singleFile;
            Eligible(p, members, seal) <==>
              && (forall m :: m in members ==>
                   && !m.overlapsProtected && !m.pinned
                   && (m.kind == ManualCopy ==> p.manualCopies)
                   && (m.kind == RecoveryArchive ==> p.archives && m.archiveValid && !m.sourceProtected)
                   && (p.production && m.asset && m.kind != RecoveryArchive ==> m.originalVerified)
                   && (m.uncertainty == WithinBudget || (m.uncertainty == Uncertain && (sealed || !single))))
              && (if sealed then !seal.rootProtected && (p.manualCopies || forall m :: m in members ==> !m.manualName)
                  else if single then true
                  else
                    && p.production && (exists m :: m in members && m.asset)
                    && forall m :: m in members ==> (m.asset && m.originalVerified) || (!m.asset && m.regenerable))
  {
    EligibleIff(p, members, seal);
  }

  /** The same file with more guards on it. */
  predicate MoreGuarded(m: Facts, n: Facts) {
    && n == m.(overlapsProtected := n.overlapsProtected, sourceProtected := n.sourceProtected, pinned := n.pinned)
    && (m.overlapsProtected ==> n.overlapsProtected) && (m.sourceProtected ==> n.sourceProtected) &&
        (m.pinned ==> n.pinned)
  }

  /** Guards only ever shield: no further protection makes a bundle eligible that was not. */
  lemma GuardingNeverFrees(p: Policy, members: seq<Facts>, seal: Seal, guarded: seq<Facts>, shielded: Seal)
    requires |guarded| == |members| && forall i :: 0 <= i < |members| ==> MoreGuarded(members[i], guarded[i])
    requires shielded.valid == seal.valid && (seal.rootProtected ==> shielded.rootProtected)
    requires Eligible(p, guarded, shielded)
    ensures Eligible(p, members, seal)
  {
    EligibleIff(p, guarded, shielded);
    EligibleIff(p, members, seal);
    SameAtomicity(p, members, seal, guarded, shielded);
    forall m | m in members
      ensures Unobjectionable(p, m)
      ensures m.uncertainty == WithinBudget ||
          (m.uncertainty == Uncertain && AtomicityOf(p, members, seal) != SingleFile)
      ensures SealApplies(p, members, seal) ==> p.manualCopies || !m.manualName
    {
      var i :| 0 <= i < |members| && members[i] == m;
      assert guarded[i] in guarded;
    }
  }

  lemma SameSome(members: seq<Facts>, guarded: seq<Facts>, f: Facts -> bool)
    requires |guarded| == |members| && forall i :: 0 <= i < |members| ==> f(members[i]) == f(guarded[i])
    ensures (exists m :: m in members && f(m)) <==> (exists m :: m in guarded && f(m))
  {
    if m :| m in members && f(m) {
      var i :| 0 <= i < |members| && members[i] == m;
      assert guarded[i] in guarded && f(guarded[i]);
    }
    if m :| m in guarded && f(m) {
      var i :| 0 <= i < |guarded| && guarded[i] == m;
      assert members[i] in members && f(members[i]);
    }
  }

  lemma SameAtomicity(p: Policy, members: seq<Facts>, seal: Seal, guarded: seq<Facts>, shielded: Seal)
    requires |guarded| == |members| && forall i :: 0 <= i < |members| ==> MoreGuarded(members[i], guarded[i])
    requires shielded.valid == seal.valid
    ensures SealApplies(p, members, seal) == SealApplies(p, guarded, shielded)
    ensures AtomicityOf(p, members, seal) == AtomicityOf(p, guarded, shielded)
  {
    SameSome(members, guarded, (m: Facts) => !m.singleFile);
    SameSome(members, guarded, (m: Facts) => m.asset);
    SameSome(members, guarded, (m: Facts) => !Replaceable(m));
  }

  // ---- The two passes ----

  const PRODUCTION := "production_backups"

  const MAX_HASH_BYTES := 1024 * 1024

  /** `clouds` are the members that are only placeholders of cloud files. */
  datatype Bundle = Bundle(
    scope: string, id: string, time: int, sizes: seq<nat>, clouds: set<nat>, eligible: bool, expired: bool)

  function Sum(sizes: seq<nat>): nat {
    if sizes == [] then 0 else Sum(sizes[..|sizes| - 1]) + sizes[|sizes| - 1]
  }

  function Weight(b: Bundle): nat { Sum(b.sizes) }

  datatype Action = Keep | Delete

  /** How a planned entry is to be recognized later. Without a hash its field stays blank. */
  datatype IdentityMode = Unplanned | HashAndStat | StatOnly | Unstable

  /** What one entry of a plan says. */
  datatype Mark = Mark(action: Action, identity: IdentityMode)

  function IdentityOf(b: Bundle, k: nat): IdentityMode
    requires k < |b.sizes|
  {
    if b.sizes[k] <= MAX_HASH_BYTES && k !in b.clouds && b.scope != PRODUCTION then HashAndStat else StatOnly
  }

  /** Bytes of the first `n` bundles, and of those of them that are kept. */
  function Generated(bundles: seq<Bundle>, n: nat): nat
    requires n <= |bundles|
  {
    if n == 0 then 0 else Generated(bundles, n - 1) + Weight(bundles[n - 1])
  }

  function Marked(bundles: seq<Bundle>, actions: seq<Action>, n: nat): nat
    requires n <= |bundles| == |actions|
  {
    if n == 0 then 0
    else Marked(bundles, actions, n - 1) + if actions[n - 1] == Delete then Weight(bundles[n - 1]) else 0
  }

  lemma {:induction false} MarkOne(bundles: seq<Bundle>, actions: seq<Action>, i: nat, n: nat)
    requires i < |bundles| == |actions| && n <= |bundles| && actions[i] == Keep
    ensures Marked(bundles, actions[i := Delete], n) ==
        Marked(bundles, actions, n) + if i < n then Weight(bundles[i]) else 0
  {
    if n > 0 { MarkOne(bundles, actions, i, n - 1); }
  }

  lemma {:induction false} MarkedAtMost(bundles: seq<Bundle>, actions: seq<Action>, n: nat)
    requires n <= |bundles| == |actions|
    ensures Marked(bundles, actions, n) <= Generated(bundles, n)
  {
    if n > 0 { MarkedAtMost(bundles, actions, n - 1); }
  }

  lemma {:induction false} NothingMarked(bundles: seq<Bundle>, actions: seq<Action>, n: nat)
    requires n <= |bundles| == |actions| && forall i :: 0 <= i < n ==> actions[i] == Keep
    ensures Marked(bundles, actions, n) == 0
  {
    if n > 0 { NothingMarked(bundles, actions, n - 1); }
  }

  predicate BundleLe(bundles: seq<Bundle>, i: int, j: int) {
    if !(0 <= i < |bundles|) then true
    else if !(0 <= j < |bundles|) then false
    else if bundles[i].time != bundles[j].time then bundles[i].time < bundles[j].time
    else PairLe((bundles[i].scope, bundles[i].id), (bundles[j].scope, bundles[j].id))
  }

  function OldestFirst(bundles: seq<Bundle>): (int, int) -> bool {
    (i, j) => BundleLe(bundles, i, j)
  }

  lemma OldestFirstOrder(bundles: seq<Bundle>)
    ensures Sorting.TotalPreorder(OldestFirst(bundles))
  {
    var le := OldestFirst(bundles);
    forall i: int, j: int ensures le(i, j) || le(j, i) {
      if 0 <= i < |bundles| && 0 <= j < |bundles| {
        PairLeTotal((bundles[i].scope, bundles[i].id), (bundles[j].scope, bundles[j].id));
      }
    }
    forall i: int, j: int, k: int | le(i, j) && le(j, k) ensures le(i, k) {
      if 0 <= i < |bundles| && 0 <= j < |bundles| && 0 <= k < |bundles| &&
          bundles[i].time == bundles[j].time == bundles[k].time {
        PairLeTransitive((bundles[i].scope, bundles[i].id), (bundles[j].scope, bundles[j].id),
            (bundles[k].scope, bundles[k].id));
      }
    }
  }

  /** The indices of the bundles the capacity pass may take, in file order. */
  function Candidates(bundles: seq<Bundle>, taken: set<int>, n: nat): seq<int>
    requires n <= |bundles|
  {
    if n == 0 then []
    else Candidates(bundles, taken, n - 1) + if bundles[n - 1].eligible && (n - 1) !in taken then [n - 1] else []
  }

  lemma {:induction false} CandidatesAre(bundles: seq<Bundle>, taken: set<int>, n: nat)
    requires n <= |bundles|
    ensures forall i :: i in Candidates(bundles, taken, n) <==> 0 <= i < n && bundles[i].eligible && i !in taken
    ensures forall j, k :: 0 <= j < k < |Candidates(bundles, taken, n)| ==>
              Candidates(bundles, taken, n)[j] != Candidates(bundles, taken, n)[k]
  {
    if n > 0 { CandidatesAre(bundles, taken, n - 1); }
  }

  predicate Indexes(bundles: seq<Bundle>, order: seq<int>) {
    forall k :: 0 <= k < |order| ==> 0 <= order[k] < |bundles|
  }

  /** What is left of `start` bytes once the stable ones of the first `m` in order are marked. */
  function Remaining(bundles: seq<Bundle>, order: seq<int>, stable: set<int>, start: int, m: nat): int
    requires m <= |order| && Indexes(bundles, order)
  {
    if m == 0 then start
    else Remaining(bundles, order, stable, start, m - 1)
         - if order[m - 1] in stable then Weight(bundles[order[m - 1]]) else 0
  }

  /** `m` is the length of the shortest prefix that suffices, or of the whole order. */
  predicate Shortest(bundles: seq<Bundle>, order: seq<int>, stable: set<int>, start: int, limit: int, m: nat)
    requires Indexes(bundles, order)
  {
    && m <= |order|
    && (forall k :: 0 <= k < m ==> Remaining(bundles, order, stable, start, k) >= limit)
    && (m < |order| ==> Remaining(bundles, order, stable, start, m) < limit)
  }

  class Planner {
    const bundles: seq<Bundle>
    /** One action per bundle, and one mark per member of each bundle. */
    var actions: array<Action>
    var marks: array<seq<Mark>>
    var projected: int

    ghost predicate Valid()
      reads this, actions, marks
    {
      && actions.Length == marks.Length == |bundles|
      && (forall i :: 0 <= i < |bundles| ==> AllMembers(i))
      && projected == Generated(bundles, |bundles|) - Marked(bundles, actions[..], |bundles|)
    }

    /** A bundle is marked all or nothing, and its marked entries carry their identity mode. */
    ghost predicate AllMembers(i: int)
      reads this, actions, marks
      requires 0 <= i < |bundles| == actions.Length == marks.Length
    {
      && |marks[i]| == |bundles[i].sizes|
      && (forall k :: 0 <= k < |marks[i]| ==> marks[i][k].action == actions[i])
      && (actions[i] == Delete ==> forall k :: 0 <= k < |marks[i]| ==>
          marks[i][k].identity == IdentityOf(bundles[i], k))
    }

    constructor (found: seq<Bundle>)
      ensures Valid() && fresh(actions) && fresh(marks) && bundles == found
      ensures forall i :: 0 <= i < |bundles| ==> actions[i] == Keep
    {
      bundles := found;
      actions := new Action[|found|](_ => Keep);
      marks := new seq<Mark>[|found|](i requires 0 <= i < |found| => seq(|found[i].sizes|, _ => Mark(Keep, Unplanned)));
      projected := Generated(found, |found|);
      new;
      NothingMarked(bundles, actions[..], |bundles|);
    }

    /** `_prepare_bundle_for_deletion`, then the projection. An unstable bundle stays, and all
        its entries say so. */
    method Prepare(i: int, stable: bool)
      requires Valid() && 0 <= i < |bundles| && actions[i] == Keep
      modifies this`projected, actions, marks
      ensures Valid()
      ensures actions[..] == if stable then old(actions[..])[i := Delete] else old(actions[..])
      ensures projected == old(projected) - if stable then Weight(bundles[i]) else 0
      ensures |marks[i]| == |bundles[i].sizes|
      ensures !stable ==> forall k :: 0 <= k < |marks[i]| ==> marks[i][k] == Mark(Keep, Unstable)
      // small local files outside production backups are hashed, all others go by their stat alone
      ensures stable ==> forall k :: 0 <= k < |marks[i]| ==>
                marks[i][k] ==
                  if bundles[i].sizes[k] <= 1_048_576 && k !in bundles[i].clouds &&
                      bundles[i].scope != "production_backups"
                  then Mark(Delete, HashAndStat) else Mark(Delete, StatOnly)
      ensures forall j :: 0 <= j < |bundles| && j != i ==> marks[j] == old(marks[j])
    {
      if stable {
        MarkOne(bundles, actions[..], i, |bundles|);
        actions[i] := Delete;
        var b := bundles[i];
        marks[i] := seq(|b.sizes|, k requires 0 <= k < |b.sizes| => Mark(Delete, IdentityOf(b, k)));
        projected := projected - Weight(bundles[i]);
        assert actions[..] == old(actions[..])[i := Delete];
      } else {
        marks[i] := seq(|bundles[i].sizes|, _ => Mark(Keep, Unstable));
        assert actions[..] == old(actions[..]);
      }
      assert AllMembers(i);
      forall k | 0 <= k < |bundles| && k != i ensures AllMembers(k) {
        assert old(AllMembers(k));
      }
    }

    /** The marked entries of a production backup carry no hash, whatever their size. */
    lemma ProductionStaysBlank(i: int, k: int)
      requires Valid() && 0 <= i < |bundles| && actions[i] == Delete && bundles[i].scope == PRODUCTION
      requires 0 <= k < |marks[i]|
      ensures marks[i][k] == Mark(Delete, StatOnly)
    {
      assert AllMembers(i);
    }

    /** The age pass marks exactly the eligible, expired bundles that prepare. */
    method AgePass(stable: set<int>) returns (tried: set<int>)
      requires Valid() && forall i :: 0 <= i < |bundles| ==> actions[i] == Keep
      modifies this`projected, actions, marks
      ensures Valid()
      ensures forall i :: 0 <= i < |bundles| ==>
                (actions[i] == Delete <==> bundles[i].eligible && bundles[i].expired && i in stable)
      ensures forall i :: i in tried <==> 0 <= i < |bundles| && bundles[i].eligible && bundles[i].expired
    {
      tried := {};
      var i := 0;
      while i < |bundles|
        invariant 0 <= i <= |bundles| && Valid()
        invariant forall k :: 0 <= k < |bundles| ==>
          (actions[k] == Delete <==> k < i && bundles[k].eligible && bundles[k].expired && k in stable)
        invariant forall k :: k in tried <==> 0 <= k < i && bundles[k].eligible && bundles[k].expired
      {
        if bundles[i].eligible && bundles[i].expired {
          tried := tried + {i};
          ghost var was := actions[..];
          Prepare(i, i in stable);
          assert forall k :: 0 <= k < |bundles| ==> actions[k] == actions[..][k];
          assert forall k :: 0 <= k < |bundles| && k != i ==> actions[k] == was[k];
        }
        i := i + 1;
      }
    }

    /** The capacity pass: oldest first, stopping as soon as the target is met. It marks the
        stable bundles of the shortest prefix that suffices, and nothing else. */
    method CapacityPass(order: seq<int>, stable: set<int>, reserved: int, limit: int) returns (m: nat)
      requires Valid() && Indexes(bundles, order) && forall i :: i in order ==> actions[i] == Keep
      requires forall j, k :: 0 <= j < k < |order| ==> order[j] != order[k]
      modifies this`projected, actions, marks
      ensures Valid()
      ensures Shortest(bundles, order, stable, old(projected), limit - reserved, m)
      ensures projected == Remaining(bundles, order, stable, old(projected), m)
      ensures forall i :: 0 <= i < |bundles| ==>
                (actions[i] == Delete <==> old(actions[i]) == Delete || (i in order[..m] && i in stable))
    {
      m := 0;
      while m < |order| && projected + reserved >= limit
        invariant 0 <= m <= |order| && Valid()
        invariant projected == Remaining(bundles, order, stable, old(projected), m)
        invariant forall k :: 0 <= k < m ==> Remaining(bundles, order, stable, old(projected), k) >= limit - reserved
        invariant PassSoFar(old(actions[..]), actions[..], order, stable, m)
      {
        ghost var was := actions[..];
        PassStep(old(actions[..]), was, order, stable, m);
        Prepare(order[m], order[m] in stable);
        m := m + 1;
      }
    }

    /** `plan_global_retention`: the age pass of every scope, then one oldest-first pass over the
        eligible bundles that the age pass neither marked nor found unstable. */
    method PlanGlobal(ageStable: set<int>, capacityStable: set<int>, reserved: int, limit: int)
        returns (order: seq<int>, m: nat, ghost afterAge: int)
      requires Valid() && forall i :: 0 <= i < |bundles| ==> actions[i] == Keep
      modifies this`projected, actions, marks
      ensures Valid()
      ensures Indexes(bundles, order) && Sorting.Distinct(order) && ByAge(bundles, order)
      ensures OldestMarked(bundles, order, capacityStable, actions[..])
      ensures forall i :: i in order <==> 0 <= i < |bundles| && bundles[i].eligible && !bundles[i].expired
      ensures Shortest(bundles, order, capacityStable, afterAge, limit - reserved, m)
      ensures projected == Remaining(bundles, order, capacityStable, afterAge, m)
      ensures forall i :: 0 <= i < |bundles| ==>
                (actions[i] == Delete <==>
                  && bundles[i].eligible
                  && if bundles[i].expired then i in ageStable else (i in order[..m] && i in capacityStable))
      ensures CapacityMarks(bundles, order, capacityStable, actions[..], projected, limit - reserved)
    {
      var tried := AgePass(ageStable);
      afterAge := projected;
      order := Order(tried);
      m := CapacityPass(order, capacityStable, reserved, limit);
      assert forall i :: i in order[..m] ==> i in order;
      PassMeans(bundles, order, capacityStable, afterAge, limit - reserved, m, actions[..]);
      OrderIsByAge(bundles, order);
      MarkedAreOldest(bundles, order, capacityStable, m, actions[..]);
    }

    /** `plan_retention` on one scope: the capacity pass looks again at every eligible bundle
        that is not marked yet, including those the age pass found unstable. */
    method PlanScope(ageStable: set<int>, capacityStable: set<int>, limit: int)
        returns (order: seq<int>, m: nat, ghost afterAge: int)
      requires Valid() && forall i :: 0 <= i < |bundles| ==> actions[i] == Keep
      modifies this`projected, actions, marks
      ensures Valid()
      ensures Indexes(bundles, order) && Sorting.Distinct(order) && ByAge(bundles, order)
      ensures OldestMarked(bundles, order, capacityStable, actions[..])
      ensures forall i :: i in order <==>
                0 <= i < |bundles| && bundles[i].eligible && !(bundles[i].expired && i in ageStable)
      ensures Shortest(bundles, order, capacityStable, afterAge, limit, m)
      ensures projected == Remaining(bundles, order, capacityStable, afterAge, m)
      ensures forall i :: 0 <= i < |bundles| ==>
                (actions[i] == Delete <==>
                  && bundles[i].eligible
                  && ((bundles[i].expired && i in ageStable) || (i in order[..m] && i in capacityStable)))
      ensures CapacityMarks(bundles, order, capacityStable, actions[..], projected, limit)
    {
      var tried := AgePass(ageStable);
      afterAge := projected;
      order := Order(set i | i in tried && i in ageStable);
      m := CapacityPass(order, capacityStable, 0, limit);
      assert forall i :: i in order[..m] ==> i in order;
      PassMeans(bundles, order, capacityStable, afterAge, limit, m, actions[..]);
      OrderIsByAge(bundles, order);
      MarkedAreOldest(bundles, order, capacityStable, m, actions[..]);
    }

    /** `_refresh_plan_summary` for one scope: add up its member entries that are to be deleted. */
    method RefreshSummary(scope: string) returns (planned: nat)
      requires Valid()
      ensures planned == MarkedIn(bundles, actions[..], scope, |bundles|)
    {
      planned := 0;
      var i := 0;
      while i < |bundles|
        invariant 0 <= i <= |bundles|
        invariant planned == MarkedIn(bundles, actions[..], scope, i)
      {
        if bundles[i].scope == scope {
          assert AllMembers(i);
          var k, sum := 0, 0;
          while k < |bundles[i].sizes|
            invariant 0 <= k <= |bundles[i].sizes|
            invariant sum == if actions[i] == Delete then Sum(bundles[i].sizes[..k]) else 0
          {
            assert bundles[i].sizes[..k + 1][..k] == bundles[i].sizes[..k];
            if marks[i][k].action == Delete {
              sum := sum + bundles[i].sizes[k];
            }
            k := k + 1;
          }
          assert bundles[i].sizes[..k] == bundles[i].sizes;
          planned := planned + sum;
        }
        i := i + 1;
      }
    }

    method Order(taken: set<int>) returns (order: seq<int>)
      ensures Indexes(bundles, order) && Sorting.Ordered(order, OldestFirst(bundles)) && Sorting.Distinct(order)
      ensures forall i :: i in order <==> 0 <= i < |bundles| && bundles[i].eligible && i !in taken
    {
      var cs := Candidates(bundles, taken, |bundles|);
      CandidatesAre(bundles, taken, |bundles|);
      OldestFirstOrder(bundles);
      Sorting.SortOrdered(cs, OldestFirst(bundles));
      Sorting.SortMembers(cs, OldestFirst(bundles));
      order := Sorting.Sort(cs, OldestFirst(bundles));
      Sorting.SortDistinct(cs, OldestFirst(bundles));
      forall k | 0 <= k < |order| ensures 0 <= order[k] < |bundles| {
        assert order[k] in order;
        assert order[k] in cs;
      }
    }
  }

  // ---- Two ways of counting agree ----

  function MarkedIn(bundles: seq<Bundle>, actions: seq<Action>, scope: string, n: nat): nat
    requires n <= |bundles| == |actions|
  {
    if n == 0 then 0
    else MarkedIn(bundles, actions, scope, n - 1)
         + if actions[n - 1] == Delete && bundles[n - 1].scope == scope then Weight(bundles[n - 1]) else 0
  }

  function MarkedOver(bundles: seq<Bundle>, actions: seq<Action>, scopes: seq<string>, n: nat): nat
    requires n <= |bundles| == |actions|
  {
    if scopes == [] then 0
    else MarkedOver(bundles, actions, scopes[..|scopes| - 1], n) + MarkedIn(bundles, actions, scopes[|scopes| - 1], n)
  }

  lemma {:induction false} OneMoreBundle(bundles: seq<Bundle>, actions: seq<Action>, scopes: seq<string>, n: nat)
    requires 0 < n <= |bundles| == |actions| && Sorting.Distinct(scopes)
    ensures MarkedOver(bundles, actions, scopes, n) == MarkedOver(bundles, actions, scopes, n - 1)
         + if actions[n - 1] == Delete && bundles[n - 1].scope in scopes then Weight(bundles[n - 1]) else 0
  {
    if scopes != [] {
      var k := |scopes| - 1;
      OneMoreBundle(bundles, actions, scopes[..k], n);
      assert scopes == scopes[..k] + [scopes[k]];
      assert scopes[k] !in scopes[..k];
    }
  }

  /** The scope summaries, added up from single entries after the pass, account for exactly the
      bytes the pass subtracted: generated minus all of them is the projected total. */
  lemma {:induction false} ScopesAddUp(bundles: seq<Bundle>, actions: seq<Action>, scopes: seq<string>, n: nat)
    requires n <= |bundles| == |actions| && Sorting.Distinct(scopes)
    requires forall i :: 0 <= i < n ==> bundles[i].scope in scopes
    ensures MarkedOver(bundles, actions, scopes, n) == Marked(bundles, actions, n)
  {
    if n > 0 {
      ScopesAddUp(bundles, actions, scopes, n - 1);
      OneMoreBundle(bundles, actions, scopes, n);
    } else {
      NoBundles(bundles, actions, scopes);
    }
  }

  lemma {:induction false} NoBundles(bundles: seq<Bundle>, actions: seq<Action>, scopes: seq<string>)
    requires |bundles| == |actions|
    ensures MarkedOver(bundles, actions, scopes, 0) == 0
  {
    if scopes != [] { NoBundles(bundles, actions, scopes[..|scopes| - 1]); }
  }

  // ---- What the capacity pass guarantees ----

  /** After `m` of `order`, exactly the stable ones of those are marked in addition. */
  ghost predicate PassSoFar(before: seq<Action>, now: seq<Action>, order: seq<int>, stable: set<int>, m: nat)
    requires m <= |order|
  {
    && |now| == |before|
    && forall i :: 0 <= i < |now| ==> (now[i] == Delete <==> before[i] == Delete || (i in order[..m] && i in stable))
  }

  /** The next of `order` is not marked yet, and marking it if it is stable goes one further. */
  lemma PassStep(before: seq<Action>, now: seq<Action>, order: seq<int>, stable: set<int>, m: nat)
    requires m < |order| && PassSoFar(before, now, order, stable, m)
    requires forall j :: 0 <= j < |order| ==> 0 <= order[j] < |before| && before[order[j]] == Keep
    requires forall j, k :: 0 <= j < k < |order| ==> order[j] != order[k]
    ensures now[order[m]] == Keep
    ensures PassSoFar(before, if order[m] in stable then now[order[m] := Delete] else now, order, stable, m + 1)
  {
    assert order[..m + 1] == order[..m] + [order[m]];
    assert order[m] !in order[..m];
  }

  /** The bundles of `order` that are marked are the stable ones of its first `m`. */
  predicate MarksPrefix(bundles: seq<Bundle>, order: seq<int>, stable: set<int>, m: nat, actions: seq<Action>)
    requires Indexes(bundles, order) && |actions| == |bundles| && m <= |order|
  {
    forall k :: 0 <= k < |order| ==> (actions[order[k]] == Delete <==> k < m && order[k] in stable)
  }

  /** The pass is conservative: un-marking the last bundle it marked would bring the total back
      to the limit or above. */
  lemma {:induction false} LastMarkNeeded(
      bundles: seq<Bundle>, order: seq<int>, stable: set<int>, start: int, limit: int, m: nat, actions: seq<Action>,
      last: nat)
    requires Indexes(bundles, order) && |actions| == |bundles|
    requires Shortest(bundles, order, stable, start, limit, m) && MarksPrefix(bundles, order, stable, m, actions)
    requires last < |order| && actions[order[last]] == Delete
    requires forall k :: last < k < |order| ==> actions[order[k]] == Keep
    ensures Remaining(bundles, order, stable, start, m) + Weight(bundles[order[last]]) >= limit
  {
    forall k | last < k < m ensures order[k] !in stable {
      assert actions[order[k]] == Keep;
    }
    SkipUnstable(bundles, order, stable, start, last + 1, m);
  }

  lemma {:induction false} SkipUnstable(
      bundles: seq<Bundle>, order: seq<int>, stable: set<int>, start: int, a: nat, b: nat)
    requires Indexes(bundles, order)
    requires a <= b <= |order| && forall k :: a <= k < b ==> order[k] !in stable
    ensures Remaining(bundles, order, stable, start, b) == Remaining(bundles, order, stable, start, a)
  {
    if a < b { SkipUnstable(bundles, order, stable, start, a, b - 1); }
  }

  /** If the target is still unmet, every stable candidate is marked. */
  lemma {:induction false} UnmetMarksAll(
      bundles: seq<Bundle>, order: seq<int>, stable: set<int>, start: int, limit: int, m: nat, actions: seq<Action>,
      i: int)
    requires Indexes(bundles, order) && |actions| == |bundles|
    requires Shortest(bundles, order, stable, start, limit, m) && MarksPrefix(bundles, order, stable, m, actions)
    requires Remaining(bundles, order, stable, start, m) >= limit && i in order && i in stable
    ensures actions[i] == Delete
  {
    var k :| 0 <= k < |order| && order[k] == i;
  }

  /** Times never go down in `order`; equal times go by scope and then by bundle. */
  ghost predicate ByAge(bundles: seq<Bundle>, order: seq<int>)
    requires Indexes(bundles, order)
  {
    forall j, k :: 0 <= j < k < |order| ==>
      var a, b := bundles[order[j]], bundles[order[k]];
      a.time < b.time || (a.time == b.time && PairLe((a.scope, a.id), (b.scope, b.id)))
  }

  /** Candidate `j` is marked and candidate `k`, which is stable, is kept. */
  predicate Passed(order: seq<int>, stable: set<int>, actions: seq<Action>, j: int, k: int)
    requires forall i :: 0 <= i < |order| ==> 0 <= order[i] < |actions|
  {
    && 0 <= j < |order| && 0 <= k < |order|
    && actions[order[j]] == Delete && actions[order[k]] == Keep && order[k] in stable
  }

  /** No stable candidate is kept that is older than a marked one. */
  ghost predicate OldestMarked(bundles: seq<Bundle>, order: seq<int>, stable: set<int>, actions: seq<Action>)
    requires Indexes(bundles, order) && |actions| == |bundles|
  {
    forall j, k :: Passed(order, stable, actions, j, k) ==> bundles[order[j]].time <= bundles[order[k]].time
  }

  lemma OrderIsByAge(bundles: seq<Bundle>, order: seq<int>)
    requires Indexes(bundles, order) && Sorting.Ordered(order, OldestFirst(bundles))
    ensures ByAge(bundles, order)
  {
    forall j, k | 0 <= j < k < |order|
      ensures var a, b := bundles[order[j]], bundles[order[k]];
              a.time < b.time || (a.time == b.time && PairLe((a.scope, a.id), (b.scope, b.id)))
    {
      assert OldestFirst(bundles)(order[j], order[k]);
    }
  }

  lemma InPrefix(order: seq<int>, m: nat, k: nat)
    requires m <= |order| && k < |order| && Sorting.Distinct(order)
    ensures order[k] in order[..m] <==> k < m
  {
    if k < m { assert order[..m][k] == order[k]; }
  }

  lemma MarkedAreOldest(bundles: seq<Bundle>, order: seq<int>, stable: set<int>, m: nat, actions: seq<Action>)
    requires Indexes(bundles, order) && |actions| == |bundles| && m <= |order| && Sorting.Distinct(order)
    requires ByAge(bundles, order)
    requires forall i :: i in order ==> (actions[i] == Delete <==> i in order[..m] && i in stable)
    ensures OldestMarked(bundles, order, stable, actions)
  {
    forall j, k | Passed(order, stable, actions, j, k) ensures bundles[order[j]].time <= bundles[order[k]].time {
      assert order[j] in order && order[k] in order;
      InPrefix(order, m, j);
      InPrefix(order, m, k);
    }
  }

  /** Oldest first: a bundle the pass marked is no younger than a stable one it left. */
  lemma {:induction false} OldestGoFirst(
      bundles: seq<Bundle>, order: seq<int>, stable: set<int>, m: nat, actions: seq<Action>, i: int, j: int)
    requires Indexes(bundles, order) && |actions| == |bundles| && m <= |order|
    requires Sorting.Ordered(order, OldestFirst(bundles)) && MarksPrefix(bundles, order, stable, m, actions)
    requires i in order && j in order && actions[i] == Delete && actions[j] == Keep && j in stable
    ensures bundles[i].time <= bundles[j].time
  {
    var a :| 0 <= a < |order| && order[a] == i;
    var b :| 0 <= b < |order| && order[b] == j;
    assert OldestFirst(bundles)(order[a], order[b]);
  }

  /** What the marks in `order` mean when `total` bytes stay: with the target unmet, every stable
      candidate is marked; no stable one is left before a marked one; and un-marking the last
      one would bring the total back to the limit or above. */
  ghost predicate CapacityMarks(
      bundles: seq<Bundle>, order: seq<int>, stable: set<int>, actions: seq<Action>, total: int, limit: int)
    requires Indexes(bundles, order) && |actions| == |bundles|
  {
    && (total >= limit ==> forall i :: i in order && i in stable ==> actions[i] == Delete)
    && (forall j, k :: 0 <= j < k < |order| && order[j] in stable && actions[order[k]] == Delete ==>
        actions[order[j]] == Delete)
    && forall k :: LastMark(order, actions, k) ==> total + Weight(bundles[order[k]]) >= limit
  }

  ghost predicate LastMark(order: seq<int>, actions: seq<Action>, k: int)
    requires forall j :: 0 <= j < |order| ==> 0 <= order[j] < |actions|
  {
    0 <= k < |order| && actions[order[k]] == Delete && forall j :: k < j < |order| ==> actions[order[j]] == Keep
  }

  lemma {:induction false} PassMeans(
      bundles: seq<Bundle>, order: seq<int>, stable: set<int>, start: int, limit: int, m: nat, actions: seq<Action>)
    requires Indexes(bundles, order) && |actions| == |bundles| && Sorting.Distinct(order)
    requires Shortest(bundles, order, stable, start, limit, m)
    requires forall i :: i in order ==> (actions[i] == Delete <==> i in order[..m] && i in stable)
    ensures CapacityMarks(bundles, order, stable, actions, Remaining(bundles, order, stable, start, m), limit)
  {
    forall k | 0 <= k < |order| ensures actions[order[k]] == Delete <==> k < m && order[k] in stable {
      assert order[k] in order && (k < m ==> order[..m][k] == order[k]);
      if order[k] in order[..m] {
        var j :| 0 <= j < m && order[j] == order[k];
        assert j == k;
      }
    }
    assert MarksPrefix(bundles, order, stable, m, actions);
    if Remaining(bundles, order, stable, start, m) >= limit {
      forall i | i in order && i in stable ensures actions[i] == Delete {
        UnmetMarksAll(bundles, order, stable, start, limit, m, actions, i);
      }
    }
    forall k | LastMark(order, actions, k)
      ensures Remaining(bundles, order, stable, start, m) + Weight(bundles[order[k]]) >= limit
    {
      LastMarkNeeded(bundles, order, stable, start, limit, m, actions, k);
    }
  }

  /** The shortest prefix is unique, so the pass has no freedom in what it marks. */
  lemma {:induction false} ShortestIsUnique(
      bundles: seq<Bundle>, order: seq<int>, stable: set<int>, start: int, limit: int, m: nat, n: nat)
    requires Indexes(bundles, order)
    requires Shortest(bundles, order, stable, start, limit, m) && Shortest(bundles, order, stable, start, limit, n)
    ensures m == n
  {
    // whichever prefix is shorter suffices, so the longer one is not the shortest
    assert m < |order| ==> Remaining(bundles, order, stable, start, m) < limit;
  }
}
