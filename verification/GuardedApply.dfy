/** Applying a retention plan while anything may change underneath it (artifact_retention.py).

    What each look at the disk or at the guards returns is an arbitrary function of the moment
    of the look, so the results below hold whatever happens between planning and applying. The
    structural checks on a bundle (root, links, classification, originals, seal) are given as
    their verdicts. */
module GuardedApply {
  import opened Texts
  import Plan = RetentionPlan

  /** A normalized path, by components. */
  type Path = seq<string>

  datatype FileIdentity = FileIdentity(stat: int, content: int)

  datatype Mode = SingleFile | SealedDirectory | VerifiedOriginals | OtherMode

  /** One planned entry. `source` is the bundle directory of a sealed member, or the source
      directory of a recovery archive. */
  datatype Entry = Entry(
    path: Path, planned: FileIdentity, identity: Plan.IdentityMode, mode: Mode, isArchive: bool, source: Path)

  /** One path is, or lies inside, the other. */
  predicate Overlap(p: Path, q: Path) { p <= q || q <= p }

  predicate Hits(guards: set<Path>, p: Path) { exists g :: g in guards && Overlap(p, g) }

  /** A guard overlaps a member, a sealed directory, or the source of an archive. */
  predicate Protected(bundle: seq<Entry>, guards: set<Path>) {
    exists e :: e in bundle &&
      (Hits(guards, e.path) || ((e.mode == SealedDirectory || e.isArchive) && Hits(guards, e.source)))
  }

  predicate StatMatches(e: Entry, seen: Option<FileIdentity>) {
    seen.Some? && seen.value.stat == e.planned.stat && (e.identity.HashAndStat? || e.identity.StatOnly?)
  }

  predicate Matches(e: Entry, seen: Option<FileIdentity>) {
    StatMatches(e, seen) && (e.identity.HashAndStat? ==> seen.value.content == e.planned.content)
  }

  datatype Event =
    | ReadGuards(guards: set<Path>)
    | Look(path: Path, seen: Option<FileIdentity>)
    | Unlink(entry: Entry, bundle: seq<Entry>)
    | ReconcileSource(archive: Entry, paths: seq<Path>)

  function LatestGuards(log: seq<Event>): Option<set<Path>> {
    if log == [] then None
    else if log[|log| - 1].ReadGuards? then Some(log[|log| - 1].guards)
    else LatestGuards(log[..|log| - 1])
  }

  /** Every unlink directly follows a look that matched the plan, and the guards as last read
      before it do not overlap its bundle. What reconciling an archive deletes lies in that
      archive's source, which those guards do not overlap either. */
  ghost predicate Guarded(log: seq<Event>) {
    log == [] || (Guarded(log[..|log| - 1]) && (Deletes(log[|log| - 1]) ==> GuardedAt(log, |log| - 1)))
  }

  predicate Deletes(event: Event) { event.Unlink? || event.ReconcileSource? }

  lemma {:induction false} GuardedEverywhere(log: seq<Event>)
    ensures Guarded(log) <==> forall i :: 0 <= i < |log| && Deletes(log[i]) ==> GuardedAt(log, i)
  {
    if log != [] {
      var n := |log| - 1;
      GuardedEverywhere(log[..n]);
      forall i | 0 <= i < n && Deletes(log[i]) ensures GuardedAt(log, i) <==> GuardedAt(log[..n], i) {
        assert log[..n][..i] == log[..i];
      }
      assert forall i :: 0 <= i < n ==> log[..n][i] == log[i];
    }
  }

  ghost predicate GuardedAt(log: seq<Event>, i: nat)
    requires i < |log| && Deletes(log[i])
  {
    && LatestGuards(log[..i]).Some?
    && match log[i]
       case Unlink(e, bundle) =>
         && e in bundle && !Protected(bundle, LatestGuards(log[..i]).value)
         && i > 0 && log[i - 1].Look? && log[i - 1].path == e.path
         && (if e.mode == SealedDirectory then StatMatches(e, log[i - 1].seen) else Matches(e, log[i - 1].seen))
       case ReconcileSource(e, paths) =>
         && !Protected([e], LatestGuards(log[..i]).value)
         && forall p :: p in paths ==> Within(e, p)
       case _ => true
  }

  /** The path lies in the source directory of a recovery archive. */
  predicate Within(e: Entry, p: Path) { e.isArchive && e.source < p }

  predicate FromSource(bundle: seq<Entry>, p: Path) { exists e :: e in bundle && Within(e, p) }

  predicate FromPlan(bundles: seq<seq<Entry>>, p: Path) { exists b :: b in bundles && FromSource(b, p) }

  /** What one event deletes. */
  function DeletedBy(event: Event): seq<Path> {
    match event
    case Unlink(e, _) => [e.path]
    case ReconcileSource(_, paths) => paths
    case _ => []
  }

  /** Whatever is deleted, planned or in the source of an archive, the guards as last read do
      not overlap it. */
  lemma DeletedAreClear(log: seq<Event>, i: nat, p: Path)
    requires Guarded(log) && i < |log| && p in DeletedBy(log[i])
    ensures LatestGuards(log[..i]).Some? && !Hits(LatestGuards(log[..i]).value, p)
  {
    GuardedEverywhere(log);
    assert Deletes(log[i]) && GuardedAt(log, i);
    var guards := LatestGuards(log[..i]).value;
    if log[i].ReconcileSource? {
      var e := log[i].archive;
      assert e in [e] && !Hits(guards, e.source);
      if Hits(guards, p) {
        var g :| g in guards && Overlap(p, g);
        PrefixesCompare(e.source, g, p);
      }
    }
  }

  lemma PrefixesCompare(a: Path, g: Path, p: Path)
    requires a < p && Overlap(p, g)
    ensures Overlap(a, g)
  {
    if g <= p {
      assert if |g| <= |a| then g == p[..|g|] && a == p[..|a|] else a == p[..|a|] && g == p[..|g|];
    }
  }

  /** The planned paths unlinked so far. */
  function Unlinked(log: seq<Event>): seq<Path> {
    if log == [] then []
    else if log[|log| - 1].Unlink? then Unlinked(log[..|log| - 1]) + [log[|log| - 1].entry.path]
    else Unlinked(log[..|log| - 1])
  }

  /** The files deleted so far while reconciling archives. */
  function Reconciled(log: seq<Event>): seq<Path> {
    if log == [] then []
    else if log[|log| - 1].ReconcileSource? then Reconciled(log[..|log| - 1]) + log[|log| - 1].paths
    else Reconciled(log[..|log| - 1])
  }

  /** All files deleted so far, in order. */
  function Deleted(log: seq<Event>): seq<Path> {
    if log == [] then [] else Deleted(log[..|log| - 1]) + DeletedBy(log[|log| - 1])
  }

  lemma {:induction false} DeletedAreBoth(log: seq<Event>)
    ensures multiset(Deleted(log)) == multiset(Unlinked(log)) + multiset(Reconciled(log))
  {
    if log != [] {
      DeletedAreBoth(log[..|log| - 1]);
    }
  }

  lemma {:induction false} OnlyUnlinked(log: seq<Event>)
    requires Reconciled(log) == []
    ensures Deleted(log) == Unlinked(log)
  {
    if log != [] {
      OnlyUnlinked(log[..|log| - 1]);
    }
  }

  /** `after` unlinked exactly `paths` beyond `before`, and deleted nothing else. */
  ghost predicate Grew(before: seq<Event>, after: seq<Event>, paths: seq<Path>) {
    && Unlinked(after) == Unlinked(before) + paths && Deleted(after) == Deleted(before) + paths
    && Reconciled(after) == Reconciled(before)
  }

  lemma GrewThen(a: seq<Event>, b: seq<Event>, c: seq<Event>, paths: seq<Path>)
    requires Grew(a, b, []) && Grew(b, c, paths)
    ensures Grew(a, c, paths)
  {}

  lemma LogSnoc(log: seq<Event>, event: Event)
    ensures LatestGuards(log + [event]) == if event.ReadGuards? then Some(event.guards) else LatestGuards(log)
    ensures !event.ReconcileSource? ==> Grew(log, log + [event], if event.Unlink? then [event.entry.path] else [])
    ensures event.ReconcileSource? ==>
              && Deleted(log + [event]) == Deleted(log) + event.paths && Unlinked(log + [event]) == Unlinked(log)
              && Reconciled(log + [event]) == Reconciled(log) + event.paths
  {
    assert (log + [event])[..|log|] == log;
  }

  lemma GuardedSnoc(log: seq<Event>, event: Event)
    requires Guarded(log) && (Deletes(event) ==> GuardedAt(log + [event], |log|))
    ensures Guarded(log + [event])
    ensures LatestGuards(log + [event]) == if event.ReadGuards? then Some(event.guards) else LatestGuards(log)
    ensures !event.ReconcileSource? ==> Grew(log, log + [event], if event.Unlink? then [event.entry.path] else [])
    ensures event.ReconcileSource? ==>
              && Deleted(log + [event]) == Deleted(log) + event.paths && Unlinked(log + [event]) == Unlinked(log)
              && Reconciled(log + [event]) == Reconciled(log) + event.paths
  {
    LogSnoc(log, event);
    assert (log + [event])[..|log|] == log && (log + [event])[|log|] == event;
  }

  function Paths(bundle: seq<Entry>): (r: seq<Path>)
    ensures |r| == |bundle| && forall i :: 0 <= i < |r| ==> r[i] == bundle[i].path
  {
    seq(|bundle|, i requires 0 <= i < |bundle| => bundle[i].path)
  }

  function AllPaths(bundles: seq<seq<Entry>>): multiset<Path> {
    if bundles == [] then multiset{} else AllPaths(bundles[..|bundles| - 1]) + multiset(Paths(bundles[|bundles| - 1]))
  }

  /** The environment, by moment: what a look sees, what the guards are, whether an unlink
      works, whether a structural check or the archive work of the bundle succeeds, and what
      reconciling a recovery archive deleted. */
  datatype World = World(
    look: (nat, Path) -> Option<FileIdentity>,
    guards: nat -> set<Path>,
    unlinks: nat -> bool,
    succeeds: nat -> bool,
    reconciled: nat -> seq<Path>)

  ghost predicate Working(world: World) {
    forall t :: world.succeeds(t) && world.unlinks(t)
  }

  /** Nothing happens to a bundle: every look matches its plan, no guard overlaps it, and every
      unlink and every check works. */
  ghost predicate Calm(world: World, bundle: seq<Entry>) {
    && Working(world)
    && (forall t :: !Protected(bundle, world.guards(t)))
    && forall t, e :: e in bundle ==> Matches(e, world.look(t, e.path))
  }

  predicate Single(bundle: seq<Entry>) { |bundle| == 1 && bundle[0].mode == SingleFile }

  predicate AllOf(bundle: seq<Entry>, mode: Mode) { bundle != [] && forall e :: e in bundle ==> e.mode == mode }

  /** The bundle can be deleted as a unit. */
  predicate Atomic(bundle: seq<Entry>) {
    Single(bundle) || AllOf(bundle, SealedDirectory) || AllOf(bundle, VerifiedOriginals)
  }

  class Applier {
    const world: World
    var now: nat
    var deleted: seq<Path>
    var skipped: seq<Path>
    ghost var log: seq<Event>

    constructor (world: World)
      ensures this.world == world && Started()
    {
      this.world := world;
      now, deleted, skipped, log := 0, [], [], [];
    }

    ghost predicate Started()
      reads this
    {
      deleted == skipped == [] && log == []
    }

    /** What is reported deleted is exactly what was deleted. */
    ghost predicate Honest()
      reads this`log, this`deleted
    {
      Guarded(log) && deleted == Deleted(log)
    }

    /** The planned paths that were unlinked or reported skipped. */
    ghost function Settled(): multiset<Path>
      reads this`log, this`skipped
    {
      multiset(Unlinked(log)) + multiset(skipped)
    }

    method Tick() returns (t: nat)
      modifies this`now
    {
      t, now := now, now + 1;
    }

    method Check() returns (ok: bool)
      modifies this`now
      ensures Working(world) ==> ok
    {
      var t := Tick();
      ok := world.succeeds(t);
    }

    method LookAt(path: Path) returns (seen: Option<FileIdentity>)
      requires Guarded(log)
      modifies this`now, this`log
      ensures log == old(log) + [Look(path, seen)] && Guarded(log)
      ensures LatestGuards(log) == LatestGuards(old(log)) && Grew(old(log), log, [])
      ensures exists t :: seen == world.look(t, path)
    {
      var t := Tick();
      seen := world.look(t, path);
      GuardedSnoc(log, Look(path, seen));
      log := log + [Look(path, seen)];
    }

    method Protection() returns (guards: set<Path>)
      requires Guarded(log)
      modifies this`now, this`log
      ensures Guarded(log) && LatestGuards(log) == Some(guards) && Grew(old(log), log, [])
      ensures exists t :: guards == world.guards(t)
    {
      var t := Tick();
      guards := world.guards(t);
      GuardedSnoc(log, ReadGuards(guards));
      log := log + [ReadGuards(guards)];
    }

    /** The guards were read and clear the bundle. */
    ghost predicate Cleared(bundle: seq<Entry>)
      reads this`log
    {
      Guarded(log) && LatestGuards(log).Some? && !Protected(bundle, LatestGuards(log).value)
    }

    /** Look at one entry and, if it still is what was planned, unlink it. */
    method UnlinkEntry(e: Entry, bundle: seq<Entry>) returns (gone: bool)
      requires Cleared(bundle) && e in bundle
      modifies this`now, this`log
      ensures Cleared(bundle)
      ensures Grew(old(log), log, if gone then [e.path] else [])
      ensures Calm(world, bundle) ==> gone
    {
      var seen := LookAt(e.path);
      if !(if e.mode == SealedDirectory then StatMatches(e, seen) else Matches(e, seen)) {
        return false;
      }
      var t := Tick();
      if !world.unlinks(t) {
        return false;
      }
      assert (log + [Unlink(e, bundle)])[..|log|] == log;
      GuardedSnoc(log, Unlink(e, bundle));
      log := log + [Unlink(e, bundle)];
      return true;
    }

    method SkipAll(bundle: seq<Entry>)
      modifies this`skipped
      ensures skipped == old(skipped) + Paths(bundle) && Settled() == old(Settled()) + multiset(Paths(bundle))
    {
      skipped := skipped + Paths(bundle);
    }

    /** Unlink one entry and report what came of it. */
    method Remove(e: Entry, bundle: seq<Entry>)
      requires Cleared(bundle) && Honest() && e in bundle
      modifies this`now, this`log, this`deleted, this`skipped
      ensures Cleared(bundle) && Honest()
      ensures Settled() == old(Settled()) + multiset{e.path}
      ensures Reconciled(log) == Reconciled(old(log))
      ensures Calm(world, bundle) ==> skipped == old(skipped)
    {
      ghost var was := Unlinked(log);
      var gone := UnlinkEntry(e, bundle);
      if gone {
        deleted := deleted + [e.path];
      } else {
        skipped := skipped + [e.path];
      }
      SplitCount(was, old(skipped), [e.path], if gone then 1 else 0);
    }

    /** Verified originals go one by one; each is reported deleted or skipped. */
    method DeleteOriginals(bundle: seq<Entry>)
      requires Cleared(bundle) && Honest()
      modifies this`now, this`log, this`deleted, this`skipped
      ensures Honest()
      ensures Settled() == old(Settled()) + multiset(Paths(bundle))
      ensures Reconciled(log) == Reconciled(old(log))
      ensures Calm(world, bundle) ==> skipped == old(skipped)
    {
      var i := 0;
      assert Paths(bundle)[..0] == [];
      while i < |bundle|
        invariant 0 <= i <= |bundle| && Cleared(bundle) && Honest()
        invariant Settled() == old(Settled()) + multiset(Paths(bundle)[..i])
        invariant Reconciled(log) == Reconciled(old(log))
        invariant Calm(world, bundle) ==> skipped == old(skipped)
      {
        assert Paths(bundle)[..i + 1] == Paths(bundle)[..i] + [bundle[i].path];
        Remove(bundle[i], bundle);
        i := i + 1;
      }
      assert Paths(bundle)[..i] == Paths(bundle);
    }

    /** All entries still have their planned stat identity. */
    method StatsHold(bundle: seq<Entry>) returns (ok: bool)
      requires Guarded(log)
      modifies this`now, this`log
      ensures Guarded(log) && LatestGuards(log) == LatestGuards(old(log)) && Grew(old(log), log, [])
      ensures Calm(world, bundle) ==> ok
    {
      ok := true;
      var i := 0;
      while i < |bundle| && ok
        invariant 0 <= i <= |bundle| && Guarded(log) && LatestGuards(log) == LatestGuards(old(log))
        invariant Grew(old(log), log, []) && (Calm(world, bundle) ==> ok)
      {
        var seen := LookAt(bundle[i].path);
        ok := StatMatches(bundle[i], seen);
        assert bundle[i] in bundle;
        i := i + 1;
      }
    }

    /** Unlink members in turn until one fails; the first `n` of them are gone. */
    method UnlinkMembers(bundle: seq<Entry>) returns (n: nat)
      requires Cleared(bundle)
      modifies this`now, this`log
      ensures Guarded(log) && n <= |bundle|
      ensures Grew(old(log), log, Paths(bundle)[..n])
      ensures Calm(world, bundle) ==> n == |bundle|
    {
      n := 0;
      var going := true;
      assert Paths(bundle)[..0] == [];
      while n < |bundle| && going
        invariant n <= |bundle| && Cleared(bundle) && (Calm(world, bundle) ==> going)
        invariant Grew(old(log), log, Paths(bundle)[..n])
        decreases |bundle| - n, going
      {
        going := UnlinkEntry(bundle[n], bundle);
        if going {
          assert Paths(bundle)[..n + 1] == Paths(bundle)[..n] + [bundle[n].path];
          n := n + 1;
        }
      }
    }

    /** The archive work, the stat identities once more, then the members; `n` of them are gone. */
    method RunSealed(bundle: seq<Entry>) returns (n: nat)
      requires Cleared(bundle)
      modifies this`now, this`log
      ensures Guarded(log) && n <= |bundle|
      ensures Grew(old(log), log, Paths(bundle)[..n])
      ensures Calm(world, bundle) ==> n == |bundle|
    {
      var going := Check();
      if going {
        going := StatsHold(bundle);
      }
      n := 0;
      assert Paths(bundle)[..0] == [];
      ghost var checked := log;
      if going {
        n := UnlinkMembers(bundle);
      }
      GrewThen(old(log), checked, log, Paths(bundle)[..n]);
    }

    /** The sealed directory, with the work on its archive and directories reduced to whether
        it succeeds. Planned paths that were not deleted when it stops are skipped. */
    method DeleteSealed(bundle: seq<Entry>)
      requires Cleared(bundle) && Honest() && DistinctPaths(bundle)
      modifies this`now, this`log, this`deleted, this`skipped
      ensures Honest()
      ensures Settled() == old(Settled()) + multiset(Paths(bundle))
      ensures Reconciled(log) == Reconciled(old(log))
      ensures Calm(world, bundle) ==> skipped == old(skipped)
    {
      var n := RunSealed(bundle);
      ReportRun(Paths(bundle), n);
      SplitCount(Unlinked(old(log)), old(skipped), Paths(bundle), n);
    }

    /** The first `n` paths were deleted; what was not is skipped. */
    method ReportRun(paths: seq<Path>, n: nat)
      requires n <= |paths| && forall i, j :: 0 <= i < j < |paths| ==> paths[i] != paths[j]
      modifies this`deleted, this`skipped
      ensures deleted == old(deleted) + paths[..n] && skipped == old(skipped) + paths[n..]
    {
      deleted := deleted + paths[..n];
      skipped := skipped + NotIn(paths, paths[..n]);
      RestNotIn(paths, n);
    }

    /** Verify a retained archive and finish the deletion of its source: of the files that the
        reconciliation deletes, all lie in the source. */
    method FinishSource(e: Entry) returns (ok: bool)
      requires Cleared([e]) && Honest() && e.isArchive
      modifies this`now, this`deleted, this`log
      ensures Cleared([e]) && Honest() && Unlinked(log) == Unlinked(old(log))
      ensures forall p :: p in Reconciled(log) ==> p in Reconciled(old(log)) || Within(e, p)
      ensures Working(world) ==> ok
    {
      ok := Check();
      if ok {
        var t := Tick();
        var gone := Inside(e, world.reconciled(t));
        assert (log + [ReconcileSource(e, gone)])[..|log|] == log;
        GuardedSnoc(log, ReconcileSource(e, gone));
        log := log + [ReconcileSource(e, gone)];
        deleted := deleted + gone;
        ok := Check();
      }
    }

    /** A single file, or a retained archive whose source is reconciled first. */
    method DeleteSingle(e: Entry)
      requires Cleared([e]) && Honest()
      modifies this`now, this`log, this`deleted, this`skipped
      ensures Honest()
      ensures Settled() == old(Settled()) + multiset{e.path}
      ensures forall p :: p in Reconciled(log) ==> p in Reconciled(old(log)) || Within(e, p)
      ensures Calm(world, [e]) ==> skipped == old(skipped)
    {
      var ok := true;
      if e.isArchive {
        ok := FinishSource(e);
      }
      if ok {
        Remove(e, [e]);
      } else {
        skipped := skipped + [e.path];
      }
    }

    /** Every check before the first unlink, in the order of the source: structure, guards,
        stat identities, guards again, structure again. */
    method Screen(bundle: seq<Entry>) returns (ok: bool)
      requires Guarded(log)
      modifies this`now, this`log
      ensures Guarded(log) && (ok ==> Cleared(bundle)) && Grew(old(log), log, [])
      ensures Calm(world, bundle) ==> ok
    {
      ok := Check();
      if !ok { return; }
      var guards := Protection();
      if Protected(bundle, guards) { return false; }
      ok := StatsHold(bundle);
      if !ok { return; }
      guards := Protection();
      if Protected(bundle, guards) { return false; }
      ok := Check();
    }

    /** One bundle. Left in peace, an atomic bundle is deleted whole. */
    method ApplyBundle(bundle: seq<Entry>)
      requires Honest() && DistinctPaths(bundle)
      modifies this`now, this`log, this`deleted, this`skipped
      ensures Honest()
      ensures Settled() == old(Settled()) + multiset(Paths(bundle))
      ensures forall p :: p in Reconciled(log) ==> p in Reconciled(old(log)) || FromSource(bundle, p)
      ensures !Atomic(bundle) ==> log == old(log) && skipped == old(skipped) + Paths(bundle)
      ensures Calm(world, bundle) && Atomic(bundle) ==> skipped == old(skipped)
    {
      if !Atomic(bundle) {
        SkipAll(bundle);
        return;
      }
      var ok := Screen(bundle);
      if ok {
        DeleteBundle(bundle);
      } else {
        SkipAll(bundle);
      }
    }

    /** A bundle that passed every check, by its mode. */
    method DeleteBundle(bundle: seq<Entry>)
      requires Cleared(bundle) && Honest() && DistinctPaths(bundle) && Atomic(bundle)
      modifies this`now, this`log, this`deleted, this`skipped
      ensures Honest()
      ensures Settled() == old(Settled()) + multiset(Paths(bundle))
      ensures forall p :: p in Reconciled(log) ==> p in Reconciled(old(log)) || FromSource(bundle, p)
      ensures Calm(world, bundle) ==> skipped == old(skipped)
    {
      if AllOf(bundle, SealedDirectory) {
        DeleteSealed(bundle);
      } else if AllOf(bundle, VerifiedOriginals) {
        DeleteOriginals(bundle);
      } else {
        assert bundle == [bundle[0]] && Paths(bundle) == [bundle[0].path];
        DeleteSingle(bundle[0]);
      }
    }

    /** `apply_retention_plan`: whatever changes meanwhile, a planned path is unlinked only
        right after a look that matched the plan and with no overlap with the guards as last
        read; every planned path is either unlinked and reported deleted, or reported skipped,
        exactly once. What is reported deleted beyond that lies in the source of a planned
        archive, so a path outside all those sources is reported as often as it is planned.
        When nothing changes, nothing is skipped. */
    method ApplyPlan(bundles: seq<seq<Entry>>)
      requires forall b :: b in bundles ==> DistinctPaths(b)
      requires Started()
      modifies this
      ensures Guarded(log)
      ensures deleted == Deleted(log)
      ensures multiset(Unlinked(log)) + multiset(skipped) == AllPaths(bundles)
      ensures forall p :: p in Reconciled(log) ==> FromPlan(bundles, p)
      ensures forall p :: !FromPlan(bundles, p) ==>
                multiset(deleted)[p] + multiset(skipped)[p] == AllPaths(bundles)[p]
      ensures (forall b :: b in bundles ==> NoArchive(b)) ==> deleted == Unlinked(log)
      ensures (forall b :: b in bundles ==> Calm(world, b) && Atomic(b)) ==> skipped == []
    {
      var i := 0;
      while i < |bundles|
        invariant 0 <= i <= |bundles| && Honest()
        invariant Settled() == AllPaths(bundles[..i])
        invariant forall p :: p in Reconciled(log) ==> FromPlan(bundles, p)
        invariant (forall b :: b in bundles ==> Calm(world, b) && Atomic(b)) ==> skipped == []
      {
        assert bundles[..i + 1][..i] == bundles[..i];
        assert bundles[i] in bundles;
        ApplyBundle(bundles[i]);
        i := i + 1;
      }
      assert bundles[..i] == bundles;
      OutsideSources(bundles, log, skipped);
      if Reconciled(log) == [] { OnlyUnlinked(log); }
    }
  }

  lemma OutsideSources(bundles: seq<seq<Entry>>, log: seq<Event>, skipped: seq<Path>)
    requires forall p :: p in Reconciled(log) ==> FromPlan(bundles, p)
    requires multiset(Unlinked(log)) + multiset(skipped) == AllPaths(bundles)
    ensures forall p :: !FromPlan(bundles, p) ==>
              multiset(Deleted(log))[p] + multiset(skipped)[p] == AllPaths(bundles)[p]
    ensures (forall b :: b in bundles ==> NoArchive(b)) ==> Reconciled(log) == []
  {
    DeletedAreBoth(log);
    forall p | !FromPlan(bundles, p)
      ensures multiset(Deleted(log))[p] + multiset(skipped)[p] == AllPaths(bundles)[p]
    {
      assert p !in Reconciled(log);
      assert (multiset(Unlinked(log)) + multiset(skipped))[p] == AllPaths(bundles)[p];
    }
    if Reconciled(log) != [] {
      assert Reconciled(log)[0] in Reconciled(log);
    }
  }

  function Inside(e: Entry, paths: seq<Path>): (r: seq<Path>)
    requires e.isArchive
    ensures forall p :: p in r <==> p in paths && Within(e, p)
  {
    if paths == [] then [] else (if Within(e, paths[0]) then [paths[0]] else []) + Inside(e, paths[1..])
  }

  lemma SplitCount(unlinked: seq<Path>, skipped: seq<Path>, paths: seq<Path>, n: nat)
    requires n <= |paths|
    ensures multiset(unlinked + paths[..n]) + multiset(skipped + paths[n..])
         == multiset(unlinked) + multiset(skipped) + multiset(paths)
  {
    assert paths == paths[..n] + paths[n..];
  }

  predicate DistinctPaths(bundle: seq<Entry>) {
    forall i, j :: 0 <= i < j < |bundle| ==> bundle[i].path != bundle[j].path
  }

  function NotIn(paths: seq<Path>, done: seq<Path>): seq<Path> {
    if paths == [] then [] else (if paths[0] in done then [] else [paths[0]]) + NotIn(paths[1..], done)
  }

  lemma {:induction false} NotInConcat(a: seq<Path>, b: seq<Path>, done: seq<Path>)
    ensures NotIn(a + b, done) == NotIn(a, done) + NotIn(b, done)
  {
    if a == [] {
      assert a + b == b;
    } else {
      assert (a + b)[1..] == a[1..] + b;
      NotInConcat(a[1..], b, done);
    }
  }

  lemma {:induction false} AllIn(paths: seq<Path>, done: seq<Path>)
    ensures (forall p :: p in paths ==> p in done) ==> NotIn(paths, done) == []
    ensures (forall p :: p in paths ==> p !in done) ==> NotIn(paths, done) == paths
  {
    if paths != [] {
      AllIn(paths[1..], done);
      assert paths == [paths[0]] + paths[1..];
    }
  }

  lemma RestNotIn(paths: seq<Path>, n: nat)
    requires n <= |paths| && forall i, j :: 0 <= i < j < |paths| ==> paths[i] != paths[j]
    ensures NotIn(paths, paths[..n]) == paths[n..]
  {
    assert paths == paths[..n] + paths[n..];
    NotInConcat(paths[..n], paths[n..], paths[..n]);
    AllIn(paths[..n], paths[..n]);
    AllIn(paths[n..], paths[..n]);
  }

  predicate NoArchive(bundle: seq<Entry>) {
    forall e :: e in bundle ==> !e.isArchive
  }

  /** Overlap with a guard is what shields a path: a guarded directory shields everything in
      it, and a guarded file shields every directory on the way to it. */
  lemma {:induction false} GuardShieldsTree(bundle: seq<Entry>, guards: set<Path>, e: Entry, g: Path)
    requires e in bundle && !Protected(bundle, guards) && g in guards
    ensures e.path != g && !(g <= e.path) && !(e.path <= g)
    ensures e.mode == SealedDirectory || e.isArchive ==> !(e.source <= g) && !(g <= e.source)
  {
    assert !Hits(guards, e.path);
    assert e.mode == SealedDirectory || e.isArchive ==> !Hits(guards, e.source);
  }

  // ---- The whole log, told path by path ----

  /** Neither path contains the other: they part at some component. */
  ghost predicate Apart(p: Path, q: Path) {
    exists k :: 0 <= k < |p| && k < |q| && p[k] != q[k]
  }

  lemma ApartIff(p: Path, q: Path)
    ensures Apart(p, q) <==> !Overlap(p, q)
  {
    if !Overlap(p, q) { PartsSomewhere(p, q); }
  }

  lemma {:induction false} PartsSomewhere(p: Path, q: Path)
    requires !(p <= q) && !(q <= p)
    ensures Apart(p, q)
  {
    if p[0] == q[0] {
      PrefixCons(p, q);
      PrefixCons(q, p);
      PartsSomewhere(p[1..], q[1..]);
      var k :| 0 <= k < |p| - 1 && k < |q| - 1 && p[1..][k] != q[1..][k];
      assert p[k + 1] != q[k + 1];
    }
  }

  lemma PrefixCons(p: Path, q: Path)
    requires p != [] && q != [] && p[0] == q[0]
    ensures p[1..] <= q[1..] ==> p <= q
  {
    if p[1..] <= q[1..] { assert forall k :: 0 < k < |p| ==> p[k] == p[1..][k - 1] && q[k] == q[1..][k - 1]; }
  }

  /** No guard contains a member or lies on the way to it; the same for a sealed directory and for
      the source of an archive. */
  ghost predicate Clears(guards: set<Path>, bundle: seq<Entry>) {
    forall g, e :: g in guards && e in bundle ==>
      Apart(e.path, g) && (e.mode == SealedDirectory || e.isArchive ==> Apart(e.source, g))
  }

  lemma ClearsIff(guards: set<Path>, bundle: seq<Entry>)
    ensures Clears(guards, bundle) <==> !Protected(bundle, guards)
  {
    forall g, e: Entry ensures Apart(e.path, g) <==> !Overlap(e.path, g) { ApartIff(e.path, g); }
    forall g, e: Entry ensures Apart(e.source, g) <==> !Overlap(e.source, g) { ApartIff(e.source, g); }
  }

  /** What the look found is what was planned: the same file identity and, unless the entry goes by
      its identity alone or belongs to a sealed directory, the same content. */
  predicate AsPlanned(e: Entry, seen: Option<FileIdentity>, sealedMember: bool) {
    && seen.Some? && seen.value.stat == e.planned.stat
    && (e.identity.StatOnly? || (e.identity.HashAndStat? && (sealedMember || seen.value.content == e.planned.content)))
  }

  /** The guards read at `j` are the last ones read before `i`. */
  predicate LastRead(log: seq<Event>, j: int, i: nat)
    requires i <= |log|
  {
    0 <= j < i && log[j].ReadGuards? && forall k :: j < k < i ==> !log[k].ReadGuards?
  }

  lemma {:induction false} LatestAt(log: seq<Event>) returns (j: int)
    requires LatestGuards(log).Some?
    ensures LastRead(log, j, |log|) && log[j].guards == LatestGuards(log).value
  {
    var n := |log| - 1;
    if log[n].ReadGuards? {
      j := n;
    } else {
      j := LatestAt(log[..n]);
    }
  }

  /** Every unlink comes right after a look that found the entry as planned, and the guards last read
      before it clear its whole bundle. */
  lemma UnlinkedAsPlanned(log: seq<Event>, i: nat) returns (j: int)
    requires Guarded(log) && i < |log| && log[i].Unlink?
    ensures LastRead(log, j, i) && Clears(log[j].guards, log[i].bundle) && log[i].entry in log[i].bundle
    ensures i > 0 && log[i - 1].Look? && log[i - 1].path == log[i].entry.path
    ensures AsPlanned(log[i].entry, log[i - 1].seen, log[i].entry.mode == SealedDirectory)
  {
    GuardedEverywhere(log);
    assert Deletes(log[i]) && GuardedAt(log, i);
    j := LatestAt(log[..i]);
    ClearsIff(log[j].guards, log[i].bundle);
  }

  /** What reconciling an archive deletes lies below its source, which the guards last read clear. */
  lemma ReconciledInSource(log: seq<Event>, i: nat, p: Path) returns (j: int)
    requires Guarded(log) && i < |log| && log[i].ReconcileSource?
    ensures var e := log[i].archive;
            && LastRead(log, j, i) && Clears(log[j].guards, [e])
            && (p in log[i].paths ==> e.isArchive && |p| > |e.source| && p[..|e.source|] == e.source)
  {
    GuardedEverywhere(log);
    assert Deletes(log[i]) && GuardedAt(log, i);
    j := LatestAt(log[..i]);
    ClearsIff(log[j].guards, [log[i].archive]);
  }

  /** A bundle left in peace: everything works, no guard is near it, every look finds it as planned. */
  lemma CalmIff(world: World, bundle: seq<Entry>)
    ensures Calm(world, bundle) <==>
              && (forall t :: world.succeeds(t) && world.unlinks(t))
              && (forall t :: Clears(world.guards(t), bundle))
              && forall t, e :: e in bundle ==> AsPlanned(e, world.look(t, e.path), false)
  {
    forall t ensures Clears(world.guards(t), bundle) <==> !Protected(bundle, world.guards(t)) {
      ClearsIff(world.guards(t), bundle);
    }
    assert forall e, seen :: AsPlanned(e, seen, false) <==> Matches(e, seen);
  }

  /** A bundle is a unit when it is one single file, or not empty and all of one other kind. */
  lemma AtomicIff(bundle: seq<Entry>)
    ensures Atomic(bundle) <==>
              && |bundle| > 0
              && (|bundle| == 1 || bundle[0].mode != SingleFile) && bundle[0].mode != OtherMode
              && forall i :: 0 <= i < |bundle| ==> bundle[i].mode == bundle[0].mode
  {
    if bundle != [] { assert bundle[0] in bundle; }
    assert forall e :: e in bundle <==> exists i :: 0 <= i < |bundle| && bundle[i] == e;
  }

  // ---- What is counted ----

  ghost predicate PlannedAt(bundles: seq<seq<Entry>>, p: Path, i: int, k: int) {
    0 <= i < |bundles| && 0 <= k < |bundles[i]| && bundles[i][k].path == p
  }

  lemma {:induction false} CountOfNone(paths: seq<Path>, p: Path)
    requires forall k :: 0 <= k < |paths| ==> paths[k] != p
    ensures multiset(paths)[p] == 0
  {
    assert p !in paths;
  }

  lemma CountOfOne(paths: seq<Path>, k: nat)
    requires k < |paths| && forall j :: 0 <= j < |paths| && j != k ==> paths[j] != paths[k]
    ensures multiset(paths)[paths[k]] == 1
  {
    assert paths == paths[..k] + [paths[k]] + paths[k + 1..];
    CountOfNone(paths[..k], paths[k]);
    CountOfNone(paths[k + 1..], paths[k]);
  }

  lemma {:induction false} NotPlanned(bundles: seq<seq<Entry>>, p: Path)
    requires forall i, k :: !PlannedAt(bundles, p, i, k)
    ensures AllPaths(bundles)[p] == 0
  {
    if bundles != [] {
      var n := |bundles| - 1;
      forall i, k ensures !PlannedAt(bundles[..n], p, i, k) {
        assert !PlannedAt(bundles, p, i, k);
      }
      NotPlanned(bundles[..n], p);
      forall k | 0 <= k < |bundles[n]| ensures Paths(bundles[n])[k] != p {
        assert !PlannedAt(bundles, p, n, k);
      }
      CountOfNone(Paths(bundles[n]), p);
    }
  }

  /** A path that is planned at one place only counts once, so it is unlinked or skipped once. */
  lemma {:induction false} PlannedOnce(bundles: seq<seq<Entry>>, p: Path, i: int, k: int)
    requires PlannedAt(bundles, p, i, k)
    requires forall a, b :: PlannedAt(bundles, p, a, b) ==> a == i && b == k
    ensures AllPaths(bundles)[p] == 1
  {
    var n := |bundles| - 1;
    var last := Paths(bundles[n]);
    if i == n {
      forall a, b ensures !PlannedAt(bundles[..n], p, a, b) {
        assert PlannedAt(bundles[..n], p, a, b) ==> PlannedAt(bundles, p, a, b);
      }
      NotPlanned(bundles[..n], p);
      forall j | 0 <= j < |last| && j != k ensures last[j] != last[k] {
        assert !PlannedAt(bundles, p, n, j);
      }
      CountOfOne(last, k);
    } else {
      forall a, b | PlannedAt(bundles[..n], p, a, b) ensures a == i && b == k {
        assert PlannedAt(bundles, p, a, b);
      }
      assert PlannedAt(bundles[..n], p, i, k);
      PlannedOnce(bundles[..n], p, i, k);
      forall j | 0 <= j < |last| ensures last[j] != p {
        assert !PlannedAt(bundles, p, n, j);
      }
      CountOfNone(last, p);
    }
  }

  lemma {:induction false} UnlinkedIff(log: seq<Event>, p: Path)
    ensures p in Unlinked(log) <==> exists i :: 0 <= i < |log| && log[i].Unlink? && log[i].entry.path == p
    ensures p in Reconciled(log) <==> exists i :: 0 <= i < |log| && log[i].ReconcileSource? && p in log[i].paths
  {
    if log != [] {
      var n := |log| - 1;
      UnlinkedIff(log[..n], p);
      assert forall i :: 0 <= i < n ==> log[..n][i] == log[i];
    }
  }

  lemma Snoc<T>(a: seq<T>, b: seq<T>)
    requires b != []
    ensures (a + b)[..|a + b| - 1] == a + b[..|b| - 1] && (a + b)[|a + b| - 1] == b[|b| - 1]
  {}

  lemma Associative<T>(a: seq<T>, b: seq<T>, c: seq<T>)
    ensures (a + b) + c == a + (b + c)
  {}

  /** Deletions add up along the log, in order: one path for an unlink, its files for an archive. */
  lemma {:induction false} DeletedJoin(a: seq<Event>, b: seq<Event>)
    ensures Deleted(a + b) == Deleted(a) + Deleted(b)
  {
    if b == [] {
      assert a + b == a;
    } else {
      Snoc(a, b);
      DeletedJoin(a, b[..|b| - 1]);
      Associative(Deleted(a), Deleted(b[..|b| - 1]), DeletedBy(b[|b| - 1]));
    }
  }

  lemma {:induction false} UnlinkedJoin(a: seq<Event>, b: seq<Event>)
    ensures Unlinked(a + b) == Unlinked(a) + Unlinked(b)
  {
    if b == [] {
      assert a + b == a;
    } else {
      Snoc(a, b);
      UnlinkedJoin(a, b[..|b| - 1]);
    }
  }

  /** A file deleted beyond the plan lies below the source of a planned archive. */
  lemma FromPlanIff(bundles: seq<seq<Entry>>, p: Path)
    ensures FromPlan(bundles, p) <==>
              exists i, k :: 0 <= i < |bundles| && 0 <= k < |bundles[i]| && Below(bundles[i][k], p)
  {
    if i, k :| 0 <= i < |bundles| && 0 <= k < |bundles[i]| && Below(bundles[i][k], p) {
      assert bundles[i] in bundles && bundles[i][k] in bundles[i] && Within(bundles[i][k], p);
      assert FromSource(bundles[i], p);
    }
    if b :| b in bundles && FromSource(b, p) {
      var e :| e in b && Within(e, p);
      var i :| 0 <= i < |bundles| && bundles[i] == b;
      var k :| 0 <= k < |b| && b[k] == e;
      assert Below(bundles[i][k], p);
    }
  }

  predicate Below(e: Entry, p: Path) {
    e.isArchive && |p| > |e.source| && p[..|e.source|] == e.source
  }
}
