/** Applying a fleet of ownership plans in one rollback domain (atlas_slot_ownership.py).

    A digest is modelled by the content itself. A run may be disturbed anywhere: a write can
    fail, a target can fail its check after the writes, and a rollback write can fail too. */
module FleetApply {
  import opened Texts

  type Path = string
  type Content = int
  type Files = map<Path, Content>

  datatype Write = Write(path: Path, before: Content, after: Content, payload: Content)

  datatype ChildStatus = Current | Repairable | Blocked
  datatype Child = Child(spm: Path, spmContent: Content, status: ChildStatus, writes: seq<Write>)

  /** What goes wrong during one run. */
  datatype Disturbance = Disturbance(badWrites: set<Path>, failedChecks: set<Path>, badRollbacks: set<Path>)

  datatype Outcome = AlreadyCurrent | Refused | Applied | RolledBack | RollbackFailed(left: set<Path>)

  /** Merge writes by path; two different writes to one path disagree. */
  function Merge(merged: map<Path, Write>, writes: seq<Write>): Option<map<Path, Write>>
    decreases |writes|
  {
    if writes == [] then Some(merged)
    else if writes[0].path in merged && merged[writes[0].path] != writes[0] then None
    else Merge(merged[writes[0].path := writes[0]], writes[1..])
  }

  function AllWrites(children: seq<Child>): seq<Write> {
    if children == [] then [] else AllWrites(children[..|children| - 1]) + children[|children| - 1].writes
  }

  /** Every child may be applied, and every SPM still has its planned content. */
  predicate TargetsReady(files: Files, children: seq<Child>) {
    forall c :: c in children ==>
      c.status != Blocked && c.spm in files && files[c.spm] == c.spmContent
  }

  predicate WriteReady(files: Files, w: Write) {
    w.path in files && files[w.path] == w.before && w.payload == w.after
  }

  predicate Ready(files: Files, children: seq<Child>) {
    && TargetsReady(files, children)
    && Merge(map[], AllWrites(children)).Some?
    && forall p :: p in Merge(map[], AllWrites(children)).value ==>
        WriteReady(files, Merge(map[], AllWrites(children)).value[p])
  }

  /** The store once the writes to `paths` are in place. */
  function Written(files: Files, writes: map<Path, Write>, paths: set<Path>): Files {
    map p | p in files.Keys + (paths * writes.Keys) :: if p in paths && p in writes then writes[p].payload else files[p]
  }

  lemma {:induction false} MergeConcat(merged: map<Path, Write>, a: seq<Write>, b: seq<Write>)
    ensures Merge(merged, a + b) == (if Merge(merged, a).None? then None else Merge(Merge(merged, a).value, b))
    decreases |a|
  {
    if a == [] {
      assert a + b == b;
    } else {
      assert (a + b)[1..] == a[1..] + b;
      MergeConcat(merged[a[0].path := a[0]], a[1..], b);
    }
  }

  /** A merge holds exactly the given writes, each under its own path, so that targets which
      share a manifest agree on it. */
  lemma {:induction false} MergedWrites(merged: map<Path, Write>, writes: seq<Write>, w: Write)
    requires forall p :: p in merged ==> merged[p].path == p
    requires Merge(merged, writes).Some?
    ensures var all := Merge(merged, writes).value;
            && (forall p :: p in all ==> all[p].path == p)
            && ((w.path in all && all[w.path] == w) <==> w in writes || (w.path in merged && merged[w.path] == w))
    decreases |writes|
  {
    if writes != [] {
      var next := merged[writes[0].path := writes[0]];
      assert writes == [writes[0]] + writes[1..];
      MergedWrites(next, writes[1..], w);
    }
  }

  lemma MergeNext(children: seq<Child>, i: nat)
    requires i < |children|
    ensures var before := Merge(map[], AllWrites(children[..i]));
            Merge(map[], AllWrites(children[..i + 1])) ==
                if before.None? then None else Merge(before.value, children[i].writes)
  {
    assert children[..i + 1][..i] == children[..i];
    MergeConcat(map[], AllWrites(children[..i]), children[i].writes);
  }

  // ---- The preconditions and the result, write by write ----

  ghost predicate Planned(children: seq<Child>, w: Write) {
    exists c :: c in children && w in c.writes
  }

  /** Every target may be applied and has its planned SPM; every planned write finds its manifest
      as planned and carries what it announces; and no two targets want one manifest differently. */
  ghost predicate Launchable(files: Files, children: seq<Child>) {
    && (forall c :: c in children ==> c.status != Blocked && c.spm in files && files[c.spm] == c.spmContent)
    && (forall w :: Planned(children, w) ==> w.path in files && files[w.path] == w.before && w.payload == w.after)
    && forall v, w :: Planned(children, v) && Planned(children, w) && v.path == w.path ==> v == w
  }

  /** Every planned payload is in place, and every other file is as it was. */
  ghost predicate Landed(was: Files, now: Files, children: seq<Child>) {
    && now.Keys == was.Keys
    && (forall w :: Planned(children, w) ==> w.path in now && now[w.path] == w.payload)
    && forall p :: p in was && (forall w :: Planned(children, w) ==> w.path != p) ==> now[p] == was[p]
  }

  lemma {:induction false} AllWritesAre(children: seq<Child>, w: Write)
    ensures w in AllWrites(children) <==> Planned(children, w)
  {
    if children != [] {
      var n := |children| - 1;
      assert children == children[..n] + [children[n]];
      AllWritesAre(children[..n], w);
    }
  }

  ghost predicate OneEach(merged: map<Path, Write>, writes: seq<Write>) {
    && (forall w :: w in writes && w.path in merged ==> merged[w.path] == w)
    && forall v, w :: v in writes && w in writes && v.path == w.path ==> v == w
  }

  lemma {:induction false} MergesIff(merged: map<Path, Write>, writes: seq<Write>)
    ensures Merge(merged, writes).Some? <==> OneEach(merged, writes)
    decreases |writes|
  {
    if writes != [] {
      assert writes == [writes[0]] + writes[1..];
      assert writes[0] in writes;
      MergesIff(merged[writes[0].path := writes[0]], writes[1..]);
    }
  }

  lemma ReadyIff(files: Files, children: seq<Child>)
    ensures Ready(files, children) <==> Launchable(files, children)
  {
    var writes := AllWrites(children);
    forall w ensures w in writes <==> Planned(children, w) { AllWritesAre(children, w); }
    MergesIff(map[], writes);
    if Merge(map[], writes).Some? {
      forall w ensures w in writes <==>
          w.path in Merge(map[], writes).value && Merge(map[], writes).value[w.path] == w {
        MergedWrites(map[], writes, w);
      }
      forall p | p in Merge(map[], writes).value ensures Merge(map[], writes).value[p].path == p {
        MergedWrites(map[], writes, Merge(map[], writes).value[p]);
      }
    }
  }

  lemma WritesAreThere(files: Files, children: seq<Child>)
    requires Ready(files, children)
    ensures forall p :: p in Merge(map[], AllWrites(children)).value ==> p in files
  {
    var writes := Merge(map[], AllWrites(children)).value;
    forall p | p in writes ensures p in files {
      assert WriteReady(files, writes[p]);
      MergedWrites(map[], AllWrites(children), writes[p]);
    }
  }

  lemma WrittenLands(files: Files, children: seq<Child>)
    requires Ready(files, children)
    ensures var writes := Merge(map[], AllWrites(children)).value;
            Landed(files, Written(files, writes, writes.Keys), children)
  {
    var writes := Merge(map[], AllWrites(children)).value;
    forall w ensures Planned(children, w) <==> w.path in writes && writes[w.path] == w {
      AllWritesAre(children, w);
      MergedWrites(map[], AllWrites(children), w);
    }
    forall p | p in writes ensures p in files && writes[p].path == p {
      assert WriteReady(files, writes[p]);
      MergedWrites(map[], AllWrites(children), writes[p]);
    }
    assert forall p :: p in writes ==> Planned(children, writes[p]);
  }

  class ManifestStore {
    var files: Files
    /** Every path written by a run, in order, rollbacks not included. */
    ghost var started: seq<Path>

    constructor (found: Files)
      ensures files == found && started == []
    {
      files, started := found, [];
    }

    /** The check before the first write: statuses, SPM contents, and one merged write per path. */
    method CollectWrites(children: seq<Child>) returns (writes: Option<map<Path, Write>>)
      ensures writes == if TargetsReady(files, children) then Merge(map[], AllWrites(children)) else None
    {
      writes := Some(map[]);
      var i := 0;
      while i < |children|
        invariant 0 <= i <= |children| && TargetsReady(files, children[..i])
        invariant writes.Some? && writes == Merge(map[], AllWrites(children[..i]))
      {
        var c := children[i];
        MergeNext(children, i);
        ReadySnoc(files, children, i);
        if c.status == Blocked || c.spm !in files || files[c.spm] != c.spmContent {
          assert c in children;
          return None;
        }
        writes := Merge(writes.value, c.writes);
        i := i + 1;
        if writes.None? {
          NeverMerges(children, i);
          return None;
        }
      }
      assert children[..i] == children;
    }

    /** Write the planned payloads; stop at the first write that fails. */
    method CommitWrites(writes: map<Path, Write>, bad: set<Path>) returns (committed: set<Path>, ok: bool)
      requires forall p :: p in writes ==> p in files
      modifies this
      ensures committed <= writes.Keys && files == Written(old(files), writes, committed)
      ensures ok <==> writes.Keys !! bad
      ensures ok ==> committed == writes.Keys
      ensures started != old(started) ==> writes != map[]
    {
      committed := {};
      var todo := writes.Keys;
      while todo != {}
        invariant todo <= writes.Keys && committed == writes.Keys - todo && committed !! bad
        invariant files == Written(old(files), writes, committed)
        invariant started != old(started) ==> writes != map[]
        decreases todo
      {
        var p :| p in todo;
        if p in bad {
          return committed, false;
        }
        files, started := files[p := writes[p].payload], started + [p];
        committed, todo := committed + {p}, todo - {p};
      }
      return committed, true;
    }

    /** Put the original bytes back, newest first; a failed rollback write is remembered. */
    method RollBack(
        committed: set<Path>, originals: Files, bad: set<Path>, ghost writes: map<Path, Write>, ghost was: Files)
        returns (left: set<Path>)
      requires committed <= writes.Keys && files == Written(was, writes, committed)
      requires forall p :: p in committed ==> p in was && p in originals && originals[p] == was[p]
      modifies this`files
      ensures left == committed * bad && files == Written(was, writes, left)
    {
      left := {};
      var todo := committed;
      while todo != {}
        invariant todo <= committed && left == (committed - todo) * bad
        invariant files == Written(was, writes, todo + left)
        decreases todo
      {
        var p :| p in todo;
        if p in bad {
          left := left + {p};
        } else {
          files := files[p := originals[p]];
        }
        todo := todo - {p};
      }
      assert todo + left == left;
    }

    /** `apply_atlas_slot_ownership_fleet`. No write starts unless every SPM and every manifest
        still has its planned content; the store then ends with all planned payloads, or
        unchanged, or unchanged except for exactly the files whose rollback failed. */
    method Apply(children: seq<Child>, d: Disturbance) returns (outcome: Outcome)
      modifies this
      ensures started != old(started) ==> Ready(old(files), children)
      ensures outcome.AlreadyCurrent? || outcome.Refused? ==> files == old(files) && started == old(started)
      ensures outcome == Applied ==>
                Ready(old(files), children)
                && var writes := Merge(map[], AllWrites(children)).value;
                   files == Written(old(files), writes, writes.Keys)
      ensures outcome == RolledBack ==> files == old(files)
      ensures outcome.RollbackFailed? ==>
                && Ready(old(files), children) && outcome.left <= d.badRollbacks && outcome.left != {}
                && files == Written(old(files), Merge(map[], AllWrites(children)).value, outcome.left)
      ensures outcome == Applied <==>
                && (exists c :: c in children && c.status == Repairable) && Ready(old(files), children)
                && Merge(map[], AllWrites(children)).value.Keys !! d.badWrites
                && forall c :: c in children ==> c.spm !in d.failedChecks
      ensures outcome.AlreadyCurrent? <==> forall c :: c in children ==> c.status == Current
      ensures outcome.Refused? <==>
                (exists c :: c in children && c.status != Current) && !Launchable(old(files), children)
      ensures outcome == Applied ==> Landed(old(files), files, children)
      ensures outcome.RollbackFailed? ==> forall p :: p in old(files) && p !in outcome.left ==>
                p in files && files[p] == old(files)[p]
    {
      ReadyIff(files, children);
      if forall c :: c in children ==> c.status == Current {
        return AlreadyCurrent;
      }
      if exists c :: c in children && c.status == Blocked {
        return Refused;
      }
      var collected := CollectWrites(children);
      if collected.None? {
        return Refused;
      }
      if exists p :: p in collected.value && !WriteReady(files, collected.value[p]) {
        return Refused;
      }
      WrittenLands(files, children);
      outcome := CommitOrRollBack(children, collected.value, d);
    }

    /** Write, check every target again, and put everything back if anything fails. */
    method CommitOrRollBack(children: seq<Child>, writes: map<Path, Write>, d: Disturbance) returns (outcome: Outcome)
      requires Ready(files, children) && writes == Merge(map[], AllWrites(children)).value
      modifies this
      ensures outcome.Applied? || outcome.RolledBack? || outcome.RollbackFailed?
      ensures outcome == Applied ==> files == Written(old(files), writes, writes.Keys)
      ensures outcome == RolledBack ==> files == old(files)
      ensures outcome.RollbackFailed? ==>
                && outcome.left <= d.badRollbacks && outcome.left != {}
                && files == Written(old(files), writes, outcome.left)
      ensures outcome == Applied <==>
                writes.Keys !! d.badWrites && forall c :: c in children ==> c.spm !in d.failedChecks
    {
      ghost var was := files;
      WritesAreThere(files, children);
      var originals := map p | p in writes :: files[p];
      var committed, ok := CommitWrites(writes, d.badWrites);
      if ok && (forall c :: c in children ==> c.spm !in d.failedChecks) {
        return Applied;
      }
      var left := RollBack(committed, originals, d.badRollbacks, writes, was);
      if left != {} {
        return RollbackFailed(left);
      }
      assert files == was;
      return RolledBack;
    }
  }

  lemma ReadySnoc(files: Files, children: seq<Child>, i: nat)
    requires i < |children|
    ensures TargetsReady(files, children[..i + 1]) <==>
              && TargetsReady(files, children[..i])
              && children[i].status != Blocked && children[i].spm in files &&
                  files[children[i].spm] == children[i].spmContent
  {
    assert children[..i + 1] == children[..i] + [children[i]];
  }

  lemma NeverMerges(children: seq<Child>, i: nat)
    requires i <= |children| && Merge(map[], AllWrites(children[..i])).None?
    ensures Merge(map[], AllWrites(children)).None?
    decreases |children| - i
  {
    if i == |children| {
      assert children[..i] == children;
    } else {
      MergeNext(children, i);
      NeverMerges(children, i + 1);
    }
  }
}
