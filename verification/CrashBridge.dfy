/** Deleting a sealed backup directory across crashes (artifact_retention.py).

    A run performs atomic filesystem operations: install the archive, unlink a file, remove a
    directory, unlink the archive. `budget` is how many of them succeed; then the process dies
    or the next operation raises, which leave the same source and archives behind. Nothing
    else writes. */
module CrashBridge {
  import opened Texts
  import opened BundlePaths
  import opened SealedBundle
  import opened RecoveryArchive

  /** A planned member: the hash the plan recorded, `None` when it left it blank, and whether
      its stat still matches. */
  datatype Entry = Entry(sha: Option<Content>, statMatches: bool)

  datatype Run =
    | Delete(entries: map<Rel, Entry>, token: string, budget: nat)
    | Reconcile(token: string, entryMatches: bool, budget: nat)

  /** `t` holds only files and directories of `original`, with equal contents. */
  ghost predicate Remnant(t: Tree, original: Tree) {
    && t.dirs <= original.dirs && t.files.Keys <= original.files.Keys
    && forall p :: p in t.files ==> t.files[p] == original.files[p]
  }

  /** Every member has its real hash and an unchanged stat. */
  predicate RealEntries(files: map<Rel, Content>, entries: map<Rel, Entry>) {
    && entries.Keys == files.Keys
    && forall p :: p in files ==> entries[p].sha == Some(files[p]) && entries[p].statMatches
  }

  /** No directory of the set lies inside `d`. */
  predicate IsLeaf(dirs: set<Rel>, d: Rel) {
    d in dirs && forall e :: e in dirs ==> !(d < e)
  }

  lemma {:induction false} LeafExists(dirs: set<Rel>)
    requires dirs != {}
    ensures exists d :: IsLeaf(dirs, d)
  {
    var d :| d in dirs;
    var rest := dirs - {d};
    if forall e :: e in dirs ==> e == d {
      assert IsLeaf(dirs, d);
    } else {
      var other :| other in dirs && other != d;
      assert other in rest;
      LeafExists(rest);
      var leaf :| IsLeaf(rest, leaf);
      var top := if leaf < d then d else leaf;
      forall e | e in dirs ensures !(top < e) {
        assert e == d || e in rest;
      }
      assert IsLeaf(dirs, top);
    }
  }

  /** How many operations a complete deletion of `t` takes, beside its archive's. */
  function Operations(t: Tree): nat { |t.files| + |t.dirs| + 1 }

  class BackupNamespace {
    var present: bool
    var source: Tree
    /** Installed recovery archives, by token. */
    var archives: map<string, Zip>

    const root: string
    ghost const original: Tree
    ghost const bridge: Zip

    /** Full source, or a verified full archive beside a content-equal remnant, or nothing. */
    ghost predicate Safe()
      reads this
    {
      && (forall a :: a in archives ==> IsToken(a) && archives[a] == bridge)
      && (if present then Remnant(source, original) && (source == original || archives != map[])
          else source == Tree(map[], {}))
    }

    /** The bundle was sealed, and `bridge` is its archive. */
    ghost predicate Sealed() {
      Verified(original, root) && SafeName(root) && bridge == Bridge(original)
    }

    constructor (sealed: Tree, root: string)
      requires Verified(sealed, root) && SafeName(root)
      ensures Sealed() && Safe() && present && source == sealed && archives == map[] && original == sealed
    {
      present, source, archives, this.root, original, bridge := true, sealed, map[], root, sealed, Bridge(sealed);
    }

    /** A partial set never stands alone: whatever is left of the source, either all of it is
        there or an installed archive unpacks to all of it. The archive verifier accepts that
        archive exactly when the manifest's directory texts are canonical. */
    lemma NeverPartialAlone()
      requires Sealed() && Safe() && present && source != original
      ensures exists a :: a in archives && Extract(archives[a]) == original
                && (ArchiveVerified(archives[a], ArchiveName(root, a)) <==> Canonical(Directories(original)))
    {
      var a :| a in archives;
      ArchiveUnpacks(original);
      WrittenArchiveAccepted(original, root, a);
    }

    method UnlinkFiles(checked: set<Rel>, budget: nat) returns (left: nat, done: bool)
      requires Safe() && present && archives != map[]
      modifies this`source
      ensures Safe() && source.dirs == old(source).dirs
      ensures done <==> old(source).files.Keys <= checked && budget >= |old(source).files|
      ensures done ==> source.files == map[] && left == budget - |old(source).files|
    {
      left := budget;
      var files := source.files.Keys;
      assert |files| == |source.files|;
      while files != {}
        invariant Safe() && present && archives != map[] && source.dirs == old(source).dirs
        invariant files == source.files.Keys && files <= old(source).files.Keys
        invariant left + |old(source).files| == budget + |files|
        invariant old(source).files.Keys - files <= checked
        decreases files
      {
        var p :| p in files;
        if p !in checked || left == 0 {
          return left, false;
        }
        source, files, left := source.(files := source.files - {p}), files - {p}, left - 1;
      }
      assert source.files == map[];
      return left, true;
    }

    /** One `rmdir`: the filesystem refuses a directory that holds anything. */
    method RemoveDirectory(d: Rel)
      requires Safe() && present && archives != map[] && d in source.dirs
      requires forall p :: p in source.files ==> !(d < p)
      requires forall e :: e in source.dirs && |e| > |d| ==> e[..|d|] != d
      modifies this`source
      ensures Safe() && source == old(source).(dirs := old(source).dirs - {d})
    {
      source := source.(dirs := source.dirs - {d});
    }

    /** Remove the empty directories, children before parents. */
    method RemoveDirectories(budget: nat) returns (left: nat, done: bool)
      requires Safe() && present && archives != map[] && source.files == map[]
      modifies this`source
      ensures Safe() && source.files == map[]
      ensures done <==> budget >= |old(source).dirs|
      ensures done ==> source.dirs == {} && left == budget - |old(source).dirs|
    {
      left := budget;
      while source.dirs != {}
        invariant Safe() && present && archives != map[] && source.files == map[] && source.dirs <= old(source).dirs
        invariant left + |old(source).dirs| == budget + |source.dirs|
        decreases source.dirs
      {
        if left == 0 {
          return left, false;
        }
        LeafExists(source.dirs);
        var d :| IsLeaf(source.dirs, d);
        RemoveDirectory(d);
        left := left - 1;
      }
      return left, true;
    }

    /** Unlink the files that check out, then the directories from the leaves up, then the root. */
    method RemoveSource(checked: set<Rel>, budget: nat) returns (left: nat, done: bool)
      requires Safe() && present && archives != map[]
      modifies this`present, this`source
      ensures Safe()
      ensures done <==> old(source).files.Keys <= checked && budget >= old(Operations(source))
      ensures done ==> !present && left == budget - old(Operations(source))
    {
      left, done := UnlinkFiles(checked, budget);
      if !done {
        return;
      }
      left, done := RemoveDirectories(left);
      if !done || left == 0 {
        return left, false;
      }
      present, source, left := false, Tree(map[], {}), left - 1;
    }

    /** `_delete_sealed_bundle_with_archive`, behind the membership checks of the apply phase.
        It completes exactly when every member carries its real hash, no directory text has a
        backslash, and every operation succeeds; with any blank or wrong hash it changes
        nothing at all. */
    method DeleteSealed(entries: map<Rel, Entry>, token: string, budget: nat) returns (complete: bool)
      requires Sealed() && Safe() && IsToken(token)
      modifies this`present, this`source, this`archives
      ensures Safe()
      ensures complete <==>
                && old(present) && old(source) == original && RealEntries(original.files, entries)
                && NoBackslash(Directories(original)) && budget >= Operations(original) + 2
      ensures complete ==> !present && archives == old(archives) - {token}
      ensures complete ==>
                && (forall p :: p in entries <==> p in original.files)
                && (forall p :: p in original.files ==>
                     p in entries && entries[p].sha == Some(original.files[p]) && entries[p].statMatches)
                && forall x, c :: x in Directories(original) && c in x ==> c != '\\'
      ensures !(old(present) && old(source) == original
                && HashesReal(original.files, entries) && NoBackslash(Directories(original))) ==>
                present == old(present) && source == old(source) && archives == old(archives)
    {
      var ready, zip := PrepareArchive(entries);
      if ready {
        complete := DeleteBehindArchive(entries, token, zip, budget);
      } else {
        complete := false;
      }
    }

    /** Install the archive, check every stat again, delete the source, then the archive. */
    method DeleteBehindArchive(entries: map<Rel, Entry>, token: string, zip: Zip, budget: nat) returns (complete: bool)
      requires Safe() && IsToken(token) && present && source == original && zip == bridge
      requires entries.Keys == original.files.Keys
      modifies this`present, this`source, this`archives
      ensures Safe()
      ensures complete <==> (forall p :: p in entries ==> entries[p].statMatches) && budget >= Operations(original) + 2
      ensures complete ==> !present && archives == old(archives) - {token}
    {
      if budget == 0 {
        return false;
      }
      archives := archives[token := zip];
      PutAndTake(old(archives), token, zip);
      if exists p :: p in entries && !entries[p].statMatches {
        return false;
      }
      var left, done := RemoveSource(entries.Keys, budget - 1);
      if !done || left == 0 {
        return false;
      }
      archives := archives - {token};
      return true;
    }

    /** The checks before the archive is installed: the source verifies, the plan names exactly
        its members, and the archive just written has the expected names and planned hashes. */
    method PrepareArchive(entries: map<Rel, Entry>) returns (ok: bool, zip: Zip)
      requires Sealed() && Safe()
      ensures ok <==>
                && present && source == original
                && HashesReal(original.files, entries) && NoBackslash(Directories(original))
      ensures ok ==> zip == bridge
    {
      zip := map[];
      if !present {
        return false, zip;
      }
      var verified := VerifyTransaction(source, root);
      if !verified || entries.Keys != source.files.Keys {
        return false, zip;
      }
      if source != original {
        VerifiedRemnantIsWhole(source, original, root);
      }
      zip := WriteArchive(source.files, source.files[MANIFEST].manifest.directories);
      var hashes := map p | p in entries :: entries[p].sha;
      ok := Recheck(zip, hashes, source.files[MANIFEST].manifest.directories);
      RecheckMeaning(source.files, hashes, Directories(original));
    }

    /** Applying a retained archive: verify it, finish the deletion of its source, unlink it. */
    method ReconcileArchive(token: string, entryMatches: bool, budget: nat) returns (complete: bool)
      requires Sealed() && Safe()
      modifies this`present, this`source, this`archives
      ensures Safe()
      ensures complete <==>
                && token in old(archives) && Canonical(Directories(original)) && entryMatches
                && budget >= (if old(present) then old(Operations(source)) else 0) + 1
      ensures complete ==> !present && archives == old(archives) - {token}
      ensures archives == old(archives) || (complete && archives == old(archives) - {token})
      ensures !Canonical(Directories(original)) ==> present == old(present) && source == old(source)
    {
      if token !in archives {
        return false;
      }
      var archive := archives[token];
      var valid := VerifyArchive(archive, ArchiveName(root, token));
      WrittenArchiveAccepted(original, root, token);
      if !valid {
        return false;
      }
      if present {
        RemnantWithin(source, original);
        var matches := SourceMatches(source, archive);
        if !matches {
          assert false;
          return false;
        }
      }
      complete := FinishBehindArchive(token, entryMatches, budget);
    }

    /** Delete what is left of the source, then the archive if its own entry still matches. */
    method FinishBehindArchive(token: string, entryMatches: bool, budget: nat) returns (complete: bool)
      requires Safe() && token in archives
      modifies this`present, this`source, this`archives
      ensures Safe()
      ensures complete <==> entryMatches && budget >= (if old(present) then old(Operations(source)) else 0) + 1
      ensures complete ==> !present && archives == old(archives) - {token}
      ensures !complete ==> archives == old(archives)
    {
      var left := budget;
      if present {
        var done;
        left, done := RemoveSource(source.files.Keys, budget);
        if !done {
          return false;
        }
      }
      if !entryMatches || left == 0 {
        return false;
      }
      archives := archives - {token};
      return true;
    }

    /** Any number of runs of both kinds, each stopped anywhere, in any order: the recovery set
        is never left partial. */
    method Lifetime(runs: seq<Run>)
      requires Sealed() && Safe() && forall r :: r in runs ==> IsToken(r.token)
      modifies this`present, this`source, this`archives
      ensures Safe()
      ensures present && source != original ==> archives != map[]
    {
      var i := 0;
      while i < |runs|
        invariant 0 <= i <= |runs| && Safe()
      {
        assert runs[i] in runs;
        match runs[i] {
          case Delete(entries, token, budget) => var _ := DeleteSealed(entries, token, budget);
          case Reconcile(token, entryMatches, budget) => var _ := ReconcileArchive(token, entryMatches, budget);
        }
        i := i + 1;
      }
    }
  }

  lemma PutAndTake<K, V>(m: map<K, V>, k: K, v: V)
    ensures m[k := v] - {k} == m - {k}
  {}

  /** What the reconciliation demands of a partial source: only declared files and directories,
      and each file equal in size and content to the archive's member of its name. */
  ghost predicate WithinArchive(t: Tree, zip: Zip, m: Manifest) {
    GoodRows(m.members) && Listed(t, m.members) && DirectoriesListed(t, m) && SameContents(t, zip)
  }

  /** Each file is the manifest or has a row. */
  ghost predicate Listed(t: Tree, rows: seq<Row>) {
    forall p :: p in t.files ==> p == MANIFEST || exists row :: row in rows && ParsePath(row.path) == Some(p)
  }

  predicate SameContents(t: Tree, zip: Zip) {
    forall p :: p in t.files ==> Name(p) in zip && t.files[p] == zip[Name(p)]
  }

  predicate DirectoriesListed(t: Tree, m: Manifest) {
    forall d :: d in t.dirs ==> Some(d) in Parsed(m.directories)
  }

  lemma ListedIff(t: Tree, declared: map<Rel, Row>, rows: seq<Row>)
    requires Tabulates(declared, rows)
    ensures Listed(t, rows) <==> t.files.Keys <= declared.Keys + {MANIFEST}
  {
    forall p ensures p in declared <==> exists row :: row in rows && ParsePath(row.path) == Some(p) {}
  }

  method SourceMatches(t: Tree, zip: Zip) returns (ok: bool)
    requires Name(MANIFEST) in zip && zip[Name(MANIFEST)].Document?
    ensures ok <==> WithinArchive(t, zip, zip[Name(MANIFEST)].manifest)
  {
    var m := zip[Name(MANIFEST)].manifest;
    var declared, sound := ReadRows(m.members);
    if !sound {
      return false;
    }
    ListedIff(t, declared, m.members);
    ok := t.files.Keys <= declared.Keys + {MANIFEST} && DirectoriesListed(t, m) && SameContents(t, zip);
  }

  /** Any remnant of a sealed bundle passes. */
  lemma {:induction false} RemnantWithin(t: Tree, original: Tree)
    requires Remnant(t, original) && MANIFEST in original.files && original.files[MANIFEST].Document?
    requires var m := original.files[MANIFEST].manifest;
             DirectoriesAre(m.directories, original.dirs) && Lists(m.members, original.files)
    ensures Name(MANIFEST) in Bridge(original) && Bridge(original)[Name(MANIFEST)] == original.files[MANIFEST]
    ensures WithinArchive(t, Bridge(original), original.files[MANIFEST].manifest)
  {
    ZippedFile(original.files, Directories(original), MANIFEST);
    forall p | p in t.files ensures Name(p) in Bridge(original) && t.files[p] == Bridge(original)[Name(p)] {
      ZippedFile(original.files, Directories(original), p);
    }
    forall d | d in t.dirs ensures Some(d) in Parsed(Directories(original)) {
      assert Some(d) in set e | e in original.dirs :: Some(e);
    }
  }

  /** A remnant that passes the manifest check is the whole bundle. */
  lemma {:induction false} VerifiedRemnantIsWhole(t: Tree, original: Tree, root: string)
    requires Remnant(t, original) && Verified(original, root) && Verified(t, root)
    ensures t == original
  {
    var m := t.files[MANIFEST].manifest;
    assert original.files[MANIFEST].manifest == m;
    forall p | p in original.files && p != MANIFEST ensures p in t.files {
      var row :| row in m.members && ParsePath(row.path) == Some(p);
    }
    assert t.files == original.files;
    forall d | d in original.dirs ensures d in t.dirs {
      assert Some(d) in Parsed(m.directories);
    }
  }

  /** Every member has its real hash, whatever its stat. */
  predicate HashesReal(files: map<Rel, Content>, entries: map<Rel, Entry>) {
    entries.Keys == files.Keys && forall p :: p in files ==> entries[p].sha == Some(files[p])
  }

  /** The planner leaves the hash of every production-backup member blank. */
  predicate PlannedBlank(entries: map<Rel, Entry>) {
    forall p :: p in entries ==> entries[p].sha.None?
  }

  /** A sealed bundle has at least its manifest, so a plan with blank hashes never deletes it. */
  lemma {:induction false} BlankPlanIsNotReal(t: Tree, name: string, entries: map<Rel, Entry>)
    requires Verified(t, name) && PlannedBlank(entries)
    ensures !HashesReal(t.files, entries)
  {
    assert MANIFEST in t.files;
  }

  /** The check of a partial source accepts exactly the remnants of the sealed bundle. */
  lemma WithinIffRemnant(t: Tree, original: Tree, root: string)
    requires Verified(original, root)
    ensures WithinArchive(t, Bridge(original), original.files[MANIFEST].manifest) <==>
              && (forall d :: d in t.dirs ==> d in original.dirs)
              && forall p :: p in t.files ==> p in original.files && t.files[p] == original.files[p]
  {
    if WithinArchive(t, Bridge(original), original.files[MANIFEST].manifest) {
      forall p | p in t.files ensures p in original.files && t.files[p] == original.files[p] {
        ZippedFileIfListed(original, root, p);
      }
      forall d | d in t.dirs ensures d in original.dirs {
        assert Some(d) in Parsed(Directories(original));
      }
    } else if Remnant(t, original) {
      RemnantWithin(t, original);
      assert false;
    }
  }

  lemma ZippedFileIfListed(original: Tree, root: string, p: Rel)
    requires Verified(original, root)
    requires p == MANIFEST ||
               exists row :: row in original.files[MANIFEST].manifest.members && ParsePath(row.path) == Some(p)
    ensures p in original.files && Name(p) in Bridge(original) && Bridge(original)[Name(p)] == original.files[p]
  {
    ZippedFile(original.files, Directories(original), p);
  }

  /** What counts as real: the plan names every file of the bundle and no other, each with its own
      content; then the deletion of that bundle can complete. */
  lemma RealMeans(files: map<Rel, Content>, entries: map<Rel, Entry>)
    ensures HashesReal(files, entries) <==>
              && (forall p :: p in entries <==> p in files)
              && forall p :: p in files ==> p in entries && entries[p].sha.Some? && entries[p].sha.value == files[p]
    ensures RealEntries(files, entries) <==>
              HashesReal(files, entries) && forall p :: p in entries ==> entries[p].statMatches
  {}
}
