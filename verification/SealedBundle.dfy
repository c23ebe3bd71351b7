/** Sealed backup transactions (artifact_retention.py).

    A digest is modelled by the content itself, and the JSON length of a manifest is whatever
    the encoder made of it. */
module SealedBundle {
  import opened Texts
  import opened BundlePaths

  const MANIFEST: Rel := [".speedtree-backup-bundle.json"]
  const MAX_RECEIPT_BYTES := 32 * 1024 * 1024

  datatype Content = Bytes(size: nat, id: int) | Document(encoded: nat, manifest: Manifest)

  /** A member row as the manifest's text has it. */
  datatype Row = Row(path: string, bytes: int, sha: Content)

  /** `sound`: kind, schemas, complete membership and a registered producer; `named`: a
      transaction id. */
  datatype Manifest = Manifest(sound: bool, named: bool, basename: string, directories: seq<string>, members: seq<Row>)

  /** A directory tree. */
  datatype Tree = Tree(files: map<Rel, Content>, dirs: set<Rel>)

  function Size(c: Content): nat {
    match c
    case Bytes(size, _) => size
    case Document(encoded, _) => encoded
  }

  function Parsed(texts: seq<string>): set<Option<Rel>> {
    set x | x in texts :: ParsePath(x)
  }

  /** The texts are all proper paths, and name exactly these directories. */
  predicate DirectoriesAre(texts: seq<string>, dirs: set<Rel>) {
    Parsed(texts) == set d | d in dirs :: Some(d)
  }

  /** The manifest lists exactly the other files of the tree, with their sizes and contents. */
  ghost predicate Lists(rows: seq<Row>, files: map<Rel, Content>) {
    && GoodRows(rows)
    && (forall p :: p in files && p != MANIFEST <==> exists row :: row in rows && ParsePath(row.path) == Some(p))
    && (forall row :: row in rows ==>
         var p := ParsePath(row.path).value;
         p in files && row.bytes == Size(files[p]) && row.sha == files[p])
  }

  /** What `verify_backup_transaction_manifest` certifies. */
  ghost predicate Verified(t: Tree, name: string) {
    && MANIFEST in t.files && t.files[MANIFEST].Document? && t.files[MANIFEST].encoded <= MAX_RECEIPT_BYTES
    && var m := t.files[MANIFEST].manifest;
       m.sound && m.named && m.basename == name && DirectoriesAre(m.directories, t.dirs) && Lists(m.members, t.files)
  }

  /** Proper paths, none twice and none reserved. */
  ghost predicate GoodRows(rows: seq<Row>) {
    && (forall i, j :: 0 <= i < j < |rows| ==> ParsePath(rows[i].path) != ParsePath(rows[j].path))
    && forall row :: row in rows ==> ParsePath(row.path).Some? && ParsePath(row.path) != Some(MANIFEST)
  }

  ghost predicate Tabulates(declared: map<Rel, Row>, rows: seq<Row>) {
    && (forall row :: row in rows ==>
         ParsePath(row.path).Some? && ParsePath(row.path).value in declared &&
             declared[ParsePath(row.path).value] == row)
    && forall p :: p in declared ==> declared[p] in rows && ParsePath(declared[p].path) == Some(p)
  }

  lemma GoodRowsSnoc(rows: seq<Row>, row: Row)
    ensures GoodRows(rows + [row]) <==>
              && GoodRows(rows) && ParsePath(row.path).Some? && ParsePath(row.path) != Some(MANIFEST)
              && forall r :: r in rows ==> ParsePath(r.path) != ParsePath(row.path)
  {
    var more := rows + [row];
    assert forall r :: r in more <==> r in rows || r == row;
    if GoodRows(more) {
      assert forall i :: 0 <= i < |rows| ==> more[i] == rows[i];
      forall r | r in rows ensures ParsePath(r.path) != ParsePath(row.path) {
        var i :| 0 <= i < |rows| && rows[i] == r;
        assert ParsePath(more[i].path) != ParsePath(more[|rows|].path);
      }
    }
  }

  lemma NotGoodPrefix(rows: seq<Row>, i: nat)
    requires i <= |rows| && !GoodRows(rows[..i])
    ensures !GoodRows(rows)
  {
    assert forall j :: 0 <= j < i ==> rows[..i][j] == rows[j];
  }

  lemma TabulatesSnoc(declared: map<Rel, Row>, rows: seq<Row>, row: Row)
    requires Tabulates(declared, rows) && ParsePath(row.path).Some?
    ensures var p := ParsePath(row.path).value;
            && (p in declared <==> exists r :: r in rows && ParsePath(r.path) == Some(p))
            && (p !in declared ==> Tabulates(declared[p := row], rows + [row]))
  {
    var p := ParsePath(row.path).value;
    assert forall r :: r in rows + [row] <==> r in rows || r == row;
  }

  predicate Readable(declared: map<Rel, Row>, row: Row) {
    ParsePath(row.path).Some? && ParsePath(row.path).value != MANIFEST && ParsePath(row.path).value !in declared
  }

  lemma NextRow(declared: map<Rel, Row>, rows: seq<Row>, i: nat)
    requires i < |rows| && GoodRows(rows[..i]) && Tabulates(declared, rows[..i])
    ensures Readable(declared, rows[i]) <==> GoodRows(rows[..i + 1])
    ensures Readable(declared, rows[i]) ==> Tabulates(declared[ParsePath(rows[i].path).value := rows[i]], rows[..i + 1])
    ensures !Readable(declared, rows[i]) ==> !GoodRows(rows)
  {
    assert rows[..i + 1] == rows[..i] + [rows[i]];
    GoodRowsSnoc(rows[..i], rows[i]);
    if ParsePath(rows[i].path).Some? {
      TabulatesSnoc(declared, rows[..i], rows[i]);
    }
    if !GoodRows(rows[..i + 1]) {
      NotGoodPrefix(rows, i + 1);
    }
  }

  /** Read the rows into a table; an improper, repeated or reserved path is an error. */
  method ReadRows(rows: seq<Row>) returns (declared: map<Rel, Row>, ok: bool)
    ensures ok <==> GoodRows(rows)
    ensures ok ==> Tabulates(declared, rows)
  {
    declared := map[];
    var i := 0;
    while i < |rows|
      invariant 0 <= i <= |rows| && GoodRows(rows[..i]) && Tabulates(declared, rows[..i])
    {
      NextRow(declared, rows, i);
      if !Readable(declared, rows[i]) {
        return declared, false;
      }
      declared := declared[ParsePath(rows[i].path).value := rows[i]];
      i := i + 1;
    }
    assert rows[..i] == rows;
    return declared, true;
  }

  /** `verify_backup_transaction_manifest`: it succeeds exactly when files, directories, sizes
      and contents equal the sealed ones. */
  method VerifyTransaction(t: Tree, name: string) returns (valid: bool)
    ensures valid <==> Verified(t, name)
  {
    if MANIFEST !in t.files || !t.files[MANIFEST].Document? || t.files[MANIFEST].encoded > MAX_RECEIPT_BYTES {
      return false;
    }
    var m := t.files[MANIFEST].manifest;
    if !m.sound || !m.named || m.basename != name || !DirectoriesAre(m.directories, t.dirs) {
      return false;
    }
    var declared, ok := ReadRows(m.members);
    if !ok {
      return false;
    }
    assert (forall p :: p in declared <==> exists row :: row in m.members && ParsePath(row.path) == Some(p));
    if declared.Keys != t.files.Keys - {MANIFEST} {
      assert !Lists(m.members, t.files);
      return false;
    }
    if exists p :: p in declared && (declared[p].bytes != Size(t.files[p]) || declared[p].sha != t.files[p]) {
      return false;
    }
    assert Lists(m.members, t.files);
    return true;
  }

  /** The sealer's own form of directory texts. */
  predicate Plain(texts: seq<string>) {
    forall x :: x in texts ==> ParsePath(x).Some? && x == Name(ParsePath(x).value)
  }

  method ListDirectories(dirs: set<Rel>) returns (texts: seq<string>)
    ensures DirectoriesAre(texts, dirs) && Plain(texts)
  {
    texts := [];
    var todo := dirs;
    while todo != {}
      invariant todo <= dirs && DirectoriesAre(texts, dirs - todo) && Plain(texts)
      decreases todo
    {
      var d :| d in todo;
      NameParses(d);
      assert Parsed(texts + [Name(d)]) == Parsed(texts) + {Some(d)};
      assert dirs - (todo - {d}) == (dirs - todo) + {d};
      texts, todo := texts + [Name(d)], todo - {d};
    }
    assert dirs - todo == dirs;
  }

  /** The rows written for some files. */
  ghost predicate RowsFor(rows: seq<Row>, files: map<Rel, Content>, done: set<Rel>) {
    && GoodRows(rows)
    && (forall row :: row in rows ==>
         ParsePath(row.path).Some?
         && var p := ParsePath(row.path).value;
            p in files && p in done && row.bytes == Size(files[p]) && row.sha == files[p])
    && forall p :: p in done ==> exists row :: row in rows && ParsePath(row.path) == Some(p)
  }

  lemma RowsForSnoc(rows: seq<Row>, files: map<Rel, Content>, done: set<Rel>, p: Rel)
    requires RowsFor(rows, files, done) && p in files && p !in done && p != MANIFEST
    ensures RowsFor(rows + [Row(Name(p), Size(files[p]), files[p])], files, done + {p})
  {
    var row := Row(Name(p), Size(files[p]), files[p]);
    NameParses(p);
    GoodRowsSnoc(rows, row);
    assert forall r :: r in rows + [row] <==> r in rows || r == row;
  }

  method ListMembers(files: map<Rel, Content>) returns (rows: seq<Row>)
    requires MANIFEST !in files
    ensures RowsFor(rows, files, files.Keys)
  {
    rows := [];
    var todo := files.Keys;
    while todo != {}
      invariant todo <= files.Keys && RowsFor(rows, files, files.Keys - todo)
      decreases todo
    {
      var p :| p in todo;
      RowsForSnoc(rows, files, files.Keys - todo, p);
      assert files.Keys - (todo - {p}) == (files.Keys - todo) + {p};
      rows, todo := rows + [Row(Name(p), Size(files[p]), files[p])], todo - {p};
    }
    assert files.Keys - todo == files.Keys;
  }

  // ---- What verification is worth ----

  /** A sealed bundle leaves no freedom: a tree with the same manifest verifies exactly when it is
      the same tree. So any file added, lost or changed, and any directory, is noticed. */
  lemma TamperingIsNoticed(t: Tree, u: Tree, name: string)
    requires Verified(t, name) && MANIFEST in u.files && u.files[MANIFEST] == t.files[MANIFEST]
    ensures Verified(u, name) <==> u == t
  {
    if Verified(u, name) {
      SameFiles(t, u, name);
      SameDirectories(t, u, t.files[MANIFEST].manifest.directories);
    }
  }

  lemma SameFiles(t: Tree, u: Tree, name: string)
    requires Verified(t, name) && Verified(u, name) && u.files[MANIFEST] == t.files[MANIFEST]
    ensures u.files == t.files
  {
    var rows := t.files[MANIFEST].manifest.members;
    forall p | p != MANIFEST ensures p in u.files <==> p in t.files {}
    forall p | p in t.files && p != MANIFEST ensures p in u.files && u.files[p] == t.files[p] {
      var row :| row in rows && ParsePath(row.path) == Some(p);
      assert row.sha == t.files[p] && row.sha == u.files[p];
    }
    assert u.files.Keys == t.files.Keys;
  }

  lemma SameDirectories(t: Tree, u: Tree, texts: seq<string>)
    requires DirectoriesAre(texts, t.dirs) && DirectoriesAre(texts, u.dirs)
    ensures u.dirs == t.dirs
  {
    forall d ensures d in u.dirs <==> d in t.dirs {
      assert Some(d) in Parsed(texts) <==> d in t.dirs;
      assert Some(d) in Parsed(texts) <==> d in u.dirs;
    }
  }

  /** Exactly when a tree verifies under a name, for the manifest in it: 32 MiB at most, of the right
      kind, with a transaction id and this name; each text of a directory is a path, and they name
      the directories of the tree; the rows are paths, each once, and say what the files are. */
  lemma VerifiedIff(t: Tree, name: string, encoded: nat, m: Manifest)
    requires MANIFEST in t.files && t.files[MANIFEST] == Document(encoded, m)
    ensures Verified(t, name) <==>
              && encoded <= 33_554_432 && m.sound && m.named && m.basename == name
              && (forall x :: x in m.directories ==> ParsePath(x).Some? && ParsePath(x).value in t.dirs)
              && (forall d :: d in t.dirs ==> exists x :: x in m.directories && ParsePath(x) == Some(d))
              && (forall row :: row in m.members ==>
                  ParsePath(row.path).Some? && RowFits(t, row, ParsePath(row.path).value))
              && (forall i, j :: 0 <= i < j < |m.members| ==>
                  ParsePath(m.members[i].path) != ParsePath(m.members[j].path))
              && forall p :: p in t.files && p != MANIFEST ==>
                  exists row :: row in m.members && ParsePath(row.path) == Some(p)
  {
    DirectoriesIff(m.directories, t.dirs);
  }

  predicate RowFits(t: Tree, row: Row, p: Rel) {
    p != MANIFEST && p in t.files && row.sha == t.files[p]
    && row.bytes == match t.files[p] { case Bytes(size, _) => size case Document(encoded, _) => encoded }
  }

  lemma DirectoriesIff(texts: seq<string>, dirs: set<Rel>)
    ensures DirectoriesAre(texts, dirs) <==>
              && (forall x :: x in texts ==> ParsePath(x).Some? && ParsePath(x).value in dirs)
              && forall d :: d in dirs ==> exists x :: x in texts && ParsePath(x) == Some(d)
  {
    var wanted := set d | d in dirs :: Some(d);
    if DirectoriesAre(texts, dirs) {
      forall x | x in texts ensures ParsePath(x).Some? && ParsePath(x).value in dirs {
        assert ParsePath(x) in Parsed(texts);
      }
      forall d | d in dirs ensures exists x :: x in texts && ParsePath(x) == Some(d) {
        assert Some(d) in wanted && Some(d) in Parsed(texts);
      }
    }
    if && (forall x :: x in texts ==> ParsePath(x).Some? && ParsePath(x).value in dirs)
       && forall d :: d in dirs ==> exists x :: x in texts && ParsePath(x) == Some(d)
    {
      forall o ensures o in Parsed(texts) <==> o in wanted {
        if o in wanted { assert o.Some? && o.value in dirs; }
      }
    }
  }

  class Transaction {
    var tree: Tree
    const name: string

    constructor (found: Tree, name: string)
      ensures tree == found && this.name == name
    {
      tree, this.name := found, name;
    }

    /** `seal_backup_transaction`: the caller must name every file. `encoded` is the length of
        the manifest text. A manifest is written exactly when the first checks pass; when it is
        too long or has a blank transaction id, it fails to verify and is left behind. */
    method Seal(declared: set<Rel>, registered: bool, transactionNamed: bool, encoded: nat) returns (ok: bool)
      modifies this
      ensures ok <==> old(Sealable(declared, registered)) && transactionNamed && encoded <= MAX_RECEIPT_BYTES
      ensures ok ==> Verified(tree, name) && Plain(tree.files[MANIFEST].manifest.directories)
      ensures tree != old(tree) <==> old(Sealable(declared, registered))
      ensures tree != old(tree) ==> MANIFEST in tree.files && tree.files - {MANIFEST} == old(tree).files
      ensures tree.dirs == old(tree).dirs
      ensures tree != old(tree) && !ok ==> !Verified(tree, name)
    {
      if !Sealable(declared, registered) {
        return false;
      }
      var rows := ListMembers(tree.files);
      var directories := ListDirectories(tree.dirs);
      var m := Manifest(true, transactionNamed, name, directories, rows);
      ghost var before := tree.files;
      tree := tree.(files := tree.files[MANIFEST := Document(encoded, m)]);
      assert tree.files - {MANIFEST} == before;
      assert Lists(rows, tree.files);
      ok := VerifyTransaction(tree, name);
    }

    predicate Sealable(declared: set<Rel>, registered: bool)
      reads this
    {
      MANIFEST !in tree.files && registered && declared == tree.files.Keys
    }

    /** Sealing again after any seal that wrote a manifest, be it one that failed, is refused
        and changes nothing, whatever the second caller passes. */
    method SealAgain(
        declared: set<Rel>, transactionNamed: bool, encoded: nat, again: set<Rel>, registered: bool, named: bool,
        length: nat)
        returns (first: bool, second: bool)
      requires Sealable(declared, true)
      modifies this
      ensures first <==> transactionNamed && encoded <= MAX_RECEIPT_BYTES
      ensures !second && MANIFEST in tree.files
      ensures !first ==> !Verified(tree, name)
    {
      first := Seal(declared, true, transactionNamed, encoded);
      second := Seal(again, registered, named, length);
    }
  }
}
