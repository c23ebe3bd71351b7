/** The ZIP beside a sealed directory while it is deleted (artifact_retention.py).

    A ZIP is a table from member names to contents, without any directory tree: a directory is
    the name with a slash at its end. Backslashes in names become slashes, as Python's zipfile
    does on Windows. */
module RecoveryArchive {
  import opened Texts
  import opened BundlePaths
  import opened SealedBundle

  type Zip = map<string, Content>

  const NOTHING := Bytes(0, 0)

  // ---- The members that are written and expected ----

  lemma NamesDiffer()
    ensures forall p, q :: Name(p) == Name(q) ==> p == q
  {
    forall p, q | Name(p) == Name(q) ensures p == q {
      NameParses(p);
      NameParses(q);
    }
  }

  function FileMembers(files: map<Rel, Content>): (zip: Zip)
    ensures forall p :: p in files ==> Name(p) in zip && zip[Name(p)] == files[p]
    ensures forall n :: n in zip ==> exists p :: p in files && n == Name(p)
  {
    NamesDiffer();
    map p | p in files :: Name(p) := files[p]
  }

  function Entry(directory: string): string { Strip(directory) + "/" }

  function DirectoryMembers(directories: seq<string>): (zip: Zip)
    ensures forall x :: x in directories ==> Slashed(Entry(x)) in zip
    ensures forall n :: n in zip ==> zip[n] == NOTHING && exists x :: x in directories && n == Slashed(Entry(x))
  {
    if directories == [] then map[]
    else DirectoryMembers(directories[..|directories| - 1])[Slashed(Entry(directories[|directories| - 1])) := NOTHING]
  }

  /** The archive of some files and of the manifest's directory texts. */
  function Zipped(files: map<Rel, Content>, directories: seq<string>): Zip {
    DirectoryMembers(directories) + FileMembers(files)
  }

  /** The names that the check after writing expects. */
  function Expected(paths: set<Rel>, directories: seq<string>): set<string> {
    (set p | p in paths :: Name(p)) + set x | x in directories :: Entry(x)
  }

  predicate IsDirectory(name: string) { name != "" && name[|name| - 1] == '/' }

  predicate NamesFile(files: map<Rel, Content>, n: string) {
    exists p :: p in files && n == Name(p)
  }

  predicate NamesDirectory(directories: seq<string>, n: string) {
    exists x :: x in directories && n == Slashed(Entry(x))
  }

  /** A ZIP's names are those of its files and directories, and a slash at the end tells which. */
  lemma ZippedAt(files: map<Rel, Content>, directories: seq<string>, n: string)
    ensures n in Zipped(files, directories) <==> NamesFile(files, n) || NamesDirectory(directories, n)
    ensures NamesFile(files, n) ==> !IsDirectory(n)
    ensures NamesDirectory(directories, n) ==> IsDirectory(n)
  {
    if NamesFile(files, n) {
      var p :| p in files && n == Name(p);
      NameChars(p);
    }
  }

  lemma ZippedFile(files: map<Rel, Content>, directories: seq<string>, p: Rel)
    requires p in files
    ensures Name(p) in Zipped(files, directories) && Zipped(files, directories)[Name(p)] == files[p]
  {}

  // ---- Writing the archive ----

  lemma OneMoreDirectory(directories: seq<string>, i: nat)
    requires i < |directories|
    ensures DirectoryMembers(directories[..i + 1]) ==
        DirectoryMembers(directories[..i])[Slashed(Entry(directories[i])) := NOTHING]
  {
    assert directories[..i + 1][..i] == directories[..i];
  }

  lemma OneMoreName(files: map<Rel, Content>, todo: set<Rel>, p: Rel)
    requires p in files && p in todo
    ensures FileMembers(files - (todo - {p})) == FileMembers(files - todo)[Name(p) := files[p]]
  {
    NamesDiffer();
  }

  lemma UpdateRight<K, V>(a: map<K, V>, b: map<K, V>, k: K, v: V)
    ensures a + b[k := v] == (a + b)[k := v]
  {}

  lemma OneMoreFile(first: Zip, files: map<Rel, Content>, todo: set<Rel>, p: Rel)
    requires p in files && p in todo
    ensures first + FileMembers(files - (todo - {p})) == (first + FileMembers(files - todo))[Name(p) := files[p]]
  {
    OneMoreName(files, todo, p);
    UpdateRight(first, FileMembers(files - todo), Name(p), files[p]);
  }

  method WriteDirectories(directories: seq<string>) returns (zip: Zip)
    ensures zip == DirectoryMembers(directories)
  {
    zip := map[];
    var i := 0;
    while i < |directories|
      invariant 0 <= i <= |directories| && zip == DirectoryMembers(directories[..i])
    {
      OneMoreDirectory(directories, i);
      zip := zip[Slashed(Entry(directories[i])) := NOTHING];
      i := i + 1;
    }
    assert directories[..i] == directories;
  }

  /** The writer: directory entries first, then the files. */
  method WriteArchive(files: map<Rel, Content>, directories: seq<string>) returns (zip: Zip)
    ensures zip == Zipped(files, directories)
  {
    zip := WriteDirectories(directories);
    ghost var first := zip;
    var todo := files.Keys;
    assert FileMembers(files - todo) == map[] && first + map[] == first;
    while todo != {}
      invariant todo <= files.Keys && zip == first + FileMembers(files - todo)
      decreases todo
    {
      var p :| p in todo;
      OneMoreFile(first, files, todo, p);
      zip, todo := zip[Name(p) := files[p]], todo - {p};
    }
    assert files - todo == files;
  }

  /** The check right after writing: exactly the expected names, and the planned hashes. */
  method Recheck(zip: Zip, hashes: map<Rel, Option<Content>>, directories: seq<string>) returns (ok: bool)
    ensures ok <==>
              && zip.Keys == Expected(hashes.Keys, directories)
              && forall p :: p in hashes ==> Name(p) in zip && hashes[p] == Some(zip[Name(p)])
  {
    if zip.Keys != Expected(hashes.Keys, directories) {
      return false;
    }
    var todo := hashes.Keys;
    while todo != {}
      invariant todo <= hashes.Keys
      invariant forall p :: p in hashes && p !in todo ==> Name(p) in zip && hashes[p] == Some(zip[Name(p)])
      decreases todo
    {
      var p :| p in todo;
      assert Name(p) in Expected(hashes.Keys, directories);
      if hashes[p] != Some(zip[Name(p)]) {
        return false;
      }
      todo := todo - {p};
    }
    return true;
  }

  predicate NoBackslash(directories: seq<string>) {
    forall x :: x in directories ==> '\\' !in x
  }

  lemma NamesExpected(files: map<Rel, Content>, directories: seq<string>)
    requires NoBackslash(directories)
    ensures Zipped(files, directories).Keys == Expected(files.Keys, directories)
  {
    forall x | x in directories ensures Slashed(Entry(x)) == Entry(x) { EntryChars(x); }
    forall n ensures n in Zipped(files, directories) <==> n in Expected(files.Keys, directories) {
      ZippedAt(files, directories, n);
    }
  }

  lemma BackslashUnexpected(files: map<Rel, Content>, directories: seq<string>, x: string)
    requires x in directories && '\\' in x
    ensures Entry(x) in Expected(files.Keys, directories) && Entry(x) !in Zipped(files, directories)
  {
    EntryChars(x);
    ZippedAt(files, directories, Entry(x));
  }

  /** The archive just written passes that check exactly when no directory text has a
      backslash and every planned hash is real. */
  lemma RecheckMeaning(files: map<Rel, Content>, hashes: map<Rel, Option<Content>>, directories: seq<string>)
    requires hashes.Keys == files.Keys
    ensures var zip := Zipped(files, directories);
            (zip.Keys == Expected(hashes.Keys, directories)
              && forall p :: p in hashes ==> Name(p) in zip && hashes[p] == Some(zip[Name(p)]))
            <==> NoBackslash(directories) && forall p :: p in files ==> hashes[p] == Some(files[p])
  {
    forall p | p in files
      ensures Name(p) in Zipped(files, directories) && Zipped(files, directories)[Name(p)] == files[p]
    {
      ZippedFile(files, directories, p);
    }
    if NoBackslash(directories) {
      NamesExpected(files, directories);
    } else {
      var x :| x in directories && '\\' in x;
      BackslashUnexpected(files, directories, x);
    }
  }

  /** Stripping slashes keeps the backslashes. */
  lemma {:induction false} StripKeeps(x: string)
    ensures '\\' in Strip(x) <==> '\\' in x
  {
    if x != "" && x[|x| - 1] == '/' {
      StripKeeps(x[..|x| - 1]);
      assert x == x[..|x| - 1] + ['/'];
    }
  }

  lemma EntryChars(x: string)
    ensures '\\' in x ==> '\\' in Entry(x)
    ensures '\\' !in x ==> Slashed(Entry(x)) == Entry(x)
  {
    StripKeeps(x);
  }

  // ---- Archive names ----

  const INFIX := ".retention_delete_"
  const SUFFIX := ".zip"

  predicate IsHex(c: char) {
    '0' <= c <= '9' || 'a' <= FoldChar(c) <= 'f'
  }

  predicate IsToken(s: string) {
    |s| == 32 && forall i :: 0 <= i < |s| ==> IsHex(s[i])
  }

  function ArchiveName(root: string, token: string): string {
    "." + root + INFIX + token + SUFFIX
  }

  /** A transaction name that stays one component beside its archive. */
  predicate SafeName(t: string) {
    && t != "" && t != "." && t != ".." && '/' !in t && '\\' !in t && '\n' !in t
  }

  /** The archive file name pattern, ignoring case, with the checks on the name inside it. */
  function ParseArchiveName(name: string): Option<string> {
    var n, tail := |name|, |INFIX| + 32 + |SUFFIX|;
    if n < 2 + tail || name[0] != '.' then None
    else
      var t := name[1..n - tail];
      if Fold(name[n - tail..n - tail + |INFIX|]) == INFIX && IsToken(name[n - tail + |INFIX|..n - |SUFFIX|])
         && Fold(name[n - |SUFFIX|..]) == SUFFIX && SafeName(t)
      then Some(t) else None
  }

  /** An archive's file name parses back to its bundle's name, exactly for safe names. */
  lemma ArchiveNameParses(root: string, token: string)
    requires IsToken(token)
    ensures ParseArchiveName(ArchiveName(root, token)) == if SafeName(root) then Some(root) else None
  {
    var name, tail := ArchiveName(root, token), |INFIX| + 32 + |SUFFIX|;
    var n := |name|;
    assert name[1..n - tail] == root;
    assert name[n - tail..n - tail + |INFIX|] == INFIX;
    assert name[n - tail + |INFIX|..n - |SUFFIX|] == token;
    assert name[n - |SUFFIX|..] == SUFFIX;
    assert Fold(INFIX) == INFIX && Fold(SUFFIX) == SUFFIX;
  }

  // ---- Verifying a retained archive ----

  function RowNames(rows: seq<Row>): set<string> {
    set row | row in rows && ParsePath(row.path).Some? :: Name(ParsePath(row.path).value)
  }

  function DirectoryNames(directories: seq<string>): set<string> {
    set x | x in directories && ParsePath(x).Some? :: Name(ParsePath(x).value) + "/"
  }

  /** All names that the verifier expects. */
  function Declared(m: Manifest): set<string> {
    RowNames(m.members) + DirectoryNames(m.directories) + {Name(MANIFEST)}
  }

  predicate RowHolds(zip: Zip, row: Row) {
    && ParsePath(row.path).Some?
    && var n := Name(ParsePath(row.path).value);
       n in zip && row.bytes == Size(zip[n]) && row.sha == zip[n]
  }

  /** What `verify_retained_recovery_archive` certifies of a ZIP and its file name. The
      transaction id is not among it. */
  ghost predicate ArchiveVerified(zip: Zip, name: string) {
    && Name(MANIFEST) in zip && zip[Name(MANIFEST)].Document? && zip[Name(MANIFEST)].encoded <= MAX_RECEIPT_BYTES
    && var m := zip[Name(MANIFEST)].manifest;
       && m.sound && ParseArchiveName(name) == Some(m.basename)
       && GoodRows(m.members) && None !in Parsed(m.directories)
       && zip.Keys == Declared(m)
       && forall row :: row in m.members ==> RowHolds(zip, row)
  }

  /** `verify_retained_recovery_archive`, over the flat names. */
  method VerifyArchive(zip: Zip, name: string) returns (valid: bool)
    ensures valid <==> ArchiveVerified(zip, name)
  {
    if Name(MANIFEST) !in zip || !zip[Name(MANIFEST)].Document? || zip[Name(MANIFEST)].encoded > MAX_RECEIPT_BYTES {
      return false;
    }
    var m := zip[Name(MANIFEST)].manifest;
    if !m.sound || ParseArchiveName(name) != Some(m.basename) {
      return false;
    }
    var declared, ok := ReadRows(m.members);
    if !ok || None in Parsed(m.directories) {
      return false;
    }
    TableNames(declared, m.members);
    if zip.Keys != (set p | p in declared :: Name(p)) + DirectoryNames(m.directories) + {Name(MANIFEST)} {
      return false;
    }
    valid := RowsHold(zip, declared, m.members);
  }

  lemma TableNames(declared: map<Rel, Row>, rows: seq<Row>)
    requires Tabulates(declared, rows)
    ensures (set p | p in declared :: Name(p)) == RowNames(rows)
  {
    forall p | p in declared ensures Name(p) in RowNames(rows) {
      assert declared[p] in rows;
    }
  }

  method RowsHold(zip: Zip, declared: map<Rel, Row>, ghost rows: seq<Row>) returns (ok: bool)
    requires Tabulates(declared, rows) && forall p :: p in declared ==> Name(p) in zip
    ensures ok <==> forall row :: row in rows ==> RowHolds(zip, row)
  {
    var todo := declared.Keys;
    while todo != {}
      invariant todo <= declared.Keys
      invariant forall p :: p in declared && p !in todo ==> RowHolds(zip, declared[p])
      decreases todo
    {
      var p :| p in todo;
      var row, n := declared[p], Name(p);
      if row.bytes != Size(zip[n]) || row.sha != zip[n] {
        assert !RowHolds(zip, row) && row in rows;
        return false;
      }
      todo := todo - {p};
    }
    return true;
  }

  // ---- What the written archive is worth ----

  /** The paths of a ZIP's file members. */
  function Unpacked(zip: Zip): set<Rel> {
    set n | n in zip && !IsDirectory(n) && ParsePath(n).Some? :: ParsePath(n).value
  }

  /** What unpacking a ZIP gives. */
  function Extract(zip: Zip): Tree {
    Tree(map p | p in Unpacked(zip) && Name(p) in zip :: zip[Name(p)],
         set n | n in zip && IsDirectory(n) && ParsePath(n).Some? :: ParsePath(n).value)
  }

  function Directories(t: Tree): seq<string> {
    if MANIFEST in t.files && t.files[MANIFEST].Document? then t.files[MANIFEST].manifest.directories else []
  }

  /** The archive that the deletion of a bundle writes. */
  function Bridge(t: Tree): Zip { Zipped(t.files, Directories(t)) }

  /** Every directory text is, but for the slashes at its end, the text of its path. */
  predicate Canonical(directories: seq<string>) {
    forall x :: x in directories ==> ParsePath(x).Some? && Slashed(Strip(x)) == Name(ParsePath(x).value)
  }

  lemma EntryParses(x: string)
    requires ParsePath(x).Some?
    ensures ParsePath(Slashed(Strip(x))) == ParsePath(x) && ParsePath(Slashed(Entry(x))) == ParsePath(x)
  {
    ParseStripped(x);
    ParseSlash(Strip(x));
    assert forall s :: Slashed(Slashed(s)) == Slashed(s);
  }

  lemma FileUnpacks(files: map<Rel, Content>, directories: seq<string>, p: Rel)
    requires p in files
    ensures p in Unpacked(Zipped(files, directories))
  {
    NameParses(p);
    NameChars(p);
    ZippedFile(files, directories, p);
  }

  lemma OnlyFilesUnpack(files: map<Rel, Content>, directories: seq<string>, p: Rel)
    requires p in Unpacked(Zipped(files, directories))
    ensures p in files
  {
    var n :| n in Zipped(files, directories) && !IsDirectory(n) && ParsePath(n) == Some(p);
    ZippedAt(files, directories, n);
    var q :| q in files && n == Name(q);
    NameParses(q);
  }

  lemma UnpackedFiles(files: map<Rel, Content>, directories: seq<string>)
    ensures Unpacked(Zipped(files, directories)) == files.Keys
  {
    forall p | p in files ensures p in Unpacked(Zipped(files, directories)) {
      FileUnpacks(files, directories, p);
    }
    forall p | p in Unpacked(Zipped(files, directories)) ensures p in files {
      OnlyFilesUnpack(files, directories, p);
    }
  }

  /** The archive determines the bundle: it unpacks to the very tree it was written from. */
  lemma ArchiveUnpacks(t: Tree)
    requires DirectoriesAre(Directories(t), t.dirs)
    ensures Extract(Bridge(t)) == t
  {
    UnpackedFiles(t.files, Directories(t));
    forall p | p in t.files ensures Name(p) in Bridge(t) && Bridge(t)[Name(p)] == t.files[p] {
      ZippedFile(t.files, Directories(t), p);
    }
    assert Extract(Bridge(t)).files == t.files;
    UnpackedDirectories(t);
  }

  lemma UnpackedDirectories(t: Tree)
    requires DirectoriesAre(Directories(t), t.dirs)
    ensures Extract(Bridge(t)).dirs == t.dirs
  {
    var zip, texts := Bridge(t), Directories(t);
    forall d | d in t.dirs ensures d in Extract(zip).dirs {
      assert Some(d) in Parsed(texts);
      var x :| x in texts && ParsePath(x) == Some(d);
      EntryParses(x);
      ZippedAt(t.files, texts, Slashed(Entry(x)));
    }
    forall d | d in Extract(zip).dirs ensures d in t.dirs {
      var n :| n in zip && IsDirectory(n) && ParsePath(n) == Some(d);
      ZippedAt(t.files, texts, n);
      var x :| x in texts && n == Slashed(Entry(x));
      assert ParsePath(x) in Parsed(texts);
      EntryParses(x);
    }
  }

  lemma DirectoryNamesMatch(directories: seq<string>)
    requires Canonical(directories)
    ensures (set x | x in directories :: Slashed(Entry(x))) == DirectoryNames(directories)
  {
    forall x | x in directories ensures Slashed(Entry(x)) == Name(ParsePath(x).value) + "/" {
      assert Slashed(Entry(x)) == Slashed(Strip(x)) + "/";
    }
  }

  lemma RowNamesMatch(rows: seq<Row>, files: map<Rel, Content>)
    requires Lists(rows, files) && MANIFEST in files
    ensures (set p | p in files :: Name(p)) == RowNames(rows) + {Name(MANIFEST)}
  {
    forall p | p in files && p != MANIFEST ensures Name(p) in RowNames(rows) {
      var row :| row in rows && ParsePath(row.path) == Some(p);
    }
  }

  lemma BridgeKeys(t: Tree)
    ensures Bridge(t).Keys == (set p | p in t.files :: Name(p)) + set x | x in Directories(t) :: Slashed(Entry(x))
  {
    var names := (set p | p in t.files :: Name(p)) + set x | x in Directories(t) :: Slashed(Entry(x));
    forall n ensures n in Bridge(t) <==> n in names {
      ZippedAt(t.files, Directories(t), n);
    }
  }

  lemma BridgeNames(t: Tree)
    requires MANIFEST in t.files && t.files[MANIFEST].Document?
    requires Lists(t.files[MANIFEST].manifest.members, t.files) && Canonical(Directories(t))
    ensures Bridge(t).Keys == Declared(t.files[MANIFEST].manifest)
  {
    DirectoryNamesMatch(Directories(t));
    RowNamesMatch(t.files[MANIFEST].manifest.members, t.files);
    BridgeKeys(t);
  }

  lemma EntryIs(x: string, y: string)
    ensures Slashed(Entry(x)) == Slashed(Strip(x)) + "/"
    ensures Slashed(Entry(x)) == y + "/" ==> Slashed(Strip(x)) == y
  {
    assert Slashed(Entry(x))[..|Entry(x)| - 1] == Slashed(Strip(x));
    assert (y + "/")[..|y|] == y;
  }

  /** A directory text that is not canonical puts a name into the archive that the verifier
      does not expect. */
  lemma OddDirectory(directories: seq<string>, x: string)
    requires x in directories && ParsePath(x).Some? && Slashed(Strip(x)) != Name(ParsePath(x).value)
    ensures Slashed(Entry(x)) !in DirectoryNames(directories)
  {
    if Slashed(Entry(x)) in DirectoryNames(directories) {
      var y :| y in directories && ParsePath(y).Some? && Slashed(Entry(x)) == Name(ParsePath(y).value) + "/";
      EntryIs(x, Name(ParsePath(y).value));
      EntryParses(x);
      NameParses(ParsePath(y).value);
    }
  }

  lemma NotARowName(rows: seq<Row>, n: string)
    requires IsDirectory(n)
    ensures n !in RowNames(rows) && n != Name(MANIFEST)
  {
    NameChars(MANIFEST);
    forall row | row in rows && ParsePath(row.path).Some? ensures n != Name(ParsePath(row.path).value) {
      NameChars(ParsePath(row.path).value);
    }
  }

  lemma BridgeHasEntry(t: Tree, x: string)
    requires x in Directories(t)
    ensures Slashed(Entry(x)) in Bridge(t)
  {}

  lemma NotDeclared(m: Manifest, n: string)
    requires IsDirectory(n) && n !in DirectoryNames(m.directories)
    ensures n !in Declared(m)
  {
    NotARowName(m.members, n);
  }

  lemma OddNameUnexpected(m: Manifest, x: string)
    requires x in m.directories
    requires ParsePath(x).Some? && Slashed(Strip(x)) != Name(ParsePath(x).value)
    ensures Slashed(Entry(x)) !in Declared(m)
  {
    OddDirectory(m.directories, x);
    EntryIsDirectory(x);
    NotDeclared(m, Slashed(Entry(x)));
  }

  lemma EntryIsDirectory(x: string)
    ensures IsDirectory(Slashed(Entry(x)))
  {
  }

  lemma BridgeRows(t: Tree, rows: seq<Row>)
    requires Lists(rows, t.files)
    ensures forall row :: row in rows ==> RowHolds(Bridge(t), row)
  {
    forall row | row in rows ensures RowHolds(Bridge(t), row) {
      ZippedFile(t.files, Directories(t), ParsePath(row.path).value);
    }
  }

  /** Besides its names, everything about the written archive is as the verifier wants it. */
  lemma BridgeOtherwiseFine(t: Tree, root: string, token: string)
    requires Verified(t, root) && SafeName(root) && IsToken(token)
    ensures ArchiveVerified(Bridge(t), ArchiveName(root, token)) <==>
        Bridge(t).Keys == Declared(t.files[MANIFEST].manifest)
  {
    ArchiveNameParses(root, token);
    ZippedFile(t.files, Directories(t), MANIFEST);
    BridgeRows(t, t.files[MANIFEST].manifest.members);
    assert None !in Parsed(t.files[MANIFEST].manifest.directories);
  }

  /** The archive written from a verified bundle is accepted by the archive verifier, under the
      name the deletion gives it, exactly when the manifest's directory texts are canonical. */
  lemma WrittenArchiveAccepted(t: Tree, root: string, token: string)
    requires Verified(t, root) && SafeName(root) && IsToken(token)
    ensures ArchiveVerified(Bridge(t), ArchiveName(root, token)) <==> Canonical(Directories(t))
  {
    var m := t.files[MANIFEST].manifest;
    BridgeOtherwiseFine(t, root, token);
    forall x | x in m.directories ensures ParsePath(x).Some? {
      assert ParsePath(x) in Parsed(m.directories);
    }
    if Canonical(m.directories) {
      BridgeNames(t);
    } else {
      var x :| x in m.directories && Slashed(Strip(x)) != Name(ParsePath(x).value);
      OddNameUnexpected(m, x);
      BridgeHasEntry(t, x);
    }
  }

  /** The sealer's own directory texts are canonical and have no backslash, so the archive of a
      bundle this code has sealed is always accepted. */
  lemma PlainIsAccepted(directories: seq<string>)
    requires Plain(directories)
    ensures Canonical(directories) && NoBackslash(directories)
  {
    forall x | x in directories ensures Slashed(Strip(x)) == Name(ParsePath(x).value) && '\\' !in x {
      NameChars(ParsePath(x).value);
    }
  }

  // ---- What the verifier certifies ----

  /** A ZIP has the names of the bundle's files and directory texts, and no other. */
  ghost predicate HoldsNames(zip: Zip, t: Tree) {
    forall n :: n in zip <==> NamesFile(t.files, n) || NamesDirectory(Directories(t), n)
  }

  /** It holds every file with its content. */
  ghost predicate HoldsFiles(zip: Zip, t: Tree) {
    forall p :: p in t.files ==> Name(p) in zip && zip[Name(p)] == t.files[p]
  }

  /** For a verified bundle with canonical directory texts, the verifier accepts, among all ZIPs with
      that manifest and under the name of its archive, exactly those that hold the bundle. */
  lemma AcceptedIffWhole(t: Tree, root: string, token: string, zip: Zip)
    requires Verified(t, root) && SafeName(root) && IsToken(token) && Canonical(Directories(t))
    requires Name(MANIFEST) in zip && zip[Name(MANIFEST)] == t.files[MANIFEST]
    ensures ArchiveVerified(zip, ArchiveName(root, token)) <==> HoldsNames(zip, t) && HoldsFiles(zip, t)
  {
    AcceptedBy(t, root, token, zip);
    HasNames(t, zip);
    HasRows(t, zip);
  }

  ghost predicate RowsIn(zip: Zip, t: Tree)
    requires MANIFEST in t.files && t.files[MANIFEST].Document?
  {
    forall row :: row in t.files[MANIFEST].manifest.members ==> RowHolds(zip, row)
  }

  lemma AcceptedBy(t: Tree, root: string, token: string, zip: Zip)
    requires Verified(t, root) && SafeName(root) && IsToken(token) && Canonical(Directories(t))
    requires Name(MANIFEST) in zip && zip[Name(MANIFEST)] == t.files[MANIFEST]
    ensures ArchiveVerified(zip, ArchiveName(root, token)) <==> zip.Keys == Bridge(t).Keys && RowsIn(zip, t)
  {
    ArchiveNameParses(root, token);
    BridgeNames(t);
    assert None !in Parsed(t.files[MANIFEST].manifest.directories);
  }

  lemma HasNames(t: Tree, zip: Zip)
    ensures zip.Keys == Bridge(t).Keys <==> HoldsNames(zip, t)
  {
    forall n ensures n in Bridge(t) <==> NamesFile(t.files, n) || NamesDirectory(Directories(t), n) {
      ZippedAt(t.files, Directories(t), n);
    }
  }

  lemma HasRows(t: Tree, zip: Zip)
    requires MANIFEST in t.files && Name(MANIFEST) in zip && zip[Name(MANIFEST)] == t.files[MANIFEST]
    requires t.files[MANIFEST].Document? && Lists(t.files[MANIFEST].manifest.members, t.files)
    ensures RowsIn(zip, t) <==> HoldsFiles(zip, t)
  {
    var rows := t.files[MANIFEST].manifest.members;
    if RowsIn(zip, t) {
      forall p | p in t.files && p != MANIFEST ensures Name(p) in zip && zip[Name(p)] == t.files[p] {
        var row :| row in rows && ParsePath(row.path) == Some(p);
        assert RowHolds(zip, row);
      }
    }
  }

  /** Exactly when a ZIP is accepted under a file name, for the manifest in it: 32 MiB at most, of the
      right kind, with the bundle name that the file name holds; its rows are paths, each once, and
      say what the members are; and there is no member but those, its directories and itself. */
  lemma ArchiveIff(zip: Zip, name: string, encoded: nat, m: Manifest)
    requires Name(MANIFEST) in zip && zip[Name(MANIFEST)] == Document(encoded, m)
    ensures ArchiveVerified(zip, name) <==>
              && encoded <= 33_554_432 && m.sound && ParseArchiveName(name) == Some(m.basename)
              && RowsSay(zip, m.members) && (forall x :: x in m.directories ==> ParsePath(x).Some?)
              && NamesAre(zip, m)
  {
    DeclaredIff(zip, m);
    RowsSayIff(zip, m.members);
    ParsedIff(m.directories);
  }

  /** The rows are paths, each once and none the manifest's, and say size and content of the members. */
  ghost predicate RowsSay(zip: Zip, rows: seq<Row>) {
    && (forall i, j :: 0 <= i < j < |rows| ==> ParsePath(rows[i].path) != ParsePath(rows[j].path))
    && forall row :: row in rows ==>
         && ParsePath(row.path).Some? && ParsePath(row.path).value != MANIFEST
         && SaysOf(zip, row, Name(ParsePath(row.path).value))
  }

  predicate SaysOf(zip: Zip, row: Row, n: string) {
    n in zip && row.sha == zip[n]
    && row.bytes == match zip[n] { case Bytes(size, _) => size case Document(encoded, _) => encoded }
  }

  lemma RowsSayIff(zip: Zip, rows: seq<Row>)
    ensures RowsSay(zip, rows) <==> GoodRows(rows) && forall row :: row in rows ==> RowHolds(zip, row)
  {}

  lemma ParsedIff(texts: seq<string>)
    ensures None !in Parsed(texts) <==> forall x :: x in texts ==> ParsePath(x).Some?
  {}

  ghost predicate NamesAre(zip: Zip, m: Manifest) { forall n :: n in zip <==> IsDeclared(m, n) }

  /** The manifest's own name, the name of a row, or the name of a directory with a slash. */
  ghost predicate IsDeclared(m: Manifest, n: string) {
    || n == Name(MANIFEST)
    || (exists row :: row in m.members && ParsePath(row.path).Some? && n == Name(ParsePath(row.path).value))
    || (exists x :: x in m.directories && ParsePath(x).Some? && n == Name(ParsePath(x).value) + "/")
  }

  lemma DeclaredIff(zip: Zip, m: Manifest)
    ensures zip.Keys == Declared(m) <==> NamesAre(zip, m)
  {
    forall n ensures n in Declared(m) <==> IsDeclared(m, n) {}
  }

  /** A token is 32 hexadecimal digits of either case. */
  lemma TokenIff(s: string)
    ensures IsToken(s) <==> |s| == 32 && forall i :: 0 <= i < |s| ==> HexDigit(s[i])
  {}

  predicate HexDigit(c: char) { '0' <= c <= '9' || 'a' <= c <= 'f' || 'A' <= c <= 'F' }

  /** Which file names are archive names: a dot, a safe bundle name, the infix in any case, a token,
      and the suffix in any case. */
  lemma ArchiveNameIff(name: string, t: string, infix: string, token: string, suffix: string)
    requires name == "." + t + infix + token + suffix && |infix| == 18 && |token| == 32 && |suffix| == 4
    ensures ParseArchiveName(name) == Some(t) <==>
              SafeName(t) && Fold(infix) == ".retention_delete_" && Fold(suffix) == ".zip" && IsToken(token)
    ensures ParseArchiveName(name) == None || ParseArchiveName(name) == Some(t)
  {
    var n := |name|;
    assert |INFIX| == 18 && |SUFFIX| == 4;
    assert name[1..n - 54] == t && name[n - 54..n - 36] == infix;
    assert name[n - 36..n - 4] == token && name[n - 4..] == suffix;
  }

  lemma TooShort(name: string)
    requires |name| < 56 || name[0] != '.'
    ensures ParseArchiveName(name) == None
  {
    assert |INFIX| == 18 && |SUFFIX| == 4;
  }

  // ---- A bundle whose archive is refused ----

  /** One empty directory, which the manifest lists as `./a`. */
  const ODD := Tree(map[MANIFEST := Document(1, Manifest(true, true, "b", ["./a"], []))], {["a"]})

  lemma OddPieces()
    ensures Split("./a") == [".", "a"] && Kept([".", "a"]) == ["a"]
  {
    SplitPiece("a", "");
    SplitPiece(".", "a");
    assert "./a" == "." + "/" + "a" && Kept([".", "a"]) == [] + Kept(["a"]) && Kept(["a"]) == ["a"] + Kept([]);
  }

  lemma OddText()
    ensures ParsePath("./a") == Some(["a"]) && Name(["a"]) == "a" && Strip("./a") == "./a" && Slashed("./a") == "./a"
  {
    OddPieces();
    assert Slashed("./a") == "./a" && ".." !in Split("./a");
  }

  /** A bundle without members verifies on its manifest alone. */
  lemma EmptyVerifies(t: Tree, name: string, m: Manifest)
    requires t.files == map[MANIFEST := Document(1, m)] && m.sound && m.named && m.basename == name && m.members == []
    requires DirectoriesAre(m.directories, t.dirs)
    ensures Verified(t, name) && Directories(t) == m.directories
  {
    assert Lists([], t.files);
  }

  lemma OneDirectory(x: string, d: Rel)
    requires ParsePath(x) == Some(d)
    ensures DirectoriesAre([x], {d})
  {
    assert Parsed([x]) == {Some(d)};
    var dirs: set<Rel> := {d};
    assert (set r | r in dirs :: Some(r)) == {Some(d)};
  }

  lemma OddVerifies()
    ensures Verified(ODD, "b") && Directories(ODD) == ["./a"]
  {
    OddText();
    OneDirectory("./a", ["a"]);
    EmptyVerifies(ODD, "b", Manifest(true, true, "b", ["./a"], []));
  }

  /** It verifies and its archive passes the check after writing, yet no archive verifier ever
      accepts that archive. */
  lemma OddArchiveRefused(token: string)
    requires IsToken(token)
    ensures Verified(ODD, "b") && SafeName("b") && NoBackslash(Directories(ODD))
    ensures !ArchiveVerified(Bridge(ODD), ArchiveName("b", token))
  {
    OddText();
    OddVerifies();
    assert "./a" in Directories(ODD);
    WrittenArchiveAccepted(ODD, "b", token);
  }

  // ---- A bundle that is never deleted ----

  /** Two nested directories, of which the manifest lists one with a backslash. */
  const BACKWARD := Tree(
    map[MANIFEST := Document(1, Manifest(true, true, "b", ["a", "a\\c"], []))], {["a"], ["a", "c"]})

  lemma BackwardPieces()
    ensures Slashed("a\\c") == "a/c" && Split("a/c") == ["a", "c"] && Kept(["a", "c"]) == ["a", "c"]
  {
    SplitPiece("a", "c");
    SplitPiece("c", "");
    assert "a/c" == "a" + "/" + "c";
    KeptAll(["a", "c"]);
  }

  lemma BackwardTexts()
    ensures ParsePath("a") == Some(["a"]) && ParsePath("a\\c") == Some(["a", "c"])
  {
    BackwardPieces();
    SplitPiece("a", "");
    KeptAll(["a"]);
    assert Slashed("a") == "a" && ".." !in ["a"] && ".." !in ["a", "c"];
  }

  lemma TwoDirectories(x: string, y: string, d: Rel, e: Rel)
    requires ParsePath(x) == Some(d) && ParsePath(y) == Some(e)
    ensures DirectoriesAre([x, y], {d, e})
  {
    assert Parsed([x, y]) == {Some(d), Some(e)};
    var dirs: set<Rel> := {d, e};
    assert (set r | r in dirs :: Some(r)) == {Some(d), Some(e)};
  }

  lemma BackwardVerifies()
    ensures Verified(BACKWARD, "b") && Directories(BACKWARD) == ["a", "a\\c"]
  {
    BackwardTexts();
    TwoDirectories("a", "a\\c", ["a"], ["a", "c"]);
    EmptyVerifies(BACKWARD, "b", Manifest(true, true, "b", ["a", "a\\c"], []));
  }

  /** It verifies, and its archive never passes the check after writing, whatever the plan. */
  lemma BackwardNeverReady(hashes: map<Rel, Option<Content>>)
    ensures Verified(BACKWARD, "b") && SafeName("b") && !NoBackslash(Directories(BACKWARD))
    ensures hashes.Keys == BACKWARD.files.Keys ==>
              Bridge(BACKWARD).Keys != Expected(hashes.Keys, Directories(BACKWARD))
  {
    BackwardVerifies();
    assert Directories(BACKWARD)[1] in Directories(BACKWARD) && Directories(BACKWARD)[1][1] == '\\';
    NeverExpected(BACKWARD, Directories(BACKWARD)[1]);
  }

  lemma NeverExpected(t: Tree, x: string)
    requires x in Directories(t) && '\\' in x
    ensures Bridge(t).Keys != Expected(t.files.Keys, Directories(t))
  {
    BackslashUnexpected(t.files, Directories(t), x);
  }
}
