/** Recovering receipts of owners that died (process_lifecycle.py).

    A receipt directory holds receipt files, the active index over them, and the marker that
    the one legacy scan is complete. Liveness of an owner identity is given, and so is what
    goes wrong in a pass. */
module ReceiptRecovery {
  import opened Texts
  import Sorting

  type Id = string

  const MAX_TERMINAL_RECEIPTS := 512

  datatype Status = Running | ShuttingDown | Complete | Survivors | RecoveredForcedExit

  datatype Owner = Owner(pid: int, identity: string)

  datatype EntryState = Suspended | Active | Completed | Cancelled | TerminatedWithOwner

  /** `owner` is `None` when the receipt has no integer pid or no start identity. */
  datatype Receipt = Receipt(status: Status, owner: Option<Owner>, entries: seq<EntryState>, mtime: int)

  /** A receipt file; other schemas and files that are no JSON are `Foreign`. */
  datatype File = Foreign | Known(receipt: Receipt)

  type Liveness = Owner -> bool

  /** When each receipt gets sealed, if it does. */
  type Clock = Id -> int

  predicate Open(f: File) {
    f.Known? && (f.receipt.status == Running || f.receipt.status == ShuttingDown)
  }

  predicate Terminal(f: File) { f.Known? && !Open(f) }

  predicate ProvenDead(f: File, alive: Liveness) {
    f.Known? && f.receipt.owner.Some? && !alive(f.receipt.owner.value)
  }

  function EndEntry(e: EntryState): EntryState {
    if e == Completed || e == Cancelled then e else TerminatedWithOwner
  }

  function SealedFile(f: File, now: int): File
    requires f.Known?
  {
    var r := f.receipt;
    var ended := seq(|r.entries|, i requires 0 <= i < |r.entries| => EndEntry(r.entries[i]));
    Known(Receipt(RecoveredForcedExit, r.owner, ended, now))
  }

  datatype Directory = Directory(files: map<Id, File>, index: set<Id>, migrated: bool)

  function Candidates(d: Directory): set<Id> {
    if d.migrated then d.index else d.index + d.files.Keys
  }

  /** The receipts that cannot be read in this pass, those whose rewrite fails, those that
      cannot be deleted, and whether the scan marker can be written. */
  datatype Faults = Faults(lost: set<Id>, bad: set<Id>, stuck: set<Id>, marks: bool)

  const NOFAULTS := Faults({}, {}, {}, true)

  /** The receipt is open and its owner is gone: the pass rewrites it, if it can. */
  predicate ToSeal(d: Directory, alive: Liveness, f: Faults, id: Id) {
    id in d.files && id !in f.lost && Open(d.files[id]) && ProvenDead(d.files[id], alive)
  }

  predicate Sealed(d: Directory, alive: Liveness, f: Faults, id: Id) {
    ToSeal(d, alive, f, id) && id !in f.bad
  }

  function VisitFiles(d: Directory, alive: Liveness, f: Faults, now: Clock, visited: set<Id>): map<Id, File> {
    map id | id in d.files ::
      if id in visited && Sealed(d, alive, f, id) then SealedFile(d.files[id], now(id)) else d.files[id]
  }

  /** Whether a visited id is in the index afterwards. */
  predicate IndexedAfter(d: Directory, alive: Liveness, f: Faults, id: Id) {
    && id in d.files && id !in f.lost && Open(d.files[id])
    && (ProvenDead(d.files[id], alive) ==> id in f.bad && id in d.index)
  }

  function VisitIndex(d: Directory, alive: Liveness, f: Faults, visited: set<Id>): set<Id> {
    set id | id in d.index + visited && (if id in visited then IndexedAfter(d, alive, f, id) else id in d.index)
  }

  predicate Met(d: Directory, alive: Liveness, f: Faults, id: Id) {
    id in d.files && id !in f.lost && (Terminal(d.files[id]) || Sealed(d, alive, f, id))
  }

  /** The terminal receipts met or made among the visited ids. */
  function TerminalMet(d: Directory, alive: Liveness, f: Faults, visited: set<Id>): set<Id> {
    set id | id in visited && Met(d, alive, f, id)
  }

  function MtimeOf(files: map<Id, File>, id: Id): int {
    if id in files && files[id].Known? then files[id].receipt.mtime else 0
  }

  /** `pruned` are all but the newest 512 of the terminal receipts. */
  ghost predicate Pruned(files: map<Id, File>, terminal: set<Id>, pruned: set<Id>) {
    && pruned <= terminal
    && |terminal - pruned| == (if |terminal| <= MAX_TERMINAL_RECEIPTS then |terminal| else MAX_TERMINAL_RECEIPTS)
    && forall p, q :: p in pruned && q in terminal - pruned ==> MtimeOf(files, q) >= MtimeOf(files, p)
  }

  /** One recovery pass takes `d` to `e`, having tried to delete `pruned`. */
  ghost predicate Recovers(d: Directory, alive: Liveness, f: Faults, now: Clock, e: Directory, pruned: set<Id>) {
    var visited := Candidates(d);
    var files := VisitFiles(d, alive, f, now, visited);
    && (if d.migrated then pruned == {} else Pruned(files, TerminalMet(d, alive, f, visited), pruned))
    && e == Directory(files - (pruned - f.stuck), VisitIndex(d, alive, f, visited), d.migrated || f.marks)
  }

  function Newer(files: map<Id, File>): (Id, Id) -> bool {
    (a, b) => MtimeOf(files, a) >= MtimeOf(files, b)
  }

  function Elements(s: seq<Id>): set<Id> { set id | id in s }

  class ReceiptStore {
    var files: map<Id, File>
    var index: set<Id>
    var migrated: bool

    ghost function At(): Directory
      reads this
    {
      Directory(files, index, migrated)
    }

    constructor (found: Directory)
      ensures At() == found
    {
      files, index, migrated := found.files, found.index, found.migrated;
    }

    /** One candidate: un-index what is gone, unreadable, foreign or terminal, keep what may be
        alive, and seal what is proven dead. */
    method Visit(id: Id, alive: Liveness, f: Faults, now: Clock, ghost d: Directory) returns (terminal: bool)
      requires (id in files) == (id in d.files) && (id in files ==> files[id] == d.files[id])
      requires (id in index) == (id in d.index)
      modifies this`files, this`index
      ensures files == if Sealed(d, alive, f, id) then old(files)[id := SealedFile(d.files[id], now(id))]
          else old(files)
      ensures index == if IndexedAfter(d, alive, f, id) then old(index) + {id} else old(index) - {id}
      ensures terminal <==> Met(d, alive, f, id)
    {
      if id !in files || id in f.lost || files[id].Foreign? {
        index := index - {id};
        return false;
      }
      if !Open(files[id]) {
        index := index - {id};
        return true;
      }
      if !ProvenDead(files[id], alive) {
        index := index + {id};
        return false;
      }
      if id in f.bad {
        assert index == if id in d.index then old(index) + {id} else old(index) - {id};
        return false;
      }
      files := files[id := SealedFile(files[id], now(id))];
      index := index - {id};
      return true;
    }

    /** The loop over the candidates, in any order. */
    method VisitAll(alive: Liveness, f: Faults, now: Clock) returns (terminal: seq<Id>)
      modifies this`files, this`index
      ensures files == VisitFiles(old(At()), alive, f, now, Candidates(old(At())))
      ensures index == VisitIndex(old(At()), alive, f, Candidates(old(At())))
      ensures Sorting.Distinct(terminal) &&
          Elements(terminal) == TerminalMet(old(At()), alive, f, Candidates(old(At())))
    {
      ghost var d := At();
      var todo := if migrated then index else index + files.Keys;
      ghost var done: set<Id> := {};
      terminal := [];
      NothingVisited(d, alive, f, now);
      while todo != {}
        invariant done + todo == Candidates(d) && done !! todo
        invariant files == VisitFiles(d, alive, f, now, done) && index == VisitIndex(d, alive, f, done)
        invariant Sorting.Distinct(terminal) && Elements(terminal) == TerminalMet(d, alive, f, done)
        decreases todo
      {
        var id :| id in todo;
        VisitOne(d, alive, f, now, done, id);
        var met := Visit(id, alive, f, now, d);
        if met {
          terminal := Append(terminal, id);
        }
        done, todo := done + {id}, todo - {id};
      }
    }

    /** Delete the terminal receipts beyond the newest 512, where the filesystem lets it. */
    method PruneTerminal(terminal: seq<Id>, stuck: set<Id>) returns (ghost pruned: set<Id>)
      requires Sorting.Distinct(terminal)
      modifies this`files
      ensures files == old(files) - (pruned - stuck)
      ensures Pruned(old(files), Elements(terminal), pruned)
    {
      var was := files;
      var newest := Sorting.Sort(terminal, Newer(was));
      NewestFirst(was, terminal, newest);
      var first := if |newest| <= MAX_TERMINAL_RECEIPTS then |newest| else MAX_TERMINAL_RECEIPTS;
      DeleteAll(newest[first..], stuck);
      pruned := Elements(newest[first..]);
      TailPruned(was, terminal, newest, first);
    }

    method DeleteAll(ids: seq<Id>, stuck: set<Id>)
      modifies this`files
      ensures files == old(files) - (Elements(ids) - stuck)
    {
      var i := 0;
      assert files - (Elements(ids[..0]) - stuck) == files;
      while i < |ids|
        invariant 0 <= i <= |ids|
        invariant files == old(files) - (Elements(ids[..i]) - stuck)
      {
        assert ids[..i + 1] == ids[..i] + [ids[i]];
        assert Elements(ids[..i + 1]) == Elements(ids[..i]) + {ids[i]};
        if ids[i] !in stuck {
          files := files - {ids[i]};
        }
        i := i + 1;
      }
      assert ids[..i] == ids;
    }

    /** `recover_incomplete_receipts` over an existing directory. */
    method Recover(alive: Liveness, f: Faults, now: Clock) returns (ghost pruned: set<Id>)
      modifies this
      ensures Recovers(old(At()), alive, f, now, At(), pruned)
    {
      var legacy := !migrated;
      var terminal := VisitAll(alive, f, now);
      pruned := {};
      if legacy {
        pruned := PruneTerminal(terminal, f.stuck);
        migrated := f.marks;
      }
      assert files - {} == files;
    }

    /** The same pass, killed after some visits, perhaps between the rewrite of one more receipt and
        the removal of its marker. */
    method RecoverCut(alive: Liveness, f: Faults, now: Clock, visits: nat, amidst: bool) returns (ghost c: Cut)
      modifies this
      ensures CutShort(old(At()), alive, f, now, At(), c)
    {
      ghost var d := At();
      var todo := if migrated then index else index + files.Keys;
      ghost var done: set<Id> := {};
      var n := 0;
      NothingVisited(d, alive, f, now);
      while todo != {} && n < visits
        invariant done + todo == Candidates(d) && done !! todo && migrated == d.migrated
        invariant files == VisitFiles(d, alive, f, now, done) && index == VisitIndex(d, alive, f, done)
        decreases todo
      {
        var id :| id in todo;
        VisitOne(d, alive, f, now, done, id);
        var met := Visit(id, alive, f, now, d);
        done, todo, n := done + {id}, todo - {id}, n + 1;
      }
      c := Cut(done, {}, {}, {});
      if todo != {} && amidst {
        var id :| id in todo;
        VisitOne(d, alive, f, now, done, id);
        Rewrite(id, alive, f, now, d);
        c := Cut(done, {id}, {}, {});
      }
      assert VisitFiles(d, alive, f, now, done + c.half) - {} == VisitFiles(d, alive, f, now, done + c.half);
      assert done + {} == done;
    }

    /** The rewrite of one visit, without what follows it. */
    method Rewrite(id: Id, alive: Liveness, f: Faults, now: Clock, ghost d: Directory)
      requires (id in files) == (id in d.files) && (id in files ==> files[id] == d.files[id])
      modifies this`files
      ensures files == if Sealed(d, alive, f, id) then old(files)[id := SealedFile(d.files[id], now(id))]
          else old(files)
    {
      if id in files && id !in f.lost && Open(files[id]) && ProvenDead(files[id], alive) && id !in f.bad {
        files := files[id := SealedFile(files[id], now(id))];
      }
    }
  }

  lemma NothingVisited(d: Directory, alive: Liveness, f: Faults, now: Clock)
    ensures VisitFiles(d, alive, f, now, {}) == d.files && VisitIndex(d, alive, f, {}) == d.index
    ensures TerminalMet(d, alive, f, {}) == {}
  {}

  /** One more visit is one more id on each side. */
  lemma VisitOne(d: Directory, alive: Liveness, f: Faults, now: Clock, done: set<Id>, id: Id)
    requires id !in done
    ensures var files, more := VisitFiles(d, alive, f, now, done), VisitFiles(d, alive, f, now, done + {id});
            && (id in files <==> id in d.files) && (id in files ==> files[id] == d.files[id])
            && more == if Sealed(d, alive, f, id) then files[id := SealedFile(d.files[id], now(id))] else files
    ensures var index, more := VisitIndex(d, alive, f, done), VisitIndex(d, alive, f, done + {id});
            && (id in index <==> id in d.index)
            && more == if IndexedAfter(d, alive, f, id) then index + {id} else index - {id}
    ensures TerminalMet(d, alive, f, done + {id}) ==
        TerminalMet(d, alive, f, done) + if Met(d, alive, f, id) then {id} else {}
    ensures id !in TerminalMet(d, alive, f, done)
  {}

  function Append(s: seq<Id>, id: Id): (r: seq<Id>)
    requires Sorting.Distinct(s) && id !in Elements(s)
    ensures Sorting.Distinct(r) && Elements(r) == Elements(s) + {id}
  {
    assert id !in s;
    Sorting.DistinctSnoc(s, id);
    s + [id]
  }

  lemma NewestFirst(files: map<Id, File>, terminal: seq<Id>, newest: seq<Id>)
    requires newest == Sorting.Sort(terminal, Newer(files)) && Sorting.Distinct(terminal)
    ensures Sorting.Distinct(newest) && Elements(newest) == Elements(terminal)
    ensures Sorting.Ordered(newest, Newer(files))
  {
    assert Sorting.TotalPreorder(Newer(files));
    Sorting.SortOrdered(terminal, Newer(files));
    Sorting.SortDistinct(terminal, Newer(files));
    Sorting.SortMembers(terminal, Newer(files));
  }

  lemma {:induction false} DistinctCount(s: seq<Id>)
    requires Sorting.Distinct(s)
    ensures |Elements(s)| == |s|
  {
    if s != [] {
      var n := |s| - 1;
      DistinctCount(s[..n]);
      assert s == s[..n] + [s[n]];
      assert Elements(s) == Elements(s[..n]) + {s[n]};
      assert s[n] !in s[..n];
    }
  }

  lemma SplitElements(s: seq<Id>, n: nat)
    requires Sorting.Distinct(s) && n <= |s|
    ensures Elements(s) - Elements(s[n..]) == Elements(s[..n])
  {
    assert s == s[..n] + s[n..];
    forall id | id in s[..n] ensures id !in s[n..] {
      var i :| 0 <= i < n && s[i] == id;
    }
  }

  lemma TailPruned(files: map<Id, File>, terminal: seq<Id>, newest: seq<Id>, first: nat)
    requires Sorting.Distinct(newest) && Elements(newest) == Elements(terminal) && Sorting.Ordered(newest, Newer(files))
    requires first == (if |newest| <= MAX_TERMINAL_RECEIPTS then |newest| else MAX_TERMINAL_RECEIPTS)
    ensures Pruned(files, Elements(terminal), Elements(newest[first..]))
  {
    SplitElements(newest, first);
    DistinctCount(newest);
    DistinctCount(newest[..first]);
    assert Elements(newest[first..]) <= Elements(newest);
    forall p, q | p in newest[first..] && q in newest[..first] ensures MtimeOf(files, q) >= MtimeOf(files, p) {
      var j :| first <= j < |newest| && newest[j] == p;
      var i :| 0 <= i < first && newest[i] == q;
      assert Newer(files)(newest[i], newest[j]);
    }
  }

  // ---- What one pass achieves ----

  /** No open receipt can be overlooked: each is indexed, or the legacy scan is still to come. */
  ghost predicate Covered(d: Directory) {
    forall id :: id in d.files && Open(d.files[id]) ==> id in d.index || !d.migrated
  }

  /** The index lists exactly the open receipts. */
  ghost predicate IndexExact(d: Directory) {
    d.migrated && forall id :: id in d.index <==> id in d.files && Open(d.files[id])
  }

  /** Only terminal receipts are ever deleted, and a receipt that is not sealed is unchanged. */
  lemma {:induction false} NeverDeletesOpen(
      d: Directory, alive: Liveness, f: Faults, now: Clock, e: Directory, pruned: set<Id>, id: Id)
    requires Recovers(d, alive, f, now, e, pruned) && id in d.files
    ensures Open(d.files[id]) && !Sealed(d, alive, f, id) ==> id in e.files && e.files[id] == d.files[id]
    ensures id in e.files ==>
        e.files[id] == d.files[id] || (Sealed(d, alive, f, id) && e.files[id] == SealedFile(d.files[id], now(id)))
    ensures id !in e.files ==> Terminal(d.files[id]) || Sealed(d, alive, f, id)
  {}

  /** Without faults, one pass over a covered directory seals and un-indexes exactly the open
      receipts whose owner is proven dead, keeps every other open receipt open and indexed, and
      leaves an exact index. */
  lemma {:induction false} OnePassRecovers(d: Directory, alive: Liveness, now: Clock, e: Directory, pruned: set<Id>)
    requires Recovers(d, alive, NOFAULTS, now, e, pruned) && Covered(d)
    ensures IndexExact(e)
    ensures forall id :: id in d.files && Open(d.files[id]) ==>
              if ProvenDead(d.files[id], alive) then
                id !in e.index && (id in e.files ==> e.files[id] == SealedFile(d.files[id], now(id)))
              else id in e.index && id in e.files && e.files[id] == d.files[id]
  {
    forall id ensures id in e.index <==> id in e.files && Open(e.files[id]) {
      if id in d.files && Open(d.files[id]) && !ProvenDead(d.files[id], alive) {
        assert id in Candidates(d);
      }
    }
  }

  /** A second pass with the same liveness changes nothing. */
  lemma {:induction false} SecondPassIdle(
      d: Directory, alive: Liveness, now: Clock, e: Directory, pruned: set<Id>, later: Clock, g: Directory,
      more: set<Id>)
    requires Recovers(d, alive, NOFAULTS, now, e, pruned) && Covered(d)
    requires Recovers(e, alive, NOFAULTS, later, g, more)
    ensures g == e
  {
    OnePassRecovers(d, alive, now, e, pruned);
    forall id | id in e.index ensures IndexedAfter(e, alive, NOFAULTS, id) {
      assert id in e.files && Open(e.files[id]);
      assert id in d.files && !ToSeal(d, alive, NOFAULTS, id);
    }
    assert VisitIndex(e, alive, NOFAULTS, Candidates(e)) == e.index;
    forall id | id in e.files ensures VisitFiles(e, alive, NOFAULTS, later, Candidates(e))[id] == e.files[id] {
      if id in Candidates(e) { assert id in e.index; }
    }
    assert VisitFiles(e, alive, NOFAULTS, later, Candidates(e)) == e.files;
    assert e.files - ({} - NOFAULTS.stuck) == e.files;
  }

  /** The pass does not end with the receipt open and outside the index. */
  predicate Traced(d: Directory, alive: Liveness, f: Faults, id: Id)
    requires id in d.files
  {
    id !in f.lost && (id in d.index || (!d.migrated && !(ProvenDead(d.files[id], alive) && id in f.bad)))
  }

  lemma TracedIff(
      d: Directory, alive: Liveness, f: Faults, now: Clock, e: Directory, pruned: set<Id>, id: Id)
    requires Recovers(d, alive, f, now, e, pruned) && id in d.files && Open(d.files[id])
    ensures (id in e.files && Open(e.files[id]) ==> id in e.index) <==> Traced(d, alive, f, id)
  {
    assert id !in pruned || Sealed(d, alive, f, id);
  }

  lemma IndexedIsOpen(
      d: Directory, alive: Liveness, f: Faults, now: Clock, e: Directory, pruned: set<Id>, id: Id)
    requires Recovers(d, alive, f, now, e, pruned) && id in e.index
    ensures id in e.files && Open(e.files[id])
  {
    assert id in Candidates(d);
    assert IndexedAfter(d, alive, f, id);
  }

  lemma OpenWasOpen(
      d: Directory, alive: Liveness, f: Faults, now: Clock, e: Directory, pruned: set<Id>, id: Id)
    requires Recovers(d, alive, f, now, e, pruned) && id in e.files && Open(e.files[id])
    ensures id in d.files && Open(d.files[id])
  {}

  /** The pass leaves an exact index exactly when the scan marker is there, and every open
      receipt could be read, was not overlooked, and was not found by the legacy scan alone
      while its rewrite failed. */
  lemma IndexExactIff(d: Directory, alive: Liveness, f: Faults, now: Clock, e: Directory, pruned: set<Id>)
    requires Recovers(d, alive, f, now, e, pruned)
    ensures IndexExact(e) <==>
              (d.migrated || f.marks) && forall id :: id in d.files && Open(d.files[id]) ==> Traced(d, alive, f, id)
  {
    assert e.migrated == (d.migrated || f.marks);
    forall id | id in d.files && Open(d.files[id])
      ensures (id in e.files && Open(e.files[id]) ==> id in e.index) <==> Traced(d, alive, f, id)
    {
      TracedIff(d, alive, f, now, e, pruned, id);
    }
    forall id | id in e.index ensures id in e.files && Open(e.files[id]) {
      IndexedIsOpen(d, alive, f, now, e, pruned, id);
    }
    forall id | id in e.files && Open(e.files[id]) ensures id in d.files && Open(d.files[id]) {
      OpenWasOpen(d, alive, f, now, e, pruned, id);
    }
  }

  /** What one failed read costs: an indexed open receipt that cannot be read in one pass is
      outside the index afterwards, whoever owns it. */
  lemma {:induction false} LostOnce(
      d: Directory, alive: Liveness, f: Faults, now: Clock, e: Directory, pruned: set<Id>, id: Id)
    requires Recovers(d, alive, f, now, e, pruned)
    requires id in d.files && Open(d.files[id]) && id in f.lost
    ensures id in e.files && e.files[id] == d.files[id] && id !in e.index
  {}

  /** Once the scan is marked complete no later pass finds such a receipt again: it stays open
      even when its owner dies. Only its owner's own next write would index it. */
  lemma {:induction false} LostForGood(
      d: Directory, alive: Liveness, f: Faults, now: Clock, e: Directory, pruned: set<Id>, id: Id)
    requires Recovers(d, alive, f, now, e, pruned)
    requires d.migrated && id in d.files && Open(d.files[id]) && id !in d.index
    ensures e.migrated && id in e.files && e.files[id] == d.files[id] && id !in e.index
  {}

  // ---- A pass that is killed ----

  /** Where a killed pass can leave the directory. It completed the visits of `visited`, rewrote
      the receipts of `half` without removing their markers, and once all visits were done may
      have deleted `gone`, part of what it was to prune. */
  datatype Cut = Cut(visited: set<Id>, half: set<Id>, gone: set<Id>, planned: set<Id>)

  ghost predicate CutShort(d: Directory, alive: Liveness, f: Faults, now: Clock, i: Directory, c: Cut) {
    && c.visited + c.half <= Candidates(d)
    && (c.gone != {} ==> CutWhilePruning(d, alive, f, now, c))
    && var files := VisitFiles(d, alive, f, now, c.visited + c.half) - c.gone;
       i == Directory(files, VisitIndex(d, alive, f, c.visited), d.migrated)
  }

  ghost predicate CutWhilePruning(d: Directory, alive: Liveness, f: Faults, now: Clock, c: Cut) {
    && !d.migrated && c.visited == Candidates(d) && c.gone <= c.planned && c.gone !! f.stuck
    && Pruned(VisitFiles(d, alive, f, now, c.visited), TerminalMet(d, alive, f, c.visited), c.planned)
  }

  lemma CutCandidate(d: Directory, alive: Liveness, f: Faults, now: Clock, i: Directory, c: Cut, id: Id)
    requires CutShort(d, alive, f, now, i, c) && id !in c.gone && id in d.files
    ensures id in i.files && id in VisitFiles(i, alive, f, now, Candidates(i))
    ensures VisitFiles(i, alive, f, now, Candidates(i))[id] == VisitFiles(d, alive, f, now, Candidates(d))[id]
    ensures !d.migrated ==> (Met(i, alive, f, id) <==> Met(d, alive, f, id))
  {}

  lemma CutFiles(d: Directory, alive: Liveness, f: Faults, now: Clock, i: Directory, c: Cut)
    requires CutShort(d, alive, f, now, i, c)
    ensures VisitFiles(i, alive, f, now, Candidates(i)) == VisitFiles(d, alive, f, now, Candidates(d)) - c.gone
    ensures !d.migrated ==> TerminalMet(i, alive, f, Candidates(i)) == TerminalMet(d, alive, f, Candidates(d)) - c.gone
  {
    forall id | id in d.files && id !in c.gone
      ensures VisitFiles(i, alive, f, now, Candidates(i))[id] == VisitFiles(d, alive, f, now, Candidates(d))[id]
      ensures !d.migrated ==> (Met(i, alive, f, id) <==> Met(d, alive, f, id))
    {
      CutCandidate(d, alive, f, now, i, c, id);
    }
  }

  /** What is deleted while pruning was terminal, so it is never one to index. */
  lemma GoneIsMet(d: Directory, alive: Liveness, f: Faults, now: Clock, i: Directory, c: Cut, id: Id)
    requires CutShort(d, alive, f, now, i, c) && id in c.gone
    ensures Met(d, alive, f, id) && !IndexedAfter(d, alive, f, id)
  {
    assert id in TerminalMet(d, alive, f, c.visited);
  }

  lemma CutIndexed(d: Directory, alive: Liveness, f: Faults, now: Clock, i: Directory, c: Cut, id: Id)
    requires CutShort(d, alive, f, now, i, c)
    ensures id in Candidates(i) && IndexedAfter(i, alive, f, id) <==>
        id in Candidates(d) && IndexedAfter(d, alive, f, id)
  {
    if id in c.gone { GoneIsMet(d, alive, f, now, i, c, id); }
  }

  lemma CutIndex(d: Directory, alive: Liveness, f: Faults, now: Clock, i: Directory, c: Cut)
    requires CutShort(d, alive, f, now, i, c)
    ensures VisitIndex(i, alive, f, Candidates(i)) == VisitIndex(d, alive, f, Candidates(d))
  {
    forall id ensures id in VisitIndex(i, alive, f, Candidates(i)) <==> id in VisitIndex(d, alive, f, Candidates(d)) {
      CutIndexed(d, alive, f, now, i, c, id);
    }
  }

  lemma SubsetSmaller(a: set<Id>, b: set<Id>)
    requires a <= b
    ensures |a| <= |b| && |b - a| == |b| - |a|
  {
    assert b == a + (b - a);
  }

  /** A kept id outside the first plan's kept ones leaves one of those to be pruned. */
  lemma Displaced(terminal: set<Id>, planned: set<Id>, gone: set<Id>, pruned: set<Id>, q: Id) returns (r: Id)
    requires gone <= planned <= terminal && pruned <= terminal - gone
    requires |terminal - planned| == |terminal - gone - pruned| && q in planned && q in terminal - gone - pruned
    ensures r in terminal - planned && r in pruned
  {
    var first, second := terminal - planned, terminal - gone - pruned;
    if first <= second {
      assert first <= second - {q};
      SubsetSmaller(first, second - {q});
      assert false;
    }
    r :| r in first && r !in second;
  }

  lemma PruneResumes(files: map<Id, File>, terminal: set<Id>, planned: set<Id>, gone: set<Id>, pruned: set<Id>)
    requires Pruned(files, terminal, planned) && gone <= planned && gone != {}
    requires Pruned(files - gone, terminal - gone, pruned)
    ensures Pruned(files, terminal, pruned + gone)
  {
    SubsetSmaller(terminal - planned, terminal);
    SubsetSmaller(planned, terminal);
    SubsetSmaller(gone, planned);
    SubsetSmaller(terminal - planned, terminal - gone);
    assert terminal - (pruned + gone) == terminal - gone - pruned;
    forall p, q | p in pruned + gone && q in terminal - (pruned + gone) ensures MtimeOf(files, q) >= MtimeOf(files, p) {
      assert MtimeOf(files - gone, q) == MtimeOf(files, q);
      if p in pruned {
        assert MtimeOf(files - gone, p) == MtimeOf(files, p);
      } else if q in planned {
        var r := Displaced(terminal, planned, gone, pruned, q);
        assert MtimeOf(files - gone, r) == MtimeOf(files, r);
      }
    }
  }

  lemma AfterVisitCut(
      d: Directory, alive: Liveness, f: Faults, now: Clock, i: Directory, c: Cut, e: Directory, pruned: set<Id>)
    requires CutShort(d, alive, f, now, i, c) && Recovers(i, alive, f, now, e, pruned) && c.gone == {}
    ensures Recovers(d, alive, f, now, e, pruned)
  {
    CutFiles(d, alive, f, now, i, c);
    CutIndex(d, alive, f, now, i, c);
    NothingLess(VisitFiles(d, alive, f, now, Candidates(d)), TerminalMet(d, alive, f, Candidates(d)));
  }

  lemma NothingLess(files: map<Id, File>, ids: set<Id>)
    ensures files - {} == files && ids - {} == ids
  {}

  lemma AfterPruneCut(
      d: Directory, alive: Liveness, f: Faults, now: Clock, i: Directory, c: Cut, e: Directory, pruned: set<Id>)
    requires CutShort(d, alive, f, now, i, c) && Recovers(i, alive, f, now, e, pruned) && c.gone != {}
    ensures Recovers(d, alive, f, now, e, pruned + c.gone)
  {
    CutFiles(d, alive, f, now, i, c);
    CutIndex(d, alive, f, now, i, c);
    var files := VisitFiles(d, alive, f, now, Candidates(d));
    PruneResumes(files, TerminalMet(d, alive, f, Candidates(d)), c.planned, c.gone, pruned);
    TakeBoth(files, c.gone, pruned, f.stuck);
  }

  lemma TakeBoth(files: map<Id, File>, gone: set<Id>, pruned: set<Id>, stuck: set<Id>)
    requires gone !! stuck
    ensures files - gone - (pruned - stuck) == files - (pruned + gone - stuck)
  {}

  /** A full pass after a killed one ends where a full pass alone could have ended. */
  lemma FullPassAfterCut(
      d: Directory, alive: Liveness, f: Faults, now: Clock, i: Directory, c: Cut, e: Directory, pruned: set<Id>)
    requires CutShort(d, alive, f, now, i, c) && Recovers(i, alive, f, now, e, pruned)
    ensures Recovers(d, alive, f, now, e, pruned + c.gone)
  {
    if c.gone == {} {
      AfterVisitCut(d, alive, f, now, i, c, e, pruned);
      assert pruned + c.gone == pruned;
    } else {
      AfterPruneCut(d, alive, f, now, i, c, e, pruned);
    }
  }

  /** However often the pass is killed, the first one that goes through ends where a full pass
      alone could have ended. */
  lemma {:induction false} KilledPassesRecover(
      trace: seq<Directory>, cuts: seq<Cut>, alive: Liveness, f: Faults, now: Clock, e: Directory, pruned: set<Id>)
      returns (all: set<Id>)
    requires |trace| == |cuts| + 1
    requires forall i :: 0 <= i < |cuts| ==> CutShort(trace[i], alive, f, now, trace[i + 1], cuts[i])
    requires Recovers(trace[|cuts|], alive, f, now, e, pruned)
    ensures Recovers(trace[0], alive, f, now, e, all)
    decreases |cuts|
  {
    all := pruned;
    if cuts != [] {
      var n := |cuts| - 1;
      assert CutShort(trace[n], alive, f, now, trace[n + 1], cuts[n]);
      FullPassAfterCut(trace[n], alive, f, now, trace[n + 1], cuts[n], e, pruned);
      all := KilledPassesRecover(trace[..n + 1], cuts[..n], alive, f, now, e, pruned + cuts[n].gone);
    }
  }

  // ---- A pass that leaves a stray receipt ----

  const STRAY := Directory(map["r" := Known(Receipt(Running, Some(Owner(7, "t")), [], 0))], {}, false)

  const NOBODY: Liveness := _ => false
  const ZERO: Clock := _ => 0

  const NOREWRITE := Faults({}, {"r"}, {}, true)

  /** In a directory not yet scanned, one receipt of a dead owner, not indexed, whose rewrite
      fails: every pass leaves it open and outside the index, and marks the scan complete. */
  lemma StrayStays(now: Clock, e: Directory, pruned: set<Id>)
    requires Recovers(STRAY, NOBODY, NOREWRITE, now, e, pruned)
    ensures Covered(STRAY) && !IndexExact(e)
    ensures e.migrated && e.index == {} && "r" in e.files && Open(e.files["r"])
  {
    assert "r" in STRAY.files && Open(STRAY.files["r"]) && !Traced(STRAY, NOBODY, NOREWRITE, "r");
    IndexExactIff(STRAY, NOBODY, NOREWRITE, now, e, pruned);
    NeverDeletesOpen(STRAY, NOBODY, NOREWRITE, now, e, pruned, "r");
  }

  /** Such a pass exists. */
  method StrayPass() returns (e: Directory, ghost pruned: set<Id>)
    ensures Recovers(STRAY, NOBODY, NOREWRITE, ZERO, e, pruned) && !IndexExact(e)
  {
    var store := new ReceiptStore(STRAY);
    pruned := store.Recover(NOBODY, NOREWRITE, ZERO);
    e := Directory(store.files, store.index, store.migrated);
    StrayStays(ZERO, e, pruned);
  }

  /** Sealing ends every owned process that had not ended, and touches no other. */
  lemma SealEndsAll(f: File, now: int, i: nat)
    requires Open(f) && i < |f.receipt.entries|
    ensures var sealed := SealedFile(f, now);
            && Terminal(sealed) && |sealed.receipt.entries| == |f.receipt.entries|
            && sealed.receipt.entries[i] in {Completed, Cancelled, TerminatedWithOwner}
            && (f.receipt.entries[i] in {Completed, Cancelled} ==> sealed.receipt.entries[i] == f.receipt.entries[i])
  {}

  // ---- One pass, receipt by receipt ----

  /** The session of this receipt has not been ended: it says that it runs or that it shuts down. */
  predicate Unended(r: Receipt) { r.status == Running || r.status == ShuttingDown }

  /** Its owner is named, and no process with that identity is alive. */
  predicate Orphaned(r: Receipt, alive: Liveness) { r.owner.Some? && !alive(r.owner.value) }

  /** The pass looks at it: it is indexed, or the one scan of everything is still to come. */
  predicate LookedAt(d: Directory, id: Id) { id in d.index || !d.migrated }

  /** The receipt is ended by the pass. */
  predicate Ended(d: Directory, alive: Liveness, f: Faults, id: Id, r: Receipt) {
    Unended(r) && Orphaned(r, alive) && LookedAt(d, id) && id !in f.lost && id !in f.bad
  }

  /** `s` is the receipt ended at this time: the forced exit is on record and no entry runs on. */
  ghost predicate EndedAs(s: Receipt, r: Receipt, time: int) {
    && s.status == RecoveredForcedExit && s.owner == r.owner && s.mtime == time && |s.entries| == |r.entries|
    && forall k :: 0 <= k < |r.entries| ==>
         s.entries[k] == if r.entries[k] == Completed ||
             r.entries[k] == Cancelled then r.entries[k] else TerminatedWithOwner
  }

  lemma SealedIff(d: Directory, alive: Liveness, f: Faults, id: Id)
    requires id in d.files && id in Candidates(d)
    ensures Sealed(d, alive, f, id) <==> d.files[id].Known? && Ended(d, alive, f, id, d.files[id].receipt)
  {}

  /** What a pass makes of one receipt: it is ended; or it runs on, untouched; or it had ended. */
  lemma ReceiptFate(
      d: Directory, alive: Liveness, f: Faults, now: Clock, e: Directory, pruned: set<Id>, id: Id)
    requires Recovers(d, alive, f, now, e, pruned) && id in d.files && d.files[id].Known?
    ensures var r := d.files[id].receipt;
            if Ended(d, alive, f, id, r) then
              && id !in e.index
              && (id in e.files ==> e.files[id].Known? && EndedAs(e.files[id].receipt, r, now(id)))
            else if Unended(r) then
              && id in e.files && e.files[id] == d.files[id]
              && (id in e.index <==>
                    LookedAt(d, id) && id !in f.lost && (!Orphaned(r, alive) || (id in f.bad && id in d.index)))
            else id !in e.index && (id in e.files ==> e.files[id] == d.files[id])
  {}

  /** Foreign files stay and are not indexed; nothing is made up; the scan is marked when it can be. */
  lemma OtherFiles(d: Directory, alive: Liveness, f: Faults, now: Clock, e: Directory, pruned: set<Id>, id: Id)
    requires Recovers(d, alive, f, now, e, pruned)
    ensures id in d.files && d.files[id].Foreign? ==> id in e.files && e.files[id] == d.files[id] && id !in e.index
    ensures id !in d.files ==> id !in e.files && id !in e.index
    ensures e.migrated <==> d.migrated || f.marks
  {}

  /** The receipt has ended once the pass has looked at it, and was read. */
  predicate HasEnded(d: Directory, alive: Liveness, f: Faults, id: Id) {
    && id in d.files && id !in f.lost && d.files[id].Known?
    && (!Unended(d.files[id].receipt) || Ended(d, alive, f, id, d.files[id].receipt))
  }

  function TimeOf(d: Directory, alive: Liveness, f: Faults, now: Clock, id: Id): int
    requires HasEnded(d, alive, f, id)
  {
    if Unended(d.files[id].receipt) then now(id) else d.files[id].receipt.mtime
  }

  /** The one scan deletes ended receipts only, as far as it can, the oldest first, and means to
      keep 512 of them; any other pass deletes nothing. */
  lemma ScanKeepsNewest(
      d: Directory, alive: Liveness, f: Faults, now: Clock, e: Directory, pruned: set<Id>, ended: set<Id>)
    requires Recovers(d, alive, f, now, e, pruned) && forall id :: id in ended <==> HasEnded(d, alive, f, id)
    ensures d.files.Keys - e.files.Keys == pruned - f.stuck && (d.migrated ==> pruned == {})
    ensures !d.migrated ==>
              && pruned <= ended && |ended - pruned| == (if |ended| > 512 then 512 else |ended|)
              && forall p, q :: p in pruned && q in ended - pruned ==>
                   TimeOf(d, alive, f, now, p) <= TimeOf(d, alive, f, now, q)
  {
    if !d.migrated {
      MetAreEnded(d, alive, f, ended);
      var files := VisitFiles(d, alive, f, now, Candidates(d));
      forall id | id in ended ensures MtimeOf(files, id) == TimeOf(d, alive, f, now, id) {
        SealedIff(d, alive, f, id);
      }
    }
  }

  lemma MetAreEnded(d: Directory, alive: Liveness, f: Faults, ended: set<Id>)
    requires !d.migrated && forall id :: id in ended <==> HasEnded(d, alive, f, id)
    ensures TerminalMet(d, alive, f, Candidates(d)) == ended
  {
    forall id ensures id in TerminalMet(d, alive, f, Candidates(d)) <==> id in ended {
      if id in d.files { SealedIff(d, alive, f, id); }
    }
  }
}
