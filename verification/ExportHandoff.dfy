/** Moving a transient Assembly hierarchy out of Export (cluster_export_handoff_contract.py).

    The scene holds Blender objects by identity. Source paths are taken already normalized,
    an empty text meaning that the tag is missing. */
module ExportHandoff {
  import opened Texts

  type ObjectId = int

  datatype Info = Info(
    name: string, isEmpty: bool, parent: Option<ObjectId>, children: seq<ObjectId>,
    sourceFbx: string, sourceIdentity: string, generated: bool, pivotRole: bool)

  type Objects = map<ObjectId, Info>

  /** What `capture_cluster_export_snapshot` recorded before Assembly ran. */
  datatype Before = Before(identities: set<ObjectId>, unsuffixedNames: seq<string>)

  datatype Wanted = Wanted(stem: string, fbx: string, identity: string)

  datatype Report =
    | NotNeeded
    | Blocked(reason: string)
    | Normalized(root: ObjectId)
    | Reconciled(moved: set<ObjectId>)

  /** Every object of a collection is described. */
  predicate Described(objects: Objects, ids: set<ObjectId>) {
    forall o :: o in ids ==> o in objects
  }

  predicate IsRoot(objects: Objects, w: Wanted, o: ObjectId)
    requires o in objects
  {
    objects[o].isEmpty && objects[o].children != [] && Fold(objects[o].name) == Fold(w.stem)
  }

  function Roots(objects: Objects, exported: set<ObjectId>, w: Wanted): set<ObjectId>
    requires Described(objects, exported)
  {
    set o | o in exported && IsRoot(objects, w, o)
  }

  predicate IsPivot(objects: Objects, o: ObjectId)
    requires o in objects
  {
    objects[o].isEmpty && objects[o].children != [] && objects[o].generated && objects[o].pivotRole
  }

  function Pivots(objects: Objects, exported: set<ObjectId>): set<ObjectId>
    requires Described(objects, exported)
  {
    set o | o in exported && IsPivot(objects, o)
  }

  /** New in this run, and carrying exactly this run's source tags. */
  predicate NewAndOwned(objects: Objects, w: Wanted, before: Before, o: ObjectId)
    requires o in objects
  {
    && o !in before.identities
    && w.fbx != "" && w.identity != ""
    && objects[o].sourceFbx == w.fbx && objects[o].sourceIdentity == w.identity
  }

  // ---- The parent/child component of an object inside Export ----

  predicate Linked(objects: Objects, a: ObjectId, b: ObjectId) {
    a in objects && (objects[a].parent == Some(b) || b in objects[a].children)
  }

  ghost predicate IsPath(objects: Objects, exported: set<ObjectId>, path: seq<ObjectId>, a: ObjectId, b: ObjectId) {
    && path != [] && path[0] == a && path[|path| - 1] == b
    && (forall i :: 0 <= i < |path| ==> path[i] in exported)
    && forall i :: 0 <= i < |path| - 1 ==> Linked(objects, path[i], path[i + 1])
  }

  ghost predicate Reaches(objects: Objects, exported: set<ObjectId>, a: ObjectId, b: ObjectId) {
    exists path :: IsPath(objects, exported, path, a, b)
  }

  ghost function Component(objects: Objects, exported: set<ObjectId>, root: ObjectId): set<ObjectId> {
    set o | o in exported && Reaches(objects, exported, root, o)
  }

  ghost predicate ClosedUnderLinks(objects: Objects, exported: set<ObjectId>, s: set<ObjectId>) {
    forall a, b :: a in s && b in exported && Linked(objects, a, b) ==> b in s
  }

  lemma ExtendPath(objects: Objects, exported: set<ObjectId>, root: ObjectId, a: ObjectId, b: ObjectId)
    requires Reaches(objects, exported, root, a) && b in exported && Linked(objects, a, b)
    ensures Reaches(objects, exported, root, b)
  {
    var path :| IsPath(objects, exported, path, root, a);
    assert IsPath(objects, exported, path + [b], root, b);
  }

  lemma {:induction false} PathStaysInside(
      objects: Objects, exported: set<ObjectId>, path: seq<ObjectId>, a: ObjectId, b: ObjectId, s: set<ObjectId>)
    requires IsPath(objects, exported, path, a, b) && a in s && ClosedUnderLinks(objects, exported, s)
    ensures b in s
  {
    if |path| > 1 {
      var n := |path| - 1;
      assert IsPath(objects, exported, path[..n], a, path[n - 1]);
      PathStaysInside(objects, exported, path[..n], a, path[n - 1], s);
      assert Linked(objects, path[n - 1], path[n]);
    }
  }

  /** The component is the least set that holds the root and is closed under links. */
  lemma ComponentIsLeastClosed(objects: Objects, exported: set<ObjectId>, root: ObjectId, s: set<ObjectId>)
    requires root in exported && root in s && ClosedUnderLinks(objects, exported, s)
    ensures Component(objects, exported, root) <= s
    ensures root in Component(objects, exported, root)
    ensures ClosedUnderLinks(objects, exported, Component(objects, exported, root))
  {
    forall o | o in Component(objects, exported, root) ensures o in s {
      var path :| IsPath(objects, exported, path, root, o);
      PathStaysInside(objects, exported, path, root, o, s);
    }
    assert IsPath(objects, exported, [root], root, root);
    forall a, b | a in Component(objects, exported, root) && b in exported && Linked(objects, a, b)
      ensures b in Component(objects, exported, root)
    {
      ExtendPath(objects, exported, root, a, b);
    }
  }

  /** Parent and child records agree with each other, as Blender keeps them. */
  ghost predicate Consistent(objects: Objects) {
    forall a, b :: Linked(objects, a, b) ==> Linked(objects, b, a)
  }

  lemma {:induction false} ReversePath(
      objects: Objects, exported: set<ObjectId>, path: seq<ObjectId>, a: ObjectId, b: ObjectId)
    requires Consistent(objects) && IsPath(objects, exported, path, a, b)
    ensures Reaches(objects, exported, b, a)
  {
    var back := seq(|path|, i requires 0 <= i < |path| => path[|path| - 1 - i]);
    forall i | 0 <= i < |back| - 1 ensures Linked(objects, back[i], back[i + 1]) {
      var j := |path| - 2 - i;
      assert Linked(objects, path[j], path[j + 1]);
    }
    assert IsPath(objects, exported, back, b, a);
  }

  /** With agreeing records the component is a true component: every member has the same one,
      so no hierarchy that stays in Export is linked to a moved object. */
  lemma ComponentsAreDisjoint(objects: Objects, exported: set<ObjectId>, root: ObjectId, o: ObjectId)
    requires Consistent(objects) && root in exported && o in Component(objects, exported, root)
    ensures Component(objects, exported, o) == Component(objects, exported, root)
    ensures forall p :: p in exported && p !in Component(objects, exported, root) ==>
              !Linked(objects, p, o) && !Linked(objects, o, p)
  {
    var path :| IsPath(objects, exported, path, root, o);
    ReversePath(objects, exported, path, root, o);
    ComponentIsLeastClosed(objects, exported, root, exported);
    ComponentIsLeastClosed(objects, exported, o, exported);
    ComponentIsLeastClosed(objects, exported, root, Component(objects, exported, o));
    ComponentIsLeastClosed(objects, exported, o, Component(objects, exported, root));
  }

  // ---- Which report the rules call for ----

  /** `root` heads the one hierarchy of this run in Export, all of it new and exactly owned. */
  ghost predicate Owned(objects: Objects, exported: set<ObjectId>, w: Wanted, before: Before, root: ObjectId)
    requires Described(objects, exported)
  {
    && root in exported
    && before.unsuffixedNames == []
    && Roots(objects, exported, w) == {root}
    && forall o :: o in Component(objects, exported, root) ==> NewAndOwned(objects, w, before, o)
  }

  /** The same, and whether another normalized pivot stands beside it. */
  ghost predicate Proven(
      objects: Objects, exported: set<ObjectId>, w: Wanted, before: Before, root: ObjectId, pivotElsewhere: bool)
    requires Described(objects, exported)
  {
    && Owned(objects, exported, w, before, root)
    && (pivotElsewhere <==> Pivots(objects, exported) - {root} != {})
  }

  predicate NothingToDo(objects: Objects, exported: set<ObjectId>, hasExport: bool, w: Wanted, before: Before)
    requires Described(objects, exported)
  {
    !hasExport || (before.unsuffixedNames == [] && Roots(objects, exported, w) == {})
  }

  /** Why an Export that has something to reconcile is refused. */
  ghost function Refusal(objects: Objects, exported: set<ObjectId>, w: Wanted, before: Before): string
    requires Described(objects, exported)
  {
    var roots := Roots(objects, exported, w);
    if before.unsuffixedNames != [] then "persisted_unsuffixed_export_root"
    else if |roots| > 1 then "multiple_unsuffixed_export_roots"
    else if roots * before.identities != {} then "persisted_unsuffixed_export_root"
    else if exists root :: Proven(objects, exported, w, before, root, true) then "missing_source_collection"
    else "ambiguous_unsuffixed_export_hierarchy"
  }

  // ---- The same rules, told by the objects ----

  /** An empty with children that bears the stem's name, in any case. */
  predicate Heads(i: Info, stem: string) { i.isEmpty && |i.children| > 0 && Fold(i.name) == Fold(stem) }

  /** A normalized pivot: an empty with children and both pivot tags. */
  predicate PivotLike(i: Info) { i.isEmpty && |i.children| > 0 && i.generated && i.pivotRole }

  /** Made in this run, and tagged with its FBX and its source, both known. */
  predicate FromThisRun(i: Info, o: ObjectId, w: Wanted, before: Before) {
    o !in before.identities && |w.fbx| > 0 && |w.identity| > 0 && i.sourceFbx == w.fbx && i.sourceIdentity == w.identity
  }

  /** A way through Export from parent to child or from child to parent, one step at a time. */
  ghost predicate Chain(objects: Objects, exported: set<ObjectId>, way: seq<ObjectId>) {
    && |way| > 0 && (forall i :: 0 <= i < |way| ==> way[i] in exported && way[i] in objects)
    && forall i :: 0 <= i < |way| - 1 ==>
         objects[way[i]].parent == Some(way[i + 1]) || way[i + 1] in objects[way[i]].children
  }

  ghost predicate Joined(objects: Objects, exported: set<ObjectId>, a: ObjectId, b: ObjectId) {
    exists way :: Chain(objects, exported, way) && way[0] == a && way[|way| - 1] == b
  }

  lemma IsDescribed(objects: Objects, exported: set<ObjectId>, o: ObjectId)
    requires Described(objects, exported) && o in exported
    ensures o in objects
  {}

  lemma ComponentMeans(objects: Objects, exported: set<ObjectId>, root: ObjectId, o: ObjectId)
    requires Described(objects, exported)
    ensures o in Component(objects, exported, root) <==> Joined(objects, exported, root, o)
  {
    if path :| IsPath(objects, exported, path, root, o) {
      forall i | 0 <= i < |path| ensures path[i] in objects { IsDescribed(objects, exported, path[i]); }
      forall i | 0 <= i < |path| - 1
        ensures objects[path[i]].parent == Some(path[i + 1]) || path[i + 1] in objects[path[i]].children
      {
        assert Linked(objects, path[i], path[i + 1]);
      }
      assert Chain(objects, exported, path);
    }
    if way :| Chain(objects, exported, way) && way[0] == root && way[|way| - 1] == o {
      assert IsPath(objects, exported, way, root, o);
    }
  }

  /** What is proven of a hierarchy: its root is the one that bears the name, none bore it before the
      run, and everything joined to it is of this run; and whether another pivot stands in Export. */
  lemma ProvenMeans(
      objects: Objects, exported: set<ObjectId>, w: Wanted, before: Before, root: ObjectId, pivotElsewhere: bool)
    requires Described(objects, exported)
    ensures Proven(objects, exported, w, before, root, pivotElsewhere) <==>
              && |before.unsuffixedNames| == 0 && root in exported
              && (forall o :: o in exported ==> (Heads(objects[o], w.stem) <==> o == root))
              && (forall o :: o in exported && Joined(objects, exported, root, o) ==>
                  FromThisRun(objects[o], o, w, before))
              && (pivotElsewhere <==> exists o :: o in exported && o != root && PivotLike(objects[o]))
  {
    forall o ensures o in Component(objects, exported, root) <==> Joined(objects, exported, root, o) {
      ComponentMeans(objects, exported, root, o);
    }
    forall o | o in exported
      ensures o in Roots(objects, exported, w) <==> Heads(objects[o], w.stem)
      ensures o in Pivots(objects, exported) <==> PivotLike(objects[o])
      ensures NewAndOwned(objects, w, before, o) <==> FromThisRun(objects[o], o, w, before)
    {
    }
    OnlyRoot(objects, exported, w, root);
    if o :| o in exported && o != root && PivotLike(objects[o]) { assert o in Pivots(objects, exported) - {root}; }
  }

  lemma OnlyRoot(objects: Objects, exported: set<ObjectId>, w: Wanted, root: ObjectId)
    requires Described(objects, exported)
    ensures root in exported && Roots(objects, exported, w) == {root} <==>
              root in exported && forall o :: o in exported ==> (Heads(objects[o], w.stem) <==> o == root)
  {
    var roots := Roots(objects, exported, w);
    assert forall o :: o in exported ==> (o in roots <==> Heads(objects[o], w.stem));
    if root in exported && forall o :: o in exported ==> (Heads(objects[o], w.stem) <==> o == root) {
      assert roots == {root};
    }
  }

  /** Nothing is asked of an Export that is missing, or in which the name is and was unused. */
  lemma NothingToDoMeans(objects: Objects, exported: set<ObjectId>, hasExport: bool, w: Wanted, before: Before)
    requires Described(objects, exported)
    ensures NothingToDo(objects, exported, hasExport, w, before) <==>
              hasExport ==> |before.unsuffixedNames| == 0 && forall o :: o in exported ==> !Heads(objects[o], w.stem)
  {
    if o :| o in exported && Heads(objects[o], w.stem) { assert o in Roots(objects, exported, w); }
  }

  /** The reason of a refusal: an older root, several roots, a root of an earlier run, a missing
      collection to move to, or else a hierarchy that is not all of this run. */
  lemma RefusalMeans(objects: Objects, exported: set<ObjectId>, w: Wanted, before: Before)
    requires Described(objects, exported)
    ensures var named := exists o :: o in exported && Heads(objects[o], w.stem) && o in before.identities;
            var several := exists o, p :: o in exported && p in exported && o != p &&
                             Heads(objects[o], w.stem) && Heads(objects[p], w.stem);
            var reason := Refusal(objects, exported, w, before);
            if |before.unsuffixedNames| > 0 then reason == "persisted_unsuffixed_export_root"
            else if several then reason == "multiple_unsuffixed_export_roots"
            else if named then reason == "persisted_unsuffixed_export_root"
            else if exists root :: Proven(objects, exported, w, before, root, true) then
              reason == "missing_source_collection"
            else reason == "ambiguous_unsuffixed_export_hierarchy"
  {
    var roots := Roots(objects, exported, w);
    assert forall o :: o in roots <==> o in exported && Heads(objects[o], w.stem);
    Several(roots);
    if o :| o in exported && Heads(objects[o], w.stem) && o in before.identities {
      assert o in roots * before.identities;
    }
  }

  lemma Several<T>(s: set<T>)
    ensures |s| > 1 <==> exists a, b :: a in s && b in s && a != b
  {
    if a, b :| a in s && b in s && a != b {
      assert {a, b} <= s;
      SmallerOrEqual({a, b}, s);
    }
    if |s| > 1 {
      var a :| a in s;
      var rest := s - {a};
      assert s == rest + {a};
      var b :| b in rest;
    }
  }

  lemma SmallerOrEqual<T>(a: set<T>, b: set<T>)
    requires a <= b
    ensures |a| <= |b|
  {
    assert b == a + (b - a);
  }

  class Scene {
    var objects: Objects
    var hasExport: bool
    var exported: set<ObjectId>
    var hasSource: bool
    var sourced: set<ObjectId>

    ghost predicate Valid()
      reads this
    {
      && Described(objects, exported) && Described(objects, sourced)
      && (!hasExport ==> exported == {}) && (!hasSource ==> sourced == {})
    }

    /** A scene with both collections. */
    constructor (objects: Objects, exported: set<ObjectId>, sourced: set<ObjectId>)
      requires Described(objects, exported) && Described(objects, sourced)
      ensures Valid() && this.objects == objects && this.exported == exported && this.sourced == sourced
      ensures hasExport && hasSource
    {
      this.objects, this.exported, this.sourced := objects, exported, sourced;
      hasExport, hasSource := true, true;
    }

    /** The worklist: everything reachable from `root` through parents and children that are
        still in Export, for any shape of links, cycles included. */
    method CollectHierarchy(root: ObjectId) returns (connected: set<ObjectId>)
      requires Valid() && root in exported
      ensures connected == Component(objects, exported, root)
    {
      connected := {};
      var pending := [root];
      assert IsPath(objects, exported, [root], root, root);
      while pending != []
        invariant connected <= exported
        invariant root in connected || root in pending
        invariant forall o :: o in connected || o in pending ==> Reaches(objects, exported, root, o)
        invariant forall a, b :: a in connected && b in exported && Linked(objects, a, b) ==>
            b in connected || b in pending
        decreases |exported - connected|, |pending|
      {
        var o := pending[|pending| - 1];
        var rest := pending[..|pending| - 1];
        assert pending == rest + [o];
        if o in connected || o !in exported {
          pending := rest;
        } else {
          ghost var before := connected;
          connected := connected + {o};
          assert exported - connected < exported - before by { assert o in exported - before; }
          SmallerSet(exported - connected, exported - before);
          var parents := match objects[o].parent
            case Some(p) => if p in exported then [p] else []
            case None => [];
          var kids := Exported(objects[o].children);
          forall b | b in parents + kids ensures Reaches(objects, exported, root, b) {
            ExtendPath(objects, exported, root, o, b);
          }
          pending := rest + parents + kids;
        }
      }
      assert ClosedUnderLinks(objects, exported, connected);
      ComponentIsLeastClosed(objects, exported, root, connected);
    }

    function Exported(ids: seq<ObjectId>): (r: seq<ObjectId>)
      reads this
      ensures forall o :: o in r <==> o in ids && o in exported
    {
      if ids == [] then []
      else if ids[0] in exported then [ids[0]] + Exported(ids[1..])
      else Exported(ids[1..])
    }

    /** The move loop, in any order. `byName` says whether the collection looks objects up by
        name, as Blender's does; then an object is lost exactly when another object of that
        name is already in the source collection when its turn comes. */
    method MoveToSource(moved: set<ObjectId>, byName: bool)
      requires Valid() && moved <= exported && hasSource
      modifies this`exported, this`sourced
      ensures Valid()
      ensures exported == old(exported) - moved
      ensures old(sourced) <= sourced <= old(sourced) + moved
      ensures moved <= sourced <==> NoNameTaken(objects, old(sourced), moved, byName)
      ensures forall o :: o in moved && o !in sourced ==> byName && NameIn(objects, sourced, o)
      ensures moved <= sourced <==>
                (byName ==> forall o, p :: o in moved && o !in old(sourced) && p in old(sourced) + moved && p != o ==>
                   objects[p].name != objects[o].name)
      ensures forall o :: o in moved && o !in sourced ==>
                byName && exists p :: p in sourced && objects[p].name == objects[o].name
    {
      var todo := moved;
      ghost var kept := true;
      while todo != {}
        invariant todo <= moved && Described(objects, sourced)
        invariant exported == old(exported) - (moved - todo)
        invariant old(sourced) <= sourced <= old(sourced) + (moved - todo)
        invariant kept <==> moved - todo <= sourced
        invariant kept ==> NoNameTaken(objects, old(sourced), moved - todo, byName)
        invariant !kept ==> !NoNameTaken(objects, old(sourced), moved, byName)
        invariant forall o :: o in moved - todo && o !in sourced ==> byName && NameIn(objects, sourced, o)
        invariant Described(objects, moved)
        decreases todo
      {
        var o := Take(todo);
        var alreadyLinked := if byName then NameIn(objects, sourced, o) else o in sourced;
        if !alreadyLinked {
          sourced := sourced + {o};
        } else if o !in sourced {
          kept := false;
        }
        exported := exported - {o};
        todo := todo - {o};
      }
    }

    /** The checks up to the persisted pivots: the one hierarchy to reconcile, or the report. */
    method FindHierarchy(
        w: Wanted, before: Before) returns (found: Option<ObjectId>, connected: set<ObjectId>, report: Report)
      requires Valid()
      ensures found.Some? ==> hasExport && Owned(objects, exported, w, before, found.value)
      ensures found.Some? ==> connected == Component(objects, exported, found.value)
      ensures found.Some? ==> found.value in connected && found.value !in before.identities
      ensures found.None? ==> !hasExport || forall root :: root in exported ==>
          !Owned(objects, exported, w, before, root)
      ensures found.None? ==> report.NotNeeded? || report.Blocked?
      ensures found.None? ==> (report.NotNeeded? <==> NothingToDo(objects, exported, hasExport, w, before))
      ensures found.None? && report.Blocked? ==> hasExport && report.reason == Refusal(objects, exported, w, before)
    {
      found, connected, report := None, {}, NotNeeded;
      if !hasExport {
        return;
      }
      var roots := Roots(objects, exported, w);
      if before.unsuffixedNames != [] {
        return found, connected, Blocked("persisted_unsuffixed_export_root");
      }
      if roots == {} {
        return;
      }
      var root :| root in roots;
      if roots != {root} {
        assert |roots - {root}| > 0;
        return found, connected, Blocked("multiple_unsuffixed_export_roots");
      }
      ComponentIsLeastClosed(objects, exported, root, exported);
      if root in before.identities {
        assert !NewAndOwned(objects, w, before, root);
        return found, connected, Blocked("persisted_unsuffixed_export_root");
      }
      connected := CollectHierarchy(root);
      var ambiguous := set o | o in connected && !NewAndOwned(objects, w, before, o);
      if ambiguous != {} {
        var bad :| bad in ambiguous;
        assert !NewAndOwned(objects, w, before, bad);
        return found, connected, Blocked("ambiguous_unsuffixed_export_hierarchy");
      }
      assert forall o :: o in connected && !NewAndOwned(objects, w, before, o) ==> o in ambiguous;
      found := Some(root);
    }

    /** `reconcile_transient_cluster_export_root`. */
    method Reconcile(w: Wanted, before: Before, byName: bool) returns (report: Report)
      requires Valid()
      modifies this
      ensures Valid()
      ensures unchanged(`hasExport) && unchanged(`hasSource)
      // "reconciled": exactly when one new, exactly owned hierarchy stands beside a persisted pivot
      ensures report.Reconciled? <==>
                old(hasExport) && old(hasSource) && exists root :: old(Proven(objects, exported, w, before, root, true))
      ensures report.Reconciled? ==>
                && (exists root :: old(Proven(objects, exported, w, before, root, true))
                      && report.moved == old(Component(objects, exported, root)))
                && exported == old(exported) - report.moved && objects == old(objects)
                && old(sourced) <= sourced <= old(sourced) + report.moved
                && (report.moved <= sourced <==> NoNameTaken(objects, old(sourced), report.moved, byName))
                && (forall o :: o in report.moved && o !in sourced ==> byName && NameIn(objects, sourced, o))
      // every other status keeps both collections
      ensures !report.Reconciled? ==> exported == old(exported) && sourced == old(sourced)
      ensures report.NotNeeded? || report.Blocked? ==> objects == old(objects)
      // "normalized": exactly the same hierarchy with no pivot beside it; the root becomes the only pivot
      ensures report.Normalized? <==>
                old(hasExport) && exists root :: old(Proven(objects, exported, w, before, root, false))
      ensures report.Normalized? ==>
                && old(Proven(objects, exported, w, before, report.root, false))
                && Pivots(objects, exported) == {report.root}
                && objects == old(objects)[report.root := old(objects)[report.root].(
                     name := w.stem + "_01", generated := true, pivotRole := true)]
      // "not needed" and "blocked": nothing to reconcile, or the first reason not to
      ensures report.NotNeeded? <==> old(NothingToDo(objects, exported, hasExport, w, before))
      ensures report.Blocked? ==> old(hasExport) && report.reason == old(Refusal(objects, exported, w, before))
      // either way nothing is left for a second run
      ensures report.Reconciled? || report.Normalized? ==> Roots(objects, exported, w) == {}
    {
      var found, connected, refusal := FindHierarchy(w, before);
      if found.None? {
        return refusal;
      }
      var root := found.value;
      var persisted := set o | o in exported && o != root && IsPivot(objects, o);
      assert persisted == Pivots(objects, exported) - {root};
      assert Proven(objects, exported, w, before, root, persisted != {});
      if persisted == {} {
        Promote(w, root);
        return Normalized(root);
      }
      ghost var roots := Roots(objects, exported, w);
      assert roots * before.identities == {};
      if !hasSource {
        return Blocked("missing_source_collection");
      }
      MoveToSource(connected, byName);
      assert forall o :: o in exported ==> o !in roots;
      return Reconciled(connected);
    }

    /** The root becomes the first export pivot, in place. */
    method Promote(w: Wanted, root: ObjectId)
      requires Valid() && Roots(objects, exported, w) == {root} && Pivots(objects, exported) - {root} == {}
      modifies this`objects
      ensures Valid()
      ensures Pivots(objects, exported) == {root} && Roots(objects, exported, w) == {}
      ensures objects == old(objects)[root := old(objects)[root].(
                           name := w.stem + "_01", generated := true, pivotRole := true)]
    {
      assert root in Roots(objects, exported, w);
      ghost var was := objects;
      objects := objects[root := objects[root].(name := w.stem + "_01", generated := true, pivotRole := true)];
      assert Fold(w.stem + "_01") != Fold(w.stem) by { assert |w.stem + "_01"| != |w.stem|; }
      NormalizedAlone(was, objects, exported, w, root);
    }
  }

  lemma NormalizedAlone(was: Objects, objects: Objects, exported: set<ObjectId>, w: Wanted, root: ObjectId)
    requires Described(was, exported) && Described(objects, exported) && root in exported
    requires was.Keys == objects.Keys && forall o :: o in was && o != root ==> objects[o] == was[o]
    requires Roots(was, exported, w) == {root} && Pivots(was, exported) - {root} == {}
    requires IsRoot(was, w, root) && IsPivot(objects, root) && Fold(objects[root].name) != Fold(w.stem)
    ensures Roots(objects, exported, w) == {} && Pivots(objects, exported) == {root}
  {
    forall o | o in exported && o != root ensures !IsRoot(objects, w, o) && !IsPivot(objects, o) {
      assert o !in Roots(was, exported, w) && o !in Pivots(was, exported);
    }
  }

  lemma SmallerSet(a: set<ObjectId>, b: set<ObjectId>)
    requires a < b
    ensures |a| < |b|
  {
    assert b == a + (b - a);
    assert b - a != {};
  }

  /** An object of the same name is among `ids`. */
  predicate NameIn(objects: Objects, ids: set<ObjectId>, o: ObjectId)
    requires Described(objects, ids) && o in objects
  {
    exists p :: p in ids && objects[p].name == objects[o].name
  }

  /** No object to be moved shares its name with another one there or on the way. */
  ghost predicate NoNameTaken(objects: Objects, sourced: set<ObjectId>, moved: set<ObjectId>, byName: bool)
    requires Described(objects, sourced) && Described(objects, moved)
  {
    byName ==> forall o, p :: o in moved && o !in sourced && p in sourced + moved && p != o ==>
      objects[p].name != objects[o].name
  }

  // ---- A namesake that is lost ----

  const PIVOT := Info("other_01", true, None, [9], "", "", true, true)
  const ROOT := Info("leaf", true, None, [2], "leaf.fbx", "leaf.spm", false, false)
  const CHILD := Info("Mesh", false, Some(1), [], "leaf.fbx", "leaf.spm", false, false)
  const LINKED := Info("Mesh", false, None, [], "", "", false, false)

  /** The new hierarchy has an object of the same name as one in the source collection that is
      linked from another library; within one library Blender keeps names apart. */
  const NAMESAKES: Objects := map[1 := ROOT, 2 := CHILD, 3 := PIVOT, 4 := LINKED]

  const LEAVES := Wanted("leaf", "leaf.fbx", "leaf.spm")

  lemma NamesakesRoots()
    ensures Described(NAMESAKES, {1, 2, 3}) && Roots(NAMESAKES, {1, 2, 3}, LEAVES) == {1}
  {
    assert Fold("leaf") != Fold("other_01") by { assert |"leaf"| != |"other_01"|; }
    assert IsRoot(NAMESAKES, LEAVES, 1) && !IsRoot(NAMESAKES, LEAVES, 2) && !IsRoot(NAMESAKES, LEAVES, 3);
  }

  lemma NamesakesPivots()
    ensures Described(NAMESAKES, {1, 2, 3}) && Pivots(NAMESAKES, {1, 2, 3}) == {3}
  {
    assert IsPivot(NAMESAKES, 3) && !IsPivot(NAMESAKES, 1) && !IsPivot(NAMESAKES, 2);
  }

  lemma NamesakesComponent()
    ensures Described(NAMESAKES, {1, 2, 3}) && Component(NAMESAKES, {1, 2, 3}, 1) == {1, 2}
  {
    var exported := {1, 2, 3};
    assert Linked(NAMESAKES, 1, 2);
    assert IsPath(NAMESAKES, exported, [1], 1, 1) && IsPath(NAMESAKES, exported, [1, 2], 1, 2);
    ComponentIsLeastClosed(NAMESAKES, exported, 1, {1, 2});
  }

  lemma NamesakesProven()
    ensures Described(NAMESAKES, {1, 2, 3}) && Component(NAMESAKES, {1, 2, 3}, 1) == {1, 2}
    ensures Proven(NAMESAKES, {1, 2, 3}, LEAVES, Before({}, []), 1, true)
  {
    NamesakesRoots();
    NamesakesPivots();
    NamesakesComponent();
    assert 3 in Pivots(NAMESAKES, {1, 2, 3}) - {1};
  }

  /** The reconciliation reports success and the child is in neither collection. */
  method NamesakeIsLost() returns (scene: Scene, report: Report)
    ensures report == Reconciled({1, 2})
    ensures 2 !in scene.exported && 2 !in scene.sourced
  {
    NamesakesProven();
    scene := new Scene(NAMESAKES, {1, 2, 3}, {4});
    report := scene.Reconcile(LEAVES, Before({}, []), true);
    assert !NoNameTaken(NAMESAKES, {4}, {1, 2}, true) by {
      assert NAMESAKES[4].name == NAMESAKES[2].name;
    }
  }
}
