/**
 What the operations promise about paths that may hold NULs, on every forest: the two
 walkers agree, a created path opens, deleting undoes creating, a moved node opens at its
 destination, and a delete uncovers the next sibling that the path matches, if there is one.
 */
module RamfsBytePaths {
  import opened Prelude
  import opened RamfsPath
  import opened RamfsTable
  import opened RamfsTree
  import opened RamfsMove
  import opened RamfsRuns
  import opened RamfsBytes
  import opened RamfsForest

  // ---- the two walkers ----

  lemma {:induction false} ByteResolveConcat(t: Table, i: nat, x: seq<Segment>, y: seq<Segment>)
    requires i < |t|
    ensures ByteResolve(t, i, x + y)
         == match ByteResolve(t, i, x) { case None => None case Some(j) => ByteResolve(t, j, y) }
    decreases x
  {
    if x == [] {
      assert x + y == y;
    } else {
      assert (x + y)[1..] == x[1..] + y;
      if ByteChild(t, i, x[0]).Some? {
        ByteResolveConcat(t, ByteChild(t, i, x[0]).value, x[1..], y);
      }
    }
  }

  function Id(slot: Option<nat>): Option<nat> {
    match slot case None => None case Some(s) => Some(s + 1)
  }

  /** `ramfs_walk_parent` and `ramfs_open` read every path the same way. */
  lemma ByteWalkAgrees(t: Table, base: nat, path: seq<u8>)
    requires ByteWalkParent(t, base, path).Some?
    ensures var w := ByteWalkParent(t, base, path).value;
            ByteOpen(t, base, path) == Id(ByteChild(t, w.parent, w.leaf))
  {
    var w := ByteWalkParent(t, base, path).value;
    var init := WalkSplits(t, base, path);
    ByteResolveConcat(t, base - 1, init, [w.leaf]);
    OneSegment(t, w.parent, w.leaf);
    hide ByteWalkParent, ByteResolve, Segments;
  }

  lemma OneSegment(t: Table, i: nat, seg: Segment)
    requires i < |t|
    ensures ByteResolve(t, i, [seg]) == ByteChild(t, i, seg)
  {
    assert [seg][1..] == [];
  }

  /** How a path splits where its parent walk ends. */
  lemma WalkSplits(t: Table, base: nat, path: seq<u8>) returns (init: seq<Segment>)
    requires ByteWalkParent(t, base, path).Some?
    ensures BaseOk(t, base, path) && Segments(path) == init + [ByteWalkParent(t, base, path).value.leaf]
    ensures ByteResolve(t, base - 1, init) == Some(ByteWalkParent(t, base, path).value.parent)
    ensures init == DropDots(RawSegments(path)[..|RawSegments(path)| - 1])
  {
    init := DropDots(RawSegments(path)[..|RawSegments(path)| - 1]);
    SegmentsSplit(path);
  }

  /** A walk that has succeeded once succeeds wherever its directories resolve. */
  lemma WalkAgain(t: Table, u: Table, base: nat, path: seq<u8>, init: seq<Segment>)
    requires ByteWalkParent(t, base, path).Some? && BaseOk(u, base, path)
    requires init == DropDots(RawSegments(path)[..|RawSegments(path)| - 1])
    requires ByteResolve(u, base - 1, init) == Some(ByteWalkParent(t, base, path).value.parent)
    requires IsDirectory(u, ByteWalkParent(t, base, path).value.parent + 1)
    ensures ByteWalkParent(u, base, path) == ByteWalkParent(t, base, path)
  {
    hide ByteResolve, DropDots, RawSegments;
  }

  /** On a path that opens, the parent walk fails only when nothing or "." comes last. */
  lemma ByteWalkFailsIff(t: Table, base: nat, path: seq<u8>)
    requires Forest(t) && ByteOpen(t, base, path).Some?
    ensures var raw := RawSegments(path);
            ByteWalkParent(t, base, path).Some? <==> raw != [] && raw[|raw| - 1] != DOT_SEGMENT
  {
    var raw := RawSegments(path);
    if raw != [] && raw[|raw| - 1] != DOT_SEGMENT {
      var init, last := DropDots(raw[..|raw| - 1]), raw[|raw| - 1];
      SegmentsSplit(path);
      ByteResolveConcat(t, base - 1, init, [last]);
      var p := ByteResolve(t, base - 1, init).value;
      assert LinkSound(t, ByteChild(t, p, last).value);
    }
  }

  // ---- walks that a change does not reach ----

  lemma {:induction false} FirstIs(t: Table, parent: nat, seg: Segment, k: nat, c: nat)
    requires k <= c < |t| && ByteMatches(t[c], parent, seg)
    requires forall j :: k <= j < c ==> !ByteMatches(t[j], parent, seg)
    ensures FirstByteMatch(t, parent, seg, k) == Some(c)
    decreases c - k
  {
    if k < c {
      FirstIs(t, parent, seg, k + 1, c);
    }
  }

  lemma {:induction false} NoneBefore(t: Table, parent: nat, seg: Segment, k: nat)
    requires k <= |t| && FirstByteMatch(t, parent, seg, k).Some?
    ensures forall j :: k <= j < FirstByteMatch(t, parent, seg, k).value ==> !ByteMatches(t[j], parent, seg)
    decreases |t| - k
  {
    if !ByteMatches(t[k], parent, seg) {
      NoneBefore(t, parent, seg, k + 1);
    }
  }

  lemma {:induction false} SkipTo(t: Table, parent: nat, seg: Segment, k: nat, n: nat)
    requires k <= n <= |t| && forall j :: k <= j < n ==> !ByteMatches(t[j], parent, seg)
    ensures FirstByteMatch(t, parent, seg, k) == FirstByteMatch(t, parent, seg, n)
    decreases n - k
  {
    if k < n {
      SkipTo(t, parent, seg, k + 1, n);
    }
  }

  lemma {:induction false} SameFrom(t: Table, u: Table, parent: nat, seg: Segment, k: nat)
    requires |u| == |t| && k <= |t| && forall j :: k <= j < |t| ==> u[j] == t[j]
    ensures FirstByteMatch(u, parent, seg, k) == FirstByteMatch(t, parent, seg, k)
    decreases |t| - k
  {
    if k < |t| {
      SameFrom(t, u, parent, seg, k + 1);
    }
  }

  /** Only slot `m` differs, and in `u` it hangs below `p` if anywhere. */
  predicate OnlyTouches(t: Table, u: Table, m: nat, p: nat) {
    && |u| == |t| && m < |t|
    && (forall j :: 0 <= j < |t| && j != m ==> u[j] == t[j])
    && (u[m].active ==> u[m].parent == p + 1)
  }

  /** A lookup elsewhere that did not find `m` finds the same node. */
  lemma LookupStays(t: Table, u: Table, m: nat, p: nat, s: nat, seg: Segment)
    requires OnlyTouches(t, u, m, p) && s != p && ByteChild(t, s, seg).Some? && ByteChild(t, s, seg) != Some(m)
    ensures ByteChild(u, s, seg) == ByteChild(t, s, seg)
  {
    NoneBefore(t, s + 1, seg, 0);
    FirstIs(u, s + 1, seg, 0, ByteChild(t, s, seg).value);
  }

  lemma {:induction false} ParentIsAncestor(t: Table, c: nat, i: nat, n: nat)
    requires 0 < c < |t| && t[c].parent >= 1 && AncestorWithin(t, c, i, n)
    ensures Ancestor(t, t[c].parent - 1, i)
    decreases n
  {
    if i == c {
      assert AncestorWithin(t, t[c].parent - 1, t[c].parent - 1, 0);
      assert AncestorWithin(t, t[c].parent - 1, c, 1);
    } else {
      ParentIsAncestor(t, c, t[i].parent - 1, n - 1);
      AncestorStep(t, t[c].parent - 1, i);
    }
  }

  lemma {:induction false} WalkIsBelow(t: Table, i: nat, segs: seq<Segment>)
    requires Forest(t) && i < |t| && t[i].active && ByteResolve(t, i, segs).Some?
    ensures Ancestor(t, i, ByteResolve(t, i, segs).value)
    decreases segs
  {
    var p := ByteResolve(t, i, segs).value;
    if segs == [] {
      assert AncestorWithin(t, i, p, 0);
    } else {
      var c := ByteChild(t, i, segs[0]).value;
      WalkIsBelow(t, c, segs[1..]);
      var n: nat :| AncestorWithin(t, c, p, n);
      ParentIsAncestor(t, c, p, n);
    }
  }

  /** A walk goes down one link a segment. */
  lemma {:induction false} WalkDepth(t: Table, i: nat, segs: seq<Segment>)
    requires Forest(t) && i < |t| && t[i].active && ByteResolve(t, i, segs).Some?
    ensures |PathOf(t, ByteResolve(t, i, segs).value)| == |PathOf(t, i)| + |segs|
    decreases segs
  {
    if segs != [] {
      var c := ByteChild(t, i, segs[0]).value;
      ChildDepth(t, i, c);
      hide PathOf;
      WalkDepth(t, c, segs[1..]);
    }
  }

  lemma ChildDepth(t: Table, i: nat, c: nat)
    requires Forest(t) && c < |t| && t[c].active && t[c].parent == i + 1
    ensures |PathOf(t, c)| == |PathOf(t, i)| + 1
  {
    assert ChainOk(t, c);
    ParentRooted(t, c);
  }

  /** So a walk that ends at `p` looks nothing up at `p` on its way, and survives the change. */
  lemma {:induction false} ResolveStays(t: Table, u: Table, m: nat, i: nat, segs: seq<Segment>)
    requires Forest(t) && i < |t| && t[i].active && ByteResolve(t, i, segs).Some?
    requires OnlyTouches(t, u, m, ByteResolve(t, i, segs).value) && !Ancestor(t, m, ByteResolve(t, i, segs).value)
    ensures ByteResolve(u, i, segs) == ByteResolve(t, i, segs)
    decreases segs
  {
    if segs != [] {
      var p, c := ByteResolve(t, i, segs).value, ByteChild(t, i, segs[0]).value;
      WalkDepth(t, i, segs);
      WalkIsBelow(t, c, segs[1..]);
      LookupStays(t, u, m, p, i, segs[0]);
      ResolveStays(t, u, m, c, segs[1..]);
    }
  }

  lemma WalkStays(t: Table, u: Table, m: nat, base: nat, path: seq<u8>)
    requires Forest(t) && ByteWalkParent(t, base, path).Some?
    requires OnlyTouches(t, u, m, ByteWalkParent(t, base, path).value.parent)
    requires !Ancestor(t, m, ByteWalkParent(t, base, path).value.parent)
    ensures ByteWalkParent(u, base, path) == ByteWalkParent(t, base, path)
  {
    var raw, p := RawSegments(path), ByteWalkParent(t, base, path).value.parent;
    var init := DropDots(raw[..|raw| - 1]);
    WalkIsBelow(t, base - 1, init);
    assert AncestorWithin(t, m, m, 0);
    ResolveStays(t, u, m, base - 1, init);
    hide Forest, RawSegments, DropDots, Ancestor, ByteResolve;
  }

  // ---- create ----

  lemma {:induction false} AncestorActive(t: Table, a: nat, i: nat, k: nat, n: nat)
    requires Reaches(t, i, k) && AncestorWithin(t, a, i, n)
    ensures a < |t| && t[a].active
    decreases n
  {
    if i != a {
      AncestorActive(t, a, t[i].parent - 1, k - 1, n - 1);
    }
  }

  /** What a create that changes the table leaves for the walk and the lookup. */
  lemma ByteCreateAdds(t: Table, base: nat, path: seq<u8>, kind: nat)
    requires Forest(t) && ByteCreate(t, base, path, kind).0 != t
    ensures ByteWalkParent(t, base, path).Some? && FirstFree(t, 0).Some?
    ensures var (u, id) := ByteCreate(t, base, path, kind);
            var w, k := ByteWalkParent(t, base, path).value, FirstFree(t, 0).value;
            && id == Some(k + 1) && |w.leaf| < NAME_CAPACITY && u == Added(t, k, w.parent, w.leaf, kind)
            && ByteWalkParent(u, base, path) == Some(w) && ByteChild(u, w.parent, w.leaf) == Some(k)
  {
    var w, k := ByteWalkParent(t, base, path).value, FirstFree(t, 0).value;
    var u := Added(t, k, w.parent, w.leaf, kind);
    if Ancestor(t, k, w.parent) {
      assert ChainOk(t, w.parent);
      var r: nat :| Reaches(t, w.parent, r);
      var n: nat :| AncestorWithin(t, k, w.parent, n);
      AncestorActive(t, k, w.parent, r, n);
    }
    WalkStays(t, u, k, base, path);
    ByteChildAbsent(t, w.parent + 1, w.leaf, 0);
    FirstIs(u, w.parent + 1, w.leaf, 0, k);
  }

  /** A successful create is followed by an open of the same path giving the same id. */
  lemma ByteCreateThenOpen(t: Table, base: nat, path: seq<u8>, kind: nat)
    requires Forest(t) && ByteCreate(t, base, path, kind).1.Some?
    ensures var (u, id) := ByteCreate(t, base, path, kind);
            ByteOpen(u, base, path) == id && 1 <= id.value <= |u| && u[id.value - 1].kind == kind
  {
    if ByteCreate(t, base, path, kind).0 != t {
      ByteCreateAdds(t, base, path, kind);
    }
    ByteWalkAgrees(ByteCreate(t, base, path, kind).0, base, path);
  }

  /** Deleting a freshly created node gives the old table back, byte for byte. */
  lemma ByteDeleteUndoesCreate(t: Table, base: nat, path: seq<u8>, kind: nat)
    requires Forest(t) && ByteCreate(t, base, path, kind).0 != t
    ensures ByteDelete(ByteCreate(t, base, path, kind).0, base, path) == (t, true)
  {
    ByteCreateAdds(t, base, path, kind);
    var u, k := ByteCreate(t, base, path, kind).0, FirstFree(t, 0).value;
    assert SlotSound(t, k);
    forall j | 0 <= j < |u| && u[j].active
      ensures u[j].parent != k + 1
    {
      assert LinkSound(t, j);
    }
    assert Removed(u, k) == t;
  }

  // ---- delete ----

  lemma ByteDeleteRemoves(t: Table, base: nat, path: seq<u8>) returns (c: nat)
    requires Forest(t) && ByteDelete(t, base, path).1
    ensures c < |t| && ByteDelete(t, base, path).0 == Removed(t, c)
    ensures ByteWalkParent(t, base, path).Some?
    ensures var w := ByteWalkParent(t, base, path).value;
            ByteChild(t, w.parent, w.leaf) == Some(c) && !Ancestor(t, c, w.parent)
  {
    var w := ByteWalkParent(t, base, path).value;
    c := ByteChild(t, w.parent, w.leaf).value;
    assert SlotSound(t, c) && LinkSound(t, c);
    if t[c].kind == FILE {
      FileHasNoChild(t, c);
    }
    if Ancestor(t, c, w.parent) {
      var n: nat :| AncestorWithin(t, c, w.parent, n);
      ChildlessAboveNothing(t, c, w.parent, n);
    }
  }

  lemma RemovedUncovers(t: Table, c: nat, x: nat, seg: Segment)
    requires ByteChild(t, x, seg) == Some(c)
    ensures ByteChild(Removed(t, c), x, seg) == FirstByteMatch(t, x + 1, seg, c + 1)
  {
    NoneBefore(t, x + 1, seg, 0);
    SkipTo(Removed(t, c), x + 1, seg, 0, c + 1);
    SameFrom(t, Removed(t, c), x + 1, seg, c + 1);
  }

  /**
   After a successful delete its path opens the next sibling that the last segment matches;
   so the path is closed exactly when that segment matched no second sibling.
   */
  lemma ByteDeleteUncovers(t: Table, base: nat, path: seq<u8>)
    requires Forest(t) && ByteDelete(t, base, path).1
    ensures ByteWalkParent(t, base, path).Some?
    ensures var w := ByteWalkParent(t, base, path).value;
            && ByteOpen(t, base, path).Some? && 1 <= ByteOpen(t, base, path).value <= |t|
            && ByteOpen(ByteDelete(t, base, path).0, base, path)
               == Id(FirstByteMatch(t, w.parent + 1, w.leaf, ByteOpen(t, base, path).value))
  {
    var c := ByteDeleteRemoves(t, base, path);
    var u, w := Removed(t, c), ByteWalkParent(t, base, path).value;
    hide ByteDelete, ByteWalkParent, ByteOpen, FirstByteMatch, Forest;
    ByteWalkAgrees(t, base, path);
    WalkStays(t, u, c, base, path);
    ByteWalkAgrees(u, base, path);
    RemovedUncovers(t, c, w.parent, w.leaf);
  }

  // ---- move ----

  /** A relinked node is found at its destination, by an undisturbed walk. */
  lemma RelinkedIsFound(t: Table, m: nat, p: nat, leaf: Segment, base: nat, path: seq<u8>)
    requires MayRelink(t, m, p, leaf) && leaf != []
    requires ByteWalkParent(t, base, path) == Some(Walk(p, leaf)) && ByteChild(t, p, leaf) == None
    ensures var u := Relinked(t, m, p, leaf);
            ByteWalkParent(u, base, path) == Some(Walk(p, leaf)) && ByteChild(u, p, leaf) == Some(m)
  {
    var u := Relinked(t, m, p, leaf);
    WalkStays(t, u, m, base, path);
    ByteChildAbsent(t, p + 1, leaf, 0);
    assert u[m].name[..|leaf|] == leaf;
    FirstIs(u, p + 1, leaf, 0, m);
  }

  /** After a move that changes the table, the destination opens to the moved id. */
  lemma ByteMoveOpens(t: Table, sb: nat, sp: seq<u8>, db: nat, dp: seq<u8>)
    requires Forest(t) && ByteMove(t, sb, sp, db, dp).0 != t
    ensures ByteOpen(t, sb, sp).Some? && ByteMove(t, sb, sp, db, dp).1
    ensures ByteOpen(ByteMove(t, sb, sp, db, dp).0, db, dp) == ByteOpen(t, sb, sp)
  {
    var m, p, leaf := ByteMoveRelinks(t, sb, sp, db, dp);
    hide ByteMove, ByteWalkParent, ByteOpen;
    RelinkedIsFound(t, m, p, leaf, db, dp);
    ByteWalkAgrees(Relinked(t, m, p, leaf), db, dp);
    ByteWalkAgrees(t, sb, sp);
  }

  /** Moving onto a path that opens changes nothing, and succeeds exactly when both walks end at one node. */
  lemma ByteMoveOntoExisting(t: Table, sb: nat, sp: seq<u8>, db: nat, dp: seq<u8>)
    requires Forest(t) && ByteOpen(t, db, dp).Some?
    ensures ByteMove(t, sb, sp, db, dp).0 == t
    ensures ByteMove(t, sb, sp, db, dp).1 <==>
            && ByteWalkParent(t, sb, sp).Some? && ByteWalkParent(t, db, dp).Some?
            && ByteOpen(t, sb, sp) == ByteOpen(t, db, dp)
  {
    if ByteWalkParent(t, sb, sp).Some? && ByteWalkParent(t, db, dp).Some? {
      ByteWalkAgrees(t, sb, sp);
      ByteWalkAgrees(t, db, dp);
      var d := ByteWalkParent(t, db, dp).value;
      assert SlotSound(t, ByteChild(t, d.parent, d.leaf).value);
    }
  }
}
