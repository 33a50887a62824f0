/**
 The public operations on byte paths: each keeps the tree, changes resolution in the one
 way it promises, and leaves every other node alone; hence so does every run of them.
 Paths are NUL-free, as the NUL-terminated name buffers require (see `NulLeafSplitsName`).
 */
module RamfsRuns {
  import opened Prelude
  import opened CStrings
  import opened RamfsPath
  import opened RamfsTable
  import opened RamfsTree
  import opened RamfsMove

  // ---- the two path walkers agree ----

  /** What a successful parent walk means, in terms of the segments that `Open` follows. */
  lemma WalkFacts(t: Table, base: nat, path: seq<u8>)
    requires Tree(t) && NonZero(path) && WalkParent(t, base, path).Some?
    ensures var w := WalkParent(t, base, path).value;
            && IsDirectory(t, w.parent + 1)
            && IsSegment(w.leaf)
            && var segs := Segments(path);
            && segs != [] && segs[|segs| - 1] == w.leaf
            && Resolve(t, base - 1, segs[..|segs| - 1]) == Some(w.parent)
            && PathOf(t, w.parent) + [w.leaf] == PathOf(t, base - 1) + segs
  {
    SegmentsSplit(path);
    var raw, segs := RawSegments(path), Segments(path);
    var init := DropDots(raw[..|raw| - 1]);
    assert segs[..|segs| - 1] == init;
    ResolveActive(t, base - 1, init);
    ResolvedPath(t, base - 1, init);
  }

  /** `ramfs_walk_parent` and `ramfs_open` read the same path the same way. */
  lemma WalkAgreesWithOpen(t: Table, base: nat, path: seq<u8>)
    requires Tree(t) && NonZero(path) && WalkParent(t, base, path).Some?
    ensures var w := WalkParent(t, base, path).value;
            Open(t, base, path) == match Child(t, w.parent, w.leaf) { case None => None case Some(c) => Some(c + 1) }
  {
    WalkHasBase(t, base, path);
    hide WalkParent, Tree, Segments, PathOf, Child, NonZero, BaseOk;
    WalkFacts(t, base, path);
    var w, segs := WalkParent(t, base, path).value, Segments(path);
    assert segs == segs[..|segs| - 1] + [w.leaf];
    ResolveConcat(t, base - 1, segs[..|segs| - 1], [w.leaf]);
  }

  lemma WalkHasBase(t: Table, base: nat, path: seq<u8>)
    requires WalkParent(t, base, path).Some?
    ensures BaseOk(t, base, path)
  {
  }

  lemma HasChildIsDirectory(t: Table, p: nat, c: nat)
    requires Tree(t) && c < |t| && t[c].active && t[c].parent == p + 1
    ensures IsDirectory(t, p + 1) && c != 0
  {
    assert LinkOk(t, c);
  }

  /** On a path that opens, the parent walk fails only when nothing or "." comes last. */
  lemma WalkFailsOnlyOnTrailingDot(t: Table, base: nat, path: seq<u8>)
    requires Tree(t) && NonZero(path) && Open(t, base, path).Some?
    ensures var raw := RawSegments(path);
            WalkParent(t, base, path).Some? <==> raw != [] && raw[|raw| - 1] != DOT_SEGMENT
  {
    var raw := RawSegments(path);
    if raw != [] && raw[|raw| - 1] != DOT_SEGMENT {
      var init, last := DropDots(raw[..|raw| - 1]), raw[|raw| - 1];
      SegmentsSplit(path);
      ResolveConcat(t, base - 1, init, [last]);
      var p := Resolve(t, base - 1, init).value;
      var c := Child(t, p, last).value;
      ChildFound(t, p, last);
      HasChildIsDirectory(t, p, c);
    }
  }

  /** Such paths exist for every node: its own path followed by "/." opens it, and the parent walk refuses it. */
  lemma TrailingDotOpens(t: Table, i: nat)
    requires Tree(t) && i < |t| && t[i].active
    ensures var path := Spell(PathOf(t, i)) + [SLASH] + DOT_SEGMENT;
            Open(t, ROOT, path) == Some(i + 1) && WalkParent(t, ROOT, path) == None
  {
    var own, path := Spell(PathOf(t, i)), Spell(PathOf(t, i)) + [SLASH] + DOT_SEGMENT;
    EveryNodeOpens(t, i);
    SegmentsConcat(own, DOT_SEGMENT);
    RawSegmentsConcat(own, DOT_SEGMENT);
    RunLengthIs(DOT_SEGMENT, 1);
    assert RawSegments(DOT_SEGMENT) == [DOT_SEGMENT];
    assert DropDots([DOT_SEGMENT]) == DropDots([DOT_SEGMENT][1..]) == [];
    assert Segments(path) == Segments(own);
  }

  /** Opening `a/b` is opening `b` from what `a` opens, when that is a directory. */
  lemma OpenComposes(t: Table, base: nat, a: seq<u8>, b: seq<u8>)
    requires a != [] && (b != [] ==> b[0] != SLASH)
    requires Open(t, base, a).Some? && IsDirectory(t, Open(t, base, a).value)
    ensures Open(t, base, a + [SLASH] + b) == Open(t, Open(t, base, a).value, b)
  {
    assert Segments(a + [SLASH] + b) == Segments(a) + Segments(b) by { SegmentsConcat(a, b); }
    OpenJoined(t, base, a, b, a + [SLASH] + b);
  }

  lemma OpenJoined(t: Table, base: nat, a: seq<u8>, b: seq<u8>, path: seq<u8>)
    requires a != [] && (b != [] ==> b[0] != SLASH) && path != [] && path[0] == a[0]
    requires Segments(path) == Segments(a) + Segments(b)
    requires Open(t, base, a).Some? && IsDirectory(t, Open(t, base, a).value)
    ensures Open(t, base, path) == Open(t, Open(t, base, a).value, b)
  {
    var s := Open(t, base, a).value - 1;
    ResolvePrefix(t, base - 1, Segments(a), Segments(b), s);
    OpenVia(t, base, path, Resolve(t, s, Segments(b)));
    OpenVia(t, s + 1, b, Resolve(t, s, Segments(b)));
  }

  lemma ResolvePrefix(t: Table, i: nat, x: seq<Segment>, y: seq<Segment>, s: nat)
    requires i < |t| && Resolve(t, i, x) == Some(s)
    ensures s < |t| && Resolve(t, i, x + y) == Resolve(t, s, y)
  {
    ResolveConcat(t, i, x, y);
  }

  /** A base and the outcome of resolution determine what opening gives. */
  lemma OpenVia(t: Table, base: nat, path: seq<u8>, r: Option<nat>)
    requires BaseOk(t, base, path) && Resolve(t, base - 1, Segments(path)) == r
    ensures Open(t, base, path) == match r { case None => None case Some(s) => Some(s + 1) }
  {
  }

  // ---- create ----

  ghost predicate CanAdd(t: Table, k: nat, p: nat, leaf: Segment, kind: nat) {
    && Tree(t)
    && k < |t| && !t[k].active
    && IsDirectory(t, p + 1)
    && IsSegment(leaf) && |leaf| < NAME_CAPACITY
    && Child(t, p, leaf) == None
    && (kind == DIRECTORY || kind == FILE)
  }

  function Added(t: Table, k: nat, p: nat, leaf: Segment, kind: nat): Table
    requires k < |t| && |leaf| < NAME_CAPACITY
  {
    t[k := NewNode(k, p + 1, leaf, kind)]
  }

  lemma {:induction false} ReachesAdded(t: Table, k: nat, p: nat, leaf: Segment, kind: nat, i: nat, n: nat)
    requires CanAdd(t, k, p, leaf, kind) && Reaches(t, i, n)
    ensures Reaches(Added(t, k, p, leaf, kind), i, n)
    ensures PathWithin(Added(t, k, p, leaf, kind), i, n) == PathWithin(t, i, n)
    decreases n
  {
    if i != 0 {
      ReachesAdded(t, k, p, leaf, kind, t[i].parent - 1, n - 1);
    }
  }

  lemma PathAdded(t: Table, k: nat, p: nat, leaf: Segment, kind: nat, i: nat)
    requires CanAdd(t, k, p, leaf, kind) && i < |t| && (t[i].active || i == k)
    ensures var u := Added(t, k, p, leaf, kind);
            Rooted(u, i) && PathOf(u, i) == if i == k then PathOf(t, p) + [leaf] else PathOf(t, i)
  {
    var u := Added(t, k, p, leaf, kind);
    var j := if i == k then p else i;
    var n := ActiveReaches(t, j);
    ReachesAdded(t, k, p, leaf, kind, j, n);
    PathOfIs(u, j, n);
    if i == k {
      assert Reaches(u, k, n + 1);
      ParentRooted(u, k);
      NewNodeShaped(k, p + 1, leaf, kind);
    }
  }

  lemma AddedTree(t: Table, k: nat, p: nat, leaf: Segment, kind: nat)
    requires CanAdd(t, k, p, leaf, kind)
    ensures Tree(Added(t, k, p, leaf, kind))
  {
    var u := Added(t, k, p, leaf, kind);
    NewNodeShaped(k, p + 1, leaf, kind);
    ChildAbsent(t, p, leaf);
    forall i | 0 <= i < |u|
      ensures SlotOk(u, i) && LinkOk(u, i) && ChainOk(u, i)
    {
      assert SlotOk(t, i) && LinkOk(t, i);
      if u[i].active {
        PathAdded(t, k, p, leaf, kind, i);
      }
    }
    forall i, j | 0 <= i < j < |u|
      ensures Differ(u, i, j)
    {
      assert Differ(t, i, j);
      if i == k {
        assert !Matches(t[j], p + 1, leaf);
      } else if j == k {
        assert !Matches(t[i], p + 1, leaf);
      }
    }
  }

  lemma AddedResolvesTo(t: Table, k: nat, p: nat, leaf: Segment, kind: nat, segs: seq<Segment>, i: nat)
    requires CanAdd(t, k, p, leaf, kind) && i < |t| && (t[i].active || i == k)
    ensures Resolve(Added(t, k, p, leaf, kind), 0, segs) == Some(i)
       <==> (if segs == PathOf(t, p) + [leaf] then i == k else Resolve(t, 0, segs) == Some(i))
  {
    var u := Added(t, k, p, leaf, kind);
    AddedTree(t, k, p, leaf, kind);
    PathAdded(t, k, p, leaf, kind, i);
    PathBijection(u, segs, i);
    if i == k {
      ResolveActive(t, 0, segs);
    } else {
      PathBijection(t, segs, i);
      NothingBelowFreeLeaf(t, p, leaf, i);
    }
  }

  /** A new node adds exactly one path and disturbs none. */
  lemma AddedResolves(t: Table, k: nat, p: nat, leaf: Segment, kind: nat, segs: seq<Segment>)
    requires CanAdd(t, k, p, leaf, kind)
    ensures Resolve(Added(t, k, p, leaf, kind), 0, segs)
         == if segs == PathOf(t, p) + [leaf] then Some(k) else Resolve(t, 0, segs)
  {
    var u := Added(t, k, p, leaf, kind);
    AddedResolvesTo(t, k, p, leaf, kind, segs, k);
    ResolveActive(u, 0, segs);
    ResolveActive(t, 0, segs);
    if Resolve(u, 0, segs).Some? {
      AddedResolvesTo(t, k, p, leaf, kind, segs, Resolve(u, 0, segs).value);
    }
    if Resolve(t, 0, segs).Some? {
      AddedResolvesTo(t, k, p, leaf, kind, segs, Resolve(t, 0, segs).value);
    }
  }

  /** The table a create that changes something produces. */
  lemma CreateAdds(t: Table, base: nat, path: seq<u8>, kind: nat)
    requires Tree(t) && NonZero(path) && Create(t, base, path, kind).0 != t
    ensures WalkParent(t, base, path).Some? && FirstFree(t, 0).Some?
    ensures var w, k := WalkParent(t, base, path).value, FirstFree(t, 0).value;
            && CanAdd(t, k, w.parent, w.leaf, kind)
            && Create(t, base, path, kind) == (Added(t, k, w.parent, w.leaf, kind), Some(k + 1))
  {
    WalkFacts(t, base, path);
  }

  /** Resolution from a base is resolution from the root along the base's path. */
  lemma ResolveFrom(t: Table, i: nat, segs: seq<Segment>)
    requires Tree(t) && i < |t| && t[i].active
    ensures Resolve(t, i, segs) == Resolve(t, 0, PathOf(t, i) + segs)
  {
    PathBijection(t, PathOf(t, i), i);
    ResolveConcat(t, 0, PathOf(t, i), segs);
  }

  lemma AddedOpens(t: Table, k: nat, p: nat, leaf: Segment, kind: nat, b: nat, segs: seq<Segment>)
    requires CanAdd(t, k, p, leaf, kind) && b < |t| && t[b].active
    requires PathOf(t, b) + segs == PathOf(t, p) + [leaf]
    ensures Resolve(Added(t, k, p, leaf, kind), b, segs) == Some(k)
  {
    AddedTree(t, k, p, leaf, kind);
    AddedResolves(t, k, p, leaf, kind, PathOf(t, b) + segs);
    PathAdded(t, k, p, leaf, kind, b);
    ResolveFrom(Added(t, k, p, leaf, kind), b, segs);
  }

  lemma CreateKeepsTree(t: Table, base: nat, path: seq<u8>, kind: nat)
    requires Tree(t) && NonZero(path)
    ensures Tree(Create(t, base, path, kind).0)
  {
    if Create(t, base, path, kind).0 != t {
      CreateAdds(t, base, path, kind);
      var w, k := WalkParent(t, base, path).value, FirstFree(t, 0).value;
      AddedTree(t, k, w.parent, w.leaf, kind);
    }
  }

  /** A successful create is followed by an open of the same path giving the same id. */
  lemma CreateThenOpen(t: Table, base: nat, path: seq<u8>, kind: nat)
    requires Tree(t) && NonZero(path) && Create(t, base, path, kind).1.Some?
    ensures var (u, id) := Create(t, base, path, kind);
            Open(u, base, path) == id && u[id.value - 1].kind == kind
  {
    if Create(t, base, path, kind).0 == t {
      WalkAgreesWithOpen(t, base, path);
    } else {
      NewlyCreatedOpens(t, base, path, kind);
    }
  }

  lemma NewlyCreatedOpens(t: Table, base: nat, path: seq<u8>, kind: nat)
    requires Tree(t) && NonZero(path) && Create(t, base, path, kind).0 != t
    ensures var (u, id) := Create(t, base, path, kind);
            id.Some? && 1 <= id.value <= |u| && Open(u, base, path) == id && u[id.value - 1].kind == kind
  {
    CreateAdds(t, base, path, kind);
    var w, k := WalkParent(t, base, path).value, FirstFree(t, 0).value;
    var u := Added(t, k, w.parent, w.leaf, kind);
    WalkFacts(t, base, path);
    AddedOpens(t, k, w.parent, w.leaf, kind, base - 1, Segments(path));
    OpenVia(u, base, path, Some(k));
  }

  // ---- delete ----

  ghost predicate CanRemove(t: Table, c: nat) {
    && Tree(t)
    && 0 < c < |t| && t[c].active
    && !(exists j :: 0 <= j < |t| && t[j].active && t[j].parent == c + 1)
  }

  function Removed(t: Table, c: nat): Table
    requires c < |t|
  {
    t[c := ZeroNode()]
  }

  lemma {:induction false} ReachesRemoved(t: Table, c: nat, i: nat, n: nat)
    requires CanRemove(t, c) && Reaches(t, i, n) && i != c
    ensures Reaches(Removed(t, c), i, n)
    ensures PathWithin(Removed(t, c), i, n) == PathWithin(t, i, n)
    decreases n
  {
    if i != 0 {
      assert t[i].parent != c + 1;
      ReachesRemoved(t, c, t[i].parent - 1, n - 1);
    }
  }

  lemma PathRemoved(t: Table, c: nat, i: nat)
    requires CanRemove(t, c) && i < |t| && t[i].active && i != c
    ensures Rooted(Removed(t, c), i) && PathOf(Removed(t, c), i) == PathOf(t, i)
  {
    var n := ActiveReaches(t, i);
    ReachesRemoved(t, c, i, n);
    PathOfIs(Removed(t, c), i, n);
  }

  lemma RemovedTree(t: Table, c: nat)
    requires CanRemove(t, c)
    ensures Tree(Removed(t, c))
  {
    var u := Removed(t, c);
    forall i | 0 <= i < |u|
      ensures SlotOk(u, i) && LinkOk(u, i) && ChainOk(u, i)
    {
      assert SlotOk(t, i) && LinkOk(t, i);
      if u[i].active {
        assert t[i].parent != c + 1;
        PathRemoved(t, c, i);
      }
    }
    forall i, j | 0 <= i < j < |u|
      ensures Differ(u, i, j)
    {
      assert Differ(t, i, j);
    }
  }

  lemma RemovedResolvesTo(t: Table, c: nat, segs: seq<Segment>, i: nat)
    requires CanRemove(t, c) && i < |t| && t[i].active
    ensures Resolve(Removed(t, c), 0, segs) == Some(i)
       <==> segs != PathOf(t, c) && Resolve(t, 0, segs) == Some(i)
  {
    RemovedTree(t, c);
    PathBijection(t, segs, i);
    PathBijection(t, segs, c);
    ResolveActive(Removed(t, c), 0, segs);
    if i != c {
      PathRemoved(t, c, i);
      PathBijection(Removed(t, c), segs, i);
    }
  }

  /** Deleting a childless node removes exactly its path. */
  lemma RemovedResolves(t: Table, c: nat, segs: seq<Segment>)
    requires CanRemove(t, c)
    ensures Resolve(Removed(t, c), 0, segs)
         == if segs == PathOf(t, c) then None else Resolve(t, 0, segs)
  {
    var u := Removed(t, c);
    ResolveActive(u, 0, segs);
    ResolveActive(t, 0, segs);
    if Resolve(u, 0, segs).Some? {
      RemovedResolvesTo(t, c, segs, Resolve(u, 0, segs).value);
    }
    if Resolve(t, 0, segs).Some? {
      RemovedResolvesTo(t, c, segs, Resolve(t, 0, segs).value);
    }
  }

  lemma FileIsChildless(t: Table, c: nat)
    requires Tree(t) && c < |t| && t[c].active && t[c].kind == FILE
    ensures !(exists j :: 0 <= j < |t| && t[j].active && t[j].parent == c + 1)
  {
    forall j | 0 <= j < |t| && t[j].active
      ensures t[j].parent != c + 1
    {
      assert LinkOk(t, j);
    }
  }

  lemma DeleteRemoves(t: Table, base: nat, path: seq<u8>) returns (c: nat)
    requires Tree(t) && NonZero(path) && Delete(t, base, path).1
    ensures CanRemove(t, c) && Delete(t, base, path).0 == Removed(t, c)
    ensures PathOf(t, c) == PathOf(t, base - 1) + Segments(path) && Open(t, base, path) == Some(c + 1)
  {
    var w := WalkParent(t, base, path).value;
    c := Child(t, w.parent, w.leaf).value;
    WalkFacts(t, base, path);
    WalkAgreesWithOpen(t, base, path);
    ChildFound(t, w.parent, w.leaf);
    assert SlotOk(t, c);
    ParentPath(t, c);
    if t[c].kind == FILE {
      FileIsChildless(t, c);
    }
  }

  lemma RemovedCloses(t: Table, c: nat, b: nat, segs: seq<Segment>)
    requires CanRemove(t, c) && b < |t| && t[b].active && b != c && PathOf(t, b) + segs == PathOf(t, c)
    ensures Resolve(Removed(t, c), b, segs) == None
  {
    RemovedTree(t, c);
    PathRemoved(t, c, b);
    ResolveFrom(Removed(t, c), b, segs);
    RemovedResolves(t, c, PathOf(t, c));
  }

  /** A successful delete closes its own path and no other. */
  lemma DeleteCloses(t: Table, base: nat, path: seq<u8>, segs: seq<Segment>)
    requires Tree(t) && NonZero(path) && Delete(t, base, path).1
    ensures var u := Delete(t, base, path).0;
            && Tree(u)
            && Open(u, base, path) == None
            && Resolve(u, 0, segs)
               == (if segs == PathOf(t, base - 1) + Segments(path) then None else Resolve(t, 0, segs))
  {
    var c := DeleteRemoves(t, base, path);
    RemovedTree(t, c);
    RemovedResolves(t, c, segs);
    if base - 1 != c {
      RemovedCloses(t, c, base - 1, Segments(path));
    }
  }

  /** Deleting a freshly created node gives the old table back, byte for byte. */
  lemma DeleteUndoesCreate(t: Table, base: nat, path: seq<u8>, kind: nat)
    requires Tree(t) && NonZero(path) && Create(t, base, path, kind).0 != t
    ensures Delete(Create(t, base, path, kind).0, base, path) == (t, true)
  {
    CreateAdds(t, base, path, kind);
    WalkFacts(t, base, path);
    var (u, id) := Create(t, base, path, kind);
    var w, k := WalkParent(t, base, path).value, id.value - 1;
    CreateThenOpen(t, base, path, kind);
    CreateKeepsTree(t, base, path, kind);
    WalkFailsOnlyOnTrailingDot(u, base, path);
    WalkFacts(u, base, path);
    WalkAgreesWithOpen(u, base, path);
    assert SlotOk(t, k);
    forall j | 0 <= j < |u| && u[j].active
      ensures u[j].parent != k + 1
    {
      assert LinkOk(t, j);
    }
    assert Removed(u, k) == t;
  }

  // ---- move ----

  lemma {:induction false} FileIsNoAncestor(t: Table, m: nat, i: nat, n: nat)
    requires Tree(t) && m < |t| && t[m].active && t[m].kind == FILE
    requires i < |t| && t[i].active && i != m
    ensures !AncestorWithin(t, m, i, n)
    decreases n
  {
    if n > 0 && i != 0 {
      assert LinkOk(t, i);
      FileIsNoAncestor(t, m, t[i].parent - 1, n - 1);
    }
  }

  /** A move that reports success without finding the destination relinks one node. */
  lemma MoveRelinks(t: Table, sb: nat, sp: seq<u8>, db: nat, dp: seq<u8>)
    returns (m: nat, p: nat, leaf: Segment)
    requires Tree(t) && NonZero(sp) && NonZero(dp)
    requires Move(t, sb, sp, db, dp).1 && Open(t, db, dp) == None
    ensures CanRelink(t, m, p, leaf)
    ensures Move(t, sb, sp, db, dp) == (Relinked(t, m, p, leaf), true)
    ensures Open(t, sb, sp) == Some(m + 1)
    ensures BaseOk(t, sb, sp) && Segments(sp) != [] && PathOf(t, sb - 1) + Segments(sp) == PathOf(t, m)
    ensures BaseOk(t, db, dp) && Segments(dp) != [] && PathOf(t, db - 1) + Segments(dp) == PathOf(t, p) + [leaf]
    ensures WalkParent(t, sb, sp) == Some(Walk(t[m].parent - 1, CText(t[m].name)))
    ensures WalkParent(t, db, dp) == Some(Walk(p, leaf))
  {
    var s, d := WalkParent(t, sb, sp).value, WalkParent(t, db, dp).value;
    m, p, leaf := Child(t, s.parent, s.leaf).value, d.parent, d.leaf;
    WalkFacts(t, sb, sp);
    WalkFacts(t, db, dp);
    WalkAgreesWithOpen(t, sb, sp);
    WalkAgreesWithOpen(t, db, dp);
    ChildFound(t, s.parent, s.leaf);
    ParentPath(t, m);
    assert SlotOk(t, m);
    if t[m].kind == FILE && Ancestor(t, m, p) {
      var n: nat :| AncestorWithin(t, m, p, n);
      FileIsNoAncestor(t, m, p, n);
    }
  }

  /** The destination path opens to the moved node. */
  lemma RelinkOpens(t: Table, m: nat, p: nat, leaf: Segment, b: nat, segs: seq<Segment>)
    requires CanRelink(t, m, p, leaf) && b < |t| && t[b].active && segs != []
    requires PathOf(t, b) + segs == PathOf(t, p) + [leaf]
    ensures Resolve(Relinked(t, m, p, leaf), b, segs) == Some(m)
  {
    var u, src, dst := Relinked(t, m, p, leaf), PathOf(t, m), PathOf(t, p) + [leaf];
    RelinkedTree(t, m, p, leaf);
    assert PathOf(t, b) <= PathOf(t, p) by {
      assert PathOf(t, p) == (PathOf(t, b) + segs)[..|dst| - 1];
    }
    AncestorIsPrefix(t, m, p);
    AncestorIsPrefix(t, m, b);
    PathKept(t, m, p, leaf, b);
    ResolveFrom(u, b, segs);
    MoveReroots(t, m, p, leaf, dst);
    assert src + dst[|dst|..] == src;
    PathBijection(t, src, m);
  }

  /** The source path opens to nothing. */
  lemma RelinkCloses(t: Table, m: nat, p: nat, leaf: Segment, b: nat, segs: seq<Segment>)
    requires CanRelink(t, m, p, leaf) && b < |t| && t[b].active && segs != []
    requires PathOf(t, b) + segs == PathOf(t, m)
    ensures Resolve(Relinked(t, m, p, leaf), b, segs) == None
  {
    var u, src, dst := Relinked(t, m, p, leaf), PathOf(t, m), PathOf(t, p) + [leaf];
    RelinkedTree(t, m, p, leaf);
    AncestorIsPrefix(t, m, b);
    PathKept(t, m, p, leaf, b);
    ResolveFrom(u, b, segs);
    NothingBelowFreeLeaf(t, p, leaf, m);
    MoveReroots(t, m, p, leaf, src);
  }

  /** Below the moved node nothing changes. */
  lemma RelinkKeepsBelow(t: Table, m: nat, p: nat, leaf: Segment, rel: seq<Segment>)
    requires CanRelink(t, m, p, leaf)
    ensures Resolve(Relinked(t, m, p, leaf), m, rel) == Resolve(t, m, rel)
  {
    var u, dst := Relinked(t, m, p, leaf), PathOf(t, p) + [leaf];
    RelinkedTree(t, m, p, leaf);
    PathMoved(t, m, p, leaf, m) by { assert AncestorWithin(t, m, m, 0); }
    assert PathOf(u, m) == dst;
    ResolveFrom(u, m, rel);
    ResolveFrom(t, m, rel);
    MoveReroots(t, m, p, leaf, dst + rel);
    assert (dst + rel)[|dst|..] == rel;
  }

  lemma RelinkKeepsBase(t: Table, m: nat, p: nat, leaf: Segment, base: nat, path: seq<u8>)
    requires m < |t| && |leaf| < NAME_CAPACITY && BaseOk(t, base, path)
    ensures BaseOk(Relinked(t, m, p, leaf), base, path)
  {
  }

  /** After a successful move to a path that did not exist, that path opens to the moved id. */
  lemma MoveOpensDestination(t: Table, sb: nat, sp: seq<u8>, db: nat, dp: seq<u8>)
    requires Tree(t) && NonZero(sp) && NonZero(dp)
    requires Move(t, sb, sp, db, dp).1 && Open(t, db, dp) == None
    ensures Open(t, sb, sp).Some?
    ensures Open(Move(t, sb, sp, db, dp).0, db, dp) == Open(t, sb, sp)
  {
    var m, p, leaf := MoveRelinks(t, sb, sp, db, dp);
    RelinkKeepsBase(t, m, p, leaf, db, dp);
    RelinkOpens(t, m, p, leaf, db - 1, Segments(dp));
    OpenVia(Relinked(t, m, p, leaf), db, dp, Some(m));
  }

  /** After such a move the source path opens to nothing. */
  lemma MoveClosesSource(t: Table, sb: nat, sp: seq<u8>, db: nat, dp: seq<u8>)
    requires Tree(t) && NonZero(sp) && NonZero(dp)
    requires Move(t, sb, sp, db, dp).1 && Open(t, db, dp) == None
    ensures Open(Move(t, sb, sp, db, dp).0, sb, sp) == None
  {
    var m, p, leaf := MoveRelinks(t, sb, sp, db, dp);
    RelinkKeepsBase(t, m, p, leaf, sb, sp);
    RelinkCloses(t, m, p, leaf, sb - 1, Segments(sp));
    OpenVia(Relinked(t, m, p, leaf), sb, sp, None);
  }

  /**
   The whole effect of such a move: a tree again, one node relinked and no other byte
   touched, every path resolved by the re-rooting equation, and every relative path below
   the moved node resolved as before.
   */
  lemma MoveIsRerooting(t: Table, sb: nat, sp: seq<u8>, db: nat, dp: seq<u8>, segs: seq<Segment>)
    requires Tree(t) && NonZero(sp) && NonZero(dp)
    requires Move(t, sb, sp, db, dp).1 && Open(t, db, dp) == None
    ensures Open(t, sb, sp).Some?
    ensures var u := Move(t, sb, sp, db, dp).0;
            var m := Open(t, sb, sp).value - 1;
            && Tree(u)
            && Resolve(u, 0, segs)
               == Rerooted(t, PathOf(t, sb - 1) + Segments(sp), PathOf(t, db - 1) + Segments(dp), segs)
            && Resolve(u, m, segs) == Resolve(t, m, segs)
            && u == t[m := t[m].(parent := u[m].parent, name := u[m].name)]
  {
    var m, p, leaf := MoveRelinks(t, sb, sp, db, dp);
    RelinkedTree(t, m, p, leaf);
    MoveReroots(t, m, p, leaf, segs);
    RelinkKeepsBelow(t, m, p, leaf, segs);
  }

  /** Moving onto an existing path changes nothing, and succeeds exactly when both walks end at one node. */
  lemma MoveOntoExisting(t: Table, sb: nat, sp: seq<u8>, db: nat, dp: seq<u8>)
    requires Tree(t) && NonZero(sp) && NonZero(dp) && Open(t, db, dp).Some?
    ensures Move(t, sb, sp, db, dp).0 == t
    ensures Move(t, sb, sp, db, dp).1 <==>
            WalkParent(t, sb, sp).Some? && WalkParent(t, db, dp).Some? && Open(t, sb, sp) == Open(t, db, dp)
  {
    if WalkParent(t, sb, sp).Some? && WalkParent(t, db, dp).Some? {
      WalkAgreesWithOpen(t, sb, sp);
      WalkAgreesWithOpen(t, db, dp);
      WalkFacts(t, db, dp);
      var d := WalkParent(t, db, dp).value;
      ChildFound(t, d.parent, d.leaf);
      assert SlotOk(t, Child(t, d.parent, d.leaf).value);
    }
  }

  /**
   A move to a free path succeeds exactly when both walks do, the source exists, the new name
   fits, and the destination does not lie below the source.
   */
  lemma MoveSucceedsIff(t: Table, sb: nat, sp: seq<u8>, db: nat, dp: seq<u8>)
    requires Tree(t) && NonZero(sp) && NonZero(dp) && Open(t, db, dp) == None
    ensures Move(t, sb, sp, db, dp).1 <==>
            && WalkParent(t, sb, sp).Some? && WalkParent(t, db, dp).Some? && Open(t, sb, sp).Some?
            && |WalkParent(t, db, dp).value.leaf| < 32
            && !(PathOf(t, sb - 1) + Segments(sp) <= PathOf(t, WalkParent(t, db, dp).value.parent))
  {
    if WalkParent(t, sb, sp).Some? && WalkParent(t, db, dp).Some? {
      var s, d := WalkParent(t, sb, sp).value, WalkParent(t, db, dp).value;
      WalkFacts(t, sb, sp);
      WalkFacts(t, db, dp);
      WalkAgreesWithOpen(t, sb, sp);
      WalkAgreesWithOpen(t, db, dp);
      hide WalkParent, Open, Segments, PathOf, Tree, Ancestor;
      if Child(t, s.parent, s.leaf).Some? {
        var m := Child(t, s.parent, s.leaf).value;
        ChildHasPath(t, s.parent, s.leaf);
        BelowIff(t, m, d.parent);
      }
      hide Child;
    }
  }

  /** A child's path is its parent's and its name. */
  lemma ChildHasPath(t: Table, p: nat, leaf: Segment)
    requires Tree(t) && Child(t, p, leaf).Some?
    ensures var c := Child(t, p, leaf).value; c < |t| && t[c].active && PathOf(t, c) == PathOf(t, p) + [leaf]
  {
    ChildFound(t, p, leaf);
    ParentPath(t, Child(t, p, leaf).value);
  }

  /** The guard of the move, in terms of paths. */
  lemma BelowIff(t: Table, m: nat, p: nat)
    requires Tree(t) && m < |t| && t[m].active && IsDirectory(t, p + 1)
    ensures t[m].kind == DIRECTORY && Ancestor(t, m, p) <==> PathOf(t, m) <= PathOf(t, p)
  {
    AncestorIsPrefix(t, m, p);
    assert SlotOk(t, m);
    if t[m].kind == FILE && Ancestor(t, m, p) {
      var n: nat :| AncestorWithin(t, m, p, n);
      FileIsNoAncestor(t, m, p, n);
    }
  }

  lemma MoveKeepsTree(t: Table, sb: nat, sp: seq<u8>, db: nat, dp: seq<u8>)
    requires Tree(t) && NonZero(sp) && NonZero(dp)
    ensures Tree(Move(t, sb, sp, db, dp).0)
  {
    if Open(t, db, dp).Some? {
      MoveOntoExisting(t, sb, sp, db, dp);
    } else if Move(t, sb, sp, db, dp).1 {
      MoveIsRerooting(t, sb, sp, db, dp, []);
    }
  }

  lemma ResolveKept(t: Table, m: nat, p: nat, leaf: Segment, b: nat, segs: seq<Segment>)
    requires CanRelink(t, m, p, leaf) && b < |t| && t[b].active && Resolve(t, b, segs).Some?
    requires !Ancestor(t, m, Resolve(t, b, segs).value)
    ensures Resolve(Relinked(t, m, p, leaf), b, segs) == Resolve(t, b, segs)
  {
    var u, w := Relinked(t, m, p, leaf), Resolve(t, b, segs).value;
    RelinkedTree(t, m, p, leaf);
    ResolvedPath(t, b, segs);
    AncestorIsPrefix(t, m, w);
    AncestorIsPrefix(t, m, b);
    PathKept(t, m, p, leaf, b);
    PathKept(t, m, p, leaf, w);
    ResolveFrom(u, b, segs);
    PathBijection(u, PathOf(u, w), w);
  }

  /** A parent walk that ends outside the moved subtree ends in the same place afterwards. */
  lemma WalkKept(t: Table, base: nat, path: seq<u8>, m: nat, p: nat, leaf: Segment)
    requires CanRelink(t, m, p, leaf) && WalkParent(t, base, path).Some?
    requires !Ancestor(t, m, WalkParent(t, base, path).value.parent)
    ensures WalkParent(Relinked(t, m, p, leaf), base, path) == WalkParent(t, base, path)
  {
    var raw := RawSegments(path);
    ResolveKept(t, m, p, leaf, base - 1, DropDots(raw[..|raw| - 1]));
  }

  lemma NotOwnAncestor(t: Table, m: nat)
    requires Tree(t) && 0 < m < |t| && t[m].active
    ensures t[m].parent >= 1 && !Ancestor(t, m, t[m].parent - 1)
  {
    assert LinkOk(t, m);
    ParentPath(t, m);
    AncestorIsPrefix(t, m, t[m].parent - 1);
  }

  /** The two walks of a move find the same parents after it. */
  lemma MoveKeepsWalks(t: Table, sb: nat, sp: seq<u8>, db: nat, dp: seq<u8>)
    requires Tree(t) && NonZero(sp) && NonZero(dp)
    requires Move(t, sb, sp, db, dp).1 && Open(t, db, dp) == None
    ensures var u := Move(t, sb, sp, db, dp).0;
            && WalkParent(u, sb, sp) == WalkParent(t, sb, sp)
            && WalkParent(u, db, dp) == WalkParent(t, db, dp)
  {
    var m, p, leaf := MoveRelinks(t, sb, sp, db, dp);
    NotOwnAncestor(t, m);
    WalkKept(t, sb, sp, m, p, leaf);
    WalkKept(t, db, dp, m, p, leaf);
  }

  /** A move whose walks end at a free destination and an existing source relinks. */
  lemma MoveByWalks(t: Table, sb: nat, sp: seq<u8>, db: nat, dp: seq<u8>, m: nat, s: Walk, d: Walk)
    requires WalkParent(t, sb, sp) == Some(s) && WalkParent(t, db, dp) == Some(d)
    requires Child(t, s.parent, s.leaf) == Some(m) && CanRelink(t, m, d.parent, d.leaf)
    ensures Move(t, sb, sp, db, dp) == (Relinked(t, m, d.parent, d.leaf), true)
  {
  }

  /** Moving there and back restores the table, byte for byte. */
  lemma MoveBack(t: Table, sb: nat, sp: seq<u8>, db: nat, dp: seq<u8>)
    requires Tree(t) && NonZero(sp) && NonZero(dp)
    requires Move(t, sb, sp, db, dp).1 && Open(t, db, dp) == None
    ensures Move(Move(t, sb, sp, db, dp).0, db, dp, sb, sp) == (t, true)
  {
    var m, p, leaf := MoveRelinks(t, sb, sp, db, dp);
    var u := Relinked(t, m, p, leaf);
    MoveKeepsWalks(t, sb, sp, db, dp);
    RelinkBack(t, m, p, leaf);
    RelinkedNode(t, m, p, leaf);
    ChildIs(u, p, leaf, m);
    MoveByWalks(u, db, dp, sb, sp, m, Walk(p, leaf), Walk(t[m].parent - 1, CText(t[m].name)));
  }

  // ---- read and write ----

  lemma SplicedBytes(n: Node, offset: nat, data: seq<u8>)
    requires Shaped(n) && offset + |data| <= FILE_CAPACITY
    ensures Shaped(Spliced(n, offset, data))
    ensures FileBytes(Spliced(n, offset, data)) == Overwritten(FileBytes(n), offset, data)
  {
    var now, want := FileBytes(Spliced(n, offset, data)), Overwritten(FileBytes(n), offset, data);
    assert |now| == |want| == Max(n.length, offset + |data|);
    forall k | 0 <= k < |now|
      ensures now[k] == want[k]
    {
      assert now[k] == Spliced(n, offset, data).contents[k];
      if k < offset {
        assert want[k] == if k < n.length then n.contents[k] else 0;
      } else if k < offset + |data| {
        assert want[k] == data[k - offset];
      } else {
        assert want[k] == n.contents[k];
      }
    }
  }

  /**
   A write to a file lays the bytes that fit over the old ones, zero-filling a gap (so an
   empty write past the end still extends the file), and touches nothing else.
   */
  lemma WriteOverwrites(t: Table, id: nat, offset: nat, data: seq<u8>)
    requires Tree(t) && IsFile(t, id) && offset <= FILE_CAPACITY
    ensures var (u, count) := Write(t, id, offset, data);
            && count == Some(Min(|data|, FILE_CAPACITY - offset))
            && |u| == |t| && Shaped(u[id - 1])
            && FileBytes(u[id - 1]) == Overwritten(FileBytes(t[id - 1]), offset, data[..count.value])
            && u == t[id - 1 := t[id - 1].(contents := u[id - 1].contents, length := u[id - 1].length)]
  {
    assert SlotOk(t, id - 1);
    SplicedBytes(t[id - 1], offset, data[..WriteCount(offset, |data|)]);
  }

  /** What was written reads back; what lay before it reads as before. */
  lemma ReadAfterWrite(t: Table, id: nat, offset: nat, data: seq<u8>)
    requires Tree(t) && IsFile(t, id) && offset <= FILE_CAPACITY
    ensures var (u, count) := Write(t, id, offset, data);
            && count.Some?
            && Read(u, id, offset, count.value) == Some(data[..count.value])
            && (offset <= t[id - 1].length ==> Read(u, id, 0, offset) == Read(t, id, 0, offset))
  {
    WriteOverwrites(t, id, offset, data);
    assert SlotOk(t, id - 1);
    var (u, count) := Write(t, id, offset, data);
    var was, now := FileBytes(t[id - 1]), FileBytes(u[id - 1]);
    assert now[offset..offset + count.value] == data[..count.value];
    if offset <= t[id - 1].length {
      assert now[0..offset] == was[0..offset];
    }
  }

  /** Tables that agree on everything but file contents resolve alike. */
  lemma {:induction false} FirstMatchSame(t: Table, u: Table, parent: nat, seg: Segment, k: nat)
    requires |t| == |u| && k <= |t|
    requires forall j :: 0 <= j < |t| ==> (Matches(t[j], parent, seg) <==> Matches(u[j], parent, seg))
    ensures FirstMatch(t, parent, seg, k) == FirstMatch(u, parent, seg, k)
    decreases |t| - k
  {
    if k < |t| {
      FirstMatchSame(t, u, parent, seg, k + 1);
    }
  }

  ghost predicate SameLinks(t: Table, u: Table) {
    && |t| == |u|
    && forall j :: 0 <= j < |t| ==>
         u[j].active == t[j].active && u[j].parent == t[j].parent && u[j].name == t[j].name && u[j].kind == t[j].kind
  }

  lemma {:induction false} ResolveSame(t: Table, u: Table, i: nat, segs: seq<Segment>)
    requires SameLinks(t, u) && i < |t|
    ensures Resolve(t, i, segs) == Resolve(u, i, segs)
    decreases segs
  {
    if segs != [] {
      FirstMatchSame(t, u, i + 1, segs[0], 0);
      if Child(t, i, segs[0]).Some? {
        ResolveSame(t, u, Child(t, i, segs[0]).value, segs[1..]);
      }
    }
  }

  lemma {:induction false} ReachesSame(t: Table, u: Table, i: nat, n: nat)
    requires SameLinks(t, u) && Reaches(t, i, n)
    ensures Reaches(u, i, n)
    decreases n
  {
    if i != 0 {
      ReachesSame(t, u, t[i].parent - 1, n - 1);
    }
  }

  /** A write keeps the tree and every path. */
  lemma WriteKeepsTree(t: Table, id: nat, offset: nat, data: seq<u8>, segs: seq<Segment>)
    requires Tree(t)
    ensures var u := Write(t, id, offset, data).0;
            Tree(u) && Resolve(u, 0, segs) == Resolve(t, 0, segs)
  {
    var u := Write(t, id, offset, data).0;
    if u != t {
      WriteOverwrites(t, id, offset, data);
      assert SameLinks(t, u);
      ResolveSame(t, u, 0, segs);
      forall i | 0 <= i < |u|
        ensures SlotOk(u, i) && LinkOk(u, i) && ChainOk(u, i)
      {
        assert SlotOk(t, i) && LinkOk(t, i);
        if u[i].active {
          var n := ActiveReaches(t, i);
          ReachesSame(t, u, i, n);
        }
      }
      forall i, j | 0 <= i < j < |u|
        ensures Differ(u, i, j)
      {
        assert Differ(t, i, j);
      }
    }
  }

  // ---- whole runs ----

  datatype Op =
    | CreateOp(base: nat, path: seq<u8>, kind: nat)
    | MoveOp(sourceBase: nat, source: seq<u8>, destinationBase: nat, destination: seq<u8>)
    | RenameOp(base: nat, source: seq<u8>, destination: seq<u8>)
    | DeleteOp(base: nat, path: seq<u8>)
    | WriteOp(id: nat, offset: nat, data: seq<u8>)

  predicate NulFree(op: Op) {
    match op
    case CreateOp(_, path, _) => NonZero(path)
    case MoveOp(_, source, _, destination) => NonZero(source) && NonZero(destination)
    case RenameOp(_, source, destination) => NonZero(source) && NonZero(destination)
    case DeleteOp(_, path) => NonZero(path)
    case WriteOp(_, _, _) => true
  }

  ghost function Apply(t: Table, op: Op): Table {
    match op
    case CreateOp(base, path, kind) => Create(t, base, path, kind).0
    case MoveOp(sb, sp, db, dp) => Move(t, sb, sp, db, dp).0
    case RenameOp(base, sp, dp) => Move(t, base, sp, base, dp).0
    case DeleteOp(base, path) => Delete(t, base, path).0
    case WriteOp(id, offset, data) => Write(t, id, offset, data).0
  }

  ghost function Run(t: Table, ops: seq<Op>): Table
    decreases ops
  {
    if ops == [] then t else Run(Apply(t, ops[0]), ops[1..])
  }

  lemma ApplyKeepsTree(t: Table, op: Op)
    requires Tree(t) && NulFree(op)
    ensures Tree(Apply(t, op))
  {
    match op
    case CreateOp(base, path, kind) => CreateKeepsTree(t, base, path, kind);
    case MoveOp(sb, sp, db, dp) => MoveKeepsTree(t, sb, sp, db, dp);
    case RenameOp(base, sp, dp) => MoveKeepsTree(t, base, sp, base, dp);
    case DeleteOp(base, path) =>
      if Delete(t, base, path).1 {
        DeleteCloses(t, base, path, []);
      }
    case WriteOp(id, offset, data) => WriteKeepsTree(t, id, offset, data, []);
  }

  /** Every run of operations keeps a well-formed tree. */
  lemma {:induction false} RunKeepsTree(t: Table, ops: seq<Op>)
    requires Tree(t) && forall op :: op in ops ==> NulFree(op)
    ensures Tree(Run(t, ops))
    decreases ops
  {
    if ops != [] {
      ApplyKeepsTree(t, ops[0]);
      RunKeepsTree(Apply(t, ops[0]), ops[1..]);
    }
  }
}
