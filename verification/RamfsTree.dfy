/**
 What the node table means: paths and nodes are in bijection, and create, move, delete
 and write change that bijection in exactly one way each while keeping a tree.
 */
module RamfsTree {
  import opened Prelude
  import opened CStrings
  import opened RamfsPath
  import opened RamfsTable

  // ---- names ----

  lemma NewNodeShaped(slot: nat, parent: nat, name: Segment, kind: nat)
    requires NonZero(name) && |name| < NAME_CAPACITY
    ensures Shaped(NewNode(slot, parent, name, kind))
    ensures CText(NewNode(slot, parent, name, kind).name) == name
  {
    CTextPadded(name, NAME_CAPACITY - |name|);
  }

  // ---- lookups ----

  lemma ChildIs(t: Table, p: nat, seg: Segment, c: nat)
    requires SiblingsDiffer(t) && c < |t| && seg != [] && Matches(t[c], p + 1, seg)
    ensures Child(t, p, seg) == Some(c)
  {
    forall j | 0 <= j < c
      ensures !Matches(t[j], p + 1, seg)
    {
      assert Differ(t, j, c);
    }
    FirstMatchIs(t, p + 1, seg, 0);
  }

  lemma {:induction false} ResolveConcat(t: Table, i: nat, a: seq<Segment>, b: seq<Segment>)
    requires i < |t|
    ensures Resolve(t, i, a + b) ==
            match Resolve(t, i, a) { case None => None case Some(j) => Resolve(t, j, b) }
    decreases a
  {
    if a == [] {
      assert a + b == b;
    } else {
      assert (a + b)[1..] == a[1..] + b;
      match Child(t, i, a[0])
      case None =>
      case Some(c) => ResolveConcat(t, c, a[1..], b);
    }
  }

  // ---- the path of a node ----

  lemma {:induction false} ReachesMore(t: Table, i: nat, n: nat, m: nat)
    requires Reaches(t, i, n) && n <= m
    ensures Reaches(t, i, m)
    decreases n
  {
    if i != 0 {
      ReachesMore(t, t[i].parent - 1, n - 1, m - 1);
    }
  }

  ghost function PathWithin(t: Table, i: nat, n: nat): seq<Segment>
    requires Reaches(t, i, n)
    decreases n
  {
    if i == 0 then [] else PathWithin(t, t[i].parent - 1, n - 1) + [CText(t[i].name)]
  }

  lemma {:induction false} PathWithinMore(t: Table, i: nat, n: nat, m: nat)
    requires Reaches(t, i, n) && n <= m
    ensures Reaches(t, i, m) && PathWithin(t, i, m) == PathWithin(t, i, n)
    decreases n
  {
    if i != 0 {
      PathWithinMore(t, t[i].parent - 1, n - 1, m - 1);
    }
  }

  /** The names from the root down to slot `i`. */
  ghost function PathOf(t: Table, i: nat): seq<Segment> {
    if Rooted(t, i) then
      var n: nat :| Reaches(t, i, n);
      PathWithin(t, i, n)
    else []
  }

  lemma ActiveReaches(t: Table, i: nat) returns (n: nat)
    requires Tree(t) && i < |t| && t[i].active
    ensures Reaches(t, i, n) && PathOf(t, i) == PathWithin(t, i, n)
  {
    assert ChainOk(t, i);
    n :| Reaches(t, i, n);
    PathOfIs(t, i, n);
  }

  lemma PathOfIs(t: Table, i: nat, n: nat)
    requires Reaches(t, i, n)
    ensures PathOf(t, i) == PathWithin(t, i, n)
  {
    var k: nat :| Reaches(t, i, k) && PathOf(t, i) == PathWithin(t, i, k);
    if k <= n {
      PathWithinMore(t, i, k, n);
    } else {
      PathWithinMore(t, i, n, k);
    }
  }

  lemma ParentRooted(t: Table, i: nat)
    requires Rooted(t, i) && i != 0
    ensures t[i].parent >= 1 && Rooted(t, t[i].parent - 1)
    ensures PathOf(t, i) == PathOf(t, t[i].parent - 1) + [CText(t[i].name)]
  {
    var n: nat :| Reaches(t, i, n);
    PathOfIs(t, i, n);
    PathOfIs(t, t[i].parent - 1, n - 1);
  }

  lemma ParentPath(t: Table, i: nat)
    requires Tree(t) && 0 < i < |t| && t[i].active
    ensures IsDirectory(t, t[i].parent) && IsSegment(CText(t[i].name))
    ensures PathOf(t, i) == PathOf(t, t[i].parent - 1) + [CText(t[i].name)]
  {
    assert ChainOk(t, i) && LinkOk(t, i);
    ParentRooted(t, i);
  }

  lemma RootPath(t: Table)
    requires Tree(t)
    ensures Rooted(t, 0) && PathOf(t, 0) == []
  {
    assert Reaches(t, 0, 0);
    PathOfIs(t, 0, 0);
  }

  /** Every node opens by its own path. */
  lemma {:induction false} NodeOpens(t: Table, i: nat, n: nat)
    requires Tree(t) && Reaches(t, i, n)
    ensures Resolve(t, 0, PathWithin(t, i, n)) == Some(i)
    decreases n
  {
    if i != 0 {
      var p := t[i].parent - 1;
      NodeOpens(t, p, n - 1);
      var name := CText(t[i].name);
      assert LinkOk(t, i);
      ResolveConcat(t, 0, PathWithin(t, p, n - 1), [name]);
      ChildIs(t, p, name, i);
      assert Resolve(t, p, [name]) == Some(i);
    }
  }

  /** Resolution walks down the tree: it extends the path of where it started. */
  lemma {:induction false} ResolvedPath(t: Table, i: nat, segs: seq<Segment>)
    requires Tree(t) && i < |t| && t[i].active
    ensures match Resolve(t, i, segs)
            case None => true
            case Some(j) => t[j].active && PathOf(t, j) == PathOf(t, i) + segs
    decreases segs
  {
    if segs == [] {
      assert PathOf(t, i) + segs == PathOf(t, i);
    } else {
      match Child(t, i, segs[0])
      case None =>
      case Some(c) =>
        ChildFound(t, i, segs[0]);
        if c == 0 {
          assert false;
        } else {
          ParentPath(t, c);
          ResolvedPath(t, c, segs[1..]);
          assert PathOf(t, c) + segs[1..] == PathOf(t, i) + segs;
        }
    }
  }

  /** Paths and nodes are in bijection. */
  lemma PathBijection(t: Table, segs: seq<Segment>, i: nat)
    requires Tree(t) && i < |t| && t[i].active
    ensures Resolve(t, 0, segs) == Some(i) <==> PathOf(t, i) == segs
  {
    RootPath(t);
    ResolvedPath(t, 0, segs);
    assert [] + segs == segs;
    var n := ActiveReaches(t, i);
    NodeOpens(t, i, n);
  }

  lemma {:induction false} PathNamesLegal(t: Table, i: nat, n: nat)
    requires Tree(t) && Reaches(t, i, n)
    ensures forall s :: s in PathWithin(t, i, n) ==> IsSegment(s)
    decreases n
  {
    if i != 0 {
      assert LinkOk(t, i);
      PathNamesLegal(t, t[i].parent - 1, n - 1);
    }
  }

  /** Every node can be opened from the root by spelling out its path as bytes. */
  lemma EveryNodeOpens(t: Table, i: nat)
    requires Tree(t) && i < |t| && t[i].active
    ensures Open(t, ROOT, Spell(PathOf(t, i))) == Some(i + 1)
  {
    var n := ActiveReaches(t, i);
    PathNamesLegal(t, i, n);
    SpellSegments(PathOf(t, i));
    PathBijection(t, PathOf(t, i), i);
  }
}
