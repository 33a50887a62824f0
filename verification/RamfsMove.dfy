/**
 Moving a node re-roots its subtree: the tree stays a tree, and the resolution of every
 path before and after is related by one equation.
 */
module RamfsMove {
  import opened Prelude
  import opened CStrings
  import opened RamfsPath
  import opened RamfsTable
  import opened RamfsTree

  // ---- ancestors are path prefixes ----

  lemma AncestorStep(t: Table, a: nat, i: nat)
    requires i < |t| && i != 0 && t[i].parent >= 1
    ensures Ancestor(t, a, i) <==> i == a || Ancestor(t, a, t[i].parent - 1)
  {
    if Ancestor(t, a, i) && i != a {
      var n: nat :| AncestorWithin(t, a, i, n);
      assert AncestorWithin(t, a, t[i].parent - 1, n - 1);
    }
    if i == a {
      assert AncestorWithin(t, a, i, 0);
    }
    if Ancestor(t, a, t[i].parent - 1) {
      var n: nat :| AncestorWithin(t, a, t[i].parent - 1, n);
      assert AncestorWithin(t, a, i, n + 1);
    }
  }

  lemma AncestorRoot(t: Table, a: nat)
    ensures Ancestor(t, a, 0) <==> a == 0
  {
    if a == 0 {
      assert AncestorWithin(t, a, 0, 0);
    }
  }

  lemma {:induction false} AncestorIsPrefixWithin(t: Table, a: nat, i: nat, n: nat)
    requires Tree(t) && a < |t| && t[a].active && Reaches(t, i, n)
    ensures Ancestor(t, a, i) <==> PathOf(t, a) <= PathOf(t, i)
    decreases n
  {
    RootPath(t);
    if i == 0 {
      AncestorRoot(t, a);
      if a != 0 {
        ParentPath(t, a);
      }
    } else {
      var q := t[i].parent - 1;
      AncestorStep(t, a, i);
      ParentPath(t, i);
      AncestorIsPrefixWithin(t, a, q, n - 1);
      PrefixOfAppend(PathOf(t, a), PathOf(t, q), CText(t[i].name));
      if PathOf(t, a) == PathOf(t, i) {
        PathsDiffer(t, a, i);
      }
    }
  }

  lemma PrefixOfAppend(x: seq<Segment>, y: seq<Segment>, name: Segment)
    ensures x <= y + [name] <==> x <= y || x == y + [name]
  {
  }

  /** No two nodes have the same path. */
  lemma PathsDiffer(t: Table, a: nat, b: nat)
    requires Tree(t) && a < |t| && t[a].active && b < |t| && t[b].active && PathOf(t, a) == PathOf(t, b)
    ensures a == b
  {
    PathBijection(t, PathOf(t, a), a);
    PathBijection(t, PathOf(t, a), b);
  }

  /** A slot is on the parent chain of another exactly when its path is a prefix. */
  lemma AncestorIsPrefix(t: Table, a: nat, i: nat)
    requires Tree(t) && a < |t| && t[a].active && i < |t| && t[i].active
    ensures Ancestor(t, a, i) <==> PathOf(t, a) <= PathOf(t, i)
  {
    var n := ActiveReaches(t, i);
    AncestorIsPrefixWithin(t, a, i, n);
  }

  // ---- relinking one node ----

  /** The guard under which the source relinks `m` below `p` as `leaf`. */
  ghost predicate CanRelink(t: Table, m: nat, p: nat, leaf: Segment) {
    && Tree(t)
    && 0 < m < |t| && t[m].active
    && IsDirectory(t, p + 1)
    && !Ancestor(t, m, p)
    && IsSegment(leaf) && |leaf| < NAME_CAPACITY
    && Child(t, p, leaf) == None
  }

  lemma RelinkedNode(t: Table, m: nat, p: nat, leaf: Segment)
    requires CanRelink(t, m, p, leaf)
    ensures CText(Relinked(t, m, p, leaf)[m].name) == leaf
    ensures Shaped(Relinked(t, m, p, leaf)[m])
  {
    CTextPadded(leaf, NAME_CAPACITY - |leaf|);
    assert SlotOk(t, m);
  }

  lemma {:induction false} ReachesKept(t: Table, m: nat, p: nat, leaf: Segment, i: nat, n: nat)
    requires CanRelink(t, m, p, leaf) && Reaches(t, i, n) && !Ancestor(t, m, i)
    ensures Reaches(Relinked(t, m, p, leaf), i, n)
    ensures PathWithin(Relinked(t, m, p, leaf), i, n) == PathWithin(t, i, n)
    decreases n
  {
    if i == m {
      assert AncestorWithin(t, m, i, 0);
      assert false;
    } else if i != 0 {
      AncestorStep(t, m, i);
      ReachesKept(t, m, p, leaf, t[i].parent - 1, n - 1);
    }
  }

  /** Nodes outside the moved subtree keep their path. */
  lemma PathKept(t: Table, m: nat, p: nat, leaf: Segment, i: nat)
    requires CanRelink(t, m, p, leaf) && i < |t| && t[i].active && !Ancestor(t, m, i)
    ensures Rooted(Relinked(t, m, p, leaf), i)
    ensures PathOf(Relinked(t, m, p, leaf), i) == PathOf(t, i)
  {
    var n := ActiveReaches(t, i);
    ReachesKept(t, m, p, leaf, i, n);
    PathOfIs(Relinked(t, m, p, leaf), i, n);
  }

  lemma MovedNodePath(t: Table, m: nat, p: nat, leaf: Segment)
    requires CanRelink(t, m, p, leaf)
    ensures Rooted(Relinked(t, m, p, leaf), m)
    ensures PathOf(Relinked(t, m, p, leaf), m) == PathOf(t, p) + [leaf]
  {
    var u := Relinked(t, m, p, leaf);
    PathKept(t, m, p, leaf, p);
    var k: nat :| Reaches(u, p, k);
    assert Reaches(u, m, k + 1);
    ParentRooted(u, m);
    RelinkedNode(t, m, p, leaf);
  }

  lemma {:induction false} PathMovedWithin(t: Table, m: nat, p: nat, leaf: Segment, i: nat, n: nat)
    requires CanRelink(t, m, p, leaf) && Reaches(t, i, n) && Ancestor(t, m, i)
    ensures Rooted(Relinked(t, m, p, leaf), i)
    ensures PathOf(t, m) <= PathOf(t, i)
    ensures PathOf(Relinked(t, m, p, leaf), i) == PathOf(t, p) + [leaf] + PathOf(t, i)[|PathOf(t, m)|..]
    decreases n
  {
    var u := Relinked(t, m, p, leaf);
    if i == 0 {
      AncestorRoot(t, m);
      assert false;
    } else if i == m {
      MovedNodePath(t, m, p, leaf);
      assert PathOf(t, i)[|PathOf(t, m)|..] == [];
    } else {
      var q := t[i].parent - 1;
      AncestorStep(t, m, i);
      PathMovedWithin(t, m, p, leaf, q, n - 1);
      ParentPath(t, i);
      MovedChildRooted(u, i, q);
      ReplacePrefix(PathOf(t, p) + [leaf], PathOf(t, m), PathOf(t, q), CText(t[i].name));
    }
  }

  lemma MovedChildRooted(u: Table, i: nat, q: nat)
    requires 0 < i < |u| && u[i].active && u[i].parent == q + 1 && Rooted(u, q)
    ensures Rooted(u, i) && PathOf(u, i) == PathOf(u, q) + [CText(u[i].name)]
  {
    var k: nat :| Reaches(u, q, k);
    assert Reaches(u, i, k + 1);
    ParentRooted(u, i);
  }

  /** Replacing a prefix commutes with appending a name. */
  lemma ReplacePrefix(dst: seq<Segment>, a: seq<Segment>, x: seq<Segment>, name: Segment)
    requires a <= x
    ensures a <= x + [name] && dst + (x + [name])[|a|..] == (dst + x[|a|..]) + [name]
  {
  }

  /** Nodes inside the moved subtree have the old prefix replaced by the new one. */
  lemma PathMoved(t: Table, m: nat, p: nat, leaf: Segment, i: nat)
    requires CanRelink(t, m, p, leaf) && i < |t| && t[i].active && Ancestor(t, m, i)
    ensures Rooted(Relinked(t, m, p, leaf), i)
    ensures PathOf(t, m) <= PathOf(t, i)
    ensures PathOf(Relinked(t, m, p, leaf), i) == PathOf(t, p) + [leaf] + PathOf(t, i)[|PathOf(t, m)|..]
  {
    var n := ActiveReaches(t, i);
    PathMovedWithin(t, m, p, leaf, i, n);
  }

  lemma RelinkedSiblings(t: Table, m: nat, p: nat, leaf: Segment)
    requires CanRelink(t, m, p, leaf)
    ensures SiblingsDiffer(Relinked(t, m, p, leaf))
  {
    var u := Relinked(t, m, p, leaf);
    RelinkedNode(t, m, p, leaf);
    ChildAbsent(t, p, leaf);
    forall i, j | 0 <= i < j < |u|
      ensures Differ(u, i, j)
    {
      assert Differ(t, i, j);
      if i == m {
        assert !Matches(t[j], p + 1, leaf);
      } else if j == m {
        assert !Matches(t[i], p + 1, leaf);
      }
    }
  }

  /** Relinking outside the node's own subtree keeps a tree. */
  lemma RelinkedTree(t: Table, m: nat, p: nat, leaf: Segment)
    requires CanRelink(t, m, p, leaf)
    ensures Tree(Relinked(t, m, p, leaf))
  {
    var u := Relinked(t, m, p, leaf);
    RelinkedSiblings(t, m, p, leaf);
    forall i | 0 <= i < |u|
      ensures SlotOk(u, i) && LinkOk(u, i) && ChainOk(u, i)
    {
      RelinkedSlot(t, m, p, leaf, i);
    }
    hide SlotOk;
    hide LinkOk;
    hide ChainOk;
    hide Padded;
  }

  lemma RelinkedSlot(t: Table, m: nat, p: nat, leaf: Segment, i: nat)
    requires CanRelink(t, m, p, leaf) && i < |t|
    ensures var u := Relinked(t, m, p, leaf); SlotOk(u, i) && LinkOk(u, i) && ChainOk(u, i)
  {
    RelinkedNode(t, m, p, leaf);
    assert SlotOk(t, i) && LinkOk(t, i);
    if t[i].active {
      if Ancestor(t, m, i) {
        PathMoved(t, m, p, leaf, i);
      } else {
        PathKept(t, m, p, leaf, i);
      }
    }
  }

  /** How resolution from the root looks after `src` has been moved to `dst`. */
  ghost function Rerooted(t: Table, src: seq<Segment>, dst: seq<Segment>, segs: seq<Segment>): Option<nat>
    requires |t| > 0
  {
    if dst <= segs then Resolve(t, 0, src + segs[|dst|..])
    else if src <= segs then None
    else Resolve(t, 0, segs)
  }

  /** `dst` extends the path of `p`, so an existing node below `dst` would occupy the leaf. */
  lemma NothingBelowFreeLeaf(t: Table, p: nat, leaf: Segment, i: nat)
    requires Tree(t) && IsDirectory(t, p + 1) && Child(t, p, leaf) == None
    requires i < |t| && t[i].active
    ensures !(PathOf(t, p) + [leaf] <= PathOf(t, i))
  {
    var dst := PathOf(t, p) + [leaf];
    if dst <= PathOf(t, i) {
      var rest := PathOf(t, i)[|dst|..];
      PathBijection(t, PathOf(t, i), i);
      assert PathOf(t, i) == PathOf(t, p) + ([leaf] + rest);
      ResolveConcat(t, 0, PathOf(t, p), [leaf] + rest);
      PathBijection(t, PathOf(t, p), p);
    }
  }

  /** One direction of the re-rooting equation, node by node. */
  lemma RerootedNode(t: Table, m: nat, p: nat, leaf: Segment, segs: seq<Segment>, i: nat)
    requires CanRelink(t, m, p, leaf) && i < |t| && t[i].active
    ensures Tree(Relinked(t, m, p, leaf))
    ensures Resolve(Relinked(t, m, p, leaf), 0, segs) == Some(i)
       <==> Rerooted(t, PathOf(t, m), PathOf(t, p) + [leaf], segs) == Some(i)
  {
    var u, src, dst := Relinked(t, m, p, leaf), PathOf(t, m), PathOf(t, p) + [leaf];
    RelinkedTree(t, m, p, leaf);
    PathBijection(u, segs, i);
    PathBijection(t, segs, i);
    AncestorIsPrefix(t, m, i);
    NothingBelowFreeLeaf(t, p, leaf, i);
    if dst <= segs {
      PathBijection(t, src + segs[|dst|..], i);
      assert segs == dst + segs[|dst|..];
    }
    if Ancestor(t, m, i) {
      PathMoved(t, m, p, leaf, i);
      assert PathOf(t, i) == src + PathOf(t, i)[|src|..];
    } else {
      PathKept(t, m, p, leaf, i);
      if dst <= segs {
        assert src <= src + segs[|dst|..];
      }
    }
  }

  lemma {:induction false} ResolveActive(t: Table, i: nat, segs: seq<Segment>)
    requires i < |t| && t[i].active
    ensures Resolve(t, i, segs).Some? ==> t[Resolve(t, i, segs).value].active
    decreases segs
  {
    if segs != [] && Child(t, i, segs[0]).Some? {
      ChildFound(t, i, segs[0]);
      ResolveActive(t, Child(t, i, segs[0]).value, segs[1..]);
    }
  }

  /**
   Re-rooting: after the move every path below the destination resolves to what the same
   relative path below the source resolved to, every path below the source is gone, and
   every other path resolves as before.
   */
  lemma MoveReroots(t: Table, m: nat, p: nat, leaf: Segment, segs: seq<Segment>)
    requires CanRelink(t, m, p, leaf)
    ensures Resolve(Relinked(t, m, p, leaf), 0, segs)
         == Rerooted(t, PathOf(t, m), PathOf(t, p) + [leaf], segs)
  {
    var u, src, dst := Relinked(t, m, p, leaf), PathOf(t, m), PathOf(t, p) + [leaf];
    ResolveActive(u, 0, segs);
    ResolveActive(t, 0, segs);
    if dst <= segs {
      ResolveActive(t, 0, src + segs[|dst|..]);
    }
    var r, s := Resolve(u, 0, segs), Rerooted(t, src, dst, segs);
    if r.Some? {
      RerootedNode(t, m, p, leaf, segs, r.value);
    }
    if s.Some? {
      RerootedNode(t, m, p, leaf, segs, s.value);
    }
  }

  /** Relinking the node back under its old parent and name restores the table exactly. */
  lemma RelinkBack(t: Table, m: nat, p: nat, leaf: Segment)
    requires CanRelink(t, m, p, leaf)
    ensures t[m].parent >= 1
    ensures CanRelink(Relinked(t, m, p, leaf), m, t[m].parent - 1, CText(t[m].name))
    ensures Relinked(Relinked(t, m, p, leaf), m, t[m].parent - 1, CText(t[m].name)) == t
  {
    var u, q, name := Relinked(t, m, p, leaf), t[m].parent - 1, CText(t[m].name);
    RelinkedTree(t, m, p, leaf);
    RelinkedNode(t, m, p, leaf);
    assert LinkOk(t, m) && SlotOk(t, m);
    assert Child(u, q, name) == None by {
      ChildAbsent(t, p, leaf);
      forall j | 0 <= j < |u|
        ensures !Matches(u[j], q + 1, name)
      {
        if j == m {
          assert !Matches(t[m], p + 1, leaf);
        } else if j < m {
          assert Differ(t, j, m);
        } else {
          assert Differ(t, m, j);
        }
      }
      ChildNone(u, q, name);
    }
    assert !Ancestor(t, m, q) by {
      ParentPath(t, m);
      AncestorIsPrefix(t, m, q);
    }
    PathKept(t, m, p, leaf, q);
    PathMoved(t, m, p, leaf, m) by { assert AncestorWithin(t, m, m, 0); }
    AncestorIsPrefix(u, m, q);
    NothingBelowFreeLeaf(t, p, leaf, q);
  }
}
