/**
 What a move does to its source path, on every forest and all bytes. The moved node itself can
 capture the path: where the walk to the source passes the destination directory, the new name
 may match the segment looked up there. Otherwise the source path opens the next sibling that
 its last segment matches. From this follows exactly when moving back restores the table.
 */
module RamfsByteMoves {
  import opened Prelude
  import opened RamfsPath
  import opened RamfsTable
  import opened RamfsTree
  import opened RamfsMove
  import opened RamfsRuns
  import opened RamfsBytes
  import opened RamfsForest
  import opened RamfsBytePaths

  // ---- chains of a forest ----

  lemma {:induction false} AncestorDepth(t: Table, a: nat, i: nat, n: nat)
    requires Forest(t) && i < |t| && t[i].active && AncestorWithin(t, a, i, n)
    ensures |PathOf(t, a)| <= |PathOf(t, i)|
    decreases n
  {
    if i != a {
      assert LinkSound(t, i);
      ChildDepth(t, t[i].parent - 1, i);
      AncestorDepth(t, a, t[i].parent - 1, n - 1);
    }
  }

  /** No node is above its own parent. */
  lemma NotAboveParent(t: Table, m: nat, q: nat)
    requires Forest(t) && m < |t| && t[m].active && t[m].parent == q + 1
    ensures !Ancestor(t, m, q)
  {
    ChildDepth(t, q, m);
    assert LinkSound(t, m);
    if Ancestor(t, m, q) {
      var n: nat :| AncestorWithin(t, m, q, n);
      AncestorDepth(t, m, q, n);
    }
  }

  lemma {:induction false} OutsideStays(t: Table, m: nat, p: nat, leaf: Segment, i: nat, n: nat)
    requires MayRelink(t, m, p, leaf) && i < |t| && t[i].active && !Ancestor(t, m, i)
    ensures !AncestorWithin(Relinked(t, m, p, leaf), m, i, n)
    decreases n
  {
    assert AncestorWithin(t, m, m, 0);
    if n > 0 && i != 0 {
      assert LinkSound(t, i);
      AncestorStep(t, m, i);
      OutsideStays(t, m, p, leaf, t[i].parent - 1, n - 1);
    }
  }

  // ---- lookups after the relink ----

  /** The moved node answers a lookup of `seg` at its new parent before what was found there. */
  predicate Answers(t: Table, m: nat, p: nat, leaf: Segment, x: nat, seg: Segment)
    requires |leaf| < NAME_CAPACITY
  {
    && x == p && BufferMatches(Padded(leaf), seg)
    && ByteChild(t, x, seg).Some? && m <= ByteChild(t, x, seg).value
  }

  lemma LookupCaptured(t: Table, m: nat, p: nat, leaf: Segment, seg: Segment)
    requires MayRelink(t, m, p, leaf) && Answers(t, m, p, leaf, p, seg)
    ensures ByteChild(Relinked(t, m, p, leaf), p, seg) == Some(m)
  {
    NoneBefore(t, p + 1, seg, 0);
    FirstIs(Relinked(t, m, p, leaf), p + 1, seg, 0, m);
  }

  lemma LookupKept(t: Table, m: nat, p: nat, leaf: Segment, x: nat, seg: Segment)
    requires MayRelink(t, m, p, leaf) && !Answers(t, m, p, leaf, x, seg)
    requires ByteChild(t, x, seg).Some? && ByteChild(t, x, seg) != Some(m)
    ensures ByteChild(Relinked(t, m, p, leaf), x, seg) == ByteChild(t, x, seg)
  {
    NoneBefore(t, x + 1, seg, 0);
    FirstIs(Relinked(t, m, p, leaf), x + 1, seg, 0, ByteChild(t, x, seg).value);
  }

  lemma LookupUncovers(t: Table, m: nat, p: nat, leaf: Segment, x: nat, seg: Segment)
    requires MayRelink(t, m, p, leaf) && !Answers(t, m, p, leaf, x, seg) && ByteChild(t, x, seg) == Some(m)
    ensures ByteChild(Relinked(t, m, p, leaf), x, seg) == FirstByteMatch(t, x + 1, seg, m + 1)
  {
    var u := Relinked(t, m, p, leaf);
    NoneBefore(t, x + 1, seg, 0);
    SkipTo(u, x + 1, seg, 0, m + 1);
    SameFrom(t, u, x + 1, seg, m + 1);
  }

  /** Below the moved node nothing changes. */
  lemma {:induction false} BelowStays(t: Table, m: nat, p: nat, leaf: Segment, i: nat, segs: seq<Segment>)
    requires MayRelink(t, m, p, leaf) && i < |t| && t[i].active && Ancestor(t, m, i)
    ensures ByteResolve(Relinked(t, m, p, leaf), i, segs) == ByteResolve(t, i, segs)
    decreases segs
  {
    if segs != [] {
      LookupBelow(t, m, p, leaf, i, segs[0]);
      if ByteChild(t, i, segs[0]).Some? {
        var c := ByteChild(t, i, segs[0]).value;
        AncestorStep(t, m, c);
        BelowStays(t, m, p, leaf, c, segs[1..]);
      }
    }
  }

  lemma LookupBelow(t: Table, m: nat, p: nat, leaf: Segment, i: nat, seg: Segment)
    requires MayRelink(t, m, p, leaf) && i < |t| && t[i].active && Ancestor(t, m, i)
    ensures ByteChild(Relinked(t, m, p, leaf), i, seg) == ByteChild(t, i, seg)
  {
    if ByteChild(t, i, seg).Some? {
      var c := ByteChild(t, i, seg).value;
      if c == m {
        NotAboveParent(t, m, i);
      }
      LookupKept(t, m, p, leaf, i, seg);
    } else if seg != [] {
      ByteChildAbsent(t, i + 1, seg, 0);
      ByteChildNone(Relinked(t, m, p, leaf), i + 1, seg, 0);
    }
  }

  // ---- walks after the relink ----

  /** The walk along `segs` meets the moved node after `j` segments. */
  predicate CapturedAt(t: Table, m: nat, p: nat, leaf: Segment, i: nat, segs: seq<Segment>, j: nat)
    requires i < |t| && |leaf| < NAME_CAPACITY
  {
    && j < |segs|
    && ByteResolve(t, i, segs[..j]).Some?
    && Answers(t, m, p, leaf, ByteResolve(t, i, segs[..j]).value, segs[j])
  }

  ghost predicate Captured(t: Table, m: nat, p: nat, leaf: Segment, i: nat, segs: seq<Segment>)
    requires i < |t| && |leaf| < NAME_CAPACITY
  {
    exists j: nat :: CapturedAt(t, m, p, leaf, i, segs, j)
  }

  lemma CapturedLater(t: Table, m: nat, p: nat, leaf: Segment, i: nat, segs: seq<Segment>, j: nat)
    requires i < |t| && |leaf| < NAME_CAPACITY && 0 < j && segs != [] && ByteChild(t, i, segs[0]).Some?
    ensures CapturedAt(t, m, p, leaf, i, segs, j)
       <==> CapturedAt(t, m, p, leaf, ByteChild(t, i, segs[0]).value, segs[1..], j - 1)
  {
    if j < |segs| {
      assert segs[..j][1..] == segs[1..][..j - 1] && segs[..j][0] == segs[0];
    }
  }

  /** A captured walk goes on below the moved node. */
  lemma {:induction false} CapturedWalk(t: Table, m: nat, p: nat, leaf: Segment, i: nat, segs: seq<Segment>, j: nat)
    requires MayRelink(t, m, p, leaf) && i < |t| && t[i].active && CapturedAt(t, m, p, leaf, i, segs, j)
    ensures ByteResolve(Relinked(t, m, p, leaf), i, segs) == ByteResolve(t, m, segs[j + 1..])
    decreases j
  {
    if j == 0 {
      assert segs[..0] == [];
      LookupCaptured(t, m, p, leaf, segs[0]);
      assert AncestorWithin(t, m, m, 0);
      BelowStays(t, m, p, leaf, m, segs[1..]);
    } else {
      WalkDepth(t, i, segs[..j]);
      assert segs[..j][0] == segs[0];
      var c := ByteChild(t, i, segs[0]).value;
      assert segs[..j][1..] == segs[1..][..j - 1];
      WalkIsBelow(t, c, segs[1..][..j - 1]);
      LookupKept(t, m, p, leaf, i, segs[0]);
      CapturedLater(t, m, p, leaf, i, segs, j);
      CapturedWalk(t, m, p, leaf, c, segs[1..], j - 1);
      assert segs[1..][j..] == segs[j + 1..];
    }
  }

  /** A walk that is not captured and ends outside the moved subtree ends where it did. */
  lemma {:induction false} UncapturedWalk(t: Table, m: nat, p: nat, leaf: Segment, i: nat, segs: seq<Segment>)
    requires MayRelink(t, m, p, leaf) && i < |t| && t[i].active && ByteResolve(t, i, segs).Some?
    requires !Ancestor(t, m, ByteResolve(t, i, segs).value) && !Captured(t, m, p, leaf, i, segs)
    ensures ByteResolve(Relinked(t, m, p, leaf), i, segs) == ByteResolve(t, i, segs)
    decreases segs
  {
    if segs != [] {
      var c := ByteChild(t, i, segs[0]).value;
      WalkIsBelow(t, c, segs[1..]);
      assert segs[..0] == [];
      assert !CapturedAt(t, m, p, leaf, i, segs, 0);
      LookupKept(t, m, p, leaf, i, segs[0]);
      forall j: nat
        ensures !CapturedAt(t, m, p, leaf, c, segs[1..], j)
      {
        CapturedLater(t, m, p, leaf, i, segs, j + 1);
      }
      UncapturedWalk(t, m, p, leaf, c, segs[1..]);
    }
  }

  // ---- the source of a move ----

  /** Being captured before the last segment, or at it. */
  lemma CapturedSplits(t: Table, m: nat, p: nat, leaf: Segment, i: nat, init: seq<Segment>, last: Segment, j: nat)
    requires i < |t| && |leaf| < NAME_CAPACITY && ByteResolve(t, i, init).Some?
    ensures j != |init| ==> (CapturedAt(t, m, p, leaf, i, init + [last], j) <==> CapturedAt(t, m, p, leaf, i, init, j))
    ensures CapturedAt(t, m, p, leaf, i, init + [last], |init|)
       <==> Answers(t, m, p, leaf, ByteResolve(t, i, init).value, last)
  {
    assert (init + [last])[..|init|] == init;
    if j < |init| {
      assert (init + [last])[..j] == init[..j];
    }
  }

  /** Resolution of the source path after the relink. */
  lemma SourceResolves(t: Table, m: nat, p: nat, leaf: Segment, i: nat, init: seq<Segment>, last: Segment)
    requires MayRelink(t, m, p, leaf) && i < |t| && t[i].active && ByteResolve(t, i, init).Some?
    requires ByteChild(t, ByteResolve(t, i, init).value, last) == Some(m)
    requires !Captured(t, m, p, leaf, i, init + [last])
    ensures var u, q := Relinked(t, m, p, leaf), ByteResolve(t, i, init).value;
            && ByteResolve(u, i, init) == Some(q)
            && ByteChild(u, q, last) == FirstByteMatch(t, q + 1, last, m + 1)
            && ByteResolve(u, i, init + [last]) == FirstByteMatch(t, q + 1, last, m + 1)
  {
    var u, q := Relinked(t, m, p, leaf), ByteResolve(t, i, init).value;
    NotAboveParent(t, m, q);
    forall j: nat
      ensures !CapturedAt(t, m, p, leaf, i, init, j)
    {
      CapturedSplits(t, m, p, leaf, i, init, last, j);
    }
    CapturedSplits(t, m, p, leaf, i, init, last, |init|);
    UncapturedWalk(t, m, p, leaf, i, init);
    LookupUncovers(t, m, p, leaf, q, last);
    ByteResolveConcat(u, i, init, [last]);
  }

  lemma SourceCaptured(t: Table, m: nat, p: nat, leaf: Segment, base: nat, path: seq<u8>, j: nat)
    requires MayRelink(t, m, p, leaf) && BaseOk(t, base, path)
    requires CapturedAt(t, m, p, leaf, base - 1, Segments(path), j)
    ensures ByteOpen(Relinked(t, m, p, leaf), base, path) == Id(ByteResolve(t, m, Segments(path)[j + 1..]))
  {
    RelinkKeepsBase(t, m, p, leaf, base, path);
    CapturedWalk(t, m, p, leaf, base - 1, Segments(path), j);
  }

  lemma SourceUncovered(t: Table, m: nat, p: nat, leaf: Segment, base: nat, path: seq<u8>)
    requires MayRelink(t, m, p, leaf) && ByteWalkParent(t, base, path).Some?
    requires var s := ByteWalkParent(t, base, path).value; ByteChild(t, s.parent, s.leaf) == Some(m)
    requires !Captured(t, m, p, leaf, base - 1, Segments(path))
    ensures var u, s := Relinked(t, m, p, leaf), ByteWalkParent(t, base, path).value;
            && ByteWalkParent(u, base, path) == Some(s)
            && ByteChild(u, s.parent, s.leaf) == FirstByteMatch(t, s.parent + 1, s.leaf, m + 1)
            && ByteOpen(u, base, path) == Id(FirstByteMatch(t, s.parent + 1, s.leaf, m + 1))
  {
    var u, s := Relinked(t, m, p, leaf), ByteWalkParent(t, base, path).value;
    var init := WalkSplits(t, base, path);
    SourceResolves(t, m, p, leaf, base - 1, init, s.leaf);
    RelinkKeepsBase(t, m, p, leaf, base, path);
    WalkAgain(t, u, base, path, init);
    hide ByteWalkParent, ByteResolve, ByteChild, Segments, Captured, Forest;
  }

  /** What the source path opens after a move that changes the table. */
  lemma ByteMoveSource(t: Table, sb: nat, sp: seq<u8>, db: nat, dp: seq<u8>, j: nat)
    requires Forest(t) && ByteMove(t, sb, sp, db, dp).0 != t
    ensures ByteWalkParent(t, sb, sp).Some? && ByteWalkParent(t, db, dp).Some? && ByteOpen(t, sb, sp).Some?
    ensures var u := ByteMove(t, sb, sp, db, dp).0;
            var s, d := ByteWalkParent(t, sb, sp).value, ByteWalkParent(t, db, dp).value;
            var m := ByteOpen(t, sb, sp).value - 1;
            var segs := Segments(sp);
            && 0 <= m < |t| && 1 <= sb <= |t| && |d.leaf| < NAME_CAPACITY
            && (CapturedAt(t, m, d.parent, d.leaf, sb - 1, segs, j) ==>
                  ByteOpen(u, sb, sp) == Id(ByteResolve(t, m, segs[j + 1..])))
            && (!Captured(t, m, d.parent, d.leaf, sb - 1, segs) ==>
                  ByteOpen(u, sb, sp) == Id(FirstByteMatch(t, s.parent + 1, s.leaf, m + 1)))
  {
    var m, p, leaf := ByteMoveRelinks(t, sb, sp, db, dp);
    ByteWalkAgrees(t, sb, sp);
    assert BaseOk(t, sb, sp);
    hide ByteMove, ByteWalkParent, ByteOpen, ByteChild, Forest, Segments, CapturedAt, Captured;
    if CapturedAt(t, m, p, leaf, sb - 1, Segments(sp), j) {
      SourceCaptured(t, m, p, leaf, sb, sp, j);
    }
    if !Captured(t, m, p, leaf, sb - 1, Segments(sp)) {
      SourceUncovered(t, m, p, leaf, sb, sp);
    }
  }

  /** Wherever the moved node captures the walk, the rest of it does not resolve below the node. */
  ghost predicate CapturedDeadEnds(t: Table, m: nat, p: nat, leaf: Segment, i: nat, segs: seq<Segment>)
    requires i < |t| && m < |t| && |leaf| < NAME_CAPACITY
  {
    forall j: nat :: CapturedAt(t, m, p, leaf, i, segs, j) ==> ByteResolve(t, m, segs[j + 1..]) == None
  }

  /**
   The source path closes exactly when its last segment matches no second sibling or, if the
   moved node captures the path, when what follows does not open below that node.
   */
  lemma ByteMoveClosesIff(t: Table, sb: nat, sp: seq<u8>, db: nat, dp: seq<u8>)
    requires Forest(t) && ByteMove(t, sb, sp, db, dp).0 != t
    ensures ByteWalkParent(t, sb, sp).Some? && ByteWalkParent(t, db, dp).Some? && ByteOpen(t, sb, sp).Some?
    ensures var s, d := ByteWalkParent(t, sb, sp).value, ByteWalkParent(t, db, dp).value;
            var m := ByteOpen(t, sb, sp).value - 1;
            var segs := Segments(sp);
            && 0 <= m < |t| && 1 <= sb <= |t| && |d.leaf| < NAME_CAPACITY
            && (ByteOpen(ByteMove(t, sb, sp, db, dp).0, sb, sp) == None <==>
                  && CapturedDeadEnds(t, m, d.parent, d.leaf, sb - 1, segs)
                  && (Captured(t, m, d.parent, d.leaf, sb - 1, segs)
                      || FirstByteMatch(t, s.parent + 1, s.leaf, m + 1) == None))
  {
    ByteMoveSource(t, sb, sp, db, dp, 0);
    var m, s, d := ByteOpen(t, sb, sp).value - 1, ByteWalkParent(t, sb, sp).value, ByteWalkParent(t, db, dp).value;
    var i: nat := sb - 1;
    forall j: nat
      ensures CapturedAt(t, m, d.parent, d.leaf, i, Segments(sp), j) ==>
                ByteOpen(ByteMove(t, sb, sp, db, dp).0, sb, sp) == Id(ByteResolve(t, m, Segments(sp)[j + 1..]))
    {
      ByteMoveSource(t, sb, sp, db, dp, j);
    }
    hide ByteMove, ByteWalkParent, ByteOpen, Forest, Segments, CapturedAt;
  }

  // ---- moving back ----

  /** The names and places under which moving back gives the old table. */
  ghost predicate Reversible(t: Table, m: nat, s: Walk, d: Walk, base: nat, segs: seq<Segment>)
    requires m < |t| && 1 <= base <= |t| && |d.leaf| < NAME_CAPACITY && |s.leaf| < NAME_CAPACITY
  {
    && !Captured(t, m, d.parent, d.leaf, base - 1, segs)
    && FirstByteMatch(t, s.parent + 1, s.leaf, m + 1) == None
    && t[m].name == Padded(s.leaf)
  }

  lemma RelinkTwice(t: Table, m: nat, p: nat, leaf: Segment, q: nat, name: Segment)
    requires m < |t| && |leaf| < NAME_CAPACITY && |name| < NAME_CAPACITY
    ensures Relinked(Relinked(t, m, p, leaf), m, q, name) == t <==> t[m].parent == q + 1 && t[m].name == Padded(name)
  {
    var u := Relinked(t, m, p, leaf);
    var v := Relinked(u, m, q, name);
    assert v[m] == t[m].(parent := q + 1, name := Padded(name));
    if t[m].parent == q + 1 && t[m].name == Padded(name) {
      assert v == t;
    }
  }

  lemma MovesBack(t: Table, m: nat, p: nat, leaf: Segment, sb: nat, sp: seq<u8>, db: nat, dp: seq<u8>)
    requires MayRelink(t, m, p, leaf) && leaf != []
    requires ByteWalkParent(t, db, dp) == Some(Walk(p, leaf)) && ByteChild(t, p, leaf) == None
    requires ByteWalkParent(t, sb, sp).Some?
    requires var s := ByteWalkParent(t, sb, sp).value;
             ByteChild(t, s.parent, s.leaf) == Some(m) && |s.leaf| < NAME_CAPACITY
    requires Reversible(t, m, ByteWalkParent(t, sb, sp).value, Walk(p, leaf), sb, Segments(sp))
    ensures ByteMove(Relinked(t, m, p, leaf), db, dp, sb, sp) == (t, true)
  {
    var u, s := Relinked(t, m, p, leaf), ByteWalkParent(t, sb, sp).value;
    RelinkedIsFound(t, m, p, leaf, db, dp);
    SourceUncovered(t, m, p, leaf, sb, sp);
    NotAboveParent(t, m, s.parent);
    forall n: nat
      ensures !AncestorWithin(u, m, s.parent, n)
    {
      OutsideStays(t, m, p, leaf, s.parent, n);
    }
    RelinkTwice(t, m, p, leaf, s.parent, s.leaf);
    hide ByteWalkParent, ByteChild, Forest, Segments, Captured;
  }

  /** A move back that gives the old table found the source's parent and no node there. */
  lemma BackRelinks(t: Table, u: Table, m: nat, sb: nat, sp: seq<u8>, db: nat, dp: seq<u8>)
    requires ByteMove(u, db, dp, sb, sp) == (t, true) && u != t
    requires ByteWalkParent(u, db, dp).Some?
    requires var d := ByteWalkParent(u, db, dp).value; ByteChild(u, d.parent, d.leaf) == Some(m)
    ensures ByteWalkParent(u, sb, sp).Some?
    ensures var w := ByteWalkParent(u, sb, sp).value;
            && |w.leaf| < NAME_CAPACITY && ByteChild(u, w.parent, w.leaf) == None
            && Relinked(u, m, w.parent, w.leaf) == t
  {
    hide ByteWalkParent, ByteChild, Ancestor;
  }

  /** Such a walk was not captured, and no second sibling matches. */
  lemma BackMeansUncaptured(t: Table, m: nat, p: nat, leaf: Segment, base: nat, path: seq<u8>)
    requires MayRelink(t, m, p, leaf) && ByteWalkParent(t, base, path).Some?
    requires var s := ByteWalkParent(t, base, path).value; ByteChild(t, s.parent, s.leaf) == Some(m)
    requires var u, s := Relinked(t, m, p, leaf), ByteWalkParent(t, base, path).value;
             ByteWalkParent(u, base, path) == Some(s) && ByteChild(u, s.parent, s.leaf) == None
    ensures !Captured(t, m, p, leaf, base - 1, Segments(path))
    ensures var s := ByteWalkParent(t, base, path).value; FirstByteMatch(t, s.parent + 1, s.leaf, m + 1) == None
  {
    var u, s := Relinked(t, m, p, leaf), ByteWalkParent(t, base, path).value;
    var init := WalkSplits(t, base, path);
    var same := WalkSplits(u, base, path);
    var i: nat := base - 1;
    forall j: nat
      ensures !CapturedAt(t, m, p, leaf, i, Segments(path), j)
    {
      CapturedSplits(t, m, p, leaf, i, init, s.leaf, j);
      if CapturedAt(t, m, p, leaf, i, Segments(path), j) {
        if j == |init| {
          LookupCaptured(t, m, p, leaf, s.leaf);
        } else {
          CapturedWalk(t, m, p, leaf, i, init, j);
          WalkIsBelow(t, m, init[j + 1..]);
          NotAboveParent(t, m, s.parent);
        }
        assert false;
      }
    }
    SourceUncovered(t, m, p, leaf, base, path);
  }

  /**
   Moving back succeeds and restores the table exactly when the moved node does not capture the
   source path, no second sibling matches there, and the node's buffer was its padded name.
   */
  lemma ByteMoveBackIff(t: Table, sb: nat, sp: seq<u8>, db: nat, dp: seq<u8>)
    requires Forest(t) && ByteMove(t, sb, sp, db, dp).0 != t
    ensures ByteWalkParent(t, sb, sp).Some? && ByteWalkParent(t, db, dp).Some? && ByteOpen(t, sb, sp).Some?
    ensures var s, d := ByteWalkParent(t, sb, sp).value, ByteWalkParent(t, db, dp).value;
            var m := ByteOpen(t, sb, sp).value - 1;
            && 0 <= m < |t| && 1 <= sb <= |t| && |d.leaf| < NAME_CAPACITY && |s.leaf| < NAME_CAPACITY
            && (ByteMove(ByteMove(t, sb, sp, db, dp).0, db, dp, sb, sp) == (t, true)
                <==> Reversible(t, m, s, d, sb, Segments(sp)))
  {
    var m, p, leaf := ByteMoveRelinks(t, sb, sp, db, dp);
    var u, s := Relinked(t, m, p, leaf), ByteWalkParent(t, sb, sp).value;
    ByteWalkAgrees(t, sb, sp);
    RelinkedIsFound(t, m, p, leaf, db, dp);
    assert SlotSound(t, m) && BaseOk(t, sb, sp);
    hide ByteMove, ByteWalkParent, ByteOpen, ByteChild, Forest, Segments, Captured;
    if Reversible(t, m, s, Walk(p, leaf), sb, Segments(sp)) {
      MovesBack(t, m, p, leaf, sb, sp, db, dp);
    }
    if ByteMove(u, db, dp, sb, sp) == (t, true) {
      BackRelinks(t, u, m, sb, sp, db, dp);
      var w := ByteWalkParent(u, sb, sp).value;
      RelinkTwice(t, m, p, leaf, w.parent, w.leaf);
      BackMeansUncaptured(t, m, p, leaf, sb, sp);
    }
  }
}
