/**
 What every operation keeps on every byte path. A forest is a tree without the demands on
 names: sound slots, directories above every node, and parent chains that reach the root.
 */
module RamfsForest {
  import opened Prelude
  import opened RamfsPath
  import opened RamfsTable
  import opened RamfsMove
  import opened RamfsRuns
  import opened RamfsBytes

  /** A live node's buffers: the name ends in a NUL, the file fits. */
  predicate BuffersOk(n: Node) {
    |n.name| == NAME_CAPACITY && n.name[NAME_CAPACITY - 1] == 0 && FileOk(n)
  }

  predicate SlotSound(t: Table, i: nat)
    requires i < |t|
  {
    if t[i].active
    then t[i].id == i + 1 && (t[i].kind == DIRECTORY || t[i].kind == FILE) && BuffersOk(t[i])
    else t[i] == ZeroNode()
  }

  predicate LinkSound(t: Table, i: nat)
    requires i < |t|
  {
    t[i].active && i != 0 ==> IsDirectory(t, t[i].parent)
  }

  ghost predicate Forest(t: Table) {
    && |t| == NODE_LIMIT
    && t[0].active && t[0].kind == DIRECTORY && t[0].parent == 0
    && (forall i :: 0 <= i < |t| ==> SlotSound(t, i))
    && (forall i :: 0 <= i < |t| ==> LinkSound(t, i))
    && (forall i :: 0 <= i < |t| ==> ChainOk(t, i))
  }

  lemma TreeIsForest(t: Table)
    requires Tree(t)
    ensures Forest(t)
  {
    forall i | 0 <= i < |t|
      ensures SlotSound(t, i) && LinkSound(t, i)
    {
      assert SlotOk(t, i) && LinkOk(t, i);
    }
  }

  /** No node hangs below a file. */
  lemma FileHasNoChild(t: Table, c: nat)
    requires Forest(t) && c < |t| && t[c].kind == FILE
    ensures forall j :: 0 <= j < |t| && t[j].active ==> t[j].parent != c + 1
  {
    forall j | 0 <= j < |t| && t[j].active
      ensures t[j].parent != c + 1
    {
      assert LinkSound(t, j);
    }
  }

  /** A node without children is on no other node's chain. */
  lemma {:induction false} ChildlessAboveNothing(t: Table, m: nat, i: nat, n: nat)
    requires Forest(t) && i < |t| && t[i].active && i != m
    requires forall j :: 0 <= j < |t| && t[j].active ==> t[j].parent != m + 1
    ensures !AncestorWithin(t, m, i, n)
    decreases n
  {
    if n > 0 && i != 0 {
      assert LinkSound(t, i);
      ChildlessAboveNothing(t, m, t[i].parent - 1, n - 1);
    }
  }

  // ---- adding, removing and writing ----

  /** A chain survives when every live node keeps its parent. */
  lemma {:induction false} ChainSurvives(t: Table, u: Table, i: nat, n: nat)
    requires |u| == |t| && Reaches(t, i, n)
    requires forall j :: 0 <= j < |t| && t[j].active ==> u[j].active && u[j].parent == t[j].parent
    ensures Reaches(u, i, n)
    decreases n
  {
    if i != 0 {
      ChainSurvives(t, u, t[i].parent - 1, n - 1);
    }
  }

  lemma AddedForest(t: Table, k: nat, p: nat, leaf: Segment, kind: nat)
    requires Forest(t) && k < |t| && !t[k].active && IsDirectory(t, p + 1)
    requires |leaf| < NAME_CAPACITY && (kind == DIRECTORY || kind == FILE)
    ensures Forest(Added(t, k, p, leaf, kind))
  {
    var u := Added(t, k, p, leaf, kind);
    forall i | 0 <= i < |u|
      ensures SlotSound(u, i) && LinkSound(u, i) && ChainOk(u, i)
    {
      assert SlotSound(t, i) && LinkSound(t, i) && ChainOk(t, i) && ChainOk(t, p);
      var j := if i == k then p else i;
      if t[j].active {
        var n: nat :| Reaches(t, j, n);
        ChainSurvives(t, u, j, n);
        if i == k {
          assert Reaches(u, k, n + 1);
        }
      }
    }
  }

  /** A chain that does not start at the removed node never passes it. */
  lemma {:induction false} ChainAvoids(t: Table, c: nat, i: nat, n: nat)
    requires c < |t| && Reaches(t, i, n) && i != c
    requires forall j :: 0 <= j < |t| && t[j].active ==> t[j].parent != c + 1
    ensures Reaches(Removed(t, c), i, n)
    decreases n
  {
    if i != 0 {
      ChainAvoids(t, c, t[i].parent - 1, n - 1);
    }
  }

  lemma RemovedForest(t: Table, c: nat)
    requires Forest(t) && 0 < c < |t|
    requires forall j :: 0 <= j < |t| && t[j].active ==> t[j].parent != c + 1
    ensures Forest(Removed(t, c))
  {
    var u := Removed(t, c);
    forall i | 0 <= i < |u|
      ensures SlotSound(u, i) && LinkSound(u, i) && ChainOk(u, i)
    {
      assert SlotSound(t, i) && LinkSound(t, i) && ChainOk(t, i);
      if u[i].active {
        assert t[i].parent != c + 1;
        var n: nat :| Reaches(t, i, n);
        ChainAvoids(t, c, i, n);
      }
    }
  }

  lemma WriteKeepsForest(t: Table, id: nat, offset: nat, data: seq<u8>)
    requires Forest(t)
    ensures Forest(Write(t, id, offset, data).0)
  {
    var u := Write(t, id, offset, data).0;
    forall i | 0 <= i < |u|
      ensures SlotSound(u, i) && LinkSound(u, i) && ChainOk(u, i)
    {
      assert SlotSound(t, i) && LinkSound(t, i) && ChainOk(t, i);
      if t[i].active {
        var n: nat :| Reaches(t, i, n);
        ChainSurvives(t, u, i, n);
      }
    }
  }

  // ---- relinking ----

  /** The guard under which the source relinks `m` below `p`. */
  ghost predicate MayRelink(t: Table, m: nat, p: nat, leaf: Segment) {
    && Forest(t) && 0 < m < |t| && t[m].active && IsDirectory(t, p + 1) && !Ancestor(t, m, p)
    && |leaf| < NAME_CAPACITY
  }

  lemma {:induction false} ChainOutside(t: Table, m: nat, p: nat, leaf: Segment, i: nat, n: nat)
    requires MayRelink(t, m, p, leaf) && Reaches(t, i, n) && !Ancestor(t, m, i)
    ensures Reaches(Relinked(t, m, p, leaf), i, n)
    decreases n
  {
    if i == m {
      assert AncestorWithin(t, m, i, 0);
      assert false;
    } else if i != 0 {
      AncestorStep(t, m, i);
      ChainOutside(t, m, p, leaf, t[i].parent - 1, n - 1);
    }
  }

  lemma {:induction false} ChainInside(t: Table, m: nat, p: nat, leaf: Segment, i: nat, n: nat) returns (k: nat)
    requires MayRelink(t, m, p, leaf) && Reaches(t, i, n) && Ancestor(t, m, i)
    ensures Reaches(Relinked(t, m, p, leaf), i, k)
    decreases n
  {
    if i == m {
      assert ChainOk(t, p);
      var r: nat :| Reaches(t, p, r);
      ChainOutside(t, m, p, leaf, p, r);
      k := r + 1;
    } else {
      if i == 0 {
        AncestorRoot(t, m);
        assert false;
      }
      AncestorStep(t, m, i);
      k := ChainInside(t, m, p, leaf, t[i].parent - 1, n - 1);
      k := k + 1;
    }
  }

  lemma RelinkedSound(t: Table, m: nat, p: nat, leaf: Segment, i: nat)
    requires MayRelink(t, m, p, leaf) && i < |t|
    ensures var u := Relinked(t, m, p, leaf); SlotSound(u, i) && LinkSound(u, i) && ChainOk(u, i)
  {
    assert SlotSound(t, i) && LinkSound(t, i) && ChainOk(t, i);
    if t[i].active {
      var n: nat :| Reaches(t, i, n);
      if Ancestor(t, m, i) {
        var k := ChainInside(t, m, p, leaf, i, n);
      } else {
        ChainOutside(t, m, p, leaf, i, n);
      }
    }
  }

  lemma RelinkedForest(t: Table, m: nat, p: nat, leaf: Segment)
    requires MayRelink(t, m, p, leaf)
    ensures Forest(Relinked(t, m, p, leaf))
  {
    var u := Relinked(t, m, p, leaf);
    forall i | 0 <= i < |u|
      ensures SlotSound(u, i) && LinkSound(u, i) && ChainOk(u, i)
    {
      RelinkedSound(t, m, p, leaf, i);
    }
  }

  // ---- the operations ----

  lemma ByteCreateKeepsForest(t: Table, base: nat, path: seq<u8>, kind: nat)
    requires Forest(t)
    ensures Forest(ByteCreate(t, base, path, kind).0)
  {
    var u := ByteCreate(t, base, path, kind).0;
    if u != t {
      var w, k := ByteWalkParent(t, base, path).value, FirstFree(t, 0).value;
      AddedForest(t, k, w.parent, w.leaf, kind);
    }
  }

  /** What a move that changes the table relinks. */
  lemma ByteMoveRelinks(t: Table, sb: nat, sp: seq<u8>, db: nat, dp: seq<u8>) returns (m: nat, p: nat, leaf: Segment)
    requires Forest(t) && ByteMove(t, sb, sp, db, dp).0 != t
    ensures MayRelink(t, m, p, leaf) && leaf != []
    ensures ByteMove(t, sb, sp, db, dp) == (Relinked(t, m, p, leaf), true)
    ensures ByteWalkParent(t, db, dp) == Some(Walk(p, leaf)) && ByteChild(t, p, leaf) == None
    ensures ByteWalkParent(t, sb, sp).Some?
    ensures var s := ByteWalkParent(t, sb, sp).value; ByteChild(t, s.parent, s.leaf) == Some(m)
  {
    var s, d := ByteWalkParent(t, sb, sp).value, ByteWalkParent(t, db, dp).value;
    m, p, leaf := ByteChild(t, s.parent, s.leaf).value, d.parent, d.leaf;
    assert SlotSound(t, m);
    if t[m].kind == FILE && Ancestor(t, m, p) {
      var n: nat :| AncestorWithin(t, m, p, n);
      FileHasNoChild(t, m);
      ChildlessAboveNothing(t, m, p, n);
    }
  }

  lemma ByteMoveKeepsForest(t: Table, sb: nat, sp: seq<u8>, db: nat, dp: seq<u8>)
    requires Forest(t)
    ensures Forest(ByteMove(t, sb, sp, db, dp).0)
  {
    hide ByteMove;
    hide Forest;
    if ByteMove(t, sb, sp, db, dp).0 != t {
      var m, p, leaf := ByteMoveRelinks(t, sb, sp, db, dp);
      RelinkedForest(t, m, p, leaf);
    }
  }

  lemma ByteDeleteKeepsForest(t: Table, base: nat, path: seq<u8>)
    requires Forest(t)
    ensures Forest(ByteDelete(t, base, path).0)
  {
    var (u, done) := ByteDelete(t, base, path);
    if done {
      var w := ByteWalkParent(t, base, path).value;
      var c := ByteChild(t, w.parent, w.leaf).value;
      assert SlotSound(t, c);
      if t[c].kind == FILE {
        FileHasNoChild(t, c);
      }
      RemovedForest(t, c);
    }
  }

  // ---- whole runs ----

  ghost function ByteApply(t: Table, op: Op): Table {
    match op
    case CreateOp(base, path, kind) => ByteCreate(t, base, path, kind).0
    case MoveOp(sb, sp, db, dp) => ByteMove(t, sb, sp, db, dp).0
    case RenameOp(base, sp, dp) => ByteMove(t, base, sp, base, dp).0
    case DeleteOp(base, path) => ByteDelete(t, base, path).0
    case WriteOp(id, offset, data) => Write(t, id, offset, data).0
  }

  ghost function ByteRun(t: Table, ops: seq<Op>): Table
    decreases ops
  {
    if ops == [] then t else ByteRun(ByteApply(t, ops[0]), ops[1..])
  }

  lemma ByteApplyKeepsForest(t: Table, op: Op)
    requires Forest(t)
    ensures Forest(ByteApply(t, op))
  {
    match op
    case CreateOp(base, path, kind) => ByteCreateKeepsForest(t, base, path, kind);
    case MoveOp(sb, sp, db, dp) => ByteMoveKeepsForest(t, sb, sp, db, dp);
    case RenameOp(base, sp, dp) => ByteMoveKeepsForest(t, base, sp, base, dp);
    case DeleteOp(base, path) => ByteDeleteKeepsForest(t, base, path);
    case WriteOp(id, offset, data) => WriteKeepsForest(t, id, offset, data);
  }

  /** Every run of operations, on whatever bytes, keeps a forest. */
  lemma {:induction false} ByteRunKeepsForest(t: Table, ops: seq<Op>)
    requires Forest(t)
    ensures Forest(ByteRun(t, ops))
    decreases ops
  {
    if ops != [] {
      ByteApplyKeepsForest(t, ops[0]);
      ByteRunKeepsForest(ByteApply(t, ops[0]), ops[1..]);
    }
  }

  lemma ApplyAgrees(t: Table, op: Op)
    requires Tree(t) && NulFree(op)
    ensures ByteApply(t, op) == Apply(t, op)
  {
    hide Create, Move, Delete;
    hide ByteCreate, ByteMove, ByteDelete;
    match op
    case CreateOp(base, path, kind) => OperationsAgree(t, base, path, kind, base, path);
    case MoveOp(sb, sp, db, dp) => OperationsAgree(t, sb, sp, FILE, db, dp);
    case RenameOp(base, sp, dp) => OperationsAgree(t, base, sp, FILE, base, dp);
    case DeleteOp(base, path) => OperationsAgree(t, base, path, FILE, base, path);
    case WriteOp(_, _, _) =>
  }

  /** On NUL-free runs from a tree, working by bytes is working by name. */
  lemma {:induction false} RunAgrees(t: Table, ops: seq<Op>)
    requires Tree(t) && forall op :: op in ops ==> NulFree(op)
    ensures ByteRun(t, ops) == Run(t, ops)
    decreases ops
  {
    if ops != [] {
      ApplyAgrees(t, ops[0]);
      ApplyKeepsTree(t, ops[0]);
      RunAgrees(Apply(t, ops[0]), ops[1..]);
    }
  }
}
