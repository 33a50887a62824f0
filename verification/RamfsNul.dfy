/**
 What NUL bytes in paths do. A leaf is stored in a NUL-padded buffer, bytes and all, while a
 name is read up to its first NUL. The lemmas say exactly which leaves can hide from the
 lookup, exactly which stored leaves keep a well-formed tree, and show both failures as runs.
 */
module RamfsNul {
  import opened Prelude
  import opened CStrings
  import opened RamfsPath
  import opened RamfsTable
  import opened RamfsTree
  import opened RamfsMove
  import opened RamfsRuns
  import opened RamfsSeed
  import opened RamfsBytes
  import opened RamfsForest
  import opened RamfsBytePaths
  import opened RamfsByteMoves

  /** Only NULs follow the first NUL of the leaf. */
  predicate NulOnlyTrails(leaf: seq<u8>) {
    forall k :: |CText(leaf)| <= k < |leaf| ==> leaf[k] == 0
  }

  lemma {:induction false} CTextOfPadded(leaf: seq<u8>, n: nat)
    ensures CText(leaf + Zeros(n)) == CText(leaf)
  {
    if leaf == [] {
      assert leaf + Zeros(n) == Zeros(n);
    } else if leaf[0] != 0 {
      assert (leaf + Zeros(n))[1..] == leaf[1..] + Zeros(n);
      CTextOfPadded(leaf[1..], n);
    }
  }

  /** A leaf and its C string fill a buffer alike exactly when only NULs trail. */
  lemma PaddedSameIff(leaf: seq<u8>)
    requires |leaf| < NAME_CAPACITY
    ensures |CText(leaf)| <= |leaf|
    ensures Padded(leaf) == Padded(CText(leaf)) <==> NulOnlyTrails(leaf)
  {
    CTextNonZero(leaf);
    var a, b := Padded(leaf), Padded(CText(leaf));
    if NulOnlyTrails(leaf) {
      forall k | 0 <= k < NAME_CAPACITY
        ensures a[k] == b[k]
      {
        if k < |CText(leaf)| {
          assert CText(leaf)[k] == leaf[k];
        }
      }
    } else {
      var k :| |CText(leaf)| <= k < |leaf| && leaf[k] != 0;
      assert a[k] != b[k];
    }
  }

  // ---- what the lookup can miss ----

  /** A stored leaf `l` shows the C string of the new leaf, yet the lookup does not find it. */
  predicate Missed(l: seq<u8>, leaf: seq<u8>) {
    l != [] && |l| < NAME_CAPACITY && CText(l) == CText(leaf) && !BufferMatches(Padded(l), leaf)
  }

  /**
   The lookup before a create or move can miss a stored sibling of the same C string exactly
   when the leaf holds a NUL and its C string leaves room for a NUL and one more byte.
   */
  lemma LookupMissesIff(leaf: seq<u8>)
    requires |leaf| < NAME_CAPACITY
    ensures (exists l :: Missed(l, leaf)) <==> !NonZero(leaf) && |CText(leaf)| < NAME_CAPACITY - 2
  {
    CTextNonZero(leaf);
    var name := CText(leaf);
    if !NonZero(leaf) && |name| < NAME_CAPACITY - 2 {
      MissedExists(leaf);
    } else {
      forall l | |l| < NAME_CAPACITY && CText(l) == name
        ensures BufferMatches(Padded(l), leaf)
      {
        NothingMissed(l, leaf);
      }
    }
  }

  /** A stored leaf begins with its C string and a NUL. */
  lemma StoredText(l: seq<u8>)
    requires |l| < NAME_CAPACITY
    ensures |CText(l)| <= |l| && Padded(l)[..|CText(l)|] == CText(l) && Padded(l)[|CText(l)|] == 0
  {
    CTextNonZero(l);
    assert Padded(l)[..|CText(l)|] == l[..|CText(l)|];
  }

  lemma NothingMissed(l: seq<u8>, leaf: seq<u8>)
    requires |l| < NAME_CAPACITY && |leaf| < NAME_CAPACITY && CText(l) == CText(leaf)
    requires NonZero(leaf) || |CText(leaf)| >= NAME_CAPACITY - 2
    ensures BufferMatches(Padded(l), leaf)
  {
    StoredText(l);
    CTextNonZero(leaf);
    CTextWhole(leaf);
    hide CText;
    var b, n := Padded(l), |CText(l)|;
    if leaf != CText(l) {
      assert n == NAME_CAPACITY - 2 && leaf == leaf[..n] + [leaf[n]];
      assert b[..n + 1] == b[..n] + [b[n]];
      assert b[n + 1] == 0;
    }
  }

  /** A leaf that the buffer of "name NUL x" matches goes on behind the NUL, which "name NUL" does not. */
  lemma TaggedOrBare(name: seq<u8>, leaf: seq<u8>)
    requires |name| < NAME_CAPACITY - 2 && |leaf| < NAME_CAPACITY && |name| < |leaf|
    requires BufferMatches(Padded(name + [0] + [1]), leaf)
    ensures !BufferMatches(Padded(name + [0]), leaf)
  {
    assert Padded(name + [0] + [1])[|name| + 1] == 1;
    assert Padded(name + [0])[|name| + 1] == 0;
  }

  /** One of the two stored leaves "name NUL" and "name NUL x" is missed. */
  lemma MissedExists(leaf: seq<u8>)
    requires |leaf| < NAME_CAPACITY && !NonZero(leaf) && |CText(leaf)| < NAME_CAPACITY - 2
    ensures exists l :: Missed(l, leaf)
  {
    CTextNonZero(leaf);
    CTextWhole(leaf);
    var name := CText(leaf);
    CTextStops(name, [1]);
    CTextStops(name, []);
    CTextWhole(name);
    assert name + [0] + [] == name + [0];
    hide CText, Padded;
    if BufferMatches(Padded(name + [0] + [1]), leaf) {
      TaggedOrBare(name, leaf);
      assert Missed(name + [0], leaf);
    } else {
      assert Missed(name + [0] + [1], leaf);
    }
  }

  // ---- which stored leaves keep a tree ----

  /** A legal name, with nothing but NULs behind it. */
  predicate CleanLeaf(leaf: seq<u8>) {
    NulOnlyTrails(leaf) && IsSegment(CText(leaf))
  }

  /** On clean buffers, a clean leaf is looked up as its C string. */
  lemma CleanLookup(b: seq<u8>, leaf: seq<u8>)
    requires |CText(b)| < NAME_CAPACITY && b == Padded(CText(b)) && |leaf| < NAME_CAPACITY && NulOnlyTrails(leaf)
    ensures BufferMatches(b, leaf) <==> CText(b) == CText(leaf)
  {
    CTextNonZero(b);
    CTextNonZero(leaf);
    PaddedSameIff(leaf);
    if CText(b) == CText(leaf) {
      assert b[..|leaf|] == Padded(leaf)[..|leaf|] == leaf;
    }
    if BufferMatches(b, leaf) {
      assert b == leaf + [0] + b[|leaf| + 1..];
      CTextStops(leaf, b[|leaf| + 1..]);
    }
  }

  lemma CleanChildAbsent(t: Table, p: nat, leaf: seq<u8>)
    requires Tree(t) && leaf != [] && |leaf| < NAME_CAPACITY && CleanLeaf(leaf) && ByteChild(t, p, leaf) == None
    ensures Child(t, p, CText(leaf)) == None
  {
    ByteChildAbsent(t, p + 1, leaf, 0);
    forall j | 0 <= j < |t|
      ensures !Matches(t[j], p + 1, CText(leaf))
    {
      assert SlotOk(t, j);
      if t[j].active {
        CleanLookup(t[j].name, leaf);
      }
      assert !ByteMatches(t[j], p + 1, leaf);
    }
    ChildNone(t, p, CText(leaf));
  }

  /** A live node whose name is the padded leaf can stand in a tree only if the leaf is clean. */
  lemma StoredMustBeClean(u: Table, k: nat, leaf: seq<u8>)
    requires Tree(u) && 0 < k < |u| && u[k].active && |leaf| < NAME_CAPACITY && u[k].name == Padded(leaf)
    ensures CleanLeaf(leaf)
  {
    assert SlotOk(u, k) && LinkOk(u, k);
    CTextOfPadded(leaf, NAME_CAPACITY - |leaf|);
    PaddedSameIff(leaf);
  }

  lemma AddedTreeIff(t: Table, k: nat, p: nat, leaf: Segment, kind: nat)
    requires Tree(t) && k < |t| && !t[k].active && IsDirectory(t, p + 1) && ByteChild(t, p, leaf) == None
    requires leaf != [] && |leaf| < NAME_CAPACITY && (kind == DIRECTORY || kind == FILE)
    ensures Tree(Added(t, k, p, leaf, kind)) <==> CleanLeaf(leaf)
  {
    if CleanLeaf(leaf) {
      PaddedSameIff(leaf);
      CleanChildAbsent(t, p, leaf);
      AddedTree(t, k, p, CText(leaf), kind);
    }
    if Tree(Added(t, k, p, leaf, kind)) {
      StoredMustBeClean(Added(t, k, p, leaf, kind), k, leaf);
    }
  }

  lemma RelinkedTreeIff(t: Table, m: nat, p: nat, leaf: Segment)
    requires Tree(t) && MayRelink(t, m, p, leaf) && leaf != [] && ByteChild(t, p, leaf) == None
    ensures Tree(Relinked(t, m, p, leaf)) <==> CleanLeaf(leaf)
  {
    if CleanLeaf(leaf) {
      PaddedSameIff(leaf);
      CleanChildAbsent(t, p, leaf);
      assert Relinked(t, m, p, leaf) == Relinked(t, m, p, CText(leaf));
      RelinkedTree(t, m, p, CText(leaf));
    }
    if Tree(Relinked(t, m, p, leaf)) {
      StoredMustBeClean(Relinked(t, m, p, leaf), m, leaf);
    }
  }

  /** The guards of create, all passed: the name is new, fits, and there is a free slot. */
  predicate CreateMayStore(t: Table, base: nat, path: seq<u8>, kind: nat) {
    && (kind == 1 || kind == 2) && (exists k :: 0 <= k < |t| && !t[k].active)
    && match ByteWalkParent(t, base, path)
       case None => false
       case Some(w) => ByteChild(t, w.parent, w.leaf).None? && 1 <= |w.leaf| < 32
  }

  /** The guards of move, all passed: the source is found, and the new place is free and not below it. */
  ghost predicate MoveMayStore(t: Table, sb: nat, sp: seq<u8>, db: nat, dp: seq<u8>) {
    match (ByteWalkParent(t, sb, sp), ByteWalkParent(t, db, dp))
    case (Some(s), Some(d)) =>
      && 1 <= |d.leaf| < 32
      && ByteChild(t, s.parent, s.leaf).Some? && ByteChild(t, d.parent, d.leaf).None?
      && var m := ByteChild(t, s.parent, s.leaf).value; !(t[m].kind == DIRECTORY && Ancestor(t, m, d.parent))
    case (_, _) => false
  }

  /** These guards are exactly when the operations change the table. */
  lemma CreateChangesIff(t: Table, base: nat, path: seq<u8>, kind: nat)
    requires Forest(t)
    ensures ByteCreate(t, base, path, kind).0 != t <==> CreateMayStore(t, base, path, kind)
  {
    if CreateMayStore(t, base, path, kind) {
      var w, k := ByteWalkParent(t, base, path).value, FirstFree(t, 0).value;
      assert Added(t, k, w.parent, w.leaf, kind)[k].active && !t[k].active;
    }
  }

  lemma MoveChangesIff(t: Table, sb: nat, sp: seq<u8>, db: nat, dp: seq<u8>)
    requires Forest(t)
    ensures ByteMove(t, sb, sp, db, dp).0 != t <==> MoveMayStore(t, sb, sp, db, dp)
  {
    hide ByteWalkParent, ByteChild, Ancestor, Forest;
    if MoveMayStore(t, sb, sp, db, dp) {
      var s, d := ByteWalkParent(t, sb, sp).value, ByteWalkParent(t, db, dp).value;
      RelinkShows(t, ByteChild(t, s.parent, s.leaf).value, d.parent, d.leaf);
    }
  }

  /** A node relinked to a name that was not found there has changed. */
  lemma RelinkShows(t: Table, m: nat, p: nat, leaf: Segment)
    requires m < |t| && t[m].active && leaf != [] && |leaf| < NAME_CAPACITY && ByteChild(t, p, leaf) == None
    ensures Relinked(t, m, p, leaf) != t
  {
    ByteChildAbsent(t, p + 1, leaf, 0);
    var u := Relinked(t, m, p, leaf);
    assert u[m].name[..|leaf|] == leaf;
    assert ByteMatches(u[m], p + 1, leaf);
    assert !ByteMatches(t[m], p + 1, leaf);
  }

  /** The leaf that an operation whose guards pass stores: the last run of its path. */
  ghost function StoredLeaf(t: Table, op: Op): Option<Segment> {
    match op
    case CreateOp(base, path, kind) =>
      if CreateMayStore(t, base, path, kind) then Some(ByteWalkParent(t, base, path).value.leaf) else None
    case MoveOp(sb, sp, db, dp) =>
      if MoveMayStore(t, sb, sp, db, dp) then Some(ByteWalkParent(t, db, dp).value.leaf) else None
    case RenameOp(base, sp, dp) =>
      if MoveMayStore(t, base, sp, base, dp) then Some(ByteWalkParent(t, base, dp).value.leaf) else None
    case DeleteOp(_, _) => None
    case WriteOp(_, _, _) => None
  }

  ghost predicate StoresClean(t: Table, op: Op) {
    StoredLeaf(t, op).Some? ==> CleanLeaf(StoredLeaf(t, op).value)
  }

  lemma ByteCreateTreeIff(t: Table, base: nat, path: seq<u8>, kind: nat)
    requires Tree(t)
    ensures Tree(ByteCreate(t, base, path, kind).0) <==> StoresClean(t, CreateOp(base, path, kind))
  {
    TreeIsForest(t);
    CreateChangesIff(t, base, path, kind);
    if ByteCreate(t, base, path, kind).0 != t {
      var w, k := ByteWalkParent(t, base, path).value, FirstFree(t, 0).value;
      AddedTreeIff(t, k, w.parent, w.leaf, kind);
    }
  }

  lemma ByteMoveTreeIff(t: Table, sb: nat, sp: seq<u8>, db: nat, dp: seq<u8>)
    requires Tree(t)
    ensures Tree(ByteMove(t, sb, sp, db, dp).0) <==> StoresClean(t, MoveOp(sb, sp, db, dp))
  {
    TreeIsForest(t);
    MoveChangesIff(t, sb, sp, db, dp);
    hide ByteMove, Tree, MoveMayStore;
    if ByteMove(t, sb, sp, db, dp).0 != t {
      var m, p, leaf := ByteMoveRelinks(t, sb, sp, db, dp);
      RelinkedTreeIff(t, m, p, leaf);
    }
  }

  lemma ByteDeleteKeepsTree(t: Table, base: nat, path: seq<u8>)
    requires Tree(t)
    ensures Tree(ByteDelete(t, base, path).0)
  {
    if ByteDelete(t, base, path).1 {
      var w := ByteWalkParent(t, base, path).value;
      var c := ByteChild(t, w.parent, w.leaf).value;
      assert SlotOk(t, c);
      if t[c].kind == FILE {
        FileIsChildless(t, c);
      }
      RemovedTree(t, c);
    }
  }

  /** One operation, on whatever bytes, keeps a tree exactly when the leaf it stores, if any, is clean. */
  lemma StepKeepsTreeIff(t: Table, op: Op)
    requires Tree(t)
    ensures Tree(ByteApply(t, op)) <==> StoresClean(t, op)
  {
    hide ByteCreate, ByteMove, ByteDelete;
    match op
    case CreateOp(base, path, kind) => ByteCreateTreeIff(t, base, path, kind);
    case MoveOp(sb, sp, db, dp) => ByteMoveTreeIff(t, sb, sp, db, dp);
    case RenameOp(base, sp, dp) => ByteMoveTreeIff(t, base, sp, base, dp);
    case DeleteOp(base, path) => ByteDeleteKeepsTree(t, base, path);
    case WriteOp(id, offset, data) => WriteKeepsTree(t, id, offset, data, []);
  }

  /** The table is a tree before and after every operation of the run. */
  ghost predicate AlwaysTree(t: Table, ops: seq<Op>)
    decreases ops
  {
    Tree(t) && (ops == [] || AlwaysTree(ByteApply(t, ops[0]), ops[1..]))
  }

  ghost predicate AlwaysStoresClean(t: Table, ops: seq<Op>)
    decreases ops
  {
    ops == [] || (StoresClean(t, ops[0]) && AlwaysStoresClean(ByteApply(t, ops[0]), ops[1..]))
  }

  /** A run on whatever bytes stays a tree throughout exactly when every leaf it stores is clean. */
  lemma {:induction false} RunStaysTreeIff(t: Table, ops: seq<Op>)
    requires Tree(t)
    ensures AlwaysTree(t, ops) <==> AlwaysStoresClean(t, ops)
    decreases ops
  {
    hide Tree;
    hide StoresClean;
    if ops != [] {
      StepKeepsTreeIff(t, ops[0]);
      if Tree(ByteApply(t, ops[0])) {
        RunStaysTreeIff(ByteApply(t, ops[0]), ops[1..]);
      }
    }
  }

  // ---- the failures as runs ----

  /** Two live siblings that read as one name. */
  predicate SplitName(t: Table, i: nat, j: nat) {
    && i < |t| && j < |t| && i != j && t[i].active && t[j].active
    && t[i].parent == t[j].parent && CText(t[i].name) == CText(t[j].name)
  }

  lemma SingleSegment(leaf: seq<u8>)
    requires leaf != [] && SLASH !in leaf && leaf != DOT_SEGMENT
    ensures RawSegments(leaf) == [leaf]
  {
    RunLengthIs(leaf, |leaf|);
    assert leaf[..|leaf|] == leaf && leaf[|leaf|..] == [];
  }

  lemma SingleWalk(t: Table, base: nat, leaf: seq<u8>)
    requires IsDirectory(t, base) && leaf != [] && SLASH !in leaf && leaf != DOT_SEGMENT
    ensures ByteWalkParent(t, base, leaf) == Some(Walk(base - 1, leaf))
  {
    SingleSegment(leaf);
    assert DropDots([leaf][..0]) == [];
  }

  /** A create of a one-segment path whose lookup fails adds the node below the base. */
  lemma CreateStores(t: Table, base: nat, leaf: seq<u8>, k: nat)
    requires IsDirectory(t, base) && leaf != [] && SLASH !in leaf && leaf != DOT_SEGMENT && |leaf| < NAME_CAPACITY
    requires ByteChild(t, base - 1, leaf) == None && FirstFree(t, 0) == Some(k)
    ensures ByteCreate(t, base, leaf, FILE) == (Added(t, k, base - 1, leaf, FILE), Some(k + 1))
  {
    SingleWalk(t, base, leaf);
  }

  function Tagged(name: seq<u8>): seq<u8> {
    name + [0] + [1]
  }

  lemma TaggedFacts(name: seq<u8>)
    requires IsSegment(name) && |name| < NAME_CAPACITY - 2
    ensures Tagged(name) != [] && SLASH !in Tagged(name) && Tagged(name) != DOT_SEGMENT
    ensures CText(Tagged(name)) == name && CText(Padded(Tagged(name))) == name
    ensures |Tagged(name)| == |name| + 2 && Padded(Tagged(name))[|name| + 1] == 1
  {
    CTextStops(name, [1]);
    CTextWhole(name);
    CTextOfPadded(Tagged(name), NAME_CAPACITY - |Tagged(name)|);
    assert Tagged(name)[|name|] == 0;
  }

  /** No clean buffer holds a leaf with a byte behind its NUL. */
  lemma TaggedUnknown(t: Table, p: nat, name: seq<u8>)
    requires Tree(t) && IsSegment(name) && |name| < NAME_CAPACITY - 2
    ensures ByteChild(t, p, Tagged(name)) == None
  {
    TaggedFacts(name);
    var leaf := Tagged(name);
    forall j | 0 <= j < |t|
      ensures !ByteMatches(t[j], p + 1, leaf)
    {
      assert SlotOk(t, j);
      if ByteMatches(t[j], p + 1, leaf) {
        var b := t[j].name;
        assert b == leaf + [0] + b[|leaf| + 1..];
        CTextStops(leaf, b[|leaf| + 1..]);
      }
    }
    ByteChildNone(t, p + 1, leaf, 0);
  }

  /**
   In every tree with a free slot, every node with a name of fewer than 30 bytes can be given
   a twin: creating "name NUL x" beside it succeeds, and both read as the one name.
   */
  lemma NulLeafSplitsName(t: Table, c: nat, k: nat)
    requires Tree(t) && 0 < c < |t| && t[c].active && |CText(t[c].name)| < NAME_CAPACITY - 2
    requires FirstFree(t, 0) == Some(k)
    ensures var (u, id) := ByteCreate(t, t[c].parent, Tagged(CText(t[c].name)), FILE);
            id == Some(k + 1) && SplitName(u, c, k)
  {
    var name := CText(t[c].name);
    assert LinkOk(t, c);
    TaggedFacts(name);
    TaggedUnknown(t, t[c].parent - 1, name);
    CreateStores(t, t[c].parent, Tagged(name), k);
  }

  lemma BareUnknown(t: Table, p: nat, name: seq<u8>, k: nat)
    requires Tree(t) && IsSegment(name) && |name| < NAME_CAPACITY - 2 && Child(t, p, name) == None
    requires k < |t| && !t[k].active
    ensures ByteChild(Added(t, k, p, Tagged(name), FILE), p, name + [0]) == None
  {
    var u, leaf := Added(t, k, p, Tagged(name), FILE), name + [0];
    TaggedFacts(name);
    ChildAbsent(t, p, name);
    forall j | 0 <= j < |u|
      ensures !ByteMatches(u[j], p + 1, leaf)
    {
      assert SlotOk(t, j);
      if ByteMatches(u[j], p + 1, leaf) {
        var b := u[j].name;
        assert b[|name| + 1] == 0;
        assert b == name + [0] + b[|name| + 1..];
        CTextStops(name, b[|name| + 1..]);
        CTextWhole(name);
      }
    }
    ByteChildNone(u, p + 1, leaf, 0);
  }

  lemma FirstTwin(t: Table, base: nat, name: seq<u8>, k: nat)
    requires Tree(t) && IsDirectory(t, base) && IsSegment(name) && |name| < NAME_CAPACITY - 2
    requires FirstFree(t, 0) == Some(k)
    ensures ByteCreate(t, base, Tagged(name), FILE) == (Added(t, k, base - 1, Tagged(name), FILE), Some(k + 1))
  {
    TaggedFacts(name);
    TaggedUnknown(t, base - 1, name);
    hide Tree, Tagged, ByteCreate, ByteChild;
    CreateStores(t, base, Tagged(name), k);
  }

  lemma SecondTwin(t: Table, base: nat, name: seq<u8>, k: nat, l: nat)
    requires Tree(t) && IsDirectory(t, base) && IsSegment(name) && |name| < NAME_CAPACITY - 2
    requires Child(t, base - 1, name) == None
    requires FirstFree(t, 0) == Some(k) && FirstFree(Added(t, k, base - 1, Tagged(name), FILE), 0) == Some(l)
    ensures var u := Added(t, k, base - 1, Tagged(name), FILE);
            && k < l && IsDirectory(u, base)
            && ByteCreate(u, base, name + [0], FILE) == (Added(u, l, base - 1, name + [0], FILE), Some(l + 1))
  {
    BareUnknown(t, base - 1, name, k);
    AllBefore(t, k, l);
    hide Tree, Tagged, ByteCreate, ByteChild;
    assert SLASH !in name + [0];
    CreateStores(Added(t, k, base - 1, Tagged(name), FILE), base, name + [0], l);
  }

  lemma AllBefore(t: Table, k: nat, l: nat)
    requires l < |t| && !t[l].active && FirstFree(t, 0) == Some(k) && l != k
    ensures k < l
  {
    FreeNotBefore(t, 0, l);
  }

  lemma {:induction false} FreeNotBefore(t: Table, i: nat, l: nat)
    requires i <= l < |t| && !t[l].active
    ensures FirstFree(t, i).Some? && FirstFree(t, i).value <= l
    decreases l - i
  {
    if t[i].active {
      FreeNotBefore(t, i + 1, l);
    }
  }

  lemma BareText(name: seq<u8>)
    requires IsSegment(name) && |name| < NAME_CAPACITY - 2
    ensures CText(Padded(name + [0])) == name
  {
    CTextStops(name, []);
    CTextWhole(name);
    assert name + [0] + [] == name + [0];
    CTextOfPadded(name + [0], NAME_CAPACITY - |name| - 1);
  }

  /**
   Nor does it help that only NULs trail in the second leaf: creating "name NUL x" and then
   "name NUL" where there was no such name stores two nodes that read as it.
   */
  lemma TwoCreatesSplitName(t: Table, base: nat, name: seq<u8>, k: nat, l: nat)
    requires Tree(t) && IsDirectory(t, base) && IsSegment(name) && |name| < NAME_CAPACITY - 2
    requires Child(t, base - 1, name) == None
    requires FirstFree(t, 0) == Some(k) && FirstFree(Added(t, k, base - 1, Tagged(name), FILE), 0) == Some(l)
    ensures var (u, first) := ByteCreate(t, base, Tagged(name), FILE);
            var (v, second) := ByteCreate(u, base, name + [0], FILE);
            first == Some(k + 1) && second == Some(l + 1) && SplitName(v, k, l)
  {
    FirstTwin(t, base, name, k);
    SecondTwin(t, base, name, k, l);
    TaggedFacts(name);
    BareText(name);
    hide Tree, Tagged, ByteCreate, CText, Padded, Child, FirstFree;
  }

  lemma BareMatches(name: seq<u8>)
    requires IsSegment(name) && |name| < NAME_CAPACITY - 2
    ensures BufferMatches(Padded(Tagged(name)), name) && BufferMatches(Padded(name + [0]), name)
  {
    assert Padded(Tagged(name))[..|name|] == name && Padded(name + [0])[..|name|] == name;
  }

  lemma NoBareMatch(t: Table, p: nat, name: seq<u8>, j: nat)
    requires Tree(t) && IsSegment(name) && Child(t, p, name) == None && j < |t|
    ensures !ByteMatches(t[j], p + 1, name)
  {
    ChildAgrees(t, p, name);
    ByteChildAbsent(t, p + 1, name, 0);
  }

  /** The table after both creates. */
  function Twins(t: Table, base: nat, name: seq<u8>): Table {
    ByteCreate(ByteCreate(t, base, Tagged(name), FILE).0, base, name + [0], FILE).0
  }

  lemma AddedKeeps(t: Table, k: nat, p: nat, leaf: Segment, base: nat)
    requires Forest(t) && k < |t| && !t[k].active && |leaf| < NAME_CAPACITY
    requires IsDirectory(t, p + 1) && IsDirectory(t, base)
    ensures var u := Added(t, k, p, leaf, FILE); Forest(u) && u[k].kind == FILE && IsDirectory(u, base) && |u| == |t|
    ensures forall j :: 0 <= j < |t| && j != k ==> Added(t, k, p, leaf, FILE)[j] == t[j]
  {
    AddedForest(t, k, p, leaf, FILE);
  }

  lemma TwinsAre(t: Table, base: nat, name: seq<u8>, k: nat, l: nat)
    requires Tree(t) && IsDirectory(t, base) && IsSegment(name) && |name| < NAME_CAPACITY - 2
    requires Child(t, base - 1, name) == None
    requires FirstFree(t, 0) == Some(k) && FirstFree(Added(t, k, base - 1, Tagged(name), FILE), 0) == Some(l)
    ensures k < l && var u := Added(t, k, base - 1, Tagged(name), FILE);
            Twins(t, base, name) == Added(u, l, base - 1, name + [0], FILE)
    ensures Forest(Twins(t, base, name)) && IsDirectory(Twins(t, base, name), base)
    ensures Twins(t, base, name)[k].kind == FILE
  {
    TaggedFacts(name);
    TreeIsForest(t);
    FirstTwin(t, base, name, k);
    SecondTwin(t, base, name, k, l);
    hide Tree, Forest, Tagged, ByteCreate, Child, Added;
    AddedKeeps(t, k, base - 1, Tagged(name), base);
    var u := Added(t, k, base - 1, Tagged(name), FILE);
    AddedKeeps(u, l, base - 1, name + [0], base);
  }

  /** The bare name finds the first twin, and after it the second. */
  lemma TwinsMatch(t: Table, p: nat, name: seq<u8>, k: nat, l: nat)
    requires Tree(t) && IsSegment(name) && |name| < NAME_CAPACITY - 2 && Child(t, p, name) == None && k < l < |t|
    ensures var v := Added(Added(t, k, p, Tagged(name), FILE), l, p, name + [0], FILE);
            ByteChild(v, p, name) == Some(k) && FirstByteMatch(v, p + 1, name, k + 1) == Some(l)
  {
    var v := Added(Added(t, k, p, Tagged(name), FILE), l, p, name + [0], FILE);
    BareMatches(name);
    forall j | 0 <= j < |t|
      ensures j != k && j != l ==> !ByteMatches(v[j], p + 1, name)
    {
      NoBareMatch(t, p, name, j);
    }
    hide Tree, Tagged;
    FirstIs(v, p + 1, name, 0, k);
    FirstIs(v, p + 1, name, k + 1, l);
  }

  lemma FileDeletes(v: Table, base: nat, path: seq<u8>, w: Walk, k: nat)
    requires Forest(v) && ByteWalkParent(v, base, path) == Some(w)
    requires ByteChild(v, w.parent, w.leaf) == Some(k) && v[k].kind == FILE
    ensures ByteDelete(v, base, path).1
  {
    hide ByteWalkParent, ByteChild;
    assert LinkSound(v, k);
  }

  /** Deleting a file by a name that also matches a later sibling leaves the name open, to that sibling. */
  lemma DeleteFindsNext(v: Table, base: nat, name: seq<u8>, k: nat, l: nat)
    requires Forest(v) && IsDirectory(v, base) && name != [] && SLASH !in name && name != DOT_SEGMENT
    requires ByteChild(v, base - 1, name) == Some(k) && v[k].kind == FILE
    requires FirstByteMatch(v, base, name, k + 1) == Some(l)
    ensures ByteOpen(v, base, name) == Some(k + 1) && ByteDelete(v, base, name).1
    ensures ByteOpen(ByteDelete(v, base, name).0, base, name) == Some(l + 1)
  {
    SingleWalk(v, base, name);
    ByteWalkAgrees(v, base, name);
    FileDeletes(v, base, name, Walk(base - 1, name), k);
    hide Forest, ByteOpen, ByteWalkParent, ByteDelete, ByteChild, FirstByteMatch;
    ByteDeleteUncovers(v, base, name);
  }

  /** So after those two creates, deleting the name once does not close it. */
  lemma DeleteLeavesTwin(t: Table, base: nat, name: seq<u8>, k: nat, l: nat)
    requires Tree(t) && IsDirectory(t, base) && IsSegment(name) && |name| < NAME_CAPACITY - 2
    requires Child(t, base - 1, name) == None
    requires FirstFree(t, 0) == Some(k) && FirstFree(Added(t, k, base - 1, Tagged(name), FILE), 0) == Some(l)
    ensures var v := Twins(t, base, name);
            && ByteOpen(v, base, name) == Some(k + 1) && ByteDelete(v, base, name).1
            && ByteOpen(ByteDelete(v, base, name).0, base, name) == Some(l + 1)
  {
    TwinsAre(t, base, name, k, l);
    TwinsMatch(t, base - 1, name, k, l);
    hide Tree, Forest, Twins, Added, Child, Tagged, ByteOpen, ByteDelete, ByteChild, FirstByteMatch, FirstFree;
    DeleteFindsNext(Twins(t, base, name), base, name, k, l);
  }

  predicate OneName(leaf: seq<u8>) {
    leaf != [] && SLASH !in leaf && leaf != DOT_SEGMENT
  }

  /** A rename within a directory relinks. */
  lemma RenameRelinks(t: Table, base: nat, name: seq<u8>, tag: seq<u8>, c: nat)
    requires IsDirectory(t, base) && MayRelink(t, c, base - 1, tag) && OneName(name) && OneName(tag)
    requires ByteChild(t, base - 1, name) == Some(c) && ByteChild(t, base - 1, tag) == None
    ensures ByteMove(t, base, name, base, tag) == (Relinked(t, c, base - 1, tag), true)
  {
    hide Forest, ByteChild, ByteWalkParent, Ancestor, Relinked;
    SingleWalk(t, base, name);
    SingleWalk(t, base, tag);
  }

  lemma NameOpens(t: Table, base: nat, name: seq<u8>, c: nat)
    requires IsDirectory(t, base) && OneName(name) && ByteChild(t, base - 1, name) == Some(c)
    ensures ByteOpen(t, base, name) == Some(c + 1)
  {
    SingleWalk(t, base, name);
    ByteWalkAgrees(t, base, name);
  }

  /** If the new buffer matches the old name too, the old name still opens the node. */
  lemma RenameKeepsName(t: Table, base: nat, name: seq<u8>, tag: seq<u8>, c: nat)
    requires IsDirectory(t, base) && MayRelink(t, c, base - 1, tag) && OneName(name) && OneName(tag)
    requires ByteChild(t, base - 1, name) == Some(c) && ByteChild(t, base - 1, tag) == None
    requires BufferMatches(Padded(tag), name)
    ensures var (u, moved) := ByteMove(t, base, name, base, tag);
            moved && u != t && ByteOpen(u, base, name) == Some(c + 1)
  {
    hide ByteMove, ByteOpen, ByteChild, Forest, Ancestor, Padded, BufferMatches;
    var u, p: nat := Relinked(t, c, base - 1, tag), base - 1;
    RenameRelinks(t, base, name, tag, c);
    RelinkShows(t, c, p, tag);
    LookupCaptured(t, c, p, tag, name);
    assert IsDirectory(u, base);
    hide Relinked;
    NameOpens(u, base, name, c);
  }

  lemma TaggedIsFree(t: Table, c: nat)
    requires Tree(t) && 0 < c < |t| && t[c].active && |CText(t[c].name)| < NAME_CAPACITY - 2
    ensures var base, name := t[c].parent, CText(t[c].name);
            && IsDirectory(t, base) && IsSegment(name)
            && MayRelink(t, c, base - 1, Tagged(name)) && ByteChild(t, base - 1, name) == Some(c)
            && ByteChild(t, base - 1, Tagged(name)) == None
  {
    assert LinkOk(t, c);
    var p: nat, name := t[c].parent - 1, CText(t[c].name);
    TreeIsForest(t);
    NotAboveParent(t, c, p);
    TaggedUnknown(t, p, name);
    ChildIs(t, p, name, c);
    ChildAgrees(t, p, name);
  }

  /**
   Nor does a rename close the old name: in every tree, every node with a name of fewer than 30
   bytes can be renamed to "name NUL x", and the old name still opens it.
   */
  lemma RenameStaysOpen(t: Table, c: nat)
    requires Tree(t) && 0 < c < |t| && t[c].active && |CText(t[c].name)| < NAME_CAPACITY - 2
    ensures var base, name := t[c].parent, CText(t[c].name);
            var (u, moved) := ByteMove(t, base, name, base, Tagged(name));
            moved && u != t && ByteOpen(u, base, name) == Some(c + 1)
  {
    var name := CText(t[c].name);
    TaggedIsFree(t, c);
    hide Tree, Forest, ByteMove, ByteOpen, ByteChild;
    TaggedFacts(name);
    BareMatches(name);
    hide Tagged, CText, Padded;
    RenameKeepsName(t, t[c].parent, name, Tagged(name), c);
  }

  lemma BootIsFree(texts: seq<seq<u8>>)
    requires |texts| == SEED_COUNT
    ensures SeedsOk(BootSeeds(texts))
    ensures var t := Seeded(BootSeeds(texts), SEED_COUNT);
            && Tree(t) && IsDirectory(t, ROOT) && Child(t, 0, [97]) == None && FirstFree(t, 0) == Some(SEED_COUNT)
            && FirstFree(Added(t, SEED_COUNT, 0, Tagged([97]), FILE), 0) == Some(SEED_COUNT + 1)
  {
    BootSeedsOk(texts);
    var seeds := BootSeeds(texts);
    var t := Seeded(seeds, SEED_COUNT);
    SeededTree(seeds);
    forall j | 0 <= j < |t|
      ensures (t[j].active <==> j < SEED_COUNT) && !Matches(t[j], ROOT, [97])
    {
      if j < SEED_COUNT {
        SeedName(seeds, j);
        assert t[j] == SeedNode(seeds[j]) && seeds[j] == BootSeed(j, texts);
      } else {
        assert t[j] == ZeroNode();
      }
    }
    ChildNone(t, 0, [97]);
    FreeAt(t, SEED_COUNT);
    FreeAt(Added(t, SEED_COUNT, 0, Tagged([97]), FILE), SEED_COUNT + 1);
  }

  /** So on the kernel's own table: "a NUL x" and "a NUL" below the root, and "a" deleted once. */
  lemma BootNameSplits(texts: seq<seq<u8>>)
    requires |texts| == SEED_COUNT
    ensures SeedsOk(BootSeeds(texts))
    ensures var t := Seeded(BootSeeds(texts), SEED_COUNT);
            var v := ByteCreate(ByteCreate(t, ROOT, [97, 0, 1], FILE).0, ROOT, [97, 0], FILE).0;
            && SplitName(v, SEED_COUNT, SEED_COUNT + 1)
            && ByteDelete(v, ROOT, [97]).1
            && ByteOpen(ByteDelete(v, ROOT, [97]).0, ROOT, [97]) == Some(SEED_COUNT + 2)
  {
    var name: seq<u8> := [97];
    BootIsFree(texts);
    var t := Seeded(BootSeeds(texts), SEED_COUNT);
    assert Tagged(name) == [97, 0, 1] && name + [0] == [97, 0];
    hide Tagged;
    TwoCreatesSplitName(t, ROOT, name, SEED_COUNT, SEED_COUNT + 1);
    DeleteLeavesTwin(t, ROOT, name, SEED_COUNT, SEED_COUNT + 1);
  }
}
