/**
 The file system on arbitrary bytes. Names are compared byte by byte against their padded
 buffers, so a path may hold NULs. The operations below are what the code does on every such
 path; on NUL-free paths they are the operations of `RamfsTable`, and on all paths they keep
 a forest: ids, kinds and buffers stay sound and every parent chain reaches the root.
 */
module RamfsBytes {
  import opened Prelude
  import opened CStrings
  import opened RamfsPath
  import opened RamfsTable
  import opened RamfsRuns

  // ---- lookups ----

  /** The byte comparison of the source: the segment, then a NUL. */
  predicate BufferMatches(text: seq<u8>, segment: seq<u8>) {
    |segment| < |text| && text[..|segment|] == segment && text[|segment|] == 0
  }

  /** The comparison finds no difference within the buffer and reads on behind it. */
  predicate Overruns(text: seq<u8>, segment: seq<u8>) {
    |text| <= |segment| && segment[..|text|] == text
  }

  predicate ByteMatches(n: Node, parent: nat, seg: Segment) {
    n.active && n.parent == parent && BufferMatches(n.name, seg)
  }

  function FirstByteMatch(t: Table, parent: nat, seg: Segment, k: nat): (r: Option<nat>)
    requires k <= |t|
    ensures r.Some? ==> k <= r.value < |t| && ByteMatches(t[r.value], parent, seg)
    decreases |t| - k
  {
    if k == |t| then None
    else if ByteMatches(t[k], parent, seg) then Some(k)
    else FirstByteMatch(t, parent, seg, k + 1)
  }

  function ByteChild(t: Table, slot: nat, seg: Segment): (r: Option<nat>)
    ensures r.Some? ==> seg != [] && r.value < |t| && ByteMatches(t[r.value], slot + 1, seg)
  {
    if seg == [] then None else FirstByteMatch(t, slot + 1, seg, 0)
  }

  lemma {:induction false} ByteChildAbsent(t: Table, parent: nat, seg: Segment, k: nat)
    requires k <= |t|
    ensures FirstByteMatch(t, parent, seg, k).None? ==> forall j :: k <= j < |t| ==> !ByteMatches(t[j], parent, seg)
    decreases |t| - k
  {
    if k < |t| {
      ByteChildAbsent(t, parent, seg, k + 1);
    }
  }

  lemma {:induction false} ByteChildNone(t: Table, parent: nat, seg: Segment, k: nat)
    requires k <= |t| && forall j :: 0 <= j < |t| ==> !ByteMatches(t[j], parent, seg)
    ensures FirstByteMatch(t, parent, seg, k) == None
    decreases |t| - k
  {
    if k < |t| {
      ByteChildNone(t, parent, seg, k + 1);
    }
  }

  function ByteResolve(t: Table, slot: nat, segs: seq<Segment>): (r: Option<nat>)
    requires slot < |t|
    ensures r.Some? ==> r.value < |t| && (t[slot].active ==> t[r.value].active)
    decreases segs
  {
    if segs == [] then Some(slot)
    else
      match ByteChild(t, slot, segs[0])
      case None => None
      case Some(c) => ByteResolve(t, c, segs[1..])
  }

  /** The scan for a child compares with some buffer past its end. */
  predicate LookupOverruns(t: Table, slot: nat, seg: Segment) {
    exists j :: 0 <= j < |t| && t[j].active && t[j].parent == slot + 1 && Overruns(t[j].name, seg)
  }

  predicate WalkOverruns(t: Table, slot: nat, segs: seq<Segment>)
    decreases segs
  {
    && segs != []
    && (LookupOverruns(t, slot, segs[0])
        || match ByteChild(t, slot, segs[0])
           case None => false
           case Some(c) => WalkOverruns(t, c, segs[1..]))
  }

  /** Every lookup along the path stays within the name buffers. */
  predicate Readable(t: Table, base: nat, path: seq<u8>) {
    BaseOk(t, base, path) ==> !WalkOverruns(t, base - 1, Segments(path))
  }

  /** The segments that a parent walk looks up: all but a last one that is its leaf. */
  function WalkLookups(raw: seq<Segment>): seq<Segment> {
    if raw == [] || raw[|raw| - 1] == DOT_SEGMENT then DropDots(raw) else DropDots(raw[..|raw| - 1])
  }

  /** Every lookup of the parent walk stays within the name buffers. */
  predicate WalkReadable(t: Table, base: nat, path: seq<u8>) {
    BaseOk(t, base, path) ==> !WalkOverruns(t, base - 1, WalkLookups(RawSegments(path)))
  }

  lemma {:induction false} WalkOverrunsSnoc(t: Table, i: nat, init: seq<Segment>, last: Segment)
    requires i < |t|
    ensures WalkOverruns(t, i, init + [last]) <==>
            || WalkOverruns(t, i, init)
            || (ByteResolve(t, i, init).Some? && LookupOverruns(t, ByteResolve(t, i, init).value, last))
    decreases init
  {
    if init == [] {
      assert init + [last] == [last] && [last][1..] == [];
    } else {
      assert (init + [last])[1..] == init[1..] + [last];
      if ByteChild(t, i, init[0]).Some? {
        WalkOverrunsSnoc(t, ByteChild(t, i, init[0]).value, init[1..], last);
      }
    }
  }

  // ---- operations ----

  function ByteOpen(t: Table, base: nat, path: seq<u8>): Option<nat> {
    if !BaseOk(t, base, path) then None
    else
      match ByteResolve(t, base - 1, Segments(path))
      case None => None
      case Some(s) => Some(s + 1)
  }

  /** What remains of a parent walk that stands at `slot` with `raw` still to read. */
  function WalkRest(t: Table, slot: nat, raw: seq<Segment>): (r: Option<Walk>)
    requires slot < |t|
    ensures r.Some? ==> r.value.parent < |t| && raw != [] && r.value.leaf == raw[|raw| - 1]
    ensures r.Some? && t[slot].active ==> IsDirectory(t, r.value.parent + 1)
  {
    if raw == [] || raw[|raw| - 1] == DOT_SEGMENT then None
    else
      match ByteResolve(t, slot, DropDots(raw[..|raw| - 1]))
      case None => None
      case Some(p) => if t[p].kind == DIRECTORY then Some(Walk(p, raw[|raw| - 1])) else None
  }

  function ByteWalkParent(t: Table, base: nat, path: seq<u8>): (r: Option<Walk>)
    ensures r.Some? ==> IsDirectory(t, r.value.parent + 1)
    ensures r.Some? ==> RawSegments(path) != [] && r.value.leaf == RawSegments(path)[|RawSegments(path)| - 1]
  {
    if !BaseOk(t, base, path) then None else WalkRest(t, base - 1, RawSegments(path))
  }

  /** A readable path is one whose walk and whose leaf's lookup are. */
  lemma ReadableIsWalkAndLeaf(t: Table, base: nat, path: seq<u8>)
    requires Readable(t, base, path)
    ensures WalkReadable(t, base, path)
    ensures match ByteWalkParent(t, base, path)
            case None => true
            case Some(w) => !LookupOverruns(t, w.parent, w.leaf)
  {
    var raw := RawSegments(path);
    if BaseOk(t, base, path) && raw != [] && raw[|raw| - 1] != DOT_SEGMENT {
      SegmentsSplit(path);
      WalkOverrunsSnoc(t, base - 1, DropDots(raw[..|raw| - 1]), raw[|raw| - 1]);
    }
  }

  /** What a move looks up: both walks, and the source's leaf once the new name is known to fit. */
  predicate MoveReadable(t: Table, sb: nat, sp: seq<u8>, db: nat, dp: seq<u8>) {
    && WalkReadable(t, sb, sp)
    && match ByteWalkParent(t, sb, sp)
       case None => true
       case Some(s) =>
         && WalkReadable(t, db, dp)
         && match ByteWalkParent(t, db, dp)
            case None => true
            case Some(d) => 0 < |d.leaf| < NAME_CAPACITY ==> !LookupOverruns(t, s.parent, s.leaf)
  }

  lemma ReadablePathsMove(t: Table, sb: nat, sp: seq<u8>, db: nat, dp: seq<u8>)
    requires Readable(t, sb, sp) && Readable(t, db, dp)
    ensures MoveReadable(t, sb, sp, db, dp)
  {
    ReadableIsWalkAndLeaf(t, sb, sp);
    ReadableIsWalkAndLeaf(t, db, dp);
  }

  function ByteCreate(t: Table, base: nat, path: seq<u8>, kind: nat): (Table, Option<nat>) {
    if kind != DIRECTORY && kind != FILE then (t, None)
    else
      match ByteWalkParent(t, base, path)
      case None => (t, None)
      case Some(w) =>
        match ByteChild(t, w.parent, w.leaf)
        case Some(c) => (t, if t[c].kind == kind then Some(c + 1) else None)
        case None =>
          if w.leaf == [] || |w.leaf| >= NAME_CAPACITY then (t, None)
          else
            match FirstFree(t, 0)
            case None => (t, None)
            case Some(k) => (Added(t, k, w.parent, w.leaf, kind), Some(k + 1))
  }

  ghost function ByteMove(t: Table, sb: nat, sp: seq<u8>, db: nat, dp: seq<u8>): (Table, bool) {
    match ByteWalkParent(t, sb, sp)
    case None => (t, false)
    case Some(s) =>
      match ByteWalkParent(t, db, dp)
      case None => (t, false)
      case Some(d) =>
        if d.leaf == [] || |d.leaf| >= NAME_CAPACITY then (t, false)
        else
          match ByteChild(t, s.parent, s.leaf)
          case None => (t, false)
          case Some(m) =>
            match ByteChild(t, d.parent, d.leaf)
            case Some(x) => (t, x == m)
            case None =>
              if t[m].kind == DIRECTORY && Ancestor(t, m, d.parent) then (t, false)
              else (Relinked(t, m, d.parent, d.leaf), true)
  }

  function ByteDelete(t: Table, base: nat, path: seq<u8>): (Table, bool) {
    match ByteWalkParent(t, base, path)
    case None => (t, false)
    case Some(w) =>
      match ByteChild(t, w.parent, w.leaf)
      case None => (t, false)
      case Some(c) =>
        if c == 0 || (t[c].kind == DIRECTORY && HasChild(t, c)) then (t, false)
        else (Removed(t, c), true)
  }

  // ---- on NUL-free paths of a tree ----

  /** For NUL-free segments the comparison is equality of names. */
  lemma BufferMatchesIsEquality(b: seq<u8>, segment: seq<u8>)
    requires |b| == NAME_CAPACITY && |CText(b)| < NAME_CAPACITY && NonZero(segment)
    ensures BufferMatches(b, segment) <==> CText(b) == segment
  {
    CTextNonZero(b);
    if BufferMatches(b, segment) {
      CTextStops(segment, b[|segment| + 1..]);
      CTextWhole(segment);
      assert b == segment + [0] + b[|segment| + 1..];
    }
  }

  lemma {:induction false} FirstMatchAgrees(t: Table, parent: nat, seg: Segment, k: nat)
    requires Tree(t) && NonZero(seg) && k <= |t|
    ensures FirstByteMatch(t, parent, seg, k) == FirstMatch(t, parent, seg, k)
    decreases |t| - k
  {
    if k < |t| {
      assert SlotOk(t, k);
      if t[k].active {
        BufferMatchesIsEquality(t[k].name, seg);
      }
      FirstMatchAgrees(t, parent, seg, k + 1);
    }
  }

  lemma ChildAgrees(t: Table, slot: nat, seg: Segment)
    requires Tree(t) && NonZero(seg)
    ensures ByteChild(t, slot, seg) == Child(t, slot, seg)
  {
    FirstMatchAgrees(t, slot + 1, seg, 0);
  }

  lemma {:induction false} ResolveAgrees(t: Table, i: nat, segs: seq<Segment>)
    requires Tree(t) && i < |t| && forall s :: s in segs ==> NonZero(s)
    ensures ByteResolve(t, i, segs) == Resolve(t, i, segs)
    decreases segs
  {
    if segs != [] {
      ChildAgrees(t, i, segs[0]);
      if Child(t, i, segs[0]).Some? {
        ResolveAgrees(t, Child(t, i, segs[0]).value, segs[1..]);
      }
    }
  }

  lemma {:induction false} DropDotsFrom(s: seq<Segment>, x: Segment)
    requires x in DropDots(s)
    ensures x in s
  {
    if s[0] != DOT_SEGMENT && x == s[0] {
    } else {
      DropDotsFrom(s[1..], x);
    }
  }

  lemma PlainSegments(path: seq<u8>)
    requires NonZero(path)
    ensures forall s :: s in RawSegments(path) ==> NonZero(s)
    ensures forall s :: s in Segments(path) ==> NonZero(s)
  {
    RawSegmentsLegal(path);
    forall s | s in Segments(path)
      ensures NonZero(s)
    {
      DropDotsFrom(RawSegments(path), s);
    }
  }

  /** Opening and walking by bytes is opening and walking by name. */
  lemma PathsAgree(t: Table, base: nat, path: seq<u8>)
    requires Tree(t) && NonZero(path)
    ensures ByteOpen(t, base, path) == Open(t, base, path)
    ensures ByteWalkParent(t, base, path) == WalkParent(t, base, path)
    ensures WalkParent(t, base, path).Some? ==> NonZero(WalkParent(t, base, path).value.leaf)
  {
    if BaseOk(t, base, path) {
      PlainSegments(path);
      ResolveAgrees(t, base - 1, Segments(path));
      var raw := RawSegments(path);
      if raw != [] {
        var init := raw[..|raw| - 1];
        forall s | s in DropDots(init)
          ensures NonZero(s)
        {
          DropDotsFrom(init, s);
        }
        ResolveAgrees(t, base - 1, DropDots(init));
      }
    }
  }

  /** So are all the operations. */
  lemma OperationsAgree(t: Table, base: nat, path: seq<u8>, kind: nat, db: nat, dp: seq<u8>)
    requires Tree(t) && NonZero(path) && NonZero(dp)
    ensures ByteCreate(t, base, path, kind) == Create(t, base, path, kind)
    ensures ByteDelete(t, base, path) == Delete(t, base, path)
    ensures ByteMove(t, base, path, db, dp) == Move(t, base, path, db, dp)
  {
    PathsAgree(t, base, path);
    PathsAgree(t, db, dp);
    hide ByteWalkParent;
    hide WalkParent;
    var s, d := WalkParent(t, base, path), WalkParent(t, db, dp);
    if s.Some? {
      ChildAgrees(t, s.value.parent, s.value.leaf);
    }
    if d.Some? {
      ChildAgrees(t, d.value.parent, d.value.leaf);
    }
    hide ByteChild;
    hide Child;
  }
}
