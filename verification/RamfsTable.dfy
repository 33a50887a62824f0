/**
 The RAM file system as a value: the fixed node table, the tree it encodes, and what
 each operation does to it. The class `Ramfs.Ramfs` is proved against these functions.

 A node in slot `i` carries the id `i + 1`; the functions below speak of slots, the
 public operations of ids. Names are kept as the NUL-padded buffers of the source.
 */
module RamfsTable {
  import opened Prelude
  import opened CStrings
  import opened RamfsPath

  const NODE_LIMIT: nat := 64
  const NAME_CAPACITY: nat := 32
  const FILE_CAPACITY: nat := 256
  const ROOT: nat := 1

  const NONE: nat := 0
  const DIRECTORY: nat := 1
  const FILE: nat := 2

  datatype Node = Node(
    id: nat,
    parent: nat,
    kind: nat,
    active: bool,
    name: seq<u8>,
    contents: seq<u8>,
    length: nat)

  type Table = seq<Node>

  /** A zeroed slot, as `bytes_zero` leaves it. */
  function ZeroNode(): Node {
    Node(0, 0, NONE, false, Zeros(NAME_CAPACITY), Zeros(FILE_CAPACITY), 0)
  }

  function Padded(s: seq<u8>): seq<u8>
    requires |s| <= NAME_CAPACITY
  {
    s + Zeros(NAME_CAPACITY - |s|)
  }

  function NewNode(slot: nat, parent: nat, name: Segment, kind: nat): Node
    requires |name| < NAME_CAPACITY
  {
    Node(slot + 1, parent, kind, true, Padded(name), Zeros(FILE_CAPACITY), 0)
  }

  // ---- lookups ----

  predicate Matches(n: Node, parent: nat, seg: Segment) {
    n.active && n.parent == parent && CText(n.name) == seg
  }

  /** First slot from `k` on that holds a child of `parent` called `seg`. */
  function FirstMatch(t: Table, parent: nat, seg: Segment, k: nat): (r: Option<nat>)
    requires k <= |t|
    ensures r.Some? ==> k <= r.value < |t|
    decreases |t| - k
  {
    if k == |t| then None
    else if Matches(t[k], parent, seg) then Some(k)
    else FirstMatch(t, parent, seg, k + 1)
  }

  function Child(t: Table, slot: nat, seg: Segment): Option<nat> {
    if seg == [] then None else FirstMatch(t, slot + 1, seg, 0)
  }

  lemma {:induction false} FirstMatchIs(t: Table, parent: nat, seg: Segment, k: nat)
    requires k <= |t|
    ensures match FirstMatch(t, parent, seg, k)
            case Some(c) => Matches(t[c], parent, seg) && forall j :: k <= j < c ==> !Matches(t[j], parent, seg)
            case None => forall j :: k <= j < |t| ==> !Matches(t[j], parent, seg)
    decreases |t| - k
  {
    if k < |t| {
      FirstMatchIs(t, parent, seg, k + 1);
    }
  }

  lemma ChildFound(t: Table, slot: nat, seg: Segment)
    requires Child(t, slot, seg).Some?
    ensures seg != [] && Child(t, slot, seg).value < |t| && Matches(t[Child(t, slot, seg).value], slot + 1, seg)
  {
    FirstMatchIs(t, slot + 1, seg, 0);
  }

  lemma ChildAbsent(t: Table, slot: nat, seg: Segment)
    requires seg != [] && Child(t, slot, seg).None?
    ensures forall j :: 0 <= j < |t| ==> !Matches(t[j], slot + 1, seg)
  {
    FirstMatchIs(t, slot + 1, seg, 0);
  }

  lemma ChildNone(t: Table, slot: nat, seg: Segment)
    requires forall j :: 0 <= j < |t| ==> !Matches(t[j], slot + 1, seg)
    ensures Child(t, slot, seg) == None
  {
    FirstMatchIs(t, slot + 1, seg, 0);
  }

  predicate IsActive(t: Table, id: nat) {
    1 <= id <= |t| && t[id - 1].active
  }

  predicate IsDirectory(t: Table, id: nat) {
    IsActive(t, id) && t[id - 1].kind == DIRECTORY
  }

  predicate IsFile(t: Table, id: nat) {
    IsActive(t, id) && t[id - 1].kind == FILE
  }

  function FirstFree(t: Table, k: nat): (r: Option<nat>)
    requires k <= |t|
    ensures r.Some? ==> k <= r.value < |t| && !t[r.value].active
    ensures r.Some? ==> forall j :: k <= j < r.value ==> t[j].active
    ensures r.None? ==> forall j :: k <= j < |t| ==> t[j].active
    decreases |t| - k
  {
    if k == |t| then None else if !t[k].active then Some(k) else FirstFree(t, k + 1)
  }

  /** The first live slot with this id. */
  function FirstId(t: Table, id: nat, k: nat): (r: Option<nat>)
    requires k <= |t|
    ensures r.Some? ==> k <= r.value < |t| && t[r.value].active && t[r.value].id == id
    decreases |t| - k
  {
    if k == |t| then None
    else if t[k].active && t[k].id == id then Some(k)
    else FirstId(t, id, k + 1)
  }

  predicate HasChild(t: Table, slot: nat) {
    exists j :: 0 <= j < |t| && t[j].active && t[j].parent == slot + 1
  }

  function ChildCount(t: Table, slot: nat, k: nat): nat
    requires k <= |t|
    decreases |t| - k
  {
    if k == |t| then 0
    else (if t[k].active && t[k].parent == slot + 1 then 1 else 0) + ChildCount(t, slot, k + 1)
  }

  /** Folds child lookup over a segment list: the one meaning of a path. */
  function Resolve(t: Table, slot: nat, segs: seq<Segment>): (r: Option<nat>)
    requires slot < |t|
    ensures r.Some? ==> r.value < |t|
    decreases segs
  {
    if segs == [] then Some(slot)
    else
      match Child(t, slot, segs[0])
      case None => None
      case Some(c) => Resolve(t, c, segs[1..])
  }

  // ---- the invariant ----

  predicate FileOk(n: Node) {
    |n.contents| == FILE_CAPACITY && n.length <= FILE_CAPACITY
  }

  predicate Shaped(n: Node) {
    && |n.name| == NAME_CAPACITY
    && |CText(n.name)| < NAME_CAPACITY
    && n.name == Padded(CText(n.name))
    && FileOk(n)
  }

  predicate SlotOk(t: Table, i: nat)
    requires i < |t|
  {
    if t[i].active
    then t[i].id == i + 1 && (t[i].kind == DIRECTORY || t[i].kind == FILE) && Shaped(t[i])
    else t[i] == ZeroNode()
  }

  predicate LinkOk(t: Table, i: nat)
    requires i < |t|
  {
    t[i].active && i != 0 ==> IsDirectory(t, t[i].parent) && IsSegment(CText(t[i].name))
  }

  /** The parent chain from slot `i` arrives at the root within `n` links. */
  ghost predicate Reaches(t: Table, i: nat, n: nat)
    decreases n
  {
    && i < |t| && t[i].active
    && (i == 0 || (n > 0 && t[i].parent >= 1 && Reaches(t, t[i].parent - 1, n - 1)))
  }

  ghost predicate Rooted(t: Table, i: nat) {
    exists n: nat :: Reaches(t, i, n)
  }

  ghost predicate ChainOk(t: Table, i: nat)
    requires i < |t|
  {
    t[i].active ==> Rooted(t, i)
  }

  predicate Differ(t: Table, i: nat, j: nat)
    requires i < |t| && j < |t|
  {
    t[i].active && t[j].active && t[i].parent == t[j].parent ==> CText(t[i].name) != CText(t[j].name)
  }

  predicate SiblingsDiffer(t: Table) {
    forall i, j :: 0 <= i < j < |t| ==> Differ(t, i, j)
  }

  /** A well-formed tree: one root, directories above every node, no cycles, unique names. */
  ghost predicate Tree(t: Table) {
    && |t| == NODE_LIMIT
    && t[0].active && t[0].kind == DIRECTORY && t[0].parent == 0
    && (forall i :: 0 <= i < |t| ==> SlotOk(t, i))
    && (forall i :: 0 <= i < |t| ==> LinkOk(t, i))
    && (forall i :: 0 <= i < |t| ==> ChainOk(t, i))
    && SiblingsDiffer(t)
  }

  /** Slot `a` lies on the parent chain of slot `i` (or is `i`), within `n` links. */
  ghost predicate AncestorWithin(t: Table, a: nat, i: nat, n: nat)
    decreases n
  {
    || i == a
    || (n > 0 && i < |t| && i != 0 && t[i].parent >= 1 && AncestorWithin(t, a, t[i].parent - 1, n - 1))
  }

  ghost predicate Ancestor(t: Table, a: nat, i: nat) {
    exists n: nat :: AncestorWithin(t, a, i, n)
  }

  // ---- the operations ----

  datatype Walk = Walk(parent: nat, leaf: Segment)

  /** A leading slash is accepted only from the root. */
  predicate BaseOk(t: Table, base: nat, path: seq<u8>) {
    IsDirectory(t, base) && (path != [] && path[0] == SLASH ==> base == ROOT)
  }

  function Open(t: Table, base: nat, path: seq<u8>): Option<nat> {
    if !BaseOk(t, base, path) then None
    else
      match Resolve(t, base - 1, Segments(path))
      case None => None
      case Some(s) => Some(s + 1)
  }

  /** All but the last run resolve to a directory, and the last run is a name. */
  function WalkParent(t: Table, base: nat, path: seq<u8>): (r: Option<Walk>)
    ensures r.Some? ==> r.value.parent < |t|
  {
    if !BaseOk(t, base, path) then None
    else
      var raw := RawSegments(path);
      if raw == [] || raw[|raw| - 1] == DOT_SEGMENT then None
      else
        match Resolve(t, base - 1, DropDots(raw[..|raw| - 1]))
        case None => None
        case Some(p) =>
          if t[p].kind == DIRECTORY then Some(Walk(p, raw[|raw| - 1])) else None
  }

  function Create(t: Table, base: nat, path: seq<u8>, kind: nat): (Table, Option<nat>) {
    if kind != DIRECTORY && kind != FILE then (t, None)
    else
      match WalkParent(t, base, path)
      case None => (t, None)
      case Some(w) =>
        match Child(t, w.parent, w.leaf)
        case Some(c) => (t, if t[c].kind == kind then Some(c + 1) else None)
        case None =>
          if w.leaf == [] || |w.leaf| >= NAME_CAPACITY then (t, None)
          else
            match FirstFree(t, 0)
            case None => (t, None)
            case Some(k) => (t[k := NewNode(k, w.parent + 1, w.leaf, kind)], Some(k + 1))
  }

  function Relinked(t: Table, m: nat, p: nat, leaf: Segment): Table
    requires m < |t| && |leaf| < NAME_CAPACITY
  {
    t[m := t[m].(parent := p + 1, name := Padded(leaf))]
  }

  ghost function Move(t: Table, sb: nat, sp: seq<u8>, db: nat, dp: seq<u8>): (Table, bool) {
    match WalkParent(t, sb, sp)
    case None => (t, false)
    case Some(s) =>
      match WalkParent(t, db, dp)
      case None => (t, false)
      case Some(d) =>
        if d.leaf == [] || |d.leaf| >= NAME_CAPACITY then (t, false)
        else
          match Child(t, s.parent, s.leaf)
          case None => (t, false)
          case Some(m) =>
            match Child(t, d.parent, d.leaf)
            case Some(x) => (t, x == m)
            case None =>
              if t[m].kind == DIRECTORY && Ancestor(t, m, d.parent) then (t, false)
              else (Relinked(t, m, d.parent, d.leaf), true)
  }

  function Delete(t: Table, base: nat, path: seq<u8>): (Table, bool) {
    match WalkParent(t, base, path)
    case None => (t, false)
    case Some(w) =>
      match Child(t, w.parent, w.leaf)
      case None => (t, false)
      case Some(c) =>
        if c == 0 || (t[c].kind == DIRECTORY && HasChild(t, c)) then (t, false)
        else (t[c := ZeroNode()], true)
  }

  /** The bytes a file holds. */
  function FileBytes(n: Node): seq<u8>
    requires n.length <= |n.contents|
  {
    n.contents[..n.length]
  }

  /** Zero-fills up to `offset`, then lays `data` over the old bytes. */
  function Overwritten(old_: seq<u8>, offset: nat, data: seq<u8>): seq<u8> {
    var base := if offset > |old_| then old_ + Zeros(offset - |old_|) else old_;
    base[..offset] + data + (if offset + |data| < |base| then base[offset + |data|..] else [])
  }

  function WriteCount(offset: nat, count: nat): nat
    requires offset <= FILE_CAPACITY
  {
    Min(count, FILE_CAPACITY - offset)
  }

  /** The file buffer after `data` was copied in at `offset`, zero-filling any gap. */
  function Spliced(n: Node, offset: nat, data: seq<u8>): Node
    requires n.length <= |n.contents| && offset + |data| <= |n.contents|
  {
    var filled := if offset > n.length
                  then n.contents[..n.length] + Zeros(offset - n.length) + n.contents[offset..]
                  else n.contents;
    n.(contents := filled[..offset] + data + filled[offset + |data|..],
       length := Max(n.length, offset + |data|))
  }

  function Write(t: Table, id: nat, offset: nat, data: seq<u8>): (Table, Option<nat>) {
    if !IsFile(t, id) || offset > FILE_CAPACITY || !FileOk(t[id - 1]) then (t, None)
    else
      var count := WriteCount(offset, |data|);
      (t[id - 1 := Spliced(t[id - 1], offset, data[..count])], Some(count))
  }

  function Read(t: Table, id: nat, offset: nat, capacity: nat): Option<seq<u8>> {
    if !IsFile(t, id) || !FileOk(t[id - 1]) || offset > t[id - 1].length then None
    else
      var bytes := FileBytes(t[id - 1]);
      Some(bytes[offset..offset + Min(capacity, |bytes| - offset)])
  }

  /** One line of a directory listing. */
  function Entry(n: Node): seq<u8> {
    CText(n.name) + (if n.kind == DIRECTORY then [SLASH] else []) + [10]
  }

  /** The lines of a directory's children among the first `k` slots, in slot order. */
  function Listing(t: Table, slot: nat, k: nat): seq<u8>
    requires k <= |t|
  {
    if k == 0 then []
    else if t[k - 1].active && t[k - 1].parent == slot + 1 then Listing(t, slot, k - 1) + Entry(t[k - 1])
    else Listing(t, slot, k - 1)
  }

  lemma {:induction false} ListingGrows(t: Table, slot: nat, k: nat, m: nat)
    requires k <= m <= |t|
    ensures Listing(t, slot, k) <= Listing(t, slot, m)
  {
    if k < m {
      ListingGrows(t, slot, k, m - 1);
    }
  }

  /**
   A listing cut at slot `k`: the line there is the first that does not fit. Its bytes are
   left out, but for a directory that misses by one byte only the line end is.
   */
  predicate CutAt(t: Table, slot: nat, capacity: nat, k: nat, written: seq<u8>) {
    && k < |t| && |Listing(t, slot, k)| <= capacity < |Listing(t, slot, k + 1)|
    && written == if t[k].kind == DIRECTORY && |Listing(t, slot, k + 1)| == capacity + 1
                  then Listing(t, slot, k + 1)[..capacity] else Listing(t, slot, k)
  }

  predicate Cut(t: Table, slot: nat, capacity: nat, written: seq<u8>) {
    exists k: nat :: k < |t| && CutAt(t, slot, capacity, k, written)
  }

  lemma CutHere(t: Table, slot: nat, capacity: nat, k: nat, written: seq<u8>)
    requires CutAt(t, slot, capacity, k, written)
    ensures Cut(t, slot, capacity, written)
  {
  }
}
