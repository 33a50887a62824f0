/**
 The RAM file system in its own form: one fixed array of nodes, changed in place by
 offset-advancing path walkers and slot-scanning loops. Every method is proved on every path
 it can read within its buffers, against the functions of `RamfsBytes`, and keeps the forest;
 on NUL-free paths the operations are those of `RamfsTable` and keep the tree.
 */
module Ramfs {
  import opened Prelude
  import opened CStrings
  import opened RamfsPath
  import opened RamfsTable
  import opened RamfsMove
  import opened RamfsRuns
  import opened RamfsSeed
  import opened RamfsBytes
  import opened RamfsForest
  import RamfsFiles

  /** One segment of a parent walk. */
  lemma WalkRestStep(t: Table, slot: nat, raw: seq<Segment>)
    requires Forest(t) && slot < |t| && t[slot].active && t[slot].kind == DIRECTORY && raw != []
    ensures raw[0] == DOT_SEGMENT ==> WalkRest(t, slot, raw) == WalkRest(t, slot, raw[1..])
    ensures raw[0] != DOT_SEGMENT && |raw| == 1 ==> WalkRest(t, slot, raw) == Some(Walk(slot, raw[0]))
    ensures raw[0] != DOT_SEGMENT && |raw| > 1 ==>
              WalkRest(t, slot, raw) ==
              match ByteChild(t, slot, raw[0])
              case None => None
              case Some(c) => if t[c].kind == DIRECTORY then WalkRest(t, c, raw[1..]) else None
  {
    if |raw| > 1 {
      assert raw[1..][..|raw| - 2] == raw[..|raw| - 1][1..];
      if raw[0] != DOT_SEGMENT {
        var rest := DropDots(raw[..|raw| - 1]);
        assert rest == [raw[0]] + DropDots(raw[1..][..|raw| - 2]);
        match ByteChild(t, slot, raw[0])
        case None =>
        case Some(c) =>
          assert SlotSound(t, c);
          var more := DropDots(raw[1..][..|raw| - 2]);
          assert rest[1..] == more;
          assert ByteResolve(t, slot, rest) == ByteResolve(t, c, more);
          if t[c].kind == FILE {
            FileHasNoChild(t, c);
            if more != [] {
              ByteChildNone(t, c + 1, more[0], 0);
            }
          }
      }
    }
  }

  /** Every active slot carries its own id. */
  predicate IdsMatch(t: Table) {
    |t| == NODE_LIMIT && forall i :: 0 <= i < |t| && t[i].active ==> t[i].id == i + 1
  }

  lemma ForestIds(t: Table)
    requires Forest(t)
    ensures IdsMatch(t)
  {
    forall i | 0 <= i < |t| && t[i].active
      ensures t[i].id == i + 1
    {
      assert SlotSound(t, i);
    }
  }

  lemma IdOf(t: Table, i: nat)
    requires Forest(t) && i < |t| && t[i].active
    ensures t[i].id == i + 1
  {
    assert SlotSound(t, i);
  }

  /** A segment shorter than the buffers cannot run past one. */
  lemma ShortStaysInside(t: Table, slot: nat, seg: Segment)
    requires Forest(t) && |seg| < NAME_CAPACITY
    ensures !LookupOverruns(t, slot, seg)
  {
    forall j | 0 <= j < |t| && t[j].active
      ensures !Overruns(t[j].name, seg)
    {
      assert SlotSound(t, j);
    }
  }

  lemma {:induction false} IdIsSlot(t: Table, id: nat, k: nat)
    requires IdsMatch(t) && k <= |t|
    ensures FirstId(t, id, k) == if IsActive(t, id) && k < id then Some(id - 1) else None
    decreases |t| - k
  {
    if k < |t| {
      IdIsSlot(t, id, k + 1);
    }
  }

  /** From a tree and on NUL-free paths, `u` is what the operation by name makes, and a tree. */
  ghost predicate ByName(t: Table, op: Op, u: Table) {
    Tree(t) && NulFree(op) ==> u == Apply(t, op) && Tree(u)
  }

  lemma BytesByName(t: Table, op: Op)
    ensures ByName(t, op, ByteApply(t, op))
  {
    if Tree(t) && NulFree(op) {
      ApplyAgrees(t, op);
      ApplyKeepsTree(t, op);
    }
  }

  /** From boot on, whatever the seeded texts and whatever the paths hold, every run keeps the forest. */
  lemma EveryRunFromBootIsForest(texts: seq<seq<u8>>, ops: seq<Op>)
    requires |texts| == SEED_COUNT
    ensures SeedsOk(BootSeeds(texts))
    ensures Forest(ByteRun(Seeded(BootSeeds(texts), SEED_COUNT), ops))
  {
    BootSeedsOk(texts);
    SeededTree(BootSeeds(texts));
    TreeIsForest(Seeded(BootSeeds(texts), SEED_COUNT));
    ByteRunKeepsForest(Seeded(BootSeeds(texts), SEED_COUNT), ops);
  }

  /** From boot on, whatever the seeded texts, every run of operations keeps the tree. */
  lemma EveryRunFromBootIsTree(texts: seq<seq<u8>>, ops: seq<Op>)
    requires |texts| == SEED_COUNT && forall op :: op in ops ==> NulFree(op)
    ensures SeedsOk(BootSeeds(texts))
    ensures Tree(Run(Seeded(BootSeeds(texts), SEED_COUNT), ops))
  {
    BootSeedsOk(texts);
    SeededTree(BootSeeds(texts));
    RunKeepsTree(Seeded(BootSeeds(texts), SEED_COUNT), ops);
  }

  /** The ancestor's id is met on the way up from the id. */
  ghost predicate OnChain(t: Table, ancestorId: nat, id: nat) {
    id >= 1 && ancestorId >= 1 && Ancestor(t, ancestorId - 1, id - 1)
  }

  lemma OnChainStep(t: Table, ancestorId: nat, id: nat)
    requires Forest(t) && id >= 1 && id != ancestorId
    ensures OnChain(t, ancestorId, id) <==> IsActive(t, id) && OnChain(t, ancestorId, t[id - 1].parent)
    ensures IsActive(t, id) && id != 1 ==> IsActive(t, t[id - 1].parent)
    ensures t[0].parent == 0
  {
    if IsActive(t, id) {
      assert LinkSound(t, id - 1);
      if ancestorId >= 1 {
        if id == 1 {
          AncestorRoot(t, ancestorId - 1);
        } else {
          AncestorStep(t, ancestorId - 1, id - 1);
        }
      }
    } else if id <= |t| {
      assert SlotSound(t, id - 1);
    }
  }

  lemma ChainLinks(t: Table, id: nat) returns (links: nat)
    requires Forest(t)
    ensures IsActive(t, id) ==> Reaches(t, id - 1, links)
  {
    links := 0;
    if IsActive(t, id) {
      assert ChainOk(t, id - 1);
      links :| Reaches(t, id - 1, links);
    }
  }

  class Ramfs {
    const nodes: array<Node>

    ghost predicate Valid()
      reads nodes
    {
      Forest(nodes[..])
    }

    /** Boots from a seed table. */
    constructor (seeds: seq<Seed>)
      requires SeedsOk(seeds)
      ensures Valid() && Tree(nodes[..]) && fresh(nodes)
      ensures nodes[..] == Seeded(seeds, |seeds|)
    {
      nodes := new Node[NODE_LIMIT](_ => ZeroNode());
      new;
      assert nodes[..] == Seeded(seeds, 0);
      for index := 0 to |seeds|
        invariant nodes[..] == Seeded(seeds, index)
      {
        SeedTakesNext(seeds, index);
        CopySeed(seeds[index]);
      }
      SeededTree(seeds);
      TreeIsForest(nodes[..]);
    }

    /** Boots the kernel's own table. */
    static method Boot(texts: seq<seq<u8>>) returns (fs: Ramfs)
      requires |texts| == SEED_COUNT
      ensures fs.Valid() && Tree(fs.nodes[..]) && fresh(fs) && fresh(fs.nodes)
      ensures SeedsOk(BootSeeds(texts)) && fs.nodes[..] == Seeded(BootSeeds(texts), SEED_COUNT)
    {
      BootSeedsOk(texts);
      fs := new Ramfs(BootSeeds(texts));
    }

    /** Copies one seed over the node that has its id, else into the first free slot. */
    method CopySeed(seed: Seed)
      requires nodes.Length == NODE_LIMIT
      modifies nodes
      ensures nodes[..] == SeedInto(old(nodes[..]), seed)
    {
      ghost var t := nodes[..];
      var node := FindNode(seed.id);
      if node.None? {
        node := AllocateNode();
        if node.None? {
          return;
        }
      }
      var buffer := CopyName(seed.name);
      var copy := ZeroNode().(active := true, id := seed.id, parent := seed.parent, kind := seed.kind, name := buffer);
      if seed.contents.Some? && |seed.contents.value| <= FILE_CAPACITY {
        var contents := CopyIn(copy.contents, 0, seed.contents.value);
        assert contents == seed.contents.value + Zeros(FILE_CAPACITY - |seed.contents.value|);
        copy := copy.(contents := contents, length := |seed.contents.value|);
      }
      nodes[node.value] := copy;
      assert copy == SeedNode(seed);
    }

    // ---- names ----

    /** Compares a NUL-terminated name buffer with a path segment, never reading past the buffer. */
    static method TextEqualsSegment(text: seq<u8>, segment: seq<u8>) returns (equal: bool)
      requires |text| == NAME_CAPACITY && text[NAME_CAPACITY - 1] == 0 && !Overruns(text, segment)
      ensures equal <==> BufferMatches(text, segment)
      ensures NonZero(segment) ==> (equal <==> CText(text) == segment)
    {
      EndsInNul(text, segment);
      var index := 0;
      while index < |segment|
        invariant 0 <= index <= |segment| && index < NAME_CAPACITY
        invariant text[..index] == segment[..index]
      {
        if text[index] != segment[index] {
          return false;
        }
        assert text[..index + 1] == segment[..index + 1];
        assert text[..NAME_CAPACITY] == text;
        index := index + 1;
      }
      equal := text[|segment|] == 0;
      assert segment[..|segment|] == segment;
    }

    static lemma EndsInNul(text: seq<u8>, segment: seq<u8>)
      requires |text| == NAME_CAPACITY && text[NAME_CAPACITY - 1] == 0
      ensures NonZero(segment) ==> (BufferMatches(text, segment) <==> CText(text) == segment)
    {
      CTextNonZero(text);
      if NonZero(segment) {
        BufferMatchesIsEquality(text, segment);
      }
    }

    /** Copies a seed's name, cut to leave room for the NUL. */
    static method CopyName(name: seq<u8>) returns (buffer: seq<u8>)
      ensures buffer == Padded(Clip(name))
    {
      buffer := NameBuffer(if |name| < NAME_CAPACITY then name else name[..NAME_CAPACITY - 1]);
    }

    /** Fills a zeroed name buffer. */
    static method NameBuffer(name: seq<u8>) returns (buffer: seq<u8>)
      requires |name| < NAME_CAPACITY
      ensures buffer == Padded(name)
    {
      buffer := Zeros(NAME_CAPACITY);
      for index := 0 to |name|
        invariant buffer == name[..index] + Zeros(NAME_CAPACITY - index)
      {
        buffer := buffer[index := name[index]];
      }
      buffer := buffer[|name| := 0];
    }

    // ---- slot scans ----

    method FindNode(id: nat) returns (r: Option<nat>)
      requires nodes.Length == NODE_LIMIT
      ensures r == FirstId(nodes[..], id, 0)
      ensures IdsMatch(nodes[..]) ==> r == if IsActive(nodes[..], id) then Some(id - 1) else None
    {
      ghost var t := nodes[..];
      if IdsMatch(t) {
        IdIsSlot(t, id, 0);
      }
      for index := 0 to NODE_LIMIT
        invariant FirstId(t, id, 0) == FirstId(t, id, index)
      {
        if nodes[index].active && nodes[index].id == id {
          return Some(index);
        }
      }
      r := None;
    }

    method FindChild(parent: nat, segment: Segment) returns (r: Option<nat>)
      requires Valid() && IsActive(nodes[..], parent + 1) && !LookupOverruns(nodes[..], parent, segment)
      ensures r == ByteChild(nodes[..], parent, segment)
    {
      if |segment| == 0 {
        return None;
      }
      ghost var t := nodes[..];
      assert SlotSound(t, parent);
      for index := 0 to NODE_LIMIT
        invariant FirstByteMatch(t, parent + 1, segment, 0) == FirstByteMatch(t, parent + 1, segment, index)
      {
        assert SlotSound(t, index);
        if nodes[index].active && nodes[index].parent == nodes[parent].id {
          var equal := TextEqualsSegment(nodes[index].name, segment);
          if equal {
            return Some(index);
          }
        }
      }
      r := None;
    }

    /** The children of a directory; a file has none to count. */
    method CountChildren(parent: nat) returns (count: nat)
      requires Valid() && IsActive(nodes[..], parent + 1)
      ensures count == ChildCount(nodes[..], parent, 0)
      ensures count != 0 <==> HasChild(nodes[..], parent)
    {
      ghost var t := nodes[..];
      assert SlotSound(t, parent);
      if nodes[parent].kind != DIRECTORY {
        FileHasNoChild(t, parent);
        NoneToCount(t, parent, 0);
        return 0;
      }
      count := 0;
      for index := 0 to NODE_LIMIT
        invariant count + ChildCount(t, parent, index) == ChildCount(t, parent, 0)
        invariant count != 0 <==> exists j :: 0 <= j < index && t[j].active && t[j].parent == parent + 1
      {
        if nodes[index].active && nodes[index].parent == nodes[parent].id {
          count := count + 1;
        }
      }
    }

    static lemma {:induction false} NoneToCount(t: Table, parent: nat, k: nat)
      requires k <= |t| && !HasChild(t, parent)
      ensures ChildCount(t, parent, k) == 0
      decreases |t| - k
    {
      if k < |t| {
        NoneToCount(t, parent, k + 1);
      }
    }

    /** Walks the parent chain, from any id at all; it ends because the chain reaches the root. */
    method ParentChainContains(nodeId: nat, ancestorId: nat) returns (found: bool)
      requires Valid()
      ensures found <==> nodeId >= 1 && ancestorId >= 1 && Ancestor(nodes[..], ancestorId - 1, nodeId - 1)
    {
      ForestIds(nodes[..]);
      ghost var t := nodes[..];
      var id := nodeId;
      ghost var links := ChainLinks(t, nodeId);
      while id != 0
        invariant IsActive(t, id) ==> Reaches(t, id - 1, links)
        invariant OnChain(t, ancestorId, nodeId) <==> OnChain(t, ancestorId, id)
        decreases if id == 0 then 0 else if IsActive(t, id) then links + 2 else 1
      {
        if id == ancestorId {
          assert AncestorWithin(t, ancestorId - 1, id - 1, 0);
          return true;
        }
        OnChainStep(t, ancestorId, id);
        var node := FindNode(id);
        if node.None? {
          break;
        }
        if id != 1 {
          links := links - 1;
        }
        id := nodes[node.value].parent;
      }
      found := false;
    }

    /** Takes the first free slot, zeroed, active and with its own id. */
    method AllocateNode() returns (r: Option<nat>)
      requires nodes.Length == NODE_LIMIT
      modifies nodes
      ensures r == FirstFree(old(nodes[..]), 0)
      ensures nodes[..] == if r.None? then old(nodes[..])
                           else old(nodes[..])[r.value := ZeroNode().(active := true, id := r.value + 1)]
    {
      ghost var t := nodes[..];
      for index := 0 to NODE_LIMIT
        invariant nodes[..] == t
        invariant FirstFree(t, 0) == FirstFree(t, index)
      {
        if !nodes[index].active {
          nodes[index] := ZeroNode();
          nodes[index] := nodes[index].(active := true);
          nodes[index] := nodes[index].(id := index + 1);
          return Some(index);
        }
      }
      r := None;
    }

    method CreateChild(parent: nat, name: Segment, kind: nat) returns (r: Option<nat>)
      requires Valid() && IsDirectory(nodes[..], parent + 1) && kind != NONE
      modifies nodes
      ensures var t := old(nodes[..]);
              if name == [] || |name| >= NAME_CAPACITY || FirstFree(t, 0).None?
              then r == None && nodes[..] == t
              else r == FirstFree(t, 0) && nodes[..] == t[r.value := NewNode(r.value, parent + 1, name, kind)]
    {
      if |name| == 0 || |name| >= NAME_CAPACITY {
        return None;
      }
      assert SlotSound(nodes[..], parent);
      r := AllocateNode();
      if r.None? {
        return;
      }
      var node := r.value;
      assert node != parent;
      nodes[node] := nodes[node].(parent := nodes[parent].id);
      nodes[node] := nodes[node].(kind := kind);
      var buffer := NameBuffer(name);
      nodes[node] := nodes[node].(name := buffer);
      nodes[node] := nodes[node].(length := 0);
    }

    // ---- path walkers ----

    /** Advances over slashes. */
    static method SkipSlashes(path: seq<u8>, start: nat) returns (offset: nat)
      requires start <= |path|
      ensures start <= offset <= |path|
      ensures offset < |path| ==> path[offset] != SLASH
      ensures RawSegments(path[offset..]) == RawSegments(path[start..])
    {
      offset := start;
      while offset < |path| && path[offset] == SLASH
        invariant start <= offset <= |path|
        invariant RawSegments(path[offset..]) == RawSegments(path[start..])
      {
        RawSegmentsSkip(path, offset);
        offset := offset + 1;
      }
    }

    /** Advances over one slash-free run. */
    static method ScanSegment(path: seq<u8>, start: nat) returns (offset: nat)
      requires start < |path| && path[start] != SLASH
      ensures start < offset <= |path|
      ensures RawSegments(path[start..]) == [path[start..offset]] + RawSegments(path[offset..])
    {
      offset := start;
      while offset < |path| && path[offset] != SLASH
        invariant start <= offset <= |path|
        invariant SLASH !in path[start..offset]
      {
        assert path[start..offset + 1] == path[start..offset] + [path[offset]];
        offset := offset + 1;
      }
      RawSegmentsStep(path, start, offset);
    }

    /** Reads the segment at `start` and the slashes after it. */
    static method NextSegment(path: seq<u8>, start: nat) returns (segment: Segment, next: nat)
      requires start < |path| && path[start] != SLASH
      ensures start < next <= |path| && (next < |path| ==> path[next] != SLASH)
      ensures RawSegments(path[start..]) == [segment] + RawSegments(path[next..])
      ensures next < |path| <==> RawSegments(path[next..]) != []
    {
      var end := ScanSegment(path, start);
      segment := path[start..end];
      next := SkipSlashes(path, end);
      assert next < |path| ==> path[next..][0] != SLASH;
    }

    method WalkToParent(base: nat, path: seq<u8>) returns (r: Option<Walk>)
      requires Valid() && WalkReadable(nodes[..], base, path)
      ensures r == ByteWalkParent(nodes[..], base, path)
    {
      ForestIds(nodes[..]);
      ghost var t := nodes[..];
      assert path[0..] == path;
      if |path| == 0 {
        return None;
      }
      var found := FindNode(base);
      if found.None? || nodes[found.value].kind != DIRECTORY {
        return None;
      }
      var offset := 0;
      if path[0] == SLASH {
        if base != ROOT {
          return None;
        }
        offset := SkipSlashes(path, 0);
      }
      r := WalkFrom(found.value, path, offset);
    }

    /** The segment loop of the parent walk. */
    method WalkFrom(slot: nat, path: seq<u8>, start: nat) returns (r: Option<Walk>)
      requires Valid() && IsDirectory(nodes[..], slot + 1) && start <= |path|
      requires !WalkOverruns(nodes[..], slot, WalkLookups(RawSegments(path[start..])))
      ensures r == WalkRest(nodes[..], slot, RawSegments(path[start..]))
    {
      ghost var t := nodes[..];
      var current, offset := slot, start;
      ghost var raw := RawSegments(path[start..]);
      ghost var goal := WalkRest(t, slot, raw);
      while offset < |path|
        invariant 0 <= offset <= |path|
        invariant IsDirectory(t, current + 1)
        invariant raw == RawSegments(path[offset..]) && !WalkOverruns(t, current, WalkLookups(raw))
        invariant WalkRest(t, current, raw) == goal
        decreases |path| - offset
      {
        offset := SkipSlashes(path, offset);
        if offset >= |path| {
          break;
        }
        var segment, next := NextSegment(path, offset);
        WalkRestStep(t, current, raw);
        WalkLookupsStep(raw);
        assert raw[1..] == RawSegments(path[next..]);
        raw := raw[1..];
        offset := next;
        if segment == DOT_SEGMENT {
          continue;
        }
        if next >= |path| {
          return Some(Walk(current, segment));
        }
        var child := FindChild(current, segment);
        if child.None? || nodes[child.value].kind != DIRECTORY {
          return None;
        }
        current := child.value;
      }
      r := None;
    }

    method OpenPath(base: nat, path: seq<u8>) returns (r: Option<nat>)
      requires Valid() && Readable(nodes[..], base, path)
      ensures r == ByteOpen(nodes[..], base, path)
    {
      ForestIds(nodes[..]);
      assert path[0..] == path;
      var found := FindNode(base);
      if found.None? || nodes[found.value].kind != DIRECTORY {
        return None;
      }
      var offset := 0;
      if |path| != 0 && path[0] == SLASH {
        if base != ROOT {
          return None;
        }
        offset := SkipSlashes(path, 0);
      }
      var node := OpenFrom(found.value, path, offset);
      if node.None? {
        return None;
      }
      r := Some(nodes[node.value].id);
    }

    /** The segment loop of open. */
    method OpenFrom(slot: nat, path: seq<u8>, start: nat) returns (r: Option<nat>)
      requires Valid() && IsActive(nodes[..], slot + 1) && start <= |path|
      requires start < |path| ==> path[start] != SLASH
      requires !WalkOverruns(nodes[..], slot, Segments(path[start..]))
      ensures r == ByteResolve(nodes[..], slot, Segments(path[start..]))
      ensures r.Some? ==> IsActive(nodes[..], r.value + 1)
    {
      ghost var t := nodes[..];
      var current, offset := slot, start;
      ghost var segs := Segments(path[start..]);
      ghost var goal := ByteResolve(t, slot, segs);
      while offset < |path|
        invariant 0 <= offset <= |path|
        invariant offset < |path| ==> path[offset] != SLASH
        invariant IsActive(t, current + 1)
        invariant segs == Segments(path[offset..]) && !WalkOverruns(t, current, segs)
        invariant ByteResolve(t, current, segs) == goal
        decreases |path| - offset
      {
        var segment, next := NextSegment(path, offset);
        SegmentsStep(path, offset, segment, next);
        offset := next;
        if segment == DOT_SEGMENT {
          continue;
        }
        segs := segs[1..];
        var child := FindChild(current, segment);
        if child.None? {
          return None;
        }
        current := child.value;
      }
      r := Some(current);
    }

    static lemma WalkLookupsStep(raw: seq<Segment>)
      requires raw != []
      ensures raw[0] == DOT_SEGMENT ==> WalkLookups(raw) == WalkLookups(raw[1..])
      ensures raw[0] != DOT_SEGMENT && |raw| > 1 ==>
                var segs := WalkLookups(raw);
                segs != [] && segs[0] == raw[0] && segs[1..] == WalkLookups(raw[1..])
    {
      if |raw| > 1 {
        assert raw[1..][..|raw| - 2] == raw[..|raw| - 1][1..];
      }
    }

    static lemma SegmentsStep(path: seq<u8>, at: nat, segment: Segment, next: nat)
      requires at <= |path| && next <= |path|
      requires RawSegments(path[at..]) == [segment] + RawSegments(path[next..])
      ensures Segments(path[at..])
           == if segment == DOT_SEGMENT then Segments(path[next..]) else [segment] + Segments(path[next..])
    {
      assert RawSegments(path[at..])[1..] == RawSegments(path[next..]);
    }

    // ---- operations ----

    method CreatePath(base: nat, path: seq<u8>, kind: nat) returns (id: Option<nat>)
      requires Valid() && Readable(nodes[..], base, path)
      modifies nodes
      ensures Valid()
      ensures (nodes[..], id) == ByteCreate(old(nodes[..]), base, path, kind)
      ensures ByName(old(nodes[..]), CreateOp(base, path, kind), nodes[..])
    {
      BytesByName(nodes[..], CreateOp(base, path, kind));
      hide ByName;
      ghost var t := nodes[..];
      ByteCreateKeepsForest(t, base, path, kind);
      ReadableIsWalkAndLeaf(t, base, path);
      if kind != DIRECTORY && kind != FILE {
        return None;
      }
      var walk := WalkToParent(base, path);
      if walk.None? {
        return None;
      }
      var parent, leaf := walk.value.parent, walk.value.leaf;
      var existing := FindChild(parent, leaf);
      if existing.Some? {
        assert SlotSound(t, existing.value);
        return if nodes[existing.value].kind == kind then Some(nodes[existing.value].id) else None;
      }
      var created := CreateChild(parent, leaf, kind);
      id := if created.None? then None else Some(nodes[created.value].id);
    }

    method MovePath(sourceBase: nat, source: seq<u8>, destinationBase: nat, destination: seq<u8>)
      returns (moved: bool)
      requires Valid() && MoveReadable(nodes[..], sourceBase, source, destinationBase, destination)
      modifies nodes
      ensures Valid()
      ensures (nodes[..], moved) == ByteMove(old(nodes[..]), sourceBase, source, destinationBase, destination)
      ensures ByName(old(nodes[..]), MoveOp(sourceBase, source, destinationBase, destination), nodes[..])
    {
      BytesByName(nodes[..], MoveOp(sourceBase, source, destinationBase, destination));
      ghost var t := nodes[..];
      ByteMoveKeepsForest(t, sourceBase, source, destinationBase, destination);
      hide ByName, Forest, ByteWalkParent, ByteChild, Ancestor, WalkReadable, LookupOverruns;
      var from := WalkToParent(sourceBase, source);
      if from.None? {
        return false;
      }
      var to := WalkToParent(destinationBase, destination);
      if to.None? {
        return false;
      }
      if |to.value.leaf| == 0 || |to.value.leaf| >= NAME_CAPACITY {
        return false;
      }
      var node := FindChild(from.value.parent, from.value.leaf);
      if node.None? {
        return false;
      }
      ShortStaysInside(t, to.value.parent, to.value.leaf);
      var existing := FindChild(to.value.parent, to.value.leaf);
      IdOf(t, node.value);
      if existing.Some? {
        IdOf(t, existing.value);
        return nodes[existing.value].id == nodes[node.value].id;
      }
      var inside := LiesInside(to.value.parent, node.value);
      if inside {
        return false;
      }
      Relink(node.value, to.value.parent, to.value.leaf);
      moved := true;
    }

    /** Whether the node is a directory with `parent` in its subtree. */
    method LiesInside(parent: nat, node: nat) returns (inside: bool)
      requires Valid() && IsActive(nodes[..], parent + 1) && IsActive(nodes[..], node + 1)
      ensures inside <==> nodes[node].kind == DIRECTORY && Ancestor(nodes[..], node, parent)
    {
      IdOf(nodes[..], parent);
      IdOf(nodes[..], node);
      if nodes[node].kind != DIRECTORY {
        return false;
      }
      inside := ParentChainContains(nodes[parent].id, nodes[node].id);
    }

    method Relink(node: nat, parent: nat, leaf: Segment)
      requires Valid() && IsActive(nodes[..], node + 1) && IsActive(nodes[..], parent + 1)
      requires |leaf| < NAME_CAPACITY
      modifies nodes
      ensures nodes[..] == Relinked(old(nodes[..]), node, parent, leaf)
    {
      assert SlotSound(nodes[..], parent);
      nodes[node] := nodes[node].(parent := nodes[parent].id);
      var buffer := NameBuffer(leaf);
      nodes[node] := nodes[node].(name := buffer);
    }

    method RenamePath(base: nat, source: seq<u8>, destination: seq<u8>) returns (renamed: bool)
      requires Valid() && MoveReadable(nodes[..], base, source, base, destination)
      modifies nodes
      ensures Valid()
      ensures (nodes[..], renamed) == ByteMove(old(nodes[..]), base, source, base, destination)
      ensures ByName(old(nodes[..]), RenameOp(base, source, destination), nodes[..])
    {
      BytesByName(nodes[..], RenameOp(base, source, destination));
      hide ByName;
      renamed := MovePath(base, source, base, destination);
    }

    method DeletePath(base: nat, path: seq<u8>) returns (deleted: bool)
      requires Valid() && Readable(nodes[..], base, path)
      modifies nodes
      ensures Valid()
      ensures (nodes[..], deleted) == ByteDelete(old(nodes[..]), base, path)
      ensures ByName(old(nodes[..]), DeleteOp(base, path), nodes[..])
    {
      BytesByName(nodes[..], DeleteOp(base, path));
      hide ByName;
      ghost var t := nodes[..];
      ByteDeleteKeepsForest(t, base, path);
      ReadableIsWalkAndLeaf(t, base, path);
      var walk := WalkToParent(base, path);
      if walk.None? {
        return false;
      }
      var target := FindChild(walk.value.parent, walk.value.leaf);
      if target.None? {
        return false;
      }
      assert SlotSound(t, target.value);
      if nodes[target.value].id == ROOT {
        return false;
      }
      if nodes[target.value].kind == DIRECTORY {
        var children := CountChildren(target.value);
        if children != 0 {
          return false;
        }
      }
      nodes[target.value] := ZeroNode();
      deleted := true;
    }

    /** Bytes of a file from `offset` on, as many as fit; none when the offset lies past the end. */
    method ReadFile(id: nat, offset: nat, capacity: nat) returns (r: Option<seq<u8>>)
      requires Valid()
      ensures r == Read(nodes[..], id, offset, capacity)
      ensures r.Some? <==> RamfsFiles.FileAt(nodes[..], id) && offset <= nodes[id - 1].length
      ensures r.Some? ==>
                var n := nodes[id - 1];
                && |r.value| == (if capacity < n.length - offset then capacity else n.length - offset)
                && n.length <= |n.contents|
                && forall i :: 0 <= i < |r.value| ==> r.value[i] == n.contents[offset + i]
    {
      RamfsFiles.ReadIs(nodes[..], id, offset, capacity);
      ForestIds(nodes[..]);
      ghost var t := nodes[..];
      var node := FindNode(id);
      if node.None? || nodes[node.value].kind != FILE || offset > nodes[node.value].length {
        return None;
      }
      assert SlotSound(t, node.value);
      var file := nodes[node.value];
      var remaining := file.length - offset;
      if remaining > capacity {
        remaining := capacity;
      }
      var bytes: seq<u8> := [];
      for index := 0 to remaining
        invariant bytes == file.contents[offset..offset + index]
      {
        bytes := bytes + [file.contents[offset + index]];
      }
      assert bytes == FileBytes(file)[offset..offset + remaining];
      r := Some(bytes);
    }

    method WriteFile(id: nat, offset: nat, source: seq<u8>) returns (count: Option<nat>)
      requires Valid()
      modifies nodes
      ensures Valid()
      ensures (nodes[..], count) == Write(old(nodes[..]), id, offset, source)
      ensures ByName(old(nodes[..]), WriteOp(id, offset, source), nodes[..])
    {
      BytesByName(nodes[..], WriteOp(id, offset, source));
      hide ByName;
      ForestIds(nodes[..]);
      ghost var t := nodes[..];
      WriteKeepsForest(t, id, offset, source);
      var node := FindNode(id);
      if node.None? || nodes[node.value].kind != FILE || offset > FILE_CAPACITY {
        return None;
      }
      assert SlotSound(t, node.value);
      var file := nodes[node.value];
      var actual := |source|;
      if actual > FILE_CAPACITY - offset {
        actual := FILE_CAPACITY - offset;
      }
      var written := SpliceNode(file, offset, source[..actual]);
      nodes[node.value] := written;
      count := Some(actual);
    }

    static method SpliceNode(file: Node, offset: nat, data: seq<u8>) returns (written: Node)
      requires FileOk(file) && offset + |data| <= FILE_CAPACITY
      ensures written == Spliced(file, offset, data)
    {
      var contents := FillGap(file.contents, file.length, offset);
      contents := CopyIn(contents, offset, data);
      written := file.(contents := contents);
      if offset + |data| > file.length {
        written := written.(length := offset + |data|);
      }
    }

    /** Zeroes the bytes between the end of the file and the write offset. */
    static method FillGap(contents: seq<u8>, length: nat, offset: nat) returns (filled: seq<u8>)
      requires length <= |contents| && offset <= |contents|
      ensures filled == if offset > length
                        then contents[..length] + Zeros(offset - length) + contents[offset..]
                        else contents
    {
      filled := contents;
      if offset > length {
        for index := length to offset
          invariant filled == contents[..length] + Zeros(index - length) + contents[index..]
        {
          filled := filled[index := 0];
        }
      }
    }

    static method CopyIn(contents: seq<u8>, offset: nat, data: seq<u8>) returns (copied: seq<u8>)
      requires offset + |data| <= |contents|
      ensures copied == contents[..offset] + data + contents[offset + |data|..]
    {
      copied := contents;
      for index := 0 to |data|
        invariant copied == contents[..offset] + data[..index] + contents[offset + index..]
      {
        copied := copied[offset + index := data[index]];
      }
    }

    /**
     Lists a directory into a bounded buffer. What comes out is a prefix of the full
     listing, all of it exactly when it fits, and otherwise cut at the first line that does not.
     */
    method ListDirectory(id: nat, capacity: nat) returns (r: Option<seq<u8>>)
      requires Valid()
      ensures r.Some? <==> IsDirectory(nodes[..], id) && capacity > 0
      ensures r.Some? ==> |r.value| <= capacity && r.value <= Listing(nodes[..], id - 1, NODE_LIMIT)
      ensures r.Some? ==> (r.value == Listing(nodes[..], id - 1, NODE_LIMIT)
                           <==> |Listing(nodes[..], id - 1, NODE_LIMIT)| <= capacity)
      ensures r.Some? && |Listing(nodes[..], id - 1, NODE_LIMIT)| > capacity ==>
                Cut(nodes[..], id - 1, capacity, r.value)
    {
      ForestIds(nodes[..]);
      ghost var t := nodes[..];
      var node := FindNode(id);
      if node.None? || nodes[node.value].kind != DIRECTORY || capacity == 0 {
        return None;
      }
      assert SlotSound(t, node.value);
      var written := ListEntries(node.value, capacity);
      r := Some(written);
    }

    /** The slot loop of the listing. */
    method ListEntries(slot: nat, capacity: nat) returns (written: seq<u8>)
      requires nodes.Length == NODE_LIMIT && slot < NODE_LIMIT && nodes[slot].id == slot + 1
      ensures |written| <= capacity && written <= Listing(nodes[..], slot, NODE_LIMIT)
      ensures written == Listing(nodes[..], slot, NODE_LIMIT)
              || (|Listing(nodes[..], slot, NODE_LIMIT)| > capacity
                  && Cut(nodes[..], slot, capacity, written))
    {
      hide CText, Cut;
      ghost var t := nodes[..];
      written := [];
      for index := 0 to NODE_LIMIT
        invariant |written| <= capacity
        invariant written == Listing(t, slot, index)
      {
        if !nodes[index].active || nodes[index].parent != nodes[slot].id {
          continue;
        }
        var complete;
        written, complete := AppendEntry(nodes[index], written, capacity);
        if !complete {
          ListingGrows(t, slot, index + 1, NODE_LIMIT);
          assert CutAt(t, slot, capacity, index, written);
          CutHere(t, slot, capacity, index, written);
          return;
        }
      }
    }

    /** Appends one entry, or as much of it as the source would before giving up. */
    static method AppendEntry(node: Node, before: seq<u8>, capacity: nat) returns (written: seq<u8>, complete: bool)
      requires |before| <= capacity
      ensures before <= written <= before + Entry(node) && |written| <= capacity
      ensures complete <==> written == before + Entry(node)
      ensures !complete ==> |before + Entry(node)| > capacity
      ensures !complete ==> written == if node.kind == DIRECTORY && |before + Entry(node)| == capacity + 1
                                       then (before + Entry(node))[..capacity] else before
    {
      var name := CText(node.name);
      ghost var all := before + Entry(node);
      if |before| + |name| + 1 > capacity {
        return before, false;
      }
      written := before + name;
      if node.kind == DIRECTORY {
        if |written| >= capacity {
          return written, false;
        }
        written := written + [SLASH];
      }
      if |written| >= capacity {
        return written, false;
      }
      written := written + [10];
      complete := true;
    }
  }
}
