/**
 What files and directories show: every read and write byte by byte, what a new and what a
 seeded file reads as, and which lines a directory listing has. Sizes are written out here.
 */
module RamfsFiles {
  import opened Prelude
  import opened CStrings
  import opened RamfsTable
  import opened RamfsSeed
  import opened RamfsBytes
  import opened RamfsForest

  /** The id names a live file. */
  predicate FileAt(t: Table, id: nat) {
    1 <= id <= |t| && t[id - 1].active && t[id - 1].kind == 2
  }

  // ---- reading ----

  /** A read fails exactly without a file or past its end; otherwise it gives the bytes there, as many as fit. */
  lemma ReadIs(t: Table, id: nat, offset: nat, capacity: nat)
    requires Forest(t)
    ensures Read(t, id, offset, capacity).Some? <==> FileAt(t, id) && offset <= t[id - 1].length
    ensures FileAt(t, id) && offset <= t[id - 1].length ==>
              var n, r := t[id - 1], Read(t, id, offset, capacity).value;
              && |r| == (if capacity < n.length - offset then capacity else n.length - offset)
              && n.length <= |n.contents|
              && forall i :: 0 <= i < |r| ==> r[i] == n.contents[offset + i]
  {
    if FileAt(t, id) {
      assert SlotSound(t, id - 1);
    }
  }

  /** Reading on where a read stopped is one longer read. */
  lemma ReadsJoin(t: Table, id: nat, offset: nat, first: nat, second: nat)
    requires Forest(t) && FileAt(t, id) && offset <= t[id - 1].length
    ensures Read(t, id, offset, first).Some?
    ensures var x := Read(t, id, offset, first).value;
            && Read(t, id, offset + |x|, second).Some?
            && (|x| == first || offset + |x| == t[id - 1].length)
            && (|x| == first ==>
                  Read(t, id, offset, first + second) == Some(x + Read(t, id, offset + |x|, second).value))
  {
    assert SlotSound(t, id - 1);
    var bytes := FileBytes(t[id - 1]);
    var x := Read(t, id, offset, first).value;
    var y := Read(t, id, offset + |x|, second).value;
    assert bytes[offset..offset + |x| + |y|] == bytes[offset..offset + |x|] + bytes[offset + |x|..offset + |x| + |y|];
  }

  // ---- writing ----

  /** Byte `i` of a file after `count` bytes of data were written at `offset`. */
  function ByteAfter(n: Node, offset: nat, data: seq<u8>, count: nat, i: nat): u8
    requires n.length <= |n.contents| && count <= |data|
  {
    if offset <= i < offset + count then data[i - offset]
    else if i < n.length then n.contents[i]
    else 0
  }

  /**
   A write fails exactly without a file or past the buffer of 256 bytes; otherwise it stores
   what fits, and the file is as long as its old end or the end of the data, whichever is later.
   */
  lemma WriteIs(t: Table, id: nat, offset: nat, data: seq<u8>)
    requires Forest(t)
    ensures Write(t, id, offset, data).1.Some? <==> FileAt(t, id) && offset <= 256
    ensures Write(t, id, offset, data).1.None? ==> Write(t, id, offset, data).0 == t
    ensures FileAt(t, id) && offset <= 256 ==>
              var (u, count) := Write(t, id, offset, data);
              var n := t[id - 1];
              && count == Some(if |data| < 256 - offset then |data| else 256 - offset)
              && |u| == |t| && FileAt(u, id) && n.length <= |n.contents|
              && u[id - 1].length == (if n.length < offset + count.value then offset + count.value else n.length)
              && u[id - 1].length <= |u[id - 1].contents|
              && (forall i :: 0 <= i < u[id - 1].length ==>
                    u[id - 1].contents[i] == ByteAfter(n, offset, data, count.value, i))
              && (forall j :: 0 <= j < |t| && j != id - 1 ==> u[j] == t[j])
              && u[id - 1].name == n.name && u[id - 1].parent == n.parent && u[id - 1].id == n.id
  {
    if FileAt(t, id) && offset <= 256 {
      assert SlotSound(t, id - 1);
      var (u, count) := Write(t, id, offset, data);
      SplicedIs(t[id - 1], offset, data, count.value);
      hide Spliced, ByteAfter;
    }
  }

  lemma SplicedIs(n: Node, offset: nat, data: seq<u8>, count: nat)
    requires FileOk(n) && count <= |data| && offset + count <= 256
    ensures var w := Spliced(n, offset, data[..count]);
            && w.length == (if n.length < offset + count then offset + count else n.length) <= |w.contents|
            && w == n.(contents := w.contents, length := w.length)
            && forall i :: 0 <= i < w.length ==> w.contents[i] == ByteAfter(n, offset, data, count, i)
  {
  }

  /** So a read of any range after a write gives those bytes, and other files read as before. */
  lemma ReadOfWrite(t: Table, id: nat, offset: nat, data: seq<u8>, from: nat, capacity: nat, other: nat)
    requires Forest(t) && FileAt(t, id) && offset <= 256
    ensures var (u, count) := Write(t, id, offset, data);
            && count.Some? && |u| == |t| && count.value <= |data| && t[id - 1].length <= |t[id - 1].contents|
            && (from <= u[id - 1].length ==>
                  && Read(u, id, from, capacity).Some?
                  && forall i :: 0 <= i < |Read(u, id, from, capacity).value| ==>
                       Read(u, id, from, capacity).value[i] ==
                       ByteAfter(t[id - 1], offset, data, count.value, from + i))
            && (other != id ==> Read(u, other, from, capacity) == Read(t, other, from, capacity))
  {
    WriteIs(t, id, offset, data);
    WriteKeepsForest(t, id, offset, data);
    var u := Write(t, id, offset, data).0;
    ReadIs(u, id, from, capacity);
    hide ByteAfter, Forest, Write;
  }

  // ---- new and seeded files ----

  /** A file that create has just made is empty. */
  lemma NewFileIsEmpty(t: Table, base: nat, path: seq<u8>, capacity: nat)
    requires Forest(t) && ByteCreate(t, base, path, 2).0 != t
    ensures var (u, id) := ByteCreate(t, base, path, 2);
            id.Some? && FileAt(u, id.value) && u[id.value - 1].length == 0
            && Read(u, id.value, 0, capacity) == Some([])
  {
    var (u, id) := ByteCreate(t, base, path, 2);
    ByteCreateKeepsForest(t, base, path, 2);
    ReadIs(u, id.value, 0, capacity);
  }

  /** A seeded file reads as its text, or as nothing if the text has more than 256 bytes. */
  lemma SeededFileReads(seeds: seq<Seed>, i: nat)
    requires SeedsOk(seeds) && i < |seeds| && seeds[i].kind == 2
    ensures Read(Seeded(seeds, |seeds|), i + 1, 0, 256)
         == Some(if seeds[i].contents.Some? && |seeds[i].contents.value| <= 256 then seeds[i].contents.value else [])
  {
    var t := Seeded(seeds, |seeds|);
    SeededTree(seeds);
    TreeIsForest(t);
    SeededAt(seeds, i);
    var n := SeedNode(seeds[i]);
    assert FileBytes(n)[0..|FileBytes(n)|] == FileBytes(n);
    hide Seeded, SeedsOk, Forest, Tree;
  }

  /** A seed's name is stored up to its first 31 bytes. */
  lemma SeedNameStored(s: Seed)
    requires NonZero(s.name)
    ensures CText(SeedNode(s).name) == if |s.name| <= 31 then s.name else s.name[..31]
  {
    CTextPadded(Clip(s.name), NAME_CAPACITY - |Clip(s.name)|);
  }

  /** The kernel boots with 26 of 64 slots taken, so 38 more nodes fit. */
  lemma BootHasRoom(texts: seq<seq<u8>>, i: nat)
    requires |texts| == SEED_COUNT && i < 64
    ensures SeedsOk(BootSeeds(texts))
    ensures var t := Seeded(BootSeeds(texts), SEED_COUNT); |t| == 64 && (t[i].active <==> i < 26)
  {
    BootSeedsOk(texts);
    SeededAt(BootSeeds(texts), i);
  }

  // ---- listing ----

  predicate Increasing(cs: seq<nat>) {
    forall i, j :: 0 <= i < j < |cs| ==> cs[i] < cs[j]
  }

  predicate IsChild(t: Table, slot: nat, j: nat) {
    j < |t| && t[j].active && t[j].parent == slot + 1
  }

  /** The children of a slot among the first `k` slots: all live nodes that link to it, and no others. */
  predicate AreChildren(t: Table, slot: nat, k: nat, cs: seq<nat>) {
    && Increasing(cs)
    && (forall i :: 0 <= i < |cs| ==> cs[i] < k && IsChild(t, slot, cs[i]))
    && (forall j :: 0 <= j < k && IsChild(t, slot, j) ==> j in cs)
  }

  /** A line for each: the name, a slash behind a directory's, and a line end. */
  function Lines(t: Table, cs: seq<nat>): seq<u8>
    requires forall i :: 0 <= i < |cs| ==> cs[i] < |t|
  {
    if cs == [] then []
    else
      var n := t[cs[|cs| - 1]];
      Lines(t, cs[..|cs| - 1]) + (CText(n.name) + (if n.kind == 1 then [47] else []) + [10])
  }

  /** Without its last child, a child list lists the children below that slot. */
  lemma LastChild(t: Table, slot: nat, k: nat, cs: seq<nat>)
    requires AreChildren(t, slot, k + 1, cs) && IsChild(t, slot, k)
    ensures cs != [] && cs[|cs| - 1] == k && AreChildren(t, slot, k, cs[..|cs| - 1])
  {
    var i :| 0 <= i < |cs| && cs[i] == k;
    var n := |cs| - 1;
    forall j | 0 <= j < k && IsChild(t, slot, j)
      ensures j in cs[..n]
    {
      var a :| 0 <= a < |cs| && cs[a] == j;
      assert cs[..n][a] == j;
    }
  }

  lemma {:induction false} ListingOf(t: Table, slot: nat, k: nat, cs: seq<nat>)
    requires k <= |t| && AreChildren(t, slot, k, cs)
    ensures Listing(t, slot, k) == Lines(t, cs)
  {
    if k > 0 {
      if IsChild(t, slot, k - 1) {
        LastChild(t, slot, k - 1, cs);
        ListingOf(t, slot, k - 1, cs[..|cs| - 1]);
      } else {
        ListingOf(t, slot, k - 1, cs);
      }
    }
  }

  /** A directory's listing is one line for each of its children, in slot order. */
  lemma ListingIsLines(t: Table, slot: nat, cs: seq<nat>)
    requires AreChildren(t, slot, |t|, cs)
    ensures Listing(t, slot, |t|) == Lines(t, cs)
  {
    ListingOf(t, slot, |t|, cs);
  }

  /** A count of children is the length of their list. */
  lemma {:induction false} CountIsLength(t: Table, slot: nat, k: nat, cs: seq<nat>)
    requires k <= |t| && AreChildren(t, slot, k, cs)
    ensures ChildCount(t, slot, 0) == |cs| + ChildCount(t, slot, k)
  {
    if k > 0 {
      if IsChild(t, slot, k - 1) {
        LastChild(t, slot, k - 1, cs);
        CountIsLength(t, slot, k - 1, cs[..|cs| - 1]);
      } else {
        CountIsLength(t, slot, k - 1, cs);
      }
    }
  }

  // ---- a listing that does not fit ----

  /** The first child whose line does not fit, and the lines up to it. */
  lemma NextLine(t: Table, slot: nat, k: nat, before: seq<nat>)
    requires k < |t| && AreChildren(t, slot, k, before) && |Listing(t, slot, k)| < |Listing(t, slot, k + 1)|
    ensures IsChild(t, slot, k) && Listing(t, slot, k) == Lines(t, before)
    ensures Listing(t, slot, k + 1) == Lines(t, before + [k])
         == Lines(t, before) + (CText(t[k].name) + (if t[k].kind == 1 then [47] else []) + [10])
  {
    ListingOf(t, slot, k, before);
    assert (before + [k])[..|before|] == before;
    hide AreChildren;
  }

  lemma WithoutEnd(lines: seq<u8>, name: seq<u8>, capacity: nat)
    requires |lines + (name + [47] + [10])| == capacity + 1
    ensures (lines + (name + [47] + [10]))[..capacity] == lines + name + [47]
  {
  }

  /**
   A cut listing has the lines of the children before the first that does not fit; that child's
   line follows without its end if it is a directory's and only the end does not fit.
   */
  lemma CutIsLines(t: Table, slot: nat, capacity: nat, written: seq<u8>, k: nat, before: seq<nat>)
    requires CutAt(t, slot, capacity, k, written) && AreChildren(t, slot, k, before)
    ensures IsChild(t, slot, k) && |Lines(t, before)| <= capacity < |Lines(t, before + [k])|
    ensures written == if t[k].kind == 1 && |Lines(t, before + [k])| == capacity + 1
                       then Lines(t, before) + CText(t[k].name) + [47] else Lines(t, before)
  {
    hide Listing, Lines, CText;
    NextLine(t, slot, k, before);
    if t[k].kind == 1 && |Lines(t, before + [k])| == capacity + 1 {
      WithoutEnd(Lines(t, before), CText(t[k].name), capacity);
    }
  }
}
