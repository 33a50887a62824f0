/**
 When a comparison can read past a name buffer: exactly for segments of 32 bytes or more whose
 32nd byte is NUL, and for each of those after one create from boot. Paths without such a
 segment, NUL-free ones among them, are read within the buffers of every forest.
 */
module RamfsOverrun {
  import opened Prelude
  import opened CStrings
  import opened RamfsPath
  import opened RamfsTable
  import opened RamfsRuns
  import opened RamfsSeed
  import opened RamfsBytes
  import opened RamfsForest
  import opened RamfsNul

  predicate InBounds(segment: Segment) {
    |segment| < NAME_CAPACITY || segment[NAME_CAPACITY - 1] != 0
  }

  /** The comparison with the buffer of a stored leaf runs past it. */
  predicate StoredOverruns(l: seq<u8>, segment: seq<u8>) {
    l != [] && |l| < NAME_CAPACITY && Overruns(Padded(l), segment)
  }

  /** Some stored leaf makes the comparison run past its buffer exactly when the segment is not in bounds. */
  lemma OverrunIff(segment: seq<u8>)
    ensures (exists l :: StoredOverruns(l, segment)) <==> !InBounds(segment)
  {
    forall l | StoredOverruns(l, segment)
      ensures !InBounds(segment)
    {
      assert Padded(l)[NAME_CAPACITY - 1] == 0;
    }
    if !InBounds(segment) {
      FullOverruns(segment);
      assert StoredOverruns(segment[..NAME_CAPACITY - 1], segment);
    }
  }

  lemma FullOverruns(segment: seq<u8>)
    requires !InBounds(segment)
    ensures Overruns(Padded(segment[..NAME_CAPACITY - 1]), segment)
  {
    var l := segment[..NAME_CAPACITY - 1];
    assert Padded(l) == l + [0];
    assert segment[..NAME_CAPACITY] == l + [segment[NAME_CAPACITY - 1]];
  }

  // ---- paths in bounds ----

  predicate AllInBounds(segs: seq<Segment>) {
    forall k :: 0 <= k < |segs| ==> InBounds(segs[k])
  }

  lemma InBoundsStays(t: Table, slot: nat, seg: Segment)
    requires Forest(t) && InBounds(seg)
    ensures !LookupOverruns(t, slot, seg)
  {
    forall j | 0 <= j < |t| && t[j].active
      ensures !Overruns(t[j].name, seg)
    {
      assert SlotSound(t, j);
    }
  }

  lemma {:induction false} InBoundsWalk(t: Table, i: nat, segs: seq<Segment>)
    requires Forest(t) && AllInBounds(segs)
    ensures !WalkOverruns(t, i, segs)
    decreases segs
  {
    if segs != [] {
      InBoundsStays(t, i, segs[0]);
      if ByteChild(t, i, segs[0]).Some? {
        InBoundsWalk(t, ByteChild(t, i, segs[0]).value, segs[1..]);
      }
    }
  }

  /** A path of segments in bounds is readable in every forest, from every base. */
  lemma InBoundsReadable(t: Table, base: nat, path: seq<u8>)
    requires Forest(t) && AllInBounds(Segments(path))
    ensures Readable(t, base, path)
  {
    if BaseOk(t, base, path) {
      InBoundsWalk(t, base - 1, Segments(path));
    }
  }

  lemma PlainIsReadable(t: Table, base: nat, path: seq<u8>)
    requires Forest(t) && NonZero(path)
    ensures Readable(t, base, path)
  {
    PlainSegments(path);
    forall k | 0 <= k < |Segments(path)|
      ensures InBounds(Segments(path)[k])
    {
      assert Segments(path)[k] in Segments(path);
    }
    InBoundsReadable(t, base, path);
  }

  lemma PlainMoveIsReadable(t: Table, sb: nat, sp: seq<u8>, db: nat, dp: seq<u8>)
    requires Forest(t) && NonZero(sp) && NonZero(dp)
    ensures MoveReadable(t, sb, sp, db, dp)
  {
    PlainIsReadable(t, sb, sp);
    PlainIsReadable(t, db, dp);
    ReadablePathsMove(t, sb, sp, db, dp);
  }

  // ---- the overrun as a run ----

  /** A node that the first 31 bytes name makes the lookup of the whole segment overrun. */
  lemma MatchOverruns(t: Table, p: nat, segment: seq<u8>, c: nat)
    requires Forest(t) && !InBounds(segment) && c < |t| && ByteMatches(t[c], p + 1, segment[..NAME_CAPACITY - 1])
    ensures LookupOverruns(t, p, segment)
  {
    var l, b := segment[..NAME_CAPACITY - 1], t[c].name;
    assert SlotSound(t, c);
    assert b == b[..NAME_CAPACITY - 1] + [b[NAME_CAPACITY - 1]];
    assert segment[..NAME_CAPACITY] == l + [segment[NAME_CAPACITY - 1]];
    assert Overruns(t[c].name, segment);
  }

  lemma OwnSegments(segment: seq<u8>)
    requires SLASH !in segment
    ensures Segments(segment) == if segment == [] || segment == DOT_SEGMENT then [] else [segment]
  {
    if segment != [] {
      RunLengthIs(segment, |segment|);
      assert segment[..|segment|] == segment && segment[|segment|..] == [];
      assert RawSegments(segment) == [segment];
      assert [segment][1..] == [];
      assert DropDots([segment]) == if segment == DOT_SEGMENT then [] else [segment];
    }
  }

  /** After creating its first 31 bytes, looking the segment up reads past a buffer. */
  lemma CreateThenOverrun(t: Table, base: nat, segment: seq<u8>, kind: nat)
    requires Forest(t) && IsDirectory(t, base) && !InBounds(segment) && SLASH !in segment
    requires (kind == DIRECTORY || kind == FILE) && FirstFree(t, 0).Some?
    ensures !Readable(ByteCreate(t, base, segment[..NAME_CAPACITY - 1], kind).0, base, segment)
  {
    var l := segment[..NAME_CAPACITY - 1];
    var u, p := ByteCreate(t, base, l, kind).0, base - 1;
    SingleWalk(t, base, l);
    ByteCreateKeepsForest(t, base, l, kind);
    assert LookupOverruns(u, p, segment) by {
      if ByteChild(t, p, l).Some? {
        MatchOverruns(t, p, segment, ByteChild(t, p, l).value);
      } else {
        var k := FirstFree(t, 0).value;
        assert Padded(l)[..|l|] == l;
        MatchOverruns(u, p, segment, k);
      }
    }
    OwnSegments(segment);
  }

  lemma AlwaysReadable(t: Table, ops: seq<Op>, base: nat, segment: seq<u8>)
    requires Forest(t) && SLASH !in segment && InBounds(segment)
    ensures Readable(ByteRun(t, ops), base, segment)
  {
    ByteRunKeepsForest(t, ops);
    OwnSegments(segment);
    InBoundsReadable(ByteRun(t, ops), base, segment);
  }

  lemma RunOfOne(t: Table, op: Op)
    ensures ByteRun(t, [op]) == ByteApply(t, op)
  {
    assert [op][1..] == [];
  }

  lemma BootOverruns(texts: seq<seq<u8>>, segment: seq<u8>)
    requires |texts| == SEED_COUNT && SLASH !in segment && !InBounds(segment)
    ensures SeedsOk(BootSeeds(texts))
    ensures var op := CreateOp(ROOT, segment[..NAME_CAPACITY - 1], FILE);
            !Readable(ByteRun(Seeded(BootSeeds(texts), SEED_COUNT), [op]), ROOT, segment)
  {
    BootIsFree(texts);
    var t := Seeded(BootSeeds(texts), SEED_COUNT);
    TreeIsForest(t);
    hide Tree, Forest, Seeded, Readable, ByteRun, ByteCreate;
    CreateThenOverrun(t, ROOT, segment, FILE);
    RunOfOne(t, CreateOp(ROOT, segment[..NAME_CAPACITY - 1], FILE));
  }

  /** From boot, a segment is read within the buffers after every run exactly when it is in bounds. */
  lemma ReadableFromBootIff(texts: seq<seq<u8>>, segment: seq<u8>)
    requires |texts| == SEED_COUNT && SLASH !in segment
    ensures SeedsOk(BootSeeds(texts))
    ensures (forall ops: seq<Op> :: Readable(ByteRun(Seeded(BootSeeds(texts), SEED_COUNT), ops), ROOT, segment))
            <==> InBounds(segment)
  {
    BootIsFree(texts);
    var t := Seeded(BootSeeds(texts), SEED_COUNT);
    TreeIsForest(t);
    hide Tree, Forest, Seeded, Readable, ByteRun;
    if InBounds(segment) {
      forall ops: seq<Op>
        ensures Readable(ByteRun(t, ops), ROOT, segment)
      {
        AlwaysReadable(t, ops, ROOT, segment);
      }
    } else {
      BootOverruns(texts, segment);
    }
  }
}
