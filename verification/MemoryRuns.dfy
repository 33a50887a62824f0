/**
 Who owns which memory over whole runs of the two allocators. The history remembers every
 early allocation and every claimed frame; the bitmap and the counter are proved to agree
 with it after every step, so no byte is ever handed out twice.
 */
module MemoryRuns {
  import opened Prelude
  import opened MemorySpec

  datatype Region = Region(start: nat, size: nat)

  datatype History = History(early: seq<Region>, claimed: set<nat>)

  /** The region and the frame have a byte in common. */
  predicate Touches(m: Memory, r: Region, f: nat) {
    r.size != 0 && r.start < FrameAddress(m, f) + PAGE && FrameAddress(m, f) < r.start + r.size
  }

  ghost predicate Touched(m: Memory, early: seq<Region>, f: nat) {
    exists i :: 0 <= i < |early| && Touches(m, early[i], f)
  }

  // ---- the owner of a frame ----

  /** A used frame is claimed or holds early bytes, never both; a free one is neither. */
  ghost predicate FrameOwned(m: Memory, h: History, f: nat)
    requires f < |m.used|
  {
    && (m.used[f] <==> f in h.claimed || Touched(m, h.early, f))
    && !(f in h.claimed && Touched(m, h.early, f))
  }

  /** Early allocations lie one after another between the heap's start and the bump address. */
  predicate InOrder(m: Memory, early: seq<Region>) {
    && (forall i :: 0 <= i < |early| ==> m.heapStart <= early[i].start && early[i].start + early[i].size <= m.current)
    && (forall i, j :: 0 <= i < j < |early| ==> early[i].start + early[i].size <= early[j].start)
  }

  ghost predicate Owned(m: Memory, h: History) {
    && Geometry(m)
    && InOrder(m, h.early)
    && (forall f :: f in h.claimed ==> f < |m.used|)
    && (forall f :: 0 <= f < |m.used| ==> FrameOwned(m, h, f))
    && m.freeCount == Clear(m.used)
  }

  // ---- ranges and counts ----

  lemma PageFloor(page: u32, x: u32, f: nat)
    requires page % PAGE == 0 && page <= x
    ensures AlignDown(x, PAGE) >= page
    ensures (AlignDown(x, PAGE) - page) / PAGE <= f <==> x < page + PAGE * f + PAGE
  {
  }

  lemma PageCeiling(page: u32, x: u32, f: nat)
    requires page % PAGE == 0 && page <= x <= U32_MODULUS - PAGE
    ensures AlignUp(x, PAGE) >= page
    ensures f < (AlignUp(x, PAGE) - page) / PAGE <==> page + PAGE * f < x
  {
  }

  /** The frames of a byte range are exactly those that share a byte with it; a range that wraps has none. */
  lemma RangeIsTouched(m: Memory, start: u32, size: u32, f: nat)
    requires Geometry(m) && f < m.frameCount
    ensures FrameRange(m, start, size).0 <= f < FrameRange(m, start, size).1 <==>
            start + size < U32_MODULUS && Touches(m, Region(start, size), f)
  {
    var lo, hi := Max(start, m.regionStart), Min(start + size, m.regionLimit);
    if size != 0 && lo < hi {
      PageFloor(m.regionStart, lo, f);
      PageCeiling(m.regionStart, hi, f);
    }
    hide AlignUp;
    hide AlignDown;
  }

  lemma {:induction false} ClearSet(used: seq<bool>, f: nat, on: bool)
    requires f < |used| && used[f] != on
    ensures Clear(used[f := on]) == if on then Clear(used) - 1 else Clear(used) + 1
  {
    var n := |used| - 1;
    if f < n {
      ClearSet(used[..n], f, on);
      assert used[f := on][..n] == used[..n][f := on];
    } else {
      assert used[f := on][..n] == used[..n];
    }
  }

  lemma {:induction false} ClearZeroIff(used: seq<bool>)
    ensures Clear(used) == 0 <==> forall f :: 0 <= f < |used| ==> used[f]
  {
    if used != [] {
      var n := |used| - 1;
      ClearZeroIff(used[..n]);
      assert forall f :: 0 <= f < n ==> used[..n][f] == used[f];
    }
  }

  lemma TakeCounts(m: Memory, f: nat)
    requires f < |m.used| && m.freeCount == Clear(m.used)
    ensures Take(m, f).freeCount == Clear(Take(m, f).used)
  {
    if !m.used[f] {
      ClearSet(m.used, f, true);
    }
  }

  /** Taking a range sets exactly its frames, keeps the rest of the state, and keeps the count right. */
  lemma {:induction false} TakeRangeFacts(m: Memory, first: nat, past: nat)
    requires past <= |m.used|
    ensures var r := TakeRange(m, first, past);
            && r == m.(used := r.used, freeCount := r.freeCount)
            && (forall f :: 0 <= f < |m.used| ==> r.used[f] == (m.used[f] || first <= f < past))
            && (m.freeCount == Clear(m.used) ==> r.freeCount == Clear(r.used))
    decreases past
  {
    hide Clear;
    if first < past {
      TakeRangeFacts(m, first, past - 1);
      var q := TakeRange(m, first, past - 1);
      if q.freeCount == Clear(q.used) {
        TakeCounts(q, past - 1);
      }
    }
  }

  lemma {:induction false} FirstFreeFacts(used: seq<bool>, from: nat)
    requires from <= |used|
    ensures var f := FirstFree(used, from);
            && (forall j :: from <= j < f ==> used[j])
            && (f < |used| ==> !used[f])
    decreases |used| - from
  {
    if from < |used| && used[from] {
      FirstFreeFacts(used, from + 1);
    }
  }

  // ---- steps ----

  datatype Step =
    | AllocateEarly(size: u32, alignment: u32)
    | ClaimFrame
    | ReleaseFrame(address: u32)

  /** The caller's side: alignments that do not wrap, and no release of a frame with early bytes. */
  ghost predicate Legal(m: Memory, h: History, step: Step)
    requires Geometry(m)
  {
    match step
    case AllocateEarly(_, alignment) => NoWrap(m, alignment)
    case ClaimFrame => true
    case ReleaseFrame(address) =>
      var f := FrameOf(m, address);
      f.Some? ==> !Touched(m, h.early, f.value)
  }

  ghost function Apply(m: Memory, h: History, step: Step): (Memory, History)
    requires Geometry(m) && Legal(m, h, step)
  {
    match step
    case AllocateEarly(size, alignment) =>
      var (n, a) := EarlyAlloc(m, size, alignment);
      (n, if a.None? then h else h.(early := h.early + [Region(a.value, size)]))
    case ClaimFrame =>
      var f := FirstFree(m.used, 0);
      (Claim(m).0, if f == |m.used| then h else h.(claimed := h.claimed + {f}))
    case ReleaseFrame(address) =>
      var f := FrameOf(m, address);
      (Release(m, address), if f.None? then h else h.(claimed := h.claimed - {f.value}))
  }

  lemma TouchedSnoc(m: Memory, early: seq<Region>, r: Region, f: nat)
    ensures Touched(m, early + [r], f) <==> Touched(m, early, f) || Touches(m, r, f)
  {
    hide Touches;
    var all := early + [r];
    if Touched(m, early, f) {
      var i :| 0 <= i < |early| && Touches(m, early[i], f);
      assert Touches(m, all[i], f);
    }
    if Touches(m, r, f) {
      assert Touches(m, all[|early|], f);
    }
  }

  /** Where the early regions and the frames lie decides who is touched. */
  lemma TouchedSame(m: Memory, n: Memory, early: seq<Region>, f: nat)
    requires m.regionStart == n.regionStart
    ensures Touched(m, early, f) <==> Touched(n, early, f)
  {
    assert forall r :: Touches(m, r, f) <==> Touches(n, r, f);
  }

  /** An accepted address is at or past the bump address, ends in the heap, and all its frames are free. */
  lemma RawIsFree(m: Memory, size: u32, alignment: u32, f: nat)
    requires Geometry(m) && NoWrap(m, alignment) && Raw(m, size, alignment).Some? && f < |m.used|
    ensures var a := Raw(m, size, alignment).value;
            && m.current <= a && a + size <= m.limit
            && (Touches(m, Region(a, size), f) ==> !m.used[f])
  {
    AlignUpGrows(m.current, alignment);
    RawFacts(m, AlignUp(m.current, alignment), size, alignment);
    RangeIsTouched(m, Raw(m, size, alignment).value, size, f);
    hide FrameRange;
    hide AlignUp;
    hide RawFrom;
    hide Touches;
  }

  lemma ReserveFacts(m: Memory, start: u32, size: u32)
    requires Geometry(m) && start + size < U32_MODULUS
    ensures var n := Reserve(m, start, size);
            && n == m.(used := n.used, freeCount := n.freeCount)
            && |n.used| == |m.used|
            && (forall f :: 0 <= f < |m.used| ==>
                  n.used[f] == (m.used[f] || Touches(m, Region(start, size), f)))
            && (m.freeCount == Clear(m.used) ==> n.freeCount == Clear(n.used))
  {
    var r := FrameRange(m, start, size);
    TakeRangeFacts(m, r.0, r.1);
    forall f | 0 <= f < |m.used|
      ensures r.0 <= f < r.1 <==> Touches(m, Region(start, size), f)
    {
      RangeIsTouched(m, start, size, f);
    }
    hide FrameRange;
    hide Touches;
    hide TakeRange;
  }

  /** One more early region past the others, its frames free until now and used from now on. */
  ghost predicate Added(m: Memory, r: Region, n: Memory) {
    && m.current <= r.start && r.start + r.size <= m.limit
    && n == m.(current := r.start + r.size, used := n.used, freeCount := n.freeCount)
    && |n.used| == |m.used|
    && (forall f :: 0 <= f < |m.used| ==> n.used[f] == (m.used[f] || Touches(m, r, f)))
    && (forall f :: 0 <= f < |m.used| ==> Touches(m, r, f) ==> !m.used[f])
    && n.freeCount == Clear(n.used)
  }

  lemma AddedOwned(m: Memory, h: History, r: Region, n: Memory)
    requires Owned(m, h) && Added(m, r, n)
    ensures Owned(n, h.(early := h.early + [r]))
  {
    hide Touches;
    hide Clear;
    var h' := h.(early := h.early + [r]);
    forall f | 0 <= f < |n.used|
      ensures FrameOwned(n, h', f)
    {
      assert FrameOwned(m, h, f);
      TouchedSnoc(m, h.early, r, f);
      TouchedSame(m, n, h'.early, f);
    }
  }

  lemma EarlyAdds(m: Memory, size: u32, alignment: u32)
    requires Geometry(m) && NoWrap(m, alignment) && m.freeCount == Clear(m.used)
    ensures var (n, a) := EarlyAlloc(m, size, alignment);
            if a.None? then n == m else Added(m, Region(a.value, size), n)
  {
    hide Raw;
    hide Reserve;
    hide Touches;
    hide Clear;
    var a := Raw(m, size, alignment);
    if a.Some? {
      RawInHeap(m, size, alignment);
      var r := Region(a.value, size);
      forall f | 0 <= f < |m.used|
        ensures Touches(m, r, f) ==> !m.used[f]
      {
        RawIsFree(m, size, alignment, f);
      }
      var m' := m.(current := a.value + size);
      ReserveFacts(m', a.value, size);
      forall f | 0 <= f < |m.used|
        ensures Touches(m, r, f) == Touches(m', r, f)
      {
        SameTouch(m, m', r, f);
      }
    }
  }

  lemma EarlyKeepsOwned(m: Memory, h: History, size: u32, alignment: u32)
    requires Owned(m, h) && NoWrap(m, alignment)
    ensures var (n, h') := Apply(m, h, AllocateEarly(size, alignment)); Owned(n, h')
  {
    EarlyAdds(m, size, alignment);
    var (n, a) := EarlyAlloc(m, size, alignment);
    hide EarlyAlloc;
    if a.Some? {
      AddedOwned(m, h, Region(a.value, size), n);
    }
    hide Owned;
  }

  lemma SameTouch(m: Memory, n: Memory, r: Region, f: nat)
    requires m.regionStart == n.regionStart
    ensures Touches(m, r, f) == Touches(n, r, f)
  {
  }

  lemma RawInHeap(m: Memory, size: u32, alignment: u32)
    requires Geometry(m) && NoWrap(m, alignment) && Raw(m, size, alignment).Some?
    ensures m.current <= Raw(m, size, alignment).value && Raw(m, size, alignment).value + size <= m.limit
  {
    AlignUpGrows(m.current, alignment);
    RawFacts(m, AlignUp(m.current, alignment), size, alignment);
  }

  lemma ClaimKeepsOwned(m: Memory, h: History)
    requires Owned(m, h)
    ensures var (n, h') := Apply(m, h, ClaimFrame); Owned(n, h')
  {
    var f := FirstFree(m.used, 0);
    FirstFreeFacts(m.used, 0);
    if f < |m.used| {
      var n, h' := Take(m, f), h.(claimed := h.claimed + {f});
      TakeCounts(m, f);
      forall g | 0 <= g < |n.used|
        ensures FrameOwned(n, h', g)
      {
        assert FrameOwned(m, h, g);
        TouchedSame(m, n, h.early, g);
      }
    }
  }

  lemma ReleaseKeepsOwned(m: Memory, h: History, address: u32)
    requires Owned(m, h) && Legal(m, h, ReleaseFrame(address))
    ensures var (n, h') := Apply(m, h, ReleaseFrame(address)); Owned(n, h')
  {
    var f := FrameOf(m, address);
    if f.Some? {
      var n, h' := Release(m, address), h.(claimed := h.claimed - {f.value});
      assert FrameOwned(m, h, f.value);
      if m.used[f.value] {
        ClearSet(m.used, f.value, false);
      }
      forall g | 0 <= g < |n.used|
        ensures FrameOwned(n, h', g)
      {
        assert FrameOwned(m, h, g);
        TouchedSame(m, n, h.early, g);
      }
    }
  }

  // ---- whole runs ----

  ghost predicate LegalRun(m: Memory, h: History, steps: seq<Step>)
    requires Owned(m, h)
    decreases steps
  {
    steps == [] ||
    (Legal(m, h, steps[0]) &&
     (StepKeepsOwned(m, h, steps[0]); var (n, h') := Apply(m, h, steps[0]); LegalRun(n, h', steps[1..])))
  }

  ghost function Run(m: Memory, h: History, steps: seq<Step>): (Memory, History)
    requires Owned(m, h) && LegalRun(m, h, steps)
    decreases steps
  {
    if steps == [] then (m, h)
    else
      StepKeepsOwned(m, h, steps[0]);
      var (n, h') := Apply(m, h, steps[0]);
      Run(n, h', steps[1..])
  }

  lemma StepKeepsOwned(m: Memory, h: History, step: Step)
    requires Owned(m, h) && Legal(m, h, step)
    ensures var (n, h') := Apply(m, h, step); Owned(n, h')
  {
    match step
    case AllocateEarly(size, alignment) => EarlyKeepsOwned(m, h, size, alignment);
    case ClaimFrame => ClaimKeepsOwned(m, h);
    case ReleaseFrame(address) => ReleaseKeepsOwned(m, h, address);
  }

  lemma {:induction false} RunKeepsOwned(m: Memory, h: History, steps: seq<Step>)
    requires Owned(m, h) && LegalRun(m, h, steps)
    ensures var (n, h') := Run(m, h, steps); Owned(n, h')
    decreases steps
  {
    hide FrameOwned;
    hide InOrder;
    hide Clear;
    if steps != [] {
      StepKeepsOwned(m, h, steps[0]);
      var (n, h') := Apply(m, h, steps[0]);
      RunKeepsOwned(n, h', steps[1..]);
    }
  }

  /** Two ranges of bytes have none in common. */
  predicate Apart(a: Region, b: Region) {
    a.size == 0 || b.size == 0 || a.start + a.size <= b.start || b.start + b.size <= a.start
  }

  /** Everything handed out and not given back is pairwise disjoint. */
  ghost predicate AllApart(m: Memory, h: History) {
    && (forall i, j :: 0 <= i < j < |h.early| ==> Apart(h.early[i], h.early[j]))
    && (forall i, f :: 0 <= i < |h.early| && f in h.claimed ==> Apart(h.early[i], Region(FrameAddress(m, f), PAGE)))
    && (forall f, g :: f in h.claimed && g in h.claimed && f != g ==>
          Apart(Region(FrameAddress(m, f), PAGE), Region(FrameAddress(m, g), PAGE)))
  }

  lemma OwnedApart(m: Memory, h: History)
    requires Owned(m, h)
    ensures AllApart(m, h)
  {
    forall i, f | 0 <= i < |h.early| && f in h.claimed
      ensures Apart(h.early[i], Region(FrameAddress(m, f), PAGE))
    {
      assert FrameOwned(m, h, f);
      assert !Touches(m, h.early[i], f);
    }
  }

  // ---- the claim ----

  /** A claim takes the lowest free frame, which nobody owns; it fails exactly when the count is zero. */
  lemma ClaimLowest(m: Memory, h: History)
    requires Owned(m, h)
    ensures Claim(m).1 == INVALID_FRAME <==> m.freeCount == 0
    ensures m.freeCount != 0 ==>
              exists f :: 0 <= f < |m.used| && !m.used[f] && (forall g :: 0 <= g < f ==> m.used[g])
                          && Claim(m).1 == FrameAddress(m, f) && f !in h.claimed && !Touched(m, h.early, f)
    ensures m.freeCount == 0 ==> Claim(m).0 == m
  {
    var f := FirstFree(m.used, 0);
    FirstFreeFacts(m.used, 0);
    ClearZeroIff(m.used);
    if f < |m.used| {
      assert FrameOwned(m, h, f);
    }
  }

  /** The guards before each decrement never fail: the counter is positive whenever a free frame is taken. */
  lemma GuardNeverFails(m: Memory, h: History, f: nat)
    requires Owned(m, h) && f < |m.used| && !m.used[f]
    ensures m.freeCount != 0
  {
    ClearZeroIff(m.used);
  }

  // ---- the release ----

  /** Releasing an address keeps ownership intact exactly when its frame holds no early bytes. */
  lemma ReleaseSafeIff(m: Memory, h: History, address: u32)
    requires Owned(m, h) && FrameOf(m, address).Some?
    ensures Owned(Release(m, address), h.(claimed := h.claimed - {FrameOf(m, address).value})) <==>
            Legal(m, h, ReleaseFrame(address))
  {
    var f := FrameOf(m, address).value;
    var n, h' := Release(m, address), h.(claimed := h.claimed - {f});
    assert FrameOwned(m, h, f);
    if Legal(m, h, ReleaseFrame(address)) {
      ReleaseKeepsOwned(m, h, address);
    } else {
      TouchedSame(m, n, h.early, f);
      assert !FrameOwned(n, h', f);
    }
  }

  /** And there is such an address in every booted memory: releasing the bitmap's own first frame is unsafe. */
  lemma BitmapReleaseUnsafe(conventional: u32, extended: u32, kernelEnd: u32)
    requires BootFits(conventional, extended, kernelEnd) && Boot(conventional, extended, kernelEnd).mapped
    ensures var m := Boot(conventional, extended, kernelEnd);
            var h := BootHistory(m);
            && Owned(m, h) && FrameOf(m, m.regionStart) == Some(0) && m.used[0]
            && !Legal(m, h, ReleaseFrame(m.regionStart))
            && !Owned(Release(m, m.regionStart), h.(claimed := h.claimed - {0}))
  {
    var m := Boot(conventional, extended, kernelEnd);
    var h := BootHistory(m);
    BootOwned(conventional, extended, kernelEnd);
    hide Boot;
    assert FrameOf(m, m.regionStart) == Some(0);
    assert Touches(m, h.early[0], 0);
    assert FrameOwned(m, h, 0);
    ReleaseSafeIff(m, h, m.regionStart);
  }

  // ---- the search of the bump allocator ----

  /** The `k`-th address that the search tries. */
  function Candidate(m: Memory, alignment: u32, k: nat): u32 {
    if k == 0 then AlignUp(m.current, alignment) else Next(Candidate(m, alignment, k - 1), alignment)
  }

  predicate HasRoom(m: Memory, start: u32, size: u32) {
    start < m.limit && start + size <= m.limit
  }

  lemma {:induction false} RawFromFirst(m: Memory, size: u32, alignment: u32, j: nat) returns (k: nat)
    requires Geometry(m) && NoWrap(m, alignment)
    ensures j <= k
    ensures forall i :: j <= i < k ==> HasRoom(m, Candidate(m, alignment, i), size)
                                       && IsReserved(m, Candidate(m, alignment, i), size)
    ensures match RawFrom(m, Candidate(m, alignment, j), size, alignment)
            case None => !HasRoom(m, Candidate(m, alignment, k), size)
            case Some(a) => a == Candidate(m, alignment, k) && HasRoom(m, a, size) && !IsReserved(m, a, size)
    decreases m.limit - Candidate(m, alignment, j)
  {
    hide IsReserved;
    hide Geometry;
    var start := Candidate(m, alignment, j);
    if HasRoom(m, start, size) && IsReserved(m, start, size) {
      NextGrows(m, start, alignment);
      assert Candidate(m, alignment, j + 1) == Next(start, alignment);
      hide Next;
      k := RawFromFirst(m, size, alignment, j + 1);
    } else {
      k := j;
    }
  }

  /** The search takes the first candidate that is not reserved, and gives up only at the heap's end. */
  lemma RawIsFirst(m: Memory, size: u32, alignment: u32) returns (k: nat)
    requires Geometry(m) && NoWrap(m, alignment)
    ensures forall i :: 0 <= i < k ==> HasRoom(m, Candidate(m, alignment, i), size)
                                       && IsReserved(m, Candidate(m, alignment, i), size)
    ensures match Raw(m, size, alignment)
            case None => !HasRoom(m, Candidate(m, alignment, k), size)
            case Some(a) => a == Candidate(m, alignment, k) && HasRoom(m, a, size) && !IsReserved(m, a, size)
  {
    k := RawFromFirst(m, size, alignment, 0);
  }

  // ---- boot ----

  lemma {:induction false} ClearOfNone(n: nat)
    ensures Clear(seq(n, _ => false)) == n
  {
    if n != 0 {
      ClearOfNone(n - 1);
      var all := seq(n, _ => false);
      assert all[..n - 1] == seq(n - 1, _ => false);
    }
  }

  /** What has been handed out after initialisation: the bitmap itself, if there is one. */
  ghost function BootHistory(m: Memory): History {
    History(if m.mapped then [Region(m.heapStart, BitmapBytes(m.frameCount))] else [], {})
  }

  /** A fresh region whose bitmap has just been placed at its start. */
  lemma BitmapOwned(m: Memory)
    requires Geometry(m) && m.mapped && m.current == m.heapStart + BitmapBytes(m.frameCount)
    requires m.freeCount == m.frameCount && m.used == seq(m.frameCount, _ => false)
    ensures var n := Reserve(m, m.regionStart, m.current - m.regionStart);
            n.mapped && n.heapStart == m.heapStart && n.frameCount == m.frameCount && Owned(n, BootHistory(n))
  {
    hide Reserve;
    hide Touches;
    hide Clear;
    hide BitmapBytes;
    var empty := m.(current := m.heapStart);
    var r := Region(m.heapStart, BitmapBytes(m.frameCount));
    ClearOfNone(m.frameCount);
    ReserveFacts(m, m.regionStart, m.current - m.regionStart);
    forall f | 0 <= f < |m.used|
      ensures Touches(empty, r, f) == Touches(m, r, f)
    {
      SameTouch(empty, m, r, f);
    }
    EmptyOwned(empty);
    var n := Reserve(m, m.regionStart, m.current - m.regionStart);
    AddedOwned(empty, History([], {}), r, n);
    assert [] + [r] == [r];
  }

  lemma PlacedOwned(base: u32, limit: u32)
    requires base % PAGE == 0 && base <= limit
    ensures Owned(Placed(base, limit), BootHistory(Placed(base, limit)))
  {
    hide Reserve;
    hide Touches;
    hide FrameOwned;
    var past := AlignDown(limit, PAGE);
    if past <= base {
      EmptyOwned(Placed(base, limit));
    } else {
      var frames := (past - base) / PAGE;
      BootGeometry(base, limit, frames);
      hide AlignDown;
      hide BitmapBytes;
      hide Owned;
      BitmapOwned(Memory(base, base + BitmapBytes(frames), limit, base, past, frames, frames, true,
                         seq(frames, _ => false)));
    }
  }

  lemma BootOwned(conventional: u32, extended: u32, kernelEnd: u32)
    requires BootFits(conventional, extended, kernelEnd)
    ensures var m := Boot(conventional, extended, kernelEnd); Owned(m, BootHistory(m))
  {
    BaseAligned(extended, kernelEnd);
    PlacedOwned(HeapBase(extended, kernelEnd), HeapLimit(conventional, extended, kernelEnd));
    hide Placed;
    hide Owned;
  }

  lemma EmptyOwned(m: Memory)
    requires Geometry(m) && m.freeCount == Clear(m.used) && forall f :: 0 <= f < |m.used| ==> !m.used[f]
    ensures Owned(m, History([], {}))
  {
  }

  ghost predicate LegalFromBoot(conventional: u32, extended: u32, kernelEnd: u32, steps: seq<Step>)
    requires BootFits(conventional, extended, kernelEnd)
  {
    BootOwned(conventional, extended, kernelEnd);
    var m := Boot(conventional, extended, kernelEnd);
    LegalRun(m, BootHistory(m), steps)
  }

  ghost function RunFromBoot(conventional: u32, extended: u32, kernelEnd: u32, steps: seq<Step>): (Memory, History)
    requires BootFits(conventional, extended, kernelEnd) && LegalFromBoot(conventional, extended, kernelEnd, steps)
  {
    BootOwned(conventional, extended, kernelEnd);
    var m := Boot(conventional, extended, kernelEnd);
    Run(m, BootHistory(m), steps)
  }

  /** From boot, over every legal run of the two allocators, nothing handed out overlaps. */
  lemma EveryRunFromBootApart(conventional: u32, extended: u32, kernelEnd: u32, steps: seq<Step>)
    requires BootFits(conventional, extended, kernelEnd) && LegalFromBoot(conventional, extended, kernelEnd, steps)
    ensures var (n, h) := RunFromBoot(conventional, extended, kernelEnd, steps); Owned(n, h) && AllApart(n, h)
  {
    hide Boot;
    hide Owned;
    hide LegalRun;
    hide AllApart;
    BootOwned(conventional, extended, kernelEnd);
    var m := Boot(conventional, extended, kernelEnd);
    RunKeepsOwned(m, BootHistory(m), steps);
    var (n, h) := Run(m, BootHistory(m), steps);
    OwnedApart(n, h);
  }
}
