/**
 Where the memory that is handed out lies, in terms of what the boot loader reported: the heap
 and its frames at boot, the addresses that an early allocation tries, and that nothing ever
 handed out leaves the reported memory. Sizes and addresses are written out as numbers here.
 */
module MemoryMap {
  import opened Prelude
  import opened MemorySpec
  import opened MemoryRuns

  // ---- rounding ----

  /** Rounding up gives the least multiple that is not below. */
  lemma AlignUpLeast(value: u32, alignment: u32, multiple: nat)
    requires 1 <= alignment && value + alignment <= U32_MODULUS
    ensures value <= AlignUp(value, alignment) < value + alignment && AlignUp(value, alignment) % alignment == 0
    ensures multiple % alignment == 0 && value <= multiple ==> AlignUp(value, alignment) <= multiple
  {
    AlignUpGrows(value, alignment);
    var up := AlignUp(value, alignment);
    if alignment > 1 {
      assert up < value + alignment;
      if multiple % alignment == 0 && value <= multiple < up {
        var d := up / alignment - multiple / alignment;
        assert up == alignment * (up / alignment) && multiple == alignment * (multiple / alignment);
        assert alignment * d == up - multiple by { Distributes(alignment, up / alignment, multiple / alignment); }
        NoMultipleBetween(alignment, d);
      }
    }
  }

  lemma Distributes(n: int, x: int, y: int)
    ensures n * (x - y) == n * x - n * y
  {
  }

  // ---- the heap and its frames at boot ----

  /** A heap from `lo` to `hi` with every whole page a frame, and a bitmap of a bit each at its start. */
  predicate Maps(m: Memory, lo: nat, hi: nat) {
    && m.heapStart == m.regionStart == lo && m.limit == hi
    && m.frameCount == |m.used| == (hi - lo) / 4096
    && (m.mapped <==> lo + 4096 <= hi)
  }

  /** The bitmap takes the fewest whole words that have a bit for every frame. */
  predicate BitmapFits(m: Memory) {
    var bytes := m.current - m.heapStart;
    && bytes >= 0 && bytes % 4 == 0
    && 8 * bytes >= m.frameCount && (bytes > 0 ==> 8 * (bytes - 4) < m.frameCount)
  }

  lemma {:induction false} TakenAre(m: Memory, first: nat, past: nat)
    requires past <= |m.used|
    ensures TakeRange(m, first, past) == m.(used := TakeRange(m, first, past).used,
                                            freeCount := TakeRange(m, first, past).freeCount)
  {
    TakeRangeFacts(m, first, past);
  }

  predicate SameMap(m: Memory, n: Memory) {
    && n.heapStart == m.heapStart && n.regionStart == m.regionStart && n.limit == m.limit
    && n.frameCount == m.frameCount && n.mapped == m.mapped && |n.used| == |m.used|
  }

  lemma ReserveKeepsMap(m: Memory, start: u32, size: u32)
    requires Geometry(m)
    ensures SameMap(m, Reserve(m, start, size))
  {
    var r := FrameRange(m, start, size);
    hide FrameRange;
    TakenAre(m, r.0, r.1);
  }

  lemma BitmapWords(frames: nat)
    ensures BitmapBytes(frames) % 4 == 0 && 8 * BitmapBytes(frames) >= frames
    ensures BitmapBytes(frames) > 0 ==> 8 * (BitmapBytes(frames) - 4) < frames
  {
    var words := (frames + 31) / 32;
    assert BitmapBytes(frames) == 4 * words && frames <= 32 * words < frames + 32;
  }

  lemma PlacedMaps(base: u32, limit: u32)
    requires base % PAGE == 0 && base <= limit
    ensures Maps(Placed(base, limit), base, limit) && BitmapFits(Placed(base, limit))
  {
    WholePages(base, limit);
    var past := AlignDown(limit, PAGE);
    assert past == limit - limit % 4096;
    if past > base {
      var frames := (past - base) / PAGE;
      BootGeometry(base, limit, frames);
      BitmapWords(frames);
      hide AlignDown, BitmapBytes;
      var m := Memory(base, base + BitmapBytes(frames), limit, base, past, frames, frames, true,
                      seq(frames, _ => false));
      ReserveKeepsMap(m, base, m.current - base);
      ReserveKeepsBump(m, base, m.current - base);
      hide Reserve;
    }
  }

  lemma ReserveKeepsBump(m: Memory, start: u32, size: u32)
    requires Geometry(m)
    ensures Reserve(m, start, size).current == m.current
  {
    var r := FrameRange(m, start, size);
    hide FrameRange;
    TakenAre(m, r.0, r.1);
  }

  lemma WholePages(base: nat, limit: nat)
    requires base % 4096 == 0 && base <= limit
    ensures (limit - limit % 4096 - base) / 4096 == (limit - base) / 4096
  {
  }

  /** With extended memory the heap is exactly that memory, from one megabyte up. */
  lemma ExtendedMap(conventional: u32, extended: u32, kernelEnd: u32)
    requires extended != 0 && 0x10_0000 + extended + 8208 <= 0x1_0000_0000 && 0 < kernelEnd <= 0xFFFF_F000
    ensures BootFits(conventional, extended, kernelEnd)
    ensures var m := Boot(conventional, extended, kernelEnd);
            Maps(m, 0x10_0000, 0x10_0000 + extended) && BitmapFits(m)
  {
    PlacedMaps(0x10_0000, 0x10_0000 + extended);
    hide Placed;
  }

  /** A size whose end wraps leaves an empty heap. */
  lemma WrappedMap(conventional: u32, extended: u32, kernelEnd: u32)
    requires 0x10_0000 + extended >= 0x1_0000_0000 && 0 < kernelEnd <= 0xFFFF_F000
    ensures BootFits(conventional, extended, kernelEnd)
    ensures Maps(Boot(conventional, extended, kernelEnd), 0x10_0000, 0x10_0000)
  {
    PlacedMaps(0x10_0000, 0x10_0000);
    hide Placed;
  }

  /** Without it, the whole pages of conventional memory behind the kernel. */
  lemma ConventionalMap(conventional: u32, kernelEnd: u32, first: nat)
    requires 0 < kernelEnd && conventional <= 0xFFFF_DFF0 && kernelEnd <= 0xFFFF_CFF0
    requires first % 4096 == 0 && kernelEnd <= first < kernelEnd + 4096
    ensures BootFits(conventional, 0, kernelEnd)
    ensures var m := Boot(conventional, 0, kernelEnd);
            var last := conventional - conventional % 4096;
            Maps(m, first, if last < first then first else last) && BitmapFits(m)
  {
    AlignUpLeast(kernelEnd, 4096, first);
    FirstPage(kernelEnd, first);
    PlacedMaps(first, HeapLimit(conventional, 0, kernelEnd));
    hide Placed;
  }

  lemma FirstPage(kernelEnd: u32, first: nat)
    requires kernelEnd <= 0xFFFF_CFF0 && first % 4096 == 0 && kernelEnd <= first < kernelEnd + 4096
    ensures AlignUp(kernelEnd, 4096) == first
  {
  }

  /** Every whole page between the bounds is a frame, and no other is. */
  lemma PagesAreFrames(m: Memory, lo: nat, hi: nat, page: nat)
    requires Maps(m, lo, hi) && lo % 4096 == 0 && lo <= hi
    ensures page % 4096 == 0 && lo <= page && page + 4096 <= hi ==>
              (page - lo) / 4096 < m.frameCount && FrameAddress(m, (page - lo) / 4096) == page
    ensures forall f: nat :: f < m.frameCount ==>
              lo <= FrameAddress(m, f) && FrameAddress(m, f) % 4096 == 0 && FrameAddress(m, f) + 4096 <= hi
  {
  }

  // ---- whole runs ----

  lemma EarlyKeepsMap(m: Memory, size: u32, alignment: u32)
    requires Geometry(m) && NoWrap(m, alignment)
    ensures SameMap(m, EarlyAlloc(m, size, alignment).0)
  {
    if Raw(m, size, alignment).Some? {
      var a := Raw(m, size, alignment).value;
      RawFacts(m, AlignUp(m.current, alignment), size, alignment);
      AlignUpGrows(m.current, alignment);
      hide AlignUp, Raw, RawFrom, Reserve, NoWrap;
      ReserveKeepsMap(m.(current := a + size), a, size);
    }
  }

  lemma StepKeepsMap(m: Memory, h: History, step: Step)
    requires Geometry(m) && Legal(m, h, step)
    ensures SameMap(m, Apply(m, h, step).0)
  {
    match step
    case AllocateEarly(size, alignment) =>
      hide EarlyAlloc;
      EarlyKeepsMap(m, size, alignment);
    case ClaimFrame =>
    case ReleaseFrame(_) =>
  }

  lemma {:induction false} RunKeepsMap(m: Memory, h: History, steps: seq<Step>)
    requires Owned(m, h) && LegalRun(m, h, steps)
    ensures SameMap(m, Run(m, h, steps).0)
    decreases steps
  {
    if steps != [] {
      StepKeepsMap(m, h, steps[0]);
      StepKeepsOwned(m, h, steps[0]);
      var (n, h') := Apply(m, h, steps[0]);
      hide Owned, Apply;
      RunKeepsMap(n, h', steps[1..]);
    }
  }

  /** Every early region and every claimed frame lies between the bounds. */
  predicate InMemory(h: History, lo: nat, hi: nat) {
    && (forall i :: 0 <= i < |h.early| ==> lo <= h.early[i].start && h.early[i].start + h.early[i].size <= hi)
    && (forall f :: f in h.claimed ==> lo + 4096 * f + 4096 <= hi)
  }

  lemma OwnedInMemory(m: Memory, h: History, lo: nat, hi: nat)
    requires Owned(m, h) && Maps(m, lo, hi) && lo <= hi
    ensures InMemory(h, lo, hi)
  {
    hide FrameOwned, Clear;
  }

  lemma RunInMemory(m: Memory, h: History, steps: seq<Step>, lo: nat, hi: nat)
    requires Owned(m, h) && LegalRun(m, h, steps) && Maps(m, lo, hi) && lo <= hi
    ensures InMemory(Run(m, h, steps).1, lo, hi)
  {
    RunKeepsMap(m, h, steps);
    RunKeepsOwned(m, h, steps);
    var (n, h') := Run(m, h, steps);
    assert Maps(n, lo, hi);
    hide Owned, LegalRun, Run;
    OwnedInMemory(n, h', lo, hi);
  }

  /** From boot, over every legal run, nothing is handed out outside extended memory. */
  lemma RunStaysInExtended(conventional: u32, extended: u32, kernelEnd: u32, steps: seq<Step>)
    requires extended != 0 && 0x10_0000 + extended + 8208 <= 0x1_0000_0000 && 0 < kernelEnd <= 0xFFFF_F000
    requires BootFits(conventional, extended, kernelEnd) && LegalFromBoot(conventional, extended, kernelEnd, steps)
    ensures InMemory(RunFromBoot(conventional, extended, kernelEnd, steps).1, 0x10_0000, 0x10_0000 + extended)
  {
    ExtendedMap(conventional, extended, kernelEnd);
    BootOwned(conventional, extended, kernelEnd);
    var m := Boot(conventional, extended, kernelEnd);
    hide Boot, Owned, LegalRun, Run, InMemory;
    RunInMemory(m, BootHistory(m), steps, 0x10_0000, 0x10_0000 + extended);
  }

  /** Nor, without extended memory, outside the conventional pages behind the kernel. */
  lemma RunStaysInConventional(conventional: u32, kernelEnd: u32, first: nat, steps: seq<Step>)
    requires 0 < kernelEnd && conventional <= 0xFFFF_DFF0 && kernelEnd <= 0xFFFF_CFF0
    requires first % 4096 == 0 && kernelEnd <= first < kernelEnd + 4096
    requires BootFits(conventional, 0, kernelEnd) && LegalFromBoot(conventional, 0, kernelEnd, steps)
    ensures var last := conventional - conventional % 4096;
            InMemory(RunFromBoot(conventional, 0, kernelEnd, steps).1, first, if last < first then first else last)
  {
    ConventionalMap(conventional, kernelEnd, first);
    BootOwned(conventional, 0, kernelEnd);
    var m, last := Boot(conventional, 0, kernelEnd), conventional - conventional % 4096;
    hide Boot, Owned, LegalRun, Run, InMemory;
    RunInMemory(m, BootHistory(m), steps, first, if last < first then first else last);
  }

  // ---- the addresses that an early allocation tries ----

  /** The first is the least aligned address not below the bump address. */
  lemma FirstTry(m: Memory, alignment: u32, address: nat)
    requires Geometry(m) && NoWrap(m, alignment) && 1 <= alignment
    ensures var c := Candidate(m, alignment, 0);
            && m.current <= c < m.current + alignment && c % alignment == 0
            && (address % alignment == 0 && m.current <= address ==> c <= address)
  {
    AlignUpLeast(m.current, alignment, address);
  }

  /** Each next one is the least aligned address a page past the page boundary at or behind the last. */
  lemma NextTry(m: Memory, alignment: u32, j: nat, boundary: nat, address: nat)
    requires Geometry(m) && NoWrap(m, alignment) && 1 <= alignment && Candidate(m, alignment, j) < m.limit
    requires boundary % 4096 == 0 && Candidate(m, alignment, j) <= boundary < Candidate(m, alignment, j) + 4096
    ensures var c := Candidate(m, alignment, j + 1);
            && boundary + 4096 <= c < boundary + 4096 + alignment && c % alignment == 0
            && (address % alignment == 0 && boundary + 4096 <= address ==> c <= address)
  {
    var last := Candidate(m, alignment, j);
    SamePage(last, boundary);
    AlignUpLeast(boundary + 4096, alignment, address);
  }

  lemma SamePage(last: u32, boundary: nat)
    requires last + 4096 <= U32_MODULUS && boundary % 4096 == 0 && last <= boundary < last + 4096
    ensures AlignUp(last, PAGE) == boundary
  {
    AlignUpLeast(last, 4096, boundary);
  }
}
