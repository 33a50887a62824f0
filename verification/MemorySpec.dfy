/**
 Physical memory: one region shared by a bump allocator for boot-time structures and a bitmap
 of page frames. `Memory` is the value the allocators work on; the class of the same name is
 proved against these functions.
 */
module MemorySpec {
  import opened Prelude

  const PAGE: u32 := 4096
  const INVALID_FRAME: u32 := 0xFFFF_FFFF

  datatype Memory = Memory(
    heapStart: u32,
    current: u32,
    limit: u32,
    regionStart: u32,
    regionLimit: u32,
    frameCount: u32,
    freeCount: nat,
    mapped: bool,
    used: seq<bool>)

  // ---- alignment ----

  function AlignUp(value: u32, alignment: u32): u32 {
    if alignment <= 1 then value
    else
      var remainder := value % alignment;
      if remainder == 0 then value else WrapAdd(value, alignment - remainder)
  }

  function AlignDown(value: u32, alignment: u32): u32 {
    if alignment <= 1 then value else value - value % alignment
  }

  // ---- frames ----

  /** How the frame region lies in the heap. */
  predicate Geometry(m: Memory) {
    && m.heapStart == m.regionStart <= m.current <= m.limit
    && m.regionStart % PAGE == 0
    && |m.used| == m.frameCount
    && (m.mapped ==> 0 < m.frameCount && m.regionLimit == m.regionStart + PAGE * m.frameCount <= m.limit)
    && (!m.mapped ==> m.frameCount == 0)
  }

  /** The frames `first <= f < past` that a range of bytes is taken to touch. */
  function FrameRange(m: Memory, start: u32, size: u32): (r: (nat, nat))
    requires Geometry(m)
    ensures r.1 <= m.frameCount
  {
    var end := WrapAdd(start, size);
    if !m.mapped || size == 0 || end < start || end <= m.regionStart then (0, 0)
    else
      var lo, hi := Max(start, m.regionStart), Min(end, m.regionLimit);
      if hi <= lo then (0, 0)
      else
        PageAbove(m.regionStart, lo);
        PageAbove(m.regionStart, hi);
        ((AlignDown(lo, PAGE) - m.regionStart) / PAGE,
         Min((AlignUp(hi, PAGE) - m.regionStart) / PAGE, m.frameCount))
  }

  lemma PageAbove(page: u32, x: u32)
    requires page % PAGE == 0 && page <= x <= U32_MODULUS - PAGE
    ensures page <= AlignDown(x, PAGE) <= AlignUp(x, PAGE)
  {
  }

  predicate IsReserved(m: Memory, start: u32, size: u32)
    requires Geometry(m)
  {
    var r := FrameRange(m, start, size);
    exists f :: r.0 <= f < r.1 && m.used[f]
  }

  /** The number of free frames. */
  function Clear(used: seq<bool>): nat {
    if used == [] then 0 else Clear(used[..|used| - 1]) + (if used[|used| - 1] then 0 else 1)
  }

  /** The counter after one frame is taken; it is never taken below zero. */
  function Less(count: nat): nat {
    if count != 0 then count - 1 else 0
  }

  function Take(m: Memory, f: nat): Memory
    requires f < |m.used|
  {
    if m.used[f] then m else m.(used := m.used[f := true], freeCount := Less(m.freeCount))
  }

  /** Frames `first <= f < past` taken, one after another. */
  function TakeRange(m: Memory, first: nat, past: nat): (r: Memory)
    requires past <= |m.used|
    ensures |r.used| == |m.used| && r.limit == m.limit
    decreases past
  {
    if past <= first then m else Take(TakeRange(m, first, past - 1), past - 1)
  }

  function Reserve(m: Memory, start: u32, size: u32): Memory
    requires Geometry(m)
  {
    var r := FrameRange(m, start, size);
    TakeRange(m, r.0, r.1)
  }

  // ---- the bump allocator ----

  /** The heap ends far enough below 2^32 that no candidate address wraps around. */
  predicate NoWrap(m: Memory, alignment: u32) {
    m.limit + 2 * PAGE + alignment <= U32_MODULUS
  }

  /** The address tried after a reserved one: past the next page boundary by a page, aligned. */
  function Next(start: u32, alignment: u32): u32 {
    AlignUp(WrapAdd(AlignUp(start, PAGE), PAGE), alignment)
  }

  /** The search from a candidate address. */
  function RawFrom(m: Memory, start: u32, size: u32, alignment: u32): Option<u32>
    requires Geometry(m) && NoWrap(m, alignment)
    decreases m.limit - start
  {
    if start >= m.limit then None
    else
      var end := WrapAdd(start, size);
      if end < start || end > m.limit then None
      else if !IsReserved(m, start, size) then Some(start)
      else
        NextGrows(m, start, alignment);
        RawFrom(m, Next(start, alignment), size, alignment)
  }

  function Raw(m: Memory, size: u32, alignment: u32): Option<u32>
    requires Geometry(m) && NoWrap(m, alignment)
  {
    RawFrom(m, AlignUp(m.current, alignment), size, alignment)
  }

  /** An early allocation, its frames reserved. */
  function EarlyAlloc(m: Memory, size: u32, alignment: u32): (Memory, Option<u32>)
    requires Geometry(m) && NoWrap(m, alignment)
  {
    match Raw(m, size, alignment)
    case None => (m, None)
    case Some(a) =>
      RawFacts(m, AlignUp(m.current, alignment), size, alignment);
      AlignUpGrows(m.current, alignment);
      (Reserve(m.(current := a + size), a, size), Some(a))
  }

  // ---- the frame allocator ----

  function FirstFree(used: seq<bool>, from: nat): (f: nat)
    requires from <= |used|
    ensures from <= f <= |used|
    decreases |used| - from
  {
    if from == |used| || !used[from] then from else FirstFree(used, from + 1)
  }

  function FrameAddress(m: Memory, f: nat): nat {
    m.regionStart + PAGE * f
  }

  function Claim(m: Memory): (Memory, u32)
    requires Geometry(m)
  {
    var f := FirstFree(m.used, 0);
    if f == |m.used| then (m, INVALID_FRAME) else (Take(m, f), FrameAddress(m, f))
  }

  /** The frame that a released address lies in, if the address is in the region. */
  function FrameOf(m: Memory, address: u32): (f: Option<nat>)
    requires Geometry(m)
    ensures f.Some? ==> f.value < |m.used|
  {
    if !m.mapped || address < m.regionStart || address >= m.regionLimit then None
    else Some((address - m.regionStart) / PAGE)
  }

  function Release(m: Memory, address: u32): Memory
    requires Geometry(m)
  {
    match FrameOf(m, address)
    case None => m
    case Some(f) => if m.used[f] then m.(used := m.used[f := false], freeCount := m.freeCount + 1) else m
  }

  // ---- boot ----

  function HeapBase(extended: u32, kernelEnd: u32): u32 {
    if extended != 0 then 0x10_0000 else AlignUp(kernelEnd, PAGE)
  }

  function HeapLimit(conventional: u32, extended: u32, kernelEnd: u32): u32 {
    var base := HeapBase(extended, kernelEnd);
    var limit := if extended != 0 then WrapAdd(base, extended) else AlignDown(conventional, PAGE);
    Max(base, limit)
  }

  /** Bytes of bitmap for a number of frames. */
  function BitmapBytes(frames: nat): nat {
    (frames + 31) / 32 * 4
  }

  /** What the memory map must look like for the boot: the heap stays clear of 2^32 and of address 0. */
  predicate BootFits(conventional: u32, extended: u32, kernelEnd: u32) {
    && 0 < kernelEnd <= U32_MODULUS - PAGE
    && HeapLimit(conventional, extended, kernelEnd) + 2 * PAGE + 16 <= U32_MODULUS
  }

  /** A heap with its frame region and the bitmap placed at the region's start, if a page fits. */
  function Placed(base: u32, limit: u32): Memory
    requires base % PAGE == 0 && base <= limit
  {
    var past := AlignDown(limit, PAGE);
    if past <= base then Memory(base, base, limit, base, past, 0, 0, false, [])
    else
      var frames := (past - base) / PAGE;
      BootGeometry(base, limit, frames);
      var m := Memory(base, base + BitmapBytes(frames), limit, base, past, frames, frames, true,
                      seq(frames, _ => false));
      Reserve(m, base, m.current - base)
  }

  /** Memory after initialisation, given the two sizes in bytes and the end of the kernel image. */
  function Boot(conventional: u32, extended: u32, kernelEnd: u32): Memory
    requires BootFits(conventional, extended, kernelEnd)
  {
    BaseAligned(extended, kernelEnd);
    Placed(HeapBase(extended, kernelEnd), HeapLimit(conventional, extended, kernelEnd))
  }

  // ---- arithmetic of pages ----

  lemma BaseAligned(extended: u32, kernelEnd: u32)
    requires kernelEnd <= U32_MODULUS - PAGE
    ensures HeapBase(extended, kernelEnd) % PAGE == 0
    ensures AlignUp(HeapBase(extended, kernelEnd), PAGE) == HeapBase(extended, kernelEnd)
  {
  }

  lemma BootGeometry(base: u32, limit: u32, frames: nat)
    requires base % PAGE == 0 && base < AlignDown(limit, PAGE)
    requires frames == (AlignDown(limit, PAGE) - base) / PAGE
    ensures 0 < frames && base + PAGE * frames == AlignDown(limit, PAGE) <= limit
    ensures base + BitmapBytes(frames) <= base + PAGE * frames
  {
  }

  /** Aligning up never goes down exactly when the sum does not wrap. */
  lemma AlignUpGrowsIff(value: u32, alignment: u32)
    ensures AlignUp(value, alignment) >= value <==>
            alignment <= 1 || value % alignment == 0 || value + alignment - value % alignment < U32_MODULUS
  {
  }

  lemma AlignUpGrows(value: u32, alignment: u32)
    requires value + alignment <= U32_MODULUS
    ensures value <= AlignUp(value, alignment) <= value + alignment
    ensures 1 < alignment ==> AlignUp(value, alignment) % alignment == 0
  {
    if 1 < alignment && value % alignment != 0 {
      var q := value / alignment;
      assert value + alignment - value % alignment == alignment * (q + 1);
      MultipleHasNoRemainder(alignment, q + 1);
    }
  }

  lemma MultipleHasNoRemainder(n: nat, q: nat)
    requires 0 < n
    ensures (n * q) % n == 0
  {
    var k := (n * q) / n;
    NoMultipleBetween(n, q - k);
  }

  lemma NoMultipleBetween(n: nat, d: int)
    requires 0 <= n * d < n
    ensures d == 0
  {
  }

  /**
   The boot loader stores 16-bit kilobyte counts. With them, and a kernel image in the lower
   half of the address space, the boot fits and no alignment up to 2^30 makes a candidate wrap.
   */
  lemma LoaderFits(conventionalKb: nat, extendedKb: nat, kernelEnd: u32, alignment: u32)
    requires conventionalKb < 0x1_0000 && extendedKb < 0x1_0000 && 0 < kernelEnd <= 0x8000_0000
    requires alignment <= 0x4000_0000
    ensures BootFits(conventionalKb * 1024, extendedKb * 1024, kernelEnd)
    ensures NoWrap(Boot(conventionalKb * 1024, extendedKb * 1024, kernelEnd), alignment)
  {
    AlignUpGrows(kernelEnd, PAGE);
    var limit := HeapLimit(conventionalKb * 1024, extendedKb * 1024, kernelEnd);
    assert limit <= 0x8000_0000 + PAGE;
    BaseAligned(extendedKb * 1024, kernelEnd);
    PlacedLimit(HeapBase(extendedKb * 1024, kernelEnd), limit);
    hide Placed;
  }

  lemma PlacedLimit(base: u32, limit: u32)
    requires base % PAGE == 0 && base <= limit
    ensures Placed(base, limit).limit == limit
  {
    hide FrameRange;
  }

  /** The candidate address strictly grows, so the search ends. */
  lemma NextGrows(m: Memory, start: u32, alignment: u32)
    requires NoWrap(m, alignment) && start < m.limit
    ensures start < Next(start, alignment)
  {
    AlignUpGrows(start, PAGE);
    AlignUpGrows(WrapAdd(AlignUp(start, PAGE), PAGE), alignment);
  }

  /** A candidate that is accepted lies at or after the start, fits, and touches no used frame. */
  lemma {:induction false} RawFacts(m: Memory, start: u32, size: u32, alignment: u32)
    requires Geometry(m) && NoWrap(m, alignment)
    ensures var r := RawFrom(m, start, size, alignment);
            r.Some? ==>
              && start <= r.value < m.limit
              && r.value + size <= m.limit
              && !IsReserved(m, r.value, size)
    decreases m.limit - start
  {
    hide IsReserved;
    hide Geometry;
    hide Next;
    if start < m.limit {
      NextGrows(m, start, alignment);
      var end := WrapAdd(start, size);
      if !(end < start || end > m.limit) && IsReserved(m, start, size) {
        RawFacts(m, Next(start, alignment), size, alignment);
      }
    }
  }
}
