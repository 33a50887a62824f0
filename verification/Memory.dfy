/**
 The two allocators over one region, on a bitmap of 32-bit words changed in place. Every
 method is proved against the function of the same name in `MemorySpec`.
 */
module Memory {
  import opened Prelude
  import opened FrameBits
  import opened MemorySpec
  import opened MemoryRuns
  import MemoryMap

  /** The frames that a bitmap shows as used. */
  function Used(words: seq<u32>, frames: nat): seq<bool>
    requires frames <= 32 * |words|
  {
    seq(frames, f requires 0 <= f < frames => Bit(words[f / 32], f % 32))
  }

  lemma UsedUpdate(words: seq<u32>, frames: nat, f: nat, on: bool, word: u32)
    requires frames <= 32 * |words| && f < frames && word == WithBit(words[f / 32], f % 32, on)
    ensures Used(words[f / 32 := word], frames) == Used(words, frames)[f := on]
  {
    var w := words[f / 32 := word];
    forall g | 0 <= g < frames
      ensures Used(w, frames)[g] == Used(words, frames)[f := on][g]
    {
      if g / 32 == f / 32 {
        BitOfWithBit(words[f / 32], f % 32, on, g % 32);
        assert g % 32 == f % 32 ==> g == f;
      }
    }
  }

  lemma WordFits(w: u32, b: nat, on: bool)
    requires b < 32
    ensures WithBit(w, b, on) < U32_MODULUS
  {
    Pow32();
    WithBitFits(w, b, on, 32);
  }

  function Bytes(kilobytes: u32): u32 {
    (kilobytes * 1024) % U32_MODULUS
  }

  /** With no bitmap yet, the first early allocation starts at the heap's base. */
  lemma RawAtBase(m: MemorySpec.Memory, bytes: u32)
    requires Geometry(m) && !m.mapped && NoWrap(m, 16) && m.current == m.regionStart < m.limit
    requires m.current + bytes <= m.limit
    ensures Raw(m, bytes, 16) == Some(m.current)
  {
    assert m.current % 16 == 0;
  }

  lemma PlacedSmall(base: u32, limit: u32)
    requires base % PAGE == 0 && AlignDown(limit, PAGE) <= base <= limit
    ensures Placed(base, limit) == MemorySpec.Memory(base, base, limit, base, AlignDown(limit, PAGE), 0, 0, false, [])
  {
  }

  lemma PlacedLarge(base: u32, limit: u32, frames: nat)
    requires base % PAGE == 0 && base < AlignDown(limit, PAGE) && frames == (AlignDown(limit, PAGE) - base) / PAGE
    ensures 0 < frames && base + PAGE * frames == AlignDown(limit, PAGE) <= limit
    ensures base + BitmapBytes(frames) <= limit
    ensures Placed(base, limit) ==
            Reserve(MemorySpec.Memory(base, base + BitmapBytes(frames), limit, base, AlignDown(limit, PAGE),
                                      frames, frames, true, seq(frames, _ => false)), base, BitmapBytes(frames))
  {
    BootGeometry(base, limit, frames);
    hide Reserve;
  }

  lemma {:induction false} ZeroHasNoBit(b: nat)
    ensures !Bit(0, b)
  {
    if b != 0 {
      ZeroHasNoBit(b - 1);
    }
  }

  lemma NothingUsed(words: seq<u32>, frames: nat)
    requires frames <= 32 * |words| && forall i :: 0 <= i < |words| ==> words[i] == 0
    ensures Used(words, frames) == seq(frames, _ => false)
  {
    forall f | 0 <= f < frames
      ensures !Used(words, frames)[f]
    {
      ZeroHasNoBit(f % 32);
    }
  }

  /** Every frame from `lo` up to `hi` that exists is used. */
  predicate AllUsed(used: seq<bool>, lo: nat, hi: nat) {
    forall g :: lo <= g < hi && g < |used| ==> used[g]
  }

  lemma AllUsedNone(used: seq<bool>, lo: nat)
    ensures AllUsed(used, lo, lo)
  {
  }

  lemma AllUsedNext(used: seq<bool>, lo: nat, hi: nat)
    requires AllUsed(used, lo, hi) && hi < |used| && used[hi]
    ensures AllUsed(used, lo, hi + 1)
  {
  }

  /** There is nothing past the last frame. */
  lemma AllUsedBeyond(used: seq<bool>, lo: nat, mid: nat, hi: nat)
    requires AllUsed(used, lo, mid) && |used| <= mid
    ensures AllUsed(used, lo, hi)
  {
  }

  lemma AllUsedJoin(used: seq<bool>, lo: nat, mid: nat, hi: nat)
    requires AllUsed(used, lo, mid) && AllUsed(used, mid, hi)
    ensures AllUsed(used, lo, hi)
  {
  }

  /** A word of all ones has no free frame. */
  lemma FullWord(words: seq<u32>, frames: nat, word: nat)
    requires frames <= 32 * |words| && word < |words| && words[word] == 0xFFFF_FFFF
    ensures AllUsed(Used(words, frames), 32 * word, 32 * word + 32)
  {
    Pow32();
    FullIff(words[word], 32);
    forall g | 32 * word <= g < 32 * word + 32 && g < frames
      ensures Used(words, frames)[g]
    {
      assert g / 32 == word && Bit(words[word], g % 32);
    }
  }

  lemma {:induction false} FirstFreeFrom(used: seq<bool>, from: nat, f: nat)
    requires from <= f <= |used| && forall g :: from <= g < f ==> used[g]
    requires f < |used| ==> !used[f]
    ensures FirstFree(used, from) == f
    decreases f - from
  {
    if from < f {
      FirstFreeFrom(used, from + 1, f);
    }
  }

  lemma FirstFreeIs(used: seq<bool>, f: nat)
    requires f <= |used| && AllUsed(used, 0, f)
    requires f < |used| ==> !used[f]
    ensures FirstFree(used, 0) == f
  {
    FirstFreeFrom(used, 0, f);
  }

  lemma EarlyIs(m: MemorySpec.Memory, size: u32, alignment: u32)
    requires Geometry(m) && NoWrap(m, alignment)
    ensures var a, r := Raw(m, size, alignment), MemorySpec.EarlyAlloc(m, size, alignment);
            if a.None? then r == (m, None)
            else a.value + size <= m.limit && m.current <= a.value
                 && r == (Reserve(m.(current := a.value + size), a.value, size), a)
  {
    hide Raw;
    hide Reserve;
    if Raw(m, size, alignment).Some? {
      RawInHeap(m, size, alignment);
    }
  }

  /** The claim of a frame that was found free. */
  lemma ClaimTakes(m: MemorySpec.Memory, f: nat)
    requires Geometry(m) && f == FirstFree(m.used, 0) && f < |m.used|
    ensures m.regionStart + f * PAGE < U32_MODULUS && Claim(m) == (Take(m, f), m.regionStart + f * PAGE)
  {
    hide FirstFree;
    hide Take;
  }

  lemma ClaimFails(m: MemorySpec.Memory)
    requires Geometry(m) && FirstFree(m.used, 0) == |m.used|
    ensures Claim(m) == (m, INVALID_FRAME)
  {
  }

  class PhysicalMemory {
    var heapStart: u32
    var current: u32
    var limit: u32
    var regionStart: u32
    var regionLimit: u32
    var frameCount: u32
    var freeCount: nat
    var wordCount: u32
    var bitmap: array?<u32>

    ghost predicate Shaped()
      reads this, bitmap
    {
      bitmap != null ==> bitmap.Length == wordCount == (frameCount + 31) / 32
    }

    ghost function View(): MemorySpec.Memory
      requires Shaped()
      reads this, bitmap
    {
      MemorySpec.Memory(heapStart, current, limit, regionStart, regionLimit,
                        if bitmap == null then 0 else frameCount, freeCount, bitmap != null,
                        if bitmap == null then [] else Used(bitmap[..], frameCount))
    }

    ghost predicate Valid()
      reads this, bitmap
    {
      Shaped() && Geometry(View())
    }

    /** Initialisation, on statics that start out zero. */
    constructor (conventionalKb: u32, extendedKb: u32, kernelEnd: u32)
      requires BootFits(Bytes(conventionalKb), Bytes(extendedKb), kernelEnd)
      ensures Valid() && View() == Boot(Bytes(conventionalKb), Bytes(extendedKb), kernelEnd)
      ensures var extended := Bytes(extendedKb);
              && (0 < extended <= 0xFFEF_DFF0 ==>
                    MemoryMap.Maps(View(), 0x10_0000, 0x10_0000 + extended))
              && (extended >= 0xFFF0_0000 ==> MemoryMap.Maps(View(), 0x10_0000, 0x10_0000))
      ensures bitmap != null ==> fresh(bitmap)
    {
      freeCount := 0;
      frameCount := 0;
      wordCount := 0;
      bitmap := null;
      var conventional, extended := Bytes(conventionalKb), Bytes(extendedKb);
      var heapBase: u32, heapLimit: u32;
      if extended != 0 {
        heapBase := 0x10_0000;
        heapLimit := WrapAdd(heapBase, extended);
      } else {
        heapBase := AlignUp(kernelEnd, PAGE);
        heapLimit := AlignDown(conventional, PAGE);
      }
      if heapLimit < heapBase {
        heapLimit := heapBase;
      }
      heapStart := heapBase;
      current := heapBase;
      limit := heapLimit;
      regionStart := AlignUp(heapBase, PAGE);
      regionLimit := AlignDown(heapLimit, PAGE);
      new;
      assert heapBase == HeapBase(extended, kernelEnd) && heapLimit == HeapLimit(conventional, extended, kernelEnd);
      BaseAligned(extended, kernelEnd);
      hide AlignUp;
      hide HeapBase;
      hide HeapLimit;
      PlaceBitmap();
      assert View() == Boot(conventional, extended, kernelEnd);
      hide Boot;
      if 0 < extended <= 0xFFEF_DFF0 {
        MemoryMap.ExtendedMap(conventional, extended, kernelEnd);
      } else if extended >= 0xFFF0_0000 {
        MemoryMap.WrappedMap(conventional, extended, kernelEnd);
      }
    }

    /** The bitmap is the first early allocation; its words start out zero. */
    method AllocateBitmap()
      requires bitmap == null && heapStart == current == regionStart && regionStart % PAGE == 0
      requires 0 < frameCount && regionStart + PAGE * frameCount == regionLimit <= limit && freeCount == 0
      requires limit + 2 * PAGE + 16 <= U32_MODULUS
      modifies `current, `wordCount, `freeCount, `bitmap
      ensures bitmap != null && fresh(bitmap) && Valid()
      ensures View() == MemorySpec.Memory(heapStart, heapStart + BitmapBytes(frameCount), limit, regionStart,
                                          regionLimit, frameCount, frameCount, true, seq(frameCount, _ => false))
    {
      wordCount := (frameCount + 31) / 32;
      var bytes: u32 := wordCount * 4;
      RawAtBase(View(), bytes);
      var a := EarlyAllocRaw(bytes, 16);
      hide Raw;
      if a.Some? {
        bitmap := new u32[wordCount](_ => 0);
        NothingUsed(bitmap[..], frameCount);
      }
      hide Used;
      freeCount := frameCount;
    }

    /** The part of initialisation that needs at least one page. */
    method PlaceBitmap()
      requires bitmap == null && heapStart == current == regionStart <= limit && regionStart % PAGE == 0
      requires regionLimit == AlignDown(limit, PAGE) && frameCount == 0 && freeCount == 0
      requires limit + 2 * PAGE + 16 <= U32_MODULUS
      modifies `current, `frameCount, `wordCount, `freeCount, `bitmap
      ensures Valid() && View() == Placed(heapStart, limit)
      ensures bitmap != null ==> fresh(bitmap)
    {
      hide Placed;
      hide AlignDown;
      hide BitmapBytes;
      hide Reserve;
      hide Used;
      if regionLimit > regionStart {
        frameCount := (regionLimit - regionStart) / PAGE;
        PlacedLarge(regionStart, limit, frameCount);
        AllocateBitmap();
        ReserveRegion(regionStart, current - regionStart);
      } else {
        PlacedSmall(regionStart, limit);
      }
    }

    // ---- single frames ----

    method FrameTest(f: u32) returns (on: bool)
      requires Valid() && bitmap != null && f < frameCount
      ensures on == View().used[f]
    {
      on := Bit(bitmap[f / 32], f % 32);
    }

    method FrameSet(f: u32)
      requires Valid() && bitmap != null && f < frameCount
      modifies bitmap
      ensures Valid() && View() == old(View()).(used := old(View()).used[f := true])
    {
      WordFits(bitmap[f / 32], f % 32, true);
      ghost var word := WithBit(bitmap[f / 32], f % 32, true);
      UsedUpdate(bitmap[..], frameCount, f, true, word);
      bitmap[f / 32] := WithBit(bitmap[f / 32], f % 32, true);
      assert bitmap[..] == old(bitmap[..])[f / 32 := word];
    }

    method FrameClear(f: u32)
      requires Valid() && bitmap != null && f < frameCount
      modifies bitmap
      ensures Valid() && View() == old(View()).(used := old(View()).used[f := false])
    {
      WordFits(bitmap[f / 32], f % 32, false);
      ghost var word := WithBit(bitmap[f / 32], f % 32, false);
      UsedUpdate(bitmap[..], frameCount, f, false, word);
      bitmap[f / 32] := WithBit(bitmap[f / 32], f % 32, false);
      assert bitmap[..] == old(bitmap[..])[f / 32 := word];
    }

    // ---- ranges ----

    /** The clipping that the reservation test and the reservation share. */
    method FramesOf(start: u32, size: u32) returns (first: nat, past: nat)
      requires Valid()
      ensures (first, past) == FrameRange(View(), start, size)
    {
      if bitmap == null || size == 0 {
        return 0, 0;
      }
      var rangeStart: u32, rangeEnd: u32 := start, WrapAdd(start, size);
      if rangeEnd < rangeStart || rangeEnd <= regionStart {
        return 0, 0;
      }
      if rangeStart < regionStart {
        rangeStart := regionStart;
      }
      if rangeEnd > regionLimit {
        rangeEnd := regionLimit;
      }
      if rangeEnd <= rangeStart {
        return 0, 0;
      }
      PageAbove(regionStart, rangeStart);
      PageAbove(regionStart, rangeEnd);
      hide AlignDown;
      hide AlignUp;
      first := (AlignDown(rangeStart, PAGE) - regionStart) / PAGE;
      past := Min((AlignUp(rangeEnd, PAGE) - regionStart) / PAGE, frameCount);
    }

    method RegionIsReserved(start: u32, size: u32) returns (reserved: bool)
      requires Valid()
      ensures reserved == IsReserved(View(), start, size)
    {
      hide FrameRange;
      var first, past := FramesOf(start, size);
      if past <= first {
        return false;
      }
      reserved := AnyFrameUsed(first, past);
    }

    method AnyFrameUsed(first: nat, past: nat) returns (any: bool)
      requires Valid() && bitmap != null && past <= frameCount
      ensures any <==> exists f :: first <= f < past && View().used[f]
    {
      hide Used;
      ghost var used := View().used;
      var f := first;
      while f < past
        invariant first <= f
        invariant forall g :: first <= g < f && g < past ==> !used[g]
      {
        var taken := FrameTest(f);
        if taken {
          return true;
        }
        f := f + 1;
      }
      return false;
    }

    method ReserveRegion(start: u32, size: u32)
      requires Valid()
      modifies `freeCount, bitmap
      ensures Valid() && View() == Reserve(old(View()), start, size)
    {
      hide FrameRange;
      var first, past := FramesOf(start, size);
      if first < past {
        ReserveFrames(first, past);
      }
    }

    /** One frame taken, if it is free, and counted. */
    method TakeFrame(f: u32)
      requires Valid() && bitmap != null && f < frameCount
      modifies `freeCount, bitmap
      ensures Valid() && View() == Take(old(View()), f)
    {
      hide Used;
      var taken := FrameTest(f);
      if !taken {
        FrameSet(f);
        if freeCount != 0 {
          freeCount := freeCount - 1;
        }
      }
    }

    method ReserveFrames(first: nat, past: nat)
      requires Valid() && bitmap != null && past <= frameCount
      modifies `freeCount, bitmap
      ensures Valid() && View() == TakeRange(old(View()), first, past)
    {
      ghost var m := View();
      var f := first;
      if past <= first {
        return;
      }
      hide Take;
      while f < past
        invariant first <= f <= past
        invariant Valid() && View() == TakeRange(m, first, f)
      {
        TakeFrame(f);
        f := f + 1;
      }
    }

    // ---- the bump allocator ----

    method EarlyAllocRaw(size: u32, alignment: u32) returns (a: Option<u32>)
      requires Valid() && NoWrap(View(), alignment)
      modifies `current
      ensures a == Raw(old(View()), size, alignment)
      ensures Valid()
      ensures a.None? ==> View() == old(View())
      ensures a.Some? ==> a.value + size <= limit && View() == old(View()).(current := a.value + size)
    {
      hide IsReserved;
      ghost var m := View();
      var start: u32 := AlignUp(current, alignment);
      AlignUpGrows(current, alignment);
      while start < limit
        invariant Valid() && View() == m && m.current <= start
        invariant RawFrom(m, start, size, alignment) == Raw(m, size, alignment)
        decreases limit - start
      {
        var end := WrapAdd(start, size);
        if end < start || end > limit {
          return None;
        }
        var reserved := RegionIsReserved(start, size);
        if !reserved {
          current := end;
          return Some(start);
        }
        NextGrows(m, start, alignment);
        start := AlignUp(WrapAdd(AlignUp(start, PAGE), PAGE), alignment);
      }
      return None;
    }

    method EarlyAlloc(size: u32, alignment: u32) returns (a: Option<u32>)
      requires Valid() && NoWrap(View(), alignment)
      modifies `current, `freeCount, bitmap
      ensures Valid()
      ensures View() == MemorySpec.EarlyAlloc(old(View()), size, alignment).0
      ensures a == MemorySpec.EarlyAlloc(old(View()), size, alignment).1
    {
      hide MemorySpec.EarlyAlloc;
      hide Raw;
      hide Reserve;
      hide Geometry;
      ghost var m := View();
      EarlyIs(m, size, alignment);
      a := EarlyAllocRaw(size, alignment);
      if a.Some? {
        ReserveRegion(a.value, size);
      }
    }

    // ---- the frame allocator ----

    /** Full words are skipped; the first free frame of the first other word is found. */
    method FindFree() returns (f: nat)
      requires Valid() && bitmap != null
      ensures f == FirstFree(View().used, 0)
    {
      hide Used;
      hide AllUsed;
      ghost var used := View().used;
      var word := 0;
      AllUsedNone(used, 0);
      while word < wordCount
        invariant word <= wordCount
        invariant AllUsed(used, 0, 32 * word)
      {
        if bitmap[word] == 0xFFFF_FFFF {
          FullWord(bitmap[..], frameCount, word);
        } else {
          var free := FreeInWord(word);
          if free.Some? {
            AllUsedJoin(used, 0, 32 * word, free.value);
            FirstFreeIs(used, free.value);
            return free.value;
          }
        }
        AllUsedJoin(used, 0, 32 * word, 32 * word + 32);
        word := word + 1;
      }
      AllUsedBeyond(used, 0, 32 * word, |used|);
      FirstFreeIs(used, |used|);
      return frameCount;
    }

    method ClaimFrame() returns (address: u32)
      requires Valid()
      modifies `freeCount, bitmap
      ensures Valid() && View() == Claim(old(View())).0 && address == Claim(old(View())).1
    {
      ghost var m := View();
      hide Used;
      hide FirstFree;
      hide Take;
      hide Claim;
      if bitmap == null {
        FirstFreeIs(m.used, 0);
        ClaimFails(m);
        return INVALID_FRAME;
      }
      var f := FindFree();
      if f == frameCount {
        ClaimFails(m);
        return INVALID_FRAME;
      }
      ClaimTakes(m, f);
      address := regionStart + f * PAGE;
      TakeFrame(f);
    }

    method FreeInWord(word: nat) returns (free: Option<nat>)
      requires Valid() && bitmap != null && word < wordCount
      ensures free.None? ==> AllUsed(View().used, 32 * word, 32 * word + 32)
      ensures free.Some? ==>
                && 32 * word <= free.value < frameCount && !View().used[free.value]
                && AllUsed(View().used, 32 * word, free.value)
    {
      hide Used;
      hide AllUsed;
      ghost var used := View().used;
      var bit := 0;
      AllUsedNone(used, 32 * word);
      while bit < 32
        invariant 0 <= bit <= 32
        invariant AllUsed(used, 32 * word, 32 * word + bit)
      {
        var f := word * 32 + bit;
        if f >= frameCount {
          AllUsedBeyond(used, 32 * word, f, 32 * word + 32);
          return None;
        }
        var taken := FrameTest(f);
        if !taken {
          return Some(f);
        }
        AllUsedNext(used, 32 * word, f);
        bit := bit + 1;
      }
      return None;
    }

    method ReleaseFrame(address: u32)
      requires Valid()
      modifies `freeCount, bitmap
      ensures Valid() && View() == Release(old(View()), address)
    {
      hide Used;
      if bitmap == null || address < regionStart || address >= regionLimit {
        return;
      }
      var f := (address - regionStart) / PAGE;
      assert FrameOf(View(), address) == Some(f);
      hide FrameOf;
      var taken := f < frameCount;
      if taken {
        taken := FrameTest(f);
      }
      if taken {
        FrameClear(f);
        freeCount := freeCount + 1;
      }
    }
  }
}
