/**
 What the archive checksum detects. The digest masks its own field, so the argument has two
 parts: the hash pins the other bytes, and the build-time constant pins the field.
 */
module ArchiveTamper {
  import opened Prelude
  import opened Archive
  import Fnv

  /** The two byte strings agree everywhere outside `width` bytes from `at`. */
  predicate DifferOnlyWithin(a: seq<u8>, b: seq<u8>, at: nat, width: nat) {
    && |a| == |b|
    && forall k :: 0 <= k < |a| && !(at <= k < at + width) ==> a[k] == b[k]
  }

  lemma HashOf1(d: u32, x: u8)
    ensures Fnv.Hash(d, [x]) == Fnv.Step(d, x)
  {
    hide Fnv.Step;
    assert [x][1..] == [];
  }

  lemma HashOf2(d: u32, x: u8, y: u8)
    ensures Fnv.Hash(d, [x, y]) == Fnv.Step(Fnv.Step(d, x), y)
  {
    hide Fnv.Step;
    assert [x, y][1..] == [y];
    HashOf1(Fnv.Step(d, x), y);
  }

  lemma HashOf3(d: u32, x: u8, y: u8, z: u8)
    ensures Fnv.Hash(d, [x, y, z]) == Fnv.Step(Fnv.Step(Fnv.Step(d, x), y), z)
  {
    hide Fnv.Step;
    assert [x, y, z][1..] == [y, z];
    HashOf2(Fnv.Step(d, x), y, z);
  }

  /** At most three bytes are determined by the digests before and after them. */
  lemma ShortRunInjective(d: u32, x: seq<u8>, y: seq<u8>)
    requires |x| == |y| <= 3 && Fnv.Hash(d, x) == Fnv.Hash(d, y)
    ensures x == y
  {
    hide Fnv.Step;
    hide Fnv.Hash;
    if |x| == 1 {
      assert x == [x[0]] && y == [y[0]];
      HashOf1(d, x[0]);
      HashOf1(d, y[0]);
      OneStepInjective(d, x[0], y[0]);
    } else if |x| == 2 {
      assert x == [x[0], x[1]] && y == [y[0], y[1]];
      HashOf2(d, x[0], x[1]);
      HashOf2(d, y[0], y[1]);
      Fnv.TwoStepsInjective(d, x[0], x[1], y[0], y[1]);
    } else if |x| == 3 {
      assert x == [x[0], x[1], x[2]] && y == [y[0], y[1], y[2]];
      HashOf3(d, x[0], x[1], x[2]);
      HashOf3(d, y[0], y[1], y[2]);
      Fnv.ThreeStepsInjective(d, x[0], x[1], x[2], y[0], y[1], y[2]);
    }
  }

  lemma OneStepInjective(d: u32, x: u8, y: u8)
    requires Fnv.Step(d, x) == Fnv.Step(d, y)
    ensures x == y
  {
    Fnv.TimesPrimeInjective(Fnv.XorByte(d, x), Fnv.XorByte(d, y));
    Fnv.XorByteInByte(d, x, y);
  }

  /** Equal digests over strings that differ only within three adjacent bytes mean equal strings. */
  lemma HashPinsWindow(d: u32, a: seq<u8>, b: seq<u8>, at: nat)
    requires DifferOnlyWithin(a, b, at, 3) && Fnv.Hash(d, a) == Fnv.Hash(d, b)
    ensures a == b
  {
    hide Fnv.Hash;
    var lo, hi := Min(at, |a|), Min(at + 3, |a|);
    var before, after := a[..lo], a[hi..];
    assert a == before + (a[lo..hi] + after);
    assert b == before + (b[lo..hi] + after);
    Fnv.HashConcat(d, before, a[lo..hi] + after);
    Fnv.HashConcat(d, before, b[lo..hi] + after);
    var e := Fnv.Hash(d, before);
    Fnv.HashConcat(e, a[lo..hi], after);
    Fnv.HashConcat(e, b[lo..hi], after);
    Fnv.HashInjective(Fnv.Hash(e, a[lo..hi]), Fnv.Hash(e, b[lo..hi]), after);
    ShortRunInjective(e, a[lo..hi], b[lo..hi]);
  }

  lemma DigitsPinned(a0: u8, a1: u8, a2: u8, a3: u8, b0: u8, b1: u8, b2: u8, b3: u8)
    requires ReadU32([a0, a1, a2, a3], 0) == ReadU32([b0, b1, b2, b3], 0)
    ensures a0 == b0 && a1 == b1 && a2 == b2 && a3 == b3
  {
    var x0: int, x1: int, x2: int, x3: int := a0 - b0, a1 - b1, a2 - b2, a3 - b3;
    assert x0 + 0x100 * (x1 + 0x100 * (x2 + 0x100 * x3)) == 0;
    assert x0 == 0;
    assert x1 + 0x100 * (x2 + 0x100 * x3) == 0;
    assert x1 == 0;
  }

  lemma WordPinsBytes(a: seq<u8>, b: seq<u8>, at: nat, k: nat)
    requires at + 4 <= |a| && at + 4 <= |b| && ReadU32(a, at) == ReadU32(b, at)
    requires at <= k < at + 4
    ensures a[k] == b[k]
  {
    DigitsPinned(a[at], a[at + 1], a[at + 2], a[at + 3], b[at], b[at + 1], b[at + 2], b[at + 3]);
  }

  lemma ValidatedChecksum(a: Blob, v: View, checksum: u32)
    requires Validated(a, v, checksum)
    ensures |a| >= HEADER_SIZE && ReadU32(a, CHECKSUM_OFFSET) == checksum == MaskedHash(a)
  {
  }

  /**
   Two archives of one size that both pass validation against the same constant never differ
   only within three adjacent bytes.
   */
  lemma SmallChangeDetected(a: Blob, v: View, b: Blob, w: View, checksum: u32, at: nat)
    requires Validated(a, v, checksum) && Validated(b, w, checksum)
    requires DifferOnlyWithin(a, b, at, 3)
    ensures a == b
  {
    hide Fnv.Hash;
    hide ReadU32;
    ValidatedChecksum(a, v, checksum);
    ValidatedChecksum(b, w, checksum);
    hide Validated;
    HashPinsWindow(Fnv.OFFSET_BASIS, Masked(a), Masked(b), at);
    forall k | 0 <= k < |a|
      ensures a[k] == b[k]
    {
      if CHECKSUM_OFFSET <= k < CHECKSUM_OFFSET + 4 {
        WordPinsBytes(a, b, CHECKSUM_OFFSET, k);
      } else {
        assert Masked(a)[k] == a[k] && Masked(b)[k] == b[k];
      }
    }
  }
}
