/**
 Four adjacent bytes are one too many: two archives that pass validation against the same
 constant and differ only within their last four bytes.
 */
module ArchiveCollision {
  import opened Prelude
  import opened Archive
  import opened ArchiveTamper
  import Fnv

  // ---- evaluating the hash on given bytes ----

  /** Bits, the highest first. */
  predicate IsBits(bits: seq<nat>) {
    forall k :: 0 <= k < |bits| ==> bits[k] < 2
  }

  /** The number spelled by the first `n` bits. */
  function Number(bits: seq<nat>, n: nat): nat
    requires n <= |bits|
  {
    if n == 0 then 0 else 2 * Number(bits, n - 1) + bits[n - 1]
  }

  function Octet(b: seq<nat>): nat
    requires |b| == 8
  {
    128 * b[0] + 64 * b[1] + 32 * b[2] + 16 * b[3] + 8 * b[4] + 4 * b[5] + 2 * b[6] + b[7]
  }

  /** `d` holds the bits in which `p` and `q` differ. */
  predicate BitsDiffer(p: seq<nat>, q: seq<nat>, d: seq<nat>) {
    && |p| == |q| == |d|
    && IsBits(p) && IsBits(q) && IsBits(d)
    && forall k :: 0 <= k < |d| ==> (d[k] == 0 <==> p[k] == q[k])
  }

  lemma OctetIsNumber(b: seq<nat>)
    requires |b| == 8
    ensures Number(b, 8) == Octet(b)
  {
    assert Number(b, 1) == b[0];
    assert Number(b, 2) == 2 * b[0] + b[1];
    assert Number(b, 4) == 4 * Number(b, 2) + 2 * b[2] + b[3];
    assert Number(b, 6) == 4 * Number(b, 4) + 2 * b[4] + b[5];
  }

  lemma {:induction false} XorNumbers(p: seq<nat>, q: seq<nat>, d: seq<nat>, n: nat)
    requires BitsDiffer(p, q, d) && n <= |p|
    ensures Fnv.Xor(Number(p, n), Number(q, n), n) == Number(d, n)
  {
    if n != 0 {
      var a, b := Number(p, n - 1), Number(q, n - 1);
      XorNumbers(p, q, d, n - 1);
      assert (2 * a + p[n - 1]) / 2 == a && (2 * b + q[n - 1]) / 2 == b;
    }
  }

  function Differ(i: nat, j: nat): nat {
    if i == j then 0 else 1
  }

  lemma Xor8Is(a: nat, b: nat)
    requires a < 0x100 && b < 0x100
    ensures Fnv.Xor8(a, b) == Fnv.Xor(a, b, 8)
  {
  }

  /** Exclusive or of two bytes given by their bits, the highest first. */
  lemma XorBits(a7: nat, a6: nat, a5: nat, a4: nat, a3: nat, a2: nat, a1: nat, a0: nat,
                b7: nat, b6: nat, b5: nat, b4: nat, b3: nat, b2: nat, b1: nat, b0: nat)
    requires a7 < 2 && a6 < 2 && a5 < 2 && a4 < 2 && a3 < 2 && a2 < 2 && a1 < 2 && a0 < 2
    requires b7 < 2 && b6 < 2 && b5 < 2 && b4 < 2 && b3 < 2 && b2 < 2 && b1 < 2 && b0 < 2
    ensures
      Fnv.Xor8(128 * a7 + 64 * a6 + 32 * a5 + 16 * a4 + 8 * a3 + 4 * a2 + 2 * a1 + a0,
               128 * b7 + 64 * b6 + 32 * b5 + 16 * b4 + 8 * b3 + 4 * b2 + 2 * b1 + b0) ==
      128 * Differ(a7, b7) + 64 * Differ(a6, b6) + 32 * Differ(a5, b5) + 16 * Differ(a4, b4) +
      8 * Differ(a3, b3) + 4 * Differ(a2, b2) + 2 * Differ(a1, b1) + Differ(a0, b0)
  {
    hide Number;
    hide Fnv.Xor;
    hide Fnv.Xor8;
    var p, q := [a7, a6, a5, a4, a3, a2, a1, a0], [b7, b6, b5, b4, b3, b2, b1, b0];
    var d := [Differ(a7, b7), Differ(a6, b6), Differ(a5, b5), Differ(a4, b4),
              Differ(a3, b3), Differ(a2, b2), Differ(a1, b1), Differ(a0, b0)];
    OctetIsNumber(p);
    OctetIsNumber(q);
    OctetIsNumber(d);
    XorNumbers(p, q, d, 8);
    Xor8Is(Octet(p), Octet(q));
  }

  /** One step of the hash, the digest split into its high part and its low byte. */
  lemma StepIs(high: nat, low: u8, b: u8, x: u8)
    requires high < 0x100_0000 && Fnv.Xor8(low, b) == x
    ensures Fnv.Step(0x100 * high + low, b) == Fnv.TimesPrime(0x100 * high + x)
  {
    hide Fnv.Xor8;
    assert (0x100 * high + low) % 0x100 == low;
  }

  lemma {:induction false} XorZero(a: nat, bits: nat)
    requires a < Pow2(bits)
    ensures Fnv.Xor(a, 0, bits) == a
    decreases bits
  {
    if bits != 0 {
      XorZero(a / 2, bits - 1);
    }
  }

  lemma Xor8Zero(a: u8)
    ensures Fnv.Xor8(a, 0) == a
  {
    assert Pow2(4) == 16;
    XorZero(a, 8);
  }

  lemma StepZero(d: u32)
    ensures Fnv.Step(d, 0) == Fnv.TimesPrime(d)
  {
    hide Fnv.Xor8;
    Xor8Zero(d % 0x100);
  }

  function Steps(d: u32, b0: u8, b1: u8, b2: u8, b3: u8): u32 {
    Fnv.Step(Fnv.Step(Fnv.Step(Fnv.Step(d, b0), b1), b2), b3)
  }

  /** The digest of the first `k` bytes. */
  function DigestTo(a: seq<u8>, k: nat): u32
    requires k <= |a|
  {
    Fnv.Hash(Fnv.OFFSET_BASIS, a[..k])
  }

  lemma HashWord(a: seq<u8>, k: nat, b0: u8, b1: u8, b2: u8, b3: u8)
    requires k + 4 <= |a| && a[k] == b0 && a[k + 1] == b1 && a[k + 2] == b2 && a[k + 3] == b3
    ensures DigestTo(a, k + 4) == Steps(DigestTo(a, k), b0, b1, b2, b3)
  {
    hide Fnv.Step;
    var e, word := DigestTo(a, k), [b0, b1, b2, b3];
    assert a[..k + 4] == a[..k] + word;
    Fnv.HashConcat(Fnv.OFFSET_BASIS, a[..k], word);
    assert word[1..] == [b1, b2, b3];
    HashOf3(Fnv.Step(e, b0), b1, b2, b3);
  }

  /** The fourth power of the prime, modulo 2^32. */
  const PRIME_4: nat := 1345077009

  lemma ProductsReduce(v: nat, p: nat, q: nat)
    ensures (v * p) % U32_MODULUS * q % U32_MODULUS == v * (p * q) % U32_MODULUS
  {
    var k := (v * p) / U32_MODULUS;
    assert v * (p * q) == v * p * q;
    ReduceOnce((v * p) % U32_MODULUS * q, k * q);
    assert v * p * q == (v * p) % U32_MODULUS * q + k * q * U32_MODULUS;
  }

  lemma ReduceOnce(x: int, k: int)
    ensures (x + k * U32_MODULUS) % U32_MODULUS == x % U32_MODULUS
  {
    var j := x / U32_MODULUS;
    assert x + k * U32_MODULUS == x % U32_MODULUS + (j + k) * U32_MODULUS;
  }

  /** A word of a byte and three zeros multiplies by the fourth power. */
  lemma SmallWord(high: nat, low: u8, b: u8, x: u8)
    requires high < 0x100_0000 && Fnv.Xor8(low, b) == x
    ensures Steps(0x100 * high + low, b, 0, 0, 0) == (0x100 * high + x) * PRIME_4 % U32_MODULUS
  {
    hide Fnv.Xor8;
    var v: u32 := 0x100 * high + x;
    StepIs(high, low, b, x);
    hide Fnv.Step;
    var w := Fnv.TimesPrime(v);
    StepZero(w);
    StepZero(Fnv.TimesPrime(w));
    StepZero(Fnv.TimesPrime(Fnv.TimesPrime(w)));
    FourthPower(v);
  }

  lemma FourthPower(v: nat)
    requires v < U32_MODULUS
    ensures Fnv.TimesPrime(Fnv.TimesPrime(Fnv.TimesPrime(Fnv.TimesPrime(v)))) == v * PRIME_4 % U32_MODULUS
  {
    var p: nat := Fnv.PRIME;
    ProductsReduce(v, p, p);
    ProductsReduce(v, p * p, p);
    ProductsReduce(v, p * p * p, p);
    assert p * p * p * p == PRIME_4 + 18448516550316366547 * U32_MODULUS;
    ReduceOnce(v * PRIME_4, v * 18448516550316366547);
  }

  // ---- the two archives ----

  /** Version 2, no records, four bytes of strings, and the digest of either table. */
  const HEADER: seq<u8> := [
    83, 71, 75, 80, 2, 0, 0, 0, 0, 0, 0, 0, 0, 0, 0, 0, 0, 0, 0, 0, 4, 0, 0, 0, 139, 60, 117, 232]

  const CHECKSUM: u32 := 3899997323
  const STRINGS: seq<u8> := [0, 246, 3, 0]
  const OTHER_STRINGS: seq<u8> := [2, 96, 128, 41]
  const VIEW := View(0, 0, 0, 4, CHECKSUM, 28, 28, 28, 28)

  /** The first 28 bytes are the header with its checksum masked. */
  predicate StartsLikeHeader(a: seq<u8>)
    requires |a| == 32
  {
    && a[0] == 83 && a[1] == 71 && a[2] == 75 && a[3] == 80 && a[4] == 2 && a[20] == 4
    && forall k :: 5 <= k < 28 && k != 20 ==> a[k] == 0
  }

  lemma MagicSteps()
    ensures Steps(2166136261, 83, 71, 75, 80) == 2535256804
  {
    hide Fnv.Xor8;
    hide Fnv.Step;
    assert Fnv.Step(2166136261, 83) == 3591115554 by {
      XorBits(1, 1, 0, 0, 0, 1, 0, 1, 0, 1, 0, 1, 0, 0, 1, 1);
      StepIs(8461469, 197, 83, 150);
    }
    assert Fnv.Step(3591115554, 71) == 1510115327 by {
      XorBits(0, 0, 1, 0, 0, 0, 1, 0, 0, 1, 0, 0, 0, 1, 1, 1);
      StepIs(14027795, 34, 71, 101);
    }
    assert Fnv.Step(1510115327, 75) == 1710989404 by {
      XorBits(1, 1, 1, 1, 1, 1, 1, 1, 0, 1, 0, 0, 1, 0, 1, 1);
      StepIs(5898887, 255, 75, 180);
    }
    assert Fnv.Step(1710989404, 80) == 2535256804 by {
      XorBits(0, 1, 0, 1, 1, 1, 0, 0, 0, 1, 0, 1, 0, 0, 0, 0);
      StepIs(6683552, 92, 80, 12);
    }
  }

  lemma VersionSteps()
    ensures Steps(2535256804, 2, 0, 0, 0) == 3359292230
  {
    hide Fnv.Xor8;
    hide Steps;
    XorBits(1, 1, 1, 0, 0, 1, 0, 0, 0, 0, 0, 0, 0, 0, 1, 0);
    SmallWord(9903346, 228, 2, 230);
  }

  lemma SignerSteps()
    ensures Steps(3359292230, 0, 0, 0, 0) == 3489966502
  {
    hide Fnv.Xor8;
    hide Steps;
    Xor8Zero(70);
    SmallWord(13122235, 70, 0, 70);
  }

  lemma ManifestSteps()
    ensures Steps(3489966502, 0, 0, 0, 0) == 4271316486
  {
    hide Fnv.Xor8;
    hide Steps;
    Xor8Zero(166);
    SmallWord(13632681, 166, 0, 166);
  }

  lemma PayloadSteps()
    ensures Steps(4271316486, 0, 0, 0, 0) == 561281126
  {
    hide Fnv.Xor8;
    hide Steps;
    Xor8Zero(6);
    SmallWord(16684830, 6, 0, 6);
  }

  lemma StringByteSteps()
    ensures Steps(561281126, 4, 0, 0, 0) == 859053186
  {
    hide Fnv.Xor8;
    hide Steps;
    XorBits(0, 1, 1, 0, 0, 1, 1, 0, 0, 0, 0, 0, 0, 1, 0, 0);
    SmallWord(2192504, 102, 4, 98);
  }

  lemma MaskSteps()
    ensures Steps(859053186, 0, 0, 0, 0) == 3218203298
  {
    hide Fnv.Xor8;
    hide Steps;
    Xor8Zero(130);
    SmallWord(3355676, 130, 0, 130);
  }

  lemma StringSteps()
    ensures Steps(3218203298, 0, 246, 3, 0) == 3899997323
  {
    hide Fnv.Xor8;
    hide Fnv.Step;
    assert Fnv.Step(3218203298, 0) == 2573714694 by {
      StepZero(3218203298);
    }
    assert Fnv.Step(2573714694, 246) == 1851562192 by {
      XorBits(0, 0, 0, 0, 0, 1, 1, 0, 1, 1, 1, 1, 0, 1, 1, 0);
      StepIs(10053573, 6, 246, 240);
    }
    assert Fnv.Step(1851562192, 3) == 2395247657 by {
      XorBits(1, 1, 0, 1, 0, 0, 0, 0, 0, 0, 0, 0, 0, 0, 1, 1);
      StepIs(7232664, 208, 3, 211);
    }
    assert Fnv.Step(2395247657, 0) == 3899997323 by {
      StepZero(2395247657);
    }
  }

  lemma OtherStringSteps()
    ensures Steps(3218203298, 2, 96, 128, 41) == 3899997323
  {
    hide Fnv.Xor8;
    hide Fnv.Step;
    assert Fnv.Step(3218203298, 2) == 2540159456 by {
      XorBits(1, 0, 1, 0, 0, 0, 1, 0, 0, 0, 0, 0, 0, 0, 1, 0);
      StepIs(12571106, 162, 2, 160);
    }
    assert Fnv.Step(2540159456, 96) == 3629489280 by {
      XorBits(1, 1, 1, 0, 0, 0, 0, 0, 0, 1, 1, 0, 0, 0, 0, 0);
      StepIs(9922497, 224, 96, 128);
    }
    assert Fnv.Step(3629489280, 128) == 2395247616 by {
      XorBits(1, 0, 0, 0, 0, 0, 0, 0, 1, 0, 0, 0, 0, 0, 0, 0);
      StepIs(14177692, 128, 128, 0);
    }
    assert Fnv.Step(2395247616, 41) == 3899997323 by {
      XorBits(0, 0, 0, 0, 0, 0, 0, 0, 0, 0, 1, 0, 1, 0, 0, 1);
      StepIs(9356436, 0, 41, 41);
    }
  }

  lemma DigestNone(a: seq<u8>)
    ensures DigestTo(a, 0) == Fnv.OFFSET_BASIS
  {
  }

  lemma DigestMagic(a: seq<u8>)
    requires |a| == 32 && StartsLikeHeader(a)
    ensures DigestTo(a, 8) == 3359292230
  {
    DigestNone(a);
    hide DigestTo;
    hide Steps;
    HashWord(a, 0, 83, 71, 75, 80);
    MagicSteps();
    HashWord(a, 4, 2, 0, 0, 0);
    VersionSteps();
  }

  lemma DigestCounts(a: seq<u8>)
    requires |a| == 32 && StartsLikeHeader(a)
    ensures DigestTo(a, 16) == 4271316486
  {
    DigestMagic(a);
    hide DigestTo;
    hide Steps;
    HashWord(a, 8, 0, 0, 0, 0);
    SignerSteps();
    HashWord(a, 12, 0, 0, 0, 0);
    ManifestSteps();
  }

  lemma DigestPayloads(a: seq<u8>)
    requires |a| == 32 && StartsLikeHeader(a)
    ensures DigestTo(a, 24) == 859053186
  {
    DigestCounts(a);
    hide DigestTo;
    hide Steps;
    HashWord(a, 16, 0, 0, 0, 0);
    PayloadSteps();
    HashWord(a, 20, 4, 0, 0, 0);
    StringByteSteps();
  }

  lemma DigestHeader(a: seq<u8>)
    requires |a| == 32 && StartsLikeHeader(a)
    ensures DigestTo(a, 28) == 3218203298
  {
    DigestPayloads(a);
    hide DigestTo;
    hide Steps;
    HashWord(a, 24, 0, 0, 0, 0);
    MaskSteps();
  }

  lemma MaskedBytes(strings: seq<u8>, a: seq<u8>)
    requires |strings| == 4 && a == Masked(HEADER + strings)
    ensures |a| == 32 && StartsLikeHeader(a)
    ensures a[28] == strings[0] && a[29] == strings[1] && a[30] == strings[2] && a[31] == strings[3]
  {
  }

  lemma Digest(strings: seq<u8>)
    requires strings == STRINGS || strings == OTHER_STRINGS
    ensures MaskedHash(HEADER + strings) == CHECKSUM
  {
    var a := Masked(HEADER + strings);
    MaskedBytes(strings, a);
    hide Masked;
    DigestHeader(a);
    assert DigestTo(a, 32) == MaskedHash(HEADER + strings) by {
      assert a[..32] == a;
    }
    hide DigestTo;
    hide Steps;
    if strings == STRINGS {
      HashWord(a, 28, 0, 246, 3, 0);
      StringSteps();
    } else {
      HashWord(a, 28, 2, 96, 128, 41);
      OtherStringSteps();
    }
  }

  lemma Parses(strings: seq<u8>)
    requires |strings| == 4
    ensures IsLayout(HEADER + strings, VIEW)
  {
    var a := HEADER + strings;
    assert a[..28] == HEADER;
  }

  lemma Passes(strings: seq<u8>)
    requires strings == STRINGS || strings == OTHER_STRINGS
    ensures Validated(HEADER + strings, VIEW, CHECKSUM)
  {
    hide IsLayout;
    hide MaskedHash;
    Digest(strings);
    Parses(strings);
  }

  /** Both archives validate; they differ only within four adjacent bytes, and they do differ. */
  lemma FourBytesCollide()
    ensures Validated(HEADER + STRINGS, VIEW, CHECKSUM) && Validated(HEADER + OTHER_STRINGS, VIEW, CHECKSUM)
    ensures DifferOnlyWithin(HEADER + STRINGS, HEADER + OTHER_STRINGS, 28, 4)
    ensures HEADER + STRINGS != HEADER + OTHER_STRINGS
  {
    hide Validated;
    Passes(STRINGS);
    Passes(OTHER_STRINGS);
    assert (HEADER + STRINGS)[28] != (HEADER + OTHER_STRINGS)[28];
  }
}
