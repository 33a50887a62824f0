/**
 32-bit FNV-1a (section 2 of draft-eastlake-fnv) as the package store computes it, and why
 it notices small changes: each step is injective in the digest and in the byte, and two or
 three consecutive steps are injective in the bytes they take in.
 */
module Fnv {
  import opened Prelude

  const OFFSET_BASIS: u32 := 2166136261
  const PRIME: int := 16777619
  /** The inverse of the prime modulo 2^32. */
  const PRIME_INVERSE: int := 899433627

  /** Exclusive or of two numbers of `bits` bits, bit by bit from the lowest. */
  function Xor(a: nat, b: nat, bits: nat): (x: nat)
    ensures x < Pow2(bits)
    decreases bits
  {
    if bits == 0 then 0
    else
      var high := Xor(a / 2, b / 2, bits - 1);
      if a % 2 == b % 2 then 2 * high else 2 * high + 1
  }

  lemma {:induction false} XorCancels(a: nat, b: nat, bits: nat)
    requires a < Pow2(bits) && b < Pow2(bits)
    ensures Xor(Xor(a, b, bits), b, bits) == a && Xor(a, Xor(a, b, bits), bits) == b
    decreases bits
  {
    if bits != 0 {
      var high := Xor(a / 2, b / 2, bits - 1);
      XorCancels(a / 2, b / 2, bits - 1);
      var x := Xor(a, b, bits);
      assert x / 2 == high && (x % 2 == 0 <==> a % 2 == b % 2);
    }
  }

  function Xor8(a: u8, b: u8): (x: u8) {
    assert Pow2(4) == 16;
    Xor(a, b, 8)
  }

  /** Exclusive or of a digest with a byte: only the low eight bits change. */
  function XorByte(digest: u32, b: u8): u32 {
    hide Xor8;
    digest - digest % 0x100 + Xor8(digest % 0x100, b)
  }

  function TimesPrime(x: u32): u32 {
    (x * PRIME) % U32_MODULUS
  }

  function Step(digest: u32, b: u8): u32 {
    TimesPrime(XorByte(digest, b))
  }

  function Hash(digest: u32, bytes: seq<u8>): u32
    decreases bytes
  {
    if bytes == [] then digest else Hash(Step(digest, bytes[0]), bytes[1..])
  }

  lemma Xor8Cancels(a: u8, b: u8)
    ensures Xor8(Xor8(a, b), b) == a && Xor8(a, Xor8(a, b)) == b
  {
    assert Pow2(4) == 16;
    XorCancels(a, b, 8);
  }

  lemma XorByteInjective(d: u32, e: u32, b: u8)
    requires XorByte(d, b) == XorByte(e, b)
    ensures d == e
  {
    hide Xor8;
    Xor8Cancels(d % 0x100, b);
    Xor8Cancels(e % 0x100, b);
  }

  /** Multiplication by the prime loses nothing modulo 2^32. */
  lemma TimesPrimeInjective(x: u32, y: u32)
    requires TimesPrime(x) == TimesPrime(y)
    ensures x == y
  {
    var k := (x * PRIME) / U32_MODULUS - (y * PRIME) / U32_MODULUS;
    assert (x - y) * PRIME == k * U32_MODULUS;
    assert PRIME * PRIME_INVERSE == 1 + 3513497 * U32_MODULUS;
    assert x - y == U32_MODULUS * (k * PRIME_INVERSE - (x - y) * 3513497);
  }

  lemma StepInjective(d: u32, e: u32, b: u8)
    requires Step(d, b) == Step(e, b)
    ensures d == e
  {
    TimesPrimeInjective(XorByte(d, b), XorByte(e, b));
    XorByteInjective(d, e, b);
  }

  /** Digests that differ stay apart under equal bytes. */
  lemma {:induction false} HashInjective(d: u32, e: u32, bytes: seq<u8>)
    requires Hash(d, bytes) == Hash(e, bytes)
    ensures d == e
    decreases bytes
  {
    if bytes != [] {
      HashInjective(Step(d, bytes[0]), Step(e, bytes[0]), bytes[1..]);
      StepInjective(d, e, bytes[0]);
    }
  }

  lemma {:induction false} HashConcat(d: u32, a: seq<u8>, b: seq<u8>)
    ensures Hash(d, a + b) == Hash(Hash(d, a), b)
    decreases a
  {
    if a == [] {
      assert a + b == b;
    } else {
      assert (a + b)[1..] == a[1..] + b;
      HashConcat(Step(d, a[0]), a[1..], b);
    }
  }

  /** Products that agree above the low byte come from equal factors, if the factors do too. */
  lemma HighPartsAgree(x: u32, y: u32)
    requires x / 0x100 == y / 0x100
    requires TimesPrime(x) / 0x100 == TimesPrime(y) / 0x100
    ensures x == y
  {
    var p, q := TimesPrime(x), TimesPrime(y);
    var k := (x * PRIME) / U32_MODULUS - (y * PRIME) / U32_MODULUS;
    var delta := x - y;
    assert -0x100 < delta < 0x100 && -0x100 < p - q < 0x100;
    assert p - q == delta * PRIME - k * U32_MODULUS;
    assert PRIME == 0x100_0000 + 403;
    assert p - q - 403 * delta == 0x100_0000 * (delta - 0x100 * k);
    assert delta - 0x100 * k == 0;
  }

  lemma XorByteHigh(d: u32, b: u8)
    ensures XorByte(d, b) / 0x100 == d / 0x100
  {
    hide Xor8;
  }

  lemma XorByteInByte(d: u32, b: u8, c: u8)
    requires XorByte(d, b) == XorByte(d, c)
    ensures b == c
  {
    hide Xor8;
    Xor8Cancels(d % 0x100, b);
    Xor8Cancels(d % 0x100, c);
  }

  /** Two consecutive bytes are determined by the digests before and after them. */
  lemma TwoStepsInjective(d: u32, a: u8, b: u8, a': u8, b': u8)
    requires Step(Step(d, a), b) == Step(Step(d, a'), b')
    ensures a == a' && b == b'
  {
    var x, y := XorByte(d, a), XorByte(d, a');
    var p, q := Step(d, a), Step(d, a');
    TimesPrimeInjective(XorByte(p, b), XorByte(q, b'));
    XorByteHigh(p, b);
    XorByteHigh(q, b');
    XorByteHigh(d, a);
    XorByteHigh(d, a');
    HighPartsAgree(x, y);
    XorByteInByte(d, a, a');
    XorByteInByte(p, b, b');
  }

  /**
   The arithmetic behind three steps: a small difference of first bytes, carried through two
   multiplications and a small correction, never comes out smaller than a byte.
   */
  lemma NoSmallImage(delta: int, s: int, r: int, k: int)
    requires -0x100 < delta < 0x100 && -0x200 < s < 0x200 && -0x100 < r < 0x100
    requires (delta * PRIME + s) * PRIME == r + k * U32_MODULUS
    ensures delta == 0 && s == 0
  {
    var t := 403 * delta + s;
    var j := 0x100 * k - 0x100_0000 * delta - 806 * delta - s;
    assert 403 * t - r == 0x100_0000 * j;
    assert -3 < j < 3;
    assert j == 0;
  }

  lemma ProductDifference(x: u32, y: u32) returns (k: int)
    ensures TimesPrime(x) - TimesPrime(y) == (x - y) * PRIME - k * U32_MODULUS
  {
    k := (x * PRIME) / U32_MODULUS - (y * PRIME) / U32_MODULUS;
  }

  lemma FirstOfThree(x: u32, y: u32, x': u32, y': u32)
    requires x / 0x100 == y / 0x100
    requires x' / 0x100 == TimesPrime(x) / 0x100 && y' / 0x100 == TimesPrime(y) / 0x100
    requires TimesPrime(x') / 0x100 == TimesPrime(y') / 0x100
    ensures x == y
  {
    hide TimesPrime;
    var k := ProductDifference(x, y);
    var k' := ProductDifference(x', y');
    var p, q, r := TimesPrime(x), TimesPrime(y), TimesPrime(x') - TimesPrime(y');
    var delta, s := x - y, (x' - p) - (y' - q);
    assert -0x100 < x' - p < 0x100 && -0x100 < y' - q < 0x100 && -0x100 < r < 0x100;
    Combine(delta, x' - y', s, r, k, k');
    NoSmallImage(delta, s, r, k' + k * PRIME);
  }

  lemma Combine(delta: int, gap: int, s: int, r: int, k: int, k': int)
    requires gap - s == delta * PRIME - k * U32_MODULUS
    requires r == gap * PRIME - k' * U32_MODULUS
    ensures (delta * PRIME + s) * PRIME == r + (k' + k * PRIME) * U32_MODULUS
  {
  }

  /** Three consecutive bytes, too, are determined by the digests before and after them. */
  lemma ThreeStepsInjective(d: u32, a: u8, b: u8, c: u8, a': u8, b': u8, c': u8)
    requires Step(Step(Step(d, a), b), c) == Step(Step(Step(d, a'), b'), c')
    ensures a == a' && b == b' && c == c'
  {
    hide XorByte;
    var p1, q1 := Step(d, a), Step(d, a');
    var p2, q2 := Step(p1, b), Step(q1, b');
    TimesPrimeInjective(XorByte(p2, c), XorByte(q2, c'));
    XorByteHigh(p2, c);
    XorByteHigh(q2, c');
    XorByteHigh(d, a);
    XorByteHigh(d, a');
    XorByteHigh(p1, b);
    XorByteHigh(q1, b');
    FirstOfThree(XorByte(d, a), XorByte(d, a'), XorByte(p1, b), XorByte(q1, b'));
    XorByteInByte(d, a, a');
    TwoStepsInjective(p1, b, c, b', c');
  }
}
