/** Single bits of the frame bitmap's words. */
module FrameBits {
  import opened Prelude

  /** Whether bit `b` of the word is set. */
  predicate Bit(w: nat, b: nat)
    decreases b
  {
    if b == 0 then w % 2 == 1 else Bit(w / 2, b - 1)
  }

  /** The word with bit `b` set or cleared. */
  function WithBit(w: nat, b: nat, on: bool): nat
    decreases b
  {
    if b == 0 then w - w % 2 + (if on then 1 else 0) else 2 * WithBit(w / 2, b - 1, on) + w % 2
  }

  lemma WithBitHalves(w: nat, b: nat, on: bool)
    ensures WithBit(w, b, on) / 2 == if b == 0 then w / 2 else WithBit(w / 2, b - 1, on)
    ensures WithBit(w, b, on) % 2 == if b != 0 then w % 2 else if on then 1 else 0
  {
  }

  lemma {:induction false} BitOfWithBit(w: nat, b: nat, on: bool, c: nat)
    ensures Bit(WithBit(w, b, on), c) == if b == c then on else Bit(w, c)
    decreases b
  {
    WithBitHalves(w, b, on);
    hide WithBit;
    if b != 0 && c != 0 {
      BitOfWithBit(w / 2, b - 1, on, c - 1);
    }
  }

  lemma {:induction false} WithBitFits(w: nat, b: nat, on: bool, n: nat)
    requires w < Pow2(n) && b < n
    ensures WithBit(w, b, on) < Pow2(n)
    decreases b
  {
    if b != 0 {
      WithBitFits(w / 2, b - 1, on, n - 1);
    } else {
      assert n != 0 && Pow2(n) % 2 == 0;
    }
  }

  predicate AllSet(w: nat, n: nat) {
    forall b :: 0 <= b < n ==> Bit(w, b)
  }

  /** The word with every bit set is the largest. */
  lemma {:induction false} FullIff(w: nat, n: nat)
    requires w < Pow2(n)
    ensures w == Pow2(n) - 1 <==> AllSet(w, n)
    decreases n
  {
    if n == 0 {
      assert Pow2(n) == 1;
    } else {
      FullIff(w / 2, n - 1);
      assert forall b :: 0 <= b < n - 1 ==> Bit(w / 2, b) == Bit(w, b + 1);
      assert forall b :: 0 < b < n ==> Bit(w, b) == Bit(w / 2, b - 1);
      assert AllSet(w, n) <==> AllSet(w / 2, n - 1) && Bit(w, 0);
      assert w == Pow2(n) - 1 <==> w / 2 == Pow2(n - 1) - 1 && w % 2 == 1;
    }
  }

  lemma Pow32()
    ensures Pow2(32) == U32_MODULUS
  {
    assert Pow2(8) == 0x100;
    assert Pow2(16) == 0x1_0000;
    assert Pow2(24) == 0x100_0000;
  }
}
