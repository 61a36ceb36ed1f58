/**
  Bitwise operations on unsigned integers, defined bit by bit so that their
  contracts can speak about individual bits.
 */
module Bits {

  function Pow2(k: nat): (r: nat)
    ensures r >= 1
  {
    if k == 0 then 1 else 2 * Pow2(k - 1)
  }

  /** Bit `i` of `a`, counting from the least significant. */
  function Bit(a: nat, i: nat): bool
    decreases i
  {
    if i == 0 then a % 2 == 1 else Bit(a / 2, i - 1)
  }

  datatype BitOp = OrOp | AndOp | XorOp

  function Apply(op: BitOp, p: bool, q: bool): bool {
    match op
    case OrOp => p || q
    case AndOp => p && q
    case XorOp => p != q
  }

  /** Applies `op` to the low `k` bits of `a` and `b` position by position. */
  function Combine(op: BitOp, a: nat, b: nat, k: nat): (r: nat)
    ensures r < Pow2(k)
    ensures forall i :: 0 <= i < k ==> Bit(r, i) == Apply(op, Bit(a, i), Bit(b, i))
    decreases k
  {
    if k == 0 then 0
    else
      var low := if Apply(op, a % 2 == 1, b % 2 == 1) then 1 else 0;
      var high := Combine(op, a / 2, b / 2, k - 1);
      var r := 2 * high + low;
      assert forall j :: 0 <= j < k - 1 ==> Bit(r, j + 1) == Bit(high, j);
      r
  }

  /** Two numbers below 2^k with the same low k bits are equal. */
  lemma {:induction false} BitsDetermine(a: nat, b: nat, k: nat)
    requires a < Pow2(k) && b < Pow2(k)
    requires forall i :: 0 <= i < k ==> Bit(a, i) == Bit(b, i)
    ensures a == b
    decreases k
  {
    if k > 0 {
      assert forall i :: 1 <= i < k ==> Bit(a, i) == Bit(a / 2, i - 1);
      assert forall i :: 1 <= i < k ==> Bit(b, i) == Bit(b / 2, i - 1);
      assert forall i :: 0 <= i < k - 1 ==> Bit(a / 2, i) == Bit(a, i + 1);
      assert forall i :: 0 <= i < k - 1 ==> Bit(b / 2, i) == Bit(b, i + 1);
      BitsDetermine(a / 2, b / 2, k - 1);
      assert Bit(a, 0) == Bit(b, 0);
    }
  }

  lemma Pow2Byte()
    ensures Pow2(8) == 0x100
  {
  }

  /** `a | b` on u8. */
  function Or8(a: nat, b: nat): (r: nat)
    requires a < 0x100 && b < 0x100
    ensures r < 0x100
    ensures forall i :: 0 <= i < 8 ==> Bit(r, i) == (Bit(a, i) || Bit(b, i))
  {
    Pow2Byte();
    Combine(OrOp, a, b, 8)
  }

  /** `a & b` on u8. */
  function And8(a: nat, b: nat): (r: nat)
    requires a < 0x100 && b < 0x100
    ensures r < 0x100
    ensures forall i :: 0 <= i < 8 ==> Bit(r, i) == (Bit(a, i) && Bit(b, i))
  {
    Pow2Byte();
    Combine(AndOp, a, b, 8)
  }

  /** `a ^ b` on u8. */
  function Xor8(a: nat, b: nat): (r: nat)
    requires a < 0x100 && b < 0x100
    ensures r < 0x100
    ensures forall i :: 0 <= i < 8 ==> Bit(r, i) == (Bit(a, i) != Bit(b, i))
  {
    Pow2Byte();
    Combine(XorOp, a, b, 8)
  }

  /** XOR with the same byte twice gives the original back. */
  lemma XorTwice(a: nat, b: nat)
    requires a < 0x100 && b < 0x100
    ensures Xor8(Xor8(a, b), b) == a
  {
    Pow2Byte();
    BitsDetermine(Xor8(Xor8(a, b), b), a, 8);
  }

  /** Masking keeps no bit outside the mask, and masking again changes nothing. */
  lemma AndWithinMask(mask: nat, a: nat)
    requires a < 0x100 && mask < 0x100
    ensures forall i :: 0 <= i < 8 && Bit(And8(mask, a), i) ==> Bit(mask, i)
    ensures And8(mask, And8(mask, a)) == And8(mask, a)
    ensures Or8(And8(mask, a), mask) == mask
  {
    Pow2Byte();
    BitsDetermine(And8(mask, And8(mask, a)), And8(mask, a), 8);
    BitsDetermine(Or8(And8(mask, a), mask), mask, 8);
  }
}
