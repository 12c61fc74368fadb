/** Bytes as produced by `TextEncoder.encode` (elements of a `Uint8Array`), and the two
    JavaScript bitwise operators that `constantTimeEqual` applies to them. */
module Bytes {

  /** An element of a `Uint8Array`. */
  type byte = x: int | 0 <= x < 256

  function Pow2(k: nat): (r: nat)
    ensures r >= 1
  {
    if k == 0 then 1 else 2 * Pow2(k - 1)
  }

  /** JavaScript `x ^ y` on operands below 2^31 (the route applies it only to bytes),
      computed bit by bit from the least significant bit. The result is zero exactly when the operands are equal. */
  function Xor(x: nat, y: nat): (r: nat)
    ensures r == 0 <==> x == y
    decreases x + y
  {
    if x == 0 && y == 0 then 0
    else 2 * Xor(x / 2, y / 2) + (if x % 2 == y % 2 then 0 else 1)
  }

  /** JavaScript `x | y` on operands below 2^31 (the route applies it only to bytes),
      computed bit by bit from the least significant bit. The result is zero exactly when both operands are zero. */
  function Or(x: nat, y: nat): (r: nat)
    ensures r == 0 <==> x == 0 && y == 0
    decreases x + y
  {
    if x == 0 && y == 0 then 0
    else 2 * Or(x / 2, y / 2) + (if x % 2 == 1 || y % 2 == 1 then 1 else 0)
  }

  /** Neither operator sets a bit above the highest bit of its operands; in particular
      bytes combine into a byte, so JavaScript's 32-bit conversion never changes them. */
  lemma {:induction false} XorBelow(x: nat, y: nat, k: nat)
    requires x < Pow2(k) && y < Pow2(k)
    ensures Xor(x, y) < Pow2(k)
    decreases x + y
  {
    if x != 0 || y != 0 {
      XorBelow(x / 2, y / 2, k - 1);
    }
  }

  lemma {:induction false} OrBelow(x: nat, y: nat, k: nat)
    requires x < Pow2(k) && y < Pow2(k)
    ensures Or(x, y) < Pow2(k)
    decreases x + y
  {
    if x != 0 || y != 0 {
      OrBelow(x / 2, y / 2, k - 1);
    }
  }

  /** Bytes combine into bytes under `^` and `|`. */
  lemma ByteOperators(x: byte, y: byte)
    ensures Xor(x, y) < 256 && Or(x, y) < 256
  {
    assert Pow2(8) == 256;
    XorBelow(x, y, 8);
    OrBelow(x, y, 8);
  }
}
