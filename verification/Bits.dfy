// XOR of bit patterns held as natural numbers.
module Bits {

  function Xor(x: nat, y: nat): nat {
    if x == 0 then y
    else if y == 0 then x
    else 2 * Xor(x / 2, y / 2) + (if x % 2 != y % 2 then 1 else 0)
  }

  function Pow2(k: nat): nat {
    if k == 0 then 1 else 2 * Pow2(k - 1)
  }

  // One bit and the rest of a XOR.
  lemma XorParts(x: nat, y: nat)
    ensures Xor(x, y) / 2 == Xor(x / 2, y / 2)
    ensures Xor(x, y) % 2 == if x % 2 != y % 2 then 1 else 0
  {
  }

  lemma {:induction false} XorSelf(x: nat)
    ensures Xor(x, x) == 0
  {
    if x != 0 {
      XorSelf(x / 2);
    }
  }

  lemma {:induction false} XorComm(x: nat, y: nat)
    ensures Xor(x, y) == Xor(y, x)
  {
    if x != 0 && y != 0 {
      XorComm(x / 2, y / 2);
    }
  }

  lemma {:induction false} XorAssoc(x: nat, y: nat, z: nat)
    ensures Xor(Xor(x, y), z) == Xor(x, Xor(y, z))
    decreases x + y + z
  {
    if x != 0 && y != 0 && z != 0 {
      XorAssoc(x / 2, y / 2, z / 2);
      XorParts(x, y);
      XorParts(y, z);
      XorParts(Xor(x, y), z);
      XorParts(x, Xor(y, z));
    }
  }

  lemma {:induction false} XorBound(k: nat, x: nat, y: nat)
    requires x < Pow2(k) && y < Pow2(k)
    ensures Xor(x, y) < Pow2(k)
  {
    if k > 0 {
      XorBound(k - 1, x / 2, y / 2);
    }
  }

  lemma Doubled(x: nat, y: nat)
    ensures x * (2 * y) == 2 * (x * y)
  {
  }

  // hi << k
  function ShiftedBy(hi: nat, k: nat): nat {
    if k == 0 then hi else 2 * ShiftedBy(hi, k - 1)
  }

  lemma {:induction false} ShiftMultiplies(hi: nat, k: nat)
    ensures ShiftedBy(hi, k) == hi * Pow2(k)
  {
    if k > 0 {
      ShiftMultiplies(hi, k - 1);
      Doubled(hi, Pow2(k - 1));
    }
  }

  // Xor with an aligned base only reads or writes the low bits.
  lemma XorAligned(k: nat, hi: nat, low: nat)
    requires low < Pow2(k)
    ensures Xor(hi * Pow2(k) + low, hi * Pow2(k)) == low
    ensures Xor(hi * Pow2(k), low) == hi * Pow2(k) + low
  {
    ShiftMultiplies(hi, k);
    XorShifted(k, hi, low);
  }

  lemma {:induction false} XorShifted(k: nat, hi: nat, low: nat)
    requires low < Pow2(k)
    ensures Xor(ShiftedBy(hi, k) + low, ShiftedBy(hi, k)) == low
    ensures Xor(ShiftedBy(hi, k), low) == ShiftedBy(hi, k) + low
  {
    if k == 0 {
      XorSelf(hi);
    } else {
      var h, l := ShiftedBy(hi, k - 1), low / 2;
      XorShifted(k - 1, hi, l);
      XorJoin(h + l, h, l, low % 2, 0, 2 * h + low, 2 * h);
      XorJoin(h, l, h + l, 0, low % 2, 2 * h, low);
    }
  }

  // Xor of two numbers from their halves and last bits.
  lemma XorJoin(x: nat, y: nat, z: nat, b: nat, c: nat, m: nat, n: nat)
    requires Xor(x, y) == z && b < 2 && c < 2 && m == 2 * x + b && n == 2 * y + c
    ensures Xor(m, n) == 2 * z + if b != c then 1 else 0
  {
    LastBit(x, b);
    LastBit(y, c);
    XorParts(m, n);
  }

  lemma LastBit(x: nat, b: nat)
    requires b < 2
    ensures (2 * x + b) / 2 == x && (2 * x + b) % 2 == b
  {
  }

  // ---- bytes -----------------------------------------------------------------

  type Byte = x: nat | x < 256

  function XorByte(x: Byte, y: Byte): Byte {
    assert Pow2(8) == 256;
    XorBound(8, x, y);
    Xor(x, y)
  }

  lemma XorByteLaws(x: Byte, y: Byte, z: Byte)
    ensures XorByte(XorByte(x, y), z) == XorByte(x, XorByte(y, z))
    ensures XorByte(x, y) == XorByte(y, x)
    ensures XorByte(x, 0) == x && XorByte(0, x) == x && XorByte(x, x) == 0
  {
    XorAssoc(x, y, z);
    XorComm(x, y);
    XorSelf(x);
  }

  lemma XorTwice(x: Byte, m: Byte)
    ensures XorByte(XorByte(x, m), m) == x
  {
    XorByteLaws(x, m, m);
    XorByteLaws(m, 0, 0);
    XorByteLaws(x, 0, 0);
  }

  lemma XorCancel(s: Byte, x: Byte, t: Byte)
    ensures XorByte(XorByte(XorByte(s, x), t), x) == XorByte(s, t)
  {
    XorByteLaws(s, x, t);
    XorByteLaws(s, XorByte(x, t), x);
    XorByteLaws(x, t, x);
    XorByteLaws(t, x, x);
    XorByteLaws(x, x, t);
    XorByteLaws(t, 0, 0);
  }

  // 1 << bit
  function BitMask(bit: nat): Byte {
    if bit == 0 then 1 else if bit == 1 then 2 else if bit == 2 then 4 else if bit == 3 then 8
    else if bit == 4 then 16 else if bit == 5 then 32 else if bit == 6 then 64 else if bit == 7 then 128
    else 0
  }
}
