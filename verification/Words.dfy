// 32-bit words and their operations.
module Words {
  import opened Bits

  const TWO32: nat := 0x1_0000_0000

  // A 32-bit word.
  type Word = x: nat | x < TWO32

  function And(x: nat, y: nat): nat {
    if x == 0 || y == 0 then 0
    else 2 * And(x / 2, y / 2) + (if x % 2 == 1 && y % 2 == 1 then 1 else 0)
  }

  function Or(x: nat, y: nat): nat {
    if x == 0 then y
    else if y == 0 then x
    else 2 * Or(x / 2, y / 2) + (if x % 2 == 1 || y % 2 == 1 then 1 else 0)
  }

  lemma {:induction false} AndBound(k: nat, x: nat, y: nat)
    requires x < Pow2(k) && y < Pow2(k)
    ensures And(x, y) < Pow2(k)
  {
    if k > 0 {
      AndBound(k - 1, x / 2, y / 2);
    }
  }

  lemma {:induction false} OrBound(k: nat, x: nat, y: nat)
    requires x < Pow2(k) && y < Pow2(k)
    ensures Or(x, y) < Pow2(k)
  {
    if k > 0 {
      OrBound(k - 1, x / 2, y / 2);
    }
  }

  lemma Pow2At32()
    ensures Pow2(32) == TWO32
  {
    assert Pow2(8) == 0x100 && Pow2(16) == 0x1_0000 && Pow2(24) == 0x100_0000;
  }

  function WordXor(x: Word, y: Word): Word {
    Pow2At32();
    XorBound(32, x, y);
    Xor(x, y)
  }

  function WordAnd(x: Word, y: Word): Word {
    Pow2At32();
    AndBound(32, x, y);
    And(x, y)
  }

  function WordOr(x: Word, y: Word): Word {
    Pow2At32();
    OrBound(32, x, y);
    Or(x, y)
  }

  function WordNot(x: Word): Word { 0xffff_ffff - x }

  function Add(x: Word, y: Word): Word { (x + y) % TWO32 }

  // Shifts, one place at a time.
  function Shr(x: Word, n: nat): Word {
    if n == 0 then x else Shr(x, n - 1) / 2
  }

  function Shl(x: Word, n: nat): Word {
    if n == 0 then x else (2 * Shl(x, n - 1)) % TWO32
  }

  lemma {:induction false} ShlScales(x: Word, n: nat)
    requires x * Pow2(n) < TWO32
    ensures Shl(x, n) == x * Pow2(n)
  {
    if n > 0 {
      assert x * Pow2(n) == 2 * (x * Pow2(n - 1));
      ShlScales(x, n - 1);
    }
  }
}
