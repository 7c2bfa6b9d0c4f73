// Bit masks held as natural numbers: the vectors over GF(2) of the mapping
// solver (tools/g3_probe/solve_mapping.py).
module Masks {
  import opened Bits
  import opened Words

  predicate Bit(x: nat, j: nat) {
    if j == 0 then x % 2 == 1 else Bit(x / 2, j - 1)
  }

  // x & ~y
  function AndNot(x: nat, y: nat): nat {
    if x == 0 then 0
    else 2 * AndNot(x / 2, y / 2) + (if x % 2 == 1 && y % 2 == 0 then 1 else 0)
  }

  function BitCount(x: nat): nat {
    if x == 0 then 0 else x % 2 + BitCount(x / 2)
  }

  // GF(2) inner product.
  predicate Dot(u: nat, v: nat) {
    BitCount(And(u, v)) % 2 == 1
  }

  // The set bits in ascending order, counted from `base`.
  function BitsFrom(x: nat, base: nat): seq<nat> {
    if x == 0 then []
    else (if x % 2 == 1 then [base] else []) + BitsFrom(x / 2, base + 1)
  }

  function IterBits(x: nat): seq<nat> {
    BitsFrom(x, 0)
  }

  // (1 << n) - 1
  function Ones(n: nat): nat {
    if n == 0 then 0 else 2 * Ones(n - 1) + 1
  }

  // ---- single bits -----------------------------------------------------------

  lemma {:induction false} ZeroHasNoBit(j: nat)
    ensures !Bit(0, j)
  {
    if j > 0 {
      ZeroHasNoBit(j - 1);
    }
  }

  lemma {:induction false} BitOfXor(x: nat, y: nat, j: nat)
    ensures Bit(Xor(x, y), j) == (Bit(x, j) != Bit(y, j))
  {
    XorParts(x, y);
    if j > 0 {
      BitOfXor(x / 2, y / 2, j - 1);
    }
  }

  lemma {:induction false} BitOfAnd(x: nat, y: nat, j: nat)
    ensures Bit(And(x, y), j) == (Bit(x, j) && Bit(y, j))
  {
    AndParts(x, y);
    if j > 0 {
      BitOfAnd(x / 2, y / 2, j - 1);
    }
  }

  lemma {:induction false} BitOfOr(x: nat, y: nat, j: nat)
    ensures Bit(Or(x, y), j) == (Bit(x, j) || Bit(y, j))
  {
    OrParts(x, y);
    if j > 0 {
      BitOfOr(x / 2, y / 2, j - 1);
    }
  }

  lemma {:induction false} BitOfAndNot(x: nat, y: nat, j: nat)
    ensures Bit(AndNot(x, y), j) == (Bit(x, j) && !Bit(y, j))
  {
    AndNotParts(x, y);
    if j > 0 {
      BitOfAndNot(x / 2, y / 2, j - 1);
    }
  }

  lemma {:induction false} BitOfPow2(k: nat, j: nat)
    ensures Bit(Pow2(k), j) == (j == k)
  {
    if j > 0 && k > 0 {
      BitOfPow2(k - 1, j - 1);
    } else if k == 0 && j > 0 {
      ZeroHasNoBit(j - 1);
    }
  }

  lemma {:induction false} BitOfOnes(n: nat, j: nat)
    ensures Bit(Ones(n), j) == (j < n)
  {
    if n == 0 {
      ZeroHasNoBit(j);
    } else if j > 0 {
      BitOfOnes(n - 1, j - 1);
    }
  }

  lemma AndParts(x: nat, y: nat)
    ensures And(x, y) / 2 == And(x / 2, y / 2)
    ensures And(x, y) % 2 == if x % 2 == 1 && y % 2 == 1 then 1 else 0
  {
  }

  lemma OrParts(x: nat, y: nat)
    ensures Or(x, y) / 2 == Or(x / 2, y / 2)
    ensures Or(x, y) % 2 == if x % 2 == 1 || y % 2 == 1 then 1 else 0
  {
  }

  lemma AndNotParts(x: nat, y: nat)
    ensures AndNot(x, y) / 2 == AndNot(x / 2, y / 2)
    ensures AndNot(x, y) % 2 == if x % 2 == 1 && y % 2 == 0 then 1 else 0
  {
  }

  // ---- whole masks -----------------------------------------------------------

  predicate SameBit(x: nat, y: nat, j: nat) { Bit(x, j) == Bit(y, j) }

  lemma {:induction false} SameBits(x: nat, y: nat)
    requires forall j {:trigger SameBit(x, y, j)} :: SameBit(x, y, j)
    ensures x == y
    decreases x + y
  {
    assert SameBit(x, y, 0);
    if x != 0 || y != 0 {
      forall j: nat ensures SameBit(x / 2, y / 2, j) {
        assert SameBit(x, y, j + 1);
      }
      SameBits(x / 2, y / 2);
    }
  }

  lemma {:induction false} SomeBit(x: nat) returns (j: nat)
    requires x != 0
    ensures Bit(x, j)
  {
    if x % 2 == 1 {
      j := 0;
    } else {
      var k := SomeBit(x / 2);
      j := k + 1;
    }
  }

  lemma NoBits(x: nat)
    requires forall j {:trigger Bit(x, j)} :: !Bit(x, j)
    ensures x == 0
  {
    if x != 0 {
      var j := SomeBit(x);
    }
  }

  lemma {:induction false} OrOfNewBit(x: nat, j: nat)
    requires !Bit(x, j)
    ensures Or(x, Pow2(j)) == Xor(x, Pow2(j))
  {
    OrParts(x, Pow2(j));
    XorParts(x, Pow2(j));
    if j > 0 {
      assert Pow2(j) / 2 == Pow2(j - 1) && Pow2(j) % 2 == 0;
      OrOfNewBit(x / 2, j - 1);
    } else {
      assert Pow2(0) / 2 == 0;
    }
  }

  lemma {:induction false} BitsFromAre(x: nat, base: nat, j: nat)
    ensures j in BitsFrom(x, base) <==> j >= base && Bit(x, j - base)
  {
    if x == 0 {
      if j >= base {
        ZeroHasNoBit(j - base);
      }
    } else {
      BitsFromAre(x / 2, base + 1, j);
    }
  }

  lemma IterBitsAre(x: nat, j: nat)
    ensures j in IterBits(x) <==> Bit(x, j)
  {
    BitsFromAre(x, 0, j);
  }

  // ---- counting --------------------------------------------------------------

  lemma {:induction false} CountZero(x: nat)
    ensures BitCount(x) == 0 <==> x == 0
  {
    if x != 0 {
      CountZero(x / 2);
    }
  }

  lemma {:induction false} CountSplits(r: nat, c: nat)
    ensures BitCount(AndNot(r, c)) + BitCount(And(c, r)) == BitCount(r)
  {
    if r != 0 {
      CountSplits(r / 2, c / 2);
      AndParts(c, r);
      AndNotParts(r, c);
      CountParts(r);
      CountParts(AndNot(r, c));
      CountParts(And(c, r));
    }
  }

  lemma CountParts(x: nat)
    ensures BitCount(x) == x % 2 + BitCount(x / 2)
  {
  }

  lemma {:induction false} CountAnd(c: nat, r: nat)
    ensures BitCount(And(c, r)) <= BitCount(c)
  {
    AndParts(c, r);
    CountParts(c);
    CountParts(And(c, r));
    if c != 0 {
      CountAnd(c / 2, r / 2);
    }
  }

  lemma {:induction false} CountOnes(n: nat)
    ensures BitCount(Ones(n)) == n
  {
    if n > 0 {
      CountOnes(n - 1);
    }
  }

  // ---- the inner product -----------------------------------------------------

  lemma DotParts(u: nat, v: nat)
    ensures Dot(u, v) == ((u % 2 == 1 && v % 2 == 1) != Dot(u / 2, v / 2))
  {
    AndParts(u, v);
    CountParts(And(u, v));
  }

  lemma {:induction false} DotXor(a: nat, b: nat, v: nat)
    ensures Dot(Xor(a, b), v) == (Dot(a, v) != Dot(b, v))
    decreases v
  {
    if v != 0 {
      DotXor(a / 2, b / 2, v / 2);
      XorParts(a, b);
      DotParts(a, v);
      DotParts(b, v);
      DotParts(Xor(a, b), v);
    }
  }

  lemma {:induction false} AndComm(u: nat, v: nat)
    ensures And(u, v) == And(v, u)
  {
    if u != 0 && v != 0 {
      AndComm(u / 2, v / 2);
    }
  }

  lemma DotXorRight(t: nat, a: nat, b: nat)
    ensures Dot(t, Xor(a, b)) == (Dot(t, a) != Dot(t, b))
  {
    AndComm(t, a);
    AndComm(t, b);
    AndComm(t, Xor(a, b));
    DotXor(a, b, t);
  }

  lemma {:induction false} DotPow2(j: nat, v: nat)
    ensures Dot(Pow2(j), v) == Bit(v, j)
  {
    DotParts(Pow2(j), v);
    if j > 0 {
      assert Pow2(j) / 2 == Pow2(j - 1) && Pow2(j) % 2 == 0;
      DotPow2(j - 1, v / 2);
    } else {
      assert Pow2(0) / 2 == 0;
    }
  }
}
