// The separating-family solver over GF(2) (tools/g3_probe/solve_mapping.py).
//
// A functional is a mask of feature columns; it fires on a pair when its inner
// product with the pair's feature mask is odd. Covers are masks of pairs.

module Covers {
  import opened Bits
  import opened Words
  import opened Masks
  import opened Sorting

  // The pairs theta fires on, as a mask.
  function Fires(phis: seq<nat>, theta: nat): nat {
    if phis == [] then 0
    else
      var n := |phis| - 1;
      Or(Fires(phis[..n], theta), if Dot(theta, phis[n]) then Pow2(n) else 0)
  }

  lemma {:induction false} FiresBit(phis: seq<nat>, theta: nat, i: nat)
    ensures Bit(Fires(phis, theta), i) <==> i < |phis| && Dot(theta, phis[i])
  {
    if phis == [] {
      ZeroHasNoBit(i);
    } else {
      var n := |phis| - 1;
      var last := if Dot(theta, phis[n]) then Pow2(n) else 0;
      FiresBit(phis[..n], theta, i);
      BitOfOr(Fires(phis[..n], theta), last, i);
      BitOfPow2(n, i);
      ZeroHasNoBit(i);
    }
  }

  // Covers add like the functionals they belong to.
  lemma FiresXor(phis: seq<nat>, a: nat, b: nat)
    ensures Fires(phis, Xor(a, b)) == Xor(Fires(phis, a), Fires(phis, b))
  {
    var x, y := Fires(phis, Xor(a, b)), Xor(Fires(phis, a), Fires(phis, b));
    forall i: nat ensures SameBit(x, y, i) {
      FiresBit(phis, Xor(a, b), i);
      FiresBit(phis, a, i);
      FiresBit(phis, b, i);
      BitOfXor(Fires(phis, a), Fires(phis, b), i);
      if i < |phis| {
        DotXor(a, b, phis[i]);
      }
    }
    SameBits(x, y);
  }

  lemma FiresNothing(phis: seq<nat>)
    ensures Fires(phis, 0) == 0
  {
    forall i: nat ensures !Bit(Fires(phis, 0), i) {
      FiresBit(phis, 0, i);
    }
    NoBits(Fires(phis, 0));
  }

  // A functional is valid when it vanishes on every positive.
  predicate Valid(pos: seq<nat>, theta: nat) {
    Fires(pos, theta) == 0
  }

  lemma ValidVanishes(pos: seq<nat>, theta: nat)
    ensures Valid(pos, theta) <==> forall i | 0 <= i < |pos| :: !Dot(theta, pos[i])
  {
    if Valid(pos, theta) {
      forall i | 0 <= i < |pos| ensures !Dot(theta, pos[i]) {
        FiresBit(pos, theta, i);
        ZeroHasNoBit(i);
      }
    }
    if forall i | 0 <= i < |pos| :: !Dot(theta, pos[i]) {
      forall i: nat ensures !Bit(Fires(pos, theta), i) {
        FiresBit(pos, theta, i);
      }
      NoBits(Fires(pos, theta));
    }
  }

  method CoverOf(phis: seq<nat>, theta: nat) returns (out: nat)
    ensures out == Fires(phis, theta)
  {
    out := 0;
    for idx := 0 to |phis|
      invariant out == Fires(phis[..idx], theta)
    {
      assert phis[..idx + 1][..idx] == phis[..idx];
      if Dot(theta, phis[idx]) {
        out := Or(out, Pow2(idx));
      }
      OrZero(Fires(phis[..idx], theta));
    }
    assert phis[..|phis|] == phis;
  }

  lemma OrZero(x: nat)
    ensures Or(x, 0) == x
  {
  }

  // Which pairs column j occurs in.
  method Colmask(phis: seq<nat>, j: nat) returns (mask: nat)
    ensures mask == Fires(phis, Pow2(j))
  {
    mask := 0;
    for idx := 0 to |phis|
      invariant mask == Fires(phis[..idx], Pow2(j))
    {
      assert phis[..idx + 1][..idx] == phis[..idx];
      DotPow2(j, phis[idx]);
      AndWithPow2(phis[idx], j);
      if And(phis[idx], Pow2(j)) != 0 {
        mask := Or(mask, Pow2(idx));
      }
      OrZero(Fires(phis[..idx], Pow2(j)));
    }
    assert phis[..|phis|] == phis;
  }

  lemma AndWithPow2(x: nat, j: nat)
    ensures And(x, Pow2(j)) != 0 <==> Bit(x, j)
  {
    var y := And(x, Pow2(j));
    BitOfAnd(x, Pow2(j), j);
    BitOfPow2(j, j);
    ZeroHasNoBit(j);
    if y != 0 {
      var k := SomeBit(y);
      BitOfAnd(x, Pow2(j), k);
      BitOfPow2(j, k);
    }
  }

  // ---- tuples of columns -------------------------------------------------------

  function OrBits(js: seq<nat>): nat {
    if js == [] then 0 else Or(OrBits(js[..|js| - 1]), Pow2(js[|js| - 1]))
  }

  function XorBits(js: seq<nat>): nat {
    if js == [] then 0 else Xor(XorBits(js[..|js| - 1]), Pow2(js[|js| - 1]))
  }

  // XOR of the single-column covers.
  function XorCovers(phis: seq<nat>, js: seq<nat>): nat {
    if js == [] then 0 else Xor(XorCovers(phis, js[..|js| - 1]), Fires(phis, Pow2(js[|js| - 1])))
  }

  lemma {:induction false} XorCoversAre(phis: seq<nat>, js: seq<nat>)
    ensures XorCovers(phis, js) == Fires(phis, XorBits(js))
  {
    if js == [] {
      FiresNothing(phis);
    } else {
      var rest := js[..|js| - 1];
      XorCoversAre(phis, rest);
      FiresXor(phis, XorBits(rest), Pow2(js[|js| - 1]));
    }
  }

  lemma {:induction false} OrBitsAre(js: seq<nat>, j: nat)
    ensures Bit(OrBits(js), j) <==> j in js
  {
    if js == [] {
      ZeroHasNoBit(j);
    } else {
      var n := |js| - 1;
      OrBitsAre(js[..n], j);
      BitOfOr(OrBits(js[..n]), Pow2(js[n]), j);
      BitOfPow2(js[n], j);
      assert js == js[..n] + [js[n]];
    }
  }

  lemma {:induction false} XorBitsAre(js: seq<nat>, j: nat)
    ensures Bit(XorBits(js), j) <==> multiset(js)[j] % 2 == 1
  {
    if js == [] {
      ZeroHasNoBit(j);
    } else {
      var n := |js| - 1;
      XorBitsAre(js[..n], j);
      BitOfXor(XorBits(js[..n]), Pow2(js[n]), j);
      BitOfPow2(js[n], j);
      CountLast(js, j);
    }
  }

  lemma CountLast(js: seq<nat>, j: nat)
    requires js != []
    ensures multiset(js)[j] == multiset(js[..|js| - 1])[j] + if js[|js| - 1] == j then 1 else 0
  {
    assert js == js[..|js| - 1] + [js[|js| - 1]];
  }

  lemma {:induction false} DistinctOrIsXor(js: seq<nat>)
    requires Distinct(js)
    ensures OrBits(js) == XorBits(js)
  {
    if js != [] {
      var n := |js| - 1;
      DistinctOrIsXor(js[..n]);
      OrBitsAre(js[..n], js[n]);
      OrOfNewBit(OrBits(js[..n]), js[n]);
    }
  }

  // The columns that occur an even number of times, at least twice.
  function Repeated(js: seq<nat>): nat {
    Xor(OrBits(js), XorBits(js))
  }

  lemma RepeatedAre(js: seq<nat>, j: nat)
    ensures Bit(Repeated(js), j) <==> multiset(js)[j] % 2 == 0 && multiset(js)[j] >= 2
  {
    BitOfXor(OrBits(js), XorBits(js), j);
    OrBitsAre(js, j);
    XorBitsAre(js, j);
    assert j in js <==> j in multiset(js);
  }

  // A cover collected with XOR is the cover of the functional collected with OR
  // exactly when the covers of the repeated columns cancel.
  lemma OfferedCoverExactly(phis: seq<nat>, js: seq<nat>)
    ensures XorCovers(phis, js) == Fires(phis, OrBits(js)) <==> Fires(phis, Repeated(js)) == 0
    ensures forall j: nat :: Bit(Repeated(js), j) <==> multiset(js)[j] % 2 == 0 && multiset(js)[j] >= 2
  {
    forall j: nat ensures Bit(Repeated(js), j) <==> multiset(js)[j] % 2 == 0 && multiset(js)[j] >= 2 {
      RepeatedAre(js, j);
    }
    XorCoversAre(phis, js);
    FiresXor(phis, OrBits(js), XorBits(js));
    var x, y := Fires(phis, OrBits(js)), Fires(phis, XorBits(js));
    if Xor(x, y) == 0 {
      XorAssoc(x, y, y);
      XorSelf(y);
    }
    XorSelf(x);
  }

  // ---- candidates --------------------------------------------------------------

  datatype Candidate = Candidate(weight: nat, cover: nat, theta: nat)

  // A tuple of columns whose signatures cancel.
  predicate Balanced(pos: seq<nat>, columns: seq<nat>, js: seq<nat>) {
    && (forall k | 0 <= k < |js| :: js[k] in columns)
    && XorCovers(pos, js) == 0
  }

  // A functional is valid exactly when the signatures of its columns cancel.
  lemma TupleIsExact(pos: seq<nat>, neg: seq<nat>, js: seq<nat>)
    requires Distinct(js)
    ensures Valid(pos, OrBits(js)) <==> XorCovers(pos, js) == 0
    ensures XorCovers(neg, js) == Fires(neg, OrBits(js))
  {
    DistinctOrIsXor(js);
    XorCoversAre(pos, js);
    XorCoversAre(neg, js);
  }
}
