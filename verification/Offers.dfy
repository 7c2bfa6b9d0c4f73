// The tuples of columns the targeted search offers, and the covers it records
// for them: a functional is collected with OR, its cover with XOR
// (tools/g3_probe/solve_mapping.py).
module Offers {
  import opened Bits
  import opened Masks
  import opened Covers
  import opened CandidatePool
  import opened Sorting

  // The tuples the search forms: the first column is the target's, one column
  // is linear, a pair ascends, and three or four columns end with, or are,
  // pairs of different ones.
  predicate Shape(nLinear: nat, target: nat, js: seq<nat>) {
    && 1 <= |js| <= 4 && Bit(target, js[0])
    && (|js| == 1 ==> js[0] < nLinear)
    && (|js| == 2 ==> js[0] < js[1])
    && (|js| == 3 ==> js[1] != js[2])
    && (|js| == 4 ==> js[0] != js[1] && js[2] != js[3])
  }

  // Column a with a larger one of its signature gives theta.
  ghost predicate PartnerGives(pos: seq<nat>, columns: seq<nat>, a: nat, theta: nat) {
    exists b: nat :: b in columns && a < b && Sig(pos, b) == Sig(pos, a) && OrBits([a, b]) == theta
  }

  // Column a with a free pair gives theta.
  ghost predicate PairGives(pos: seq<nat>, columns: seq<nat>, a: nat, theta: nat) {
    exists x: nat, y: nat :: x in columns && y in columns && x < y
                             && Xor(Sig(pos, x), Sig(pos, y)) == Sig(pos, a) && OrBits([a] + [x, y]) == theta
  }

  // c was offered as the tuple js; as a longer tuple only if its first column
  // gives it in no shorter one.
  ghost predicate OfferedAs(pos: seq<nat>, neg: seq<nat>, nLinear: nat, columns: seq<nat>, target: nat, c: Candidate,
                            js: seq<nat>) {
    && Shape(nLinear, target, js) && Balanced(pos, columns, js) && Dot(c.theta, target)
    && c == Made(neg, js)
    && (|js| >= 3 ==> !PartnerGives(pos, columns, js[0], c.theta))
    && (|js| == 4 ==> !PairGives(pos, columns, js[0], c.theta))
  }

  function Sig(pos: seq<nat>, j: nat): nat { Fires(pos, Pow2(j)) }

  // Appending a column whose signature completes the tuple.
  lemma Completes(pos: seq<nat>, columns: seq<nat>, js: seq<nat>, j: nat)
    requires (forall k | 0 <= k < |js| :: js[k] in columns) && j in columns && Sig(pos, j) == XorCovers(pos, js)
    ensures Balanced(pos, columns, js + [j])
  {
    XorOfMore(pos, js, j);
    XorSelf(Sig(pos, j));
  }

  lemma CompletesPair(pos: seq<nat>, columns: seq<nat>, js: seq<nat>, a: nat, b: nat)
    requires (forall k | 0 <= k < |js| :: js[k] in columns) && a in columns && b in columns
    requires Xor(Sig(pos, a), Sig(pos, b)) == XorCovers(pos, js)
    ensures Balanced(pos, columns, js + [a, b])
  {
    XorOfMore(pos, js, a);
    XorOfMore(pos, js + [a], b);
    assert js + [a] + [b] == js + [a, b];
    XorSelf(XorCovers(pos, js));
    XorAssoc(XorCovers(pos, js), Sig(pos, a), Sig(pos, b));
  }

  // A pair fires exactly on the targets that hold one of its columns.
  lemma PairBits(target: nat, a: nat, b: nat)
    requires a != b
    ensures Dot(OrBits([a, b]), target) == (Bit(target, a) != Bit(target, b))
    ensures Bit(OrBits([a, b]), a)
  {
    OrBitsAre([a, b], a);
    DistinctOrIsXor([a, b]);
    assert [a, b][..1] == [a] && [a][..0] == [];
    assert XorBits([a]) == Xor(0, Pow2(a)) == Pow2(a);
    DotXor(Pow2(a), Pow2(b), target);
    DotPow2(a, target);
    DotPow2(b, target);
  }

  lemma SameColumns(js: seq<nat>, ks: seq<nat>)
    requires forall j :: j in js <==> j in ks
    ensures OrBits(js) == OrBits(ks)
  {
    forall j: nat ensures SameBit(OrBits(js), OrBits(ks), j) {
      OrBitsAre(js, j);
      OrBitsAre(ks, j);
    }
    SameBits(OrBits(js), OrBits(ks));
  }

  // ---- which tuples repeat a column ------------------------------------------------

  // A column of the target and a smaller one outside it that both vanish on
  // every positive.
  ghost predicate Confused(pos: seq<nat>, columns: seq<nat>, target: nat) {
    exists a: nat, b: nat :: ConfusedBy(pos, columns, target, a, b)
  }

  predicate ConfusedBy(pos: seq<nat>, columns: seq<nat>, target: nat, a: nat, b: nat) {
    && b < a && a in columns && b in columns && Bit(target, a) && !Bit(target, b)
    && Sig(pos, a) == Sig(pos, b) == 0
  }

  // The first column and one other are all the columns there are.
  predicate OnlyTwo(js: seq<nat>, b: nat) {
    b in js && forall k | 0 <= k < |js| :: js[k] == js[0] || js[k] == b
  }

  // Three columns that repeat one: the anchor twice, and a smaller column
  // outside the target; both vanish on every positive.
  lemma RepeatedAnchor(pos: seq<nat>, neg: seq<nat>, nLinear: nat, columns: seq<nat>, target: nat, c: Candidate,
                       js: seq<nat>) returns (b: nat)
    requires OfferedAs(pos, neg, nLinear, columns, target, c, js) && Covers.Valid(pos, c.theta)
    requires |js| == 3 && !Distinct(js)
    ensures OnlyTwo(js, b) && ConfusedBy(pos, columns, target, js[0], b)
    ensures c.theta == OrBits([b, js[0]]) && c.cover == Fires(neg, Pow2(b))
  {
    var a := js[0];
    b := if js[1] == a then js[2] else js[1];
    assert js == [a, js[1], js[2]];
    OneOfThree(pos, a, js[1], js[2]);
    OneOfThree(neg, a, js[1], js[2]);
    SameColumns(js, [a, b]);
    SameColumns(js, [b, a]);
    TupleIsExact(pos, neg, [a, b]);
    XorOfTwo(pos, a, b);
    XorZeroIsSame(Sig(pos, a), Sig(pos, b));
    PairBits(target, a, b);
    assert !PartnerGives(pos, columns, a, c.theta);
  }

  // A column taken twice leaves the cover of the third.
  lemma OneOfThree(phis: seq<nat>, a: nat, x: nat, y: nat)
    requires x == a || y == a
    ensures XorCovers(phis, [a, x, y]) == Fires(phis, Pow2(if x == a then y else x))
  {
    var p, q := Fires(phis, Pow2(a)), Fires(phis, Pow2(if x == a then y else x));
    XorOfThree(phis, a, x, y);
    XorSelf(p);
    XorSelf(q);
    XorAssoc(p, p, q);
    XorAssoc(q, p, p);
    XorComm(p, q);
  }

  // Four columns that repeat one are two of each: three different ones would
  // have been offered as three.
  lemma RepeatedPair(pos: seq<nat>, neg: seq<nat>, nLinear: nat, columns: seq<nat>, target: nat, c: Candidate,
                     js: seq<nat>)
    requires OfferedAs(pos, neg, nLinear, columns, target, c, js) && Covers.Valid(pos, c.theta)
    requires |js| == 4 && !Distinct(js)
    ensures OnlyTwo(js, js[1]) && c.cover == 0
  {
    var a, x := js[0], js[1];
    var y := if js[2] == a || js[2] == x then js[3] else js[2];
    assert js == [a, x, js[2], js[3]];
    if y != a && y != x {
      SameColumns(js, [a, x, y]);
      FreePairGives(pos, neg, columns, c.theta, a, x, y);
      assert false;
    }
    TwiceEach(js);
    XorCoversAre(neg, js);
    FiresNothing(neg);
  }

  lemma FreePairGives(pos: seq<nat>, neg: seq<nat>, columns: seq<nat>, theta: nat, a: nat, x: nat, y: nat)
    requires x in columns && y in columns && a != x && a != y && x != y
    requires theta == OrBits([a, x, y]) && Covers.Valid(pos, theta)
    ensures PairGives(pos, columns, a, theta)
  {
    TupleIsExact(pos, neg, [a, x, y]);
    XorOfThree(pos, a, x, y);
    XorAssoc(Sig(pos, a), Sig(pos, x), Sig(pos, y));
    XorZeroIsSame(Sig(pos, a), Xor(Sig(pos, x), Sig(pos, y)));
    XorComm(Sig(pos, x), Sig(pos, y));
    SameColumns([a, x, y], [a] + [x, y]);
    SameColumns([a, x, y], [a] + [y, x]);
  }

  lemma TwiceEach(js: seq<nat>)
    requires |js| == 4 && js[0] != js[1] && js[2] != js[3] && OnlyTwo(js, js[1])
    ensures XorBits(js) == 0
  {
    assert js == [js[0], js[1], js[2], js[3]];
    forall j: nat ensures !Bit(XorBits(js), j) {
      XorBitsAre(js, j);
    }
    NoBits(XorBits(js));
  }

  // What an offer records. Its own cover, if its columns are different;
  // otherwise it has two columns, and records nothing or, if both vanish on
  // every positive, the cover of the one outside the target.
  lemma OfferedCover(pos: seq<nat>, neg: seq<nat>, nLinear: nat, columns: seq<nat>, target: nat, c: Candidate,
                     js: seq<nat>) returns (b: nat)
    requires OfferedAs(pos, neg, nLinear, columns, target, c, js) && Covers.Valid(pos, c.theta)
    ensures Distinct(js) ==> c.cover == Fires(neg, c.theta)
    ensures !Distinct(js) ==> OnlyTwo(js, b)
    ensures !Distinct(js) && c.cover != 0 ==>
              ConfusedBy(pos, columns, target, js[0], b) && c.theta == OrBits([b, js[0]])
                && c.cover == Fires(neg, Pow2(b))
  {
    b := 0;
    if Distinct(js) {
      TupleIsExact(pos, neg, js);
    } else if |js| == 3 {
      b := RepeatedAnchor(pos, neg, nLinear, columns, target, c, js);
    } else {
      b := js[1];
      RepeatedPair(pos, neg, nLinear, columns, target, c, js);
    }
  }

  // No offer for a target without such columns records a wrong cover, apart
  // from an empty one.
  lemma OfferIsExact(pos: seq<nat>, neg: seq<nat>, nLinear: nat, columns: seq<nat>, target: nat, c: Candidate,
                     js: seq<nat>)
    requires OfferedAs(pos, neg, nLinear, columns, target, c, js) && Covers.Valid(pos, c.theta)
    requires !Confused(pos, columns, target)
    ensures c.cover == Fires(neg, c.theta) || c.cover == 0
  {
    var b := OfferedCover(pos, neg, nLinear, columns, target, c, js);
  }

  // Three or more columns are always offered with their own cover.
  lemma WideOfferIsExact(pos: seq<nat>, neg: seq<nat>, nLinear: nat, columns: seq<nat>, target: nat, c: Candidate,
                         js: seq<nat>)
    requires OfferedAs(pos, neg, nLinear, columns, target, c, js) && Covers.Valid(pos, c.theta)
    requires BitCount(c.theta) >= 3
    ensures c.cover == Fires(neg, c.theta)
  {
    var b := OfferedCover(pos, neg, nLinear, columns, target, c, js);
    if !Distinct(js) {
      OnlyTwoIsNarrow(js, b);
    }
  }

  lemma OnlyTwoIsNarrow(js: seq<nat>, b: nat)
    requires js != [] && OnlyTwo(js, b)
    ensures BitCount(OrBits(js)) <= 2
  {
    var full := IterBits(OrBits(js));
    IterBitsMake(OrBits(js));
    forall i | 0 <= i < |full| ensures full[i] == js[0] || full[i] == b {
      OrBitsAre(js, full[i]);
      assert full[i] in full;
    }
    if |full| >= 3 {
      var k := ThirdColumn(full, js[0], b);
    }
  }

  lemma ThirdColumn(full: seq<nat>, a: nat, b: nat) returns (k: nat)
    requires Ascending(full) && |full| >= 3
    ensures k < 3 && full[k] != a && full[k] != b
  {
    assert full[0] < full[1] < full[2];
    k := if full[0] != a && full[0] != b then 0 else if full[1] != a && full[1] != b then 1 else 2;
  }

  // A pair of which only the larger column is the target's is offered with no
  // cover, or with that of the smaller column if both vanish on every positive.
  lemma ReversedPairCover(pos: seq<nat>, neg: seq<nat>, nLinear: nat, columns: seq<nat>, target: nat, c: Candidate,
                          js: seq<nat>, a: nat, b: nat)
    requires OfferedAs(pos, neg, nLinear, columns, target, c, js) && Covers.Valid(pos, c.theta)
    requires b < a && c.theta == OrBits([b, a]) && Bit(target, a) && !Bit(target, b)
    ensures a in columns && b in columns && Sig(pos, a) == Sig(pos, b)
    ensures c.cover == if Sig(pos, b) == 0 then Fires(neg, Pow2(b)) else 0
  {
    ReversedColumns(target, js, a, b);
    var other := OfferedCover(pos, neg, nLinear, columns, target, c, js);
    TupleIsExact(pos, neg, [b, a]);
    XorOfTwo(pos, b, a);
    XorZeroIsSame(Sig(pos, b), Sig(pos, a));
    if |js| == 3 {
      other := RepeatedAnchor(pos, neg, nLinear, columns, target, c, js);
    } else if Sig(pos, b) == 0 {
      VanishingPairGives(pos, columns, a, b);
    } else {
      RepeatedPair(pos, neg, nLinear, columns, target, c, js);
    }
  }

  lemma VanishingPairGives(pos: seq<nat>, columns: seq<nat>, a: nat, b: nat)
    requires a in columns && b in columns && b < a && Sig(pos, b) == 0
    ensures PairGives(pos, columns, a, OrBits([b, a]))
  {
    SameColumns([b, a], [a] + [b, a]);
    assert Xor(Sig(pos, b), Sig(pos, a)) == Sig(pos, a);
  }

  // Such a pair takes at least three columns, the larger one first.
  lemma ReversedColumns(target: nat, js: seq<nat>, a: nat, b: nat)
    requires 1 <= |js| <= 4 && Bit(target, js[0]) && (|js| == 2 ==> js[0] < js[1])
    requires b < a && OrBits(js) == OrBits([b, a]) && !Bit(target, b)
    ensures js[0] == a && a in js && b in js && |js| >= 3 && !Distinct(js)
    ensures forall k | 0 <= k < |js| :: js[k] == a || js[k] == b
  {
    forall j: nat ensures j in js <==> j == a || j == b {
      OrBitsAre(js, j);
      OrBitsAre([b, a], j);
    }
    assert js[0] in js && a in js && b in js;
    forall k | 0 <= k < |js| ensures js[k] == a || js[k] == b {
      assert js[k] in js;
    }
  }
}
