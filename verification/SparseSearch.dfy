// The targeted search of the solver for a negative that the pool cannot cover
// (tools/g3_probe/solve_mapping.py).

module SparseSearches {
  import opened Bits
  import opened Words
  import opened Masks
  import opened Covers
  import opened CandidatePool
  import opened Offers
  import opened Sorting

  const LIMIT: nat := 32
  const CAP: nat := 256

  // What the stall search may return: a valid functional that fires on the
  // target, with its own cover or none, unless a column of the target and a
  // smaller one outside it both vanish on every positive.
  ghost predicate Separates(pos: seq<nat>, neg: seq<nat>, columns: seq<nat>, target: nat, c: Candidate) {
    && Covers.Valid(pos, c.theta) && Dot(c.theta, target)
    && (!Confused(pos, columns, target) ==> c.cover == Fires(neg, c.theta) || c.cover == 0)
  }

  // ---- what has been offered ------------------------------------------------------

  // js completed by the columns a and b was offered, if it fires on the target.
  ghost predicate TwoDone(pos: seq<nat>, target: nat, seen: set<nat>, js: seq<nat>, a: nat, b: nat) {
    Xor(Sig(pos, a), Sig(pos, b)) == XorCovers(pos, js) && Dot(OrBits(js + [a, b]), target) ==>
      OrBits(js + [a, b]) in seen
  }

  // js was completed by every pair of columns.
  ghost predicate PairsDone(pos: seq<nat>, columns: seq<nat>, target: nat, seen: set<nat>, js: seq<nat>) {
    forall a: nat, b: nat {:trigger TwoDone(pos, target, seen, js, a, b)} ::
      a in columns && b in columns && a < b ==> TwoDone(pos, target, seen, js, a, b)
  }

  // The pair of a with every larger column of its signature was offered, if it
  // fires on the target.
  ghost predicate PartnersDone(pos: seq<nat>, columns: seq<nat>, target: nat, seen: set<nat>, a: nat) {
    forall b: nat {:trigger OrBits([a, b])} ::
      b in columns && a < b && Sig(pos, b) == Sig(pos, a) && Dot(OrBits([a, b]), target) ==> OrBits([a, b]) in seen
  }

  // Nothing that the shorter tuples of a give is still to be offered.
  ghost predicate ShortDone(pos: seq<nat>, columns: seq<nat>, target: nat, seen: set<nat>, a: nat, pairs: bool) {
    PartnersDone(pos, columns, target, seen, a) && (pairs ==> PairsDone(pos, columns, target, seen, [a]))
  }

  // The functional of a pair, as the search offers it when the smaller column
  // is the target's.
  function PairOf(neg: seq<nat>, a: nat, b: nat): Candidate {
    Candidate(2, XorCovers(neg, [a, b]), OrBits([a, b]))
  }

  ghost predicate PairDone(pos: seq<nat>, neg: seq<nat>, columns: seq<nat>, target: nat, out: seq<Candidate>, a: nat,
                           b: nat)
  {
    b in columns && a < b && Sig(pos, a) == Sig(pos, b) && !Bit(target, b) ==> PairOf(neg, a, b) in out
  }

  // Everything the search tries for one anchor.
  ghost predicate AnchorDone(pos: seq<nat>, neg: seq<nat>, columns: seq<nat>, target: nat, out: seq<Candidate>,
                             seen: set<nat>, a: nat) {
    && (forall b: nat {:trigger PairDone(pos, neg, columns, target, out, a, b)} ::
       PairDone(pos, neg, columns, target, out, a, b))
    && PairsDone(pos, columns, target, seen, [a])
    && forall b: nat {:trigger PairsDone(pos, columns, target, seen, [a, b])} ::
         b in columns && b != a ==> PairsDone(pos, columns, target, seen, [a, b])
  }

  lemma PartnersSeen(pos: seq<nat>, neg: seq<nat>, columns: seq<nat>, target: nat, out: seq<Candidate>, seen: set<nat>,
                     a: nat)
    requires Bit(target, a) && forall k | 0 <= k < |out| :: out[k].theta in seen
    requires forall b: nat {:trigger PairDone(pos, neg, columns, target, out, a, b)} ::
               PairDone(pos, neg, columns, target, out, a, b)
    ensures PartnersDone(pos, columns, target, seen, a)
  {
    forall b: nat | b in columns && a < b && Sig(pos, b) == Sig(pos, a) && Dot(OrBits([a, b]), target)
      ensures OrBits([a, b]) in seen
    {
      PairBits(target, a, b);
      assert PairDone(pos, neg, columns, target, out, a, b);
      var k :| 0 <= k < |out| && out[k] == PairOf(neg, a, b);
    }
  }

  lemma PairsStay(pos: seq<nat>, columns: seq<nat>, target: nat, was: set<nat>, seen: set<nat>, js: seq<nat>)
    requires PairsDone(pos, columns, target, was, js) && was <= seen
    ensures PairsDone(pos, columns, target, seen, js)
  {
    forall a: nat, b: nat | a in columns && b in columns && a < b ensures TwoDone(pos, target, seen, js, a, b) {
      assert TwoDone(pos, target, was, js, a, b);
    }
  }

  lemma ShortStays(pos: seq<nat>, columns: seq<nat>, target: nat, was: set<nat>, seen: set<nat>, a: nat, pairs: bool)
    requires ShortDone(pos, columns, target, was, a, pairs) && was <= seen
    ensures ShortDone(pos, columns, target, seen, a, pairs)
  {
    if pairs {
      PairsStay(pos, columns, target, was, seen, [a]);
    }
  }

  // What is not yet seen, no shorter tuple of a gives.
  lemma ShortGivesSeen(pos: seq<nat>, columns: seq<nat>, target: nat, seen: set<nat>, a: nat, pairs: bool, theta: nat)
    requires ShortDone(pos, columns, target, seen, a, pairs) && Dot(theta, target)
    requires PartnerGives(pos, columns, a, theta) || (pairs && PairGives(pos, columns, a, theta))
    ensures theta in seen
  {
    if pairs && PairGives(pos, columns, a, theta) {
      XorOfOne(pos, a);
      var x: nat, y: nat :| x in columns && y in columns && x < y
                            && Xor(Sig(pos, x), Sig(pos, y)) == Sig(pos, a) && OrBits([a] + [x, y]) == theta;
      assert TwoDone(pos, target, seen, [a], x, y);
    }
  }

  lemma TwosStay(pos: seq<nat>, target: nat, was: set<nat>, seen: set<nat>, js: seq<nat>)
    requires was <= seen
    ensures forall a: nat, b: nat {:trigger TwoDone(pos, target, seen, js, a, b)} ::
              TwoDone(pos, target, was, js, a, b) ==> TwoDone(pos, target, seen, js, a, b)
  {
  }

  lemma AnchorStays(pos: seq<nat>, neg: seq<nat>, columns: seq<nat>, target: nat, out: seq<Candidate>, was: set<nat>,
                    more: seq<Candidate>, seen: set<nat>, a: nat)
    requires AnchorDone(pos, neg, columns, target, out, was, a) && was <= seen && out <= more
    ensures AnchorDone(pos, neg, columns, target, more, seen, a)
  {
    forall b: nat ensures PairDone(pos, neg, columns, target, more, a, b) {
      assert PairDone(pos, neg, columns, target, out, a, b);
    }
    PairsStay(pos, columns, target, was, seen, [a]);
    forall b: nat | b in columns && b != a ensures PairsDone(pos, columns, target, seen, [a, b]) {
      PairsStay(pos, columns, target, was, seen, [a, b]);
    }
  }

  class SparseSearch {
    const pos: seq<nat>
    const neg: seq<nat>
    const nLinear: nat
    const columns: seq<nat>
    const target: nat
    var out: seq<Candidate>
    var seen: set<nat>
    ghost var tuples: seq<seq<nat>>

    constructor (pos: seq<nat>, neg: seq<nat>, nLinear: nat, columns: seq<nat>, target: nat)
      requires Ascending(columns)
      ensures this.pos == pos && this.neg == neg && this.nLinear == nLinear
      ensures this.columns == columns && this.target == target
      ensures Valid() && out == []
    {
      this.pos, this.neg, this.nLinear, this.columns, this.target := pos, neg, nLinear, columns, target;
      out, seen, tuples := [], {}, [];
    }

    // Every functional is offered once.
    ghost predicate Valid()
      reads this
    {
      && Ascending(columns) && |tuples| == |out|
      && (forall k | 0 <= k < |out| :: OfferedAs(pos, neg, nLinear, columns, target, out[k], tuples[k]))
      && (forall k | 0 <= k < |out| :: out[k].theta in seen)
      && (forall a, b | 0 <= a < b < |out| :: out[a].theta != out[b].theta)
      && |seen| == |out|
    }

    method Offer(js: seq<nat>)
      requires Valid() && Shape(nLinear, target, js) && Balanced(pos, columns, js)
      requires |js| >= 3 ==> ShortDone(pos, columns, target, seen, js[0], |js| == 4)
      modifies this
      ensures Valid()
      ensures var theta := OrBits(js);
              if theta in old(seen) || !Dot(theta, target) then out == old(out) && seen == old(seen)
              else seen == old(seen) + {theta} && out == old(out) + [Candidate(|js|, XorCovers(neg, js), theta)]
    {
      var theta := OrBits(js);
      if theta in seen || !Dot(theta, target) { return; }
      if |js| >= 3 && (PartnerGives(pos, columns, js[0], theta)
          || (|js| == 4 && PairGives(pos, columns, js[0], theta))) {
        ShortGivesSeen(pos, columns, target, seen, js[0], |js| == 4, theta);
      }
      var cover := XorCovers(neg, js);
      seen := seen + {theta};
      out := out + [Candidate(|js|, cover, theta)];
      tuples := tuples + [js];
    }

    // One anchor with a later column of its signature.
    method OfferPartners(j1: nat)
      requires Valid() && j1 in columns && Bit(target, j1)
      requires forall b: nat | b in columns && !Bit(target, b) :: OrBits([j1, b]) !in seen
      modifies this
      ensures Valid() && old(seen) <= seen && old(out) <= out
      ensures forall t | t in seen && t !in old(seen) :: Bit(t, j1)
      ensures forall b: nat {:trigger PairDone(pos, neg, columns, target, out, j1, b)} ::
                PairDone(pos, neg, columns, target, out, j1, b)
    {
      for k := 0 to |columns|
        invariant Valid() && old(seen) <= seen && old(out) <= out
        invariant forall t | t in seen && t !in old(seen) :: Bit(t, j1)
        invariant forall i | k <= i < |columns| && !Bit(target, columns[i]) :: OrBits([j1, columns[i]]) !in seen
        invariant forall i | 0 <= i < k :: PairDone(pos, neg, columns, target, out, j1, columns[i])
      {
        var j := columns[k];
        if Sig(pos, j) == Sig(pos, j1) && j > j1 {
          XorOfOne(pos, j1);
          Completes(pos, columns, [j1], j);
          assert [j1] + [j] == [j1, j];
          PairBits(target, j1, j);
          ghost var was, before := out, seen;
          Offer([j1, j]);
          assert PairDone(pos, neg, columns, target, out, j1, j);
          forall i | 0 <= i < k ensures PairDone(pos, neg, columns, target, out, j1, columns[i]) {
            assert PairDone(pos, neg, columns, target, was, j1, columns[i]);
          }
          forall i | k < i < |columns| && !Bit(target, columns[i]) ensures OrBits([j1, columns[i]]) !in seen {
            PairsDiffer(j1, j, columns[i]);
          }
        }
      }
    }

    // Two or three anchors completed by another column of the right signature.
    method OfferColumns(js: seq<nat>)
      requires Valid() && 2 <= |js| <= 3 && Bit(target, js[0]) && (forall k | 0 <= k < |js| :: js[k] in columns)
      requires js[0] != js[1] && ShortDone(pos, columns, target, seen, js[0], |js| == 3)
      modifies this
      ensures Valid() && old(seen) <= seen && old(out) <= out
      ensures forall t | t in seen && t !in old(seen) :: Bit(t, js[0])
    {
      var wanted := XorCovers(pos, js);
      for k := 0 to |columns|
        invariant Valid() && old(seen) <= seen && old(out) <= out
        invariant forall t | t in seen && t !in old(seen) :: Bit(t, js[0])
      {
        var j := columns[k];
        if Sig(pos, j) == wanted && j !in js {
          assert js[1] in js && (|js| == 3 ==> js[2] in js);
          ShortStays(pos, columns, target, old(seen), seen, js[0], |js| == 3);
          Completes(pos, columns, js, j);
          OrBitsAre(js + [j], js[0]);
          Offer(js + [j]);
        }
      }
    }

    // Completes js with every pair of columns from the signature-pair index.
    method OfferPairs(js: seq<nat>)
      requires Valid() && 1 <= |js| <= 2 && Bit(target, js[0]) && (forall k | 0 <= k < |js| :: js[k] in columns)
      requires (|js| == 2 ==> js[0] != js[1]) && ShortDone(pos, columns, target, seen, js[0], |js| == 2)
      modifies this
      ensures Valid() && old(seen) <= seen && old(out) <= out
      ensures forall t | t in seen && t !in old(seen) :: Bit(t, js[0])
      ensures PairsDone(pos, columns, target, seen, js)
    {
      for x := 0 to |columns|
        invariant Valid() && old(seen) <= seen && old(out) <= out
        invariant forall t | t in seen && t !in old(seen) :: Bit(t, js[0])
        invariant forall u, v | 0 <= u < x && u < v < |columns| ::
                  TwoDone(pos, target, seen, js, columns[u], columns[v])
      {
        ghost var was := seen;
        ShortStays(pos, columns, target, old(seen), seen, js[0], |js| == 2);
        OfferPairsFrom(js, x);
        TwosStay(pos, target, was, seen, js);
      }
      forall a: nat, b: nat | a in columns && b in columns && a < b ensures TwoDone(pos, target, seen, js, a, b) {
        var u :| 0 <= u < |columns| && columns[u] == a;
        var v :| 0 <= v < |columns| && columns[v] == b;
      }
    }

    method OfferPairsFrom(js: seq<nat>, x: nat)
      requires Valid() && 1 <= |js| <= 2 && Bit(target, js[0]) && (forall k | 0 <= k < |js| :: js[k] in columns)
      requires x < |columns| && (|js| == 2 ==> js[0] != js[1])
      requires ShortDone(pos, columns, target, seen, js[0], |js| == 2)
      modifies this
      ensures Valid() && old(seen) <= seen && old(out) <= out
      ensures forall t | t in seen && t !in old(seen) :: Bit(t, js[0])
      ensures forall v | x < v < |columns| :: TwoDone(pos, target, seen, js, columns[x], columns[v])
    {
      var a, wanted := columns[x], XorCovers(pos, js);
      for y := x + 1 to |columns|
        invariant Valid() && old(seen) <= seen && old(out) <= out
        invariant forall t | t in seen && t !in old(seen) :: Bit(t, js[0])
        invariant forall v | x < v < y :: TwoDone(pos, target, seen, js, a, columns[v])
      {
        var b := columns[y];
        if Xor(Sig(pos, a), Sig(pos, b)) == wanted {
          CompletesPair(pos, columns, js, a, b);
          OrBitsAre(js + [a, b], js[0]);
          ShortStays(pos, columns, target, old(seen), seen, js[0], |js| == 2);
          ghost var was := seen;
          Offer(js + [a, b]);
          TwosStay(pos, target, was, seen, js);
        }
        assert TwoDone(pos, target, seen, js, a, b);
      }
    }

    // One anchor: alone, with an equal-signature partner, with a free pair.
    method AnchorOne(j1: nat)
      requires Valid() && j1 in columns && Bit(target, j1)
      requires forall t | t in seen :: Touches(t, target, j1)
      modifies this
      ensures Valid() && old(seen) <= seen && old(out) <= out
      ensures forall t | t in seen && t !in old(seen) :: Bit(t, j1)
      ensures forall b: nat {:trigger PairDone(pos, neg, columns, target, out, j1, b)} ::
                PairDone(pos, neg, columns, target, out, j1, b)
      ensures ShortDone(pos, columns, target, seen, j1, true)
    {
      if Sig(pos, j1) == 0 && j1 < nLinear {
        XorOfOne(pos, j1);
        OrBitsAre([j1], j1);
        Offer([j1]);
      }
      forall b: nat | b in columns && !Bit(target, b) ensures OrBits([j1, b]) !in seen {
        NotYet(old(seen), target, j1, b);
        OrBitsAre([j1, b], b);
        OrBitsAre([j1], b);
      }
      OfferPartners(j1);
      PartnersSeen(pos, neg, columns, target, out, seen, j1);
      ghost var was, before := out, seen;
      OfferPairs([j1]);
      ShortStays(pos, columns, target, before, seen, j1, false);
      forall b: nat ensures PairDone(pos, neg, columns, target, out, j1, b) {
        assert PairDone(pos, neg, columns, target, was, j1, b);
      }
    }

    // Two anchors with a third column or a free pair, then three anchors.
    method AnchorMore(j1: nat, support: seq<nat>, first: nat)
      requires Valid() && j1 in columns && Bit(target, j1) && ShortDone(pos, columns, target, seen, j1, true)
      requires first <= |support| && forall i | first <= i < |support| :: support[i] != j1
      modifies this
      ensures Valid() && old(seen) <= seen && old(out) <= out
      ensures forall t | t in seen && t !in old(seen) :: Bit(t, j1)
    {
      var i2 := first;
      while i2 < |support| && |out| < CAP
        invariant Valid() && old(seen) <= seen && old(out) <= out && first <= i2
        invariant forall t | t in seen && t !in old(seen) :: Bit(t, j1)
        decreases |support| - i2
      {
        var j2 := support[i2];
        if j2 in columns {
          ShortStays(pos, columns, target, old(seen), seen, j1, true);
          OfferColumns([j1, j2]);
          ShortStays(pos, columns, target, old(seen), seen, j1, true);
          OfferPairs([j1, j2]);
          var i3 := i2 + 1;
          while i3 < |support|
            invariant Valid() && old(seen) <= seen && old(out) <= out && first <= i2 < i3
            invariant forall t | t in seen && t !in old(seen) :: Bit(t, j1)
          {
            var j3 := support[i3];
            if j3 in columns {
              ShortStays(pos, columns, target, old(seen), seen, j1, true);
              OfferColumns([j1, j2, j3]);
              if |out| >= CAP { break; }
            }
            i3 := i3 + 1;
          }
        }
        i2 := i2 + 1;
      }
    }

    // One anchor, one free column and a free pair.
    method AnchorFree(j1: nat)
      requires Valid() && j1 in columns && Bit(target, j1) && ShortDone(pos, columns, target, seen, j1, true)
      modifies this
      ensures Valid() && old(seen) <= seen && old(out) <= out
      ensures forall t | t in seen && t !in old(seen) :: Bit(t, j1)
      ensures forall b: nat {:trigger PairsDone(pos, columns, target, seen, [j1, b])} ::
                b in columns && b != j1 ==> PairsDone(pos, columns, target, seen, [j1, b])
    {
      for k := 0 to |columns|
        invariant Valid() && old(seen) <= seen && old(out) <= out
        invariant forall t | t in seen && t !in old(seen) :: Bit(t, j1)
        invariant forall i | 0 <= i < k && columns[i] != j1 :: PairsDone(pos, columns, target, seen, [j1, columns[i]])
      {
        if columns[k] != j1 {
          ghost var was := seen;
          ShortStays(pos, columns, target, old(seen), seen, j1, true);
          OfferPairs([j1, columns[k]]);
          forall i | 0 <= i < k && columns[i] != j1 ensures PairsDone(pos, columns, target, seen, [j1, columns[i]]) {
            PairsStay(pos, columns, target, was, seen, [j1, columns[i]]);
          }
        }
      }
    }

    // Everything for one anchor, unless CAP is reached.
    method TryAnchor(j1: nat, support: seq<nat>, first: nat)
      requires Valid() && j1 in columns && Bit(target, j1)
      requires forall t | t in seen :: Touches(t, target, j1)
      requires first <= |support| && forall i | first <= i < |support| :: support[i] != j1
      modifies this
      ensures Valid() && old(seen) <= seen && old(out) <= out
      ensures forall t | t in seen && t !in old(seen) :: Bit(t, j1)
      ensures |out| < CAP ==> AnchorDone(pos, neg, columns, target, out, seen, j1)
    {
      AnchorOne(j1);
      if |out| >= CAP { return; }
      ghost var out1, seen1 := out, seen;
      AnchorMore(j1, support, first);
      ShortStays(pos, columns, target, seen1, seen, j1, true);
      AnchorFree(j1);
      ShortStays(pos, columns, target, seen1, seen, j1, true);
      forall b: nat ensures PairDone(pos, neg, columns, target, out, j1, b) {
        assert PairDone(pos, neg, columns, target, out1, j1, b);
      }
    }

    // Unless it stops with CAP offers, the search does all it tries for every
    // anchor.
    method Run()
      requires Valid() && out == [] && seen == {}
      modifies this
      ensures Valid()
      ensures |out| < CAP ==> forall a: nat {:trigger AnchorDone(pos, neg, columns, target, out, seen, a)} ::
                a in columns && Bit(target, a) ==> AnchorDone(pos, neg, columns, target, out, seen, a)
    {
      var support := IterBits(target);
      AscendingFrom(target, 0);
      var i1 := 0;
      while i1 < |support|
        invariant i1 <= |support| && Valid()
        invariant forall t | t in seen :: TouchesBefore(t, support, i1)
        invariant forall i | 0 <= i < i1 && support[i] in columns ::
                  AnchorDone(pos, neg, columns, target, out, seen, support[i])
      {
        var j1 := support[i1];
        IterBitsAre(target, j1);
        if j1 in columns {
          ghost var was, before := out, seen;
          forall t | t in seen ensures Touches(t, target, j1) {
            EarlierAnchor(t, target, i1);
          }
          TryAnchor(j1, support, i1 + 1);
          if |out| >= CAP { break; }
          forall i | 0 <= i < i1 && support[i] in columns
            ensures AnchorDone(pos, neg, columns, target, out, seen, support[i])
          {
            AnchorStays(pos, neg, columns, target, was, before, out, seen, support[i]);
          }
        }
        assert forall t | t in seen :: TouchesBefore(t, support, i1) || Bit(t, j1);
        i1 := i1 + 1;
      }
      if |out| < CAP {
        forall a: nat | a in columns && Bit(target, a) ensures AnchorDone(pos, neg, columns, target, out, seen, a) {
          IterBitsAre(target, a);
          var i :| 0 <= i < |support| && support[i] == a;
        }
      }
    }

    // Re-verifies the offers against every positive; at most LIMIT of them.
    method Filtered() returns (filtered: seq<Candidate>)
      requires Valid()
      ensures forall c :: c in filtered ==> Separates(pos, neg, columns, target, c)
      ensures KeptOf(pos, out, filtered)
    {
      var kept := KeepValid(pos, out);
      SortKeepsElements(ByCover, kept);
      filtered := SortBy(ByCover, kept);
      forall c | c in filtered ensures Separates(pos, neg, columns, target, c) {
        var k :| 0 <= k < |out| && out[k] == c;
        OfferSeparates(pos, neg, nLinear, columns, target, c, tuples[k]);
      }
    }
  }

  // The valid offers are returned, unless there are LIMIT of them.
  ghost predicate KeptOf(pos: seq<nat>, out: seq<Candidate>, filtered: seq<Candidate>) {
    && |filtered| <= |out| && (forall c | c in filtered :: c in out && Covers.Valid(pos, c.theta))
    && (|filtered| < LIMIT ==> forall c | c in out && Covers.Valid(pos, c.theta) :: c in filtered)
  }

  method KeepValid(pos: seq<nat>, out: seq<Candidate>) returns (kept: seq<Candidate>)
    requires forall a, b | 0 <= a < b < |out| :: out[a].theta != out[b].theta
    ensures KeptOf(pos, out, kept)
  {
    kept := [];
    var k := 0;
    var checked: set<nat> := {};
    while k < |out| && |kept| < LIMIT
      invariant k <= |out| && |kept| <= k
      invariant forall c | c in kept :: c in out && Covers.Valid(pos, c.theta)
      invariant forall i | k <= i < |out| :: out[i].theta !in checked
      invariant forall i | 0 <= i < k && Covers.Valid(pos, out[i].theta) :: out[i] in kept
    {
      var c := out[k];
      if c.theta !in checked {
        checked := checked + {c.theta};
        var fired := CoverOf(pos, c.theta);
        if fired == 0 {
          kept := kept + [c];
        }
      }
      k := k + 1;
    }
  }

  // t holds one of the first n columns of the support.
  ghost predicate TouchesBefore(t: nat, support: seq<nat>, n: nat) {
    exists i :: 0 <= i < n && i < |support| && Bit(t, support[i])
  }

  lemma EarlierAnchor(t: nat, target: nat, n: nat)
    requires n < |IterBits(target)| && TouchesBefore(t, IterBits(target), n)
    ensures Touches(t, target, IterBits(target)[n])
  {
    var support := IterBits(target);
    var i :| 0 <= i < n && i < |support| && Bit(t, support[i]);
    AscendingFrom(target, 0);
    IterBitsAre(target, support[i]);
    assert support[i] in support;
  }

  // t holds a column of the target other than j1.
  ghost predicate Touches(t: nat, target: nat, j1: nat) {
    exists j: nat :: j != j1 && Bit(t, j) && Bit(target, j)
  }

  lemma NotYet(seen: set<nat>, target: nat, j1: nat, b: nat)
    requires forall t | t in seen :: Touches(t, target, j1)
    requires !Bit(target, b)
    ensures OrBits([j1, b]) !in seen
  {
    var t := OrBits([j1, b]);
    if t in seen {
      assert Touches(t, target, j1);
      var j: nat :| j != j1 && Bit(t, j) && Bit(target, j);
      OrBitsAre([j1, b], j);
    }
  }

  lemma PairsDiffer(a: nat, b: nat, c: nat)
    requires a != b && b != c
    ensures OrBits([a, b]) != OrBits([a, c])
  {
    OrBitsAre([a, b], b);
    OrBitsAre([a, c], b);
  }

  lemma OfferSeparates(pos: seq<nat>, neg: seq<nat>, nLinear: nat, columns: seq<nat>, target: nat, c: Candidate,
                       js: seq<nat>)
    requires OfferedAs(pos, neg, nLinear, columns, target, c, js) && Covers.Valid(pos, c.theta)
    ensures Separates(pos, neg, columns, target, c)
  {
    if !Confused(pos, columns, target) {
      OfferIsExact(pos, neg, nLinear, columns, target, c, js);
    }
  }

  // ---- what the search finds --------------------------------------------------------

  // A pair of columns of which the smaller one is the target's.
  ghost predicate AnchoredPair(target: nat, theta: nat) {
    exists a: nat, b: nat :: a < b && theta == OrBits([a, b]) && Bit(target, a)
  }

  // A functional of two to four of the columns, a pair only if it is anchored.
  ghost predicate Sought(columns: seq<nat>, target: nat, theta: nat) {
    && (forall j: nat {:trigger Bit(theta, j)} :: Bit(theta, j) ==> j in columns)
    && (AnchoredPair(target, theta) || 3 <= BitCount(theta) <= 4)
  }

  // What fires on a target shares a column with it.
  lemma SharedColumn(theta: nat, target: nat) returns (j: nat)
    requires Dot(theta, target)
    ensures Bit(theta, j) && Bit(target, j)
  {
    j := SomeBit(And(theta, target));
    BitOfAnd(theta, target, j);
  }

  // What a finished search has done.
  ghost predicate Finished(pos: seq<nat>, neg: seq<nat>, nLinear: nat, columns: seq<nat>, target: nat,
                           out: seq<Candidate>, tuples: seq<seq<nat>>, seen: set<nat>) {
    && |tuples| == |out|
    && (forall k | 0 <= k < |out| :: OfferedAs(pos, neg, nLinear, columns, target, out[k], tuples[k]))
    && (forall t | t in seen :: Offered(out, t))
    && forall a: nat {:trigger AnchorDone(pos, neg, columns, target, out, seen, a)} ::
         a in columns && Bit(target, a) ==> AnchorDone(pos, neg, columns, target, out, seen, a)
  }

  ghost predicate Offered(out: seq<Candidate>, t: nat) {
    exists k :: 0 <= k < |out| && out[k].theta == t
  }

  // Offered with its own cover.
  ghost predicate Found(neg: seq<nat>, out: seq<Candidate>, theta: nat) {
    exists c :: c in out && c.theta == theta && c.cover == Fires(neg, theta)
  }

  // A finished search has found every valid functional it looks for that fires
  // on the target.
  lemma SearchFinds(pos: seq<nat>, neg: seq<nat>, nLinear: nat, columns: seq<nat>, target: nat, out: seq<Candidate>,
                    tuples: seq<seq<nat>>, seen: set<nat>, theta: nat)
    requires Finished(pos, neg, nLinear, columns, target, out, tuples, seen)
    requires Sought(columns, target, theta) && Covers.Valid(pos, theta) && Dot(theta, target)
    ensures Found(neg, out, theta)
  {
    if AnchoredPair(target, theta) {
      var a: nat, b: nat :| a < b && theta == OrBits([a, b]) && Bit(target, a);
      OrBitsAre([a, b], a);
      OrBitsAre([a, b], b);
      assert AnchorDone(pos, neg, columns, target, out, seen, a);
      PairIsFound(pos, neg, columns, target, out, seen, theta, a, b);
    } else {
      FullIsSeen(pos, neg, columns, target, out, seen, theta);
      assert Offered(out, theta);
      var k :| 0 <= k < |out| && out[k].theta == theta;
      WideOfferIsExact(pos, neg, nLinear, columns, target, out[k], tuples[k]);
      assert out[k] in out;
    }
  }

  lemma FullIsSeen(pos: seq<nat>, neg: seq<nat>, columns: seq<nat>, target: nat, out: seq<Candidate>, seen: set<nat>,
                   theta: nat)
    requires forall a: nat {:trigger AnchorDone(pos, neg, columns, target, out, seen, a)} ::
               a in columns && Bit(target, a) ==> AnchorDone(pos, neg, columns, target, out, seen, a)
    requires forall j: nat {:trigger Bit(theta, j)} :: Bit(theta, j) ==> j in columns
    requires 3 <= BitCount(theta) <= 4 && Covers.Valid(pos, theta) && Dot(theta, target)
    ensures theta in seen
  {
    var js := IterBits(theta);
    IterBitsMake(theta);
    forall k | 0 <= k < |js| ensures js[k] in columns {
      IterBitsAre(theta, js[k]);
    }
    var a := SharedColumn(theta, target);
    assert AnchorDone(pos, neg, columns, target, out, seen, a);
    if |js| == 3 {
      TripleIsSeen(pos, neg, columns, target, out, seen, theta, js, a);
    } else {
      QuadIsSeen(pos, neg, columns, target, out, seen, theta, js, a);
    }
  }

  lemma PairIsFound(pos: seq<nat>, neg: seq<nat>, columns: seq<nat>, target: nat, out: seq<Candidate>, seen: set<nat>,
                    theta: nat, a: nat, b: nat)
    requires AnchorDone(pos, neg, columns, target, out, seen, a)
    requires a < b && b in columns && theta == OrBits([a, b]) && Bit(target, a)
    requires Covers.Valid(pos, theta) && Dot(theta, target)
    ensures Found(neg, out, theta)
  {
    PairBits(target, a, b);
    DistinctOrIsXor([a, b]);
    XorCoversAre(pos, [a, b]);
    XorOfTwo(pos, a, b);
    XorZeroIsSame(Sig(pos, a), Sig(pos, b));
    assert PairDone(pos, neg, columns, target, out, a, b);
    XorCoversAre(neg, [a, b]);
  }

  lemma TripleIsSeen(pos: seq<nat>, neg: seq<nat>, columns: seq<nat>, target: nat, out: seq<Candidate>, seen: set<nat>,
                     theta: nat, js: seq<nat>, a: nat)
    requires AnchorDone(pos, neg, columns, target, out, seen, a)
    requires ColumnsOf(theta, js) && Ascending(js) && |js| == 3 && (forall k | 0 <= k < |js| :: js[k] in columns)
    requires a in js && Covers.Valid(pos, theta) && Dot(theta, target)
    ensures theta in seen
  {
    var b := if js[0] == a then js[1] else js[0];
    var c := if js[2] == a then js[1] else js[2];
    ColumnsCancel(pos, theta, [a, b, c]);
    ColumnsMake(theta, [a, b, c]);
    XorOfThree(pos, a, b, c);
    XorOfOne(pos, a);
    XorAssoc(Sig(pos, a), Sig(pos, b), Sig(pos, c));
    XorZeroIsSame(Sig(pos, a), Xor(Sig(pos, b), Sig(pos, c)));
    assert [a] + [b, c] == [a, b, c];
    assert TwoDone(pos, target, seen, [a], b, c);
  }

  lemma QuadIsSeen(pos: seq<nat>, neg: seq<nat>, columns: seq<nat>, target: nat, out: seq<Candidate>, seen: set<nat>,
                   theta: nat, js: seq<nat>, a: nat)
    requires AnchorDone(pos, neg, columns, target, out, seen, a)
    requires ColumnsOf(theta, js) && Ascending(js) && |js| == 4 && (forall k | 0 <= k < |js| :: js[k] in columns)
    requires a in js && Covers.Valid(pos, theta) && Dot(theta, target)
    ensures theta in seen
  {
    var b := if js[0] == a then js[1] else js[0];
    var c := if js[0] == a || js[1] == a then js[2] else js[1];
    var d := if js[3] == a then js[2] else js[3];
    ColumnsCancel(pos, theta, [a, b, c, d]);
    ColumnsMake(theta, [a, b, c, d]);
    assert [a, b] + [c] + [d] == [a, b, c, d];
    XorOfMore(pos, [a, b], c);
    XorOfMore(pos, [a, b] + [c], d);
    var ab := XorCovers(pos, [a, b]);
    XorAssoc(ab, Sig(pos, c), Sig(pos, d));
    XorZeroIsSame(ab, Xor(Sig(pos, c), Sig(pos, d)));
    assert [a, b] + [c, d] == [a, b, c, d];
    assert PairsDone(pos, columns, target, seen, [a, b]);
    assert TwoDone(pos, target, seen, [a, b], c, d);
  }

  // A pair of columns of which only the larger one is the target's.
  ghost predicate ReversedPair(target: nat, theta: nat) {
    exists a: nat, b: nat :: b < a && theta == OrBits([b, a]) && Bit(target, a) && !Bit(target, b)
  }

  // Unless both its columns vanish on every positive, such a pair is recorded
  // with no cover.
  lemma ReversedPairIsEmpty(pos: seq<nat>, neg: seq<nat>, nLinear: nat, columns: seq<nat>, target: nat, c: Candidate,
                            js: seq<nat>)
    requires OfferedAs(pos, neg, nLinear, columns, target, c, js) && Covers.Valid(pos, c.theta)
    requires ReversedPair(target, c.theta) && !Confused(pos, columns, target)
    ensures c.cover == 0
  {
    var a: nat, b: nat :| b < a && c.theta == OrBits([b, a]) && Bit(target, a) && !Bit(target, b);
    ReversedPairCover(pos, neg, nLinear, columns, target, c, js, a, b);
    assert !ConfusedBy(pos, columns, target, a, b);
  }

  // ---- the search as a whole --------------------------------------------------------

  // t fires on the target and has at most four columns, whose signatures cancel
  // when some are taken twice.
  ghost predicate Offerable(pos: seq<nat>, columns: seq<nat>, target: nat, t: nat) {
    Dot(t, target) && exists js: seq<nat> :: |js| <= 4 && Balanced(pos, columns, js) && OrBits(js) == t
  }

  // So many functionals compete for the target that the limits of the search bite.
  ghost predicate Crowded(pos: seq<nat>, columns: seq<nat>, target: nat) {
    exists s: set<nat> :: |s| >= LIMIT && forall t | t in s :: Offerable(pos, columns, target, t)
  }

  lemma {:induction false} SeenAreOffered(out: seq<Candidate>, seen: set<nat>, t: nat)
    requires |seen| == |out| && (forall k | 0 <= k < |out| :: out[k].theta in seen)
    requires forall a, b | 0 <= a < b < |out| :: out[a].theta != out[b].theta
    requires t in seen
    ensures Offered(out, t)
  {
    if out != [] {
      var n := |out| - 1;
      if out[n].theta != t {
        SeenAreOffered(out[..n], seen - {out[n].theta}, t);
        var k :| 0 <= k < n && out[..n][k].theta == t;
        assert out[k].theta == t;
      }
    }
  }

  // What the search offers, and as which tuples: everything it tries, unless it
  // stops at CAP offers.
  ghost predicate Tried(pos: seq<nat>, neg: seq<nat>, nLinear: nat, columns: seq<nat>, target: nat,
                        out: seq<Candidate>, tuples: seq<seq<nat>>, seen: set<nat>) {
    && |tuples| == |out| == |seen|
    && (forall k | 0 <= k < |out| ::
          OfferedAs(pos, neg, nLinear, columns, target, out[k], tuples[k]) && out[k].theta in seen)
    && (forall a, b | 0 <= a < b < |out| :: out[a].theta != out[b].theta)
    && (|out| < CAP ==> forall a: nat {:trigger AnchorDone(pos, neg, columns, target, out, seen, a)} ::
          a in columns && Bit(target, a) ==> AnchorDone(pos, neg, columns, target, out, seen, a))
  }

  ghost predicate Searched(pos: seq<nat>, neg: seq<nat>, nLinear: nat, columns: seq<nat>, target: nat,
                           filtered: seq<Candidate>) {
    exists out, tuples, seen ::
      Tried(pos, neg, nLinear, columns, target, out, tuples, seen) && KeptOf(pos, out, filtered)
  }

  // An offer that claims negatives its functional does not fire on, or misses
  // some that it does.
  ghost predicate WrongCover(pos: seq<nat>, neg: seq<nat>, c: Candidate) {
    Covers.Valid(pos, c.theta) && c.cover != 0 && c.cover != Fires(neg, c.theta)
  }

  // A search that is not stopped records a wrong cover exactly when a column of
  // the target and a smaller one outside it both vanish on every positive.
  lemma WrongCoverExactly(pos: seq<nat>, neg: seq<nat>, nLinear: nat, columns: seq<nat>, target: nat,
                          out: seq<Candidate>, tuples: seq<seq<nat>>, seen: set<nat>)
    requires Tried(pos, neg, nLinear, columns, target, out, tuples, seen) && |out| < CAP
    requires forall k | 0 <= k < |columns| :: Fires(neg, Pow2(columns[k])) != 0
    ensures (exists c :: c in out && WrongCover(pos, neg, c)) <==> Confused(pos, columns, target)
  {
    if c :| c in out && WrongCover(pos, neg, c) {
      var k :| 0 <= k < |out| && out[k] == c;
      var b := OfferedCover(pos, neg, nLinear, columns, target, c, tuples[k]);
      assert ConfusedBy(pos, columns, target, tuples[k][0], b);
    }
    if Confused(pos, columns, target) {
      var a: nat, b: nat :| ConfusedBy(pos, columns, target, a, b);
      var c := ConfusedOffer(pos, neg, nLinear, columns, target, out, tuples, seen, a, b);
      TupleIsExact(pos, neg, [b, a]);
      XorOfTwo(neg, b, a);
      if c.cover == Fires(neg, c.theta) {
        XorIsZero(Fires(neg, Pow2(b)), Fires(neg, Pow2(a)));
      }
    }
  }

  lemma XorIsZero(x: nat, y: nat)
    requires Xor(x, y) == x
    ensures y == 0
  {
    XorAssoc(x, x, y);
    XorSelf(x);
  }

  // Such columns are offered as a pair, with the cover of the smaller one.
  lemma ConfusedOffer(pos: seq<nat>, neg: seq<nat>, nLinear: nat, columns: seq<nat>, target: nat, out: seq<Candidate>,
                      tuples: seq<seq<nat>>, seen: set<nat>, a: nat, b: nat) returns (c: Candidate)
    requires Tried(pos, neg, nLinear, columns, target, out, tuples, seen) && |out| < CAP
    requires ConfusedBy(pos, columns, target, a, b)
    ensures c in out && c.theta == OrBits([b, a]) && c.cover == Fires(neg, Pow2(b)) && Covers.Valid(pos, c.theta)
  {
    var theta := OrBits([b, a]);
    assert AnchorDone(pos, neg, columns, target, out, seen, a);
    XorOfOne(pos, a);
    SameColumns([b, a], [a] + [b, a]);
    PairBits(target, b, a);
    assert TwoDone(pos, target, seen, [a], b, a);
    TupleIsExact(pos, neg, [b, a]);
    XorOfTwo(pos, b, a);
    SeenAreOffered(out, seen, theta);
    var k :| 0 <= k < |out| && out[k].theta == theta;
    c := out[k];
    ReversedPairCover(pos, neg, nLinear, columns, target, c, tuples[k], a, b);
  }

  // Every separator returned is valid, fires on the target and, unless vanishing
  // columns confuse the search, has its own cover or an empty one; the pairs it
  // does not look for come back with an empty cover at best.
  method SparseSeparators(pos: seq<nat>, neg: seq<nat>, nLinear: nat, columns: seq<nat>, target: nat)
    returns (filtered: seq<Candidate>)
    requires Ascending(columns)
    ensures Searched(pos, neg, nLinear, columns, target, filtered)
    ensures forall c :: c in filtered ==> Separates(pos, neg, columns, target, c)
    ensures !Confused(pos, columns, target) ==>
            forall c | c in filtered && ReversedPair(target, c.theta) :: c.cover == 0
  {
    var search := new SparseSearch(pos, neg, nLinear, columns, target);
    search.Run();
    filtered := search.Filtered();
    assert Tried(pos, neg, nLinear, columns, target, search.out, search.tuples, search.seen);
    if !Confused(pos, columns, target) {
      forall c | c in filtered && ReversedPair(target, c.theta) ensures c.cover == 0 {
        var k :| 0 <= k < |search.out| && search.out[k] == c;
        ReversedPairIsEmpty(pos, neg, nLinear, columns, target, c, search.tuples[k]);
      }
    }
  }

  // Every valid functional the search looks for that fires on the target, with
  // its own cover.
  ghost predicate FindsAll(pos: seq<nat>, neg: seq<nat>, columns: seq<nat>, target: nat, found: seq<Candidate>) {
    forall theta | Sought(columns, target, theta) && Covers.Valid(pos, theta) && Dot(theta, target) ::
      Found(neg, found, theta)
  }

  // Nothing the search looks for is missing unless too many functionals compete.
  lemma UncrowdedFindsAll(pos: seq<nat>, neg: seq<nat>, nLinear: nat, columns: seq<nat>, target: nat,
                          filtered: seq<Candidate>)
    requires Searched(pos, neg, nLinear, columns, target, filtered) && !Crowded(pos, columns, target)
    ensures FindsAll(pos, neg, columns, target, filtered)
  {
    var out: seq<Candidate>, tuples: seq<seq<nat>>, seen: set<nat> :|
      Tried(pos, neg, nLinear, columns, target, out, tuples, seen) && KeptOf(pos, out, filtered);
    forall t | t in seen ensures Offered(out, t) {
      SeenAreOffered(out, seen, t);
    }
    NotCrowded(pos, neg, nLinear, columns, target, out, tuples, seen);
    forall theta | Sought(columns, target, theta) && Covers.Valid(pos, theta) && Dot(theta, target)
      ensures Found(neg, filtered, theta)
    {
      SearchFinds(pos, neg, nLinear, columns, target, out, tuples, seen, theta);
      var c :| c in out && c.theta == theta && c.cover == Fires(neg, theta);
      assert c in filtered;
    }
  }

  lemma NotCrowded(pos: seq<nat>, neg: seq<nat>, nLinear: nat, columns: seq<nat>, target: nat, out: seq<Candidate>,
                   tuples: seq<seq<nat>>, seen: set<nat>)
    requires |tuples| == |out| == |seen| && !Crowded(pos, columns, target)
    requires forall k | 0 <= k < |out| :: OfferedAs(pos, neg, nLinear, columns, target, out[k], tuples[k])
    requires forall t | t in seen :: Offered(out, t)
    ensures |out| < LIMIT
  {
    forall t | t in seen ensures Offerable(pos, columns, target, t) {
      var k :| 0 <= k < |out| && out[k].theta == t;
      assert Balanced(pos, columns, tuples[k]) && OrBits(tuples[k]) == t;
    }
  }
}
