// An input on which the solver loses a negative
// (tools/g3_probe/solve_mapping.py).
//
// Three negatives with the features {2}, {1, 2} and {1}, no positive, one linear
// bit. The search for the first anchors column 2, completes it with the pair
// (1, 2), and records the functional {1, 2} with the cover of column 1 alone:
// the last two negatives, of which it fires on one. The first pick strikes these
// two off, and every later round finds the same separator for the first one
// again, until the guard runs out.
module LostNegatives {
  import opened Bits
  import opened Words
  import opened Masks
  import opened Covers
  import opened CandidatePool
  import opened Offers
  import opened SparseSearches
  import opened GreedyRuns
  import opened FamilySolver
  import opened Sorting

  const NEGATIVES: seq<nat> := [4, 6, 2]
  const COLUMNS: seq<nat> := [1, 2]

  // The separator the search finds for the first negative.
  const FOUND: Candidate := Candidate(3, 6, 6)

  lemma SmallValues()
    ensures Pow2(1) == 2 && Pow2(2) == 4 && Ones(3) == 7
    ensures Or(2, 4) == 6 && Or(4, 2) == 6 && Xor(0, 6) == 6
    ensures AndNot(7, 6) == 1 && AndNot(1, 6) == 1 && And(6, 1) == 0
    ensures BitCount(6) == 2 && BitCount(0) == 0
    ensures !Bit(4, 1) && Bit(4, 2) && IterBits(7)[0] == 0 && IterBits(1) == [0]
  {
    assert Bit(2, 1) && Bit(1, 0) && Bit(2, 0) == false;
    assert BitsFrom(0, 1) == [];
  }

  lemma SmallDots()
    ensures !Dot(2, 4) && Dot(2, 6) && Dot(2, 2)
    ensures Dot(6, 4) && !Dot(6, 6) && Dot(6, 2)
  {
  }

  lemma SmallFires(theta: nat, d0: bool, d1: bool, d2: bool)
    requires Dot(theta, 4) == d0 && Dot(theta, 6) == d1 && Dot(theta, 2) == d2
    ensures Fires(NEGATIVES, theta) == (if d0 then 1 else 0) + (if d1 then 2 else 0) + (if d2 then 4 else 0)
  {
    assert NEGATIVES[..2] == [4, 6] && [4, 6][..1] == [4] && [4][..0] == [];
    assert Fires([4], theta) == if d0 then 1 else 0;
    assert Fires([4, 6], theta) == Or(Fires([4], theta), if d1 then 2 else 0);
    assert Fires(NEGATIVES, theta) == Or(Fires([4, 6], theta), if d2 then 4 else 0);
    assert Or(1, 2) == 3 && Or(1, 4) == 5 && Or(2, 4) == 6 && Or(3, 4) == 7;
  }

  lemma ColumnsOfNegatives()
    ensures Columns(NEGATIVES) == COLUMNS
  {
    assert NEGATIVES[..2] == [4, 6] && [4, 6][..1] == [4] && [4][..0] == [];
    assert OrAll([4]) == 4 && OrAll([4, 6]) == 6 && OrAll(NEGATIVES) == 6;
    assert BitsFrom(1, 2) == [2] && BitsFrom(3, 1) == [1, 2];
  }

  // Whatever the search offers for the first negative is that separator.
  lemma OnlyOffer(c: Candidate, js: seq<nat>)
    requires OfferedAs([], NEGATIVES, 1, COLUMNS, 4, c, js)
    ensures c == FOUND && Covers.Valid([], c.theta)
  {
    SmallValues();
    SmallDots();
    assert js[0] == 2;
    OfferHoldsBoth(js);
    SameColumns(js, [1, 2]);
    assert [1, 2][..1] == [1] && [1][..0] == [];
    assert OrBits([1]) == 2 && OrBits([1, 2]) == 6;
    ReversedPairCover([], NEGATIVES, 1, COLUMNS, 4, c, js, 2, 1);
    SmallFires(2, false, true, true);
    if |js| == 4 {
      VanishingPairGives([], COLUMNS, 2, 1);
    }
  }

  lemma OfferHoldsBoth(js: seq<nat>)
    requires Shape(1, 4, js) && js[0] == 2 && forall k | 0 <= k < |js| :: js[k] in COLUMNS
    ensures |js| >= 3 && forall j :: j in js <==> j in [1, 2]
  {
    assert |js| >= 3 ==> js[1] in js && js[2] in js;
  }

  lemma FirstTwoDiffer(out: seq<Candidate>)
    requires |out| > 1 && forall a, b | 0 <= a < b < |out| :: out[a].theta != out[b].theta
    ensures out[0] != out[1]
  {
  }

  lemma SearchOfFirst(filtered: seq<Candidate>)
    requires Searched([], NEGATIVES, 1, COLUMNS, 4, filtered)
    ensures filtered != [] && forall c | c in filtered :: c == FOUND
  {
    var out: seq<Candidate>, tuples: seq<seq<nat>>, seen: set<nat> :|
      Tried([], NEGATIVES, 1, COLUMNS, 4, out, tuples, seen) && KeptOf([], out, filtered);
    forall k | 0 <= k < |out| ensures out[k] == FOUND && Covers.Valid([], FOUND.theta) {
      OnlyOffer(out[k], tuples[k]);
    }
    if |out| > 1 {
      FirstTwoDiffer(out);
    }
    SmallValues();
    var c := ConfusedOffer([], NEGATIVES, 1, COLUMNS, 4, out, tuples, seen, 2, 1);
    assert c in filtered;
  }

  // ---- the run ------------------------------------------------------------------

  // Before round k: after the first round only the first negative remains, and
  // the pool holds nothing but that separator.
  ghost predicate Stuck(s: Greedy, k: nat) {
    && s.residual == [] && s.searches == k && s.remaining == (if k == 0 then 7 else 1)
    && (k == 0 ==> s.items == []) && (forall c | c in s.items :: c == FOUND)
    && (forall t | t in s.chosen :: t == FOUND.theta)
  }

  // No column is linear, and all signatures are zero.
  lemma NoSeed(c: Candidate)
    ensures !SeedOf([], NEGATIVES, COLUMNS, 1, c)
  {
    forall js: seq<nat> ensures !SeedTuple([], COLUMNS, 1, js) {
    }
  }

  lemma StartIsStuck(s: Greedy)
    requires Starts([], NEGATIVES, 1, COLUMNS, s)
    ensures Stuck(s, 0)
  {
    SmallValues();
    if s.items != [] {
      NoSeed(s.items[0]);
    }
  }

  // No pick from the pool is wide enough.
  lemma NothingToPick(s: Greedy, k: nat)
    requires Stuck(s, k)
    ensures NonePasses(NEGATIVES, s) && s.remaining != 0
    ensures IterBits(s.remaining) != [] && IterBits(s.remaining)[0] == 0 && AndNot(s.remaining, FOUND.cover) == 1
  {
    SmallValues();
  }

  lemma RoundIsStuck(s: Greedy, t: Greedy, k: nat)
    requires Stuck(s, k) && k < MAX_SEARCHES && Round([], NEGATIVES, 1, COLUMNS, s, t)
    ensures Stuck(t, k + 1)
  {
    NothingToPick(s, k);
    var target: nat, candidates :|
      && FirstLeft(NEGATIVES, s.remaining, target)
      && Stalled([], NEGATIVES, 1, COLUMNS, NEGATIVES[target], s.searches, candidates)
      && Stalls(NEGATIVES, s, t, target, candidates);
    StallFindsIt(k, candidates);
    StallIsStuck(s, t, k, target, candidates);
  }

  lemma StallIsStuck(s: Greedy, t: Greedy, k: nat, target: nat, candidates: seq<Candidate>)
    requires Stuck(s, k) && k < MAX_SEARCHES && Stalls(NEGATIVES, s, t, target, candidates)
    requires candidates != [] && forall c | c in candidates :: c == FOUND
    ensures Stuck(t, k + 1)
  {
    NothingToPick(s, k);
    var best :| WidestOf(s.remaining, candidates, best) && t.chosen == s.chosen + [best.theta]
                && t.remaining == AndNot(s.remaining, best.cover);
    assert best in candidates;
  }

  lemma StallFindsIt(searches: nat, candidates: seq<Candidate>)
    requires searches < MAX_SEARCHES && Stalled([], NEGATIVES, 1, COLUMNS, 4, searches, candidates)
    ensures candidates != [] && forall c | c in candidates :: c == FOUND
  {
    SmallValues();
    var filtered: seq<Candidate> :| Searched([], NEGATIVES, 1, COLUMNS, 4, filtered)
                                    && candidates == Filter(Wide(MinCover(3)), filtered);
    SearchOfFirst(filtered);
    assert filtered[0] in filtered;
    assert FOUND in candidates;
  }

  lemma RunIsStuck(run: seq<Greedy>, k: nat)
    requires IsPrefix([], NEGATIVES, 1, COLUMNS, run) && k < |run|
    ensures Stuck(run[k], k)
  {
    StartIsStuck(run[0]);
    for i := 0 to k
      invariant Stuck(run[i], i)
    {
      assert Round([], NEGATIVES, 1, COLUMNS, run[i + 1 - 1], run[i + 1]);
      RoundIsStuck(run[i], run[i + 1], i);
    }
  }

  // The solver uses up its guard.
  lemma RunOut(run: seq<Greedy>)
    requires IsRun([], NEGATIVES, 1, COLUMNS, run)
    ensures |run| == |NEGATIVES| + SLACK + 1
    ensures Listed(run[|run| - 1]) == [0] && Stuck(run[|run| - 1], |run| - 1)
  {
    SmallValues();
    RunIsStuck(run, |run| - 1);
  }

  // The second negative is neither fired by the family nor listed as a residual.
  lemma NegativeIsLost(run: seq<Greedy>, family: seq<nat>, residual: seq<nat>)
    requires SolvedBy([], NEGATIVES, 1, run, family, residual)
    ensures |run| == |NEGATIVES| + SLACK + 1 && residual == [0]
    ensures !Accounted(NEGATIVES, family, residual, 1)
  {
    ColumnsOfNegatives();
    RunOut(run);
    SmallDots();
    forall t | t in family ensures !Dot(t, NEGATIVES[1]) {
      assert t in run[|run| - 1].chosen;
    }
  }
}
