// The rounds of the greedy family solver as a state machine
// (tools/g3_probe/solve_mapping.py).
module GreedyRuns {
  import opened Bits
  import opened Words
  import opened Masks
  import opened Covers
  import opened CandidatePool
  import opened SparseSearches
  import opened Sorting

  const MAX_SEARCHES: nat := 512
  const SLACK: nat := 64

  function MinCover(n: nat): nat {
    if n / 100 > 2 then n / 100 else 2
  }

  // What one round leaves to the next.
  datatype Greedy = Greedy(chosen: seq<nat>, residual: seq<nat>, remaining: nat, items: seq<Candidate>, searches: nat)

  // More of what remains, then a narrower cover, then a lighter functional.
  predicate Wider(remaining: nat, x: Candidate, y: Candidate) {
    var hx, hy := BitCount(And(x.cover, remaining)), BitCount(And(y.cover, remaining));
    var cx, cy := BitCount(x.cover), BitCount(y.cover);
    hx > hy || (hx == hy && (cx < cy || (cx == cy && x.weight < y.weight)))
  }

  predicate WidestOf(remaining: nat, candidates: seq<Candidate>, best: Candidate) {
    best in candidates && forall c | c in candidates :: !Wider(remaining, c, best)
  }

  function Wide(minCover: nat): Candidate -> bool {
    (c: Candidate) => BitCount(c.cover) >= minCover
  }

  // The separators a stall works with: the wide ones among those a search
  // returns, or none when the searches are used up.
  ghost predicate Stalled(pos: seq<nat>, neg: seq<nat>, nLinear: nat, columns: seq<nat>, target: nat, searches: nat,
                          candidates: seq<Candidate>) {
    if searches >= MAX_SEARCHES then candidates == []
    else exists filtered :: Searched(pos, neg, nLinear, columns, target, filtered)
                            && candidates == Filter(Wide(MinCover(|neg|)), filtered)
  }

  // ---- rounds ----------------------------------------------------------------------

  // The seeded pool, every negative remaining.
  ghost predicate Starts(pos: seq<nat>, neg: seq<nat>, nLinear: nat, columns: seq<nat>, s: Greedy) {
    && s.chosen == [] && s.residual == [] && s.remaining == Ones(|neg|) && s.searches == 0
    && forall c | c in s.items :: SeedOf(pos, neg, columns, nLinear, c)
  }

  // The member of the pool that fires on most of what remains passes the gate
  // and is picked; the pool grows by its combinations.
  ghost predicate Picks(neg: seq<nat>, s: Greedy, t: Greedy, best: Candidate, grown: seq<Candidate>) {
    && best in s.items && BitCount(And(best.cover, s.remaining)) >= MinCover(|neg|)
    && (forall c | c in s.items :: !ByHit(s.remaining, c, best))
    && (forall c | c in grown :: CombinedWith(best, Take(s.items, 32), c))
    && t == Greedy(s.chosen + [best.theta], s.residual, AndNot(s.remaining, best.cover),
                   Take(SortBy(HitOrder(AndNot(s.remaining, best.cover)), s.items + grown), 256), s.searches)
  }

  // No member of the pool passes the gate.
  ghost predicate NonePasses(neg: seq<nat>, s: Greedy) {
    forall c | c in s.items :: BitCount(And(c.cover, s.remaining)) < MinCover(|neg|)
  }

  function SearchedOnce(searches: nat): nat {
    if searches < MAX_SEARCHES then searches + 1 else searches
  }

  // The first remaining negative is given up, or struck off with everything in
  // the recorded cover of the widest separator found for it.
  ghost predicate Stalls(neg: seq<nat>, s: Greedy, t: Greedy, target: nat, candidates: seq<Candidate>) {
    && t.searches == SearchedOnce(s.searches)
    && if candidates == [] then
         t.chosen == s.chosen && t.residual == s.residual + [target]
         && t.remaining == AndNot(s.remaining, Pow2(target)) && t.items == s.items
       else
         && (exists best :: WidestOf(s.remaining, candidates, best) && t.chosen == s.chosen + [best.theta]
                            && t.remaining == AndNot(s.remaining, best.cover))
         && t.residual == s.residual
         && forall c | c in t.items :: c in s.items || c in candidates
  }

  // What remains is of negatives, and its first one is the target.
  ghost predicate FirstLeft(neg: seq<nat>, remaining: nat, target: nat) {
    remaining != 0 && IterBits(remaining) != [] && target == IterBits(remaining)[0] && target < |neg|
  }

  ghost predicate StallRounds(pos: seq<nat>, neg: seq<nat>, nLinear: nat, columns: seq<nat>, s: Greedy, t: Greedy) {
    exists target: nat, candidates ::
      && FirstLeft(neg, s.remaining, target)
      && Stalled(pos, neg, nLinear, columns, neg[target], s.searches, candidates)
      && Stalls(neg, s, t, target, candidates)
  }

  ghost predicate Round(pos: seq<nat>, neg: seq<nat>, nLinear: nat, columns: seq<nat>, s: Greedy, t: Greedy) {
    s.remaining != 0 && if NonePasses(neg, s) then StallRounds(pos, neg, nLinear, columns, s, t)
                        else exists best, grown :: Picks(neg, s, t, best, grown)
  }

  // Rounds until nothing remains or the guard runs out.
  ghost predicate IsRun(pos: seq<nat>, neg: seq<nat>, nLinear: nat, columns: seq<nat>, run: seq<Greedy>) {
    && IsPrefix(pos, neg, nLinear, columns, run)
    && (run[|run| - 1].remaining == 0 || |run| == |neg| + SLACK + 1)
  }

  ghost predicate IsPrefix(pos: seq<nat>, neg: seq<nat>, nLinear: nat, columns: seq<nat>, run: seq<Greedy>) {
    && 0 < |run| <= |neg| + SLACK + 1 && Starts(pos, neg, nLinear, columns, run[0])
    && forall k {:trigger run[k]} | 0 < k < |run| :: Round(pos, neg, nLinear, columns, run[k - 1], run[k])
  }

  lemma RunSnoc(pos: seq<nat>, neg: seq<nat>, nLinear: nat, columns: seq<nat>, run: seq<Greedy>, t: Greedy)
    requires IsPrefix(pos, neg, nLinear, columns, run) && |run| <= |neg| + SLACK
    requires Round(pos, neg, nLinear, columns, run[|run| - 1], t)
    ensures IsPrefix(pos, neg, nLinear, columns, run + [t])
  {
    var more := run + [t];
    forall k | 0 < k < |more| ensures Round(pos, neg, nLinear, columns, more[k - 1], more[k]) {
      if k < |run| {
        assert more[k] == run[k];
      }
    }
  }

  // What the guard leaves over is listed with what was given up.
  function Listed(s: Greedy): seq<nat> {
    s.residual + if s.remaining != 0 then IterBits(s.remaining) else []
  }

  // ---- what is given up ------------------------------------------------------------

  // No valid functional the search looks for fires on the target and on enough
  // negatives to pass the gate.
  ghost predicate Unseparated(pos: seq<nat>, neg: seq<nat>, columns: seq<nat>, target: nat, minCover: nat) {
    forall theta | Sought(columns, target, theta) && Covers.Valid(pos, theta) && Dot(theta, target) ::
      BitCount(Fires(neg, theta)) < minCover
  }

  // Negative i is rightly a residual: no valid functional the search looks for
  // separates it and is wide enough, unless too many compete.
  ghost predicate Honest(pos: seq<nat>, neg: seq<nat>, columns: seq<nat>, i: nat) {
    i < |neg| && (Unseparated(pos, neg, columns, neg[i], MinCover(|neg|)) || Crowded(pos, columns, neg[i]))
  }

  ghost predicate AllHonest(pos: seq<nat>, neg: seq<nat>, columns: seq<nat>, residual: seq<nat>) {
    forall i | i in residual :: Honest(pos, neg, columns, i)
  }

  lemma EmptyStallIsHonest(pos: seq<nat>, neg: seq<nat>, nLinear: nat, columns: seq<nat>, i: nat, searches: nat)
    requires i < |neg| && searches < MAX_SEARCHES
    requires Stalled(pos, neg, nLinear, columns, neg[i], searches, [])
    ensures Honest(pos, neg, columns, i)
  {
    var filtered: seq<Candidate> :| Searched(pos, neg, nLinear, columns, neg[i], filtered)
                    && Filter(Wide(MinCover(|neg|)), filtered) == [];
    if !Crowded(pos, columns, neg[i]) {
      UncrowdedFindsAll(pos, neg, nLinear, columns, neg[i], filtered);
      forall theta | Sought(columns, neg[i], theta) && Covers.Valid(pos, theta) && Dot(theta, neg[i])
        ensures BitCount(Fires(neg, theta)) < MinCover(|neg|)
      {
        assert Found(neg, filtered, theta);
        var c :| c in filtered && c.theta == theta && c.cover == Fires(neg, theta);
        assert c !in Filter(Wide(MinCover(|neg|)), filtered);
      }
    }
  }

  // The searches of every round that another one follows.
  predicate SearchesBelow(run: seq<Greedy>, n: nat) {
    forall k | 0 <= k < |run| - 1 :: run[k].searches < n
  }

  // As long as the searches are not used up, only negatives are given up that
  // no functional the search looks for separates widely enough.
  lemma ResidualsAreHonest(pos: seq<nat>, neg: seq<nat>, nLinear: nat, columns: seq<nat>, run: seq<Greedy>)
    requires IsPrefix(pos, neg, nLinear, columns, run) && SearchesBelow(run, MAX_SEARCHES)
    ensures AllHonest(pos, neg, columns, run[|run| - 1].residual)
  {
    forall i | i in run[|run| - 1].residual ensures Honest(pos, neg, columns, i) {
      var k := GivenUpIn(pos, neg, nLinear, columns, run, |run| - 1, i);
      RoundIsHonest(pos, neg, nLinear, columns, run[k], run[k + 1], i);
    }
  }

  // The round that gave negative i up.
  lemma GivenUpIn(pos: seq<nat>, neg: seq<nat>, nLinear: nat, columns: seq<nat>, run: seq<Greedy>, n: nat, i: nat)
    returns (k: nat)
    requires IsPrefix(pos, neg, nLinear, columns, run) && n < |run| && i in run[n].residual
    ensures k < n && i !in run[k].residual && i in run[k + 1].residual
    ensures Round(pos, neg, nLinear, columns, run[k], run[k + 1])
  {
    k := n;
    while i in run[k].residual
      invariant k <= n && i in run[k].residual
      decreases k
    {
      assert k > 0;
      k := k - 1;
      if i !in run[k].residual {
        assert Round(pos, neg, nLinear, columns, run[k], run[k + 1]);
        return;
      }
    }
  }

  lemma RoundIsHonest(pos: seq<nat>, neg: seq<nat>, nLinear: nat, columns: seq<nat>, s: Greedy, t: Greedy, i: nat)
    requires Round(pos, neg, nLinear, columns, s, t) && s.searches < MAX_SEARCHES
    requires i !in s.residual && i in t.residual
    ensures Honest(pos, neg, columns, i)
  {
    var target: nat, candidates :|
      && FirstLeft(neg, s.remaining, target)
      && Stalled(pos, neg, nLinear, columns, neg[target], s.searches, candidates)
      && Stalls(neg, s, t, target, candidates);
    EmptyStallIsHonest(pos, neg, nLinear, columns, target, s.searches);
  }
}
