// The greedy family: cover, stall, redundancy removal and the safety filter
// (tools/g3_probe/solve_mapping.py).

module FamilySolver {
  import opened Bits
  import opened Words
  import opened Masks
  import opened Covers
  import opened CandidatePool
  import opened GreedyRuns
  import opened Offers
  import opened SparseSearches
  import opened Sorting

  // ---- what a family does -------------------------------------------------------

  ghost predicate FiredBy(neg: seq<nat>, family: seq<nat>, i: nat)
    requires i < |neg|
  {
    exists t :: t in family && Dot(t, neg[i])
  }

  ghost predicate AllValid(pos: seq<nat>, family: seq<nat>) {
    forall t | t in family :: Covers.Valid(pos, t)
  }

  ghost predicate AllWide(neg: seq<nat>, family: seq<nat>) {
    forall t | t in family :: BitCount(Fires(neg, t)) >= MinCover(|neg|)
  }

  // Fired or listed.
  ghost predicate Accounted(neg: seq<nat>, family: seq<nat>, residual: seq<nat>, i: nat)
    requires i < |neg|
  {
    i in residual || FiredBy(neg, family, i)
  }

  // The members are different, and each fires a negative no other one fires.
  ghost predicate Irredundant(neg: seq<nat>, family: seq<nat>) {
    Distinct(family) && forall t | t in family :: Needed(neg, family, t)
  }

  ghost predicate Needed(neg: seq<nat>, family: seq<nat>, t: nat) {
    exists i :: 0 <= i < |neg| && OnlyFirer(neg, family, t, i)
  }

  ghost predicate OnlyFirer(neg: seq<nat>, family: seq<nat>, t: nat, i: nat)
    requires i < |neg|
  {
    Dot(t, neg[i]) && forall u | u in family && u != t :: !Dot(u, neg[i])
  }

  // ---- columns ------------------------------------------------------------------

  function OrAll(phis: seq<nat>): nat {
    if phis == [] then 0 else Or(OrAll(phis[..|phis| - 1]), phis[|phis| - 1])
  }

  // The columns of the negatives in ascending order.
  function Columns(neg: seq<nat>): seq<nat> {
    IterBits(OrAll(neg))
  }

  lemma ColumnsAre(neg: seq<nat>)
    ensures Ascending(Columns(neg))
    ensures forall j: nat :: j in Columns(neg) <==> exists i :: 0 <= i < |neg| && Bit(neg[i], j)
  {
    AscendingFrom(OrAll(neg), 0);
    forall j: nat ensures j in Columns(neg) <==> exists i :: 0 <= i < |neg| && Bit(neg[i], j) {
      IterBitsAre(OrAll(neg), j);
      OrAllBit(neg, j);
    }
  }

  lemma {:induction false} OrAllBit(phis: seq<nat>, j: nat)
    ensures Bit(OrAll(phis), j) <==> exists i :: 0 <= i < |phis| && Bit(phis[i], j)
  {
    if phis == [] {
      ZeroHasNoBit(j);
    } else {
      var n := |phis| - 1;
      OrAllBit(phis[..n], j);
      BitOfOr(OrAll(phis[..n]), phis[n], j);
      if i :| 0 <= i < n && Bit(phis[..n][i], j) {
        assert Bit(phis[i], j);
      }
      if i :| 0 <= i < n && Bit(phis[i], j) {
        assert Bit(phis[..n][i], j);
      }
    }
  }

  // ---- the stall -----------------------------------------------------------------

  // The separators that pass the gate, and the one that fires on most of what
  // remains; none if the search finds none or has run too often.
  method Stall(pos: seq<nat>, neg: seq<nat>, nLinear: nat, columns: seq<nat>, target: nat, remaining: nat,
               searches: nat)
    returns (candidates: seq<Candidate>, best: Candidate, searched: nat)
    requires Ascending(columns)
    ensures searched == if searches < MAX_SEARCHES then searches + 1 else searches
    ensures Stalled(pos, neg, nLinear, columns, target, searches, candidates)
    ensures forall c :: c in candidates ==>
            Separates(pos, neg, columns, target, c) && BitCount(c.cover) >= MinCover(|neg|)
    ensures !Confused(pos, columns, target) ==> forall c | c in candidates :: !ReversedPair(target, c.theta)
    ensures candidates != [] ==> WidestOf(remaining, candidates, best)
  {
    candidates, best, searched := [], Candidate(0, 0, 0), searches;
    if searches < MAX_SEARCHES {
      searched := searches + 1;
      var all := SparseSeparators(pos, neg, nLinear, columns, target);
      candidates := Filter(Wide(MinCover(|neg|)), all);
    }
    if candidates != [] {
      best := Widest(candidates, remaining);
    }
  }

  method Widest(candidates: seq<Candidate>, remaining: nat) returns (best: Candidate)
    requires candidates != []
    ensures WidestOf(remaining, candidates, best)
  {
    best := candidates[0];
    for k := 1 to |candidates|
      invariant best in candidates
      invariant forall c | c in candidates[..k] :: !Wider(remaining, c, best)
    {
      assert candidates[..k + 1] == candidates[..k] + [candidates[k]];
      if Wider(remaining, candidates[k], best) {
        best := candidates[k];
      }
    }
    assert candidates[..|candidates|] == candidates;
  }

  method AddAll(pool: Pool, candidates: seq<Candidate>, ghost exact: bool)
    requires pool.Valid(exact) && AllGood(pool.pos, pool.neg, exact, candidates)
    modifies pool
    ensures pool.Valid(exact) && forall c | c in pool.items :: c in old(pool.items) || c in candidates
  {
    for k := 0 to |candidates|
      invariant pool.Valid(exact) && forall c | c in pool.items :: c in old(pool.items) || c in candidates
    {
      pool.Add(candidates[k], exact);
    }
  }

  // ---- the greedy cover -------------------------------------------------------

  // The bookkeeping of the loop. `exact` says that every recorded cover so far
  // was the functional's own.
  ghost predicate Progress(pos: seq<nat>, neg: seq<nat>, chosen: seq<nat>, residual: seq<nat>, remaining: nat,
                           exact: bool) {
    && AllValid(pos, chosen)
    && (forall i: nat {:trigger Bit(remaining, i)} :: Bit(remaining, i) ==> i < |neg|)
    && (forall k | 0 <= k < |residual| :: residual[k] < |neg|)
    && (exact ==> AllWide(neg, chosen))
    && (exact ==> forall i: nat | i < |neg| :: Bit(remaining, i) || Accounted(neg, chosen, residual, i))
  }

  lemma ChooseKeepsProgress(pos: seq<nat>, neg: seq<nat>, chosen: seq<nat>, residual: seq<nat>, remaining: nat,
                            exact: bool, c: Candidate)
    requires Progress(pos, neg, chosen, residual, remaining, exact) && Good(pos, neg, exact, c)
    requires BitCount(c.cover) >= MinCover(|neg|)
    ensures Progress(pos, neg, chosen + [c.theta], residual, AndNot(remaining, c.cover), exact)
  {
    var more, left := chosen + [c.theta], AndNot(remaining, c.cover);
    forall i: nat ensures Bit(left, i) <==> Bit(remaining, i) && !Bit(c.cover, i) {
      BitOfAndNot(remaining, c.cover, i);
    }
    if exact {
      forall i: nat | i < |neg| ensures Bit(left, i) || Accounted(neg, more, residual, i) {
        FiresBit(neg, c.theta, i);
        if Bit(remaining, i) && Bit(c.cover, i) {
          assert c.theta in more;
        } else if !Bit(remaining, i) && i !in residual {
          assert Accounted(neg, chosen, residual, i);
          var t :| t in chosen && Dot(t, neg[i]);
          assert t in more;
        }
      }
    }
  }

  lemma GiveUpKeepsProgress(pos: seq<nat>, neg: seq<nat>, chosen: seq<nat>, residual: seq<nat>, remaining: nat,
                            exact: bool, target: nat)
    requires Progress(pos, neg, chosen, residual, remaining, exact) && Bit(remaining, target)
    ensures Progress(pos, neg, chosen, residual + [target], AndNot(remaining, Pow2(target)), exact)
    ensures BitCount(AndNot(remaining, Pow2(target))) < BitCount(remaining)
  {
    var left := AndNot(remaining, Pow2(target));
    forall i: nat ensures Bit(left, i) <==> Bit(remaining, i) && i != target {
      BitOfAndNot(remaining, Pow2(target), i);
      BitOfPow2(target, i);
    }
    if exact {
      forall i: nat | i < |neg| ensures Bit(left, i) || Accounted(neg, chosen, residual + [target], i) {
        if i != target && !Bit(remaining, i) {
          assert Accounted(neg, chosen, residual, i);
        }
      }
    }
    BitOfPow2(target, target);
    Struck(remaining, Pow2(target), target);
  }

  // Striking off a mask that hits what remains leaves fewer.
  lemma Struck(remaining: nat, cover: nat, i: nat)
    requires Bit(remaining, i) && Bit(cover, i)
    ensures BitCount(AndNot(remaining, cover)) < BitCount(remaining)
  {
    CountSplits(remaining, cover);
    BitOfAnd(cover, remaining, i);
    ZeroHasNoBit(i);
    CountZero(And(cover, remaining));
  }

  lemma StruckByHit(remaining: nat, cover: nat, hit: nat)
    requires BitCount(And(cover, remaining)) >= hit > 0
    ensures BitCount(AndNot(remaining, cover)) < BitCount(remaining) && BitCount(cover) >= hit
  {
    CountSplits(remaining, cover);
    CountAnd(cover, remaining);
  }

  lemma StallIsGood(pos: seq<nat>, neg: seq<nat>, columns: seq<nat>, target: nat, candidates: seq<Candidate>,
                    exact: bool)
    requires target < |neg|
    requires forall c :: c in candidates ==>
             Separates(pos, neg, columns, neg[target], c) && BitCount(c.cover) >= MinCover(|neg|)
    requires exact ==> forall k | 0 <= k < |candidates| :: candidates[k].cover == Fires(neg, candidates[k].theta)
    ensures AllGood(pos, neg, exact, candidates)
    ensures exact ==> forall c | c in candidates :: Bit(c.cover, target)
  {
    forall k | 0 <= k < |candidates|
      ensures Good(pos, neg, exact, candidates[k]) && (exact ==> Bit(candidates[k].cover, target))
    {
      assert candidates[k] in candidates;
      FiresBit(neg, candidates[k].theta, target);
    }
  }

  // No vanishing columns confuse the search for any negative.
  ghost predicate NoneConfused(pos: seq<nat>, neg: seq<nat>, columns: seq<nat>) {
    forall i | 0 <= i < |neg| :: !Confused(pos, columns, neg[i])
  }

  lemma UnconfusedIsExact(pos: seq<nat>, neg: seq<nat>, columns: seq<nat>, target: nat, candidates: seq<Candidate>)
    requires !Confused(pos, columns, target)
    requires forall c :: c in candidates ==>
             Separates(pos, neg, columns, target, c) && BitCount(c.cover) >= MinCover(|neg|)
    ensures forall k | 0 <= k < |candidates| :: candidates[k].cover == Fires(neg, candidates[k].theta)
  {
    forall k | 0 <= k < |candidates| ensures candidates[k].cover == Fires(neg, candidates[k].theta) {
      assert candidates[k] in candidates;
    }
  }

  // A round in which no pool member fires on enough of what remains: search for
  // the first remaining negative, or give it up.
  method StallRound(pool: Pool, nLinear: nat, columns: seq<nat>, chosen: seq<nat>, residual: seq<nat>,
                    remaining: nat, searches: nat, ghost exact: bool)
    returns (chosen': seq<nat>, residual': seq<nat>, remaining': nat, searches': nat, ghost exact': bool)
    requires remaining != 0 && pool.Valid(exact) && Ascending(columns)
    requires Progress(pool.pos, pool.neg, chosen, residual, remaining, exact)
    modifies pool
    ensures pool.Valid(exact') && Progress(pool.pos, pool.neg, chosen', residual', remaining', exact')
    ensures exact' ==> exact && BitCount(remaining') < BitCount(remaining)
    ensures exact && NoneConfused(pool.pos, pool.neg, columns) ==> exact'
    ensures StallRounds(pool.pos, pool.neg, nLinear, columns,
            Greedy(chosen, residual, remaining, old(pool.items), searches),
                        Greedy(chosen', residual', remaining', pool.items, searches'))
  {
    ghost var pos := pool.pos;
    var neg := pool.neg;
    chosen', residual', exact' := chosen, residual, exact;
    FirstBit(remaining);
    var target := IterBits(remaining)[0];
    var candidates, best;
    candidates, best, searches' := Stall(pool.pos, neg, nLinear, columns, neg[target], remaining, searches);
    if candidates == [] {
      GiveUpKeepsProgress(pos, neg, chosen, residual, remaining, exact, target);
      residual' := residual + [target];
      remaining' := AndNot(remaining, Pow2(target));
    } else {
      if !Confused(pos, columns, neg[target]) {
        UnconfusedIsExact(pos, neg, columns, neg[target], candidates);
      }
      exact' := exact && forall k | 0 <= k < |candidates| :: candidates[k].cover == Fires(neg, candidates[k].theta);
      StallIsGood(pos, neg, columns, target, candidates, exact');
      AddAll(pool, candidates, exact');
      if exact' {
        Struck(remaining, best.cover, target);
      }
      var k :| 0 <= k < |candidates| && candidates[k] == best;
      ChooseKeepsProgress(pos, neg, chosen, residual, remaining, exact', best);
      chosen' := chosen + [best.theta];
      remaining' := AndNot(remaining, best.cover);
      SortKeepsElements(HitOrder(remaining'), pool.items);
      pool.Resort(remaining', exact', |pool.items|);
    }
    assert FirstLeft(neg, remaining, target);
    assert Stalls(neg, Greedy(chosen, residual, remaining, old(pool.items), searches),
                  Greedy(chosen', residual', remaining', pool.items, searches'), target, candidates);
  }

  // One round of the loop: pick from the pool, or stall.
  method OneRound(pool: Pool, nLinear: nat, columns: seq<nat>, chosen: seq<nat>, residual: seq<nat>,
                  remaining: nat, searches: nat, ghost exact: bool)
    returns (chosen': seq<nat>, residual': seq<nat>, remaining': nat, searches': nat, ghost exact': bool)
    requires remaining != 0 && pool.Valid(exact) && Ascending(columns)
    requires Progress(pool.pos, pool.neg, chosen, residual, remaining, exact)
    modifies pool
    ensures pool.Valid(exact') && Progress(pool.pos, pool.neg, chosen', residual', remaining', exact')
    ensures exact' ==> exact && BitCount(remaining') < BitCount(remaining)
    ensures exact && NoneConfused(pool.pos, pool.neg, columns) ==> exact'
    ensures searches' <= searches + 1
    ensures Round(pool.pos, pool.neg, nLinear, columns, Greedy(chosen, residual, remaining, old(pool.items), searches),
                  Greedy(chosen', residual', remaining', pool.items, searches'))
  {
    var neg := pool.neg;
    ghost var s := Greedy(chosen, residual, remaining, pool.items, searches);
    var found, best := pool.PickBest(remaining, MinCover(|neg|));
    if found {
      var k :| 0 <= k < |pool.items| && pool.items[k] == best;
      StruckByHit(remaining, best.cover, MinCover(|neg|));
      ChooseKeepsProgress(pool.pos, neg, chosen, residual, remaining, exact, best);
      chosen', residual', searches', exact' := chosen + [best.theta], residual, searches, exact;
      remaining' := AndNot(remaining, best.cover);
      ghost var grown := pool.Grow(best, remaining', exact);
      assert !NonePasses(neg, s);
      assert Picks(neg, s, Greedy(chosen', residual', remaining', pool.items, searches'), best, grown);
    } else {
      chosen', residual', remaining', searches', exact' :=
        StallRound(pool, nLinear, columns, chosen, residual, remaining, searches, exact);
    }
  }

  // The greedy loop. `exact` ends true unless a stall search recorded a cover
  // that is not its functional's; then every negative is accounted for and the
  // guard was never the reason to stop.
  method GreedyCover(pos: seq<nat>, neg: seq<nat>, nLinear: nat, columns: seq<nat>)
    returns (chosen: seq<nat>, residual: seq<nat>, ghost exact: bool, ghost run: seq<Greedy>)
    requires Ascending(columns)
    ensures IsRun(pos, neg, nLinear, columns, run)
    ensures chosen == run[|run| - 1].chosen && residual == Listed(run[|run| - 1])
    ensures AllValid(pos, chosen) && forall i | i in residual :: i < |neg|
    ensures NoneConfused(pos, neg, columns) ==> exact
    ensures exact ==> AllWide(neg, chosen) && run[|run| - 1].remaining == 0
    ensures exact ==> forall i: nat | i < |neg| :: Accounted(neg, chosen, residual, i)
    ensures exact ==> SearchesBelow(run, |neg|)
  {
    var pool := new Pool(pos, neg);
    ghost var all, triples := pool.Seed(columns, nLinear);
    exact := true;
    chosen, residual := [], [];
    var searches: nat := 0;
    var remaining := Ones(|neg|);
    var guard: nat := |neg| + SLACK;
    StartProgress(pos, neg);
    run := [Greedy(chosen, residual, remaining, pool.items, searches)];
    SeedsStart(pos, neg, nLinear, columns, all, run[0]);
    while remaining != 0 && guard != 0
      invariant pool.pos == pos && pool.neg == neg && fresh(pool) && pool.Valid(exact)
      invariant Progress(pos, neg, chosen, residual, remaining, exact)
      invariant exact ==> BitCount(remaining) + SLACK <= guard
      invariant NoneConfused(pos, neg, columns) ==> exact
      invariant exact ==> searches + BitCount(remaining) <= |neg| && SearchesBelow(run, |neg|)
      invariant IsPrefix(pos, neg, nLinear, columns, run) && |run| + guard == |neg| + SLACK + 1
      invariant run[|run| - 1] == Greedy(chosen, residual, remaining, pool.items, searches)
      decreases guard
    {
      guard := guard - 1;
      CountZero(remaining);
      chosen, residual, remaining, searches, exact :=
        OneRound(pool, nLinear, columns, chosen, residual, remaining, searches, exact);
      ghost var t := Greedy(chosen, residual, remaining, pool.items, searches);
      RunSnoc(pos, neg, nLinear, columns, run, t);
      run := run + [t];
    }
    CountZero(remaining);
    residual := Leftovers(pos, neg, chosen, residual, remaining, exact);
  }

  // What the guard left over is reported, never hidden.
  method Leftovers(ghost pos: seq<nat>, ghost neg: seq<nat>, ghost chosen: seq<nat>, residual: seq<nat>,
                   remaining: nat, ghost exact: bool) returns (r: seq<nat>)
    requires Progress(pos, neg, chosen, residual, remaining, exact)
    ensures forall i | i in r :: i < |neg|
    ensures forall i: nat | Bit(remaining, i) :: i in r
    ensures r == residual + if remaining != 0 then IterBits(remaining) else []
    ensures exact ==> forall i: nat | i < |neg| :: Accounted(neg, chosen, r, i)
  {
    r := residual;
    if remaining != 0 {
      r := residual + IterBits(remaining);
    }
    forall i: nat ensures i in IterBits(remaining) <==> Bit(remaining, i) {
      IterBitsAre(remaining, i);
    }
    forall i: nat | Bit(remaining, i) ensures i in r {
      ZeroHasNoBit(i);
    }
    forall i: nat | exact && i < |neg| ensures Accounted(neg, chosen, r, i) {
      ZeroHasNoBit(i);
    }
  }

  lemma SeedsStart(pos: seq<nat>, neg: seq<nat>, nLinear: nat, columns: seq<nat>, all: seq<Candidate>, s: Greedy)
    requires s == Greedy([], [], Ones(|neg|), Take(SortBy(ByCover, all), 256), 0)
    requires forall c | c in all :: SeedOf(pos, neg, columns, nLinear, c)
    ensures Starts(pos, neg, nLinear, columns, s)
  {
    SortKeepsElements(ByCover, all);
  }

  lemma StartProgress(pos: seq<nat>, neg: seq<nat>)
    ensures Progress(pos, neg, [], [], Ones(|neg|), true) && BitCount(Ones(|neg|)) == |neg|
  {
    CountOnes(|neg|);
    forall i: nat ensures Bit(Ones(|neg|), i) <==> i < |neg| {
      BitOfOnes(|neg|, i);
    }
  }

  lemma FirstBit(x: nat)
    requires x != 0
    ensures IterBits(x) != [] && Bit(x, IterBits(x)[0])
  {
    var j := SomeBit(x);
    IterBitsAre(x, j);
    IterBitsAre(x, IterBits(x)[0]);
  }

  // ---- redundancy removal -------------------------------------------------------

  ghost predicate CoveredBy(covers: seq<nat>, drop: set<nat>, i: nat) {
    exists k: nat :: k < |covers| && k !in drop && Bit(covers[k], i)
  }

  ghost predicate OnlyCover(covers: seq<nat>, drop: set<nat>, k: nat, i: nat)
    requires k < |covers|
  {
    Bit(covers[k], i) && forall j: nat | j < |covers| && j !in drop && j != k :: !Bit(covers[j], i)
  }

  ghost predicate Alone(covers: seq<nat>, drop: set<nat>, k: nat)
    requires k < |covers|
  {
    exists i: nat :: OnlyCover(covers, drop, k, i)
  }

  method Others(covers: seq<nat>, drop: set<nat>, idx: nat) returns (others: nat)
    ensures forall i: nat :: Bit(others, i) <==> CoveredBy(covers, drop + {idx}, i)
  {
    others := 0;
    forall i: nat ensures !Bit(0, i) {
      ZeroHasNoBit(i);
    }
    for j := 0 to |covers|
      invariant forall i: nat :: Bit(others, i) <==> CoveredBy(covers[..j], drop + {idx}, i)
    {
      ghost var was := others;
      if j != idx && j !in drop {
        others := Or(others, covers[j]);
      }
      forall i: nat ensures Bit(others, i) <==> CoveredBy(covers[..j + 1], drop + {idx}, i) {
        BitOfOr(was, covers[j], i);
        CoveredByOneMore(covers, drop + {idx}, j, i);
      }
    }
    assert covers[..|covers|] == covers;
  }

  lemma CoveredByOneMore(covers: seq<nat>, drop: set<nat>, j: nat, i: nat)
    requires j < |covers|
    ensures CoveredBy(covers[..j + 1], drop, i)
            <==> CoveredBy(covers[..j], drop, i) || (j !in drop && Bit(covers[j], i))
  {
    var more, less := covers[..j + 1], covers[..j];
    if CoveredBy(less, drop, i) {
      var k: nat :| k < |less| && k !in drop && Bit(less[k], i);
      assert more[k] == less[k];
    }
    if j !in drop && Bit(covers[j], i) {
      assert more[j] == covers[j];
    }
    if CoveredBy(more, drop, i) {
      var k: nat :| k < |more| && k !in drop && Bit(more[k], i);
      if k < j {
        assert less[k] == more[k];
      }
    }
  }

  // A member covered by the others may go.
  lemma DropKeepsCover(covers: seq<nat>, drop: set<nat>, idx: nat, others: nat)
    requires idx < |covers| && AndNot(covers[idx], others) == 0
    requires forall i: nat :: Bit(others, i) <==> CoveredBy(covers, drop + {idx}, i)
    ensures forall i: nat :: CoveredBy(covers, drop + {idx}, i) <==> CoveredBy(covers, drop, i)
  {
    forall i: nat ensures CoveredBy(covers, drop + {idx}, i) <==> CoveredBy(covers, drop, i) {
      BitOfAndNot(covers[idx], others, i);
      ZeroHasNoBit(i);
      if CoveredBy(covers, drop, i) {
        var k: nat :| k < |covers| && k !in drop && Bit(covers[k], i);
        assert k == idx || k !in drop + {idx};
      }
    }
  }

  lemma KeptIsAlone(covers: seq<nat>, drop: set<nat>, idx: nat, others: nat)
    requires idx < |covers| && AndNot(covers[idx], others) != 0
    requires forall i: nat :: Bit(others, i) <==> CoveredBy(covers, drop + {idx}, i)
    ensures Alone(covers, drop, idx)
  {
    var i := SomeBit(AndNot(covers[idx], others));
    BitOfAndNot(covers[idx], others, i);
    assert OnlyCover(covers, drop, idx, i);
  }

  method Redundant(covers: seq<nat>) returns (drop: set<nat>)
    ensures forall i: nat :: CoveredBy(covers, drop, i) <==> CoveredBy(covers, {}, i)
    ensures forall k: nat | k < |covers| && k !in drop :: Alone(covers, drop, k)
  {
    drop := {};
    for idx := 0 to |covers|
      invariant forall i: nat :: CoveredBy(covers, drop, i) <==> CoveredBy(covers, {}, i)
      invariant forall k | k in drop :: k < idx
      invariant forall k: nat | k < idx && k !in drop :: Alone(covers, drop, k)
    {
      var others := Others(covers, drop, idx);
      if AndNot(covers[idx], others) == 0 {
        DropKeepsCover(covers, drop, idx, others);
        forall k: nat | k < idx && k !in drop ensures Alone(covers, drop + {idx}, k) {
          var i: nat :| OnlyCover(covers, drop, k, i);
          assert OnlyCover(covers, drop + {idx}, k, i);
        }
        drop := drop + {idx};
      } else {
        KeptIsAlone(covers, drop, idx, others);
      }
    }
  }

  // The members that are not dropped, with where they come from.
  method Keep(chosen: seq<nat>, drop: set<nat>) returns (kept: seq<nat>, ghost from: seq<nat>)
    ensures |from| == |kept| && Distinct(from)
    ensures forall a | 0 <= a < |kept| :: from[a] < |chosen| && from[a] !in drop && kept[a] == chosen[from[a]]
    ensures forall k: nat | k < |chosen| && k !in drop :: k in from
  {
    kept, from := [], [];
    for idx := 0 to |chosen|
      invariant |from| == |kept| && Distinct(from) && forall a | 0 <= a < |from| :: from[a] < idx
      invariant forall a | 0 <= a < |kept| :: from[a] !in drop && kept[a] == chosen[from[a]]
      invariant forall k: nat | k < idx && k !in drop :: k in from
    {
      if idx !in drop {
        kept, from := kept + [chosen[idx]], from + [idx];
      }
    }
  }

  // Removing members whose cover the others hold changes nothing that is fired,
  // and no further member could go.
  method RemoveRedundant(neg: seq<nat>, chosen: seq<nat>) returns (kept: seq<nat>)
    ensures forall t | t in kept :: t in chosen
    ensures forall i: nat | i < |neg| :: FiredBy(neg, kept, i) <==> FiredBy(neg, chosen, i)
    ensures Irredundant(neg, kept)
  {
    var covers: seq<nat> := [];
    for k := 0 to |chosen|
      invariant |covers| == k && forall j | 0 <= j < k :: covers[j] == Fires(neg, chosen[j])
    {
      var cover := CoverOf(neg, chosen[k]);
      covers := covers + [cover];
    }
    var drop := Redundant(covers);
    ghost var from;
    kept, from := Keep(chosen, drop);
    forall i: nat | i < |neg| ensures FiredBy(neg, kept, i) <==> FiredBy(neg, chosen, i) {
      KeptFires(neg, chosen, covers, drop, kept, from, i);
    }
    KeptIrredundant(neg, chosen, covers, drop, kept, from);
  }

  ghost predicate KeptFrom(neg: seq<nat>, chosen: seq<nat>, covers: seq<nat>, drop: set<nat>, kept: seq<nat>,
                           from: seq<nat>) {
    && |covers| == |chosen| && (forall j | 0 <= j < |chosen| :: covers[j] == Fires(neg, chosen[j]))
    && |from| == |kept| && Distinct(from)
    && (forall a | 0 <= a < |kept| :: from[a] < |chosen| && from[a] !in drop && kept[a] == chosen[from[a]])
    && (forall k: nat | k < |chosen| && k !in drop :: k in from)
  }

  lemma KeptFires(neg: seq<nat>, chosen: seq<nat>, covers: seq<nat>, drop: set<nat>, kept: seq<nat>,
                  from: seq<nat>, i: nat)
    requires KeptFrom(neg, chosen, covers, drop, kept, from) && i < |neg|
    requires CoveredBy(covers, drop, i) <==> CoveredBy(covers, {}, i)
    ensures FiredBy(neg, kept, i) <==> FiredBy(neg, chosen, i)
  {
    forall t: nat ensures Bit(Fires(neg, t), i) <==> Dot(t, neg[i]) {
      FiresBit(neg, t, i);
    }
    if FiredBy(neg, chosen, i) {
      var t :| t in chosen && Dot(t, neg[i]);
      var k :| 0 <= k < |chosen| && chosen[k] == t;
      assert Bit(covers[k], i);
      var k': nat :| k' < |covers| && k' !in drop && Bit(covers[k'], i);
      var a :| 0 <= a < |from| && from[a] == k';
      assert kept[a] in kept;
    }
  }

  lemma KeptIrredundant(neg: seq<nat>, chosen: seq<nat>, covers: seq<nat>, drop: set<nat>, kept: seq<nat>,
                        from: seq<nat>)
    requires KeptFrom(neg, chosen, covers, drop, kept, from)
    requires forall k: nat | k < |covers| && k !in drop :: Alone(covers, drop, k)
    ensures Irredundant(neg, kept)
  {
    forall a, b | 0 <= a < b < |kept| ensures kept[a] != kept[b] {
      var i: nat :| OnlyCover(covers, drop, from[a], i);
      assert !Bit(covers[from[b]], i);
    }
    forall t | t in kept ensures Needed(neg, kept, t) {
      var a :| 0 <= a < |kept| && kept[a] == t;
      var i: nat :| OnlyCover(covers, drop, from[a], i);
      FiresBit(neg, t, i);
      forall u | u in kept && u != t ensures !Dot(u, neg[i]) {
        var b :| 0 <= b < |kept| && kept[b] == u;
        FiresBit(neg, u, i);
        assert from[b] != from[a];
      }
      assert OnlyFirer(neg, kept, t, i);
    }
  }

  // ---- the family ------------------------------------------------------------------

  // Drops what fires on a positive.
  method Safe(pos: seq<nat>, chosen: seq<nat>) returns (safe: seq<nat>)
    ensures AllValid(pos, chosen) ==> safe == chosen
  {
    safe := [];
    for k := 0 to |chosen|
      invariant AllValid(pos, chosen) ==> safe == chosen[..k]
    {
      var fired := CoverOf(pos, chosen[k]);
      if fired == 0 {
        safe := safe + [chosen[k]];
      }
      assert AllValid(pos, chosen) ==> chosen[k] in chosen && fired == 0;
    }
  }

  // The family is what a run of the solver chose, without what fires nothing of
  // its own. No member fires on a positive, and the final filter has nothing to
  // remove. When `exact`, every negative is fired by some member or listed as a
  // residual, every member fires on enough of them, the guard never stopped the
  // loop, and, unless the searches are used up, a residual is a negative that no
  // functional the search looks for separates widely enough. It is, if no
  // vanishing columns confuse the search.
  method SolveFamily(pos: seq<nat>, neg: seq<nat>, nLinear: nat)
    returns (family: seq<nat>, residual: seq<nat>, ghost exact: bool, ghost run: seq<Greedy>)
    ensures AllValid(pos, family) && Irredundant(neg, family)
    ensures forall i | i in residual :: i < |neg|
    ensures neg != [] ==> SolvedBy(pos, neg, nLinear, run, family, residual)
    ensures exact ==> forall i: nat | i < |neg| :: Accounted(neg, family, residual, i)
    ensures exact ==> AllWide(neg, family)
    ensures exact && |neg| <= MAX_SEARCHES ==> AllHonest(pos, neg, Columns(neg), residual)
    ensures Clear(pos, neg) ==> exact
  {
    if neg == [] {
      return [], [], true, [];
    }
    var columns := Columns(neg);
    ColumnsAre(neg);
    ClearIsUnconfused(pos, neg);
    var chosen;
    chosen, residual, exact, run := GreedyCover(pos, neg, nLinear, columns);
    if exact && |neg| <= MAX_SEARCHES {
      ResidualsAreHonest(pos, neg, nLinear, columns, run);
    }
    var kept := RemoveRedundant(neg, chosen);
    var safe := Safe(pos, kept);
    assert safe == kept;
    var less := (a: nat, b: nat) => BitCount(a) < BitCount(b) || (BitCount(a) == BitCount(b) && a < b);
    family := SortBy(less, safe);
    SortKeepsElements(less, safe);
    SameElements(neg, safe, family);
    forall i: nat | exact && i < |neg| ensures Accounted(neg, family, residual, i) {
      assert Accounted(neg, chosen, residual, i);
    }
  }

  // The family and the residuals that a run ends with.
  ghost predicate SolvedBy(pos: seq<nat>, neg: seq<nat>, nLinear: nat, run: seq<Greedy>, family: seq<nat>,
                           residual: seq<nat>) {
    && IsRun(pos, neg, nLinear, Columns(neg), run)
    && (forall t | t in family :: t in run[|run| - 1].chosen)
    && (forall i: nat | i < |neg| :: FiredBy(neg, family, i) <==> FiredBy(neg, run[|run| - 1].chosen, i))
    && residual == Listed(run[|run| - 1])
  }

  // No negative holds a column and lacks a smaller one of another negative, both
  // of which no positive holds.
  ghost predicate Clear(pos: seq<nat>, neg: seq<nat>) {
    forall i, a: nat, b: nat | 0 <= i < |neg| && b < a && Bit(neg[i], a) && !Bit(neg[i], b) && InSome(neg, b) ::
      InSome(pos, a) || InSome(pos, b)
  }

  ghost predicate InSome(phis: seq<nat>, j: nat) {
    exists p :: 0 <= p < |phis| && Bit(phis[p], j)
  }

  lemma ClearIsUnconfused(pos: seq<nat>, neg: seq<nat>)
    ensures Clear(pos, neg) <==> NoneConfused(pos, neg, Columns(neg))
  {
    var columns := Columns(neg);
    ColumnsAre(neg);
    forall j: nat ensures Sig(pos, j) == 0 <==> !InSome(pos, j) {
      VanishesExactly(pos, j);
    }
    if Clear(pos, neg) {
      forall i | 0 <= i < |neg| ensures !Confused(pos, columns, neg[i]) {
        if a: nat, b: nat :| ConfusedBy(pos, columns, neg[i], a, b) {
          assert InSome(neg, b);
        }
      }
    }
    if NoneConfused(pos, neg, columns) {
      forall i, a: nat, b: nat | 0 <= i < |neg| && b < a && Bit(neg[i], a) && !Bit(neg[i], b) && InSome(neg, b)
        ensures InSome(pos, a) || InSome(pos, b)
      {
        assert a in columns && b in columns;
        assert !ConfusedBy(pos, columns, neg[i], a, b);
      }
    }
  }

  lemma VanishesExactly(pos: seq<nat>, j: nat)
    ensures Sig(pos, j) == 0 <==> !InSome(pos, j)
  {
    forall p: nat ensures Bit(Sig(pos, j), p) <==> p < |pos| && Bit(pos[p], j) {
      FiresBit(pos, Pow2(j), p);
      if p < |pos| {
        DotPow2(j, pos[p]);
      }
    }
    if InSome(pos, j) {
      var p :| 0 <= p < |pos| && Bit(pos[p], j);
      ZeroHasNoBit(p);
    } else {
      NoBits(Sig(pos, j));
    }
  }

  lemma SameElements(neg: seq<nat>, a: seq<nat>, b: seq<nat>)
    requires multiset(a) == multiset(b) && forall t :: t in a <==> t in b
    requires Irredundant(neg, a)
    ensures Irredundant(neg, b)
    ensures forall i: nat | i < |neg| :: FiredBy(neg, a, i) <==> FiredBy(neg, b, i)
  {
    SameMultisetDistinct(a, b);
    forall t | t in b ensures Needed(neg, b, t) {
      var i :| 0 <= i < |neg| && OnlyFirer(neg, a, t, i);
      assert OnlyFirer(neg, b, t, i);
    }
  }
}
