// The mapping model built from two functional families: the classifier and the
// alternating fit (tools/g3_probe/solve_mapping.py).
module MappingModel {
  import opened Bits
  import opened Masks
  import opened Covers
  import opened FamilySolver

  datatype Timing = Low | Conflict

  // A measured pair: its feature difference and its timing class.
  datatype Pair = Pair(phi: nat, timing: Timing)

  predicate InKernel(family: seq<nat>, phi: nat) {
    forall t | t in family :: !Dot(t, phi)
  }

  function Classify(theta: seq<nat>, rho: seq<nat>, phi: nat): Timing {
    if !InKernel(theta, phi) then Low
    else if InKernel(rho, phi) then Low
    else Conflict
  }

  // The value of every polynomial of a family at an address with these features.
  function Address(family: seq<nat>, mu: nat): (r: seq<bool>)
    ensures |r| == |family|
  {
    seq(|family|, k requires 0 <= k < |family| => Dot(family[k], mu))
  }

  // The bank and the row of an address are well defined: two addresses are
  // classified as a conflict exactly when they agree on every bank polynomial
  // and differ on some row polynomial.
  lemma ConflictIsSameBankOtherRow(theta: seq<nat>, rho: seq<nat>, x: nat, y: nat)
    ensures Classify(theta, rho, Xor(x, y)) == Conflict <==>
              Address(theta, x) == Address(theta, y) && Address(rho, x) != Address(rho, y)
  {
    KernelIsSameAddress(theta, x, y);
    KernelIsSameAddress(rho, x, y);
  }

  lemma KernelIsSameAddress(family: seq<nat>, x: nat, y: nat)
    ensures InKernel(family, Xor(x, y)) <==> Address(family, x) == Address(family, y)
  {
    forall k | 0 <= k < |family| ensures Dot(family[k], Xor(x, y)) == (Address(family, x)[k] != Address(family, y)[k]) {
      DotXorRight(family[k], x, y);
    }
    if InKernel(family, Xor(x, y)) {
      assert forall k | 0 <= k < |family| :: Address(family, x)[k] == Address(family, y)[k];
    }
  }

  // ---- the fit ---------------------------------------------------------------

  function Phis(pairs: seq<Pair>): (r: seq<nat>)
    ensures |r| == |pairs| && forall k | 0 <= k < |pairs| :: r[k] == pairs[k].phi
  {
    seq(|pairs|, k requires 0 <= k < |pairs| => pairs[k].phi)
  }

  // Every pair is outside the kernel of the family or a residual.
  ghost predicate Separated(pairs: seq<Pair>, family: seq<nat>, residual: seq<Pair>) {
    forall p | p in pairs :: p in residual || !InKernel(family, p.phi)
  }

  ghost predicate Vanishes(pairs: seq<Pair>, family: seq<nat>) {
    forall p | p in pairs :: InKernel(family, p.phi)
  }

  method Solve(positives: seq<Pair>, negatives: seq<Pair>, nLinear: nat)
    returns (family: seq<nat>, residual: seq<Pair>, ghost exact: bool)
    ensures Vanishes(positives, family) && forall p | p in residual :: p in negatives
    ensures exact ==> Separated(negatives, family, residual)
    ensures Clear(Phis(positives), Phis(negatives)) ==> exact
  {
    var pos, neg := Phis(positives), Phis(negatives);
    var left;
    ghost var run;
    family, left, exact, run := SolveFamily(pos, neg, nLinear);
    residual := Named(negatives, left);
    ValidFamilyVanishes(positives, family);
    if exact {
      AccountedAreSeparated(negatives, family, left, residual);
    }
  }

  // The pairs with these indices.
  method Named(pairs: seq<Pair>, left: seq<nat>) returns (r: seq<Pair>)
    requires forall i | i in left :: i < |pairs|
    ensures |r| == |left| && forall a | 0 <= a < |left| :: left[a] < |pairs| && r[a] == pairs[left[a]]
  {
    r := [];
    for k := 0 to |left|
      invariant |r| == k && forall a | 0 <= a < k :: left[a] < |pairs| && r[a] == pairs[left[a]]
    {
      assert left[k] in left;
      r := r + [pairs[left[k]]];
    }
  }

  lemma ValidFamilyVanishes(positives: seq<Pair>, family: seq<nat>)
    requires AllValid(Phis(positives), family)
    ensures Vanishes(positives, family)
  {
    forall p, t | p in positives && t in family ensures !Dot(t, p.phi) {
      var i :| 0 <= i < |positives| && positives[i] == p;
      ValidVanishes(Phis(positives), t);
      assert !Dot(t, Phis(positives)[i]);
    }
  }

  lemma AccountedAreSeparated(negatives: seq<Pair>, family: seq<nat>, left: seq<nat>, residual: seq<Pair>)
    requires forall i: nat | i < |negatives| :: Accounted(Phis(negatives), family, left, i)
    requires |residual| == |left| && forall a | 0 <= a < |left| ::
             left[a] < |negatives| && residual[a] == negatives[left[a]]
    ensures Separated(negatives, family, residual)
  {
    forall p | p in negatives ensures p in residual || !InKernel(family, p.phi) {
      var i: nat :| i < |negatives| && negatives[i] == p;
      assert Accounted(Phis(negatives), family, left, i);
      if i in left {
        var k :| 0 <= k < |left| && left[k] == i;
        assert residual[k] == p;
      }
    }
  }

  method Select(pairs: seq<Pair>, family: seq<nat>, inside: bool) returns (r: seq<Pair>)
    ensures forall p :: p in r <==> p in pairs && InKernel(family, p.phi) == inside
  {
    r := [];
    for k := 0 to |pairs|
      invariant forall p :: p in r <==> p in pairs[..k] && InKernel(family, p.phi) == inside
    {
      assert pairs[..k + 1] == pairs[..k] + [pairs[k]];
      if InKernel(family, pairs[k].phi) == inside {
        r := r + [pairs[k]];
      }
    }
    assert pairs[..|pairs|] == pairs;
  }

  // A fit is explained when every training pair it misclassifies is one of the
  // residuals of its two families.
  ghost predicate Explained(train: seq<Pair>, theta: seq<nat>, rho: seq<nat>, bankLeft: seq<Pair>, rowLeft: seq<Pair>) {
    forall p | p in train && Classify(theta, rho, p.phi) != p.timing ::
      if p.timing == Low then p in bankLeft else p in rowLeft
  }

  // What both directions of the alternation keep.
  ghost predicate Fits(conflicts: seq<Pair>, lows: seq<Pair>, theta: seq<nat>, rho: seq<nat>,
                       bankLeft: seq<Pair>, rowLeft: seq<Pair>) {
    && Vanishes(conflicts, theta)
    && Separated(conflicts, rho, rowLeft)
    && (forall p | p in lows && InKernel(theta, p.phi) :: InKernel(rho, p.phi) || p in bankLeft)
  }

  lemma FitsAreExplained(train: seq<Pair>, conflicts: seq<Pair>, lows: seq<Pair>, theta: seq<nat>, rho: seq<nat>,
                         bankLeft: seq<Pair>, rowLeft: seq<Pair>)
    requires Fits(conflicts, lows, theta, rho, bankLeft, rowLeft)
    requires forall p | p in train :: if p.timing == Low then p in lows else p in conflicts
    ensures Explained(train, theta, rho, bankLeft, rowLeft)
  {
  }

  // The row family from the lows the bank family cannot tell apart.
  method SolveRows(conflicts: seq<Pair>, lows: seq<Pair>, theta: seq<nat>, ghost bankLeft: seq<Pair>)
    returns (rho: seq<nat>, rowLeft: seq<Pair>, ghost exact: bool)
    requires Vanishes(conflicts, theta)
    ensures exact ==> Fits(conflicts, lows, theta, rho, bankLeft, rowLeft)
  {
    var inside := Select(lows, theta, true);
    rho, rowLeft, exact := Solve(inside, conflicts, 0);
  }

  // The bank family from the lows the row family separates.
  method SolveBanks(conflicts: seq<Pair>, lows: seq<Pair>, rho: seq<nat>, nBits: nat, ghost rowLeft: seq<Pair>)
    returns (theta: seq<nat>, bankLeft: seq<Pair>, ghost exact: bool)
    ensures Vanishes(conflicts, theta)
    ensures exact && Separated(conflicts, rho, rowLeft) ==> Fits(conflicts, lows, theta, rho, bankLeft, rowLeft)
  {
    var outside := Select(lows, rho, false);
    theta, bankLeft, exact := Solve(conflicts, outside, nBits);
  }

  function Miscount(pairs: seq<Pair>, theta: seq<nat>, rho: seq<nat>): nat {
    if pairs == [] then 0
    else (if Classify(theta, rho, pairs[0].phi) != pairs[0].timing then 1 else 0) + Miscount(pairs[1..], theta, rho)
  }

  lemma {:induction false} MiscountZero(pairs: seq<Pair>, theta: seq<nat>, rho: seq<nat>)
    ensures Miscount(pairs, theta, rho) == 0 <==>
              forall p | p in pairs :: Classify(theta, rho, p.phi) == p.timing
  {
    if pairs != [] {
      MiscountZero(pairs[1..], theta, rho);
      assert pairs == [pairs[0]] + pairs[1..];
    }
  }

  function Weight(family: seq<nat>): nat {
    if family == [] then 0 else BitCount(family[0]) + Weight(family[1..])
  }

  datatype Key = Key(missed: nat, residuals: nat, weight: nat, size: nat)

  predicate KeyLess(x: Key, y: Key) {
    || x.missed < y.missed
    || (x.missed == y.missed
        && (|| x.residuals < y.residuals
            || (x.residuals == y.residuals
                && (x.weight < y.weight || (x.weight == y.weight && x.size < y.size)))))
  }

  datatype Fit = Fit(theta: seq<nat>, rho: seq<nat>, bankLeft: seq<Pair>, rowLeft: seq<Pair>)

  function KeyOf(train: seq<Pair>, fit: Fit): Key {
    Key(Miscount(train, fit.theta, fit.rho), |fit.bankLeft| + |fit.rowLeft|,
        Weight(fit.theta) + Weight(fit.rho), |fit.theta| + |fit.rho|)
  }

  datatype Result = Best(fit: Fit, misclassified: nat) | NoRounds

  // Each state keeps one family of the state before it, the row family when the
  // bank family was solved and the other way round.
  ghost predicate Alternates(states: seq<Fit>) {
    forall k {:trigger TurnAt(states, k)} | 0 < k < |states| :: TurnAt(states, k)
  }

  predicate TurnAt(states: seq<Fit>, k: nat)
    requires 0 < k < |states|
  {
    Turns(states[k - 1], states[k], k % 2 == 1)
  }

  predicate Turns(now: Fit, next: Fit, swap: bool) {
    if swap then next.theta == now.theta && next.bankLeft == now.bankLeft
    else next.rho == now.rho && next.rowLeft == now.rowLeft
  }

  lemma AlternatesMore(states: seq<Fit>, next: Fit)
    requires Alternates(states) && (states != [] ==> Turns(states[|states| - 1], next, |states| % 2 == 1))
    ensures Alternates(states + [next])
  {
    forall k | 0 < k < |states + [next]| ensures TurnAt(states + [next], k) {
      if k < |states| {
        assert TurnAt(states, k);
      }
    }
  }

  predicate SameFamilies(x: Fit, y: Fit) { x.theta == y.theta && x.rho == y.rho }

  ghost predicate NoneRepeats(states: seq<Fit>) {
    forall a, b | 0 <= a < b < |states| :: !SameFamilies(states[a], states[b])
  }

  // All rounds were run, or the last state was the first one to repeat another.
  ghost predicate RanOut(states: seq<Fit>, rounds: nat) {
    || (|states| == 2 * rounds && NoneRepeats(states))
    || (states != [] && |states| <= 2 * rounds && NoneRepeats(states[..|states| - 1])
        && exists k :: 0 <= k < |states| - 1 && SameFamilies(states[k], states[|states| - 1]))
  }

  // The loop so far: no state has repeated, `seen` holds their families, and
  // the last state is the current one.
  ghost predicate Walk(states: seq<Fit>, seen: set<(seq<nat>, seq<nat>)>, round: nat, swap: bool, rounds: nat,
                       now: Fit)
  {
    && round <= rounds && (round == rounds ==> !swap) && |states| == 2 * round + (if swap then 1 else 0)
    && Alternates(states) && NoneRepeats(states)
    && (states != [] ==> states[|states| - 1] == now)
    && SeenAre(states, seen)
  }

  ghost predicate SeenAre(states: seq<Fit>, seen: set<(seq<nat>, seq<nat>)>) {
    && (forall k | 0 <= k < |states| :: (states[k].theta, states[k].rho) in seen)
    && (forall p | p in seen :: SeenIn(states, p))
  }

  ghost predicate SeenIn(states: seq<Fit>, p: (seq<nat>, seq<nat>)) {
    exists k :: 0 <= k < |states| && (states[k].theta, states[k].rho) == p
  }

  lemma WalkOn(states: seq<Fit>, seen: set<(seq<nat>, seq<nat>)>, round: nat, swap: bool, rounds: nat, now: Fit,
               next: Fit)
    requires Walk(states, seen, round, swap, rounds, now) && round < rounds && Turns(now, next, swap)
    requires (next.theta, next.rho) !in seen
    ensures Walk(states + [next], seen + {(next.theta, next.rho)},
                 if swap then round + 1 else round, !swap, rounds, next)
  {
    AlternatesMore(states, next);
    NoneRepeatsMore(states, next);
    SeenMore(states, seen, next);
  }

  lemma NoneRepeatsMore(states: seq<Fit>, next: Fit)
    requires NoneRepeats(states) && forall k | 0 <= k < |states| :: !SameFamilies(states[k], next)
    ensures NoneRepeats(states + [next])
  {
  }

  lemma SeenMore(states: seq<Fit>, seen: set<(seq<nat>, seq<nat>)>, next: Fit)
    requires SeenAre(states, seen)
    ensures SeenAre(states + [next], seen + {(next.theta, next.rho)})
  {
    var more := states + [next];
    assert more[|states|] == next;
    forall p | p in seen ensures SeenIn(more, p) {
      assert SeenIn(states, p);
      var k :| 0 <= k < |states| && (states[k].theta, states[k].rho) == p;
      assert more[k] == states[k];
    }
  }

  lemma WalkRepeats(states: seq<Fit>, seen: set<(seq<nat>, seq<nat>)>, round: nat, swap: bool, rounds: nat, now: Fit,
                    next: Fit)
    requires Walk(states, seen, round, swap, rounds, now) && round < rounds && Turns(now, next, swap)
    requires (next.theta, next.rho) in seen
    ensures Alternates(states + [next]) && RanOut(states + [next], rounds)
  {
    var more := states + [next];
    AlternatesMore(states, next);
    assert more[..|states|] == states;
    assert SeenIn(states, (next.theta, next.rho));
    var k :| 0 <= k < |states| && (states[k].theta, states[k].rho) == (next.theta, next.rho);
    assert SameFamilies(more[k], more[|states|]);
  }

  // best is one of the states, and none is better.
  ghost predicate IsBest(train: seq<Pair>, states: seq<Fit>, best: Fit) {
    best in states && forall f | f in states :: !KeyLess(KeyOf(train, f), KeyOf(train, best))
  }

  lemma BestOfMore(train: seq<Pair>, states: seq<Fit>, best: Fit, fit: Fit)
    requires states == [] || IsBest(train, states, best)
    ensures IsBest(train, states + [fit],
                   if states == [] || KeyLess(KeyOf(train, fit), KeyOf(train, best)) then fit else best)
  {
  }

  // One half-round: the row family from the current bank family, or the other
  // way round.
  method NextFit(conflicts: seq<Pair>, lows: seq<Pair>, now: Fit, nBits: nat, swap: bool)
    returns (next: Fit, ghost ok: bool)
    requires Vanishes(conflicts, now.theta)
    ensures Turns(now, next, swap) && Vanishes(conflicts, next.theta)
    ensures ok && Fitting(conflicts, lows, now) ==> Fitting(conflicts, lows, next)
  {
    if swap {
      var rho, rowLeft;
      rho, rowLeft, ok := SolveRows(conflicts, lows, now.theta, now.bankLeft);
      next := now.(rho := rho, rowLeft := rowLeft);
    } else {
      var theta, bankLeft;
      theta, bankLeft, ok := SolveBanks(conflicts, lows, now.rho, nBits, now.rowLeft);
      next := now.(theta := theta, bankLeft := bankLeft);
    }
  }

  ghost predicate Fitting(conflicts: seq<Pair>, lows: seq<Pair>, fit: Fit) {
    Fits(conflicts, lows, fit.theta, fit.rho, fit.bankLeft, fit.rowLeft)
  }

  // The alternation from a first fit: until a state repeats or the rounds are up.
  method Alternate(train: seq<Pair>, conflicts: seq<Pair>, lows: seq<Pair>, start: Fit, nBits: nat, rounds: nat)
    returns (any: bool, best: Fit, ghost exact: bool, ghost states: seq<Fit>)
    requires Vanishes(conflicts, start.theta)
    ensures any <==> rounds > 0
    ensures Alternates(states) && RanOut(states, rounds)
    ensures any ==> IsBest(train, states, best)
    ensures any && exact && Fitting(conflicts, lows, start) ==> Fitting(conflicts, lows, best)
  {
    exact, states := true, [];
    var fit, seen := start, {};
    any, best := false, start;
    var round, swap := 0, false;
    while round < rounds
      invariant Vanishes(conflicts, fit.theta) && (any <==> states != [])
      invariant exact && Fitting(conflicts, lows, start) ==>
                Fitting(conflicts, lows, fit) && Fitting(conflicts, lows, best)
      invariant Walk(states, seen, round, swap, rounds, fit)
      invariant any ==> IsBest(train, states, best)
      decreases rounds - round, !swap
    {
      var next, ok := NextFit(conflicts, lows, fit, nBits, swap);
      exact := exact && ok;
      BestOfMore(train, states, best, next);
      if !any || KeyLess(KeyOf(train, next), KeyOf(train, best)) {
        any, best := true, next;
      }
      if (next.theta, next.rho) in seen {
        WalkRepeats(states, seen, round, swap, rounds, fit, next);
        states := states + [next];
        break;
      }
      WalkOn(states, seen, round, swap, rounds, fit, next);
      states, seen, fit := states + [next], seen + {(next.theta, next.rho)}, next;
      round, swap := if swap then round + 1 else round, !swap;
    }
  }

  // Alternates the two solves and keeps the best state. As long as every solve
  // was exact, whatever the kept state misclassifies is one of its residuals.
  method RunFit(train: seq<Pair>, nBits: nat, rounds: nat)
    returns (result: Result, ghost exact: bool, ghost states: seq<Fit>)
    ensures result.Best? <==> rounds > 0
    ensures result.Best? ==> result.misclassified == Miscount(train, result.fit.theta, result.fit.rho)
    ensures result.Best? && exact ==>
              Explained(train, result.fit.theta, result.fit.rho, result.fit.bankLeft, result.fit.rowLeft)
    ensures result.Best? && exact && result.fit.bankLeft == [] && result.fit.rowLeft == [] ==> result.misclassified == 0
    ensures Alternates(states) && RanOut(states, rounds)
    ensures result.Best? ==> IsBest(train, states, result.fit)
  {
    var conflicts := SelectTiming(train, Conflict);
    var lows := SelectTiming(train, Low);
    var theta, bankLeft, first := Solve(conflicts, lows, nBits);
    var rho, rowLeft, second := SolveRows(conflicts, lows, theta, bankLeft);
    var any, best;
    ghost var later;
    any, best, later, states := Alternate(train, conflicts, lows, Fit(theta, rho, bankLeft, rowLeft), nBits, rounds);
    exact := first && second && later;
    if !any { return NoRounds, exact, states; }
    result := Best(best, Miscount(train, best.theta, best.rho));
    MiscountZero(train, best.theta, best.rho);
    if exact {
      FitsAreExplained(train, conflicts, lows, best.theta, best.rho, best.bankLeft, best.rowLeft);
    }
  }

  method SelectTiming(pairs: seq<Pair>, timing: Timing) returns (r: seq<Pair>)
    ensures forall p :: p in r <==> p in pairs && p.timing == timing
  {
    r := [];
    for k := 0 to |pairs|
      invariant forall p :: p in r <==> p in pairs[..k] && p.timing == timing
    {
      assert pairs[..k + 1] == pairs[..k] + [pairs[k]];
      if pairs[k].timing == timing {
        r := r + [pairs[k]];
      }
    }
    assert pairs[..|pairs|] == pairs;
  }
}
