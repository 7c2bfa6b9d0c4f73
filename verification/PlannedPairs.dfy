// The address pairs each section of the table-build plan measures
// (`plan_table_build_queries` in tools/g3_probe/g3_pool.py).
module PlannedPairs {
  import opened Outcomes
  import opened PoolMaps
  import opened Sorting

  type Pair = (int, int)

  // The physical addresses of the two ends of a query; None where the source
  // throws.
  function PasOf(pool: Pool, q: Query): Option<Pair> {
    match (PaOf(pool, q.chunkA, q.offsetA), PaOf(pool, q.chunkB, q.offsetB))
    case (Some(a), Some(b)) => Some((a, b))
    case _ => None
  }

  function Bases(pages: seq<Page>): (r: seq<nat>)
    ensures |r| == |pages| && forall i | 0 <= i < |pages| :: r[i] == pages[i].pa
  {
    seq(|pages|, i requires 0 <= i < |pages| => pages[i].pa)
  }

  // ---- the pairs each section measures -----------------------------------------

  // Every page against itself.
  function SelfPairs(bases: seq<nat>): (r: seq<Pair>)
    ensures |r| == |bases| && forall i | 0 <= i < |bases| :: r[i] == (bases[i], bases[i])
  {
    seq(|bases|, i requires 0 <= i < |bases| => (bases[i], bases[i]))
  }

  // Every page against each of its masked partners.
  function SweepPairs(bases: seq<nat>, masks: seq<nat>): (r: seq<Pair>)
    ensures |r| == |bases| * |masks|
  {
    if bases == [] then [] else SweepPairs(bases[..|bases| - 1], masks) + SweepOf(bases[|bases| - 1], masks)
  }

  function SweepOf(base: nat, masks: seq<nat>): (r: seq<Pair>)
    ensures |r| == |masks|
  {
    seq(|masks|, k requires 0 <= k < |masks| => (base, base + masks[k]))
  }

  // Every page against every representative but itself.
  function ClassifyPairs(bases: seq<nat>, reps: seq<nat>): seq<Pair> {
    if bases == [] then [] else ClassifyPairs(bases[..|bases| - 1], reps) + ClassifyOf(bases[|bases| - 1], reps)
  }

  function ClassifyOf(base: nat, reps: seq<nat>): seq<Pair> {
    if reps == [] then []
    else
      var n := |reps| - 1;
      ClassifyOf(base, reps[..n]) + if reps[n] == base then [] else [(base, reps[n])]
  }

  // Every lattice offset from the page base, and from the anchor unless that
  // repeats a pair.
  function BankPairs(bases: seq<nat>, lattice: seq<nat>, anchor: nat): seq<Pair> {
    if bases == [] then []
    else BankPairs(bases[..|bases| - 1], lattice, anchor) + BankOf(bases[|bases| - 1], lattice, anchor)
  }

  function BankOf(base: nat, lattice: seq<nat>, anchor: nat): seq<Pair> {
    if lattice == [] then []
    else
      var n := |lattice| - 1;
      BankOf(base, lattice[..n], anchor) + BankAt(base, lattice[n], anchor)
  }

  function BankAt(base: nat, low: nat, anchor: nat): seq<Pair> {
    [(base, base + low)] + if low == 0 || low == anchor then [] else [(base + anchor, base + low)]
  }

  function One(b: bool): nat { if b then 1 else 0 }

  lemma {:induction false} BankOfLength(base: nat, lattice: seq<nat>, anchor: nat)
    requires Distinct(lattice)
    ensures |BankOf(base, lattice, anchor)| == 2 * |lattice| - One(0 in lattice) - One(anchor in lattice && anchor != 0)
  {
    if lattice != [] {
      var n := |lattice| - 1;
      BankOfLength(base, lattice[..n], anchor);
      assert lattice == lattice[..n] + [lattice[n]];
      assert lattice[n] !in lattice[..n];
    }
  }

  lemma {:induction false} BankLength(bases: seq<nat>, lattice: seq<nat>, anchor: nat)
    requires Distinct(lattice)
    ensures |BankPairs(bases, lattice, anchor)|
            == |bases| * (2 * |lattice| - One(0 in lattice) - One(anchor in lattice && anchor != 0))
  {
    if bases != [] {
      var n := |bases| - 1;
      var each := 2 * |lattice| - One(0 in lattice) - One(anchor in lattice && anchor != 0);
      BankLength(bases[..n], lattice, anchor);
      BankOfLength(bases[n], lattice, anchor);
      assert |BankPairs(bases, lattice, anchor)| == |BankPairs(bases[..n], lattice, anchor)| + each;
      TimesOneMore(n, each);
    }
  }

  lemma TimesOneMore(n: nat, k: int)
    ensures (n + 1) * k == n * k + k
  {
  }
}
