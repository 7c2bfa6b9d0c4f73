// The pool of candidate functionals of the solver: seeding over weights 1 to 3,
// beam growth and the greedy pick (tools/g3_probe/solve_mapping.py).

module CandidatePool {
  import opened Bits
  import opened Words
  import opened Masks
  import opened Covers
  import opened Sorting

  // The functional is valid and, when `exact`, its recorded cover is its cover.
  ghost predicate Good(pos: seq<nat>, neg: seq<nat>, exact: bool, c: Candidate) {
    Valid(pos, c.theta) && (exact ==> c.cover == Fires(neg, c.theta))
  }

  ghost predicate AllGood(pos: seq<nat>, neg: seq<nat>, exact: bool, items: seq<Candidate>) {
    forall k | 0 <= k < |items| :: Good(pos, neg, exact, items[k])
  }

  predicate Ascending(columns: seq<nat>) {
    forall a, b | 0 <= a < b < |columns| :: columns[a] < columns[b]
  }

  lemma {:induction false} AscendingFrom(x: nat, base: nat)
    ensures Ascending(BitsFrom(x, base)) && forall j :: j in BitsFrom(x, base) ==> j >= base
  {
    if x != 0 {
      AscendingFrom(x / 2, base + 1);
      var rest := BitsFrom(x / 2, base + 1);
      var all := BitsFrom(x, base);
      assert x % 2 == 1 ==> all == [base] + rest;
      forall a, b | 0 <= a < b < |all| ensures all[a] < all[b] {
        if x % 2 == 1 {
          assert all[b] == rest[b - 1] && rest[b - 1] in rest;
        }
      }
    }
  }

  // Wider first, then by b, then by c.
  predicate Before(wide: nat, b: nat, c: nat, wide': nat, b': nat, c': nat) {
    wide > wide' || (wide == wide' && (b < b' || (b == b' && c < c')))
  }

  // Widest cover first, then weight, then the mask itself.
  predicate ByCover(x: Candidate, y: Candidate) {
    Before(BitCount(x.cover), x.weight, x.theta, BitCount(y.cover), y.weight, y.theta)
  }

  // Widest cover of what remains first.
  predicate ByHit(remaining: nat, x: Candidate, y: Candidate) {
    Before(BitCount(And(x.cover, remaining)), x.weight, x.theta,
              BitCount(And(y.cover, remaining)), y.weight, y.theta)
  }

  function HitOrder(remaining: nat): (Candidate, Candidate) -> bool {
    (x, y) => ByHit(remaining, x, y)
  }

  function Thetas(items: seq<Candidate>): set<nat> {
    if items == [] then {} else Thetas(items[..|items| - 1]) + {items[|items| - 1].theta}
  }

  // The pick combined with c is new and fires on some of what remains.
  predicate Fresh(best: Candidate, c: Candidate, remaining: nat, seen: set<nat>) {
    var theta := Xor(best.theta, c.theta);
    theta != 0 && theta !in seen && And(Xor(best.cover, c.cover), remaining) != 0
  }

  // The XOR of two candidates.
  function Combined(x: Candidate, y: Candidate): Candidate {
    var theta := Xor(x.theta, y.theta);
    Candidate(BitCount(theta), Xor(x.cover, y.cover), theta)
  }

  ghost predicate CombinedWith(best: Candidate, beam: seq<Candidate>, c: Candidate) {
    exists d :: d in beam && c == Combined(best, d)
  }

  function Take(s: seq<Candidate>, n: nat): (r: seq<Candidate>)
    ensures forall c :: c in r ==> c in s
  {
    if |s| <= n then s else s[..n]
  }

  lemma SortedIsGood(pos: seq<nat>, neg: seq<nat>, exact: bool, items: seq<Candidate>,
                     less: (Candidate, Candidate) -> bool, n: nat)
    requires AllGood(pos, neg, exact, items)
    ensures AllGood(pos, neg, exact, Take(SortBy(less, items), n))
  {
    SortKeepsElements(less, items);
    var r := Take(SortBy(less, items), n);
    forall k | 0 <= k < |r| ensures Good(pos, neg, exact, r[k]) {
      assert r[k] in r;
      assert r[k] in items;
    }
  }

  // XOR of two good candidates.
  lemma GrownIsGood(pos: seq<nat>, neg: seq<nat>, exact: bool, x: Candidate, y: Candidate, w: nat)
    requires Good(pos, neg, exact, x) && Good(pos, neg, exact, y)
    ensures Good(pos, neg, exact, Candidate(w, Xor(x.cover, y.cover), Xor(x.theta, y.theta)))
  {
    FiresXor(pos, x.theta, y.theta);
    FiresXor(neg, x.theta, y.theta);
  }

  lemma XorZeroIsSame(x: nat, y: nat)
    requires Xor(x, y) == 0
    ensures x == y
  {
    XorAssoc(x, y, y);
    XorSelf(y);
  }

  // The columns of theta in any order.
  ghost predicate ColumnsOf(theta: nat, js: seq<nat>) {
    Distinct(js) && forall j: nat {:trigger Bit(theta, j)} :: Bit(theta, j) <==> j in js
  }

  lemma ColumnsMake(theta: nat, js: seq<nat>)
    requires ColumnsOf(theta, js)
    ensures OrBits(js) == theta && XorBits(js) == theta
  {
    forall j: nat ensures SameBit(OrBits(js), theta, j) {
      OrBitsAre(js, j);
    }
    SameBits(OrBits(js), theta);
    DistinctOrIsXor(js);
  }

  lemma IterBitsMake(theta: nat)
    ensures ColumnsOf(theta, IterBits(theta)) && Ascending(IterBits(theta)) && |IterBits(theta)| == BitCount(theta)
  {
    AscendingFrom(theta, 0);
    CountBitsFrom(theta, 0);
    forall j: nat ensures Bit(theta, j) <==> j in IterBits(theta) {
      IterBitsAre(theta, j);
    }
  }

  lemma {:induction false} CountBitsFrom(x: nat, base: nat)
    ensures |BitsFrom(x, base)| == BitCount(x)
  {
    if x != 0 {
      CountBitsFrom(x / 2, base + 1);
    }
  }

  // The signatures of a valid functional's columns cancel.
  lemma ColumnsCancel(pos: seq<nat>, theta: nat, js: seq<nat>)
    requires ColumnsOf(theta, js)
    ensures XorCovers(pos, js) == Fires(pos, theta)
  {
    ColumnsMake(theta, js);
    XorCoversAre(pos, js);
  }

  // ---- what the seed holds ------------------------------------------------------

  predicate Has(items: seq<Candidate>, theta: nat) {
    exists k :: 0 <= k < |items| && items[k].theta == theta
  }

  lemma HasMore(items: seq<Candidate>, more: seq<Candidate>, theta: nat)
    requires Has(items, theta) && items <= more
    ensures Has(more, theta)
  {
    var k :| 0 <= k < |items| && items[k].theta == theta;
    assert more[k].theta == theta;
  }

  // A tuple is in the pool unless it fires on no negative.
  ghost predicate Seeded(neg: seq<nat>, items: seq<Candidate>, js: seq<nat>) {
    XorCovers(neg, js) != 0 ==> Has(items, OrBits(js))
  }

  lemma SeededMore(neg: seq<nat>, items: seq<Candidate>, more: seq<Candidate>, js: seq<nat>)
    requires Seeded(neg, items, js) && items <= more
    ensures Seeded(neg, more, js)
  {
    if XorCovers(neg, js) != 0 {
      HasMore(items, more, OrBits(js));
    }
  }

  // Column j vanishes on every positive and may stand alone.
  predicate Lone(pos: seq<nat>, nLinear: nat, j: nat) {
    Fires(pos, Pow2(j)) == 0 && (j < nLinear || nLinear == 0)
  }

  ghost predicate SinglesIn(pos: seq<nat>, neg: seq<nat>, columns: seq<nat>, nLinear: nat, items: seq<Candidate>) {
    forall k | 0 <= k < |columns| && Lone(pos, nLinear, columns[k]) :: Seeded(neg, items, [columns[k]])
  }

  function SameSignature(pos: seq<nat>, columns: seq<nat>, sig: nat): (r: seq<nat>)
    ensures forall j :: j in r <==> j in columns && Fires(pos, Pow2(j)) == sig
  {
    if columns == [] then []
    else
      var n := |columns| - 1;
      assert columns == columns[..n] + [columns[n]];
      SameSignature(pos, columns[..n], sig) + if Fires(pos, Pow2(columns[n])) == sig then [columns[n]] else []
  }

  // One column of the signature, with no narrower a cover than the others, is
  // paired with every other one; only a group of more than 65 is cut short.
  ghost predicate GroupIn(pos: seq<nat>, neg: seq<nat>, columns: seq<nat>, sig: nat, items: seq<Candidate>) {
    var group := SameSignature(pos, columns, sig);
    1 < |group| <= 65 ==> exists h :: h in group && HeadOf(neg, group, items, h)
  }

  ghost predicate HeadOf(neg: seq<nat>, group: seq<nat>, items: seq<Candidate>, h: nat) {
    forall m | m in group && m != h ::
      BitCount(Fires(neg, Pow2(m))) <= BitCount(Fires(neg, Pow2(h))) && Seeded(neg, items, [h, m])
  }

  ghost predicate PairsIn(pos: seq<nat>, neg: seq<nat>, columns: seq<nat>, items: seq<Candidate>) {
    forall k {:trigger columns[k]} | 0 <= k < |columns| && Fires(pos, Pow2(columns[k])) != 0 ::
      GroupIn(pos, neg, columns, Fires(pos, Pow2(columns[k])), items)
  }

  // Ascending columns, the first two of different signatures, all three of which
  // cancel.
  predicate Triple(pos: seq<nat>, columns: seq<nat>, js: seq<nat>) {
    && |js| == 3 && js[0] in columns && js[1] in columns && js[2] in columns && js[0] < js[1] < js[2]
    && Fires(pos, Pow2(js[0])) != Fires(pos, Pow2(js[1])) && XorCovers(pos, js) == 0
  }

  // The tuples the pool is seeded with.
  ghost predicate SeedTuple(pos: seq<nat>, columns: seq<nat>, nLinear: nat, js: seq<nat>) {
    || (|js| == 1 && js[0] in columns && Lone(pos, nLinear, js[0]))
    || (|js| == 2 && SeedPair(pos, columns, js[0], js[1]))
    || Triple(pos, columns, js)
  }

  // Two columns of one signature that is not zero.
  predicate SeedPair(pos: seq<nat>, columns: seq<nat>, a: nat, b: nat) {
    && a in columns && b in columns && a != b
    && Fires(pos, Pow2(a)) == Fires(pos, Pow2(b)) != 0
  }

  function Made(neg: seq<nat>, js: seq<nat>): Candidate {
    Candidate(|js|, XorCovers(neg, js), OrBits(js))
  }

  ghost predicate SeedOf(pos: seq<nat>, neg: seq<nat>, columns: seq<nat>, nLinear: nat, c: Candidate) {
    exists js: seq<nat> :: SeedTuple(pos, columns, nLinear, js) && c == Made(neg, js)
  }

  ghost predicate TripleOf(pos: seq<nat>, neg: seq<nat>, columns: seq<nat>, c: Candidate) {
    exists js: seq<nat> :: Triple(pos, columns, js) && c == Made(neg, js)
  }

  ghost predicate TriplesIn(pos: seq<nat>, neg: seq<nat>, columns: seq<nat>, items: seq<Candidate>) {
    forall js | Triple(pos, columns, js) :: Seeded(neg, items, js)
  }

  class Pool {
    const pos: seq<nat>
    const neg: seq<nat>
    var items: seq<Candidate>
    var seen: set<nat>

    constructor (pos: seq<nat>, neg: seq<nat>)
      ensures this.pos == pos && this.neg == neg && items == [] && seen == {}
    {
      this.pos, this.neg := pos, neg;
      items, seen := [], {};
    }

    ghost predicate Valid(exact: bool)
      reads this
    {
      AllGood(pos, neg, exact, items)
    }

    // While seeding, everything seen is in the pool, and nothing but seeds.
    ghost predicate Seeding(columns: seq<nat>, nLinear: nat)
      reads this
    {
      && AllGood(pos, neg, true, items)
      && (forall t | t in seen :: Has(items, t))
      && forall c | c in items :: SeedOf(pos, neg, columns, nLinear, c)
    }

    method Add(c: Candidate, ghost exact: bool)
      requires Valid(exact) && Good(pos, neg, exact, c)
      modifies this
      ensures Valid(exact)
      ensures if c.cover != 0 && c.theta !in old(seen)
              then items == old(items) + [c] && seen == old(seen) + {c.theta}
              else items == old(items) && seen == old(seen)
    {
      if c.cover != 0 && c.theta !in seen {
        items := items + [c];
        seen := seen + {c.theta};
      }
    }

    // A candidate made of different columns whose signatures cancel.
    method AddTuple(js: seq<nat>, ghost columns: seq<nat>, ghost nLinear: nat)
      requires Seeding(columns, nLinear) && SeedTuple(pos, columns, nLinear, js)
      requires Distinct(js) && XorCovers(pos, js) == 0
      modifies this
      ensures Seeding(columns, nLinear) && old(items) <= items && Seeded(neg, items, js)
    {
      TupleIsExact(pos, neg, js);
      var c := Candidate(|js|, XorCovers(neg, js), OrBits(js));
      assert c == Made(neg, js);
      AddSeed(c, columns, nLinear);
    }

    method AddSeed(c: Candidate, ghost columns: seq<nat>, ghost nLinear: nat)
      requires Seeding(columns, nLinear) && Good(pos, neg, true, c) && SeedOf(pos, neg, columns, nLinear, c)
      modifies this
      ensures Seeding(columns, nLinear) && old(items) <= items && (c.cover != 0 ==> Has(items, c.theta))
    {
      ghost var was := items;
      Add(c, true);
      assert forall d | d in items :: d in was || d == c;
      forall t | t in seen ensures Has(items, t) {
        if t in old(seen) {
          HasMore(was, items, t);
        } else {
          assert items[|was|].theta == t;
        }
      }
    }

    // Weight 1: the columns that vanish on every positive; only linear ones when
    // the family has a linear core.
    method SeedSingles(columns: seq<nat>, nLinear: nat)
      requires Seeding(columns, nLinear)
      modifies this
      ensures Seeding(columns, nLinear) && old(items) <= items
      ensures SinglesIn(pos, neg, columns, nLinear, items)
    {
      for i := 0 to |columns|
        invariant Seeding(columns, nLinear) && old(items) <= items
        invariant forall k | 0 <= k < i && Lone(pos, nLinear, columns[k]) :: Seeded(neg, items, [columns[k]])
      {
        var signature := Colmask(pos, columns[i]);
        ghost var was := items;
        if signature == 0 && (columns[i] < nLinear || nLinear == 0) {
          XorOfOne(pos, columns[i]);
          AddTuple([columns[i]], columns, nLinear);
        }
        forall k | 0 <= k < i && Lone(pos, nLinear, columns[k]) ensures Seeded(neg, items, [columns[k]]) {
          SeededMore(neg, was, items, [columns[k]]);
        }
      }
    }

    // Weight 2: the widest column of each signature with up to 64 others.
    method SeedPairs(columns: seq<nat>, ghost nLinear: nat)
      requires Seeding(columns, nLinear) && Ascending(columns)
      modifies this
      ensures Seeding(columns, nLinear) && old(items) <= items
      ensures PairsIn(pos, neg, columns, items)
    {
      var signatures := Signatures(pos, columns);
      for i := 0 to |signatures|
        invariant Seeding(columns, nLinear) && old(items) <= items
        invariant forall k | 0 <= k < i && signatures[k] != 0 :: GroupIn(pos, neg, columns, signatures[k], items)
      {
        ghost var was := items;
        if signatures[i] != 0 {
          SeedGroup(columns, signatures[i], nLinear);
        }
        forall k | 0 <= k < i && signatures[k] != 0 ensures GroupIn(pos, neg, columns, signatures[k], items) {
          GroupStays(pos, neg, columns, signatures[k], was, items);
        }
      }
      forall k | 0 <= k < |columns| && Fires(pos, Pow2(columns[k])) != 0
        ensures GroupIn(pos, neg, columns, Fires(pos, Pow2(columns[k])), items)
      {
        assert Fires(pos, Pow2(columns[k])) in signatures;
      }
    }

    method SeedGroup(columns: seq<nat>, sig: nat, ghost nLinear: nat)
      requires sig != 0 && Seeding(columns, nLinear) && Ascending(columns)
      modifies this
      ensures Seeding(columns, nLinear) && old(items) <= items
      ensures GroupIn(pos, neg, columns, sig, items)
    {
      var js := Group(pos, neg, columns, sig);
      if js != [] {
        assert forall k | 0 <= k < |js| :: js[k] in js;
        PairUp(js, sig, columns, nLinear);
        if |js| <= 65 {
          HeadIsFirst(neg, SameSignature(pos, columns, sig), js, items);
        }
      }
    }

    method PairUp(js: seq<nat>, sig: nat, ghost columns: seq<nat>, ghost nLinear: nat)
      requires Seeding(columns, nLinear) && js != [] && Distinct(js) && sig != 0
      requires forall k | 0 <= k < |js| :: js[k] in columns && Fires(pos, Pow2(js[k])) == sig
      modifies this
      ensures Seeding(columns, nLinear) && old(items) <= items
      ensures forall x | 1 <= x < |js| && x < 65 :: Seeded(neg, items, [js[0], js[x]])
    {
      var k := 1;
      while k < |js| && k < 65
        invariant 1 <= k <= |js| && Seeding(columns, nLinear) && old(items) <= items
        invariant forall x | 1 <= x < k :: Seeded(neg, items, [js[0], js[x]])
      {
        XorOfTwo(pos, js[0], js[k]);
        XorSelf(sig);
        ghost var was := items;
        AddTuple([js[0], js[k]], columns, nLinear);
        forall x | 1 <= x < k ensures Seeded(neg, items, [js[0], js[x]]) {
          SeededMore(neg, was, items, [js[0], js[x]]);
        }
        k := k + 1;
      }
    }

    // Weight 3: the widest 512 triples.
    method SeedTriples(columns: seq<nat>, ghost nLinear: nat) returns (ghost triples: seq<Candidate>)
      requires Seeding(columns, nLinear) && Ascending(columns)
      modifies this
      ensures Seeding(columns, nLinear) && old(items) <= items
      ensures TriplesIn(pos, neg, columns, triples) && AllWanted(pos, neg, columns, triples)
      ensures forall c | c in Take(SortBy(ByCoverThenTheta, triples), 512) :: Has(items, c.theta)
    {
      var all := Triples(pos, neg, columns);
      triples := all;
      SortKeepsElements(ByCoverThenTheta, all);
      AddAllSeeds(Take(SortBy(ByCoverThenTheta, all), 512), all, columns, nLinear);
    }

    method AddAllSeeds(best: seq<Candidate>, ghost all: seq<Candidate>, ghost columns: seq<nat>, ghost nLinear: nat)
      requires Seeding(columns, nLinear) && AllWanted(pos, neg, columns, all) && forall c | c in best :: c in all
      modifies this
      ensures Seeding(columns, nLinear) && old(items) <= items && forall c | c in best :: Has(items, c.theta)
    {
      for k := 0 to |best|
        invariant Seeding(columns, nLinear) && old(items) <= items
        invariant forall x | 0 <= x < k :: Has(items, best[x].theta)
      {
        ghost var was := items;
        assert best[k] in best;
        TripleIsSeed(pos, neg, columns, nLinear, best[k]);
        AddSeed(best[k], columns, nLinear);
        forall x | 0 <= x < k ensures Has(items, best[x].theta) {
          HasMore(was, items, best[x].theta);
        }
      }
    }

    // All candidates of weight 1 to 3, the triples cut at 512, the pool at 256.
    method Seed(columns: seq<nat>, nLinear: nat) returns (ghost all: seq<Candidate>, ghost triples: seq<Candidate>)
      requires items == [] && seen == {} && Ascending(columns)
      modifies this
      ensures Valid(true) && items == Take(SortBy(ByCover, all), 256)
      ensures SinglesIn(pos, neg, columns, nLinear, all) && PairsIn(pos, neg, columns, all)
      ensures forall c | c in all :: SeedOf(pos, neg, columns, nLinear, c)
      ensures TriplesIn(pos, neg, columns, triples) && AllWanted(pos, neg, columns, triples)
      ensures forall c | c in Take(SortBy(ByCoverThenTheta, triples), 512) :: Has(all, c.theta)
    {
      SeedSingles(columns, nLinear);
      ghost var singles := items;
      SeedPairs(columns, nLinear);
      ghost var pairs := items;
      triples := SeedTriples(columns, nLinear);
      all := items;
      forall k | 0 <= k < |columns| && Lone(pos, nLinear, columns[k]) ensures Seeded(neg, all, [columns[k]]) {
        SeededMore(neg, singles, all, [columns[k]]);
      }
      forall k | 0 <= k < |columns| && Fires(pos, Pow2(columns[k])) != 0
        ensures GroupIn(pos, neg, columns, Fires(pos, Pow2(columns[k])), all)
      {
        GroupStays(pos, neg, columns, Fires(pos, Pow2(columns[k])), pairs, all);
      }
      SortedIsGood(pos, neg, true, items, ByCover, 256);
      items := Take(SortBy(ByCover, items), 256);
    }

    // The pick combined with one member of the pool.
    method Combine(best: Candidate, c: Candidate, remaining: nat, news: seq<Candidate>, ghost exact: bool)
      returns (more: seq<Candidate>)
      requires Good(pos, neg, exact, best) && Good(pos, neg, exact, c) && AllGood(pos, neg, exact, news)
      modifies this`seen
      ensures AllGood(pos, neg, exact, more) && news <= more
      ensures if Fresh(best, c, remaining, old(seen))
              then seen == old(seen) + {Xor(best.theta, c.theta)} && more == news + [Combined(best, c)]
              else seen == old(seen) && more == news
    {
      more := news;
      var theta := Xor(best.theta, c.theta);
      if theta != 0 && theta !in seen {
        var cover := Xor(best.cover, c.cover);
        if And(cover, remaining) != 0 {
          GrownIsGood(pos, neg, exact, best, c, BitCount(theta));
          more := news + [Candidate(BitCount(theta), cover, theta)];
          seen := seen + {theta};
        }
      }
    }

    // The pick combined with the members of the beam.
    method CombineAll(best: Candidate, beam: seq<Candidate>, remaining: nat, ghost exact: bool)
      returns (news: seq<Candidate>)
      requires Good(pos, neg, exact, best) && AllGood(pos, neg, exact, beam)
      modifies this`seen
      ensures AllGood(pos, neg, exact, news) && seen == old(seen) + Thetas(news)
      ensures forall c | c in news :: CombinedWith(best, beam, c)
      ensures forall c | c in beam && Fresh(best, c, remaining, old(seen)) :: Xor(best.theta, c.theta) in seen
    {
      news := [];
      for k := 0 to |beam|
        invariant AllGood(pos, neg, exact, news) && seen == old(seen) + Thetas(news)
        invariant forall c | c in news :: CombinedWith(best, beam, c)
        invariant forall x | 0 <= x < k && Fresh(best, beam[x], remaining, old(seen)) ::
                  Xor(best.theta, beam[x].theta) in seen
      {
        ghost var was := news;
        news := Combine(best, beam[k], remaining, news, exact);
        assert |news| > |was| ==> news[..|was|] == was;
        assert CombinedWith(best, beam, Combined(best, beam[k]));
      }
    }

    // Beam growth with the first 32 members of the pool.
    method Grow(best: Candidate, remaining: nat, ghost exact: bool) returns (ghost grown: seq<Candidate>)
      requires Valid(exact) && Good(pos, neg, exact, best)
      modifies this
      ensures Valid(exact) && items == Take(SortBy(HitOrder(remaining), old(items) + grown), 256)
      ensures forall c | c in Take(old(items), 32) && Fresh(best, c, remaining, old(seen)) ::
              Xor(best.theta, c.theta) in seen
      ensures seen == old(seen) + Thetas(grown) && forall c | c in grown :: CombinedWith(best, Take(old(items), 32), c)
    {
      var beam := Take(items, 32);
      var news := CombineAll(best, beam, remaining, exact);
      grown := news;
      items := items + news;
      Resort(remaining, exact, 256);
    }

    method Resort(remaining: nat, ghost exact: bool, size: nat)
      requires Valid(exact)
      modifies this`items
      ensures Valid(exact)
      ensures items == Take(SortBy(HitOrder(remaining), old(items)), size)
    {
      SortedIsGood(pos, neg, exact, items, HitOrder(remaining), size);
      items := Take(SortBy(HitOrder(remaining), items), size);
    }

    // The member that fires on most of what remains, if that is enough; among
    // equals the lightest, then the smallest mask.
    method PickBest(remaining: nat, minCover: nat) returns (found: bool, best: Candidate)
      ensures found <==> exists c :: c in items && BitCount(And(c.cover, remaining)) >= minCover
      ensures found ==> best in items && BitCount(And(best.cover, remaining)) >= minCover
      ensures found ==> forall c | c in items :: !ByHit(remaining, c, best)
    {
      found, best := false, Candidate(0, 0, 0);
      for k := 0 to |items|
        invariant found <==> exists c :: c in items[..k] && BitCount(And(c.cover, remaining)) >= minCover
        invariant found ==> best in items[..k] && BitCount(And(best.cover, remaining)) >= minCover
        invariant found ==> forall c | c in items[..k] :: !ByHit(remaining, c, best)
      {
        assert items[..k + 1] == items[..k] + [items[k]];
        if BitCount(And(items[k].cover, remaining)) >= minCover {
          if !found || ByHit(remaining, items[k], best) {
            found, best := true, items[k];
          }
        }
      }
      assert items[..|items|] == items;
    }
  }

  // Triples of columns that fire on some negative.
  ghost predicate AllWanted(pos: seq<nat>, neg: seq<nat>, columns: seq<nat>, items: seq<Candidate>) {
    forall k | 0 <= k < |items| ::
      Good(pos, neg, true, items[k]) && items[k].cover != 0 && TripleOf(pos, neg, columns, items[k])
  }

  lemma TripleIsSeed(pos: seq<nat>, neg: seq<nat>, columns: seq<nat>, nLinear: nat, c: Candidate)
    requires TripleOf(pos, neg, columns, c)
    ensures SeedOf(pos, neg, columns, nLinear, c)
  {
    var js: seq<nat> :| Triple(pos, columns, js) && c == Made(neg, js);
    assert SeedTuple(pos, columns, nLinear, js);
  }

  ghost predicate TripleDone(pos: seq<nat>, neg: seq<nat>, columns: seq<nat>, items: seq<Candidate>, u: nat, v: nat,
                             w: nat)
    requires u < v < w < |columns|
  {
    var js := [columns[u], columns[v], columns[w]];
    Triple(pos, columns, js) ==> Seeded(neg, items, js)
  }

  // A pair of columns of different signatures and every later column whose
  // signature completes theirs.
  method Triples(pos: seq<nat>, neg: seq<nat>, columns: seq<nat>) returns (triples: seq<Candidate>)
    requires Ascending(columns)
    ensures AllWanted(pos, neg, columns, triples) && TriplesIn(pos, neg, columns, triples)
  {
    triples := [];
    for i1 := 0 to |columns|
      invariant AllWanted(pos, neg, columns, triples)
      invariant forall u, v, w | 0 <= u < i1 && u < v < w < |columns| :: TripleDone(pos, neg, columns, triples, u, v, w)
    {
      ghost var before := triples;
      for i2 := i1 + 1 to |columns|
        invariant AllWanted(pos, neg, columns, triples) && before <= triples
        invariant forall v, w | i1 < v < i2 && v < w < |columns| :: TripleDone(pos, neg, columns, triples, i1, v, w)
      {
        ghost var was := triples;
        triples := CompleteTriples(pos, neg, columns, i1, i2, triples);
        forall v, w | i1 < v < i2 && v < w < |columns| ensures TripleDone(pos, neg, columns, triples, i1, v, w) {
          TripleStays(pos, neg, columns, was, triples, i1, v, w);
        }
      }
      forall u, v, w | 0 <= u < i1 && u < v < w < |columns| ensures TripleDone(pos, neg, columns, triples, u, v, w) {
        TripleStays(pos, neg, columns, before, triples, u, v, w);
      }
    }
    TriplesAreIn(pos, neg, columns, triples);
  }

  method CompleteTriples(pos: seq<nat>, neg: seq<nat>, columns: seq<nat>, i1: nat, i2: nat, triples: seq<Candidate>)
    returns (r: seq<Candidate>)
    requires AllWanted(pos, neg, columns, triples) && Ascending(columns) && i1 < i2 < |columns|
    ensures AllWanted(pos, neg, columns, r) && triples <= r
    ensures forall w | i2 < w < |columns| :: TripleDone(pos, neg, columns, r, i1, i2, w)
  {
    r := triples;
    var j1, j2 := columns[i1], columns[i2];
    var wanted := Xor(Fires(pos, Pow2(j1)), Fires(pos, Pow2(j2)));
    if wanted == 0 {
      XorZeroIsSame(Fires(pos, Pow2(j1)), Fires(pos, Pow2(j2)));
      return;
    }
    for k := 0 to |columns|
      invariant AllWanted(pos, neg, columns, r) && triples <= r
      invariant forall w | i2 < w < k :: TripleDone(pos, neg, columns, r, i1, i2, w)
    {
      ghost var was := r;
      var j3 := columns[k];
      if Fires(pos, Pow2(j3)) == wanted && j3 > j2 {
        var c := Candidate(3, XorCovers(neg, [j1, j2, j3]), OrBits([j1, j2, j3]));
        CompletedTriple(pos, neg, columns, j1, j2, j3);
        if c.cover != 0 {
          r := r + [c];
          assert r[|was|] == c;
        }
      } else if XorCovers(pos, [j1, j2, j3]) == 0 {
        NoTriple(pos, j1, j2, j3);
      }
      forall w | i2 < w < k ensures TripleDone(pos, neg, columns, r, i1, i2, w) {
        TripleStays(pos, neg, columns, was, r, i1, i2, w);
      }
    }
  }

  lemma CompletedTriple(pos: seq<nat>, neg: seq<nat>, columns: seq<nat>, j1: nat, j2: nat, j3: nat)
    requires j1 < j2 < j3 && j1 in columns && j2 in columns && j3 in columns
    requires Fires(pos, Pow2(j3)) == Xor(Fires(pos, Pow2(j1)), Fires(pos, Pow2(j2))) != 0
    ensures var c := Candidate(3, XorCovers(neg, [j1, j2, j3]), OrBits([j1, j2, j3]));
            Good(pos, neg, true, c) && TripleOf(pos, neg, columns, c)
  {
    XorOfThree(pos, j1, j2, j3);
    XorSelf(Fires(pos, Pow2(j3)));
    XorSelf(Fires(pos, Pow2(j1)));
    TupleIsExact(pos, neg, [j1, j2, j3]);
    assert Triple(pos, columns, [j1, j2, j3]);
    assert Candidate(3, XorCovers(neg, [j1, j2, j3]), OrBits([j1, j2, j3])) == Made(neg, [j1, j2, j3]);
  }

  lemma NoTriple(pos: seq<nat>, j1: nat, j2: nat, j3: nat)
    requires XorCovers(pos, [j1, j2, j3]) == 0
    ensures Fires(pos, Pow2(j3)) == Xor(Fires(pos, Pow2(j1)), Fires(pos, Pow2(j2)))
  {
    XorOfThree(pos, j1, j2, j3);
    XorZeroIsSame(Xor(Fires(pos, Pow2(j1)), Fires(pos, Pow2(j2))), Fires(pos, Pow2(j3)));
  }

  lemma TripleStays(pos: seq<nat>, neg: seq<nat>, columns: seq<nat>, items: seq<Candidate>, more: seq<Candidate>,
                    u: nat, v: nat, w: nat)
    requires u < v < w < |columns| && TripleDone(pos, neg, columns, items, u, v, w) && items <= more
    ensures TripleDone(pos, neg, columns, more, u, v, w)
  {
    var js := [columns[u], columns[v], columns[w]];
    if Triple(pos, columns, js) {
      SeededMore(neg, items, more, js);
    }
  }

  // A valid functional of three columns that fires on some negative is among the
  // triples exactly when its largest column does not vanish on every positive.
  lemma ValidTriplesAreIn(pos: seq<nat>, neg: seq<nat>, columns: seq<nat>, triples: seq<Candidate>, theta: nat)
    requires TriplesIn(pos, neg, columns, triples) && AllWanted(pos, neg, columns, triples)
    requires forall j: nat {:trigger Bit(theta, j)} :: Bit(theta, j) ==> j in columns
    requires BitCount(theta) == 3 && Valid(pos, theta) && Fires(neg, theta) != 0
    ensures |IterBits(theta)| == 3
    ensures Has(triples, theta) <==> Fires(pos, Pow2(IterBits(theta)[2])) != 0
  {
    IterBitsMake(theta);
    if Fires(pos, Pow2(IterBits(theta)[2])) != 0 {
      LastColumnGivesTriple(pos, neg, columns, theta);
      assert Seeded(neg, triples, IterBits(theta));
    }
    if Has(triples, theta) {
      var k :| 0 <= k < |triples| && triples[k].theta == theta;
      var js: seq<nat> :| Triple(pos, columns, js) && triples[k] == Made(neg, js);
      LastSignature(pos, js);
      SameLast(theta, js);
    }
  }

  lemma LastColumnGivesTriple(pos: seq<nat>, neg: seq<nat>, columns: seq<nat>, theta: nat)
    requires forall j: nat {:trigger Bit(theta, j)} :: Bit(theta, j) ==> j in columns
    requires BitCount(theta) == 3 && Valid(pos, theta) && |IterBits(theta)| == 3
    requires Fires(pos, Pow2(IterBits(theta)[2])) != 0
    ensures Triple(pos, columns, IterBits(theta)) && OrBits(IterBits(theta)) == theta
    ensures XorCovers(neg, IterBits(theta)) == Fires(neg, theta)
  {
    var js := IterBits(theta);
    IterBitsMake(theta);
    ColumnsMake(theta, js);
    TupleIsExact(pos, neg, js);
    LastSignature(pos, js);
    forall k | 0 <= k < 3 ensures js[k] in columns {
      IterBitsAre(theta, js[k]);
    }
  }

  // Ascending columns of one functional end with the same column.
  lemma SameLast(theta: nat, js: seq<nat>)
    requires |js| == 3 && js[0] < js[1] < js[2] && OrBits(js) == theta && |IterBits(theta)| == 3
    ensures IterBits(theta)[2] == js[2]
  {
    var all := IterBits(theta);
    IterBitsMake(theta);
    OrBitsAre(js, js[2]);
    OrBitsAre(js, all[2]);
    assert js[2] in js && all[2] in all;
  }

  // Of three signatures that cancel, the last vanishes exactly when the first
  // two are equal.
  lemma LastSignature(pos: seq<nat>, js: seq<nat>)
    requires |js| == 3 && XorCovers(pos, js) == 0
    ensures Fires(pos, Pow2(js[2])) != 0 <==> Fires(pos, Pow2(js[0])) != Fires(pos, Pow2(js[1]))
  {
    var x, y, z := Fires(pos, Pow2(js[0])), Fires(pos, Pow2(js[1])), Fires(pos, Pow2(js[2]));
    assert js == [js[0], js[1], js[2]];
    XorOfThree(pos, js[0], js[1], js[2]);
    XorZeroIsSame(Xor(x, y), z);
    XorSelf(x);
    if z == 0 {
      XorZeroIsSame(x, y);
    }
  }

  lemma TriplesAreIn(pos: seq<nat>, neg: seq<nat>, columns: seq<nat>, items: seq<Candidate>)
    requires Ascending(columns)
    requires forall u, v, w | 0 <= u < |columns| && u < v < w < |columns| ::
             TripleDone(pos, neg, columns, items, u, v, w)
    ensures TriplesIn(pos, neg, columns, items)
  {
    forall js | Triple(pos, columns, js) ensures Seeded(neg, items, js) {
      var u :| 0 <= u < |columns| && columns[u] == js[0];
      var v :| 0 <= v < |columns| && columns[v] == js[1];
      var w :| 0 <= w < |columns| && columns[w] == js[2];
      assert js == [columns[u], columns[v], columns[w]];
      assert TripleDone(pos, neg, columns, items, u, v, w);
    }
  }

  lemma GroupStays(pos: seq<nat>, neg: seq<nat>, columns: seq<nat>, sig: nat, items: seq<Candidate>,
                   more: seq<Candidate>)
    requires GroupIn(pos, neg, columns, sig, items) && items <= more
    ensures GroupIn(pos, neg, columns, sig, more)
  {
    var group := SameSignature(pos, columns, sig);
    if 1 < |group| <= 65 {
      var h :| h in group && HeadOf(neg, group, items, h);
      forall m | m in group && m != h ensures Seeded(neg, more, [h, m]) {
        SeededMore(neg, items, more, [h, m]);
      }
      assert HeadOf(neg, group, more, h);
    }
  }

  predicate ByCoverThenTheta(x: Candidate, y: Candidate) {
    Before(BitCount(x.cover), x.theta, 0, BitCount(y.cover), y.theta, 0)
  }

  lemma XorOfMore(phis: seq<nat>, js: seq<nat>, j: nat)
    ensures XorCovers(phis, js + [j]) == Xor(XorCovers(phis, js), Fires(phis, Pow2(j)))
  {
    assert (js + [j])[..|js|] == js;
  }

  lemma XorOfOne(phis: seq<nat>, a: nat)
    ensures XorCovers(phis, [a]) == Fires(phis, Pow2(a))
  {
    assert [a][..0] == [];
  }

  lemma XorOfTwo(phis: seq<nat>, a: nat, b: nat)
    ensures XorCovers(phis, [a, b]) == Xor(Fires(phis, Pow2(a)), Fires(phis, Pow2(b)))
  {
    assert [a, b][..1] == [a];
    XorOfOne(phis, a);
  }

  lemma XorOfThree(phis: seq<nat>, a: nat, b: nat, c: nat)
    ensures XorCovers(phis, [a, b, c]) == Xor(Xor(Fires(phis, Pow2(a)), Fires(phis, Pow2(b))), Fires(phis, Pow2(c)))
  {
    XorOfTwo(phis, a, b);
    XorOfMore(phis, [a, b], c);
    assert [a, b] + [c] == [a, b, c];
  }

  lemma HeadIsFirst(neg: seq<nat>, group: seq<nat>, js: seq<nat>, items: seq<Candidate>)
    requires js != [] && |js| <= 65 && forall j :: j in group ==> j in js
    requires forall k | 0 <= k < |js| :: BitCount(Fires(neg, Pow2(js[k]))) <= BitCount(Fires(neg, Pow2(js[0])))
    requires forall x | 1 <= x < |js| && x < 65 :: Seeded(neg, items, [js[0], js[x]])
    ensures HeadOf(neg, group, items, js[0])
  {
    forall m | m in group && m != js[0]
      ensures BitCount(Fires(neg, Pow2(m))) <= BitCount(Fires(neg, Pow2(js[0]))) && Seeded(neg, items, [js[0], m])
    {
      var x :| 0 <= x < |js| && js[x] == m;
    }
  }

  function WiderColumn(neg: seq<nat>): (nat, nat) -> bool {
    (a: nat, b: nat) => BitCount(Fires(neg, Pow2(a))) > BitCount(Fires(neg, Pow2(b)))
  }

  // The columns of a signature, widest cover first.
  method Group(pos: seq<nat>, neg: seq<nat>, columns: seq<nat>, sig: nat) returns (js: seq<nat>)
    requires Ascending(columns)
    ensures forall j :: j in js <==> j in SameSignature(pos, columns, sig)
    ensures |js| == |SameSignature(pos, columns, sig)| && Distinct(js)
    ensures forall k | 0 <= k < |js| :: Fires(pos, Pow2(js[k])) == sig
    ensures forall k | 0 <= k < |js| :: BitCount(Fires(neg, Pow2(js[k]))) <= BitCount(Fires(neg, Pow2(js[0])))
  {
    var group := Members(pos, columns, sig);
    js := SortBy(WiderColumn(neg), group);
    SameMultisetDistinct(group, js);
    SortKeepsElements(WiderColumn(neg), group);
    forall k | 0 <= k < |js| ensures Fires(pos, Pow2(js[k])) == sig {
      assert js[k] in js;
    }
    WidestIsFirst(neg, group);
  }

  lemma WidestIsFirst(neg: seq<nat>, group: seq<nat>)
    ensures var js := SortBy(WiderColumn(neg), group);
            forall k | 0 <= k < |js| :: BitCount(Fires(neg, Pow2(js[k]))) <= BitCount(Fires(neg, Pow2(js[0])))
  {
    assert StrictWeakOrder(WiderColumn(neg));
    SortIsSorted(WiderColumn(neg), group);
    var js := SortBy(WiderColumn(neg), group);
    forall k | 0 <= k < |js| ensures BitCount(Fires(neg, Pow2(js[k]))) <= BitCount(Fires(neg, Pow2(js[0]))) {
      assert k > 0 ==> !WiderColumn(neg)(js[k], js[0]);
    }
  }

  method Members(pos: seq<nat>, columns: seq<nat>, sig: nat) returns (group: seq<nat>)
    requires Ascending(columns)
    ensures group == SameSignature(pos, columns, sig) && Distinct(group)
  {
    group := [];
    for i := 0 to |columns|
      invariant group == SameSignature(pos, columns[..i], sig) && Distinct(group)
    {
      assert columns[..i + 1][..i] == columns[..i];
      var mask := Colmask(pos, columns[i]);
      if mask == sig {
        assert columns[i] !in columns[..i];
        group := group + [columns[i]];
      }
    }
    assert columns[..|columns|] == columns;
  }

  // The different signatures of the columns in ascending order.
  method Signatures(pos: seq<nat>, columns: seq<nat>) returns (r: seq<nat>)
    ensures forall s :: s in r <==> exists k :: 0 <= k < |columns| && Fires(pos, Pow2(columns[k])) == s
  {
    r := [];
    for i := 0 to |columns|
      invariant forall s :: s in r <==> exists k :: 0 <= k < i && Fires(pos, Pow2(columns[k])) == s
    {
      var sig := Colmask(pos, columns[i]);
      if sig !in r {
        r := r + [sig];
      }
    }
    SortKeepsElements((a, b) => a < b, r);
    r := SortBy((a, b) => a < b, r);
  }
}
