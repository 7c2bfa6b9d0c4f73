// The monomial features of an address (tools/g3_probe/solve_mapping.py).
module Features {
  import opened Bits
  import opened Words
  import opened Masks

  // Degree-at-most-2 monomials over the address bits 0..nBits-1: the linear
  // terms first, then one index for every pair of bits.
  class Features {
    const nBits: nat
    const degree: nat
    var quadIndex: map<(nat, nat), nat>
    var size: nat

    ghost predicate Valid()
      reads this
    {
      && size >= nBits
      && (forall p | p in quadIndex :: p.0 < p.1 < nBits && nBits <= quadIndex[p] < size)
      && (forall p, q | p in quadIndex && q in quadIndex && quadIndex[p] == quadIndex[q] :: p == q)
      && (forall i: nat, k: nat | degree == 2 && i < k < nBits :: (i, k) in quadIndex)
      && (degree != 2 ==> quadIndex == map[])
    }

    constructor (nBits: nat, degree: nat)
      requires degree == 1 || degree == 2
      ensures Valid() && this.nBits == nBits && this.degree == degree
    {
      this.nBits, this.degree := nBits, degree;
      quadIndex, size := map[], nBits;
      new;
      if degree == 2 {
        IndexPairs();
      }
    }

    method IndexPairs()
      requires degree == 2 && quadIndex == map[] && size == nBits
      modifies this
      ensures Valid()
    {
      for i := 0 to nBits
        invariant size >= nBits && PairsBelow(quadIndex, nBits, size, i, i + 1)
      {
        for k := i + 1 to nBits
          invariant size >= nBits && PairsBelow(quadIndex, nBits, size, i, k)
        {
          OnePairMore(quadIndex, nBits, size, i, k);
          quadIndex := quadIndex[(i, k) := size];
          size := size + 1;
        }
        NextRow(quadIndex, nBits, size, i);
      }
      AllPairs(quadIndex, nBits, size);
    }

    // Each linear term is its bit, each quadratic term the product of its bits,
    // and there is nothing else.
    ghost predicate IsMu(pa: nat, out: nat)
      reads this
    {
      && (forall i: nat | i < nBits :: Bit(out, i) <==> Bit(pa, i))
      && (forall p | p in quadIndex :: Bit(out, quadIndex[p]) <==> Bit(pa, p.0) && Bit(pa, p.1))
      && (forall j: nat | j >= nBits && j !in quadIndex.Values :: !Bit(out, j))
    }

    method Mu(pa: nat) returns (out: nat)
      requires Valid()
      ensures IsMu(pa, out)
    {
      out := 0;
      forall j: nat ensures !Bit(0, j) {
        ZeroHasNoBit(j);
      }
      for i := 0 to nBits
        invariant forall j: nat :: Bit(out, j) <==> j < i && Bit(pa, j)
      {
        if Bit(pa, i) {
          out := SetBit(out, i);
        }
      }
      if degree == 2 {
        ghost var linear := out;
        for i := 0 to nBits
          invariant forall j: nat | j < nBits :: Bit(out, j) <==> Bit(pa, j)
          invariant forall p | p in quadIndex :: Bit(out, quadIndex[p]) <==> p.0 < i && Bit(pa, p.0) && Bit(pa, p.1)
          invariant forall j: nat | j >= nBits && j !in quadIndex.Values :: !Bit(out, j)
        {
          if Bit(pa, i) {
            out := ProductsWith(pa, i, out);
          }
        }
      }
    }

    method ProductsWith(pa: nat, i: nat, before: nat) returns (out: nat)
      requires Valid() && degree == 2 && i < nBits && Bit(pa, i)
      requires forall j: nat | j < nBits :: Bit(before, j) <==> Bit(pa, j)
      requires forall p | p in quadIndex :: Bit(before, quadIndex[p]) <==> p.0 < i && Bit(pa, p.0) && Bit(pa, p.1)
      requires forall j: nat | j >= nBits && j !in quadIndex.Values :: !Bit(before, j)
      ensures forall j: nat | j < nBits :: Bit(out, j) <==> Bit(pa, j)
      ensures forall p | p in quadIndex :: Bit(out, quadIndex[p]) <==> p.0 < i + 1 && Bit(pa, p.0) && Bit(pa, p.1)
      ensures forall j: nat | j >= nBits && j !in quadIndex.Values :: !Bit(out, j)
    {
      out := before;
      for k := i + 1 to nBits
        invariant forall j: nat | j < nBits :: Bit(out, j) <==> Bit(pa, j)
        invariant forall p | p in quadIndex ::
                    Bit(out, quadIndex[p]) <==> (p.0 < i || (p.0 == i && p.1 < k)) && Bit(pa, p.0) && Bit(pa, p.1)
        invariant forall j: nat | j >= nBits && j !in quadIndex.Values :: !Bit(out, j)
      {
        if Bit(pa, k) {
          assert (i, k) in quadIndex && quadIndex[(i, k)] in quadIndex.Values;
          out := SetBit(out, quadIndex[(i, k)]);
        }
      }
    }
  }

  // Exactly the pairs before (i, k) are indexed, with different indexes.
  ghost predicate PairsBelow(index: map<(nat, nat), nat>, n: nat, size: nat, i: nat, k: nat) {
    && (forall p :: p in index <==> p.0 < p.1 < n && (p.0 < i || (p.0 == i && p.1 < k)))
    && (forall p | p in index :: n <= index[p] < size)
    && (forall p, q | p in index && q in index && index[p] == index[q] :: p == q)
  }

  lemma OnePairMore(index: map<(nat, nat), nat>, n: nat, size: nat, i: nat, k: nat)
    requires PairsBelow(index, n, size, i, k) && i < k < n && n <= size
    ensures PairsBelow(index[(i, k) := size], n, size + 1, i, k + 1)
  {
    var more := index[(i, k) := size];
    assert forall p :: p in more <==> p in index || p == (i, k);
  }

  lemma NextRow(index: map<(nat, nat), nat>, n: nat, size: nat, i: nat)
    requires i < n && PairsBelow(index, n, size, i, if i + 1 < n then n else i + 1)
    ensures PairsBelow(index, n, size, i + 1, i + 2)
  {
  }

  lemma AllPairs(index: map<(nat, nat), nat>, n: nat, size: nat)
    requires PairsBelow(index, n, size, n, n + 1)
    ensures forall p | p in index :: p.0 < p.1 < n && n <= index[p] < size
    ensures forall i: nat, k: nat | i < k < n :: (i, k) in index
  {
  }

  method SetBit(x: nat, j: nat) returns (y: nat)
    ensures forall k: nat :: Bit(y, k) <==> Bit(x, k) || k == j
  {
    y := Or(x, Pow2(j));
    forall k: nat ensures Bit(y, k) <==> Bit(x, k) || k == j {
      BitOfOr(x, Pow2(j), k);
      BitOfPow2(j, k);
    }
  }
}
