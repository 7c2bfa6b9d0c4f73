// Stable sorting and filtering, shared by every component that sorts.
//
// The sources call `sorted`, `list.sort` and `std::stable_sort`; all three are
// stable, and `SortBy` is the one stable rearrangement for a given order.
module Sorting {

  // The order a sort may use: a strict weak order.
  ghost predicate StrictWeakOrder<T(!new)>(less: (T, T) -> bool) {
    && (forall x, y :: less(x, y) ==> !less(y, x))
    && (forall x, y, z :: less(x, z) ==> less(x, y) || less(y, z))
  }

  ghost predicate SortedBy<T>(less: (T, T) -> bool, s: seq<T>) {
    forall i, j | 0 <= i < j < |s| :: !less(s[j], s[i])
  }

  function Filter<T(!new)>(p: T -> bool, s: seq<T>): (r: seq<T>)
    ensures forall x :: x in r <==> x in s && p(x)
    ensures |r| <= |s|
  {
    if s == [] then []
    else if p(s[0]) then [s[0]] + Filter(p, s[1..])
    else Filter(p, s[1..])
  }

  function InsertBy<T>(less: (T, T) -> bool, x: T, s: seq<T>): (r: seq<T>)
    ensures multiset(r) == multiset{x} + multiset(s)
  {
    if s == [] || !less(s[0], x) then [x] + s
    else
      assert s == [s[0]] + s[1..];
      [s[0]] + InsertBy(less, x, s[1..])
  }

  function SortBy<T>(less: (T, T) -> bool, s: seq<T>): (r: seq<T>)
    ensures multiset(r) == multiset(s)
  {
    if s == [] then []
    else
      assert s == [s[0]] + s[1..];
      InsertBy(less, s[0], SortBy(less, s[1..]))
  }

  lemma SortKeepsElements<T(!new)>(less: (T, T) -> bool, s: seq<T>)
    ensures |SortBy(less, s)| == |s|
    ensures forall x :: x in SortBy(less, s) <==> x in s
  {
    var r := SortBy(less, s);
    assert |multiset(r)| == |r| && |multiset(s)| == |s|;
    forall x ensures x in r <==> x in s {
      assert x in r <==> x in multiset(r);
      assert x in s <==> x in multiset(s);
    }
  }

  lemma {:induction false} InsertSorted<T(!new)>(less: (T, T) -> bool, x: T, s: seq<T>)
    requires StrictWeakOrder(less) && SortedBy(less, s)
    ensures SortedBy(less, InsertBy(less, x, s))
  {
    if s != [] && less(s[0], x) {
      var t := InsertBy(less, x, s[1..]);
      InsertSorted(less, x, s[1..]);
      forall j | 0 <= j < |t| ensures !less(t[j], s[0]) {
        assert t[j] in multiset(t);
        assert t[j] == x || t[j] in multiset(s[1..]);
        if t[j] != x {
          var k :| 0 <= k < |s[1..]| && s[1..][k] == t[j];
          assert t[j] == s[k + 1];
        }
      }
    }
  }

  lemma {:induction false} SortIsSorted<T(!new)>(less: (T, T) -> bool, s: seq<T>)
    requires StrictWeakOrder(less)
    ensures SortedBy(less, SortBy(less, s))
  {
    if s != [] {
      SortIsSorted(less, s[1..]);
      InsertSorted(less, s[0], SortBy(less, s[1..]));
    }
  }

  lemma {:induction false} FilterAppend<T(!new)>(p: T -> bool, s: seq<T>, t: seq<T>)
    ensures Filter(p, s + t) == Filter(p, s) + Filter(p, t)
  {
    if s == [] {
      assert s + t == t;
    } else {
      assert (s + t)[0] == s[0] && (s + t)[1..] == s[1..] + t;
      FilterAppend(p, s[1..], t);
    }
  }

  // One more element of a prefix.
  lemma FilterStep<T(!new)>(p: T -> bool, s: seq<T>, i: nat)
    requires i < |s|
    ensures Filter(p, s[..i + 1]) == Filter(p, s[..i]) + if p(s[i]) then [s[i]] else []
  {
    assert s[..i + 1] == s[..i] + [s[i]];
    FilterAppend(p, s[..i], [s[i]]);
  }

  lemma {:induction false} InsertStable<T(!new)>(less: (T, T) -> bool, p: T -> bool, x: T, s: seq<T>)
    requires forall y, z | p(y) && p(z) :: !less(y, z)
    ensures Filter(p, InsertBy(less, x, s)) == (if p(x) then [x] else []) + Filter(p, s)
  {
    if s == [] || !less(s[0], x) {
      FilterAppend(p, [x], s);
    } else {
      InsertStable(less, p, x, s[1..]);
      FilterAppend(p, [s[0]], InsertBy(less, x, s[1..]));
    }
  }

  // Stability: elements the order cannot tell apart keep their relative order.
  lemma {:induction false} SortIsStable<T(!new)>(less: (T, T) -> bool, p: T -> bool, s: seq<T>)
    requires forall y, z | p(y) && p(z) :: !less(y, z)
    ensures Filter(p, SortBy(less, s)) == Filter(p, s)
  {
    if s != [] {
      SortIsStable(less, p, s[1..]);
      InsertStable(less, p, s[0], SortBy(less, s[1..]));
    }
  }

  // Elements the order cannot tell from x.
  ghost function Alike<T(!new)>(less: (T, T) -> bool, x: T): T -> bool {
    (y: T) => !less(x, y) && !less(y, x)
  }

  // t keeps the order of elements that cannot be told apart, and all of them.
  ghost predicate KeepsAlike<T(!new)>(less: (T, T) -> bool, s: seq<T>, t: seq<T>) {
    forall x :: Filter(Alike(less, x), t) == Filter(Alike(less, x), s)
  }

  lemma SameEmptiness<T(!new)>(less: (T, T) -> bool, s: seq<T>, t: seq<T>)
    requires StrictWeakOrder(less) && KeepsAlike(less, s, t)
    ensures s == [] <==> t == []
  {
    forall x ensures x in s <==> x in t {
      assert Alike(less, x)(x);
      assert Filter(Alike(less, x), t) == Filter(Alike(less, x), s);
    }
    if s != [] {
      assert s[0] in s;
    }
    if t != [] {
      assert t[0] in t;
    }
  }

  lemma FirstsAgree<T(!new)>(less: (T, T) -> bool, s: seq<T>, t: seq<T>)
    requires StrictWeakOrder(less) && SortedBy(less, s) && SortedBy(less, t) && KeepsAlike(less, s, t)
    requires s != [] && t != []
    ensures s[0] == t[0]
  {
    var x, y := s[0], t[0];
    assert !less(x, x) && !less(y, y);
    assert x in Filter(Alike(less, x), s) && x in Filter(Alike(less, x), t);
    assert y in Filter(Alike(less, y), t) && y in Filter(Alike(less, y), s);
    var i :| 0 <= i < |t| && t[i] == x;
    var j :| 0 <= j < |s| && s[j] == y;
    assert !less(x, y) && !less(y, x);
    assert Filter(Alike(less, x), s)[0] == x && Filter(Alike(less, x), t)[0] == y;
  }

  lemma SortedRest<T(!new)>(less: (T, T) -> bool, s: seq<T>)
    requires SortedBy(less, s) && s != []
    ensures SortedBy(less, s[1..])
  {
  }

  // Two sorted lists that keep the same elements apart are the same.
  lemma {:induction false} SortedAlikeAreEqual<T(!new)>(less: (T, T) -> bool, s: seq<T>, t: seq<T>)
    requires StrictWeakOrder(less) && SortedBy(less, s) && SortedBy(less, t) && KeepsAlike(less, s, t)
    ensures s == t
  {
    SameEmptiness(less, s, t);
    if s != [] {
      FirstsAgree(less, s, t);
      forall x ensures Filter(Alike(less, x), t[1..]) == Filter(Alike(less, x), s[1..]) {
        var p := Alike(less, x);
        assert Filter(p, t) == Filter(p, s);
        assert p(s[0]) ==> Filter(p, s)[1..] == Filter(p, s[1..]) && Filter(p, t)[1..] == Filter(p, t[1..]);
      }
      SortedRest(less, s);
      SortedRest(less, t);
      SortedAlikeAreEqual(less, s[1..], t[1..]);
    }
  }

  // So any stable sort gives what SortBy gives.
  lemma StableSortIsUnique<T(!new)>(less: (T, T) -> bool, s: seq<T>, t: seq<T>)
    requires StrictWeakOrder(less) && SortedBy(less, t) && KeepsAlike(less, s, t)
    ensures t == SortBy(less, s)
  {
    SortIsSorted(less, s);
    forall x ensures Filter(Alike(less, x), t) == Filter(Alike(less, x), SortBy(less, s)) {
      AlikeAreTied(less, x);
      SortIsStable(less, Alike(less, x), s);
      assert Filter(Alike(less, x), t) == Filter(Alike(less, x), s);
    }
    SortedAlikeAreEqual(less, SortBy(less, s), t);
  }

  lemma AlikeAreTied<T(!new)>(less: (T, T) -> bool, x: T)
    requires StrictWeakOrder(less)
    ensures forall y, z | Alike(less, x)(y) && Alike(less, x)(z) :: !less(y, z)
  {
  }

  // ---- different elements ----------------------------------------------------

  predicate Distinct<T(==)>(s: seq<T>) {
    forall a, b | 0 <= a < b < |s| :: s[a] != s[b]
  }

  // The different elements in the order they first occur.
  function Firsts<T(==)>(s: seq<T>): seq<T> {
    if s == [] then []
    else
      var n := |s| - 1;
      Firsts(s[..n]) + if s[n] in s[..n] then [] else [s[n]]
  }

  lemma {:induction false} FirstsAre<T>(s: seq<T>)
    ensures Distinct(Firsts(s)) && forall x :: x in Firsts(s) <==> x in s
  {
    if s != [] {
      var n := |s| - 1;
      FirstsAre(s[..n]);
      assert s == s[..n] + [s[n]];
    }
  }

  lemma DistinctAsMultiset<T>(s: seq<T>)
    ensures Distinct(s) <==> forall x | x in s :: multiset(s)[x] <= 1
  {
    if !Distinct(s) {
      var a, b :| 0 <= a < b < |s| && s[a] == s[b];
      assert s == s[..b] + [s[b]] + s[b + 1..];
      assert s[a] in s[..b];
      assert multiset(s)[s[a]] >= 2;
    } else {
      forall x | x in s ensures multiset(s)[x] <= 1 {
        AtMostOnce(s, x);
      }
    }
  }

  lemma {:induction false} AtMostOnce<T>(s: seq<T>, x: T)
    requires Distinct(s)
    ensures multiset(s)[x] <= 1
  {
    if s != [] {
      var n := |s| - 1;
      AtMostOnce(s[..n], x);
      assert s == s[..n] + [s[n]];
      assert s[n] !in s[..n];
    }
  }

  // A rearrangement of different elements has different elements.
  lemma SameMultisetDistinct<T>(s: seq<T>, t: seq<T>)
    requires multiset(s) == multiset(t) && Distinct(s)
    ensures Distinct(t)
  {
    DistinctAsMultiset(s);
    DistinctAsMultiset(t);
    forall x | x in t ensures multiset(t)[x] <= 1 {
      AtMostOnce(s, x);
    }
  }

  // ---- sums ------------------------------------------------------------------

  function Sum<T>(f: T -> int, s: seq<T>): int {
    if s == [] then 0 else f(s[0]) + Sum(f, s[1..])
  }

  lemma {:induction false} SumAppend<T>(f: T -> int, s: seq<T>, t: seq<T>)
    ensures Sum(f, s + t) == Sum(f, s) + Sum(f, t)
  {
    if s == [] {
      assert s + t == t;
    } else {
      assert (s + t)[0] == s[0] && (s + t)[1..] == s[1..] + t;
      SumAppend(f, s[1..], t);
    }
  }

  lemma {:induction false} SumOfInsert<T>(f: T -> int, less: (T, T) -> bool, x: T, s: seq<T>)
    ensures Sum(f, InsertBy(less, x, s)) == f(x) + Sum(f, s)
  {
    if s != [] && less(s[0], x) {
      SumOfInsert(f, less, x, s[1..]);
    } else {
      assert ([x] + s)[1..] == s;
    }
  }

  // A sort keeps every sum.
  lemma {:induction false} SumOfSort<T>(f: T -> int, less: (T, T) -> bool, s: seq<T>)
    ensures Sum(f, SortBy(less, s)) == Sum(f, s)
  {
    if s != [] {
      SumOfSort(f, less, s[1..]);
      SumOfInsert(f, less, s[0], SortBy(less, s[1..]));
    }
  }

  lemma SumOneMore<T>(f: T -> int, s: seq<T>, x: T)
    ensures Sum(f, s + [x]) == Sum(f, s) + f(x)
  {
    SumAppend(f, s, [x]);
    assert Sum(f, [x]) == f(x) + Sum(f, [x][1..]);
  }

  // A sum of non-negative terms is at least the sum of its first ones, and
  // positive exactly when some term is.
  lemma {:induction false} SumPositive<T(!new)>(f: T -> int, s: seq<T>)
    requires forall x :: f(x) >= 0
    ensures Sum(f, s) >= 0
    ensures Sum(f, s) > 0 <==> exists i :: 0 <= i < |s| && f(s[i]) > 0
  {
    if s != [] {
      SumPositive(f, s[1..]);
      if f(s[0]) == 0 && Sum(f, s) > 0 {
        var i :| 0 <= i < |s[1..]| && f(s[1..][i]) > 0;
        assert s[i + 1] == s[1..][i];
      }
      if i :| 0 <= i < |s| && f(s[i]) > 0 {
        if i > 0 {
          assert s[1..][i - 1] == s[i];
        }
      }
    }
  }

  lemma SumPrefix<T(!new)>(f: T -> int, s: seq<T>, n: nat)
    requires (forall x :: f(x) >= 0) && n <= |s|
    ensures Sum(f, s[..n]) <= Sum(f, s)
  {
    assert s[..n] + s[n..] == s;
    SumAppend(f, s[..n], s[n..]);
    SumPositive(f, s[n..]);
  }
}
