// The equivalence relation a list of pairs generates, as undirected paths.
module Closure {

  type Pairs = seq<(nat, nat)>

  predicate Adjacent(pairs: Pairs, x: nat, y: nat) {
    (x, y) in pairs || (y, x) in pairs
  }

  predicate IsPath(pairs: Pairs, p: seq<nat>, a: nat, b: nat) {
    && |p| > 0 && p[0] == a && p[|p| - 1] == b
    && forall i | 0 <= i < |p| - 1 :: Adjacent(pairs, p[i], p[i + 1])
  }

  ghost predicate Linked(pairs: Pairs, a: nat, b: nat) {
    exists p :: IsPath(pairs, p, a, b)
  }

  lemma LinkedRefl(pairs: Pairs, a: nat)
    ensures Linked(pairs, a, a)
  {
    assert IsPath(pairs, [a], a, a);
  }

  lemma LinkedPair(pairs: Pairs, a: nat, b: nat)
    requires Adjacent(pairs, a, b)
    ensures Linked(pairs, a, b) && Linked(pairs, b, a)
  {
    assert IsPath(pairs, [a, b], a, b);
    assert IsPath(pairs, [b, a], b, a);
  }

  lemma LinkedSym(pairs: Pairs, a: nat, b: nat)
    requires Linked(pairs, a, b)
    ensures Linked(pairs, b, a)
  {
    var p :| IsPath(pairs, p, a, b);
    var q := seq(|p|, i requires 0 <= i < |p| => p[|p| - 1 - i]);
    forall i | 0 <= i < |q| - 1 ensures Adjacent(pairs, q[i], q[i + 1]) {
      assert Adjacent(pairs, p[|p| - 2 - i], p[|p| - 2 - i + 1]);
    }
    assert IsPath(pairs, q, b, a);
  }

  lemma LinkedTrans(pairs: Pairs, a: nat, b: nat, c: nat)
    requires Linked(pairs, a, b) && Linked(pairs, b, c)
    ensures Linked(pairs, a, c)
  {
    var p :| IsPath(pairs, p, a, b);
    var q :| IsPath(pairs, q, b, c);
    var r := p + q[1..];
    forall i | 0 <= i < |r| - 1 ensures Adjacent(pairs, r[i], r[i + 1]) {
      if i < |p| - 1 {
        assert Adjacent(pairs, p[i], p[i + 1]);
      } else {
        var k := i - (|p| - 1);
        assert r[i] == q[k] && r[i + 1] == q[k + 1];
        assert Adjacent(pairs, q[k], q[k + 1]);
      }
    }
    assert IsPath(pairs, r, a, c);
  }

  lemma LinkedMonotone(pairs: Pairs, more: Pairs, a: nat, b: nat)
    requires Linked(pairs, a, b)
    requires forall k | 0 <= k < |pairs| :: pairs[k] in more
    ensures Linked(more, a, b)
  {
    var p :| IsPath(pairs, p, a, b);
    forall i | 0 <= i < |p| - 1 ensures Adjacent(more, p[i], p[i + 1]) {
      assert Adjacent(pairs, p[i], p[i + 1]);
    }
    assert IsPath(more, p, a, b);
  }

  // Whatever is equal across every pair is equal across every path.
  lemma LinkedKeeps<T>(pairs: Pairs, a: nat, b: nat, f: nat -> T)
    requires Linked(pairs, a, b)
    requires forall k | 0 <= k < |pairs| :: f(pairs[k].0) == f(pairs[k].1)
    ensures f(a) == f(b)
  {
    var p :| IsPath(pairs, p, a, b);
    for i := 0 to |p| - 1
      invariant f(p[0]) == f(p[i])
    {
      assert Adjacent(pairs, p[i], p[i + 1]);
    }
  }

  // A node linked to a different node is the end of some pair.
  lemma LinkedElsewhere(pairs: Pairs, a: nat, b: nat) returns (next: nat)
    requires Linked(pairs, a, b) && a != b
    ensures Adjacent(pairs, a, next) && Linked(pairs, next, b)
  {
    var p :| IsPath(pairs, p, a, b);
    next := p[1];
    assert Adjacent(pairs, p[0], p[1]);
    forall i | 0 <= i < |p[1..]| - 1 ensures Adjacent(pairs, p[1..][i], p[1..][i + 1]) {
      assert Adjacent(pairs, p[i + 1], p[i + 2]);
    }
    assert IsPath(pairs, p[1..], next, b);
  }

  // ---- representatives -------------------------------------------------

  function Identity(items: set<nat>): map<nat, nat> {
    map x | x in items :: x
  }

  // One union: the right class takes the left class's representative.
  function Merge(reps: map<nat, nat>, left: nat, right: nat): map<nat, nat>
    requires left in reps && right in reps
  {
    map x | x in reps :: if reps[x] == reps[right] then reps[left] else reps[x]
  }

  predicate Over(items: set<nat>, pairs: Pairs) {
    forall k | 0 <= k < |pairs| :: pairs[k].0 in items && pairs[k].1 in items
  }

  function MergeAll(items: set<nat>, pairs: Pairs): (reps: map<nat, nat>)
    requires Over(items, pairs)
    ensures reps.Keys == items
  {
    if pairs == [] then Identity(items)
    else
      var last := pairs[|pairs| - 1];
      assert Over(items, pairs[..|pairs| - 1]);
      Merge(MergeAll(items, pairs[..|pairs| - 1]), last.0, last.1)
  }

  lemma MergeAllSnoc(items: set<nat>, pairs: Pairs, left: nat, right: nat)
    requires Over(items, pairs) && left in items && right in items
    ensures Over(items, pairs + [(left, right)])
    ensures MergeAll(items, pairs + [(left, right)]) == Merge(MergeAll(items, pairs), left, right)
  {
    var all := pairs + [(left, right)];
    assert all[..|all| - 1] == pairs;
  }

  lemma {:induction false} MergeAllJoinsPairs(items: set<nat>, pairs: Pairs, k: nat)
    requires Over(items, pairs) && k < |pairs|
    ensures var reps := MergeAll(items, pairs); reps[pairs[k].0] == reps[pairs[k].1]
  {
    assert Over(items, pairs[..|pairs| - 1]);
    if k < |pairs| - 1 {
      MergeAllJoinsPairs(items, pairs[..|pairs| - 1], k);
    }
  }

  lemma {:induction false} MergeAllOnlyLinks(items: set<nat>, pairs: Pairs, a: nat, b: nat)
    requires Over(items, pairs) && a in items && b in items
    requires MergeAll(items, pairs)[a] == MergeAll(items, pairs)[b]
    ensures Linked(pairs, a, b)
  {
    if pairs == [] {
      LinkedRefl(pairs, a);
    } else {
      var init, last := pairs[..|pairs| - 1], pairs[|pairs| - 1];
      assert Over(items, init);
      var old_ := MergeAll(items, init);
      LinkedPair(pairs, last.0, last.1);
      if old_[a] == old_[b] {
        MergeAllOnlyLinks(items, init, a, b);
        LinkedMonotone(init, pairs, a, b);
      } else if old_[a] == old_[last.1] {
        MergeAllOnlyLinks(items, init, a, last.1);
        MergeAllOnlyLinks(items, init, last.0, b);
        LinkedMonotone(init, pairs, a, last.1);
        LinkedMonotone(init, pairs, last.0, b);
        LinkedTrans(pairs, a, last.1, last.0);
        LinkedTrans(pairs, a, last.0, b);
      } else {
        MergeAllOnlyLinks(items, init, a, last.0);
        MergeAllOnlyLinks(items, init, last.1, b);
        LinkedMonotone(init, pairs, a, last.0);
        LinkedMonotone(init, pairs, last.1, b);
        LinkedTrans(pairs, a, last.0, last.1);
        LinkedTrans(pairs, a, last.1, b);
      }
    }
  }

  // The classes left by any list of unions are exactly the equivalence the
  // united pairs generate.
  lemma ClassesAreTheClosure(items: set<nat>, pairs: Pairs, a: nat, b: nat)
    requires Over(items, pairs) && a in items && b in items
    ensures MergeAll(items, pairs)[a] == MergeAll(items, pairs)[b] <==> Linked(pairs, a, b)
  {
    var reps := MergeAll(items, pairs);
    if reps[a] == reps[b] {
      MergeAllOnlyLinks(items, pairs, a, b);
    }
    if Linked(pairs, a, b) {
      forall k | 0 <= k < |pairs|
        ensures reps[pairs[k].0] == reps[pairs[k].1]
      {
        MergeAllJoinsPairs(items, pairs, k);
      }
      var f := (x: nat) => if x in reps then reps[x] else x;
      LinkedKeeps(pairs, a, b, f);
    }
  }

  // Each representative represents itself.
  lemma {:induction false} RepsAreFixed(items: set<nat>, pairs: Pairs, a: nat)
    requires Over(items, pairs) && a in items
    ensures var reps := MergeAll(items, pairs); reps[a] in items && reps[reps[a]] == reps[a]
  {
    if pairs != [] {
      var init, last := pairs[..|pairs| - 1], pairs[|pairs| - 1];
      assert Over(items, init);
      RepsAreFixed(items, init, a);
      RepsAreFixed(items, init, last.0);
    }
  }
}
