// Union-find with path halving (tools/g3_probe/analyze_census.py): its classes
// are the equivalence closure of the united pairs.
module UnionFinds {
  import opened Closure
  import opened Sorting

  type Forest = map<nat, nat>

  // Following parents ends: heights fall strictly towards the roots.
  ghost predicate Acyclic(parent: Forest, height: map<nat, nat>) {
    && parent.Keys == height.Keys
    && forall x {:trigger Climbs(parent, height, x)} | x in parent :: Climbs(parent, height, x)
  }

  ghost predicate Climbs(parent: Forest, height: map<nat, nat>, x: nat)
    requires parent.Keys == height.Keys && x in parent
  {
    && parent[x] in parent
    && (parent[x] != x ==> height[parent[x]] < height[x])
  }

  ghost function RootOf(parent: Forest, height: map<nat, nat>, x: nat): nat
    requires Acyclic(parent, height) && x in parent
    decreases height[x]
  {
    assert Climbs(parent, height, x);
    if parent[x] == x then x else RootOf(parent, height, parent[x])
  }

  lemma {:induction false} RootIsRoot(parent: Forest, height: map<nat, nat>, x: nat)
    requires Acyclic(parent, height) && x in parent
    ensures var r := RootOf(parent, height, x); r in parent && parent[r] == r
    decreases height[x]
  {
    assert Climbs(parent, height, x);
    if parent[x] != x {
      RootIsRoot(parent, height, parent[x]);
    }
  }

  ghost function RepsOf(parent: Forest, height: map<nat, nat>): map<nat, nat>
    requires Acyclic(parent, height)
  {
    map x | x in parent :: RootOf(parent, height, x)
  }

  // One halving step: `x` now points at its grandparent.
  lemma {:induction false} HalvingKeepsRoots(parent: Forest, height: map<nat, nat>, x: nat, y: nat)
    requires Acyclic(parent, height) && x in parent && y in parent
    requires parent[x] in parent && parent[parent[x]] in parent
    ensures var halved := parent[x := parent[parent[x]]];
            Acyclic(halved, height) && RootOf(halved, height, y) == RootOf(parent, height, y)
    decreases height[y]
  {
    assert Climbs(parent, height, x);
    var z := parent[parent[x]];
    assert Climbs(parent, height, parent[x]);
    var halved := parent[x := z];
    forall w | w in halved ensures Climbs(halved, height, w) {
      assert Climbs(parent, height, w);
    }
    assert Climbs(parent, height, y) && Climbs(halved, height, y);
    if y == x {
      if z != x {
        HalvingKeepsRoots(parent, height, x, z);
      }
    } else if parent[y] != y {
      HalvingKeepsRoots(parent, height, x, parent[y]);
    }
  }

  // Heights after hanging root `r` below root `l`.
  ghost function Raised(parent: Forest, height: map<nat, nat>, l: nat, r: nat): map<nat, nat>
    requires Acyclic(parent, height) && l in parent && r in parent
  {
    map x | x in parent ::
      if RootOf(parent, height, x) == r then height[x] + height[l] + 1 else height[x]
  }

  lemma {:induction false} HangingMergesRoots(parent: Forest, height: map<nat, nat>, l: nat, r: nat, y: nat)
    requires Acyclic(parent, height) && l in parent && r in parent && y in parent
    requires parent[l] == l && parent[r] == r && l != r
    ensures var joined, raised := parent[r := l], Raised(parent, height, l, r);
            && Acyclic(joined, raised)
            && RootOf(joined, raised, y) ==
                 if RootOf(parent, height, y) == r then l else RootOf(parent, height, y)
    decreases height[y]
  {
    var joined, raised := parent[r := l], Raised(parent, height, l, r);
    assert RootOf(parent, height, l) == l && RootOf(parent, height, r) == r;
    forall w | w in joined ensures Climbs(joined, raised, w) {
      assert Climbs(parent, height, w);
    }
    assert RootOf(joined, raised, l) == l;
    assert Climbs(parent, height, y);
    if parent[y] != y {
      HangingMergesRoots(parent, height, l, r, parent[y]);
    }
  }

  lemma HangingIsMerge(parent: Forest, height: map<nat, nat>, l: nat, r: nat, left: nat, right: nat)
    requires Acyclic(parent, height) && left in parent && right in parent && l in parent && r in parent
    requires parent[l] == l && parent[r] == r && l != r
    requires l == RootOf(parent, height, left) && r == RootOf(parent, height, right)
    ensures var joined, raised := parent[r := l], Raised(parent, height, l, r);
            && Acyclic(joined, raised)
            && RepsOf(joined, raised) == Merge(RepsOf(parent, height), left, right)
  {
    var joined, raised := parent[r := l], Raised(parent, height, l, r);
    HangingMergesRoots(parent, height, l, r, l);
    var before, after := RepsOf(parent, height), RepsOf(joined, raised);
    forall y | y in parent
      ensures after[y] == if before[y] == r then l else before[y]
    {
      HangingMergesRoots(parent, height, l, r, y);
    }
  }

  // The class invariant: an acyclic forest over the items whose roots are the
  // representatives the history of unions produces.
  ghost predicate GoodForest(parent: Forest, height: map<nat, nat>, items: set<nat>, united: Pairs) {
    && Acyclic(parent, height)
    && parent.Keys == items
    && Over(items, united)
    && RepsOf(parent, height) == MergeAll(items, united)
  }

  // The step `union` takes once it has both roots.
  lemma UnionKeepsForest(parent: Forest, height: map<nat, nat>, items: set<nat>, united: Pairs,
                         left: nat, right: nat)
    requires GoodForest(parent, height, items, united) && left in items && right in items
    ensures var l, r := RootOf(parent, height, left), RootOf(parent, height, right);
            && l in parent && r in parent
            && (l == r ==> GoodForest(parent, height, items, united + [(left, right)]))
            && (l != r ==> GoodForest(parent[r := l], Raised(parent, height, l, r), items, united + [(left, right)]))
  {
    var l, r := RootOf(parent, height, left), RootOf(parent, height, right);
    RootIsRoot(parent, height, left);
    RootIsRoot(parent, height, right);
    MergeAllSnoc(items, united, left, right);
    if l == r {
      assert Merge(RepsOf(parent, height), left, right) == RepsOf(parent, height);
    } else {
      HangingIsMerge(parent, height, l, r, left, right);
      assert parent[r := l].Keys == items;
    }
  }

  class UnionFind {
    var parent: Forest
    ghost var height: map<nat, nat>
    ghost var items: set<nat>
    ghost var united: Pairs  // every pair ever passed to Union, in call order

    ghost function Reps(): map<nat, nat>
      reads this
      requires Acyclic(parent, height)
    {
      RepsOf(parent, height)
    }

    ghost predicate Valid()
      reads this
    {
      GoodForest(parent, height, items, united)
    }

    constructor (members: set<nat>)
      ensures Valid() && items == members && united == []
    {
      parent := map x | x in members :: x;
      height := map x | x in members :: 0;
      items, united := members, [];
    }

    method Find(item: nat) returns (root: nat)
      requires Valid() && item in items
      modifies this`parent
      ensures Valid() && Reps() == old(Reps())
      ensures root in parent && parent[root] == root && root == Reps()[item]
    {
      root := item;
      while parent[root] != root
        invariant Acyclic(parent, height) && parent.Keys == items
        invariant Reps() == old(Reps())
        invariant root in parent && Reps()[root] == Reps()[item]
        decreases height[root]
      {
        ghost var before := parent;
        assert Climbs(parent, height, root);
        assert Climbs(parent, height, parent[root]);
        parent := parent[root := parent[parent[root]]];
        forall y | y in before
          ensures Acyclic(parent, height) && RootOf(parent, height, y) == RootOf(before, height, y)
        {
          HalvingKeepsRoots(before, height, root, y);
        }
        root := parent[root];
      }
    }

    method Union(left: nat, right: nat)
      requires Valid() && left in items && right in items
      modifies this
      ensures Valid() && items == old(items)
      ensures united == old(united) + [(left, right)]
    {
      var l := Find(left);
      var r := Find(right);
      UnionKeepsForest(parent, height, items, united, left, right);
      united := united + [(left, right)];
      if l != r {
        height := Raised(parent, height, l, r);
        parent := parent[r := l];
      }
      assert GoodForest(parent, height, items, united);
    }

    method SameClass(a: nat, b: nat) returns (same: bool)
      requires Valid() && a in items && b in items
      modifies this`parent
      ensures Valid()
      ensures same <==> Linked(united, a, b)
    {
      var ra := Find(a);
      var rb := Find(b);
      same := ra == rb;
      ClassesAreTheClosure(items, united, a, b);
    }

    // The partition: one entry per representative, listing its class in
    // increasing order.
    method Groups() returns (out: map<nat, seq<nat>>)
      requires Valid()
      modifies this`parent
      ensures Valid() && Reps() == old(Reps())
      ensures AreGroups(items, united, out)
    {
      out := map[];
      var todo := parent.Keys;
      ghost var reps := Reps();
      while todo != {}
        invariant Valid() && Reps() == reps && todo <= items
        invariant Collected(reps, items - todo, out)
        decreases todo
      {
        var item :| item in todo;
        var root := Find(item);
        CollectOne(reps, items - todo, out, item);
        out := out[root := (if root in out then out[root] else []) + [item]];
        assert items - (todo - {item}) == items - todo + {item};
        todo := todo - {item};
      }
      assert items - todo == items;
      SortedGroups(items, united, out);
      out := SortLists(out);
    }
  }

  // `out` lists, without repeats, the items of `done` under their representatives.
  ghost predicate Collected(reps: map<nat, nat>, done: set<nat>, out: map<nat, seq<nat>>)
    requires done <= reps.Keys
  {
    && (forall x | x in done :: reps[x] in out)
    && (forall root | root in out :: out[root] != [] && Distinct(out[root]))
    && (forall root, x | root in out :: x in out[root] <==> x in done && reps[x] == root)
  }

  lemma CollectOne(reps: map<nat, nat>, done: set<nat>, out: map<nat, seq<nat>>, item: nat)
    requires done <= reps.Keys && item in reps && item !in done && Collected(reps, done, out)
    ensures var root := reps[item];
            Collected(reps, done + {item}, out[root := (if root in out then out[root] else []) + [item]])
  {
  }

  predicate Below(x: nat, y: nat) {
    x < y
  }

  predicate Increasing(s: seq<nat>) {
    forall i, j | 0 <= i < j < |s| :: s[i] < s[j]
  }

  // `members` lists, in increasing order, exactly the items linked to `root`.
  ghost predicate IsClassList(items: set<nat>, united: Pairs, root: nat, members: seq<nat>) {
    && Increasing(members)
    && root in members
    && forall x :: x in members <==> x in items && Linked(united, root, x)
  }

  // One class list per representative.
  ghost predicate AreGroups(items: set<nat>, united: Pairs, groups: map<nat, seq<nat>>)
    requires Over(items, united)
  {
    && groups.Keys == (set r | r in items && MergeAll(items, united)[r] == r)
    && forall root | root in groups :: IsClassList(items, united, root, groups[root])
  }

  lemma SortedListIsClassList(items: set<nat>, united: Pairs, root: nat, found: seq<nat>)
    requires Over(items, united)
    requires Distinct(found) && found != []
    requires forall x :: x in found <==> x in items && MergeAll(items, united)[x] == root
    ensures IsClassList(items, united, root, SortBy(Below, found))
  {
    var sorted := SortBy(Below, found);
    SortIsSorted(Below, found);
    SortKeepsElements(Below, found);
    SameMultisetDistinct(found, sorted);
    forall i, j | 0 <= i < j < |sorted| ensures sorted[i] < sorted[j] {
      assert !Below(sorted[j], sorted[i]);
    }
    assert found[0] in found;
    RepsAreFixed(items, united, found[0]);
    forall x ensures x in sorted <==> x in items && Linked(united, root, x) {
      if x in items {
        ClassesAreTheClosure(items, united, root, x);
      }
    }
  }

  lemma GroupIsClass(items: set<nat>, united: Pairs, found: map<nat, seq<nat>>, root: nat)
    requires Over(items, united) && Collected(MergeAll(items, united), items, found) && root in found
    ensures root in items && MergeAll(items, united)[root] == root
    ensures IsClassList(items, united, root, SortBy(Below, found[root]))
  {
    var x := found[root][0];
    assert x in found[root];
    RepsAreFixed(items, united, x);
    SortedListIsClassList(items, united, root, found[root]);
  }

  lemma SortedGroups(items: set<nat>, united: Pairs, found: map<nat, seq<nat>>)
    requires Over(items, united) && Collected(MergeAll(items, united), items, found)
    ensures AreGroups(items, united, SortLists(found))
  {
    var sorted, reps := SortLists(found), MergeAll(items, united);
    forall root | root in sorted
      ensures root in items && reps[root] == root && IsClassList(items, united, root, sorted[root])
    {
      GroupIsClass(items, united, found, root);
    }
  }

  function SortLists(found: map<nat, seq<nat>>): map<nat, seq<nat>> {
    map root | root in found :: SortBy(Below, found[root])
  }
}
