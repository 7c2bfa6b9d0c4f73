// Which hardware the measured labels leave possible: the consistency gates of
// the bank table decide whether any fits, and what all that fit agree on
// (tools/g3_probe/build_bank_table.py, tools/g3_probe/query_table.py).
module FittingTruths {
  import opened BankTable
  import opened Closure
  import opened Edges
  import opened Sorting

  // Hardware no measured label contradicts.
  ghost predicate Fits(truth: Truth, edges: EdgeList) {
    TruthfulEdges(truth, edges) && truth.PagesNeverShareARow()
  }

  // The gates C1, C2 and C4 list nothing.
  ghost predicate CleanGates(edges: EdgeList) {
    Filter(OnC1(edges), edges) == [] && Filter(OnC2(edges), edges) == [] && Filter(OnC4(edges), edges) == []
  }

  lemma CleanGatesPerEdge(edges: EdgeList)
    ensures CleanGates(edges) <==> forall e | e in edges :: !C1(edges, e) && !C2(edges, e) && !C4(edges, e)
  {
    forall e | e in edges
      ensures C1(edges, e) <==> e in Filter(OnC1(edges), edges)
      ensures C2(edges, e) <==> e in Filter(OnC2(edges), edges)
      ensures C4(edges, e) <==> e in Filter(OnC4(edges), edges)
    {
    }
    if !CleanGates(edges) {
      var listed := Filter(OnC1(edges), edges) + Filter(OnC2(edges), edges) + Filter(OnC4(edges), edges);
      assert listed[0] in listed;
      assert listed[0] in edges;
    }
  }

  // ---- hardware read off the classes ----------------------------------------

  lemma PairsStayInNodes(edges: EdgeList)
    ensures Over(Nodes(edges), BankPairs(edges)) && Over(Nodes(edges), RowPairs(BankPairs(edges), edges))
  {
    var banks := BankPairs(edges);
    var rows := RowPairs(banks, edges);
    forall k | 0 <= k < |banks| ensures banks[k].0 in Nodes(edges) && banks[k].1 in Nodes(edges) {
      assert (banks[k].0, banks[k].1) in banks;
      assert Edge(banks[k].0, banks[k].1, Deep) in edges;
    }
    forall k | 0 <= k < |rows| ensures rows[k].0 in Nodes(edges) && rows[k].1 in Nodes(edges) {
      assert (rows[k].0, rows[k].1) in rows;
      assert Edge(rows[k].0, rows[k].1, Low) in edges;
    }
  }

  // The class an address is in, or the address itself where nothing was measured.
  ghost function ClassName(items: set<nat>, united: Pairs): nat -> nat
    requires Over(items, united)
  {
    var reps := MergeAll(items, united);
    (x: nat) => if x in reps then reps[x] else x
  }

  lemma LinkedMembersAreItems(items: set<nat>, united: Pairs, a: nat, b: nat)
    requires Over(items, united) && Linked(united, a, b) && a != b
    ensures a in items && b in items
  {
    LinkedSym(united, a, b);
    var next := LinkedElsewhere(united, a, b);
    var prev := LinkedElsewhere(united, b, a);
  }

  lemma ClassNameIsLinked(items: set<nat>, united: Pairs, a: nat, b: nat)
    requires Over(items, united)
    ensures ClassName(items, united)(a) == ClassName(items, united)(b) <==> Linked(united, a, b)
  {
    var reps := MergeAll(items, united);
    if a in items && b in items {
      ClassesAreTheClosure(items, united, a, b);
    } else if a == b {
      LinkedRefl(united, a);
    } else {
      if a in items {
        RepsAreFixed(items, united, a);
      }
      if b in items {
        RepsAreFixed(items, united, b);
      }
      if Linked(united, a, b) {
        LinkedMembersAreItems(items, united, a, b);
        assert false;
      }
    }
  }

  // Banks and rows named after the classes the table stores.
  ghost function ClassTruth(edges: EdgeList): (truth: Truth)
    ensures forall a: nat, b: nat :: truth.bank(a) == truth.bank(b) <==> SameBankClass(edges, a, b)
    ensures forall a: nat, b: nat :: truth.row(a) == truth.row(b) <==> SameRowClass(edges, a, b)
  {
    PairsStayInNodes(edges);
    var banks := BankPairs(edges);
    var rows := RowPairs(banks, edges);
    var truth := Truth(ClassName(Nodes(edges), banks), ClassName(Nodes(edges), rows));
    assert forall a: nat, b: nat :: truth.bank(a) == truth.bank(b) <==> Linked(banks, a, b) by {
      forall a: nat, b: nat { ClassNameIsLinked(Nodes(edges), banks, a, b); }
    }
    assert forall a: nat, b: nat :: truth.row(a) == truth.row(b) <==> Linked(rows, a, b) by {
      forall a: nat, b: nat { ClassNameIsLinked(Nodes(edges), rows, a, b); }
    }
    truth
  }

  // Without C4, a row class stays on one page.
  lemma RowClassesStayOnPages(edges: EdgeList, a: nat, b: nat)
    requires CleanGates(edges) && SameRowClass(edges, a, b)
    ensures PageNo(a) == PageNo(b)
  {
    CleanGatesPerEdge(edges);
    var rows := RowPairs(BankPairs(edges), edges);
    forall k | 0 <= k < |rows| ensures PageNo(rows[k].0) == PageNo(rows[k].1) {
      assert (rows[k].0, rows[k].1) in rows;
      assert !C4(edges, Edge(rows[k].0, rows[k].1, Low));
    }
    LinkedKeeps(rows, a, b, (x: nat) => PageNo(x));
  }

  lemma ClassTruthFits(edges: EdgeList)
    requires CleanGates(edges)
    ensures Fits(ClassTruth(edges), edges)
  {
    var truth := ClassTruth(edges);
    CleanGatesPerEdge(edges);
    forall e | e in edges ensures truth.Admits(e.cls, e.a, e.b) {
      ClassTruthAdmits(edges, e);
    }
    forall a: nat, b: nat | PageNo(a) != PageNo(b) && truth.bank(a) == truth.bank(b)
      ensures truth.row(a) != truth.row(b)
    {
      if truth.row(a) == truth.row(b) {
        RowClassesStayOnPages(edges, a, b);
      }
    }
  }

  lemma ClassTruthAdmits(edges: EdgeList, e: Edge)
    requires e in edges && !C1(edges, e) && !C2(edges, e)
    ensures ClassTruth(edges).Admits(e.cls, e.a, e.b)
  {
    DecidedEdgeJoins(edges, e);
    var truth := ClassTruth(edges);
    assert truth.bank(e.a) == truth.bank(e.b) <==> SameBankClass(edges, e.a, e.b);
    assert truth.row(e.a) == truth.row(e.b) <==> SameRowClass(edges, e.a, e.b);
  }

  lemma DecidedEdgeJoins(edges: EdgeList, e: Edge)
    requires e in edges
    ensures e.cls == Deep ==> SameBankClass(edges, e.a, e.b)
    ensures e.cls == Low && SameBankClass(edges, e.a, e.b) ==> SameRowClass(edges, e.a, e.b)
  {
    var banks := BankPairs(edges);
    if e.cls == Deep {
      assert (e.a, e.b) in banks;
      LinkedPair(banks, e.a, e.b);
    } else if e.cls == Low && Linked(banks, e.a, e.b) {
      assert (e.a, e.b) in RowPairs(banks, edges);
      LinkedPair(RowPairs(banks, edges), e.a, e.b);
    }
  }

  // ---- what the gates decide ---------------------------------------------------

  // The gates are silent exactly when some hardware fits the measurements.
  lemma GatesAreCleanExactly(edges: EdgeList)
    ensures CleanGates(edges) <==> exists truth :: Fits(truth, edges)
  {
    if CleanGates(edges) {
      ClassTruthFits(edges);
    }
    if truth :| Fits(truth, edges) {
      forall e | e in edges ensures !C1(edges, e) && !C2(edges, e) && !C4(edges, e) {
        TruthfulTableHasNoContradiction(truth, edges, e);
      }
      CleanGatesPerEdge(edges);
    }
  }

  // No hardware that fits would give the pair this label.
  ghost predicate Excluded(edges: EdgeList, a: nat, b: nat, cls: Label) {
    forall truth | Fits(truth, edges) :: !truth.Admits(cls, a, b)
  }

  lemma FitsOneMore(truth: Truth, edges: EdgeList, e: Edge)
    ensures Fits(truth, edges + [e]) <==> Fits(truth, edges) && truth.Admits(e.cls, e.a, e.b)
  {
    var more := edges + [e];
    assert e in more;
    if Fits(truth, more) {
      forall f | f in edges ensures truth.Admits(f.cls, f.a, f.b) {
        assert f in more;
      }
    }
  }

  // A label is impossible for a pair, given what was measured, exactly when
  // adding it to the measurements trips a gate.
  lemma ExcludedExactly(edges: EdgeList, a: nat, b: nat, cls: Label)
    ensures Excluded(edges, a, b, cls) <==> !CleanGates(edges + [Edge(a, b, cls)])
  {
    var e := Edge(a, b, cls);
    GatesAreCleanExactly(edges + [e]);
    if CleanGates(edges + [e]) {
      var truth :| Fits(truth, edges + [e]);
      FitsOneMore(truth, edges, e);
    }
    if !Excluded(edges, a, b, cls) {
      var truth :| Fits(truth, edges) && truth.Admits(cls, a, b);
      FitsOneMore(truth, edges, e);
    }
  }

  // Every hardware that fits puts the two addresses in different banks.
  ghost predicate BanksMustDiffer(edges: EdgeList, a: nat, b: nat) {
    forall truth | Fits(truth, edges) :: truth.bank(a) != truth.bank(b)
  }

  // Every hardware that fits makes the two addresses conflict.
  ghost predicate MustConflict(edges: EdgeList, a: nat, b: nat) {
    forall truth | Fits(truth, edges) :: truth.Conflict(a, b)
  }

  // Every hardware that fits puts the two addresses in one row of one bank.
  ghost predicate MustShareRow(edges: EdgeList, a: nat, b: nat) {
    forall truth | Fits(truth, edges) :: truth.bank(a) == truth.bank(b) && truth.row(a) == truth.row(b)
  }

  // When a NO between two pages is right: a deep measurement of the two
  // addresses would trip a gate.
  lemma BanksMustDifferExactly(edges: EdgeList, a: nat, b: nat)
    requires PageNo(a) != PageNo(b)
    ensures BanksMustDiffer(edges, a, b) <==> !CleanGates(edges + [Edge(a, b, Deep)])
  {
    ExcludedExactly(edges, a, b, Deep);
    assert Excluded(edges, a, b, Deep) <==> BanksMustDiffer(edges, a, b) by {
      forall truth | Fits(truth, edges) ensures truth.Admits(Deep, a, b) <==> truth.bank(a) == truth.bank(b) {
      }
    }
  }

  // When a YES between two pages is right: the two are in one bank class.
  // (Nothing fits measurements that trip a gate.)
  lemma MustConflictExactly(edges: EdgeList, a: nat, b: nat)
    requires PageNo(a) != PageNo(b)
    ensures MustConflict(edges, a, b) <==> SameBankClass(edges, a, b) || !CleanGates(edges)
  {
    GatesAreCleanExactly(edges);
    if SameBankClass(edges, a, b) {
      forall truth | Fits(truth, edges) ensures truth.Conflict(a, b) {
        BankClassesAreSound(truth, edges, a, b);
      }
    } else if CleanGates(edges) {
      ClassTruthFits(edges);
      assert !ClassTruth(edges).Conflict(a, b);
    }
  }

  // The row classes are all that the measurements say about equal rows.
  lemma MustShareRowExactly(edges: EdgeList, a: nat, b: nat)
    ensures MustShareRow(edges, a, b) <==> SameRowClass(edges, a, b) || !CleanGates(edges)
  {
    GatesAreCleanExactly(edges);
    if SameRowClass(edges, a, b) {
      forall truth | Fits(truth, edges) ensures truth.bank(a) == truth.bank(b) && truth.row(a) == truth.row(b) {
        RowClassesAreSound(truth, edges, a, b);
      }
    } else if CleanGates(edges) {
      ClassTruthFits(edges);
      assert ClassTruth(edges).row(a) != ClassTruth(edges).row(b);
    }
  }
}
