// What the relation answers are worth: when the measurements force them, and
// what the table says between two pages after a truthful sweep
// (tools/g3_probe/query_table.py, tools/g3_probe/build_bank_table.py).
module TableAnswers {
  import opened BankTable
  import opened Closure
  import opened EdgeFold
  import opened Edges
  import opened FittingTruths
  import opened Outcomes
  import opened Relation
  import opened Sorting

  // A page of the pool that some joining edge touches.
  predicate InGraph(universe: set<nat>, linked: set<nat>, p: nat) {
    p in universe && p in linked
  }

  // What the page graph says of two pages.
  ghost function PageAnswer(deepOnly: bool, edges: EdgeList, universe: set<nat>, p: nat, q: nat): Tri {
    var linked := LinkedPages(deepOnly, edges);
    if !InGraph(universe, linked, p) || !InGraph(universe, linked, q) then Unknown
    else if SameComponent(deepOnly, edges, p, q) then Yes else No
  }

  // The answer for two addresses on different pages is that of the page graph.
  lemma CrossPageAnswer(tab: Table, deepOnly: bool, edges: EdgeList, universe: set<nat>, a: nat, b: nat)
    requires TableOf(tab, deepOnly, edges, universe) && PageNo(a) != PageNo(b)
    ensures var r := Relate(tab, a, b);
            && r.sameBank == PageAnswer(deepOnly, edges, universe, PageNo(a), PageNo(b))
            && r.row == (if r.sameBank == Yes then OtherRow else UnknownRow)
  {
    BaseOfPage(a);
    BaseOfPage(b);
    PagesAnswer(tab.pages, universe, LinkedPages(deepOnly, edges), PagePairs(deepOnly, edges),
                PageBase(a), PageBase(b));
  }

  lemma PagesAnswer(pages: map<nat, Option<nat>>, universe: set<nat>, linked: set<nat>, joins: Pairs, a: nat, b: nat)
    requires PagesOver(pages, universe, linked, joins) && a % PAGE == 0 && b % PAGE == 0
    ensures var r := RelatePages(pages, a, b);
            && r.sameBank ==
                 (if !InGraph(universe, linked, PageNo(a)) || !InGraph(universe, linked, PageNo(b)) then Unknown
                  else if Linked(joins, PageNo(a), PageNo(b)) then Yes else No)
            && r.row == (if r.sameBank == Yes then OtherRow else UnknownRow)
  {
    assert a in pages <==> PageNo(a) in universe;
    assert b in pages <==> PageNo(b) in universe;
  }

  lemma BaseOfPage(a: nat)
    ensures PageBase(a) == PageNo(a) * PAGE && PageBase(a) % PAGE == 0 && PageNo(PageBase(a)) == PageNo(a)
  {
    PageOfBase(PageNo(a));
  }

  lemma PageStartAnswer(tab: Table, deepOnly: bool, edges: EdgeList, universe: set<nat>, p: nat, q: nat)
    requires TableOf(tab, deepOnly, edges, universe) && p != q
    ensures var r := Relate(tab, p * PAGE, q * PAGE);
            && r.sameBank == PageAnswer(deepOnly, edges, universe, p, q)
            && r.row == (if r.sameBank == Yes then OtherRow else UnknownRow)
  {
    PageOfBase(p);
    PageOfBase(q);
    CrossPageAnswer(tab, deepOnly, edges, universe, p * PAGE, q * PAGE);
  }

  // ---- when an answer is right -----------------------------------------------

  // A NO, and the different banks it claims, holds of all hardware that fits
  // the measurements exactly when a deep measurement of the pair would trip a
  // gate; a YES, exactly when the two addresses are in one bank class.
  lemma CrossPageAnswerIsRightExactly(tab: Table, deepOnly: bool, edges: EdgeList, universe: set<nat>, a: nat, b: nat)
    requires TableOf(tab, deepOnly, edges, universe) && CleanGates(edges) && PageNo(a) != PageNo(b)
    ensures var r := Relate(tab, a, b);
            && (r.sameBank == No ==>
                  (BanksMustDiffer(edges, a, b) <==> !CleanGates(edges + [Edge(a, b, Deep)])))
            && (r.sameBank == Yes ==> r.row == OtherRow && (MustConflict(edges, a, b) <==> SameBankClass(edges, a, b)))
  {
    CrossPageAnswer(tab, deepOnly, edges, universe, a, b);
    BanksMustDifferExactly(edges, a, b);
    MustConflictExactly(edges, a, b);
  }

  // Inside a page, two addresses are called one row exactly when the
  // measurements leave no other hardware.
  lemma SameRowIsClaimedExactly(tab: Table, deepOnly: bool, edges: EdgeList, universe: set<nat>, a: nat, b: nat)
    requires TableOf(tab, deepOnly, edges, universe) && CleanGates(edges) && PageBase(a) == PageBase(b) && a != b
    ensures Relate(tab, a, b).row == SameRow <==> MustShareRow(edges, a, b)
  {
    MustShareRowExactly(edges, a, b);
    PairsStayInNodes(edges);
    KnownSameRowExactly(tab, Nodes(edges), BankPairs(edges), RowPairs(BankPairs(edges), edges), a, b);
  }

  lemma KnownSameRowExactly(tab: Table, items: set<nat>, banks: Pairs, rows: Pairs, a: nat, b: nat)
    requires NodesOver(tab.nodes, items, banks, rows) && Over(items, rows) && a != b
    ensures KnownSameRow(tab, a, b) <==> Linked(rows, a, b)
  {
    if Linked(rows, a, b) {
      LinkedMembersAreItems(items, rows, a, b);
      assert HasPeer(items, rows, a);
      assert tab.nodes[a].rowClass == tab.nodes[b].rowClass;
    }
  }

  // With cross-page edges at page starts, a component of the deep-only graph
  // is a bank class of page starts.
  lemma ComponentsAreBankClasses(edges: EdgeList, p: nat, q: nat)
    requires CrossEdgesAtPageStarts(edges)
    ensures SameComponent(true, edges, p, q) ==> SameBankClass(edges, p * PAGE, q * PAGE)
  {
    var banks, pages := BankPairs(edges), PagePairs(true, edges);
    if Linked(pages, p, q) {
      ghost var f := (x: nat) => Linked(banks, p * PAGE, x * PAGE);
      forall k | 0 <= k < |pages| ensures f(pages[k].0) == f(pages[k].1) {
        assert (pages[k].0, pages[k].1) in pages;
        var e :| e in edges && JoinsPages(true, e) && pages[k].0 == PageNo(e.a) && pages[k].1 == PageNo(e.b);
        assert (e.a, e.b) in banks;
        LinkedPair(banks, e.a, e.b);
        StepEither(banks, p * PAGE, e.a, e.b);
      }
      LinkedRefl(banks, p * PAGE);
      LinkedKeeps(pages, p, q, f);
    }
  }

  // At page starts every YES is right.
  lemma CrossPageYesIsSound(tab: Table, edges: EdgeList, universe: set<nat>, p: nat, q: nat)
    requires TableOf(tab, true, edges, universe) && CrossEdgesAtPageStarts(edges)
    requires p != q && Relate(tab, p * PAGE, q * PAGE).sameBank == Yes
    ensures MustConflict(edges, p * PAGE, q * PAGE)
  {
    PageOfBase(p);
    PageOfBase(q);
    PageStartAnswer(tab, true, edges, universe, p, q);
    ComponentsAreBankClasses(edges, p, q);
    MustConflictExactly(edges, p * PAGE, q * PAGE);
  }

  lemma PagesConflict(truth: Truth, p: nat, q: nat)
    requires truth.PagesNeverShareARow() && p != q
    ensures truth.Conflict(p * PAGE, q * PAGE) <==> PageBank(truth, p) == PageBank(truth, q)
  {
    PageOfBase(p);
    PageOfBase(q);
  }

  // With a complete sweep, linked pages get the exact answer, YES when they
  // share a bank and NO when they do not, if their bank has a representative;
  // in general it is wrong exactly for pages of one bank in two components.
  lemma CrossPageAnswersAreExact(truth: Truth, tab: Table, edges: EdgeList, universe: set<nat>, reps: set<nat>,
                                 p: nat, q: nat)
    requires TableOf(tab, true, edges, universe) && TruthfulEdges(truth, edges)
    requires truth.PagesNeverShareARow() && CrossEdgesAtPageStarts(edges) && CompleteSweep(universe, reps, edges)
    requires p in universe && q in universe && p != q
    requires p in LinkedPages(true, edges) && q in LinkedPages(true, edges)
    ensures var same, answer := PageBank(truth, p) == PageBank(truth, q), Relate(tab, p * PAGE, q * PAGE).sameBank;
            && (BankHasRep(truth, reps, p) ==> answer == if same then Yes else No)
            && (answer != (if same then Yes else No) <==> same && !SameComponent(true, edges, p, q))
    ensures Relate(tab, p * PAGE, q * PAGE).row == OtherRow ==> truth.Conflict(p * PAGE, q * PAGE)
  {
    ComponentsAreExact(truth, edges, universe, reps, p, q);
    assert PageAnswer(true, edges, universe, p, q) == if SameComponent(true, edges, p, q) then Yes else No;
    PagesConflict(truth, p, q);
    PageStartAnswer(tab, true, edges, universe, p, q);
  }

  // ---- from measured rows to answers -------------------------------------------

  // A decided row for every page against every representative, at page starts.
  ghost predicate RowsSweep(pages: set<nat>, reps: set<nat>, rows: seq<Row>) {
    forall p, r | p in pages && r in reps && p != r :: RowMeasures(rows, p, r)
  }

  ghost predicate RowMeasures(rows: seq<Row>, p: nat, r: nat) {
    exists m :: m in rows && m.cls != Mid && OnKey(KeyOf(p * PAGE, r * PAGE))(m)
  }

  // Truthful rows give a truthful edge list, and a sweep of decided rows gives
  // a complete sweep of edges: folding loses nothing the answers rest on.
  lemma TruthfulRowsGiveTruthfulEdges(truth: Truth, runs: seq<string>, rows: seq<Row>, freshest: string,
                                      edges: EdgeList, pages: set<nat>, reps: set<nat>)
    requires EdgesOfRows(runs, rows, freshest, edges) && Truthful(truth, rows)
    ensures TruthfulEdges(truth, edges)
    ensures RowsSweep(pages, reps, rows) ==> CompleteSweep(pages, reps, edges)
  {
    forall e | e in edges ensures truth.Admits(e.cls, e.a, e.b) {
      TruthfulRowsFoldTruthfully(truth, runs, rows, (e.a, e.b), freshest, e.cls);
    }
    if RowsSweep(pages, reps, rows) {
      forall p, r | p in pages && r in reps && p != r ensures MeasuredPair(edges, p, r) {
        assert RowMeasures(rows, p, r);
        MeasuredRowIsStored(truth, runs, rows, freshest, edges, p, r);
      }
    }
  }

  lemma MeasuredRowIsStored(truth: Truth, runs: seq<string>, rows: seq<Row>, freshest: string, edges: EdgeList,
                            p: nat, r: nat)
    requires EdgesOfRows(runs, rows, freshest, edges) && Truthful(truth, rows)
    requires p != r && RowMeasures(rows, p, r)
    ensures MeasuredPair(edges, p, r)
  {
    var key := KeyOf(p * PAGE, r * PAGE);
    assert key.0 < key.1;
    var m :| m in rows && m.cls != Mid && OnKey(key)(m);
    assert m in Filter(OnKey(key), rows);
    assert HasEdge(edges, key.0, key.1);
    var cls :| Edge(key.0, key.1, cls) in edges;
    assert StoredEdge(runs, rows, freshest, Edge(key.0, key.1, cls));
    TruthfulRowsFoldTruthfully(truth, runs, rows, key, freshest, cls);
    var e := Edge(key.0, key.1, cls);
    assert (e.a, e.b) in [(p * PAGE, r * PAGE), (r * PAGE, p * PAGE)];
  }

  // Every deep row between two pages was measured at page starts, against a
  // representative.
  ghost predicate SweepRowsOnly(reps: set<nat>, rows: seq<Row>) {
    forall m | m in rows && m.cls == Deep && PageNo(m.a) != PageNo(m.b) :: AtSweepCell(reps, m.a, m.b)
  }

  ghost predicate AtSweepCell(reps: set<nat>, a: nat, b: nat) {
    && a == PageNo(a) * PAGE && b == PageNo(b) * PAGE
    && (PageNo(a) in reps || PageNo(b) in reps)
  }

  lemma SweepRowsGiveSweepEdges(truth: Truth, runs: seq<string>, rows: seq<Row>, freshest: string, edges: EdgeList,
                                reps: set<nat>)
    requires EdgesOfRows(runs, rows, freshest, edges) && Truthful(truth, rows) && SweepRowsOnly(reps, rows)
    ensures forall e | e in edges && JoinsPages(true, e) :: AtSweepCell(reps, e.a, e.b)
    ensures CrossEdgesAtPageStarts(edges)
  {
    forall e | e in edges && JoinsPages(true, e) ensures AtSweepCell(reps, e.a, e.b) {
      assert StoredEdge(runs, rows, freshest, e);
      TruthfulRowsNeverContest(truth, runs, rows, (e.a, e.b));
      var m := VerdictRow(runs, rows, (e.a, e.b), e.cls);
      assert AtSweepCell(reps, m.a, m.b);
    }
  }

  // Another page of the pool is in the bank of `p`, and one of the two is a
  // representative.
  ghost predicate Partnered(truth: Truth, universe: set<nat>, reps: set<nat>, p: nat) {
    exists o :: o in universe && o != p && PageBank(truth, o) == PageBank(truth, p) && (p in reps || o in reps)
  }

  lemma LinkedExactly(truth: Truth, edges: EdgeList, universe: set<nat>, reps: set<nat>, p: nat)
    requires TruthfulEdges(truth, edges) && truth.PagesNeverShareARow() && CompleteSweep(universe, reps, edges)
    requires forall e | e in edges && JoinsPages(true, e) :: AtSweepCell(reps, e.a, e.b)
    requires forall e | e in edges :: PageNo(e.a) in universe && PageNo(e.b) in universe
    requires p in universe
    ensures p in LinkedPages(true, edges) <==> Partnered(truth, universe, reps, p)
  {
    if p in LinkedPages(true, edges) {
      var e :| e in edges && JoinsPages(true, e) && p in {PageNo(e.a), PageNo(e.b)};
      assert truth.Admits(e.cls, e.a, e.b);
      var o := if p == PageNo(e.a) then PageNo(e.b) else PageNo(e.a);
      assert o in universe && PageBank(truth, o) == PageBank(truth, p);
    }
    if o :| o in universe && o != p && PageBank(truth, o) == PageBank(truth, p) && (p in reps || o in reps) {
      if p in reps {
        assert MeasuredPair(edges, o, p);
        MeasuredPairsJoin(truth, edges, o, p);
        ComponentMembersAreLinked(true, edges, o, p);
      } else {
        assert MeasuredPair(edges, p, o);
        MeasuredPairsJoin(truth, edges, p, o);
        ComponentMembersAreLinked(true, edges, p, o);
      }
    }
  }

  // What the hardware makes of two pages after a sweep.
  ghost function SweptAnswer(truth: Truth, universe: set<nat>, reps: set<nat>, p: nat, q: nat): Tri {
    if !Partnered(truth, universe, reps, p) || !Partnered(truth, universe, reps, q) then Unknown
    else if PageBank(truth, p) == PageBank(truth, q) then Yes else No
  }

  lemma SweptPagesAnswerExactly(truth: Truth, edges: EdgeList, universe: set<nat>, reps: set<nat>, p: nat, q: nat)
    requires TruthfulEdges(truth, edges) && truth.PagesNeverShareARow() && CompleteSweep(universe, reps, edges)
    requires CrossEdgesAtPageStarts(edges)
    requires forall e | e in edges && JoinsPages(true, e) :: AtSweepCell(reps, e.a, e.b)
    requires forall e | e in edges :: PageNo(e.a) in universe && PageNo(e.b) in universe
    requires p in universe && q in universe
    ensures PageAnswer(true, edges, universe, p, q) == SweptAnswer(truth, universe, reps, p, q)
  {
    LinkedExactly(truth, edges, universe, reps, p);
    LinkedExactly(truth, edges, universe, reps, q);
    if p in LinkedPages(true, edges) {
      SweepEdgesReachReps(edges, reps, p);
      HasRepExactly(truth, edges, universe, reps, p);
      ComponentsAreExact(truth, edges, universe, reps, p, q);
    }
  }

  // From rows to answers: if every row is true, the pool was swept and nothing
  // but the sweep joins pages, the table built from the rows answers every two
  // page starts by the hardware's banks.
  lemma TruthfulSweepAnswersExactly(truth: Truth, runs: seq<string>, rows: seq<Row>, freshest: string, edges: EdgeList,
                                    tab: Table, universe: set<nat>, reps: set<nat>, p: nat, q: nat)
    requires EdgesOfRows(runs, rows, freshest, edges) && TableOf(tab, true, edges, universe)
    requires forall e | e in edges :: PageNo(e.a) in universe && PageNo(e.b) in universe
    requires Truthful(truth, rows) && truth.PagesNeverShareARow()
    requires RowsSweep(universe, reps, rows) && SweepRowsOnly(reps, rows)
    requires p in universe && q in universe && p != q
    ensures Relate(tab, p * PAGE, q * PAGE).sameBank == SweptAnswer(truth, universe, reps, p, q)
  {
    TruthfulRowsGiveTruthfulEdges(truth, runs, rows, freshest, edges, universe, reps);
    SweepRowsGiveSweepEdges(truth, runs, rows, freshest, edges, reps);
    SweptPagesAnswerExactly(truth, edges, universe, reps, p, q);
    PageStartAnswer(tab, true, edges, universe, p, q);
  }
}
