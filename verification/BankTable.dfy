// Bank, row and page classes over measured edges, their consistency gates and
// the relation answers built on them
// (tools/g3_probe/build_bank_table.py, tools/g3_probe/query_table.py).
module BankTable {
  import opened Closure
  import opened Edges
  import opened Sorting
  import opened UnionFinds

  type EdgeList = seq<Edge>

  // ---- which pairs each union-find is fed ---------------------------------

  function Nodes(edges: EdgeList): set<nat> {
    (set e | e in edges && e.cls != Mid :: e.a) + (set e | e in edges && e.cls != Mid :: e.b)
  }

  function BankPairs(edges: EdgeList): (pairs: Pairs)
    ensures forall a: nat, b: nat :: (a, b) in pairs <==> Edge(a, b, Deep) in edges
  {
    if edges == [] then []
    else
      var rest := BankPairs(edges[..|edges| - 1]);
      var e := edges[|edges| - 1];
      assert edges == edges[..|edges| - 1] + [e];
      if e.cls == Deep then rest + [(e.a, e.b)] else rest
  }

  ghost function RowPairs(banks: Pairs, edges: EdgeList): (pairs: Pairs)
    ensures forall a: nat, b: nat :: (a, b) in pairs <==> Edge(a, b, Low) in edges && Linked(banks, a, b)
  {
    if edges == [] then []
    else
      var rest := RowPairs(banks, edges[..|edges| - 1]);
      var e := edges[|edges| - 1];
      assert edges == edges[..|edges| - 1] + [e];
      if e.cls == Low && Linked(banks, e.a, e.b) then rest + [(e.a, e.b)] else rest
  }

  // The page graph runs on cross-page deep edges, and historically on
  // cross-page shoulders too.
  predicate JoinsPages(deepOnly: bool, e: Edge) {
    (e.cls == Deep || (!deepOnly && e.cls == Shoulder)) && PageNo(e.a) != PageNo(e.b)
  }

  function PagePairs(deepOnly: bool, edges: EdgeList): (pairs: Pairs)
    ensures forall p: nat, q: nat :: (p, q) in pairs <==>
              exists e :: e in edges && JoinsPages(deepOnly, e) && p == PageNo(e.a) && q == PageNo(e.b)
  {
    if edges == [] then []
    else
      var rest := PagePairs(deepOnly, edges[..|edges| - 1]);
      var e := edges[|edges| - 1];
      assert edges == edges[..|edges| - 1] + [e];
      if JoinsPages(deepOnly, e) then rest + [(PageNo(e.a), PageNo(e.b))] else rest
  }

  function LinkedPages(deepOnly: bool, edges: EdgeList): set<nat> {
    (set e | e in edges && JoinsPages(deepOnly, e) :: PageNo(e.a)) +
    (set e | e in edges && JoinsPages(deepOnly, e) :: PageNo(e.b))
  }

  // ---- the relations the table stores -------------------------------------

  ghost predicate SameBankClass(edges: EdgeList, a: nat, b: nat) {
    Linked(BankPairs(edges), a, b)
  }

  ghost predicate SameRowClass(edges: EdgeList, a: nat, b: nat) {
    Linked(RowPairs(BankPairs(edges), edges), a, b)
  }

  ghost predicate SameComponent(deepOnly: bool, edges: EdgeList, p: nat, q: nat) {
    Linked(PagePairs(deepOnly, edges), p, q)
  }

  // ---- build ---------------------------------------------------------------

  method Build(edges: EdgeList, deepOnly: bool) returns (bank: UnionFind, row: UnionFind, page: UnionFind)
    ensures fresh(bank) && fresh(row) && fresh(page) && bank != row && bank != page && row != page
    ensures bank.Valid() && bank.items == Nodes(edges) && bank.united == BankPairs(edges)
    ensures row.Valid() && row.items == Nodes(edges) && row.united == RowPairs(BankPairs(edges), edges)
    ensures page.Valid() && page.items == LinkedPages(deepOnly, edges) && page.united == PagePairs(deepOnly, edges)
  {
    var nodes := Nodes(edges);
    bank := BuildBanks(edges, nodes);
    row := BuildRows(edges, nodes, bank);
    page := BuildPages(edges, deepOnly);
  }

  method BuildBanks(edges: EdgeList, nodes: set<nat>) returns (bank: UnionFind)
    requires nodes == Nodes(edges)
    ensures fresh(bank) && bank.Valid() && bank.items == nodes && bank.united == BankPairs(edges)
  {
    bank := new UnionFind(nodes);
    for i := 0 to |edges|
      invariant fresh(bank) && bank.Valid() && bank.items == nodes
      invariant bank.united == BankPairs(edges[..i])
    {
      var e := edges[i];
      assert edges[..i + 1][..i] == edges[..i];
      if e.cls == Deep {
        assert e.a in nodes && e.b in nodes;
        bank.Union(e.a, e.b);
      }
    }
    assert edges[..|edges|] == edges;
  }

  method BuildRows(edges: EdgeList, nodes: set<nat>, bank: UnionFind) returns (row: UnionFind)
    requires nodes == Nodes(edges)
    requires bank.Valid() && bank.items == nodes
    modifies bank
    ensures bank.Valid() && bank.items == old(bank.items) && bank.united == old(bank.united)
    ensures fresh(row) && row.Valid() && row.items == nodes && row.united == RowPairs(bank.united, edges)
  {
    row := new UnionFind(nodes);
    for i := 0 to |edges|
      invariant fresh(row) && row.Valid() && row.items == nodes
      invariant bank.Valid() && bank.items == nodes && bank.united == old(bank.united)
      invariant row.united == RowPairs(bank.united, edges[..i])
    {
      RowPairsStep(bank.united, edges, i);
      JoinRow(edges[i], bank, row);
    }
    assert edges[..|edges|] == edges;
  }

  lemma RowPairsStep(banks: Pairs, edges: EdgeList, i: nat)
    requires i < |edges|
    ensures edges[i].cls == Low ==> edges[i].a in Nodes(edges) && edges[i].b in Nodes(edges)
    ensures var e, before := edges[i], RowPairs(banks, edges[..i]);
            RowPairs(banks, edges[..i + 1]) ==
              if e.cls == Low && Linked(banks, e.a, e.b) then before + [(e.a, e.b)] else before
  {
    assert edges[..i + 1][..i] == edges[..i];
  }

  // A low edge joins a row class only inside one bank class.
  method JoinRow(e: Edge, bank: UnionFind, row: UnionFind)
    requires bank != row && bank.Valid() && row.Valid() && row.items == bank.items
    requires e.cls == Low ==> e.a in bank.items && e.b in bank.items
    modifies bank, row
    ensures bank.Valid() && bank.items == old(bank.items) && bank.united == old(bank.united)
    ensures row.Valid() && row.items == old(row.items)
    ensures row.united == if e.cls == Low && Linked(bank.united, e.a, e.b)
                          then old(row.united) + [(e.a, e.b)] else old(row.united)
  {
    if e.cls == Low {
      var same := bank.SameClass(e.a, e.b);
      if same {
        row.Union(e.a, e.b);
      }
    }
  }

  method BuildPages(edges: EdgeList, deepOnly: bool) returns (page: UnionFind)
    ensures fresh(page) && page.Valid() && page.items == LinkedPages(deepOnly, edges)
    ensures page.united == PagePairs(deepOnly, edges)
  {
    var pages := LinkedPages(deepOnly, edges);
    page := new UnionFind(pages);
    for i := 0 to |edges|
      invariant fresh(page) && page.Valid() && page.items == pages
      invariant page.united == PagePairs(deepOnly, edges[..i])
    {
      var e := edges[i];
      assert edges[..i + 1][..i] == edges[..i];
      if JoinsPages(deepOnly, e) {
        assert PageNo(e.a) in pages && PageNo(e.b) in pages;
        page.Union(PageNo(e.a), PageNo(e.b));
      }
    }
    assert edges[..|edges|] == edges;
  }

  // ---- consistency gates ----------------------------------------------------

  ghost predicate C1(edges: EdgeList, e: Edge) {
    e.cls == Shoulder && SameBankClass(edges, e.a, e.b)
  }

  ghost predicate C2(edges: EdgeList, e: Edge) {
    e.cls == Deep && SameRowClass(edges, e.a, e.b)
  }

  ghost predicate C3(deepOnly: bool, edges: EdgeList, e: Edge) {
    && e.cls == Low && PageNo(e.a) != PageNo(e.b)
    && PageNo(e.a) in LinkedPages(deepOnly, edges) && PageNo(e.b) in LinkedPages(deepOnly, edges)
    && SameComponent(deepOnly, edges, PageNo(e.a), PageNo(e.b))
  }

  ghost predicate C4(edges: EdgeList, e: Edge) {
    e.cls == Low && PageNo(e.a) != PageNo(e.b) && SameBankClass(edges, e.a, e.b)
  }

  ghost function OnC1(edges: EdgeList): Edge -> bool { (e: Edge) => C1(edges, e) }
  ghost function OnC2(edges: EdgeList): Edge -> bool { (e: Edge) => C2(edges, e) }
  ghost function OnC3(deepOnly: bool, edges: EdgeList): Edge -> bool { (e: Edge) => C3(deepOnly, edges, e) }
  ghost function OnC4(edges: EdgeList): Edge -> bool { (e: Edge) => C4(edges, e) }

  // Page number to component root, as the page groups list it.
  ghost predicate IsComponentMap(linked: set<nat>, joins: Pairs, compOf: map<nat, nat>) {
    && compOf.Keys == linked
    && forall p, q {:trigger compOf[p], compOf[q]} | p in compOf && q in compOf ::
         compOf[p] == compOf[q] <==> Linked(joins, p, q)
  }

  method RootMap(uf: UnionFind) returns (root: map<nat, nat>)
    requires uf.Valid()
    modifies uf`parent
    ensures uf.Valid() && root == MergeAll(uf.items, uf.united)
  {
    root := map[];
    var todo := uf.parent.Keys;
    ghost var reps := uf.Reps();
    while todo != {}
      invariant uf.Valid() && uf.Reps() == reps
      invariant todo <= uf.items && root.Keys == uf.items - todo
      invariant forall p | p in root :: root[p] == reps[p]
      decreases todo
    {
      var p :| p in todo;
      var r := uf.Find(p);
      root := root[p := r];
      todo := todo - {p};
    }
    assert root == reps;
  }

  method Components(edges: EdgeList, deepOnly: bool, page: UnionFind) returns (compOf: map<nat, nat>)
    requires page.Valid() && page.items == LinkedPages(deepOnly, edges) && page.united == PagePairs(deepOnly, edges)
    modifies page`parent
    ensures page.Valid() && IsComponentMap(LinkedPages(deepOnly, edges), PagePairs(deepOnly, edges), compOf)
  {
    compOf := RootMap(page);
    forall p, q | p in compOf && q in compOf
      ensures compOf[p] == compOf[q] <==> Linked(page.united, p, q)
    {
      ClassesAreTheClosure(page.items, page.united, p, q);
    }
  }

  method Contradictions(edges: EdgeList, deepOnly: bool, bank: UnionFind, row: UnionFind, compOf: map<nat, nat>)
    returns (c1: seq<Edge>, c2: seq<Edge>, c3: seq<Edge>, c4: seq<Edge>)
    requires bank != row && IsComponentMap(LinkedPages(deepOnly, edges), PagePairs(deepOnly, edges), compOf)
    requires bank.Valid() && bank.items == Nodes(edges) && bank.united == BankPairs(edges)
    requires row.Valid() && row.items == Nodes(edges) && row.united == RowPairs(BankPairs(edges), edges)
    modifies bank`parent, row`parent
    ensures c1 == Filter(OnC1(edges), edges) && c2 == Filter(OnC2(edges), edges)
    ensures c3 == Filter(OnC3(deepOnly, edges), edges) && c4 == Filter(OnC4(edges), edges)
  {
    c1, c2, c3, c4 := [], [], [], [];
    for i := 0 to |edges|
      invariant bank.Valid() && row.Valid()
      invariant GatesListed(deepOnly, edges, i, c1, c2, c3, c4)
    {
      var e := edges[i];
      var h1, h2, h3, h4 := Gates(edges, deepOnly, e, bank, row, compOf);
      ListGates(deepOnly, edges, i, c1, c2, c3, c4, h1, h2, h3, h4);
      c1 := if h1 then c1 + [e] else c1;
      c2 := if h2 then c2 + [e] else c2;
      c3 := if h3 then c3 + [e] else c3;
      c4 := if h4 then c4 + [e] else c4;
    }
    assert edges[..|edges|] == edges;
  }

  // The four lists over the first n edges.
  ghost predicate GatesListed(deepOnly: bool, edges: EdgeList, n: nat,
                              c1: seq<Edge>, c2: seq<Edge>, c3: seq<Edge>, c4: seq<Edge>)
    requires n <= |edges|
  {
    && c1 == Filter(OnC1(edges), edges[..n]) && c2 == Filter(OnC2(edges), edges[..n])
    && c3 == Filter(OnC3(deepOnly, edges), edges[..n]) && c4 == Filter(OnC4(edges), edges[..n])
  }

  lemma ListGates(deepOnly: bool, edges: EdgeList, i: nat, c1: seq<Edge>, c2: seq<Edge>, c3: seq<Edge>, c4: seq<Edge>,
                  h1: bool, h2: bool, h3: bool, h4: bool)
    requires i < |edges| && GatesListed(deepOnly, edges, i, c1, c2, c3, c4)
    requires h1 <==> OnC1(edges)(edges[i])
    requires h2 <==> OnC2(edges)(edges[i])
    requires h3 <==> OnC3(deepOnly, edges)(edges[i])
    requires h4 <==> OnC4(edges)(edges[i])
    ensures var e := edges[i];
            GatesListed(deepOnly, edges, i + 1, if h1 then c1 + [e] else c1, if h2 then c2 + [e] else c2,
                        if h3 then c3 + [e] else c3, if h4 then c4 + [e] else c4)
  {
    FilterStep(OnC1(edges), edges, i);
    FilterStep(OnC2(edges), edges, i);
    FilterStep(OnC3(deepOnly, edges), edges, i);
    FilterStep(OnC4(edges), edges, i);
  }

  method Gates(edges: EdgeList, deepOnly: bool, e: Edge, bank: UnionFind, row: UnionFind, compOf: map<nat, nat>)
    returns (h1: bool, h2: bool, h3: bool, h4: bool)
    requires e in edges && bank != row
             && IsComponentMap(LinkedPages(deepOnly, edges), PagePairs(deepOnly, edges), compOf)
    requires bank.Valid() && bank.items == Nodes(edges) && bank.united == BankPairs(edges)
    requires row.Valid() && row.items == Nodes(edges) && row.united == RowPairs(BankPairs(edges), edges)
    modifies bank`parent, row`parent
    ensures bank.Valid() && row.Valid()
    ensures h1 <==> C1(edges, e)
    ensures h2 <==> C2(edges, e)
    ensures h3 <==> C3(deepOnly, edges, e)
    ensures h4 <==> C4(edges, e)
  {
    h1, h2, h3, h4 := false, false, false, false;
    if e.cls == Shoulder {
      h1 := bank.SameClass(e.a, e.b);
    }
    if e.cls == Deep {
      h2 := row.SameClass(e.a, e.b);
    }
    if e.cls == Low && PageNo(e.a) != PageNo(e.b) {
      h3 := PageNo(e.a) in compOf && PageNo(e.b) in compOf && compOf[PageNo(e.a)] == compOf[PageNo(e.b)];
      h4 := bank.SameClass(e.a, e.b);
    }
  }

  // ---- what holds of the classes for any labels -----------------------------

  lemma RowClassesRefineBankClasses(edges: EdgeList, a: nat, b: nat)
    requires SameRowClass(edges, a, b)
    ensures SameBankClass(edges, a, b)
  {
    var banks := BankPairs(edges);
    var rows := RowPairs(banks, edges);
    ghost var f := (x: nat) => Linked(banks, a, x);
    forall k | 0 <= k < |rows| ensures f(rows[k].0) == f(rows[k].1) {
      assert (rows[k].0, rows[k].1) in rows;
      StepEither(banks, a, rows[k].0, rows[k].1);
    }
    LinkedKeeps(rows, a, b, f);
    LinkedRefl(banks, a);
  }

  lemma StepEither(pairs: Pairs, a: nat, x: nat, y: nat)
    requires Linked(pairs, x, y)
    ensures Linked(pairs, a, x) <==> Linked(pairs, a, y)
  {
    LinkedSym(pairs, x, y);
    if Linked(pairs, a, x) {
      LinkedTrans(pairs, a, x, y);
    }
    if Linked(pairs, a, y) {
      LinkedTrans(pairs, a, y, x);
    }
  }

  // A bank class spans pages only through page components.
  lemma BankClassesStayInComponents(deepOnly: bool, edges: EdgeList, a: nat, b: nat)
    requires SameBankClass(edges, a, b)
    ensures SameComponent(deepOnly, edges, PageNo(a), PageNo(b))
  {
    var banks, pages := BankPairs(edges), PagePairs(deepOnly, edges);
    ghost var f := (x: nat) => Linked(pages, PageNo(a), PageNo(x));
    forall k | 0 <= k < |banks| ensures f(banks[k].0) == f(banks[k].1) {
      var x, y := banks[k].0, banks[k].1;
      assert (x, y) in banks;
      if PageNo(x) != PageNo(y) {
        assert JoinsPages(deepOnly, Edge(x, y, Deep));
        LinkedPair(pages, PageNo(x), PageNo(y));
        StepEither(pages, PageNo(a), PageNo(x), PageNo(y));
      }
    }
    LinkedKeeps(banks, a, b, f);
    LinkedRefl(pages, PageNo(a));
  }

  lemma ComponentMembersAreLinked(deepOnly: bool, edges: EdgeList, p: nat, q: nat)
    requires SameComponent(deepOnly, edges, p, q) && p != q
    ensures p in LinkedPages(deepOnly, edges) && q in LinkedPages(deepOnly, edges)
  {
    var pages := PagePairs(deepOnly, edges);
    LinkedSym(pages, p, q);
    var p1 := LinkedElsewhere(pages, p, q);
    var q1 := LinkedElsewhere(pages, q, p);
  }

  // Every C4 edge is a C3 edge, whatever the labels say.
  lemma EveryC4IsC3(deepOnly: bool, edges: EdgeList, e: Edge)
    requires C4(edges, e)
    ensures C3(deepOnly, edges, e)
  {
    BankClassesStayInComponents(deepOnly, edges, e.a, e.b);
    ComponentMembersAreLinked(deepOnly, edges, PageNo(e.a), PageNo(e.b));
  }

  // ---- what truthful labels add ----------------------------------------------

  ghost predicate TruthfulEdges(truth: Truth, edges: EdgeList) {
    forall e | e in edges :: truth.Admits(e.cls, e.a, e.b)
  }

  lemma BankClassesAreSound(truth: Truth, edges: EdgeList, a: nat, b: nat)
    requires TruthfulEdges(truth, edges) && SameBankClass(edges, a, b)
    ensures truth.bank(a) == truth.bank(b)
  {
    var banks := BankPairs(edges);
    forall k | 0 <= k < |banks| ensures truth.bank(banks[k].0) == truth.bank(banks[k].1) {
      assert (banks[k].0, banks[k].1) in banks;
      assert truth.Admits(Deep, banks[k].0, banks[k].1);
    }
    LinkedKeeps(banks, a, b, truth.bank);
  }

  lemma RowClassesAreSound(truth: Truth, edges: EdgeList, a: nat, b: nat)
    requires TruthfulEdges(truth, edges) && SameRowClass(edges, a, b)
    ensures truth.bank(a) == truth.bank(b) && truth.row(a) == truth.row(b)
  {
    var banks := BankPairs(edges);
    var rows := RowPairs(banks, edges);
    forall k | 0 <= k < |rows| ensures truth.row(rows[k].0) == truth.row(rows[k].1) {
      var x, y := rows[k].0, rows[k].1;
      assert (x, y) in rows;
      BankClassesAreSound(truth, edges, x, y);
      assert truth.Admits(Low, x, y);
    }
    LinkedKeeps(rows, a, b, truth.row);
    RowClassesRefineBankClasses(edges, a, b);
    BankClassesAreSound(truth, edges, a, b);
  }

  // Truthful labels trip none of the gates C1, C2 and C4.
  lemma TruthfulTableHasNoContradiction(truth: Truth, edges: EdgeList, e: Edge)
    requires TruthfulEdges(truth, edges) && truth.PagesNeverShareARow() && e in edges
    ensures !C1(edges, e) && !C2(edges, e) && !C4(edges, e)
  {
    if SameBankClass(edges, e.a, e.b) {
      BankClassesAreSound(truth, edges, e.a, e.b);
    }
    if SameRowClass(edges, e.a, e.b) {
      RowClassesAreSound(truth, edges, e.a, e.b);
    }
  }

  // ---- page components against true banks -------------------------------------

  // Every edge the deep-only page graph uses was measured at page starts.
  ghost predicate CrossEdgesAtPageStarts(edges: EdgeList) {
    forall e | e in edges && JoinsPages(true, e) :: e.a == PageNo(e.a) * PAGE && e.b == PageNo(e.b) * PAGE
  }

  // The classify sweep: every page against every representative, decided.
  ghost predicate CompleteSweep(pages: set<nat>, reps: set<nat>, edges: EdgeList) {
    forall p, r | p in pages && r in reps && p != r :: MeasuredPair(edges, p, r)
  }

  ghost predicate MeasuredPair(edges: EdgeList, p: nat, r: nat) {
    exists e :: e in edges && e.cls != Mid
                && (e.a, e.b) in [(p * PAGE, r * PAGE), (r * PAGE, p * PAGE)]
  }

  ghost function PageBank(truth: Truth, p: nat): nat {
    truth.bank(p * PAGE)
  }

  lemma ComponentsAreSound(truth: Truth, edges: EdgeList, p: nat, q: nat)
    requires TruthfulEdges(truth, edges) && CrossEdgesAtPageStarts(edges)
    requires SameComponent(true, edges, p, q)
    ensures PageBank(truth, p) == PageBank(truth, q)
  {
    var pages := PagePairs(true, edges);
    forall k | 0 <= k < |pages| ensures PageBank(truth, pages[k].0) == PageBank(truth, pages[k].1) {
      assert (pages[k].0, pages[k].1) in pages;
      var e :| e in edges && JoinsPages(true, e) && pages[k].0 == PageNo(e.a) && pages[k].1 == PageNo(e.b);
      assert truth.Admits(e.cls, e.a, e.b);
    }
    LinkedKeeps(pages, p, q, (x: nat) => PageBank(truth, x));
  }

  // A decided measurement at the starts of two pages of one bank joins them.
  lemma MeasuredPairsJoin(truth: Truth, edges: EdgeList, p: nat, r: nat)
    requires TruthfulEdges(truth, edges) && truth.PagesNeverShareARow()
    requires MeasuredPair(edges, p, r) && p != r && PageBank(truth, p) == PageBank(truth, r)
    ensures SameComponent(true, edges, p, r)
  {
    var e :| e in edges && e.cls != Mid && (e.a, e.b) in [(p * PAGE, r * PAGE), (r * PAGE, p * PAGE)];
    PageOfBase(p);
    PageOfBase(r);
    assert truth.row(p * PAGE) != truth.row(r * PAGE);
    assert truth.Admits(e.cls, e.a, e.b);
    assert JoinsPages(true, e);
    var pages := PagePairs(true, edges);
    assert (PageNo(e.a), PageNo(e.b)) in pages;
    LinkedPair(pages, p, r);
  }

  lemma PageOfBase(p: nat)
    ensures PageNo(p * PAGE) == p
  {
  }

  // Some page of p's component is a representative.
  ghost predicate HasRep(edges: EdgeList, reps: set<nat>, p: nat) {
    exists r :: r in reps && SameComponent(true, edges, p, r)
  }

  // Some representative lies in the bank of p.
  ghost predicate BankHasRep(truth: Truth, reps: set<nat>, p: nat) {
    exists r :: r in reps && PageBank(truth, r) == PageBank(truth, p)
  }

  // A page's component holds a representative exactly when its bank has one.
  lemma HasRepExactly(truth: Truth, edges: EdgeList, pages: set<nat>, reps: set<nat>, p: nat)
    requires TruthfulEdges(truth, edges) && truth.PagesNeverShareARow()
    requires CrossEdgesAtPageStarts(edges) && CompleteSweep(pages, reps, edges) && p in pages
    ensures HasRep(edges, reps, p) <==> BankHasRep(truth, reps, p)
  {
    if r :| r in reps && SameComponent(true, edges, p, r) {
      ComponentsAreSound(truth, edges, p, r);
    }
    if r :| r in reps && PageBank(truth, r) == PageBank(truth, p) {
      if r == p {
        LinkedRefl(PagePairs(true, edges), p);
      } else {
        MeasuredPairsJoin(truth, edges, p, r);
      }
    }
  }

  // Component exactness: with a complete truthful sweep, pages of one component
  // share a bank, and pages of a bank with a representative one component.
  lemma ComponentsAreExact(truth: Truth, edges: EdgeList, pages: set<nat>, reps: set<nat>, p: nat, q: nat)
    requires TruthfulEdges(truth, edges) && truth.PagesNeverShareARow()
    requires CrossEdgesAtPageStarts(edges) && CompleteSweep(pages, reps, edges)
    requires p in pages && q in pages
    ensures SameComponent(true, edges, p, q) ==> PageBank(truth, p) == PageBank(truth, q)
    ensures PageBank(truth, p) == PageBank(truth, q) && BankHasRep(truth, reps, p) ==> SameComponent(true, edges, p, q)
  {
    if SameComponent(true, edges, p, q) {
      ComponentsAreSound(truth, edges, p, q);
    } else if PageBank(truth, p) == PageBank(truth, q) && BankHasRep(truth, reps, p) {
      HasRepExactly(truth, edges, pages, reps, p);
      var r :| r in reps && SameComponent(true, edges, p, r);
      ComponentsAreSound(truth, edges, p, r);
      MeasuredPairsJoin(truth, edges, q, r);
      LinkedSym(PagePairs(true, edges), q, r);
      LinkedTrans(PagePairs(true, edges), p, r, q);
    }
  }

  // When the page graph is built from sweep edges alone, every linked page's
  // component holds a representative.
  lemma SweepEdgesReachReps(edges: EdgeList, reps: set<nat>, p: nat)
    requires p in LinkedPages(true, edges)
    requires forall e | e in edges && JoinsPages(true, e) :: PageNo(e.a) in reps || PageNo(e.b) in reps
    ensures HasRep(edges, reps, p)
  {
    var pages := PagePairs(true, edges);
    var e :| e in edges && JoinsPages(true, e) && p in {PageNo(e.a), PageNo(e.b)};
    var other := if p == PageNo(e.a) then PageNo(e.b) else PageNo(e.a);
    assert (PageNo(e.a), PageNo(e.b)) in pages;
    LinkedPair(pages, p, other);
    LinkedRefl(pages, p);
  }

  // Both side conditions matter. Off page starts, one true deep edge joins two
  // pages whose starts lie in different banks.
  lemma PageStartsAreNeeded() returns (truth: Truth, edges: EdgeList)
    ensures TruthfulEdges(truth, edges) && truth.PagesNeverShareARow() && !CrossEdgesAtPageStarts(edges)
    ensures SameComponent(true, edges, 0, 1) && PageBank(truth, 0) != PageBank(truth, 1)
  {
    truth := Truth((pa: nat) => if pa == 0 then 1 else 0, (pa: nat) => PageNo(pa));
    var e := Edge(1, PAGE, Deep);
    edges := [e];
    assert e in edges && JoinsPages(true, e);
    assert (0, 1) in PagePairs(true, edges);
    LinkedPair(PagePairs(true, edges), 0, 1);
  }

  // Pages 0 to 3 lie in one bank, page 4 in another; two deep pairs and the
  // sweep of all pages against page 4.
  ghost function SplitTruth(): Truth {
    Truth((pa: nat) => if PageNo(pa) == 4 then 1 else 0, (pa: nat) => PageNo(pa))
  }

  ghost function SplitEdges(): EdgeList {
    [Edge(0, PAGE, Deep), Edge(2 * PAGE, 3 * PAGE, Deep), Edge(0, 4 * PAGE, Low), Edge(PAGE, 4 * PAGE, Low),
     Edge(2 * PAGE, 4 * PAGE, Low), Edge(3 * PAGE, 4 * PAGE, Low)]
  }

  lemma SplitIsTruthful()
    ensures TruthfulEdges(SplitTruth(), SplitEdges()) && SplitTruth().PagesNeverShareARow()
  {
    var truth, edges := SplitTruth(), SplitEdges();
    forall e | e in edges ensures truth.Admits(e.cls, e.a, e.b) {
      var k :| 0 <= k < |edges| && edges[k] == e;
    }
  }

  lemma SplitIsSwept()
    ensures CrossEdgesAtPageStarts(SplitEdges()) && CompleteSweep({0, 1, 2, 3, 4}, {4}, SplitEdges())
  {
    var edges := SplitEdges();
    forall e | e in edges && JoinsPages(true, e) ensures e.a == PageNo(e.a) * PAGE && e.b == PageNo(e.b) * PAGE {
      var k :| 0 <= k < |edges| && edges[k] == e;
    }
    forall p, r | p in {0, 1, 2, 3, 4} && r in {4} && p != r ensures MeasuredPair(edges, p, r) {
      var e := edges[p + 2];
      assert e in edges && (e.a, e.b) == (p * PAGE, r * PAGE);
    }
  }

  // Without a representative in its bank, a bank can split into two
  // components.
  lemma RepsAreNeeded() returns (truth: Truth, edges: EdgeList)
    ensures TruthfulEdges(truth, edges) && truth.PagesNeverShareARow()
    ensures CrossEdgesAtPageStarts(edges) && CompleteSweep({0, 1, 2, 3, 4}, {4}, edges)
    ensures 0 in LinkedPages(true, edges) && 2 in LinkedPages(true, edges)
    ensures PageBank(truth, 0) == PageBank(truth, 2) && !SameComponent(true, edges, 0, 2)
  {
    truth, edges := SplitTruth(), SplitEdges();
    SplitIsTruthful();
    SplitIsSwept();
    assert edges[0] in edges && JoinsPages(true, edges[0]) && edges[1] in edges && JoinsPages(true, edges[1]);
    if SameComponent(true, edges, 0, 2) {
      var pages := PagePairs(true, edges);
      forall k | 0 <= k < |pages| ensures (pages[k].0 < 2) == (pages[k].1 < 2) {
        assert (pages[k].0, pages[k].1) in pages;
      }
      LinkedKeeps(pages, 0, 2, (x: nat) => x < 2);
    }
  }
}
