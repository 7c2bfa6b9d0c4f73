// The table as written by build_bank_table.py and read by query_table.py, and
// the relation answers given from it.
module Relation {
  import opened Outcomes
  import opened BankTable
  import opened Bits
  import opened Closure
  import opened EdgeFold
  import opened Edges
  import opened Sorting
  import opened UnionFinds

  datatype NodeRow = NodeRow(bankClass: nat, bankSize: nat, rowClass: nat, rowSize: nat)

  // pages: page base to component root, None for an unlinked page.
  // anchors: page base to its consensus-valid anchor masks.
  datatype Table = Table(pages: map<nat, Option<nat>>, nodes: map<nat, NodeRow>, anchors: map<nat, set<nat>>)

  datatype Tri = Yes | No | Unknown
  datatype RowRelation = SameRow | OtherRow | UnknownRow
  datatype Provenance = Unclaimed | Measured | Transitive | MeasuredContradicted

  datatype Answer = Answer(sameBank: Tri, row: RowRelation, columnDiffers: bool,
                           bankFrom: Provenance, rowFrom: Provenance)

  // The one reproducible pair whose row-class inference was measured wrong.
  predicate KnownFalsifier(a: nat, b: nat) {
    (a, b) == (0x2aed3880, 0x2aed7b00) || (a, b) == (0x2aed7b00, 0x2aed3880)
  }

  // ---- anchor consensus (`build_anchors`) -----------------------------------

  // One swept cell: page base, candidate mask and the label one run gave.
  datatype Cell = Cell(page: nat, mask: nat, cls: Label)

  function Seen(cells: seq<Cell>, page: nat, mask: nat): seq<Label> {
    if cells == [] then []
    else
      var c := cells[|cells| - 1];
      var rest := Seen(cells[..|cells| - 1], page, mask);
      if c.page == page && c.mask == mask then rest + [c.cls] else rest
  }

  function DeepVotes(labels: seq<Label>): (n: nat)
    ensures n > 0 ==> Deep in labels
  {
    if labels == [] then 0
    else DeepVotes(labels[1..]) + if labels[0] == Deep then 1 else 0
  }

  predicate Consensus(labels: seq<Label>) {
    2 * DeepVotes(labels) > |labels|
  }

  ghost predicate AnchorsFrom(cells: seq<Cell>, anchors: map<nat, set<nat>>) {
    forall page: nat, mask: nat ::
      (page in anchors && mask in anchors[page]) <==> Consensus(Seen(cells, page, mask))
  }

  method BuildAnchors(cells: seq<Cell>) returns (anchors: map<nat, set<nat>>)
    ensures AnchorsFrom(cells, anchors)
  {
    var seen: map<(nat, nat), seq<Label>> := map[];
    for i := 0 to |cells|
      invariant forall page: nat, mask: nat ::
                  Seen(cells[..i], page, mask) == if (page, mask) in seen then seen[(page, mask)] else []
    {
      var c := cells[i];
      assert cells[..i + 1][..i] == cells[..i];
      var key := (c.page, c.mask);
      seen := seen[key := (if key in seen then seen[key] else []) + [c.cls]];
    }
    assert cells[..|cells|] == cells;
    anchors := map[];
    var todo := seen.Keys;
    while todo != {}
      invariant todo <= seen.Keys
      invariant forall page: nat, mask: nat :: (page in anchors && mask in anchors[page]) <==>
                  (page, mask) in seen.Keys - todo && Consensus(seen[(page, mask)])
      decreases todo
    {
      var key: (nat, nat) :| key in todo;
      if Consensus(seen[key]) {
        anchors := anchors[key.0 := (if key.0 in anchors then anchors[key.0] else {}) + {key.1}];
      }
      todo := todo - {key};
    }
  }

  ghost predicate TruthfulCells(truth: Truth, cells: seq<Cell>) {
    forall c | c in cells :: truth.Admits(c.cls, c.page, c.page + c.mask)
  }

  lemma {:induction false} SeenIsMeasured(cells: seq<Cell>, page: nat, mask: nat, cls: Label)
    requires cls in Seen(cells, page, mask)
    ensures Cell(page, mask, cls) in cells
  {
    var init, c := cells[..|cells| - 1], cells[|cells| - 1];
    if !(c.page == page && c.mask == mask && c.cls == cls) {
      SeenIsMeasured(init, page, mask, cls);
    }
  }

  lemma AnchorsConflict(truth: Truth, cells: seq<Cell>, anchors: map<nat, set<nat>>, page: nat, mask: nat)
    requires TruthfulCells(truth, cells) && AnchorsFrom(cells, anchors)
    requires page in anchors && mask in anchors[page]
    ensures truth.Conflict(page, page + mask)
  {
    assert Consensus(Seen(cells, page, mask));
    SeenIsMeasured(cells, page, mask, Deep);
    assert truth.Admits(Deep, page, page + mask);
  }

  // ---- relation answers ------------------------------------------------------

  function AnchorTry(tab: Table, base: nat, other: nat): Option<nat> {
    if PageBase(base) != PageBase(other) || base != PageBase(base) then None
    else if base in tab.anchors && Xor(other, base) in tab.anchors[base] then Some(Xor(other, base))
    else None
  }

  function AnchorMask(tab: Table, a: nat, b: nat): Option<nat> {
    if AnchorTry(tab, a, b).Some? then AnchorTry(tab, a, b) else AnchorTry(tab, b, a)
  }

  predicate KnownSameRow(tab: Table, a: nat, b: nat) {
    && a in tab.nodes && b in tab.nodes
    && tab.nodes[a].rowClass == tab.nodes[b].rowClass && tab.nodes[a].rowSize >= 2
  }

  predicate KnownSameBank(tab: Table, a: nat, b: nat) {
    && a in tab.nodes && b in tab.nodes
    && tab.nodes[a].bankClass == tab.nodes[b].bankClass && tab.nodes[a].bankSize >= 2
  }

  function RelateInPage(tab: Table, a: nat, b: nat): Answer {
    if KnownSameRow(tab, a, b) then
      Answer(Yes, SameRow, true, Measured, if KnownFalsifier(a, b) then MeasuredContradicted else Measured)
    else if AnchorMask(tab, a, b).Some? then
      Answer(Yes, OtherRow, false, Measured, Measured)
    else if KnownSameBank(tab, a, b) then
      Answer(Yes, UnknownRow, false, Transitive, Unclaimed)
    else
      Answer(Unknown, UnknownRow, false, Unclaimed, Unclaimed)
  }

  function RelatePages(pages: map<nat, Option<nat>>, base: nat, other: nat): Answer {
    if base !in pages || other !in pages then
      Answer(Unknown, UnknownRow, false, Unclaimed, Unclaimed)
    else if pages[base].None? || pages[other].None? then
      Answer(Unknown, UnknownRow, false, Unclaimed, Unclaimed)
    else if pages[base] == pages[other] then
      Answer(Yes, OtherRow, false, Transitive, Measured)
    else
      Answer(No, UnknownRow, false, Measured, Unclaimed)
  }

  function Relate(tab: Table, a: nat, b: nat): Answer {
    if PageBase(a) == PageBase(b) then RelateInPage(tab, a, b)
    else RelatePages(tab.pages, PageBase(a), PageBase(b))
  }

  // The table a build run writes over a pool of pages.
  ghost predicate TableOf(tab: Table, deepOnly: bool, edges: EdgeList, universe: set<nat>) {
    && PagesOver(tab.pages, universe, LinkedPages(deepOnly, edges), PagePairs(deepOnly, edges))
    && NodesOver(tab.nodes, Nodes(edges), BankPairs(edges), RowPairs(BankPairs(edges), edges))
  }

  // One entry per page of the universe, naming its component if it is linked.
  ghost predicate PagesOver(pages: map<nat, Option<nat>>, universe: set<nat>, linked: set<nat>, joins: Pairs) {
    && (forall base: nat :: base in pages <==> base % PAGE == 0 && PageNo(base) in universe)
    && (forall base {:trigger pages[base]} | base in pages :: pages[base].Some? <==> PageNo(base) in linked)
    && (forall a, b {:trigger pages[a], pages[b]} | a in pages && b in pages && pages[a].Some? && pages[b].Some? ::
          pages[a] == pages[b] <==> Linked(joins, PageNo(a), PageNo(b)))
  }

  // Some other item shares the class of `a`.
  ghost predicate HasPeer(items: set<nat>, united: Pairs, a: nat) {
    exists b :: b in items && b != a && Linked(united, a, b)
  }

  // Class name and class size of every item of a union-find.
  ghost predicate ClassesOf(items: set<nat>, united: Pairs, root: map<nat, nat>, size: map<nat, nat>) {
    && root.Keys == items && size.Keys == items
    && (forall a, b {:trigger root[a], root[b]} | a in root && b in root ::
          root[a] == root[b] <==> Linked(united, a, b))
    && (forall a {:trigger size[a]} | a in size :: size[a] >= 2 <==> HasPeer(items, united, a))
  }

  ghost predicate NodesOver(nodes: map<nat, NodeRow>, items: set<nat>, banks: Pairs, rows: Pairs) {
    && nodes.Keys == items
    && (forall a, b {:trigger nodes[a], nodes[b]} | a in nodes && b in nodes ::
          && (nodes[a].bankClass == nodes[b].bankClass <==> Linked(banks, a, b))
          && (nodes[a].rowClass == nodes[b].rowClass <==> Linked(rows, a, b)))
    && (forall a {:trigger nodes[a]} | a in nodes ::
          && (nodes[a].bankSize >= 2 <==> HasPeer(items, banks, a))
          && (nodes[a].rowSize >= 2 <==> HasPeer(items, rows, a)))
  }

  // In-page answers are sound wherever the addresses lie.
  lemma InPageAnswersAreSound(truth: Truth, tab: Table, deepOnly: bool, edges: EdgeList, universe: set<nat>,
                              cells: seq<Cell>, a: nat, b: nat)
    requires TableOf(tab, deepOnly, edges, universe) && TruthfulEdges(truth, edges)
    requires AnchorsFrom(cells, tab.anchors) && TruthfulCells(truth, cells)
    requires PageBase(a) == PageBase(b)
    ensures var r := Relate(tab, a, b);
            && r.sameBank != No
            && (r.sameBank == Yes ==> truth.bank(a) == truth.bank(b))
            && (r.row == SameRow ==> truth.row(a) == truth.row(b))
            && (r.row == OtherRow ==> truth.row(a) != truth.row(b))
  {
    if KnownSameRow(tab, a, b) {
      RowClassesAreSound(truth, edges, a, b);
    } else if AnchorMask(tab, a, b).Some? {
      if AnchorTry(tab, a, b).Some? {
        AnchorTryConflicts(truth, tab, cells, a, b);
      } else {
        AnchorTryConflicts(truth, tab, cells, b, a);
      }
    } else if KnownSameBank(tab, a, b) {
      BankClassesAreSound(truth, edges, a, b);
    }
  }

  lemma PageIsPow2()
    ensures Pow2(21) == PAGE
  {
    assert Pow2(7) == 128;
    assert Pow2(14) == 16384;
  }

  lemma AnchorTryConflicts(truth: Truth, tab: Table, cells: seq<Cell>, base: nat, other: nat)
    requires AnchorsFrom(cells, tab.anchors) && TruthfulCells(truth, cells)
    requires AnchorTry(tab, base, other).Some?
    ensures truth.Conflict(base, other)
  {
    var low := other % PAGE;
    PageIsPow2();
    var hi := base / PAGE;
    assert base == hi * PAGE && other == hi * PAGE + low;
    XorAligned(21, hi, low);
    AnchorsConflict(truth, cells, tab.anchors, base, low);
  }

  // The column claim of a same-row answer is wrong exactly when the two
  // addresses are one address of a multi-member row class.
  lemma ColumnClaimFailsExactly(tab: Table, a: nat, b: nat)
    ensures Relate(tab, a, b).columnDiffers && a == b <==>
            a == b && a in tab.nodes && tab.nodes[a].rowSize >= 2
  {
  }

  // ---- writing the table (`analyze`) ------------------------------------------

  lemma ClassSize(items: set<nat>, united: Pairs, root: nat, members: seq<nat>, pa: nat)
    requires IsClassList(items, united, root, members) && pa in members
    ensures |members| >= 2 <==> HasPeer(items, united, pa)
  {
    LinkedSym(united, root, pa);
    if |members| >= 2 {
      var b := if members[0] == pa then members[1] else members[0];
      assert b in members;
      LinkedTrans(united, pa, root, b);
    }
    if b :| b in items && b != pa && Linked(united, pa, b) {
      LinkedTrans(united, root, pa, b);
      assert b in members;
    }
  }

  lemma RepsAndGroupsAreClasses(items: set<nat>, united: Pairs, groups: map<nat, seq<nat>>,
                                root: map<nat, nat>, size: map<nat, nat>)
    requires Over(items, united) && AreGroups(items, united, groups)
    requires root == MergeAll(items, united)
    requires size.Keys == items && forall a {:trigger size[a]} | a in size :: size[a] == GroupSize(groups, root[a])
    ensures ClassesOf(items, united, root, size)
  {
    forall a, b | a in root && b in root ensures root[a] == root[b] <==> Linked(united, a, b) {
      ClassesAreTheClosure(items, united, a, b);
    }
    forall a | a in size ensures size[a] >= 2 <==> HasPeer(items, united, a) {
      ClassSizeOf(items, united, groups, a);
    }
  }

  function GroupSize(groups: map<nat, seq<nat>>, root: nat): nat {
    if root in groups then |groups[root]| else 0
  }

  lemma ClassSizeOf(items: set<nat>, united: Pairs, groups: map<nat, seq<nat>>, a: nat)
    requires Over(items, united) && AreGroups(items, united, groups) && a in items
    ensures var root := MergeAll(items, united)[a];
            GroupSize(groups, root) >= 2 <==> HasPeer(items, united, a)
  {
    var root := MergeAll(items, united)[a];
    RepsAreFixed(items, united, a);
    ClassesAreTheClosure(items, united, root, a);
    ClassSize(items, united, root, groups[root], a);
  }

  method Classes(uf: UnionFind) returns (root: map<nat, nat>, size: map<nat, nat>)
    requires uf.Valid()
    modifies uf`parent
    ensures uf.Valid() && ClassesOf(uf.items, uf.united, root, size)
  {
    var groups := uf.Groups();
    root := RootMap(uf);
    size := map a | a in root :: GroupSize(groups, root[a]);
    RepsAndGroupsAreClasses(uf.items, uf.united, groups, root, size);
  }

  method WritePages(edges: EdgeList, deepOnly: bool, universe: set<nat>, page: UnionFind)
    returns (pages: map<nat, Option<nat>>)
    requires page.Valid() && page.items == LinkedPages(deepOnly, edges) && page.united == PagePairs(deepOnly, edges)
    modifies page`parent
    ensures PagesOver(pages, universe, LinkedPages(deepOnly, edges), PagePairs(deepOnly, edges))
  {
    var compOf := Components(edges, deepOnly, page);
    pages := PageRows(universe, compOf);
    PageRowsAreRight(universe, LinkedPages(deepOnly, edges), PagePairs(deepOnly, edges), compOf);
  }

  function PageRows(universe: set<nat>, compOf: map<nat, nat>): map<nat, Option<nat>> {
    map base | base in Bases(universe) :: if PageNo(base) in compOf then Some(compOf[PageNo(base)]) else None
  }

  lemma PageRowsAreRight(universe: set<nat>, linked: set<nat>, joins: Pairs, compOf: map<nat, nat>)
    requires IsComponentMap(linked, joins, compOf)
    ensures PagesOver(PageRows(universe, compOf), universe, linked, joins)
  {
    BasesOfUniverse(universe);
  }

  function Bases(universe: set<nat>): set<nat> {
    set p | p in universe :: p * PAGE
  }

  lemma BasesOfUniverse(universe: set<nat>)
    ensures forall base: nat :: base in Bases(universe) <==> base % PAGE == 0 && PageNo(base) in universe
  {
    forall base: nat ensures base in Bases(universe) <==> base % PAGE == 0 && PageNo(base) in universe {
      if base % PAGE == 0 && PageNo(base) in universe {
        assert base == PageNo(base) * PAGE;
      }
    }
  }

  method WriteNodes(edges: EdgeList, bank: UnionFind, row: UnionFind) returns (nodes: map<nat, NodeRow>)
    requires bank != row
    requires bank.Valid() && bank.items == Nodes(edges) && bank.united == BankPairs(edges)
    requires row.Valid() && row.items == Nodes(edges) && row.united == RowPairs(BankPairs(edges), edges)
    modifies bank`parent, row`parent
    ensures NodesOver(nodes, Nodes(edges), BankPairs(edges), RowPairs(BankPairs(edges), edges))
  {
    var bankRoot, bankSize := Classes(bank);
    var rowRoot, rowSize := Classes(row);
    ClassesMakeNodes(Nodes(edges), BankPairs(edges), RowPairs(BankPairs(edges), edges),
                     bankRoot, bankSize, rowRoot, rowSize);
    nodes := NodeRows(bankRoot, bankSize, rowRoot, rowSize);
  }

  function NodeRows(bankRoot: map<nat, nat>, bankSize: map<nat, nat>, rowRoot: map<nat, nat>, rowSize: map<nat, nat>)
    : map<nat, NodeRow>
    requires bankRoot.Keys == bankSize.Keys == rowRoot.Keys == rowSize.Keys
  {
    map pa | pa in bankRoot :: NodeRow(bankRoot[pa], bankSize[pa], rowRoot[pa], rowSize[pa])
  }

  lemma ClassesMakeNodes(items: set<nat>, banks: Pairs, rows: Pairs, bankRoot: map<nat, nat>, bankSize: map<nat, nat>,
                         rowRoot: map<nat, nat>, rowSize: map<nat, nat>)
    requires ClassesOf(items, banks, bankRoot, bankSize) && ClassesOf(items, rows, rowRoot, rowSize)
    ensures bankRoot.Keys == bankSize.Keys == rowRoot.Keys == rowSize.Keys
    ensures NodesOver(NodeRows(bankRoot, bankSize, rowRoot, rowSize), items, banks, rows)
  {
  }

  method WriteTable(edges: EdgeList, deepOnly: bool, universe: set<nat>, anchors: map<nat, set<nat>>)
    returns (tab: Table)
    ensures TableOf(tab, deepOnly, edges, universe) && tab.anchors == anchors
  {
    var bank, row, page := Build(edges, deepOnly);
    var pages := WritePages(edges, deepOnly, universe, page);
    var nodes := WriteNodes(edges, bank, row);
    tab := Table(pages, nodes, anchors);
  }

  // ---- from measured rows to answers ------------------------------------------

  ghost predicate StoredEdge(runs: seq<string>, rows: seq<Row>, freshest: string, e: Edge) {
    && e.a < e.b && Filter(OnKey((e.a, e.b)), rows) != []
    && IsVerdict(runs, ResolvedRows(runs, rows, (e.a, e.b), freshest), (e.a, e.b), e.cls)
  }

  // Exactly one stored label for every measured pair of distinct addresses.
  ghost predicate EdgesOfRows(runs: seq<string>, rows: seq<Row>, freshest: string, edges: EdgeList) {
    && (forall e | e in edges :: StoredEdge(runs, rows, freshest, e))
    && (forall a: nat, b: nat | a < b && Filter(OnKey((a, b)), rows) != [] :: HasEdge(edges, a, b))
  }

  ghost predicate HasEdge(edges: EdgeList, a: nat, b: nat) {
    exists cls :: Edge(a, b, cls) in edges
  }

  // The pages a run's edges may touch: its own pool, else the census pages.
  function Allowed(pools: map<string, set<nat>>, census: set<nat>, source: string): set<nat> {
    if source in pools then pools[source] else census
  }

  function Universe(pools: map<string, set<nat>>, census: set<nat>): set<nat> {
    census + set run, p | run in pools && p in pools[run] :: p
  }

  // The edge is off the pool its stored label comes from.
  predicate OffPool(pools: map<string, set<nat>>, census: set<nat>, key: Key, source: string) {
    !({PageNo(key.0), PageNo(key.1)} <= Allowed(pools, census, source))
  }

  // The source of every stored label.
  ghost predicate SourcesOfRows(runs: seq<string>, rows: seq<Row>, freshest: string, sources: map<Key, string>) {
    && (forall key :: key in sources <==> key.0 < key.1 && Filter(OnKey(key), rows) != [])
    && (forall key | key in sources :: IsSource(runs, ResolvedRows(runs, rows, key, freshest), key, sources[key]))
  }

  // `analyze`: fold the rows, refuse edges off their pool, build and write.
  method Analyze(runs: seq<string>, rows: seq<Row>, pools: map<string, set<nat>>, census: set<nat>,
                 anchors: map<nat, set<nat>>, deepOnly: bool)
    returns (table: Option<Table>, ghost edges: EdgeList, ghost sources: map<Key, string>, ghost freshest: string)
    requires forall r | r in rows :: r.source in Names(runs)
    ensures EdgesOfRows(runs, rows, freshest, edges) && SourcesOfRows(runs, rows, freshest, sources)
    ensures table.None? <==> exists key :: key in sources && OffPool(pools, census, key, sources[key])
    ensures table.Some? ==>
              TableOf(table.value, deepOnly, edges, Universe(pools, census)) && table.value.anchors == anchors
    ensures table.Some? ==> forall e | e in edges ::
              PageNo(e.a) in Universe(pools, census) && PageNo(e.b) in Universe(pools, census)
  {
    var folded;
    folded, freshest := LoadEdges(runs, rows);
    sources := map key | key in folded :: folded[key].1;
    var list := EdgeSeq(folded);
    edges := list;
    ListedEdgesAreStored(runs, rows, freshest, folded, list);
    var refused := set key | key in folded && OffPool(pools, census, key, folded[key].1) :: key;
    if refused != {} {
      var key :| key in refused;
      assert key in sources;
      table := None;
    } else {
      forall e | e in list ensures PageNo(e.a) in Universe(pools, census) && PageNo(e.b) in Universe(pools, census) {
        assert (e.a, e.b) !in refused;
      }
      forall key | key in sources ensures !OffPool(pools, census, key, sources[key]) {
        assert key !in refused;
      }
      var tab := WriteTable(list, deepOnly, Universe(pools, census), anchors);
      table := Some(tab);
    }
  }

  ghost predicate Lists(folded: map<Key, (Label, string)>, done: set<Key>, list: EdgeList)
    requires done <= folded.Keys
  {
    && (forall e | e in list :: (e.a, e.b) in done && folded[(e.a, e.b)].0 == e.cls)
    && (forall key | key in done :: Edge(key.0, key.1, folded[key].0) in list)
  }

  method EdgeSeq(folded: map<Key, (Label, string)>) returns (list: EdgeList)
    ensures Lists(folded, folded.Keys, list)
  {
    list := [];
    var todo := folded.Keys;
    ghost var done := {};
    while todo != {}
      invariant done !! todo && done + todo == folded.Keys
      invariant Lists(folded, done, list)
      decreases todo
    {
      var key :| key in todo;
      list := list + [Edge(key.0, key.1, folded[key].0)];
      done, todo := done + {key}, todo - {key};
    }
  }

  lemma ListedEdgesAreStored(runs: seq<string>, rows: seq<Row>, freshest: string,
                             folded: map<Key, (Label, string)>, list: EdgeList)
    requires forall key :: key in folded <==> key.0 < key.1 && Filter(OnKey(key), rows) != []
    requires forall key | key in folded :: IsVerdict(runs, ResolvedRows(runs, rows, key, freshest), key, folded[key].0)
    requires Lists(folded, folded.Keys, list)
    ensures EdgesOfRows(runs, rows, freshest, list)
  {
    forall a: nat, b: nat | a < b && Filter(OnKey((a, b)), rows) != [] ensures HasEdge(list, a, b) {
      assert (a, b) in folded;
      assert Edge(a, b, folded[(a, b)].0) in list;
    }
  }
}
