// The dual-address snapshot: registry ranges joined with observed pages
// (tools/g4_dualaddr/build_snapshot.py).
module Snapshot {
  import opened Edges
  import opened Sorting

  datatype Allocation = Allocation(id: string, va: nat, size: int)

  // One observed page of one allocation.
  datatype MapRow = MapRow(pteValid: bool, video: bool, complete: bool, pageSize: int, pa: nat)

  type Pages = map<(string, nat), MapRow>

  datatype Row = Row(id: string, base: nat, size: int, vaPage: nat, start: nat, end: nat, paPage: nat)

  datatype Kind =
    | NonPositiveSize | NoMapRow | PteInvalid | OtherAperture | NotComplete | OtherPageSize
    | Misaligned | OutsideUniverse | Aliasing | Overlap

  datatype Problem = Problem(id: string, kind: Kind)

  datatype Range = Range(start: nat, end: nat, id: string)

  datatype Join = Join(rows: seq<Row>, residency: map<nat, seq<Range>>, owners: map<nat, nat>, problems: seq<Problem>)

  // ---- bytes -----------------------------------------------------------------------

  predicate InAllocation(a: Allocation, v: nat) { a.va <= v < a.va + a.size }

  predicate InRow(r: Row, v: nat) { r.vaPage + r.start <= v < r.vaPage + r.end }

  function AllocationHolds(v: nat): Allocation -> int { (a: Allocation) => if InAllocation(a, v) then 1 else 0 }
  function RowHolds(v: nat): Row -> int { (r: Row) => if InRow(r, v) then 1 else 0 }
  function SizeOf(): Allocation -> int { (a: Allocation) => a.size }
  function LengthOf(): Row -> int { (r: Row) => r.end - r.start }

  // In how many allocations a byte is, and how many rows cover it.
  function AllocCount(s: seq<Allocation>, v: nat): int { Sum(AllocationHolds(v), s) }
  function RowCount(s: seq<Row>, v: nat): int { Sum(RowHolds(v), s) }

  // ---- the pages of an allocation ---------------------------------------------------

  function First(a: Allocation): nat { PageNo(a.va) }

  function Last(a: Allocation): nat
    requires a.size > 0
  {
    PageNo(a.va + a.size - 1)
  }

  function Complaint(pages: Pages, universe: set<nat>, a: Allocation, vaPage: nat): (r: seq<Problem>)
    ensures r == [] <==> Usable(pages, universe, a.id, vaPage)
  {
    if (a.id, vaPage) !in pages then [Problem(a.id, NoMapRow)]
    else
      var m := pages[(a.id, vaPage)];
      if !m.pteValid then [Problem(a.id, PteInvalid)]
      else if !m.video then [Problem(a.id, OtherAperture)]
      else if !m.complete then [Problem(a.id, NotComplete)]
      else if m.pageSize != PAGE then [Problem(a.id, OtherPageSize)]
      else if m.pa % PAGE != 0 then [Problem(a.id, Misaligned)]
      else if m.pa !in universe then [Problem(a.id, OutsideUniverse)]
      else []
  }

  predicate Usable(pages: Pages, universe: set<nat>, id: string, vaPage: nat) {
    && (id, vaPage) in pages
    && var m := pages[(id, vaPage)];
       m.pteValid && m.video && m.complete && m.pageSize == PAGE && m.pa % PAGE == 0 && m.pa in universe
  }

  // The row of one page of an allocation: its bytes clipped to the page.
  function RowOf(pages: Pages, a: Allocation, n: nat): (r: Row)
    requires a.size > 0 && First(a) <= n <= Last(a) && (a.id, n * PAGE) in pages
    ensures r.vaPage == n * PAGE && r.start < r.end <= PAGE
    ensures forall v: nat :: InRow(r, v) <==> InAllocation(a, v) && PageNo(v) == n
  {
    var base := n * PAGE;
    var start := (if a.va > base then a.va else base) - base;
    var end := (if a.va + a.size < base + PAGE then a.va + a.size else base + PAGE) - base;
    Row(a.id, a.va, a.size, base, start, end, pages[(a.id, base)].pa)
  }

  // ---- which inputs join ---------------------------------------------------------------

  ghost predicate PagesUsable(pages: Pages, universe: set<nat>, a: Allocation) {
    a.size > 0 && forall n: nat | First(a) <= n <= Last(a) :: PageUsable(pages, universe, a, n)
  }

  predicate PageUsable(pages: Pages, universe: set<nat>, a: Allocation, n: nat) {
    Usable(pages, universe, a.id, n * PAGE)
  }

  ghost predicate SamePhysical(pages: Pages, a: Allocation, n: nat, b: Allocation, m: nat) {
    && a.size > 0 && b.size > 0 && First(a) <= n <= Last(a) && First(b) <= m <= Last(b)
    && (a.id, n * PAGE) in pages && (b.id, m * PAGE) in pages
       && pages[(a.id, n * PAGE)].pa == pages[(b.id, m * PAGE)].pa
  }

  // Every page of every allocation is usable, no physical page backs two virtual
  // pages, and no byte is in two allocations.
  ghost predicate Joinable(allocs: seq<Allocation>, pages: Pages, universe: set<nat>) {
    && (forall a | a in allocs :: PagesUsable(pages, universe, a))
    && (forall a, b, n: nat, m: nat {:trigger SamePhysical(pages, a, n, b, m)} |
          a in allocs && b in allocs && SamePhysical(pages, a, n, b, m) :: n == m)
    && (forall v: nat {:trigger AllocCount(allocs, v)} :: AllocCount(allocs, v) <= 1)
  }

  // ---- the join --------------------------------------------------------------------------

  ghost predicate OwnersOk(j: Join) {
    && (forall i | 0 <= i < |j.rows| :: j.rows[i].paPage in j.owners && j.owners[j.rows[i].paPage] == j.rows[i].vaPage)
    && (forall p | p in j.owners :: HasPhysical(j.rows, p))
  }

  ghost predicate HasPhysical(rows: seq<Row>, p: nat) {
    exists i :: 0 <= i < |rows| && rows[i].paPage == p
  }

  ghost predicate ResidencyOk(j: Join) {
    && (forall i | 0 <= i < |j.rows| :: Listed(j.residency, j.rows[i]))
    && (forall p, e | p in j.residency && e in j.residency[p] :: HasRange(j.rows, p, e))
  }

  ghost predicate Listed(residency: map<nat, seq<Range>>, r: Row) {
    r.vaPage in residency && Range(r.start, r.end, r.id) in residency[r.vaPage]
  }

  ghost predicate HasRange(rows: seq<Row>, p: nat, e: Range) {
    exists i :: 0 <= i < |rows| && rows[i].vaPage == p && rows[i].start == e.start && rows[i].end == e.end
  }

  ghost predicate RowOk(universe: set<nat>, r: Row) {
    r.start < r.end <= PAGE && r.vaPage % PAGE == 0 && r.paPage % PAGE == 0 && r.paPage in universe
  }

  ghost predicate JoinOk(j: Join, universe: set<nat>) {
    && OwnersOk(j) && ResidencyOk(j)
    && (forall i | 0 <= i < |j.rows| :: RowOk(universe, j.rows[i]))
    && (forall v: nat {:trigger RowCount(j.rows, v)} :: RowCount(j.rows, v) <= 1)
  }

  // The row neither aliases nor overlaps another one.
  ghost predicate Clear(rows: seq<Row>, r: Row) {
    forall i | 0 <= i < |rows| :: NoClash(rows[i], r)
  }

  ghost predicate NoClash(q: Row, r: Row) {
    (q.paPage == r.paPage ==> q.vaPage == r.vaPage) && forall v: nat :: !(InRow(q, v) && InRow(r, v))
  }

  lemma OverlapIsSharedByte(q: Row, r: Row)
    requires q.vaPage == r.vaPage && q.start < q.end && r.start < r.end
    ensures (r.start < q.end && q.start < r.end) <==> exists v: nat :: InRow(q, v) && InRow(r, v)
  {
    var v: nat := q.vaPage + if q.start < r.start then r.start else q.start;
    if r.start < q.end && q.start < r.end {
      assert InRow(q, v) && InRow(r, v);
    }
  }

  lemma OtherPagesShareNoByte(q: Row, r: Row, v: nat)
    requires q.vaPage % PAGE == 0 && r.vaPage % PAGE == 0 && q.end <= PAGE && r.end <= PAGE
    requires InRow(q, v) && InRow(r, v)
    ensures q.vaPage == r.vaPage
  {
    InPage(q.vaPage, v);
    InPage(r.vaPage, v);
  }

  lemma InPage(base: nat, v: nat)
    requires base % PAGE == 0 && base <= v < base + PAGE
    ensures base == PageNo(v) * PAGE
  {
  }

  // A clear row keeps every byte covered at most once.
  lemma AppendKeepsOk(j: Join, k: Join, universe: set<nat>, r: Row)
    requires JoinOk(j, universe) && RowOk(universe, r) && Clear(j.rows, r)
    requires k.rows == j.rows + [r] && k.owners == j.owners[r.paPage := r.vaPage]
    requires k.residency == j.residency[r.vaPage := RangesAt(j.residency, r.vaPage) + [Range(r.start, r.end, r.id)]]
    ensures JoinOk(k, universe)
  {
    AppendCounts(j.rows, r);
    AppendOwners(j, k, r);
    AppendResidency(j, k, r);
  }

  lemma AppendCounts(rows: seq<Row>, r: Row)
    requires Clear(rows, r) && forall v: nat {:trigger RowCount(rows, v)} :: RowCount(rows, v) <= 1
    ensures forall v: nat {:trigger RowCount(rows + [r], v)} :: RowCount(rows + [r], v) <= 1
  {
    forall v: nat ensures RowCount(rows + [r], v) <= 1 {
      SumOneMore(RowHolds(v), rows, r);
      assert RowCount(rows, v) <= 1;
      if InRow(r, v) {
        NoneHolds(rows, r, v);
      }
    }
  }

  lemma NoneHolds(rows: seq<Row>, r: Row, v: nat)
    requires Clear(rows, r) && InRow(r, v)
    ensures RowCount(rows, v) == 0
  {
    SumPositive(RowHolds(v), rows);
    forall i | 0 <= i < |rows| ensures RowHolds(v)(rows[i]) == 0 {
      assert NoClash(rows[i], r);
    }
  }

  lemma AppendOwners(j: Join, k: Join, r: Row)
    requires OwnersOk(j) && Clear(j.rows, r)
    requires k.rows == j.rows + [r] && k.owners == j.owners[r.paPage := r.vaPage]
    ensures OwnersOk(k)
  {
    assert k.rows[|j.rows|] == r;
    forall p | p in k.owners ensures HasPhysical(k.rows, p) {
      if p != r.paPage {
        assert HasPhysical(j.rows, p);
        var i :| 0 <= i < |j.rows| && j.rows[i].paPage == p;
        assert k.rows[i].paPage == p;
      }
    }
    forall i | 0 <= i < |k.rows|
      ensures k.rows[i].paPage in k.owners && k.owners[k.rows[i].paPage] == k.rows[i].vaPage
    {
      assert i < |j.rows| ==> NoClash(j.rows[i], r);
    }
  }

  lemma AppendResidency(j: Join, k: Join, r: Row)
    requires ResidencyOk(j) && k.rows == j.rows + [r]
    requires k.residency == j.residency[r.vaPage := RangesAt(j.residency, r.vaPage) + [Range(r.start, r.end, r.id)]]
    ensures ResidencyOk(k)
  {
    assert k.rows[|j.rows|] == r;
    forall i | 0 <= i < |k.rows| ensures Listed(k.residency, k.rows[i]) {
      assert i < |j.rows| ==> Listed(j.residency, j.rows[i]);
    }
    forall p, e | p in k.residency && e in k.residency[p] ensures HasRange(k.rows, p, e) {
      if p != r.vaPage || e != Range(r.start, r.end, r.id) {
        assert e in RangesAt(j.residency, p);
        assert HasRange(j.rows, p, e);
        var i :| 0 <= i < |j.rows| && j.rows[i].vaPage == p && j.rows[i].start == e.start && j.rows[i].end == e.end;
        assert k.rows[i] == j.rows[i];
      }
    }
  }

  function RangesAt(residency: map<nat, seq<Range>>, vaPage: nat): seq<Range> {
    if vaPage in residency then residency[vaPage] else []
  }

  method FindOverlaps(ranges: seq<Range>, start: nat, end: nat, id: string) returns (problems: seq<Problem>)
    ensures problems == [] <==> forall e | e in ranges :: !(start < e.end && e.start < end)
  {
    problems := [];
    for k := 0 to |ranges|
      invariant problems == [] <==> forall e | e in ranges[..k] :: !(start < e.end && e.start < end)
    {
      assert ranges[..k + 1] == ranges[..k] + [ranges[k]];
      if start < ranges[k].end && ranges[k].start < end {
        problems := problems + [Problem(id, Overlap)];
      }
    }
    assert ranges[..|ranges|] == ranges;
  }

  // The recorded owners and ranges refuse a row exactly when it is not clear.
  lemma RecordsDecide(j: Join, universe: set<nat>, r: Row)
    requires JoinOk(j, universe) && RowOk(universe, r)
    ensures Clear(j.rows, r) <==>
              && (r.paPage in j.owners ==> j.owners[r.paPage] == r.vaPage)
              && (forall e | e in RangesAt(j.residency, r.vaPage) :: !(r.start < e.end && e.start < r.end))
  {
    if Clear(j.rows, r) {
      if r.paPage in j.owners {
        assert HasPhysical(j.rows, r.paPage);
        var i :| 0 <= i < |j.rows| && j.rows[i].paPage == r.paPage;
        assert NoClash(j.rows[i], r);
      }
      forall e | e in RangesAt(j.residency, r.vaPage) ensures !(r.start < e.end && e.start < r.end) {
        assert HasRange(j.rows, r.vaPage, e);
        var i :| 0 <= i < |j.rows| && j.rows[i].vaPage == r.vaPage
                 && j.rows[i].start == e.start && j.rows[i].end == e.end;
        assert NoClash(j.rows[i], r) && RowOk(universe, j.rows[i]);
        OverlapIsSharedByte(j.rows[i], r);
      }
    }
    if (r.paPage in j.owners ==> j.owners[r.paPage] == r.vaPage)
       && (forall e | e in RangesAt(j.residency, r.vaPage) :: !(r.start < e.end && e.start < r.end)) {
      forall i | 0 <= i < |j.rows| ensures NoClash(j.rows[i], r) {
        RowIsClear(j, universe, r, i);
      }
    }
  }

  lemma RowIsClear(j: Join, universe: set<nat>, r: Row, i: nat)
    requires JoinOk(j, universe) && RowOk(universe, r) && i < |j.rows|
    requires r.paPage in j.owners ==> j.owners[r.paPage] == r.vaPage
    requires forall e | e in RangesAt(j.residency, r.vaPage) :: !(r.start < e.end && e.start < r.end)
    ensures NoClash(j.rows[i], r)
  {
    var q := j.rows[i];
    assert RowOk(universe, q) && Listed(j.residency, q);
    forall v: nat ensures !(InRow(q, v) && InRow(r, v)) {
      if q.vaPage == r.vaPage {
        assert Range(q.start, q.end, q.id) in RangesAt(j.residency, r.vaPage);
        OverlapIsSharedByte(q, r);
      } else if InRow(q, v) && InRow(r, v) {
        OtherPagesShareNoByte(q, r, v);
      }
    }
  }

  // Appends a row, or the reason why not.
  method AddRow(j: Join, row: Row, ghost universe: set<nat>) returns (k: Join)
    requires j.problems == [] ==> JoinOk(j, universe) && RowOk(universe, row)
    ensures k.problems == [] <==> j.problems == [] && Clear(j.rows, row)
    ensures k.problems == [] ==> JoinOk(k, universe) && k.rows == j.rows + [row]
  {
    k := j;
    if j.problems == [] {
      RecordsDecide(j, universe, row);
    }
    if row.paPage in j.owners && j.owners[row.paPage] != row.vaPage {
      k := j.(problems := j.problems + [Problem(row.id, Aliasing)]);
      return;
    }
    k := k.(owners := k.owners[row.paPage := row.vaPage]);
    var ranges := RangesAt(j.residency, row.vaPage);
    var overlaps := FindOverlaps(ranges, row.start, row.end, row.id);
    if overlaps != [] {
      k := k.(problems := k.problems + overlaps);
      return;
    }
    k := k.(residency := k.residency[row.vaPage := ranges + [Range(row.start, row.end, row.id)]],
      rows := k.rows + [row]);
    if j.problems == [] {
      AppendKeepsOk(j, k, universe, row);
    }
  }

  // One page of one allocation.
  method JoinPage(j: Join, a: Allocation, n: nat, pages: Pages, universe: set<nat>) returns (k: Join)
    requires a.size > 0 && First(a) <= n <= Last(a)
    requires j.problems == [] ==> JoinOk(j, universe)
    ensures k.problems == [] <==>
              j.problems == [] && Usable(pages, universe, a.id, n * PAGE) && Clear(j.rows, RowOf(pages, a, n))
    ensures k.problems == [] ==> JoinOk(k, universe) && k.rows == j.rows + [RowOf(pages, a, n)]
  {
    var wrong := Complaint(pages, universe, a, n * PAGE);
    if wrong != [] {
      k := j.(problems := j.problems + wrong);
      return;
    }
    k := AddRow(j, RowOf(pages, a, n), universe);
  }

  // ---- one allocation ------------------------------------------------------------------------

  // The part of an allocation below page n.
  function Below(a: Allocation, n: nat): int
    requires a.size > 0
  {
    if n <= First(a) then 0 else if n > Last(a) then a.size else n * PAGE - a.va
  }

  predicate InPart(a: Allocation, n: nat, v: nat) {
    InAllocation(a, v) && PageNo(v) < n
  }

  ghost predicate Counts(rows: seq<Row>, before: seq<Row>, a: Allocation, n: nat) {
    forall v: nat {:trigger RowCount(rows, v)} {:trigger RowCount(before, v)} ::
      RowCount(rows, v) == RowCount(before, v) + if InPart(a, n, v) then 1 else 0
  }

  lemma PageCounts(rows: seq<Row>, before: seq<Row>, pages: Pages, a: Allocation, n: nat)
    requires a.size > 0 && First(a) <= n <= Last(a) && (a.id, n * PAGE) in pages
    requires Counts(rows, before, a, n) && Sum(LengthOf(), rows) == Sum(LengthOf(), before) + Below(a, n)
    ensures Counts(rows + [RowOf(pages, a, n)], before, a, n + 1)
    ensures Sum(LengthOf(), rows + [RowOf(pages, a, n)]) == Sum(LengthOf(), before) + Below(a, n + 1)
  {
    var r := RowOf(pages, a, n);
    forall v: nat ensures RowCount(rows + [r], v) == RowCount(before, v) + if InPart(a, n + 1, v) then 1 else 0 {
      SumOneMore(RowHolds(v), rows, r);
      assert RowCount(rows, v) == RowCount(before, v) + if InPart(a, n, v) then 1 else 0;
    }
    SumOneMore(LengthOf(), rows, r);
  }

  // Where the rows come from.
  ghost predicate From(r: Row, pages: Pages, b: Allocation, m: nat) {
    b.size > 0 && First(b) <= m <= Last(b) && (b.id, m * PAGE) in pages && r == RowOf(pages, b, m)
  }

  ghost predicate FromSome(r: Row, pages: Pages, s: seq<Allocation>) {
    exists b, m: nat :: b in s && From(r, pages, b, m)
  }

  // A row of an earlier allocation, or of an earlier page of this one.
  ghost predicate FromEarlier(r: Row, pages: Pages, s: seq<Allocation>, a: Allocation, n: nat) {
    FromSome(r, pages, s) || exists m: nat :: m < n && From(r, pages, a, m)
  }

  ghost predicate AllEarlier(rows: seq<Row>, pages: Pages, s: seq<Allocation>, a: Allocation, n: nat) {
    forall i | 0 <= i < |rows| :: FromEarlier(rows[i], pages, s, a, n)
  }

  // In a joinable input no earlier row is in the way of the next one.
  lemma NextIsClear(rows: seq<Row>, allocs: seq<Allocation>, i: nat, pages: Pages, universe: set<nat>, n: nat)
    requires Joinable(allocs, pages, universe) && i < |allocs|
    requires AllEarlier(rows, pages, allocs[..i], allocs[i], n)
    requires allocs[i].size > 0 && First(allocs[i]) <= n <= Last(allocs[i]) && (allocs[i].id, n * PAGE) in pages
    ensures Clear(rows, RowOf(pages, allocs[i], n))
  {
    var a := allocs[i];
    var r := RowOf(pages, a, n);
    forall k | 0 <= k < |rows| ensures NoClash(rows[k], r) {
      assert FromEarlier(rows[k], pages, allocs[..i], a, n);
      if FromSome(rows[k], pages, allocs[..i]) {
        var b, m: nat :| b in allocs[..i] && From(rows[k], pages, b, m);
        assert b in allocs;
        assert SamePhysical(pages, b, m, a, n) ==> m == n;
        forall v: nat ensures !(InRow(rows[k], v) && InRow(r, v)) {
          if InAllocation(b, v) && InAllocation(a, v) {
            TwiceIsTooOften(allocs, i, b, v);
          }
        }
      } else {
        var m: nat :| m < n && From(rows[k], pages, a, m);
        assert SamePhysical(pages, a, m, a, n) ==> m == n;
      }
    }
  }

  lemma TwiceIsTooOften(allocs: seq<Allocation>, i: nat, b: Allocation, v: nat)
    requires i < |allocs| && b in allocs[..i] && InAllocation(b, v) && InAllocation(allocs[i], v)
    ensures AllocCount(allocs, v) > 1
  {
    var f := AllocationHolds(v);
    var k :| 0 <= k < i && allocs[..i][k] == b;
    assert f(allocs[..i][k]) > 0;
    SumPositive(f, allocs[..i]);
    PrefixGrows(allocs, i);
    SumOneMore(f, allocs[..i], allocs[i]);
    SumPrefix(f, allocs, i + 1);
  }

  // The pages below n are joined.
  ghost predicate PartDone(rows: seq<Row>, before: seq<Row>, pages: Pages, universe: set<nat>, s: seq<Allocation>,
                           a: Allocation, n: nat)
    requires a.size > 0
  {
    && AllEarlier(rows, pages, s, a, n) && Counts(rows, before, a, n)
    && Sum(LengthOf(), rows) == Sum(LengthOf(), before) + Below(a, n)
    && UsableBelow(pages, universe, a, n)
  }

  predicate UsableBelow(pages: Pages, universe: set<nat>, a: Allocation, n: nat)
    requires a.size > 0
  {
    forall m: nat | First(a) <= m < n :: PageUsable(pages, universe, a, m)
  }

  ghost predicate AllFrom(rows: seq<Row>, pages: Pages, s: seq<Allocation>) {
    forall x | 0 <= x < |rows| :: FromSome(rows[x], pages, s)
  }

  // The allocation is joined.
  ghost predicate Joined(rows: seq<Row>, before: seq<Row>, pages: Pages, universe: set<nat>, s: seq<Allocation>,
                         a: Allocation) {
    && PagesUsable(pages, universe, a) && AllFrom(rows, pages, s + [a])
    && (forall v: nat {:trigger RowCount(rows, v)} ::
          RowCount(rows, v) == RowCount(before, v) + if InAllocation(a, v) then 1 else 0)
    && Sum(LengthOf(), rows) == Sum(LengthOf(), before) + a.size
  }

  // All pages of one allocation.
  method JoinAllocation(j: Join, ghost allocs: seq<Allocation>, ghost i: nat, a: Allocation, pages: Pages,
                        universe: set<nat>)
    returns (k: Join)
    requires i < |allocs| && a == allocs[i]
    requires j.problems == [] ==> JoinOk(j, universe) && AllFrom(j.rows, pages, allocs[..i])
    ensures k.problems == [] ==> j.problems == [] && JoinOk(k, universe)
    ensures k.problems == [] ==> Joined(k.rows, j.rows, pages, universe, allocs[..i], a)
    ensures Joinable(allocs, pages, universe) && j.problems == [] ==> k.problems == []
  {
    if a.size <= 0 {
      JoinableIsUsable(allocs, i, pages, universe);
      k := j.(problems := j.problems + [Problem(a.id, NonPositiveSize)]);
      return;
    }
    if j.problems == [] {
      StartPart(j.rows, pages, universe, allocs[..i], a);
    }
    k := JoinPages(j, allocs, i, a, pages, universe);
    if k.problems == [] {
      PartIsWhole(k.rows, j.rows, pages, universe, allocs, i);
    }
  }

  lemma JoinableIsUsable(allocs: seq<Allocation>, i: nat, pages: Pages, universe: set<nat>)
    requires i < |allocs|
    ensures Joinable(allocs, pages, universe) ==> PagesUsable(pages, universe, allocs[i])
  {
    assert allocs[i] in allocs;
  }

  method JoinPages(j: Join, ghost allocs: seq<Allocation>, ghost i: nat, a: Allocation, pages: Pages,
                   universe: set<nat>)
    returns (k: Join)
    requires i < |allocs| && a == allocs[i] && a.size > 0
    requires j.problems == [] ==> JoinOk(j, universe)
    requires j.problems == [] ==> PartDone(j.rows, j.rows, pages, universe, allocs[..i], a, First(a))
    ensures k.problems == [] ==> j.problems == [] && JoinOk(k, universe)
    ensures k.problems == [] ==> PartDone(k.rows, j.rows, pages, universe, allocs[..i], a, Last(a) + 1)
    ensures Joinable(allocs, pages, universe) && j.problems == [] ==> k.problems == []
  {
    k := j;
    for n := First(a) to Last(a) + 1
      invariant k.problems == [] ==> j.problems == [] && JoinOk(k, universe)
      invariant k.problems == [] ==> PartDone(k.rows, j.rows, pages, universe, allocs[..i], a, n)
      invariant Joinable(allocs, pages, universe) && j.problems == [] ==> k.problems == []
    {
      var next := JoinPage(k, a, n, pages, universe);
      if next.problems == [] {
        PartGrows(k.rows, j.rows, pages, universe, allocs[..i], a, n);
      }
      if Joinable(allocs, pages, universe) && k.problems == [] {
        PartIsClear(k.rows, j.rows, pages, universe, allocs, i, n);
      }
      k := next;
    }
  }

  lemma StartPart(rows: seq<Row>, pages: Pages, universe: set<nat>, s: seq<Allocation>, a: Allocation)
    requires a.size > 0 && AllFrom(rows, pages, s)
    ensures PartDone(rows, rows, pages, universe, s, a, First(a))
  {
    assert Below(a, First(a)) == 0;
    forall v: nat ensures !InPart(a, First(a), v) {
      if InAllocation(a, v) {
        PageNoMonotone(a.va, v);
      }
    }
    assert Counts(rows, rows, a, First(a));
    forall i | 0 <= i < |rows| ensures FromEarlier(rows[i], pages, s, a, First(a)) {
      assert FromSome(rows[i], pages, s);
    }
  }

  lemma PartGrows(rows: seq<Row>, before: seq<Row>, pages: Pages, universe: set<nat>, s: seq<Allocation>,
                  a: Allocation, n: nat)
    requires a.size > 0 && First(a) <= n <= Last(a) && Usable(pages, universe, a.id, n * PAGE)
    requires PartDone(rows, before, pages, universe, s, a, n)
    ensures PartDone(rows + [RowOf(pages, a, n)], before, pages, universe, s, a, n + 1)
  {
    PageCounts(rows, before, pages, a, n);
    EarlierGrows(rows, pages, s, a, n);
    UsableGrows(pages, universe, a, n);
  }

  lemma UsableGrows(pages: Pages, universe: set<nat>, a: Allocation, n: nat)
    requires a.size > 0 && UsableBelow(pages, universe, a, n) && Usable(pages, universe, a.id, n * PAGE)
    ensures UsableBelow(pages, universe, a, n + 1)
  {
    forall m: nat | First(a) <= m < n + 1 ensures PageUsable(pages, universe, a, m) {
    }
  }

  lemma PartIsClear(rows: seq<Row>, before: seq<Row>, pages: Pages, universe: set<nat>, allocs: seq<Allocation>,
                    i: nat, n: nat)
    requires Joinable(allocs, pages, universe) && i < |allocs| && allocs[i].size > 0
    requires First(allocs[i]) <= n <= Last(allocs[i])
    requires PartDone(rows, before, pages, universe, allocs[..i], allocs[i], n)
    ensures Usable(pages, universe, allocs[i].id, n * PAGE) && Clear(rows, RowOf(pages, allocs[i], n))
  {
    JoinableIsUsable(allocs, i, pages, universe);
    assert PageUsable(pages, universe, allocs[i], n);
    NextIsClear(rows, allocs, i, pages, universe, n);
  }

  lemma PageNoMonotone(x: nat, y: nat)
    requires x <= y
    ensures PageNo(x) <= PageNo(y)
  {
  }

  lemma PartIsWhole(rows: seq<Row>, before: seq<Row>, pages: Pages, universe: set<nat>, allocs: seq<Allocation>, i: nat)
    requires i < |allocs| && allocs[i].size > 0
    requires PartDone(rows, before, pages, universe, allocs[..i], allocs[i], Last(allocs[i]) + 1)
    ensures Joined(rows, before, pages, universe, allocs[..i], allocs[i])
  {
    var a := allocs[i];
    EarlierIsSome(rows, pages, allocs, i, Last(a) + 1);
    PrefixGrows(allocs, i);
    PageNoMonotone(a.va, a.va + a.size - 1);
    WholeCounts(rows, before, a);
  }

  lemma WholeCounts(rows: seq<Row>, before: seq<Row>, a: Allocation)
    requires a.size > 0 && Counts(rows, before, a, Last(a) + 1)
    ensures forall v: nat {:trigger RowCount(rows, v)} ::
              RowCount(rows, v) == RowCount(before, v) + if InAllocation(a, v) then 1 else 0
  {
    forall v: nat ensures RowCount(rows, v) == RowCount(before, v) + if InAllocation(a, v) then 1 else 0 {
      if InAllocation(a, v) {
        PageNoMonotone(v, a.va + a.size - 1);
      }
    }
  }

  lemma EarlierGrows(rows: seq<Row>, pages: Pages, s: seq<Allocation>, a: Allocation, n: nat)
    requires AllEarlier(rows, pages, s, a, n)
    requires a.size > 0 && First(a) <= n <= Last(a) && (a.id, n * PAGE) in pages
    ensures AllEarlier(rows + [RowOf(pages, a, n)], pages, s, a, n + 1)
  {
    var r := RowOf(pages, a, n);
    assert From(r, pages, a, n);
    forall i | 0 <= i < |rows| + 1 ensures FromEarlier((rows + [r])[i], pages, s, a, n + 1) {
      if i < |rows| {
        assert FromEarlier(rows[i], pages, s, a, n);
      }
    }
  }

  lemma EarlierIsSome(rows: seq<Row>, pages: Pages, allocs: seq<Allocation>, i: nat, n: nat)
    requires i < |allocs| && AllEarlier(rows, pages, allocs[..i], allocs[i], n)
    ensures AllFrom(rows, pages, allocs[..i + 1])
  {
    PrefixGrows(allocs, i);
    assert allocs[i] in allocs[..i + 1];
    forall x | 0 <= x < |rows| ensures FromSome(rows[x], pages, allocs[..i + 1]) {
      assert FromEarlier(rows[x], pages, allocs[..i], allocs[i], n);
      if FromSome(rows[x], pages, allocs[..i]) {
        var b, m: nat :| b in allocs[..i] && From(rows[x], pages, b, m);
        assert b in allocs[..i + 1];
      }
    }
  }

  // ---- the whole input -----------------------------------------------------------------------

  predicate ByAddress(x: Allocation, y: Allocation) {
    x.va < y.va || (x.va == y.va && IdLess(x.id, y.id))
  }

  predicate IdLess(x: string, y: string) {
    if x == "" || y == "" then x == "" && y != ""
    else x[0] < y[0] || (x[0] == y[0] && IdLess(x[1..], y[1..]))
  }

  predicate ByPage(x: Row, y: Row) {
    x.vaPage < y.vaPage || (x.vaPage == y.vaPage && x.start < y.start)
  }

  // What an accepted snapshot promises.
  ghost predicate Faithful(rows: seq<Row>, allocs: seq<Allocation>, pages: Pages, universe: set<nat>) {
    && (forall v: nat {:trigger RowCount(rows, v)} :: RowCount(rows, v) == AllocCount(allocs, v) <= 1)
    && Sum(LengthOf(), rows) == Sum(SizeOf(), allocs)
    && (forall i | 0 <= i < |rows| :: RowOk(universe, rows[i]) && FromSome(rows[i], pages, allocs))
    && (forall i, j | 0 <= i < |rows| && 0 <= j < |rows| && rows[i].paPage == rows[j].paPage ::
       rows[i].vaPage == rows[j].vaPage)
  }

  // No problem is reported exactly for a joinable input; then every byte of every
  // allocation is in exactly one row, no other byte in any, the row lengths add up
  // to the sizes, and no physical page backs two virtual pages.
  method BuildRows(allocs: seq<Allocation>, pages: Pages, universe: set<nat>)
    returns (rows: seq<Row>, problems: seq<Problem>)
    ensures problems == [] <==> Joinable(allocs, pages, universe)
    ensures problems == [] ==> Faithful(rows, allocs, pages, universe) && SortedBy(ByPage, rows)
  {
    var sorted := SortBy(ByAddress, allocs);
    SortedInput(allocs, pages, universe);
    var j := Join([], map[], map[], []);
    EmptyIsOk(universe);
    for i := 0 to |sorted|
      invariant j.problems == [] ==> AllDone(j, sorted[..i], pages, universe)
      invariant Joinable(sorted, pages, universe) ==> j.problems == []
    {
      var next := JoinAllocation(j, sorted, i, sorted[i], pages, universe);
      if next.problems == [] {
        OneMoreDone(next, j, pages, universe, sorted, i);
      }
      j := next;
    }
    assert sorted[..|sorted|] == sorted;
    problems := j.problems;
    rows := SortBy(ByPage, j.rows);
    if problems == [] {
      DoneIsJoinable(j, sorted, pages, universe);
      DoneIsFaithful(j, allocs, pages, universe);
    }
  }

  // The allocations so far are joined.
  ghost predicate AllDone(j: Join, s: seq<Allocation>, pages: Pages, universe: set<nat>) {
    && JoinOk(j, universe)
    && (forall a | a in s :: PagesUsable(pages, universe, a))
    && AllFrom(j.rows, pages, s)
    && (forall v: nat {:trigger RowCount(j.rows, v)} :: RowCount(j.rows, v) == AllocCount(s, v))
    && Sum(LengthOf(), j.rows) == Sum(SizeOf(), s)
  }

  lemma EmptyIsOk(universe: set<nat>)
    ensures JoinOk(Join([], map[], map[], []), universe)
  {
  }

  lemma OneMoreDone(k: Join, j: Join, pages: Pages, universe: set<nat>, sorted: seq<Allocation>, i: nat)
    requires i < |sorted| && AllDone(j, sorted[..i], pages, universe)
    requires JoinOk(k, universe) && Joined(k.rows, j.rows, pages, universe, sorted[..i], sorted[i])
    ensures AllDone(k, sorted[..i + 1], pages, universe)
  {
    var a := sorted[i];
    PrefixGrows(sorted, i);
    SumOneMore(SizeOf(), sorted[..i], a);
    forall v: nat ensures RowCount(k.rows, v) == AllocCount(sorted[..i + 1], v) {
      OneMoreCount(k.rows, j.rows, sorted, i, v);
    }
  }

  lemma OneMoreCount(rows: seq<Row>, before: seq<Row>, sorted: seq<Allocation>, i: nat, v: nat)
    requires i < |sorted| && RowCount(before, v) == AllocCount(sorted[..i], v)
    requires RowCount(rows, v) == RowCount(before, v) + if InAllocation(sorted[i], v) then 1 else 0
    ensures RowCount(rows, v) == AllocCount(sorted[..i + 1], v)
  {
    PrefixGrows(sorted, i);
    SumOneMore(AllocationHolds(v), sorted[..i], sorted[i]);
  }

  lemma PrefixGrows<T>(s: seq<T>, i: nat)
    requires i < |s|
    ensures s[..i + 1] == s[..i] + [s[i]]
    ensures forall x :: x in s[..i + 1] <==> x in s[..i] || x == s[i]
  {
  }

  // Joinability does not depend on the order.
  lemma SortedInput(allocs: seq<Allocation>, pages: Pages, universe: set<nat>)
    ensures Joinable(SortBy(ByAddress, allocs), pages, universe) <==> Joinable(allocs, pages, universe)
    ensures forall v: nat :: AllocCount(SortBy(ByAddress, allocs), v) == AllocCount(allocs, v)
    ensures Sum(SizeOf(), SortBy(ByAddress, allocs)) == Sum(SizeOf(), allocs)
    ensures forall a :: a in SortBy(ByAddress, allocs) <==> a in allocs
  {
    SortKeepsElements(ByAddress, allocs);
    SumOfSort(SizeOf(), ByAddress, allocs);
    var sorted := SortBy(ByAddress, allocs);
    forall v: nat ensures AllocCount(sorted, v) == AllocCount(allocs, v) {
      SumOfSort(AllocationHolds(v), ByAddress, allocs);
    }
    if Joinable(sorted, pages, universe) {
      forall v: nat ensures AllocCount(allocs, v) <= 1 {
        assert AllocCount(sorted, v) <= 1;
      }
    }
  }

  lemma DoneIsJoinable(j: Join, s: seq<Allocation>, pages: Pages, universe: set<nat>)
    requires AllDone(j, s, pages, universe)
    ensures Joinable(s, pages, universe)
  {
    forall v: nat ensures AllocCount(s, v) <= 1 {
      assert RowCount(j.rows, v) == AllocCount(s, v) && RowCount(j.rows, v) <= 1;
    }
    forall a, b, n: nat, m: nat | a in s && b in s && SamePhysical(pages, a, n, b, m) ensures n == m {
      PageHasRow(j, s, pages, universe, a, n);
      PageHasRow(j, s, pages, universe, b, m);
    }
  }

  // Every page of a joined allocation has its physical page recorded as its own.
  lemma PageHasRow(j: Join, s: seq<Allocation>, pages: Pages, universe: set<nat>, a: Allocation, n: nat)
    requires AllDone(j, s, pages, universe) && a in s && a.size > 0 && First(a) <= n <= Last(a)
    requires (a.id, n * PAGE) in pages
    ensures var p := pages[(a.id, n * PAGE)].pa; p in j.owners && j.owners[p] == n * PAGE
  {
    var r := RowOf(pages, a, n);
    var v: nat := r.vaPage + r.start;
    assert InRow(r, v) && InAllocation(a, v) && PageNo(v) == n;
    var i :| 0 <= i < |s| && s[i] == a;
    assert AllocationHolds(v)(s[i]) > 0;
    SumPositive(AllocationHolds(v), s);
    assert RowCount(j.rows, v) == AllocCount(s, v);
    SumPositive(RowHolds(v), j.rows);
    var x :| 0 <= x < |j.rows| && RowHolds(v)(j.rows[x]) > 0;
    assert FromSome(j.rows[x], pages, s);
    var b, m: nat :| b in s && From(j.rows[x], pages, b, m);
    assert InAllocation(b, v) && PageNo(v) == m;
    SameHolder(s, a, b, v);
  }

  lemma SameHolder(s: seq<Allocation>, a: Allocation, b: Allocation, v: nat)
    requires a in s && b in s && InAllocation(a, v) && InAllocation(b, v) && AllocCount(s, v) <= 1
    ensures a == b
  {
    if a != b {
      var i :| 0 <= i < |s| && s[i] == a;
      var k :| 0 <= k < |s| && s[k] == b;
      if i < k {
        assert s[..k][i] == a;
        TwiceIsTooOften(s, k, a, v);
      } else {
        assert s[..i][k] == b;
        TwiceIsTooOften(s, i, b, v);
      }
    }
  }

  lemma DoneIsFaithful(j: Join, allocs: seq<Allocation>, pages: Pages, universe: set<nat>)
    requires AllDone(j, SortBy(ByAddress, allocs), pages, universe)
    ensures Faithful(SortBy(ByPage, j.rows), allocs, pages, universe)
    ensures SortedBy(ByPage, SortBy(ByPage, j.rows))
  {
    SortedInput(allocs, pages, universe);
    PageOrder();
    SortIsSorted(ByPage, j.rows);
    SumOfSort(LengthOf(), ByPage, j.rows);
    forall v: nat ensures RowCount(SortBy(ByPage, j.rows), v) == AllocCount(allocs, v) <= 1 {
      DoneCount(j, allocs, pages, universe, v);
    }
    DoneRows(j, allocs, pages, universe);
  }

  lemma DoneRows(j: Join, allocs: seq<Allocation>, pages: Pages, universe: set<nat>)
    requires AllDone(j, SortBy(ByAddress, allocs), pages, universe)
    ensures var rows := SortBy(ByPage, j.rows);
            && (forall i | 0 <= i < |rows| :: RowOk(universe, rows[i]) && FromSome(rows[i], pages, allocs))
            && (forall i, k | 0 <= i < |rows| && 0 <= k < |rows| && rows[i].paPage == rows[k].paPage ::
               rows[i].vaPage == rows[k].vaPage)
  {
    var rows := SortBy(ByPage, j.rows);
    SortKeepsElements(ByPage, j.rows);
    forall i | 0 <= i < |rows|
      ensures RowOk(universe, rows[i]) && FromSome(rows[i], pages, allocs)
      ensures rows[i].paPage in j.owners && j.owners[rows[i].paPage] == rows[i].vaPage
    {
      assert rows[i] in j.rows;
      DoneRow(j, allocs, pages, universe, rows[i]);
    }
  }

  lemma PageOrder()
    ensures StrictWeakOrder(ByPage)
  {
  }

  lemma DoneCount(j: Join, allocs: seq<Allocation>, pages: Pages, universe: set<nat>, v: nat)
    requires AllDone(j, SortBy(ByAddress, allocs), pages, universe)
    ensures RowCount(SortBy(ByPage, j.rows), v) == AllocCount(allocs, v) <= 1
  {
    SumOfSort(RowHolds(v), ByPage, j.rows);
    SumOfSort(AllocationHolds(v), ByAddress, allocs);
    assert RowCount(j.rows, v) == AllocCount(SortBy(ByAddress, allocs), v) && RowCount(j.rows, v) <= 1;
  }

  lemma DoneRow(j: Join, allocs: seq<Allocation>, pages: Pages, universe: set<nat>, r: Row)
    requires AllDone(j, SortBy(ByAddress, allocs), pages, universe) && r in j.rows
    ensures RowOk(universe, r) && FromSome(r, pages, allocs)
    ensures r.paPage in j.owners && j.owners[r.paPage] == r.vaPage
  {
    SortKeepsElements(ByAddress, allocs);
    var x :| 0 <= x < |j.rows| && j.rows[x] == r;
    assert FromSome(j.rows[x], pages, SortBy(ByAddress, allocs));
    var b, m: nat :| b in SortBy(ByAddress, allocs) && From(r, pages, b, m);
    assert b in allocs;
  }

  // ---- lookups -------------------------------------------------------------------------------

  // The row holds the byte at this virtual address.
  predicate IsHit(r: Row, addr: nat) {
    r.vaPage == PageBase(addr) && r.start <= addr - PageBase(addr) < r.end
  }

  function Hits(addr: nat): Row -> bool { (r: Row) => IsHit(r, addr) }

  // The rows lookup_va prints for an address, in table order.
  method LookupVa(rows: seq<Row>, addr: nat) returns (hits: seq<Row>)
    ensures hits == Filter(Hits(addr), rows)
    ensures |hits| == HitCount(rows, addr)
  {
    hits := [];
    for i := 0 to |rows|
      invariant hits == Filter(Hits(addr), rows[..i])
      invariant |hits| == HitCount(rows[..i], addr)
    {
      FilterStep(Hits(addr), rows, i);
      assert rows[..i + 1] == rows[..i] + [rows[i]];
      SumOneMore(HitsAt(addr), rows[..i], rows[i]);
      if rows[i].vaPage == PageBase(addr) && rows[i].start <= addr - PageBase(addr) < rows[i].end {
        hits := hits + [rows[i]];
      }
    }
    assert rows[..|rows|] == rows;
  }

  function HitsAt(addr: nat): Row -> int {
    (r: Row) => if IsHit(r, addr) then 1 else 0
  }

  function HitCount(rows: seq<Row>, addr: nat): int { Sum(HitsAt(addr), rows) }

  // The rows lookup_pa prints: every row of the physical page, in table order.
  function OnPaPage(addr: nat): Row -> bool { (r: Row) => r.paPage == PageBase(addr) }

  method LookupPa(rows: seq<Row>, addr: nat) returns (hits: seq<Row>)
    ensures hits == Filter(OnPaPage(addr), rows)
  {
    hits := [];
    for i := 0 to |rows|
      invariant hits == Filter(OnPaPage(addr), rows[..i])
    {
      FilterStep(OnPaPage(addr), rows, i);
      if rows[i].paPage == PageBase(addr) {
        hits := hits + [rows[i]];
      }
    }
    assert rows[..|rows|] == rows;
  }

  // An address is found by as many rows as cover it: by one if it is resident,
  // by none otherwise.
  lemma {:induction false} HitsAreCovers(rows: seq<Row>, addr: nat)
    requires forall i | 0 <= i < |rows| :: rows[i].vaPage % PAGE == 0 && rows[i].end <= PAGE
    ensures HitCount(rows, addr) == RowCount(rows, addr)
  {
    if rows != [] {
      HitsAreCovers(rows[1..], addr);
      HitIsCover(rows[0], addr);
    }
  }

  lemma HitIsCover(r: Row, addr: nat)
    requires r.vaPage % PAGE == 0 && r.end <= PAGE
    ensures IsHit(r, addr) <==> InRow(r, addr)
  {
    if InRow(r, addr) {
      InPage(r.vaPage, addr);
    }
  }

  lemma LookupVaExactly(rows: seq<Row>, allocs: seq<Allocation>, pages: Pages, universe: set<nat>, addr: nat)
    requires Faithful(rows, allocs, pages, universe)
    ensures HitCount(rows, addr) == if exists i :: 0 <= i < |allocs| && InAllocation(allocs[i], addr) then 1 else 0
  {
    forall i | 0 <= i < |rows| ensures rows[i].vaPage % PAGE == 0 && rows[i].end <= PAGE {
      assert RowOk(universe, rows[i]);
    }
    HitsAreCovers(rows, addr);
    assert RowCount(rows, addr) == AllocCount(allocs, addr) <= 1;
    SumPositive(AllocationHolds(addr), allocs);
    if i :| 0 <= i < |allocs| && InAllocation(allocs[i], addr) {
      assert AllocationHolds(addr)(allocs[i]) > 0;
    }
  }

  // The physical address of a covered byte.
  function Physical(r: Row, v: nat): nat
    requires InRow(r, v)
  {
    r.paPage + (v - r.vaPage)
  }

  // Different bytes have different physical bytes, and narrowing the rows of a
  // physical page by the offset gives the byte back.
  lemma PhysicalInjective(rows: seq<Row>, allocs: seq<Allocation>, pages: Pages, universe: set<nat>,
                          i: nat, j: nat, v: nat, w: nat)
    requires Faithful(rows, allocs, pages, universe) && i < |rows| && j < |rows|
    requires InRow(rows[i], v) && InRow(rows[j], w) && Physical(rows[i], v) == Physical(rows[j], w)
    ensures v == w && i == j
  {
    assert RowOk(universe, rows[i]) && RowOk(universe, rows[j]);
    var x := Physical(rows[i], v);
    InPage(rows[i].paPage, x);
    InPage(rows[j].paPage, x);
    assert rows[i].vaPage == rows[j].vaPage && RowCount(rows, v) <= 1;
    if i != j {
      TwoRowsTooOften(rows, if i < j then i else j, if i < j then j else i, v);
    }
  }

  lemma TwoRowsTooOften(rows: seq<Row>, i: nat, j: nat, v: nat)
    requires i < j < |rows| && InRow(rows[i], v) && InRow(rows[j], v)
    ensures RowCount(rows, v) > 1
  {
    var f := RowHolds(v);
    assert f(rows[..j][i]) > 0;
    SumPositive(f, rows[..j]);
    assert rows[..j + 1] == rows[..j] + [rows[j]];
    SumOneMore(f, rows[..j], rows[j]);
    SumPrefix(f, rows, j + 1);
  }

  lemma LookupPaNarrows(rows: seq<Row>, allocs: seq<Allocation>, pages: Pages, universe: set<nat>, r: Row, v: nat,
                        addr: nat)
    requires Faithful(rows, allocs, pages, universe) && r in rows
    ensures r.paPage == PageBase(addr) && r.start <= addr - PageBase(addr) < r.end
            && v == r.vaPage + (addr - PageBase(addr))
            <==> InRow(r, v) && Physical(r, v) == addr
  {
    var i :| 0 <= i < |rows| && rows[i] == r;
    assert RowOk(universe, rows[i]);
    if InRow(r, v) && Physical(r, v) == addr {
      InPage(r.paPage, addr);
    }
  }
}
