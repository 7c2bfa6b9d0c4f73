// Rebuilding the sections of a table-build run from its rows
// (`split_sections` in tools/g3_probe/analyze_table_build.py).
module SectionSplitter {
  import opened Edges
  import opened Outcomes
  import opened PlannedPairs
  import opened PoolMaps
  import opened Sorting
  import opened TablePlan

  datatype Problem = RowCount | SelfRow | SweepRow | ClassifyRow | BankRow | RepeatRow

  datatype Sections = Sections(calibration: seq<Query>, self: seq<Query>, sweep: seq<Query>, classify: seq<Query>,
                               bankMap: seq<Query>, repeat: seq<Query>)

  // rows[from:from + count]
  function Slice(rows: seq<Query>, from: nat, count: int): seq<Query> {
    var end := from + count;
    if end <= from || from >= |rows| then []
    else if end <= |rows| then rows[from..end]
    else rows[from..]
  }

  // ---- counts -----------------------------------------------------------------------

  method ClassifyCount(bases: seq<nat>, reps: seq<nat>) returns (count: nat)
    ensures count == |ClassifyPairs(bases, reps)|
  {
    count := 0;
    for i := 0 to |bases|
      invariant count == |ClassifyPairs(bases[..i], reps)|
    {
      ghost var was := count;
      for k := 0 to |reps|
        invariant count == was + |ClassifyOf(bases[i], reps[..k])|
      {
        assert reps[..k + 1][..k] == reps[..k];
        if reps[k] != bases[i] {
          count := count + 1;
        }
      }
      assert reps[..|reps|] == reps;
      assert bases[..i + 1][..i] == bases[..i];
    }
    assert bases[..|bases|] == bases;
  }

  function BankCount(meta: Meta): int {
    |meta.bankPages| * (2 * |meta.lattice| - One(meta.anchor in meta.lattice))
  }

  function Expected(pool: Pool, meta: Meta): int {
    var bases := Bases(pool.paPages);
    3 + |bases| + |bases| * |meta.candidates| + |ClassifyPairs(bases, meta.reps)| + BankCount(meta) + meta.repeat
  }

  // The rows the splitter expects beyond the plan: one for every bank page whose
  // lattice has the offset 0 although the anchor is another one, less the
  // negative repeat count, for which nothing is planned.
  function Surplus(meta: Meta): int {
    (if 0 in meta.lattice && meta.anchor != 0 then |meta.bankPages| else 0)
    + (if meta.repeat < 0 then meta.repeat else 0)
  }

  lemma ExpectedIsPlanned(pool: Pool, meta: Meta, p: Parts, fit: bool)
    requires Planned(pool, meta, p, fit)
    ensures Expected(pool, meta) == |Joined(p)| + Surplus(meta)
    ensures BankCount(meta) == |p.bankMap| + if 0 in meta.lattice && meta.anchor != 0 then |meta.bankPages| else 0
  {
    BankCountIs(meta);
    RepeatLength(Bases(pool.paPages), meta.repeat);
  }

  lemma BankCountIs(meta: Meta)
    requires Distinct(meta.lattice)
    ensures BankCount(meta) == |BankPairs(meta.bankPages, meta.lattice, meta.anchor)|
                               + if 0 in meta.lattice && meta.anchor != 0 then |meta.bankPages| else 0
  {
    BankLength(meta.bankPages, meta.lattice, meta.anchor);
    var n, k := |meta.bankPages|, 2 * |meta.lattice|;
    Distribute(n, k - One(meta.anchor in meta.lattice), One(0 in meta.lattice && meta.anchor != 0));
    assert k - One(0 in meta.lattice) - One(meta.anchor in meta.lattice && meta.anchor != 0)
           == k - One(meta.anchor in meta.lattice) - One(0 in meta.lattice && meta.anchor != 0);
  }

  lemma Distribute(n: nat, a: int, b: int)
    ensures n * (a - b) == n * a - n * b
  {
  }

  lemma RepeatLength(bases: seq<nat>, repeat: int)
    requires repeat <= |bases|
    ensures |RepeatBases(bases, repeat)| == if repeat < 0 then 0 else repeat
  {
  }

  // ---- checking rows ------------------------------------------------------------------

  ghost predicate Matches(pool: Pool, part: seq<Query>, want: seq<Pair>) {
    forall i | 0 <= i < |part| && i < |want| :: PasOf(pool, part[i]) == Some(want[i])
  }

  // Compares row by row as far as both go; `stop` ends at the first difference.
  method CheckRows(pool: Pool, part: seq<Query>, want: seq<Pair>, problem: Problem, stop: bool)
    returns (raised: bool, problems: seq<Problem>)
    ensures !raised && problems == [] <==> Matches(pool, part, want)
  {
    raised, problems := false, [];
    var i := 0;
    while i < |part| && i < |want|
      invariant i <= |part| && i <= |want|
      invariant problems == [] <==> Matches(pool, part[..i], want)
    {
      assert part[..i + 1] == part[..i] + [part[i]];
      var pas := PasOf(pool, part[i]);
      if pas.None? {
        return true, problems;
      }
      if pas.value != want[i] {
        problems := problems + [problem];
        if stop { return; }
      }
      i := i + 1;
    }
    assert i == |part| ==> part[..i] == part;
  }

  ghost predicate SweepMatches(pool: Pool, part: seq<Query>, bases: seq<nat>, masks: seq<nat>)
    requires |part| <= |bases| * |masks|
  {
    forall i {:trigger part[i]} | 0 <= i < |part| :: SweepRowOk(pool, part[i], bases, masks, i)
  }

  ghost predicate SweepRowOk(pool: Pool, q: Query, bases: seq<nat>, masks: seq<nat>, i: nat)
    requires i < |bases| * |masks|
  {
    RowAndColumn(i, |bases|, |masks|);
    var base := bases[i / |masks|];
    match PasOf(pool, q)
    case None => false
    case Some((a, b)) => a == base && b - base == masks[i % |masks|] && a / PAGE == b / PAGE
  }

  lemma RowAndColumn(i: nat, n: nat, m: nat)
    requires i < n * m
    ensures m > 0 && i / m < n && i % m < m
  {
    if i / m >= n {
      Quotient(i, n, m);
    }
  }

  lemma Quotient(i: nat, n: nat, m: nat)
    requires m > 0 && i / m >= n
    ensures i >= n * m
  {
    assert i == (i / m) * m + i % m;
    assert (i / m) * m >= n * m by { Monotone(n, i / m, m); }
  }

  lemma Monotone(a: nat, b: nat, m: nat)
    requires a <= b
    ensures a * m <= b * m
  {
  }

  method CheckSweep(pool: Pool, part: seq<Query>, bases: seq<nat>, masks: seq<nat>)
    returns (raised: bool, problems: seq<Problem>)
    requires |part| <= |bases| * |masks|
    ensures !raised && problems == [] <==> SweepMatches(pool, part, bases, masks)
  {
    raised, problems := false, [];
    for i := 0 to |part|
      invariant problems == [] <==> forall k | 0 <= k < i :: SweepRowOk(pool, part[k], bases, masks, k)
    {
      RowAndColumn(i, |bases|, |masks|);
      var pas := PasOf(pool, part[i]);
      if pas.None? {
        assert !SweepRowOk(pool, part[i], bases, masks, i);
        return true, problems;
      }
      var base := bases[i / |masks|];
      if pas.value.0 != base || pas.value.1 - base != masks[i % |masks|] || pas.value.0 / PAGE != pas.value.1 / PAGE {
        problems := problems + [SweepRow];
      }
    }
  }

  // ---- splitting -----------------------------------------------------------------------

  // Six consecutive slices of these lengths.
  function Cut(rows: seq<Query>, n1: nat, n2: nat, n3: nat, bank: nat, repeat: int): Sections {
    Sections(Slice(rows, 0, 3), Slice(rows, 3, n1), Slice(rows, 3 + n1, n2), Slice(rows, 3 + n1 + n2, n3),
             Slice(rows, 3 + n1 + n2 + n3, bank), Slice(rows, 3 + n1 + n2 + n3 + bank, repeat))
  }

  function SliceAll(rows: seq<Query>, pool: Pool, meta: Meta): Sections
    requires BankCount(meta) >= 0
  {
    var bases := Bases(pool.paPages);
    Cut(rows, |bases|, |bases| * |meta.candidates|, |ClassifyPairs(bases, meta.reps)|, BankCount(meta), meta.repeat)
  }

  lemma BankCountNatural(meta: Meta)
    ensures BankCount(meta) >= 0
  {
    var k := 2 * |meta.lattice| - One(meta.anchor in meta.lattice);
    assert k >= 0;
    Monotone(0, |meta.bankPages|, k);
  }

  ghost predicate Accepts(rows: seq<Query>, pool: Pool, meta: Meta) {
    BankCountNatural(meta);
    var bases := Bases(pool.paPages);
    var s := SliceAll(rows, pool, meta);
    && |rows| == Expected(pool, meta)
    && Matches(pool, s.self, SelfPairs(bases))
    && (|s.sweep| <= |bases| * |meta.candidates| && SweepMatches(pool, s.sweep, bases, meta.candidates))
    && Matches(pool, s.classify, ClassifyPairs(bases, meta.reps))
    && Matches(pool, s.bankMap, BankPairs(meta.bankPages, meta.lattice, meta.anchor))
    && |s.repeat| <= |bases| && Matches(pool, s.repeat, SelfPairs(bases))
  }

  // Accepts exactly when the count is the expected one and every checked row
  // addresses the pair it should; then the sections are the slices in order.
  method Split(rows: seq<Query>, pool: Pool, meta: Meta)
    returns (raised: bool, sections: Sections, problems: seq<Problem>)
    ensures !raised && problems == [] <==> Accepts(rows, pool, meta)
    ensures BankCount(meta) >= 0
    ensures !raised && problems == [] ==> sections == SliceAll(rows, pool, meta)
  {
    BankCountNatural(meta);
    var expected := CountRows(pool, meta);
    if |rows| != expected {
      return false, Sections([], [], [], [], [], []), [RowCount];
    }
    sections := SliceAll(rows, pool, meta);
    SweepIsShort(rows, pool, meta);
    raised, problems := CheckAll(sections, pool, meta);
  }

  method CountRows(pool: Pool, meta: Meta) returns (expected: int)
    ensures expected == Expected(pool, meta)
  {
    var bases := Bases(pool.paPages);
    var classifyCount := ClassifyCount(bases, meta.reps);
    expected := 3 + |bases| + |bases| * |meta.candidates| + classifyCount + BankCount(meta) + meta.repeat;
  }

  lemma SweepIsShort(rows: seq<Query>, pool: Pool, meta: Meta)
    requires BankCount(meta) >= 0
    ensures |SliceAll(rows, pool, meta).sweep| <= |pool.paPages| * |meta.candidates|
  {
  }

  method CheckAll(s: Sections, pool: Pool, meta: Meta) returns (raised: bool, problems: seq<Problem>)
    requires |s.sweep| <= |pool.paPages| * |meta.candidates|
    ensures !raised && problems == [] <==>
              var bases := Bases(pool.paPages);
              && Matches(pool, s.self, SelfPairs(bases)) && SweepMatches(pool, s.sweep, bases, meta.candidates)
              && Matches(pool, s.classify, ClassifyPairs(bases, meta.reps))
              && Matches(pool, s.bankMap, BankPairs(meta.bankPages, meta.lattice, meta.anchor))
              && |s.repeat| <= |bases| && Matches(pool, s.repeat, SelfPairs(bases))
  {
    var bases := Bases(pool.paPages);
    var more;
    raised, problems := CheckRows(pool, s.self, SelfPairs(bases), SelfRow, false);
    if raised { return; }
    raised, more := CheckSweep(pool, s.sweep, bases, meta.candidates);
    problems := problems + more;
    if raised { return; }
    raised, more := CheckRows(pool, s.classify, ClassifyPairs(bases, meta.reps), ClassifyRow, true);
    problems := problems + more;
    if raised { return; }
    raised, more := CheckRows(pool, s.bankMap, BankPairs(meta.bankPages, meta.lattice, meta.anchor), BankRow, true);
    problems := problems + more;
    if raised { return; }
    raised, more := CheckRows(pool, s.repeat, SelfPairs(bases), RepeatRow, false);
    problems := problems + more;
    raised := raised || |s.repeat| > |bases|;
  }

  // ---- the plan and the splitter undo each other -----------------------------------------

  function Queries(part: seq<Typed>): (r: seq<Query>)
    ensures |r| == |part| && forall i | 0 <= i < |part| :: r[i] == part[i].query
  {
    seq(|part|, i requires 0 <= i < |part| => part[i].query)
  }

  function Sectioned(p: Parts): Sections {
    Sections(Queries(p.calibration), Queries(p.self), Queries(p.sweep),
             Queries(p.classify), Queries(p.bankMap), Queries(p.repeat))
  }

  function Flat(s: Sections): seq<Query> {
    s.calibration + s.self + s.sweep + s.classify + s.bankMap + s.repeat
  }

  lemma QueriesJoined(p: Parts)
    ensures Queries(Joined(p)) == Flat(Sectioned(p))
  {
    QueriesAppend(p.calibration, p.self);
    QueriesAppend(p.calibration + p.self, p.sweep);
    QueriesAppend(p.calibration + p.self + p.sweep, p.classify);
    QueriesAppend(p.calibration + p.self + p.sweep + p.classify, p.bankMap);
    QueriesAppend(p.calibration + p.self + p.sweep + p.classify + p.bankMap, p.repeat);
  }

  lemma QueriesAppend(a: seq<Typed>, b: seq<Typed>)
    ensures Queries(a + b) == Queries(a) + Queries(b)
  {
  }

  lemma SliceMiddle(a: seq<Query>, b: seq<Query>, c: seq<Query>, n: int)
    requires n == |b| || (n >= |b| && c == [])
    ensures Slice(a + b + c, |a|, n) == b
  {
  }

  // What the counts are when they add up to the plan.
  lemma NoSurplus(pool: Pool, meta: Meta, p: Parts, fit: bool)
    requires Planned(pool, meta, p, fit) && Expected(pool, meta) == |Joined(p)|
    ensures |p.self| == |pool.paPages| && |p.sweep| == |pool.paPages| * |meta.candidates|
    ensures |p.classify| == |ClassifyPairs(Bases(pool.paPages), meta.reps)|
    ensures || (BankCount(meta) == |p.bankMap| && meta.repeat == |p.repeat|)
            || (BankCount(meta) >= |p.bankMap| && |p.repeat| == 0 && meta.repeat <= 0)
  {
    ExpectedIsPlanned(pool, meta, p, fit);
    RepeatLength(Bases(pool.paPages), meta.repeat);
  }

  // Cutting at the section lengths gives the sections back; the last two may
  // overshoot as far as they undo each other.
  lemma CutUndoesFlat(s: Sections, bank: nat, repeat: int)
    requires |s.calibration| == 3
    requires (bank == |s.bankMap| && repeat == |s.repeat|) || (bank >= |s.bankMap| && s.repeat == [] && repeat <= 0)
    ensures Cut(Flat(s), |s.self|, |s.sweep|, |s.classify|, bank, repeat) == s
  {
    var a1 := s.calibration + s.self;
    var a2 := a1 + s.sweep;
    var a3 := a2 + s.classify;
    SliceMiddle([], s.calibration, s.self + s.sweep + s.classify + s.bankMap + s.repeat, 3);
    SliceMiddle(s.calibration, s.self, s.sweep + s.classify + s.bankMap + s.repeat, |s.self|);
    SliceMiddle(a1, s.sweep, s.classify + s.bankMap + s.repeat, |s.sweep|);
    SliceMiddle(a2, s.classify, s.bankMap + s.repeat, |s.classify|);
    SliceMiddle(a3, s.bankMap, s.repeat, bank);
    Regroup(s);
    if bank == |s.bankMap| && repeat == |s.repeat| {
      SliceMiddle(a3 + s.bankMap, s.repeat, [], |s.repeat|);
    }
  }

  // Without a surplus the slices of a plan are its sections.
  lemma SlicesAreSections(pool: Pool, meta: Meta, p: Parts, fit: bool)
    requires Planned(pool, meta, p, fit) && Expected(pool, meta) == |Joined(p)|
    ensures BankCount(meta) >= 0 && SliceAll(Flat(Sectioned(p)), pool, meta) == Sectioned(p)
  {
    NoSurplus(pool, meta, p, fit);
    CutUndoesFlat(Sectioned(p), BankCount(meta), meta.repeat);
  }

  // The rows, split off after each section.
  lemma Regroup(s: Sections)
    ensures Flat(s) == [] + s.calibration + (s.self + s.sweep + s.classify + s.bankMap + s.repeat)
    ensures Flat(s) == s.calibration + s.self + (s.sweep + s.classify + s.bankMap + s.repeat)
    ensures Flat(s) == s.calibration + s.self + s.sweep + (s.classify + s.bankMap + s.repeat)
    ensures Flat(s) == s.calibration + s.self + s.sweep + s.classify + (s.bankMap + s.repeat)
    ensures Flat(s) == s.calibration + s.self + s.sweep + s.classify + s.bankMap + s.repeat + []
  {
  }

  lemma {:induction false} SweepAt(bases: seq<nat>, masks: seq<nat>, i: nat)
    requires i < |bases| * |masks|
    ensures |masks| > 0 && i / |masks| < |bases| && i % |masks| < |masks|
    ensures SweepPairs(bases, masks)[i] == (bases[i / |masks|], bases[i / |masks|] + masks[i % |masks|])
  {
    var n, m := |bases|, |masks|;
    RowAndColumn(i, n, m);
    TimesOneMore(n - 1, m);
    if i < (n - 1) * m {
      SweepAt(bases[..n - 1], masks, i);
    } else {
      LastRow(i, n - 1, m);
    }
  }

  lemma LastRow(i: nat, r: nat, m: nat)
    requires r * m <= i < r * m + m
    ensures m > 0 && i / m == r && i % m == i - r * m
  {
    var q := i / m;
    assert i == q * m + i % m;
    if q > r {
      Monotone(r + 1, q, m);
      TimesOneMore(r, m);
    } else if q < r {
      Monotone(q + 1, r, m);
      TimesOneMore(q, m);
    }
  }

  ghost predicate Aligned(pool: Pool) {
    forall p | p in pool.paPages :: p.pa % PAGE == 0 && p.size == PAGE
  }

  lemma MadeMatches(pool: Pool, part: seq<Typed>, section: Section, want: seq<Pair>)
    requires Made(pool, part, section, want, true)
    ensures Matches(pool, Queries(part), want)
  {
  }

  lemma SweepIsAccepted(pool: Pool, masks: seq<nat>, part: seq<Typed>)
    requires Made(pool, part, AnchorSweep, SweepPairs(Bases(pool.paPages), masks), true) && Aligned(pool)
    requires forall m | m in masks :: m < PAGE
    ensures SweepMatches(pool, Queries(part), Bases(pool.paPages), masks)
  {
    var bases := Bases(pool.paPages);
    forall i | 0 <= i < |part| ensures SweepRowOk(pool, Queries(part)[i], bases, masks, i) {
      SweepAt(bases, masks, i);
      assert Queries(part)[i] == part[i].query;
      SweptRowOk(pool, masks, i / |masks|, i % |masks|);
    }
  }

  // A planned cell of the sweep lies on its page.
  lemma SweptRowOk(pool: Pool, masks: seq<nat>, row: nat, column: nat)
    requires Aligned(pool) && (forall m | m in masks :: m < PAGE) && row < |pool.paPages| && column < |masks|
    ensures pool.paPages[row].pa / PAGE == (pool.paPages[row].pa + masks[column]) / PAGE
  {
    assert pool.paPages[row] in pool.paPages && masks[column] in masks;
    SamePage(pool.paPages[row].pa, masks[column]);
  }

  lemma RepeatMatches(pool: Pool, part: seq<Query>, bases: seq<nat>, repeat: int)
    requires Matches(pool, part, SelfPairs(RepeatBases(bases, repeat))) && |part| == |RepeatBases(bases, repeat)|
    ensures |part| <= |bases| && Matches(pool, part, SelfPairs(bases))
  {
  }

  lemma PlanIsAccepted(pool: Pool, meta: Meta, p: Parts)
    requires Planned(pool, meta, p, true) && Surplus(meta) == 0 && Aligned(pool)
    requires forall m | m in meta.candidates :: m < PAGE
    ensures Accepts(Flat(Sectioned(p)), pool, meta)
  {
    var bases := Bases(pool.paPages);
    BankCountNatural(meta);
    QueriesJoined(p);
    ExpectedIsPlanned(pool, meta, p, true);
    SlicesAreSections(pool, meta, p, true);
    SweepIsAccepted(pool, meta.candidates, p.sweep);
    MadeMatches(pool, p.self, Self, SelfPairs(bases));
    MadeMatches(pool, p.classify, Classify, ClassifyPairs(bases, meta.reps));
    MadeMatches(pool, p.bankMap, BankMap, BankPairs(meta.bankPages, meta.lattice, meta.anchor));
    MadeMatches(pool, p.repeat, Repeat, SelfPairs(RepeatBases(bases, meta.repeat)));
    RepeatMatches(pool, Queries(p.repeat), bases, meta.repeat);
  }

  lemma SamePage(base: nat, low: nat)
    requires base % PAGE == 0 && low < PAGE
    ensures base / PAGE == (base + low) / PAGE
  {
  }

  // For aligned 2 MiB pages and masks inside them, the splitter accepts the rows
  // of a plan exactly when it expects none more and none fewer, and then returns
  // the planned sections.
  method PlanThenSplit(pool: Pool, repPas: seq<nat>, candidates: seq<nat>, bankPas: seq<nat>, anchor: nat,
                       probes: seq<nat>, repeatPages: int)
    returns (raised: bool, sections: Sections, problems: seq<Problem>, meta: Meta, ghost parts: Parts)
    requires Valid(pool) && Aligned(pool)
    requires (forall m | m in candidates + probes :: m < PAGE) && anchor < PAGE
    ensures !raised && problems == [] <==> Surplus(meta) == 0
    ensures meta.anchor == anchor && forall m :: m in meta.lattice <==> m in probes || m == COLUMN_PROBE
    ensures repeatPages < 0 ==> meta.repeat == repeatPages
    ensures !raised && problems == [] ==> sections == Sectioned(parts)
    ensures forall i | 0 <= i < |parts.self| :: parts.self[i].section == Self
    ensures forall i | 0 <= i < |parts.bankMap| :: parts.bankMap[i].section == BankMap
  {
    var plan, droppedReps, droppedBanks;
    plan, meta, droppedReps, droppedBanks, parts :=
      PlanTableBuild(pool, repPas, candidates, bankPas, anchor, probes, repeatPages);
    FirstsAre(probes + [COLUMN_PROBE]);
    MasksFit(pool, candidates, meta.lattice, anchor, probes);
    QueriesJoined(parts);
    raised, sections, problems := Split(Queries(plan), pool, meta);
    ExpectedIsPlanned(pool, meta, parts, true);
    if Surplus(meta) == 0 {
      PlanIsAccepted(pool, meta, parts);
      SlicesAreSections(pool, meta, parts, true);
    }
  }

  lemma MasksFit(pool: Pool, candidates: seq<nat>, lattice: seq<nat>, anchor: nat, probes: seq<nat>)
    requires Aligned(pool) && (forall m | m in candidates + probes :: m < PAGE) && anchor < PAGE
    requires forall m :: m in lattice <==> m in probes || m == COLUMN_PROBE
    ensures Fit(pool.paPages, candidates + lattice + [anchor]) && forall m | m in candidates :: m < PAGE
  {
    assert forall m | m in candidates || m in probes :: m in candidates + probes;
  }

  // ---- accepted rows address the planned pairs ----------------------------------------------

  lemma AcceptedAddresses(pool: Pool, meta: Meta, p: Parts, rows: seq<Query>)
    requires Planned(pool, meta, p, true) && Accepts(rows, pool, meta) && |rows| == |Joined(p)|
    ensures forall i | 3 <= i < |rows| :: PasOf(pool, rows[i]) == PasOf(pool, Joined(p)[i].query)
  {
    BankCountNatural(meta);
    var s, t := SliceAll(rows, pool, meta), Sectioned(p);
    RowsAreSlices(pool, meta, p, rows);
    SectionsAgree(pool, meta, p, s);
    QueriesJoined(p);
    forall i | 3 <= i < |rows| ensures PasOf(pool, rows[i]) == PasOf(pool, Joined(p)[i].query) {
      FlatAt(pool, s, t, i);
      assert Queries(Joined(p))[i] == Flat(t)[i];
    }
  }

  ghost predicate SamePas(pool: Pool, a: seq<Query>, b: seq<Query>) {
    |a| == |b| && forall i | 0 <= i < |a| :: PasOf(pool, a[i]) == PasOf(pool, b[i])
  }

  ghost predicate SameSections(pool: Pool, s: Sections, t: Sections) {
    && |s.calibration| == |t.calibration| == 3
    && SamePas(pool, s.self, t.self) && SamePas(pool, s.sweep, t.sweep) && SamePas(pool, s.classify, t.classify)
    && SamePas(pool, s.bankMap, t.bankMap) && SamePas(pool, s.repeat, t.repeat)
  }

  lemma BothMatch(pool: Pool, a: seq<Query>, part: seq<Typed>, section: Section, want: seq<Pair>)
    requires Matches(pool, a, want) && Made(pool, part, section, want, true) && |a| == |part|
    ensures SamePas(pool, a, Queries(part))
  {
  }

  lemma SweepsMatch(pool: Pool, a: seq<Query>, bases: seq<nat>, masks: seq<nat>)
    requires |a| <= |bases| * |masks| && SweepMatches(pool, a, bases, masks)
    ensures Matches(pool, a, SweepPairs(bases, masks))
  {
    forall i | 0 <= i < |a| ensures PasOf(pool, a[i]) == Some(SweepPairs(bases, masks)[i]) {
      assert SweepRowOk(pool, a[i], bases, masks, i);
      SweepAt(bases, masks, i);
    }
  }

  lemma RepeatsMatch(pool: Pool, part: seq<Query>, bases: seq<nat>, repeat: int)
    requires Matches(pool, part, SelfPairs(bases)) && |part| == |RepeatBases(bases, repeat)|
    ensures Matches(pool, part, SelfPairs(RepeatBases(bases, repeat)))
  {
  }

  lemma SectionsAgree(pool: Pool, meta: Meta, p: Parts, s: Sections)
    requires Planned(pool, meta, p, true)
    requires SameLengths(s, p)
    requires Matches(pool, s.self, SelfPairs(Bases(pool.paPages)))
    requires |s.sweep| <= |pool.paPages| * |meta.candidates|
             && SweepMatches(pool, s.sweep, Bases(pool.paPages), meta.candidates)
    requires Matches(pool, s.classify, ClassifyPairs(Bases(pool.paPages), meta.reps))
    requires Matches(pool, s.bankMap, BankPairs(meta.bankPages, meta.lattice, meta.anchor))
    requires Matches(pool, s.repeat, SelfPairs(Bases(pool.paPages)))
    ensures SameSections(pool, s, Sectioned(p))
  {
    var bases := Bases(pool.paPages);
    BothMatch(pool, s.self, p.self, Self, SelfPairs(bases));
    SweepsMatch(pool, s.sweep, bases, meta.candidates);
    BothMatch(pool, s.sweep, p.sweep, AnchorSweep, SweepPairs(bases, meta.candidates));
    BothMatch(pool, s.classify, p.classify, Classify, ClassifyPairs(bases, meta.reps));
    BothMatch(pool, s.bankMap, p.bankMap, BankMap, BankPairs(meta.bankPages, meta.lattice, meta.anchor));
    RepeatsMatch(pool, s.repeat, bases, meta.repeat);
    BothMatch(pool, s.repeat, p.repeat, Repeat, SelfPairs(RepeatBases(bases, meta.repeat)));
  }

  predicate SameLengths(s: Sections, p: Parts) {
    && |s.calibration| == |p.calibration| == 3 && |s.self| == |p.self| && |s.sweep| == |p.sweep|
    && |s.classify| == |p.classify| && |s.bankMap| == |p.bankMap| && |s.repeat| == |p.repeat|
  }

  lemma FlatAt(pool: Pool, s: Sections, t: Sections, i: nat)
    requires SameSections(pool, s, t) && 3 <= i < |Flat(s)|
    ensures i < |Flat(t)| && PasOf(pool, Flat(s)[i]) == PasOf(pool, Flat(t)[i])
  {
  }

  // Consecutive slices rejoin.
  lemma CutRejoins(rows: seq<Query>, n1: nat, n2: nat, n3: nat, n4: nat, n5: nat, bank: nat, repeat: int)
    requires |rows| == 3 + n1 + n2 + n3 + n4 + n5
    requires (bank == n4 && repeat == n5) || (bank >= n4 && n5 == 0 && repeat <= 0)
    ensures var s := Cut(rows, n1, n2, n3, bank, repeat);
            && |s.calibration| == 3 && |s.self| == n1 && |s.sweep| == n2 && |s.classify| == n3
            && |s.bankMap| == n4 && |s.repeat| == n5 && rows == Flat(s)
  {
  }

  // Rows as many as planned are cut into slices as long as the sections.
  lemma RowsAreSlices(pool: Pool, meta: Meta, p: Parts, rows: seq<Query>)
    requires Planned(pool, meta, p, true) && |rows| == Expected(pool, meta) == |Joined(p)|
    ensures BankCount(meta) >= 0
    ensures SameLengths(SliceAll(rows, pool, meta), p) && rows == Flat(SliceAll(rows, pool, meta))
  {
    NoSurplus(pool, meta, p, true);
    CutRejoins(rows, |p.self|, |p.sweep|, |p.classify|, |p.bankMap|, |p.repeat|, BankCount(meta), meta.repeat);
  }
}
