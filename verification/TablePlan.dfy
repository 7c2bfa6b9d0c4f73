// The table-build query plan (`plan_table_build_queries` in
// tools/g3_probe/g3_pool.py).
module TablePlan {
  import opened Outcomes
  import opened PlannedPairs
  import opened PoolMaps
  import opened Sorting

  const CALIBRATION: seq<nat> := [0, 8192, 852224]
  const COLUMN_PROBE: nat := 0x200

  datatype Section = Calibration | Self | AnchorSweep | Classify | BankMap | Repeat

  datatype Typed = Typed(query: Query, section: Section)

  // What the plan records for the splitter.
  datatype Meta = Meta(candidates: seq<nat>, reps: seq<nat>, lattice: seq<nat>, anchor: nat, bankPages: seq<nat>,
                       repeat: int)

  function PageQuery(pool: Pool, p: Page, a: nat, b: nat): Query
    requires Valid(pool) && Known(pool, p)
  {
    assert ChunkOk(p.chunk, pool.chunks[p.chunk]);
    Query(p.chunk, OffsetOf(pool, p) + a, p.chunk, OffsetOf(pool, p) + b)
  }

  function CrossQuery(pool: Pool, p: Page, q: Page): Query
    requires Valid(pool) && Known(pool, p) && Known(pool, q)
  {
    assert ChunkOk(p.chunk, pool.chunks[p.chunk]) && ChunkOk(q.chunk, pool.chunks[q.chunk]);
    Query(p.chunk, OffsetOf(pool, p), q.chunk, OffsetOf(pool, q))
  }

  lemma PageQueryPas(pool: Pool, p: Page, a: nat, b: nat)
    requires Valid(pool) && Known(pool, p) && a < p.size && b < p.size
    ensures PasOf(pool, PageQuery(pool, p, a, b)) == Some((p.pa + a, p.pa + b))
  {
    OffsetReachesPage(pool, p, a);
    OffsetReachesPage(pool, p, b);
  }

  lemma CrossQueryPas(pool: Pool, p: Page, q: Page)
    requires Valid(pool) && Known(pool, p) && Known(pool, q)
    ensures PasOf(pool, CrossQuery(pool, p, q)) == Some((p.pa, q.pa))
  {
    SoundPage(pool, p);
    SoundPage(pool, q);
    OffsetReachesPage(pool, p, 0);
    OffsetReachesPage(pool, q, 0);
  }

  lemma SoundPage(pool: Pool, p: Page)
    requires Valid(pool) && Known(pool, p)
    ensures p.size > 0
  {
    assert ChunkOk(p.chunk, pool.chunks[p.chunk]);
  }

  // Every mask stays inside every page.
  ghost predicate Fit(pages: seq<Page>, masks: seq<nat>) {
    forall p, m | p in pages && m in masks :: m < p.size
  }

  // A planned section: its tag, its length, and the pairs its queries address.
  ghost predicate Made(pool: Pool, part: seq<Typed>, section: Section, want: seq<Pair>, fit: bool) {
    && |part| == |want| && (forall i | 0 <= i < |part| :: part[i].section == section)
    && (fit ==> forall i | 0 <= i < |part| :: PasOf(pool, part[i].query) == Some(want[i]))
  }

  lemma MadeMore(pool: Pool, part: seq<Typed>, section: Section, want: seq<Pair>, fit: bool, more: seq<Typed>,
                 pairs: seq<Pair>)
    requires Made(pool, part, section, want, fit) && Made(pool, more, section, pairs, fit)
    ensures Made(pool, part + more, section, want + pairs, fit)
  {
  }

  ghost predicate AllKnown(pool: Pool, pages: seq<Page>) {
    forall p | p in pages :: Known(pool, p)
  }

  // ---- the sections -------------------------------------------------------------

  // The first page against three fixed offsets.
  method PlanCalibration(pool: Pool) returns (part: seq<Typed>)
    requires Valid(pool)
    ensures Made(pool, part, Calibration, SweepOf(pool.paPages[0].pa, CALIBRATION), Fit(pool.paPages[..1], CALIBRATION))
  {
    part := [];
    var first := pool.paPages[0];
    ghost var fit := Fit(pool.paPages[..1], CALIBRATION);
    assert first in pool.paPages[..1];
    SoundPage(pool, first);
    for i := 0 to |CALIBRATION|
      invariant |part| == i && forall k | 0 <= k < i :: part[k].section == Calibration
      invariant fit ==> forall k | 0 <= k < i ::
                PasOf(pool, part[k].query) == Some((first.pa, first.pa + CALIBRATION[k]))
    {
      if fit {
        assert CALIBRATION[i] in CALIBRATION;
        PageQueryPas(pool, first, 0, CALIBRATION[i]);
      }
      part := part + [Typed(PageQuery(pool, first, 0, CALIBRATION[i]), Calibration)];
    }
  }

  // The self pairs of some pages; also the repeat section.
  method PlanSelf(pool: Pool, pages: seq<Page>, section: Section) returns (part: seq<Typed>)
    requires Valid(pool) && AllKnown(pool, pages)
    ensures Made(pool, part, section, SelfPairs(Bases(pages)), true)
  {
    part := [];
    for i := 0 to |pages|
      invariant |part| == i && forall k | 0 <= k < i ::
                  part[k].section == section && PasOf(pool, part[k].query) == Some((pages[k].pa, pages[k].pa))
    {
      SoundPage(pool, pages[i]);
      PageQueryPas(pool, pages[i], 0, 0);
      part := part + [Typed(PageQuery(pool, pages[i], 0, 0), section)];
    }
  }

  method PlanSweep(pool: Pool, pages: seq<Page>, masks: seq<nat>) returns (part: seq<Typed>)
    requires Valid(pool) && AllKnown(pool, pages)
    ensures Made(pool, part, AnchorSweep, SweepPairs(Bases(pages), masks), Fit(pages, masks))
  {
    part := [];
    ghost var bases, fit := Bases(pages), Fit(pages, masks);
    for i := 0 to |pages|
      invariant Made(pool, part, AnchorSweep, SweepPairs(bases[..i], masks), fit)
    {
      var row: seq<Typed> := [];
      for k := 0 to |masks|
        invariant |row| == k && forall x | 0 <= x < k :: row[x].section == AnchorSweep
        invariant fit ==> forall x | 0 <= x < k :: PasOf(pool, row[x].query) == Some((bases[i], bases[i] + masks[x]))
      {
        SoundPage(pool, pages[i]);
        if fit {
          assert pages[i] in pages && masks[k] in masks;
          PageQueryPas(pool, pages[i], 0, masks[k]);
        }
        row := row + [Typed(PageQuery(pool, pages[i], 0, masks[k]), AnchorSweep)];
      }
      MadeMore(pool, part, AnchorSweep, SweepPairs(bases[..i], masks), fit, row, SweepOf(bases[i], masks));
      assert bases[..i + 1][..i] == bases[..i];
      part := part + row;
    }
    assert bases[..|pages|] == bases;
  }

  method PlanClassify(pool: Pool, pages: seq<Page>, reps: seq<Page>) returns (part: seq<Typed>)
    requires Valid(pool) && AllKnown(pool, pages) && AllKnown(pool, reps)
    ensures Made(pool, part, Classify, ClassifyPairs(Bases(pages), Bases(reps)), true)
  {
    part := [];
    ghost var bases, repBases := Bases(pages), Bases(reps);
    for i := 0 to |pages|
      invariant Made(pool, part, Classify, ClassifyPairs(bases[..i], repBases), true)
    {
      var row: seq<Typed> := [];
      for k := 0 to |reps|
        invariant Made(pool, row, Classify, ClassifyOf(bases[i], repBases[..k]), true)
      {
        assert repBases[..k + 1][..k] == repBases[..k];
        if pages[i].pa != reps[k].pa {
          CrossQueryPas(pool, pages[i], reps[k]);
          var next := Typed(CrossQuery(pool, pages[i], reps[k]), Classify);
          MadeMore(pool, row, Classify, ClassifyOf(bases[i], repBases[..k]), true, [next], [(bases[i], repBases[k])]);
          row := row + [next];
        }
      }
      assert repBases[..|reps|] == repBases;
      MadeMore(pool, part, Classify, ClassifyPairs(bases[..i], repBases), true, row, ClassifyOf(bases[i], repBases));
      assert bases[..i + 1][..i] == bases[..i];
      part := part + row;
    }
    assert bases[..|pages|] == bases;
  }

  method PlanBankPage(pool: Pool, p: Page, lattice: seq<nat>, anchor: nat) returns (row: seq<Typed>)
    requires Valid(pool) && Known(pool, p)
    ensures Made(pool, row, BankMap, BankOf(p.pa, lattice, anchor), Fit([p], lattice) && anchor < p.size)
  {
    row := [];
    ghost var fit := Fit([p], lattice) && anchor < p.size;
    for k := 0 to |lattice|
      invariant Made(pool, row, BankMap, BankOf(p.pa, lattice[..k], anchor), fit)
    {
      var low := lattice[k];
      var next := [Typed(PageQuery(pool, p, 0, low), BankMap)];
      if fit {
        assert p in [p] && low in lattice;
        PageQueryPas(pool, p, 0, low);
      }
      if low != 0 && low != anchor {
        if fit {
          PageQueryPas(pool, p, anchor, low);
        }
        next := next + [Typed(PageQuery(pool, p, anchor, low), BankMap)];
      }
      MadeMore(pool, row, BankMap, BankOf(p.pa, lattice[..k], anchor), fit, next, BankAt(p.pa, low, anchor));
      assert lattice[..k + 1][..k] == lattice[..k];
      row := row + next;
    }
    assert lattice[..|lattice|] == lattice;
  }

  method PlanBankMap(pool: Pool, pages: seq<Page>, lattice: seq<nat>, anchor: nat) returns (part: seq<Typed>)
    requires Valid(pool) && AllKnown(pool, pages)
    ensures Made(pool, part, BankMap, BankPairs(Bases(pages), lattice, anchor), Fit(pages, lattice + [anchor]))
  {
    part := [];
    ghost var bases, fit := Bases(pages), Fit(pages, lattice + [anchor]);
    for i := 0 to |pages|
      invariant Made(pool, part, BankMap, BankPairs(bases[..i], lattice, anchor), fit)
    {
      var row := PlanBankPage(pool, pages[i], lattice, anchor);
      assert fit ==> Fit([pages[i]], lattice) && anchor < pages[i].size by {
        assert pages[i] in pages && anchor in lattice + [anchor];
        assert forall m | m in lattice :: m in lattice + [anchor];
      }
      MadeMore(pool, part, BankMap, BankPairs(bases[..i], lattice, anchor), fit, row,
        BankOf(bases[i], lattice, anchor));
      assert bases[..i + 1][..i] == bases[..i];
      part := part + row;
    }
    assert bases[..|pages|] == bases;
  }

  // ---- the plan ---------------------------------------------------------------------

  function FindPa(pages: seq<Page>, pa: nat): (r: Option<Page>)
    ensures r.Some? ==> r.value in pages && r.value.pa == pa
    ensures r.None? ==> forall p | p in pages :: p.pa != pa
  {
    if pages == [] then None else if pages[0].pa == pa then Some(pages[0]) else FindPa(pages[1..], pa)
  }

  predicate Holds(pages: seq<Page>, pa: nat) { FindPa(pages, pa).Some? }

  function Held(pages: seq<Page>): nat -> bool { (pa: nat) => Holds(pages, pa) }
  function Missing(pages: seq<Page>): nat -> bool { (pa: nat) => !Holds(pages, pa) }

  // The pages found for a request: one for each address, or for each different one.
  function Requested(pages: seq<Page>, wanted: seq<nat>, once: bool): seq<nat> {
    if once then Firsts(Filter(Held(pages), wanted)) else Filter(Held(pages), wanted)
  }

  // The requested pages that the pool has, in order; `once` keeps the first of
  // each. Nothing is dropped without a report.
  method Resolve(pages: seq<Page>, wanted: seq<nat>, once: bool) returns (found: seq<Page>, dropped: seq<nat>)
    ensures Bases(found) == Requested(pages, wanted, once)
    ensures dropped == Filter(Missing(pages), wanted)
    ensures forall p | p in found :: p in pages
  {
    found, dropped := [], [];
    for i := 0 to |wanted|
      invariant Bases(found) == Requested(pages, wanted[..i], once)
      invariant dropped == Filter(Missing(pages), wanted[..i])
      invariant forall k | 0 <= k < |found| :: FindPa(pages, found[k].pa) == Some(found[k])
    {
      FilterStep(Missing(pages), wanted, i);
      RequestedStep(pages, wanted, i, once);
      match FindPa(pages, wanted[i])
      case None => dropped := dropped + [wanted[i]];
      case Some(p) =>
        if once {
          FoundBefore(pages, found, p);
        }
        if !once || p !in found {
          assert Bases(found + [p]) == Bases(found) + [p.pa];
          found := found + [p];
        }
    }
    assert wanted[..|wanted|] == wanted;
  }

  lemma RequestedStep(pages: seq<Page>, wanted: seq<nat>, i: nat, once: bool)
    requires i < |wanted|
    ensures var before, pa := Requested(pages, wanted[..i], once), wanted[i];
            Requested(pages, wanted[..i + 1], once) ==
              before + if Holds(pages, pa) && (!once || pa !in before) then [pa] else []
  {
    var held := Filter(Held(pages), wanted[..i]);
    FilterStep(Held(pages), wanted, i);
    FirstsAre(held);
    if Holds(pages, wanted[i]) {
      assert (held + [wanted[i]])[..|held|] == held;
    } else {
      assert held + [] == held;
    }
    assert forall s: seq<nat> :: s + [] == s;
  }

  // A page was found before exactly when its address was.
  lemma FoundBefore(pages: seq<Page>, found: seq<Page>, p: Page)
    requires FindPa(pages, p.pa) == Some(p) && forall k | 0 <= k < |found| ::
             FindPa(pages, found[k].pa) == Some(found[k])
    ensures p in found <==> p.pa in Bases(found)
  {
    if p in found {
      var k :| 0 <= k < |found| && found[k] == p;
      assert Bases(found)[k] == p.pa;
    }
    if p.pa in Bases(found) {
      var k :| 0 <= k < |found| && Bases(found)[k] == p.pa;
      assert found[k] == p;
    }
  }

  // The probes and the column probe, each once.
  method Lattice(probes: seq<nat>) returns (lattice: seq<nat>)
    ensures lattice == Firsts(probes + [COLUMN_PROBE])
  {
    var all := probes + [COLUMN_PROBE];
    lattice := [];
    for i := 0 to |all|
      invariant lattice == Firsts(all[..i])
    {
      assert all[..i + 1][..i] == all[..i];
      FirstsAre(all[..i]);
      if all[i] !in lattice {
        lattice := lattice + [all[i]];
      }
    }
    assert all[..|all|] == all;
  }

  // The six sections in their contractual order.
  datatype Parts = Parts(calibration: seq<Typed>, self: seq<Typed>, sweep: seq<Typed>, classify: seq<Typed>,
                         bankMap: seq<Typed>, repeat: seq<Typed>)

  function Joined(p: Parts): seq<Typed> {
    p.calibration + p.self + p.sweep + p.classify + p.bankMap + p.repeat
  }

  function RepeatBases(bases: seq<nat>, repeat: int): seq<nat> {
    if repeat <= 0 then [] else if repeat >= |bases| then bases else bases[..repeat]
  }

  // What the plan consists of, for what its meta record says.
  ghost predicate Planned(pool: Pool, meta: Meta, p: Parts, fit: bool) {
    var bases := Bases(pool.paPages);
    && pool.paPages != []
    && Made(pool, p.calibration, Calibration, SweepOf(bases[0], CALIBRATION), Fit(pool.paPages[..1], CALIBRATION))
    && Made(pool, p.self, Self, SelfPairs(bases), true)
    && Made(pool, p.sweep, AnchorSweep, SweepPairs(bases, meta.candidates), fit)
    && Made(pool, p.classify, Classify, ClassifyPairs(bases, meta.reps), true)
    && Made(pool, p.bankMap, BankMap, BankPairs(meta.bankPages, meta.lattice, meta.anchor), fit)
    && Made(pool, p.repeat, Repeat, SelfPairs(RepeatBases(bases, meta.repeat)), true)
    && Distinct(meta.lattice) && meta.repeat <= |bases|
  }

  method PlanTableBuild(pool: Pool, repPas: seq<nat>, candidates: seq<nat>, bankPas: seq<nat>, anchor: nat,
                        probes: seq<nat>, repeatPages: int)
    returns (plan: seq<Typed>, meta: Meta, droppedReps: seq<nat>, droppedBanks: seq<nat>, ghost parts: Parts)
    requires Valid(pool)
    ensures plan == Joined(parts) && Planned(pool, meta, parts, Fit(pool.paPages, candidates + meta.lattice + [anchor]))
    ensures meta.candidates == candidates && meta.anchor == anchor
    ensures meta.repeat == if repeatPages < |pool.paPages| then repeatPages else |pool.paPages|
    ensures meta.lattice == Firsts(probes + [COLUMN_PROBE])
    ensures meta.reps == Requested(pool.paPages, repPas, true)
            && meta.bankPages == Requested(pool.paPages, bankPas, false)
    ensures droppedReps == Filter(Missing(pool.paPages), repPas)
            && droppedBanks == Filter(Missing(pool.paPages), bankPas)
  {
    var pages := pool.paPages;
    ghost var bases := Bases(pages);
    var calibration := PlanCalibration(pool);
    var self := PlanSelf(pool, pages, Self);
    var sweep := PlanSweep(pool, pages, candidates);
    var reps, banks;
    reps, droppedReps := Resolve(pages, repPas, true);
    var classify := PlanClassify(pool, pages, reps);
    var lattice := Lattice(probes);
    banks, droppedBanks := Resolve(pages, bankPas, false);
    var bankMap := PlanBankMap(pool, banks, lattice, anchor);
    var repeat: seq<Typed> := [];
    if repeatPages > 0 {
      repeat := PlanSelf(pool, if repeatPages < |pages| then pages[..repeatPages] else pages, Repeat);
    }
    meta := Meta(candidates, Bases(reps), lattice, anchor, Bases(banks),
                 if repeatPages < |pages| then repeatPages else |pages|);
    plan := calibration + self + sweep + classify + bankMap + repeat;
    parts := Parts(calibration, self, sweep, classify, bankMap, repeat);
    FirstsAre(probes + [COLUMN_PROBE]);
    FitParts(pages, banks, candidates, lattice, anchor);
    if repeatPages > 0 {
      RepeatPart(pages, repeatPages);
    }
  }

  lemma RepeatPart(pages: seq<Page>, repeat: int)
    requires repeat > 0
    ensures var m := if repeat < |pages| then repeat else |pages|;
            Bases(if repeat < |pages| then pages[..repeat] else pages) == RepeatBases(Bases(pages), m)
  {
  }

  lemma FitParts(pages: seq<Page>, banks: seq<Page>, candidates: seq<nat>, lattice: seq<nat>, anchor: nat)
    requires forall p | p in banks :: p in pages
    ensures Fit(pages, candidates + lattice + [anchor]) ==> Fit(pages, candidates) && Fit(banks, lattice + [anchor])
  {
    assert forall m | m in candidates || m in lattice + [anchor] :: m in candidates + lattice + [anchor];
  }
}
