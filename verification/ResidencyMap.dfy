// The L2 residency map (src/semantic/residency_map.cpp): hit and miss
// observations become residency periods, a per-unit index and resident times.
module ResidencyMap {
  import opened Outcomes
  import opened Sorting
  import opened StepFunction

  // 32-bit unsigned values; the largest one stands for "none".
  const TWO32: nat := 0x1_0000_0000
  const NONE: nat := TWO32 - 1

  datatype Period = Period(start: nat, end: nat)
  datatype Tagged = Tagged(unit: nat, period: Period)
  datatype Error = AfterFinish | OutOfRange | NotIncreasing | NotFinished | WrongSize | NoTime | OutOfBounds

  // A conversion or sum in 32 bits.
  function Narrow(n: nat): nat { n % TWO32 }

  // Every unit of a map fits the 32 bits it is stored in exactly when there are
  // at most 2^32 of them; the constructor allows fewer than 2^32 - 1.
  lemma NarrowIsExact(units: nat)
    ensures (forall u | 0 <= u < units :: Narrow(u) == u) <==> units <= TWO32
  {
    if units > TWO32 {
      assert Narrow(TWO32) != TWO32;
    }
  }

  // The prefix sums have room for every image exactly when their number is not
  // the largest 32-bit value: then the length wraps to zero.
  function PrefixLength(images: nat): nat { Narrow(images + 1) }

  lemma PrefixSuffices(images: nat)
    requires images <= NONE
    ensures PrefixLength(images) == images + 1 <==> images < NONE
    ensures PrefixLength(NONE) == 0
  {
  }

  predicate InPeriods(ps: seq<Period>, i: nat) {
    exists k :: 0 <= k < |ps| && ps[k].start <= i <= ps[k].end
  }

  // Periods in order, with at least one image between two of them.
  predicate Chain(ps: seq<Period>) {
    && (forall k | 0 <= k < |ps| :: ps[k].start <= ps[k].end)
    && (forall j, k | 0 <= j < k < |ps| :: ps[j].end + 1 < ps[k].start)
  }

  function OnUnit(u: nat): Tagged -> bool {
    (t: Tagged) => t.unit == u
  }

  function PeriodsOf(ts: seq<Tagged>): (r: seq<Period>)
    ensures |r| == |ts| && forall k | 0 <= k < |ts| :: r[k] == ts[k].period
  {
    seq(|ts|, k requires 0 <= k < |ts| => ts[k].period)
  }

  function UnitPeriods(closed: seq<Tagged>, u: nat): seq<Period> {
    PeriodsOf(Filter(OnUnit(u), closed))
  }

  // One unit's online state against its observations.
  ghost predicate UnitState(hist: seq<Obs>, u: nat, open: nat, last: nat, ps: seq<Period>) {
    && (last == NONE <==> LastSeen(hist, u).None?)
    && (last == NONE ==> open == NONE && ps == [])
    && (last != NONE ==>
          && LastSeen(hist, u) == Some(last)
          && Chain(ps) && (forall k | 0 <= k < |ps| :: ps[k].end < last)
          && (open != NONE ==> open <= last && forall k | 0 <= k < |ps| :: ps[k].end + 1 < open)
          && (forall i: nat | i <= last :: Covered(ps, open, i) <==> Resident(hist, u, i)))
  }

  predicate Covered(ps: seq<Period>, open: nat, i: nat) {
    InPeriods(ps, i) || (open != NONE && open <= i)
  }

  lemma InPeriodsSnoc(ps: seq<Period>, p: Period, i: nat)
    ensures InPeriods(ps + [p], i) <==> InPeriods(ps, i) || p.start <= i <= p.end
  {
    if InPeriods(ps, i) {
      var k :| 0 <= k < |ps| && ps[k].start <= i <= ps[k].end;
      assert (ps + [p])[k] == ps[k];
    }
    if p.start <= i <= p.end {
      assert (ps + [p])[|ps|] == p;
    }
    if InPeriods(ps + [p], i) {
      var k :| 0 <= k < |ps + [p]| && (ps + [p])[k].start <= i <= (ps + [p])[k].end;
      assert k < |ps| ==> ps[k].start <= i <= ps[k].end;
    }
  }

  // What an accepted observation makes of the unit's open start.
  function NextOpen(first: bool, open: nat, image: nat, resident: bool): nat {
    if !resident then NONE else if open != NONE then open else if first then 0 else image
  }

  // The heart of `observe`.
  lemma ObserveKeepsUnit(hist: seq<Obs>, units: nat, images: nat, u: nat, open: nat, last: nat, ps: seq<Period>,
                         image: nat, resident: bool)
    requires Legal(hist, units, images) && images <= NONE && image < images && u < units
    requires UnitState(hist, u, open, last, ps)
    requires last != NONE ==> last < image
    ensures var closes := !resident && open != NONE;
            && (closes ==> 0 < image && open <= image - 1)
            && UnitState(hist + [Obs(u, image, resident)], u, NextOpen(last == NONE, open, image, resident), image,
                         if closes then ps + [Period(open, image - 1)] else ps)
  {
    var o := Obs(u, image, resident);
    var first, closes := last == NONE, !resident && open != NONE;
    var open' := NextOpen(first, open, image, resident);
    var ps' := if closes then ps + [Period(open, image - 1)] else ps;
    SeenUnits(hist, units, images, u);
    Snoc(hist, o, u, image);
    forall i: nat | i <= image ensures Covered(ps', open', i) <==> Resident(hist + [o], u, i) {
      ObserveKeepsImage(hist, units, images, u, open, last, ps, image, resident, i);
    }
  }

  lemma ObserveKeepsImage(hist: seq<Obs>, units: nat, images: nat, u: nat, open: nat, last: nat, ps: seq<Period>,
                          image: nat, resident: bool, i: nat)
    requires Legal(hist, units, images) && images <= NONE && image < images && u < units
    requires UnitState(hist, u, open, last, ps)
    requires last != NONE ==> last < image
    requires i <= image
    ensures var closes := !resident && open != NONE;
            && (closes ==> 0 < image && open <= image - 1)
            && (Covered(if closes then ps + [Period(open, image - 1)] else ps,
                        NextOpen(last == NONE, open, image, resident), i)
                <==> Resident(hist + [Obs(u, image, resident)], u, i))
  {
    SeenUnits(hist, units, images, u);
    Snoc(hist, Obs(u, image, resident), u, i);
    if !resident && open != NONE {
      InPeriodsSnoc(ps, Period(open, image - 1), i);
    }
    if last != NONE {
      if i > last {
        ConstantAfterLast(hist, units, images, u, i);
        ConstantAfterLast(hist, units, images, u, last);
        assert Covered(ps, open, last) <==> Resident(hist, u, last);
      } else {
        assert Covered(ps, open, i) <==> Resident(hist, u, i);
      }
    }
  }

  lemma OtherUnitKept(hist: seq<Obs>, o: Obs, u: nat, open: nat, last: nat, ps: seq<Period>)
    requires UnitState(hist, u, open, last, ps) && o.unit != u
    ensures UnitState(hist + [o], u, open, last, ps)
  {
    Snoc(hist, o, u, 0);
    forall i: nat ensures Resident(hist + [o], u, i) == Resident(hist, u, i) {
      Snoc(hist, o, u, i);
    }
  }

  // ---- the index ------------------------------------------------------------------

  // The stored periods of unit u are exactly its resident images.
  ghost predicate UnitIndexed(hist: seq<Obs>, images: nat, ps: seq<Period>, u: nat) {
    && Chain(ps)
    && (forall k | 0 <= k < |ps| :: ps[k].end < images)
    && (forall i: nat | i < images :: InPeriods(ps, i) <==> Resident(hist, u, i))
  }

  // The end of a stored period plus one never wraps, whatever the map's size.
  lemma EndDoesNotWrap(hist: seq<Obs>, images: nat, ps: seq<Period>, u: nat, k: nat)
    requires images <= NONE && UnitIndexed(hist, images, ps, u) && k < |ps|
    ensures Narrow(ps[k].end + 1) == ps[k].end + 1 <= images
  {
  }

  // Unit u's stretch of the period list.
  function UnitSlice(offsets: seq<nat>, periods: seq<Period>, u: nat): seq<Period> {
    if u + 1 < |offsets| && offsets[u] <= offsets[u + 1] <= |periods| then periods[offsets[u]..offsets[u + 1]] else []
  }

  // Offsets partition the period list by unit.
  predicate Partitions(offsets: seq<nat>, units: nat, total: nat) {
    && |offsets| == units + 1 && offsets[0] == 0 && offsets[units] == total
    && forall u, v | 0 <= u <= v <= units :: offsets[u] <= offsets[v]
  }

  ghost predicate Indexed(hist: seq<Obs>, units: nat, images: nat, offsets: seq<nat>, periods: seq<Period>) {
    && Partitions(offsets, units, |periods|)
    && forall u | 0 <= u < units :: UnitIndexed(hist, images, UnitSlice(offsets, periods, u), u)
  }

  predicate ByUnit(a: Tagged, b: Tagged) {
    a.unit < b.unit
  }

  // Entries below v, the entries of v, entries above v.
  lemma {:induction false} SliceIsFilter(ts: seq<Tagged>, lo: nat, hi: nat, v: nat)
    requires lo <= hi <= |ts|
    requires forall j | 0 <= j < lo :: ts[j].unit < v
    requires forall j | lo <= j < hi :: ts[j].unit == v
    requires forall j | hi <= j < |ts| :: ts[j].unit > v
    ensures Filter(OnUnit(v), ts) == ts[lo..hi]
  {
    if ts != [] {
      if lo > 0 {
        SliceIsFilter(ts[1..], lo - 1, hi - 1, v);
        assert ts[1..][lo - 1..hi - 1] == ts[lo..hi];
      } else if hi > 0 {
        SliceIsFilter(ts[1..], 0, hi - 1, v);
        assert ts[0..hi] == [ts[0]] + ts[1..][0..hi - 1];
      } else {
        SliceIsFilter(ts[1..], 0, 0, v);
      }
    }
  }

  // `at` splits the entries at unit v.
  predicate Splits(ts: seq<Tagged>, at: nat, v: nat) {
    && at <= |ts|
    && (forall j | 0 <= j < at :: ts[j].unit < v)
    && (forall j | at <= j < |ts| :: ts[j].unit >= v)
  }

  // The counting loop over entries sorted by unit.
  method BuildIndex(units: nat, sorted: seq<Tagged>) returns (offsets: seq<nat>, periods: seq<Period>)
    requires SortedBy(ByUnit, sorted) && forall t | t in sorted :: t.unit < units
    ensures Partitions(offsets, units, |periods|)
    ensures forall v | 0 <= v < units :: UnitSlice(offsets, periods, v) == UnitPeriods(sorted, v)
  {
    offsets := seq(units + 1, _ => 0);
    periods := [];
    var u := 0;
    for n := 0 to |sorted|
      invariant |offsets| == units + 1 && u <= units
      invariant |periods| == n && periods == PeriodsOf(sorted[..n])
      invariant u == if n == 0 then 0 else sorted[n - 1].unit + 1
      invariant forall v | 0 <= v < u :: Splits(sorted, offsets[v], v)
    {
      var t := sorted[n];
      assert t in sorted;
      assert forall j | 0 <= j < n :: !ByUnit(sorted[n], sorted[j]);
      while u <= t.unit
        invariant |offsets| == units + 1 && u <= t.unit + 1 && (n > 0 ==> u > sorted[n - 1].unit)
        invariant forall v | 0 <= v < u :: Splits(sorted, offsets[v], v)
      {
        forall j | n <= j < |sorted| ensures sorted[j].unit >= u {
          assert j > n ==> !ByUnit(sorted[j], sorted[n]);
        }
        forall j | 0 <= j < n ensures sorted[j].unit < u {
          assert j < n - 1 ==> !ByUnit(sorted[n - 1], sorted[j]);
        }
        offsets := offsets[u := |periods|];
        u := u + 1;
      }
      periods := periods + [t.period];
    }
    while u <= units
      invariant |offsets| == units + 1 && u <= units + 1 && (|sorted| > 0 ==> u > sorted[|sorted| - 1].unit)
      invariant forall v | 0 <= v < u :: Splits(sorted, offsets[v], v)
      invariant u > units ==> offsets[units] == |periods|
    {
      forall j | 0 <= j < |sorted| ensures sorted[j].unit < u {
        assert j < |sorted| - 1 ==> !ByUnit(sorted[|sorted| - 1], sorted[j]);
      }
      offsets := offsets[u := |periods|];
      u := u + 1;
    }
    SplitsPartition(units, sorted, offsets, periods);
  }

  lemma SplitsInOrder(ts: seq<Tagged>, a: nat, v: nat, b: nat, w: nat)
    requires Splits(ts, a, v) && Splits(ts, b, w) && v <= w
    ensures a <= b
  {
    if b < a {
      BelowSplit(ts, a, v, b);
    }
  }

  lemma BelowSplit(ts: seq<Tagged>, at: nat, v: nat, j: nat)
    requires Splits(ts, at, v) && j < at
    ensures j < |ts| && ts[j].unit < v
  {
  }

  lemma SplitsAtZero(ts: seq<Tagged>, at: nat)
    requires Splits(ts, at, 0)
    ensures at == 0
  {
    if at > 0 {
      BelowSplit(ts, at, 0, 0);
    }
  }

  lemma SplitsPartition(units: nat, sorted: seq<Tagged>, offsets: seq<nat>, periods: seq<Period>)
    requires |offsets| == units + 1 && forall v | 0 <= v <= units :: Splits(sorted, offsets[v], v)
    requires forall t | t in sorted :: t.unit < units
    requires offsets[units] == |periods| == |sorted| && periods == PeriodsOf(sorted)
    ensures Partitions(offsets, units, |periods|)
    ensures forall v | 0 <= v < units :: UnitSlice(offsets, periods, v) == UnitPeriods(sorted, v)
  {
    forall v, w | 0 <= v <= w <= units ensures offsets[v] <= offsets[w] {
      SplitsInOrder(sorted, offsets[v], v, offsets[w], w);
    }
    SplitsAtZero(sorted, offsets[0]);
    forall v | 0 <= v < units ensures UnitSlice(offsets, periods, v) == UnitPeriods(sorted, v) {
      assert Splits(sorted, offsets[v], v) && Splits(sorted, offsets[v + 1], v + 1);
      SliceIsFilter(sorted, offsets[v], offsets[v + 1], v);
    }
  }

  // ---- one index for one step function -----------------------------------------------

  predicate AgreeAt(ps: seq<Period>, qs: seq<Period>, i: nat) { InPeriods(ps, i) == InPeriods(qs, i) }

  ghost predicate SameImages(ps: seq<Period>, qs: seq<Period>) {
    forall i: nat :: AgreeAt(ps, qs, i)
  }

  lemma LastEnds(ps: seq<Period>, qs: seq<Period>)
    requires Chain(ps) && Chain(qs) && ps != [] && SameImages(ps, qs)
    ensures qs != [] && ps[|ps| - 1].end <= qs[|qs| - 1].end
  {
    var p := ps[|ps| - 1];
    assert InPeriods(ps, p.end) && AgreeAt(ps, qs, p.end);
    var k :| 0 <= k < |qs| && qs[k].start <= p.end <= qs[k].end;
  }

  lemma GapBeforeLast(ps: seq<Period>)
    requires Chain(ps) && ps != [] && ps[|ps| - 1].start > 0
    ensures !InPeriods(ps, ps[|ps| - 1].start - 1)
  {
  }

  lemma LastStarts(ps: seq<Period>, qs: seq<Period>)
    requires Chain(ps) && Chain(qs) && ps != [] && qs != [] && SameImages(ps, qs)
    requires ps[|ps| - 1].end == qs[|qs| - 1].end
    ensures qs[|qs| - 1].start <= ps[|ps| - 1].start
  {
    var i := qs[|qs| - 1].start - 1;
    if i >= ps[|ps| - 1].start {
      assert InPeriods(ps, i) && AgreeAt(ps, qs, i);
      GapBeforeLast(qs);
    }
  }

  lemma WithoutLast(ps: seq<Period>, i: nat)
    requires Chain(ps) && ps != []
    ensures InPeriods(ps[..|ps| - 1], i) <==> InPeriods(ps, i) && i < ps[|ps| - 1].start
  {
    var n := |ps| - 1;
    assert ps == ps[..n] + [ps[n]];
    InPeriodsSnoc(ps[..n], ps[n], i);
    if InPeriods(ps[..n], i) {
      var k :| 0 <= k < n && ps[..n][k].start <= i <= ps[..n][k].end;
      assert ps[k].end + 1 < ps[n].start;
    }
  }

  // Maximal periods are determined by the images they cover.
  lemma {:induction false} ChainIsCanonical(ps: seq<Period>, qs: seq<Period>)
    requires Chain(ps) && Chain(qs) && SameImages(ps, qs)
    ensures ps == qs
    decreases |ps|
  {
    forall i: nat ensures AgreeAt(qs, ps, i) {
      assert AgreeAt(ps, qs, i);
    }
    if qs != [] {
      LastEnds(qs, ps);
    }
    if ps != [] {
      LastEnds(ps, qs);
      LastStarts(ps, qs);
      LastStarts(qs, ps);
      var ps', qs' := ps[..|ps| - 1], qs[..|qs| - 1];
      forall i: nat ensures AgreeAt(ps', qs', i) {
        WithoutLast(ps, i);
        WithoutLast(qs, i);
        assert AgreeAt(ps, qs, i);
      }
      ChainIsCanonical(ps', qs');
      assert ps == ps[..|ps| - 1] + [ps[|ps| - 1]] && qs == qs[..|qs| - 1] + [qs[|qs| - 1]];
    }
  }

  lemma SlicesAreEqual(one: seq<Obs>, two: seq<Obs>, images: nat, ps: seq<Period>, qs: seq<Period>, u: nat)
    requires UnitIndexed(one, images, ps, u) && UnitIndexed(two, images, qs, u)
    requires forall i: nat | i < images :: Resident(one, u, i) <==> Resident(two, u, i)
    ensures ps == qs
  {
    forall i: nat ensures AgreeAt(ps, qs, i) {
      if i < images {
        assert Resident(one, u, i) <==> Resident(two, u, i);
      }
    }
    ChainIsCanonical(ps, qs);
  }

  // Equal slices leave no freedom in the offsets.
  lemma {:induction false} OffsetsAreEqual(offsets: seq<nat>, periods: seq<Period>, offsets': seq<nat>,
                                           periods': seq<Period>, units: nat, n: nat)
    requires Partitions(offsets, units, |periods|) && Partitions(offsets', units, |periods'|) && n <= units
    requires forall u | 0 <= u < units :: UnitSlice(offsets, periods, u) == UnitSlice(offsets', periods', u)
    ensures offsets[n] == offsets'[n] && periods[..offsets[n]] == periods'[..offsets[n]]
  {
    if n > 0 {
      OffsetsAreEqual(offsets, periods, offsets', periods', units, n - 1);
      var a, b := offsets[n - 1], offsets[n];
      assert offsets[n - 1] <= offsets[n] <= offsets[units] && offsets'[n - 1] <= offsets'[n] <= offsets'[units];
      assert UnitSlice(offsets, periods, n - 1) == periods[a..b];
      assert UnitSlice(offsets', periods', n - 1) == periods'[a..offsets'[n]];
      assert |periods[a..b]| == |periods'[a..offsets'[n]]|;
      assert periods[..b] == periods[..a] + periods[a..b] && periods'[..b] == periods'[..a] + periods'[a..b];
    }
  }

  // Offsets and periods depend only on which unit is resident at which image, so
  // any two orders of the same observations of each unit give the same index.
  lemma IndexIsCanonical(one: seq<Obs>, two: seq<Obs>, units: nat, images: nat, offsets: seq<nat>, periods: seq<Period>,
                         offsets': seq<nat>, periods': seq<Period>)
    requires Indexed(one, units, images, offsets, periods) && Indexed(two, units, images, offsets', periods')
    requires forall u, i | 0 <= u < units && 0 <= i < images :: Resident(one, u, i) <==> Resident(two, u, i)
    ensures offsets == offsets' && periods == periods'
  {
    forall u | 0 <= u < units ensures UnitSlice(offsets, periods, u) == UnitSlice(offsets', periods', u) {
      SlicesAreEqual(one, two, images, UnitSlice(offsets, periods, u), UnitSlice(offsets', periods', u), u);
    }
    forall n | 0 <= n <= units ensures offsets[n] == offsets'[n] {
      OffsetsAreEqual(offsets, periods, offsets', periods', units, n);
    }
    OffsetsAreEqual(offsets, periods, offsets', periods', units, units);
    assert periods[..|periods|] == periods && periods'[..|periods'|] == periods';
  }

  lemma OrderOfUnitsIsFree(one: seq<Obs>, two: seq<Obs>, units: nat, images: nat, offsets: seq<nat>,
                           periods: seq<Period>, offsets': seq<nat>, periods': seq<Period>)
    requires Indexed(one, units, images, offsets, periods) && Indexed(two, units, images, offsets', periods')
    requires forall u | 0 <= u < units :: Filter(OfUnit(u), one) == Filter(OfUnit(u), two)
    ensures offsets == offsets' && periods == periods'
  {
    forall u, i | 0 <= u < units && 0 <= i < images ensures Resident(one, u, i) <==> Resident(two, u, i) {
      OwnObservations(one, u, i);
      OwnObservations(two, u, i);
    }
    IndexIsCanonical(one, two, units, images, offsets, periods, offsets', periods');
  }

  // ---- all units ----------------------------------------------------------------------

  lemma CloseOne(closed: seq<Tagged>, t: Tagged, u: nat)
    ensures UnitPeriods(closed + [t], u) ==
            if t.unit == u then UnitPeriods(closed, u) + [t.period] else UnitPeriods(closed, u)
  {
    FilterAppend(OnUnit(u), closed, [t]);
  }

  ghost predicate UnitStates(hist: seq<Obs>, units: nat, openStart: seq<nat>, lastSeen: seq<nat>, closed: seq<Tagged>)
    requires |openStart| == |lastSeen| == units
  {
    && (forall t | t in closed :: t.unit < units)
    && (forall u | 0 <= u < units :: UnitState(hist, u, openStart[u], lastSeen[u], UnitPeriods(closed, u)))
  }

  lemma ObserveKeepsAll(hist: seq<Obs>, units: nat, images: nat, openStart: seq<nat>, lastSeen: seq<nat>,
                        closed: seq<Tagged>, unit: nat, image: nat, resident: bool)
    requires |openStart| == |lastSeen| == units && UnitStates(hist, units, openStart, lastSeen, closed)
    requires Legal(hist, units, images) && images <= NONE && image < images && unit < units
    requires lastSeen[unit] != NONE ==> lastSeen[unit] < image
    ensures var open, first := openStart[unit], lastSeen[unit] == NONE;
            var closes := !resident && open != NONE;
            && (closes ==> 0 < image)
            && UnitStates(hist + [Obs(unit, image, resident)], units,
                          openStart[unit := NextOpen(first, open, image, resident)], lastSeen[unit := image],
                          if closes then closed + [Tagged(unit, Period(open, image - 1))] else closed)
  {
    var o, open := Obs(unit, image, resident), openStart[unit];
    var closes := !resident && open != NONE;
    ObserveKeepsUnit(hist, units, images, unit, open, lastSeen[unit], UnitPeriods(closed, unit), image, resident);
    var closed' := if closes then closed + [Tagged(unit, Period(open, image - 1))] else closed;
    forall u | 0 <= u < units && u != unit
      ensures UnitState(hist + [o], u, openStart[u], lastSeen[u], UnitPeriods(closed', u))
    {
      if closes {
        CloseOne(closed, Tagged(unit, Period(open, image - 1)), u);
      }
      OtherUnitKept(hist, o, u, openStart[u], lastSeen[u], UnitPeriods(closed, u));
    }
    if closes {
      CloseOne(closed, Tagged(unit, Period(open, image - 1)), unit);
    }
  }

  // ---- finishing ----------------------------------------------------------------------

  function Closing(ps: seq<Period>, open: nat, images: nat): seq<Period>
    requires images > 0
  {
    if open != NONE then ps + [Period(open, images - 1)] else ps
  }

  // Closing the open period at the last image settles every image.
  lemma FinishUnit(hist: seq<Obs>, units: nat, images: nat, u: nat, open: nat, last: nat, ps: seq<Period>)
    requires Legal(hist, units, images) && 0 < images <= NONE && u < units
    requires UnitState(hist, u, open, last, ps)
    ensures UnitIndexed(hist, images, Closing(ps, open, images), u)
  {
    SeenUnits(hist, units, images, u);
    var all := Closing(ps, open, images);
    forall i: nat | i < images ensures InPeriods(all, i) <==> Resident(hist, u, i) {
      if open != NONE {
        InPeriodsSnoc(ps, Period(open, images - 1), i);
      }
      if last != NONE {
        if i > last {
          ConstantAfterLast(hist, units, images, u, i);
          ConstantAfterLast(hist, units, images, u, last);
          assert Covered(ps, open, last) <==> Resident(hist, u, last);
        } else {
          assert Covered(ps, open, i) <==> Resident(hist, u, i);
        }
      }
    }
  }

  // `finish` appends one period per unit still open.
  method CloseOpen(openStart: seq<nat>, images: nat, before: seq<Tagged>) returns (closed: seq<Tagged>)
    requires images > 0 && |openStart| <= TWO32 && forall t | t in before :: t.unit < |openStart|
    ensures forall t | t in closed :: t.unit < |openStart|
    ensures forall v | 0 <= v < |openStart| ::
            UnitPeriods(closed, v) == Closing(UnitPeriods(before, v), openStart[v], images)
  {
    closed := before;
    for u := 0 to |openStart|
      invariant forall t | t in closed :: t.unit < |openStart|
      invariant forall v | 0 <= v < |openStart| :: UnitPeriods(closed, v) ==
                  if v < u then Closing(UnitPeriods(before, v), openStart[v], images) else UnitPeriods(before, v)
    {
      if openStart[u] != NONE {
        forall v {
          CloseOne(closed, Tagged(u, Period(openStart[u], images - 1)), v);
        }
        NarrowIsExact(|openStart|);
        closed := closed + [Tagged(Narrow(u), Period(openStart[u], images - 1))];
      }
    }
  }

  lemma FinishAll(hist: seq<Obs>, units: nat, images: nat, openStart: seq<nat>, lastSeen: seq<nat>,
                  before: seq<Tagged>, closed: seq<Tagged>, offsets: seq<nat>, periods: seq<Period>)
    requires |openStart| == |lastSeen| == units && UnitStates(hist, units, openStart, lastSeen, before)
    requires Legal(hist, units, images) && 0 < images <= NONE
    requires forall v | 0 <= v < units ::
             UnitPeriods(closed, v) == Closing(UnitPeriods(before, v), openStart[v], images)
    requires Partitions(offsets, units, |periods|)
    requires forall v | 0 <= v < units ::
               UnitSlice(offsets, periods, v) == UnitPeriods(SortBy(ByUnit, closed), v)
    ensures Indexed(hist, units, images, offsets, periods)
  {
    forall u | 0 <= u < units ensures UnitIndexed(hist, images, UnitSlice(offsets, periods, u), u) {
      SortIsStable(ByUnit, OnUnit(u), closed);
      FinishUnit(hist, units, images, u, openStart[u], lastSeen[u], UnitPeriods(before, u));
    }
  }

  function SeenIn(hist: seq<Obs>, units: nat): set<nat> {
    set u | 0 <= u < units && LastSeen(hist, u).Some?
  }

  lemma SeenGrows(hist: seq<Obs>, o: Obs, units: nat)
    requires o.unit < units
    ensures |SeenIn(hist + [o], units)| == |SeenIn(hist, units)| + if LastSeen(hist, o.unit).None? then 1 else 0
  {
    forall u: nat ensures LastSeen(hist + [o], u).Some? <==> u == o.unit || LastSeen(hist, u).Some? {
      Snoc(hist, o, u, 0);
    }
    var seen := SeenIn(hist, units);
    assert SeenIn(hist + [o], units) == seen + {o.unit};
    assert o.unit in seen <==> LastSeen(hist, o.unit).Some?;
    if o.unit in seen {
      assert seen + {o.unit} == seen;
    } else {
      OneMore(seen, o.unit);
    }
  }

  lemma OneMore(s: set<nat>, x: nat)
    requires x !in s
    ensures |s + {x}| == |s| + 1
  {
  }

  // ---- resident time -----------------------------------------------------------------

  function Total(time: seq<real>, n: nat): real
    requires n <= |time|
  {
    if n == 0 then 0.0 else Total(time, n - 1) + time[n - 1]
  }

  // The direct sum of the resident images' times.
  function ResidentSum(hist: seq<Obs>, u: nat, time: seq<real>, n: nat): real
    requires n <= |time|
  {
    if n == 0 then 0.0
    else ResidentSum(hist, u, time, n - 1) + if Resident(hist, u, n - 1) then time[n - 1] else 0.0
  }

  function PeriodSum(ps: seq<Period>, time: seq<real>, n: nat): real
    requires n <= |time|
  {
    if n == 0 then 0.0
    else PeriodSum(ps, time, n - 1) + if InPeriods(ps, n - 1) then time[n - 1] else 0.0
  }

  lemma {:induction false} NoPeriods(time: seq<real>, n: nat)
    requires n <= |time|
    ensures PeriodSum([], time, n) == 0.0
  {
    if n > 0 {
      NoPeriods(time, n - 1);
    }
  }

  lemma {:induction false} OnePeriod(p: Period, time: seq<real>, n: nat)
    requires n <= |time| && p.start <= p.end
    ensures PeriodSum([p], time, n) ==
            Total(time, if p.end + 1 <= n then p.end + 1 else n) - Total(time, if p.start <= n then p.start else n)
  {
    if n > 0 {
      OnePeriod(p, time, n - 1);
      InPeriodsSnoc([], p, n - 1);
      assert [] + [p] == [p];
    }
  }

  lemma {:induction false} SnocPeriod(ps: seq<Period>, p: Period, time: seq<real>, n: nat)
    requires n <= |time| && forall k | 0 <= k < |ps| :: ps[k].end < p.start
    ensures PeriodSum(ps + [p], time, n) == PeriodSum(ps, time, n) + PeriodSum([p], time, n)
  {
    if n > 0 {
      SnocPeriod(ps, p, time, n - 1);
      InPeriodsSnoc(ps, p, n - 1);
      InPeriodsSnoc([], p, n - 1);
      assert [] + [p] == [p];
    }
  }

  lemma {:induction false} PeriodsAreResident(hist: seq<Obs>, u: nat, ps: seq<Period>, time: seq<real>, images: nat,
                                              n: nat)
    requires n <= images <= |time| && UnitIndexed(hist, images, ps, u)
    ensures PeriodSum(ps, time, n) == ResidentSum(hist, u, time, n)
  {
    if n > 0 {
      PeriodsAreResident(hist, u, ps, time, images, n - 1);
    }
  }

  function Weighted(hist: seq<Obs>, time: seq<real>, unitBytes: seq<nat>, images: nat, n: nat): real
    requires images <= |time| && n <= |unitBytes|
  {
    if n == 0 then 0.0
    else Weighted(hist, time, unitBytes, images, n - 1) +
         8.0 * (unitBytes[n - 1] as real) * ResidentSum(hist, n - 1, time, images)
  }

  function Bytes(unitBytes: seq<nat>, n: nat): nat
    requires n <= |unitBytes|
  {
    if n == 0 then 0 else Bytes(unitBytes, n - 1) + unitBytes[n - 1]
  }

  predicate NonNegative(time: seq<real>) {
    forall i | 0 <= i < |time| :: time[i] >= 0.0
  }

  // Unit u is resident at every image that takes time.
  ghost predicate ResidentThroughout(hist: seq<Obs>, u: nat, time: seq<real>, n: nat)
    requires n <= |time|
  {
    forall i: nat | i < n && time[i] > 0.0 :: Resident(hist, u, i)
  }

  // A unit is resident for at most the whole time, and for all of it exactly when
  // it misses no image that takes time.
  lemma {:induction false} ResidentSumBounds(hist: seq<Obs>, u: nat, time: seq<real>, n: nat)
    requires n <= |time| && NonNegative(time)
    ensures 0.0 <= ResidentSum(hist, u, time, n) <= Total(time, n)
    ensures ResidentSum(hist, u, time, n) == Total(time, n) <==> ResidentThroughout(hist, u, time, n)
  {
    if n > 0 {
      ResidentSumBounds(hist, u, time, n - 1);
    }
  }

  ghost predicate AlwaysResident(hist: seq<Obs>, time: seq<real>, unitBytes: seq<nat>) {
    FullUpTo(hist, time, unitBytes, |unitBytes|)
  }

  ghost predicate FullUpTo(hist: seq<Obs>, time: seq<real>, unitBytes: seq<nat>, n: nat)
    requires n <= |unitBytes|
  {
    forall u: nat | u < n && unitBytes[u] > 0 :: ResidentThroughout(hist, u, time, |time|)
  }

  // All bits for the whole time t.
  function AllWeighted(unitBytes: seq<nat>, t: real, n: nat): real
    requires n <= |unitBytes|
  {
    if n == 0 then 0.0 else AllWeighted(unitBytes, t, n - 1) + 8.0 * (unitBytes[n - 1] as real) * t
  }

  lemma {:induction false} AllWeightedIs(unitBytes: seq<nat>, t: real, n: nat)
    requires n <= |unitBytes|
    ensures AllWeighted(unitBytes, t, n) == 8.0 * (Bytes(unitBytes, n) as real) * t
  {
    if n > 0 {
      AllWeightedIs(unitBytes, t, n - 1);
      Distribute(Bytes(unitBytes, n - 1) as real, unitBytes[n - 1] as real, t);
    }
  }

  lemma Distribute(a: real, b: real, t: real)
    ensures 8.0 * (a + b) * t == 8.0 * a * t + 8.0 * b * t
  {
  }

  lemma {:induction false} WeightedBounds(hist: seq<Obs>, time: seq<real>, unitBytes: seq<nat>, n: nat)
    requires n <= |unitBytes| && NonNegative(time)
    ensures var w, all := Weighted(hist, time, unitBytes, |time|, n), AllWeighted(unitBytes, Total(time, |time|), n);
            0.0 <= w <= all && (w == all <==> FullUpTo(hist, time, unitBytes, n))
  {
    if n == 0 {
      assert FullUpTo(hist, time, unitBytes, 0);
    } else {
      var m := n - 1;
      WeightedBounds(hist, time, unitBytes, m);
      FullStep(hist, time, unitBytes, m);
      ResidentSumBounds(hist, m, time, |time|);
      WeightedStep(hist, time, unitBytes, m);
    }
  }

  lemma WeightedStep(hist: seq<Obs>, time: seq<real>, unitBytes: seq<nat>, m: nat)
    requires m < |unitBytes| && 0.0 <= ResidentSum(hist, m, time, |time|) <= Total(time, |time|)
    ensures var x := Weighted(hist, time, unitBytes, |time|, m + 1) - Weighted(hist, time, unitBytes, |time|, m);
            var y := AllWeighted(unitBytes, Total(time, |time|), m + 1)
                     - AllWeighted(unitBytes, Total(time, |time|), m);
            && 0.0 <= x <= y
            && (x == y <==> unitBytes[m] == 0 || ResidentSum(hist, m, time, |time|) == Total(time, |time|))
  {
    Scaled(unitBytes[m] as real, ResidentSum(hist, m, time, |time|), Total(time, |time|));
  }

  lemma FullStep(hist: seq<Obs>, time: seq<real>, unitBytes: seq<nat>, m: nat)
    requires m < |unitBytes|
    ensures FullUpTo(hist, time, unitBytes, m + 1) <==>
            FullUpTo(hist, time, unitBytes, m) && (unitBytes[m] == 0 || ResidentThroughout(hist, m, time, |time|))
  {
  }

  lemma Scaled(b: real, s: real, t: real)
    requires 0.0 <= b && 0.0 <= s <= t
    ensures 0.0 <= 8.0 * b * s <= 8.0 * b * t
    ensures 8.0 * b * s == 8.0 * b * t <==> b == 0.0 || s == t
  {
    assert (8.0 * b) * s >= 0.0;
    assert (8.0 * b) * (t - s) >= 0.0;
    assert b > 0.0 && s < t ==> (8.0 * b) * (t - s) > 0.0;
  }

  // The effective number of resident bits never exceeds the bits there are, and
  // reaches them exactly when every unit with bytes is resident at every image
  // that takes time.
  lemma EffectiveBitsBounds(hist: seq<Obs>, time: seq<real>, unitBytes: seq<nat>)
    requires NonNegative(time) && Total(time, |time|) > 0.0
    ensures var bits := Weighted(hist, time, unitBytes, |time|, |unitBytes|) / Total(time, |time|);
            var all := 8.0 * (Bytes(unitBytes, |unitBytes|) as real);
            0.0 <= bits <= all && (bits == all <==> AlwaysResident(hist, time, unitBytes))
  {
    var w, t := Weighted(hist, time, unitBytes, |time|, |unitBytes|), Total(time, |time|);
    var all := 8.0 * (Bytes(unitBytes, |unitBytes|) as real);
    WeightedBounds(hist, time, unitBytes, |unitBytes|);
    AllWeightedIs(unitBytes, t, |unitBytes|);
    DivideBounds(w, t, all);
  }

  lemma DivideBounds(w: real, t: real, all: real)
    requires t > 0.0 && 0.0 <= w <= all * t
    ensures 0.0 <= w / t <= all
    ensures w / t == all <==> w == all * t
  {
    var q := w / t;
    assert q * t == w;
    assert q > all ==> (q - all) * t > 0.0;
    assert q < all ==> (all - q) * t > 0.0;
  }

  // ---- the builder ----------------------------------------------------------------

  class ResidencyMapBuilder {
    const units: nat
    const images: nat
    var finished: bool
    var observedUnits: nat
    var openStart: seq<nat>
    var lastSeen: seq<nat>
    var closed: seq<Tagged>
    var offsets: seq<nat>
    var periods: seq<Period>
    ghost var hist: seq<Obs>  // every accepted observation

    ghost predicate Valid()
      reads this
    {
      && 0 < units < NONE && 0 < images <= NONE
      && Legal(hist, units, images)
      && observedUnits == |SeenIn(hist, units)|
      && |lastSeen| == units
      && (!finished ==>
            |openStart| == units && UnitStates(hist, units, openStart, lastSeen, closed))
      && (finished ==> Indexed(hist, units, images, offsets, periods))
    }

    constructor (units: nat, images: nat)
      requires 0 < units < NONE && 0 < images <= NONE
      ensures Valid() && this.units == units && this.images == images && hist == [] && !finished
    {
      this.units, this.images := units, images;
      finished, observedUnits := false, 0;
      openStart := seq(units, _ => NONE);
      lastSeen := seq(units, _ => NONE);
      closed, offsets, periods := [], [], [];
      hist := [];
      new;
      assert SeenIn(hist, units) == {};
    }

    // The constructor of the source throws on sizes it cannot hold.
    static method Create(units: nat, images: nat) returns (b: ResidencyMapBuilder?)
      requires images <= NONE
      ensures b != null <==> 0 < units < NONE && 0 < images
      ensures b != null ==>
                fresh(b) && b.Valid() && b.units == units && b.images == images && b.hist == [] && !b.finished
    {
      if units == 0 || images == 0 || units >= NONE {
        b := null;
      } else {
        b := new ResidencyMapBuilder(units, images);
      }
    }

    // An observation is accepted exactly when the map is not finished and the
    // history with it is legal; a refused one changes nothing.
    method Observe(unit: nat, image: nat, resident: bool) returns (error: Option<Error>)
      requires Valid()
      modifies this
      ensures Valid()
      ensures error.None? <==> !old(finished) && Legal(old(hist) + [Obs(unit, image, resident)], units, images)
      ensures error == Some(AfterFinish) <==> old(finished)
      ensures error == Some(OutOfRange) <==> !old(finished) && !(unit < units && image < images)
      ensures error.Some? ==> error.value in {AfterFinish, OutOfRange, NotIncreasing}
      ensures error.Some? ==> hist == old(hist) && finished == old(finished) && observedUnits == old(observedUnits)
      ensures error.None? ==> hist == old(hist) + [Obs(unit, image, resident)] && !finished
    {
      assert (hist + [Obs(unit, image, resident)])[..|hist|] == hist;
      if finished { return Some(AfterFinish); }
      if unit >= units || image >= images { return Some(OutOfRange); }
      SeenUnits(hist, units, images, unit);
      assert UnitState(hist, unit, openStart[unit], lastSeen[unit], UnitPeriods(closed, unit));
      var last := lastSeen[unit];
      var first := last == NONE;
      if !first && image <= last { return Some(NotIncreasing); }
      Accept(unit, image, resident, first);
      error := None;
    }

    // The rest of `observe`.
    method Accept(unit: nat, image: nat, resident: bool, first: bool)
      requires Valid() && !finished && unit < units && image < images
      requires first == (lastSeen[unit] == NONE) && (!first ==> lastSeen[unit] < image)
      modifies this
      ensures Valid() && !finished && hist == old(hist) + [Obs(unit, image, resident)]
    {
      ObserveKeepsAll(hist, units, images, openStart, lastSeen, closed, unit, image, resident);
      SeenGrows(hist, Obs(unit, image, resident), units);
      NarrowIsExact(units);
      assert UnitState(hist, unit, openStart[unit], lastSeen[unit], UnitPeriods(closed, unit));
      lastSeen := lastSeen[unit := image];
      if first {
        observedUnits := observedUnits + 1;
      }
      var open := openStart[unit];
      if resident {
        if open == NONE {
          openStart := openStart[unit := if first then 0 else image];
        }
      } else if open != NONE {
        closed := closed + [Tagged(Narrow(unit), Period(open, image - 1))];
        openStart := openStart[unit := NONE];
      }
      assert openStart == old(openStart)[unit := NextOpen(first, open, image, resident)];
      hist := hist + [Obs(unit, image, resident)];
      assert hist[..|hist| - 1] == old(hist);
    }

    method Finish()
      requires Valid()
      modifies this
      ensures Valid() && finished && hist == old(hist)
    {
      if finished {
        return;
      }
      closed := CloseOpen(openStart, images, closed);
      var sorted := SortBy(ByUnit, closed);
      SortIsSorted(ByUnit, closed);
      SortKeepsElements(ByUnit, closed);
      offsets, periods := BuildIndex(units, sorted);
      FinishAll(hist, units, images, openStart, lastSeen, old(closed), closed, offsets, periods);
      closed, openStart := [], [];
      finished := true;
    }

    // Total resident time of each unit, from prefix sums of the image times. With
    // 2^32 - 1 images the vector of sums is empty and the loop leaves it.
    method ResidentTime(imageTime: seq<real>) returns (error: Option<Error>, t: seq<real>)
      requires Valid()
      ensures error.None? <==> finished && |imageTime| == images && images < NONE
      ensures error.Some? ==> error.value == if !finished then NotFinished
                                             else if |imageTime| != images then WrongSize else OutOfBounds
      ensures error.None? ==> |t| == units && forall u | 0 <= u < units ::
              t[u] == ResidentSum(hist, u, imageTime, images)
    {
      t := [];
      if !finished {
        return Some(NotFinished), t;
      }
      if |imageTime| != images {
        return Some(WrongSize), t;
      }
      PrefixSuffices(images);
      var prefix := seq(PrefixLength(images), _ => 0.0);
      for i := 0 to images
        invariant |prefix| == PrefixLength(images) && (i > 0 ==> images < NONE)
        invariant images < NONE ==> forall j | 0 <= j <= i :: prefix[j] == Total(imageTime, j)
      {
        if i + 1 >= |prefix| {
          return Some(OutOfBounds), t;
        }
        prefix := prefix[i + 1 := prefix[i] + imageTime[i]];
      }
      error := None;
      for u := 0 to units
        invariant |t| == u && forall v | 0 <= v < u :: t[v] == ResidentSum(hist, v, imageTime, images)
      {
        var sum := UnitTime(u, imageTime, prefix);
        t := t + [sum];
      }
    }

    // Prefix differences over one unit's periods.
    method UnitTime(u: nat, imageTime: seq<real>, prefix: seq<real>) returns (sum: real)
      requires Valid() && finished && u < units && |imageTime| == images
      requires |prefix| == images + 1 && forall j | 0 <= j <= images :: prefix[j] == Total(imageTime, j)
      ensures sum == ResidentSum(hist, u, imageTime, images)
    {
      ghost var ps := UnitSlice(offsets, periods, u);
      assert UnitIndexed(hist, images, ps, u);
      sum := 0.0;
      NoPeriods(imageTime, images);
      for p := offsets[u] to offsets[u + 1]
        invariant sum == PeriodSum(ps[..p - offsets[u]], imageTime, images)
      {
        ghost var k := p - offsets[u];
        assert periods[p] == ps[k];
        assert ps[..k + 1] == ps[..k] + [ps[k]];
        OnePeriod(ps[k], imageTime, images);
        SnocPeriod(ps[..k], ps[k], imageTime, images);
        EndDoesNotWrap(hist, images, ps, u, k);
        sum := sum + (prefix[Narrow(periods[p].end + 1)] - prefix[periods[p].start]);
      }
      assert ps[..|ps|] == ps;
      PeriodsAreResident(hist, u, ps, imageTime, images, images);
    }

    // Time-averaged resident bits: for times that are not negative, between none
    // and all of the bits, and all of them exactly when every unit with bytes is
    // resident at every image that takes time.
    method REffBits(imageTime: seq<real>, unitBytes: seq<nat>) returns (error: Option<Error>, bits: real)
      requires Valid()
      ensures error == if |unitBytes| != units then Some(WrongSize)
                       else if !finished then Some(NotFinished)
                       else if |imageTime| != images then Some(WrongSize)
                       else if images == NONE then Some(OutOfBounds)
                       else if Total(imageTime, images) <= 0.0 then Some(NoTime)
                       else None
      ensures error.None? ==> bits == Weighted(hist, imageTime, unitBytes, images, units) / Total(imageTime, images)
      ensures error.None? && NonNegative(imageTime) ==>
                var all := 8.0 * (Bytes(unitBytes, units) as real);
                0.0 <= bits <= all && (bits == all <==> AlwaysResident(hist, imageTime, unitBytes))
    {
      bits := 0.0;
      if |unitBytes| != units {
        return Some(WrongSize), bits;
      }
      var t;
      error, t := ResidentTime(imageTime);
      if error.Some? {
        return;
      }
      var total := 0.0;
      for i := 0 to images
        invariant total == Total(imageTime, i)
      {
        total := total + imageTime[i];
      }
      if total <= 0.0 {
        return Some(NoTime), bits;
      }
      var weighted := 0.0;
      for u := 0 to units
        invariant weighted == Weighted(hist, imageTime, unitBytes, images, u)
      {
        weighted := weighted + 8.0 * (unitBytes[u] as real) * t[u];
      }
      bits := weighted / total;
      if NonNegative(imageTime) {
        EffectiveBitsBounds(hist, imageTime, unitBytes);
      }
    }
  }

  // A map of 2^32 - 1 images is accepted and finished, but has no resident times.
  method LargestMap(imageTime: seq<real>) returns (error: Option<Error>)
    requires |imageTime| == NONE
    ensures error == Some(OutOfBounds)
  {
    var b := ResidencyMapBuilder.Create(1, NONE);
    b.Finish();
    var t;
    error, t := b.ResidentTime(imageTime);
  }
}
