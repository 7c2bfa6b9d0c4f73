// The observation schedule of one probe pass
// (`run_l2_probe_pass` in apps/resnet50_int8_g1_5.cpp) feeding the builder.
module ProbeSchedule {
  import opened Outcomes
  import opened ResidencyMap
  import opened StepFunction

  // Sweep number b / every runs before image b and probes one phase of units.
  predicate Probed(every: nat, stride: nat, u: nat, b: nat)
    requires every > 0 && stride > 0
  {
    b % every == 0 && (b / every) % stride == u % stride
  }

  function LatestProbe(every: nat, stride: nat, u: nat, i: nat): (b: Option<nat>)
    requires every > 0 && stride > 0
    ensures b.Some? ==> b.value <= i && Probed(every, stride, u, b.value)
    ensures forall j: nat | j <= i && Probed(every, stride, u, j) :: b.Some? && j <= b.value
  {
    if Probed(every, stride, u, i) then Some(i)
    else if i == 0 then None
    else LatestProbe(every, stride, u, i - 1)
  }

  function FirstProbe(every: nat, stride: nat, u: nat, images: nat): (b: Option<nat>)
    requires every > 0 && stride > 0
    ensures b.Some? ==> b.value < images && Probed(every, stride, u, b.value)
    ensures forall j: nat | j < images && Probed(every, stride, u, j) :: b.Some? && b.value <= j
  {
    if images == 0 then None
    else
      var before := FirstProbe(every, stride, u, images - 1);
      if before.Some? then before
      else if Probed(every, stride, u, images - 1) then Some(images - 1) else None
  }

  // What the map should say of a unit at an image: the latest probe decides,
  // or the first one when none came before.
  predicate Scheduled(every: nat, stride: nat, images: nat, hit: (nat, nat) -> bool, u: nat, i: nat)
    requires every > 0 && stride > 0
  {
    match LatestProbe(every, stride, u, i)
    case Some(b) => hit(b, u)
    case None =>
      match FirstProbe(every, stride, u, images)
      case Some(b) => hit(b, u)
      case None => false
  }

  ghost predicate SeenBefore(hist: seq<Obs>, m: nat) {
    forall u: nat :: LastSeen(hist, u).Some? ==> LastSeen(hist, u).value < m
  }

  // One sweep's observations of unit u, on top of an earlier history.
  ghost predicate Swept(was: seq<Obs>, now: seq<Obs>, u: nat, probed: bool, m: nat, hit: (nat, nat) -> bool) {
    && (forall i: nat :: LastAt(now, u, i) == if probed && m <= i then Some(hit(m, u)) else LastAt(was, u, i))
    && FirstOf(now, u) == (if FirstOf(was, u).Some? then FirstOf(was, u) else if probed then Some(hit(m, u)) else None)
    && LastSeen(now, u) == (if probed then Some(m) else LastSeen(was, u))
  }

  lemma SweptStep(was: seq<Obs>, now: seq<Obs>, u: nat, v: nat, probed: bool, m: nat, hit: (nat, nat) -> bool)
    requires Swept(was, now, v, probed, m, hit) && (v == u ==> !probed)
    ensures Swept(was, now + [Obs(u, m, hit(m, u))], v, probed || v == u, m, hit)
  {
    forall i: nat
      ensures LastAt(now + [Obs(u, m, hit(m, u))], v, i) ==
              if (probed || v == u) && m <= i then Some(hit(m, v)) else LastAt(was, v, i)
    {
      Snoc(now, Obs(u, m, hit(m, u)), v, i);
    }
    Snoc(now, Obs(u, m, hit(m, u)), v, 0);
  }

  // Units of the phase already visited when the loop stands at u.
  predicate Visited(v: nat, u: nat, units: nat, phase: nat, stride: nat)
    requires stride > 0
  {
    v < u && v < units && v % stride == phase
  }

  ghost predicate SweptSoFar(was: seq<Obs>, now: seq<Obs>, u: nat, units: nat, phase: nat, stride: nat, m: nat,
                             hit: (nat, nat) -> bool)
    requires stride > 0
  {
    forall v: nat :: Swept(was, now, v, Visited(v, u, units, phase, stride), m, hit)
  }

  lemma SweepStep(was: seq<Obs>, now: seq<Obs>, u: nat, units: nat, phase: nat, stride: nat, m: nat,
                  hit: (nat, nat) -> bool)
    requires stride > 0 && u < units && u % stride == phase
    requires SweptSoFar(was, now, u, units, phase, stride, m, hit)
    ensures SweptSoFar(was, now + [Obs(u, m, hit(m, u))], u + stride, units, phase, stride, m, hit)
  {
    var after, next := now + [Obs(u, m, hit(m, u))], u + stride;
    forall v: nat ensures Swept(was, after, v, Visited(v, next, units, phase, stride), m, hit) {
      assert Swept(was, now, v, Visited(v, u, units, phase, stride), m, hit);
      SweptStep(was, now, u, v, Visited(v, u, units, phase, stride), m, hit);
      if u < v < u + stride {
        BetweenInPhase(u, v, stride);
      }
    }
  }

  // The inner loop: one observation per unit of the phase, none refused.
  method Sweep(b: ResidencyMapBuilder, m: nat, phase: nat, stride: nat, hit: (nat, nat) -> bool) returns (ok: bool)
    requires b.Valid() && !b.finished && m < b.images && phase < stride && SeenBefore(b.hist, m)
    modifies b
    ensures ok && b.Valid() && !b.finished
    ensures SweptSoFar(old(b.hist), b.hist, b.units, b.units, phase, stride, m, hit)
  {
    var u := phase;
    SmallMod(phase, stride);
    NothingSwept(b.hist, b.units, phase, stride, m, hit);
    ok := true;
    while u < b.units
      invariant ok && b.Valid() && !b.finished && u % stride == phase
      invariant SweptSoFar(old(b.hist), b.hist, u, b.units, phase, stride, m, hit)
      decreases b.units + stride - u
    {
      ok := SweepOne(b, old(b.hist), u, m, phase, stride, hit);
      NextInPhase(u, stride);
      u := u + stride;
    }
    SweptToEnd(old(b.hist), b.hist, u, b.units, phase, stride, m, hit);
  }

  method SweepOne(b: ResidencyMapBuilder, ghost was: seq<Obs>, u: nat, m: nat, phase: nat, stride: nat,
                  hit: (nat, nat) -> bool) returns (ok: bool)
    requires b.Valid() && !b.finished && m < b.images && phase < stride && SeenBefore(was, m)
    requires u < b.units && u % stride == phase
    requires SweptSoFar(was, b.hist, u, b.units, phase, stride, m, hit)
    modifies b
    ensures ok && b.Valid() && !b.finished
    ensures SweptSoFar(was, b.hist, u + stride, b.units, phase, stride, m, hit)
  {
    assert UnitState(b.hist, u, b.openStart[u], b.lastSeen[u], UnitPeriods(b.closed, u));
    assert Swept(was, b.hist, u, Visited(u, u, b.units, phase, stride), m, hit);
    SweepStep(was, b.hist, u, b.units, phase, stride, m, hit);
    var error := b.Observe(u, m, hit(m, u));
    ok := error.None?;
  }

  lemma NothingSwept(was: seq<Obs>, units: nat, phase: nat, stride: nat, m: nat, hit: (nat, nat) -> bool)
    requires phase < stride
    ensures SweptSoFar(was, was, phase, units, phase, stride, m, hit)
  {
    forall v: nat ensures Swept(was, was, v, Visited(v, phase, units, phase, stride), m, hit) {
      if v < stride {
        SmallMod(v, stride);
      }
      assert !Visited(v, phase, units, phase, stride);
    }
  }

  lemma SweptToEnd(was: seq<Obs>, now: seq<Obs>, u: nat, units: nat, phase: nat, stride: nat, m: nat,
                   hit: (nat, nat) -> bool)
    requires stride > 0 && u >= units && SweptSoFar(was, now, u, units, phase, stride, m, hit)
    ensures SweptSoFar(was, now, units, units, phase, stride, m, hit)
  {
    forall v: nat ensures Swept(was, now, v, Visited(v, units, units, phase, stride), m, hit) {
      assert Swept(was, now, v, Visited(v, u, units, phase, stride), m, hit);
      assert Visited(v, u, units, phase, stride) == Visited(v, units, units, phase, stride);
    }
  }

  // ---- arithmetic of phases ----------------------------------------------------------

  lemma MulMono(a: int, b: int, d: nat)
    requires a <= b
    ensures a * d <= b * d
  {
    assert (b - a) * d >= 0;
  }

  lemma QuotientUnique(x: nat, d: nat, q: nat, r: nat)
    requires d > 0 && r < d && x == q * d + r
    ensures x / d == q && x % d == r
  {
    var p := x / d;
    assert x == p * d + x % d;
    assert (q + 1) * d == q * d + d && (p + 1) * d == p * d + d;
    if p < q {
      MulMono(p + 1, q, d);
    } else if q < p {
      MulMono(q + 1, p, d);
    }
  }

  lemma SmallMod(phase: nat, stride: nat)
    requires phase < stride
    ensures phase / stride == 0 && phase % stride == phase
  {
    QuotientUnique(phase, stride, 0, phase);
  }

  lemma NextInPhase(u: nat, stride: nat)
    requires stride > 0
    ensures (u + stride) % stride == u % stride
  {
    var q := u / stride;
    assert (q + 1) * stride == q * stride + stride;
    QuotientUnique(u + stride, stride, q + 1, u % stride);
  }

  lemma BetweenInPhase(u: nat, v: nat, stride: nat)
    requires u < v < u + stride
    ensures v % stride != u % stride
  {
    var q, c, k := u / stride, u % stride, v - u;
    if c + k < stride {
      QuotientUnique(v, stride, q, c + k);
    } else {
      assert (q + 1) * stride == q * stride + stride;
      QuotientUnique(v, stride, q + 1, c + k - stride);
    }
  }

  // ---- the whole pass ------------------------------------------------------------------

  // What the history says of unit u once the images before m are done.
  ghost predicate UpTo(hist: seq<Obs>, every: nat, stride: nat, hit: (nat, nat) -> bool, u: nat, m: nat)
    requires every > 0 && stride > 0
  {
    && (forall i: nat :: LastAt(hist, u, i) == At(LatestBefore(every, stride, u, i, m), hit, u))
    && FirstOf(hist, u) == At(FirstProbe(every, stride, u, m), hit, u)
  }

  // The latest probe at or before image i, among images before m.
  function LatestBefore(every: nat, stride: nat, u: nat, i: nat, m: nat): Option<nat>
    requires every > 0 && stride > 0
  {
    if m == 0 then None
    else LatestProbe(every, stride, u, if i < m then i else m - 1)
  }

  function At(b: Option<nat>, hit: (nat, nat) -> bool, u: nat): Option<bool> {
    match b
    case Some(v) => Some(hit(v, u))
    case None => None
  }

  // One image of the pass, for one unit.
  lemma ImageStep(was: seq<Obs>, now: seq<Obs>, every: nat, stride: nat, hit: (nat, nat) -> bool, u: nat, m: nat)
    requires every > 0 && stride > 0 && UpTo(was, every, stride, hit, u, m)
    requires Swept(was, now, u, Probed(every, stride, u, m), m, hit)
    ensures UpTo(now, every, stride, hit, u, m + 1)
  {
    forall i: nat ensures LastAt(now, u, i) == At(LatestBefore(every, stride, u, i, m + 1), hit, u) {
      assert LastAt(was, u, i) == At(LatestBefore(every, stride, u, i, m), hit, u);
    }
  }

  lemma AllUnitsStep(was: seq<Obs>, now: seq<Obs>, units: nat, every: nat, stride: nat, hit: (nat, nat) -> bool,
                     m: nat, next: nat)
    requires every > 0 && stride > 0 && next == m + 1 && forall u: nat | u < units ::
             UpTo(was, every, stride, hit, u, m)
    requires if m % every == 0 then SweptSoFar(was, now, units, units, (m / every) % stride, stride, m, hit)
             else now == was
    ensures forall u: nat | u < units :: UpTo(now, every, stride, hit, u, next)
  {
    forall u: nat | u < units ensures UpTo(now, every, stride, hit, u, next) {
      assert UpTo(was, every, stride, hit, u, m);
      if m % every == 0 {
        assert Swept(was, now, u, Visited(u, units, units, (m / every) % stride, stride), m, hit);
      }
      ImageStep(was, now, every, stride, hit, u, m);
    }
  }

  // Probing before every `every`-th image never breaks the builder's rule, and
  // the finished map is the step function of the schedule.
  method ProbePass(units: nat, images: nat, every: nat, stride: nat, hit: (nat, nat) -> bool)
    returns (ok: bool, b: ResidencyMapBuilder)
    requires 0 < units < NONE && 0 < images <= NONE && every > 0 && stride > 0
    ensures ok && fresh(b) && b.Valid() && b.finished && b.units == units && b.images == images
    ensures forall u, i | 0 <= u < units && 0 <= i < images ::
              InPeriods(UnitSlice(b.offsets, b.periods, u), i) <==> Scheduled(every, stride, images, hit, u, i)
  {
    b := new ResidencyMapBuilder(units, images);
    ok := true;
    var sweeps := 0;
    for m := 0 to images
      invariant ok && fresh(b) && b.Valid() && !b.finished && b.units == units && b.images == images
      invariant SeenBefore(b.hist, m)
      invariant sweeps == if m == 0 then 0 else (m - 1) / every + 1
      invariant forall u: nat | u < units :: UpTo(b.hist, every, stride, hit, u, m)
    {
      SweepNumber(m, every);
      ghost var was := b.hist;
      if m % every == 0 {
        assert sweeps == m / every;
        ok := Sweep(b, m, sweeps % stride, stride, hit);
        SeenAfterSweep(was, b.hist, units, sweeps % stride, stride, m, hit);
        sweeps := sweeps + 1;
      }
      AllUnitsStep(was, b.hist, units, every, stride, hit, m, m + 1);
    }
    b.Finish();
    forall u, i | 0 <= u < units && 0 <= i < images
      ensures InPeriods(UnitSlice(b.offsets, b.periods, u), i) <==> Scheduled(every, stride, images, hit, u, i)
    {
      assert UnitIndexed(b.hist, images, UnitSlice(b.offsets, b.periods, u), u);
      assert UpTo(b.hist, every, stride, hit, u, images);
    }
  }

  lemma SeenAfterSweep(was: seq<Obs>, now: seq<Obs>, units: nat, phase: nat, stride: nat, m: nat,
                       hit: (nat, nat) -> bool)
    requires stride > 0 && SeenBefore(was, m) && SweptSoFar(was, now, units, units, phase, stride, m, hit)
    ensures SeenBefore(now, m + 1)
  {
    forall u: nat ensures LastSeen(now, u).Some? ==> LastSeen(now, u).value < m + 1 {
      assert Swept(was, now, u, Visited(u, units, units, phase, stride), m, hit);
    }
  }

  lemma PositiveQuotient(m: nat, q: nat, every: nat)
    requires m > 0 && m == q * every
    ensures q > 0 && (q - 1) * every == m - every
  {
  }

  lemma SweepNumber(m: nat, every: nat)
    requires every > 0
    ensures m > 0 ==> m / every == (m - 1) / every + if m % every == 0 then 1 else 0
    ensures m == 0 ==> m / every == 0 && m % every == 0
  {
    var q, r := m / every, m % every;
    if m == 0 {
      QuotientUnique(0, every, 0, 0);
    } else if r == 0 {
      PositiveQuotient(m, q, every);
      QuotientUnique(m - 1, every, q - 1, every - 1);
    } else {
      QuotientUnique(m - 1, every, q, r - 1);
    }
  }

  // The resolution the header promises: once a unit's phase has come up, a
  // probe lies at most every * stride - 1 images back.
  lemma ProbeWithinResolution(every: nat, stride: nat, u: nat, i: nat)
    requires every > 0 && stride > 0 && i / every >= u % stride
    ensures var b := LatestProbe(every, stride, u, i); b.Some? && i - b.value < every * stride
  {
    var s := SweepBack(i / every, u % stride, stride);
    ImageBack(i, every, s, stride);
    assert Probed(every, stride, u, s * every);
  }

  // The sweep of phase p closest before sweep q.
  lemma SweepBack(q: nat, p: nat, stride: nat) returns (s: nat)
    requires p < stride && p <= q
    ensures s <= q < s + stride && s % stride == p
  {
    var a, c := q / stride, q % stride;
    assert q == a * stride + c;
    if c >= p {
      s := q - (c - p);
      QuotientUnique(s, stride, a, p);
    } else {
      assert a != 0;
      assert (a - 1) * stride == a * stride - stride;
      s := q - (c + stride - p);
      QuotientUnique(s, stride, a - 1, p);
    }
  }

  lemma ImageBack(i: nat, every: nat, s: nat, stride: nat)
    requires every > 0 && s <= i / every < s + stride
    ensures s * every <= i < s * every + every * stride
    ensures (s * every) % every == 0 && (s * every) / every == s
  {
    var q := i / every;
    assert i == q * every + i % every;
    QuotientUnique(s * every, every, s, 0);
    MulMono(s, q, every);
    MulMono(q + 1, s + stride, every);
    assert (q + 1) * every == q * every + every;
    assert (s + stride) * every == s * every + every * stride;
  }
}
