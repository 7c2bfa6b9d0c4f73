// What hit and miss observations say about a unit at every image: the step
// function the residency map stands for (include/gpu_m2d/residency_map.hpp).
module StepFunction {
  import opened Outcomes
  import opened Sorting

  // A probe of one unit at the boundary before one image.
  datatype Obs = Obs(unit: nat, image: nat, resident: bool)

  // The unit's last observation at or before an image.
  function LastAt(hist: seq<Obs>, u: nat, i: nat): Option<bool> {
    if hist == [] then None
    else
      var o := hist[|hist| - 1];
      if o.unit == u && o.image <= i then Some(o.resident) else LastAt(hist[..|hist| - 1], u, i)
  }

  function FirstOf(hist: seq<Obs>, u: nat): Option<bool> {
    if hist == [] then None
    else
      var before := FirstOf(hist[..|hist| - 1], u);
      if before.Some? then before
      else if hist[|hist| - 1].unit == u then Some(hist[|hist| - 1].resident) else None
  }

  // The specification: images before a unit's first observation take its
  // state, every later image the state of the latest one.
  predicate Resident(hist: seq<Obs>, u: nat, i: nat) {
    if LastAt(hist, u, i).Some? then LastAt(hist, u, i).value
    else FirstOf(hist, u) == Some(true)
  }

  // The image of the unit's latest observation.
  function LastSeen(hist: seq<Obs>, u: nat): Option<nat> {
    if hist == [] then None
    else if hist[|hist| - 1].unit == u then Some(hist[|hist| - 1].image)
    else LastSeen(hist[..|hist| - 1], u)
  }

  // Observations are in range and strictly increase for each unit.
  predicate Legal(hist: seq<Obs>, units: nat, images: nat) {
    hist == [] ||
    var o, init := hist[|hist| - 1], hist[..|hist| - 1];
    && Legal(init, units, images)
    && o.unit < units && o.image < images
    && (LastSeen(init, o.unit).Some? ==> LastSeen(init, o.unit).value < o.image)
  }

  // One more observation: what changes and what does not.
  lemma Snoc(hist: seq<Obs>, o: Obs, u: nat, i: nat)
    ensures LastAt(hist + [o], u, i) == if o.unit == u && o.image <= i then Some(o.resident) else LastAt(hist, u, i)
    ensures FirstOf(hist + [o], u) ==
            if FirstOf(hist, u).Some? then FirstOf(hist, u) else if o.unit == u then Some(o.resident) else None
    ensures LastSeen(hist + [o], u) == if o.unit == u then Some(o.image) else LastSeen(hist, u)
  {
    assert (hist + [o])[..|hist|] == hist;
  }

  lemma {:induction false} SeenUnits(hist: seq<Obs>, units: nat, images: nat, u: nat)
    requires Legal(hist, units, images)
    ensures LastSeen(hist, u).None? ==> FirstOf(hist, u) == None && forall i :: LastAt(hist, u, i) == None
    ensures LastSeen(hist, u).Some? ==> FirstOf(hist, u).Some? && u < units && LastSeen(hist, u).value < images
  {
    if hist != [] {
      SeenUnits(hist[..|hist| - 1], units, images, u);
    }
  }

  // From its latest observation on, a unit's state is constant.
  lemma {:induction false} ConstantAfterLast(hist: seq<Obs>, units: nat, images: nat, u: nat, i: nat)
    requires Legal(hist, units, images) && LastSeen(hist, u).Some? && LastSeen(hist, u).value <= i
    ensures LastAt(hist, u, i).Some? && LastAt(hist, u, i) == LastAt(hist, u, LastSeen(hist, u).value)
  {
    if hist[|hist| - 1].unit != u {
      ConstantAfterLast(hist[..|hist| - 1], units, images, u, i);
    }
  }

  function OfUnit(u: nat): Obs -> bool { (o: Obs) => o.unit == u }

  // A unit's state depends on its own observations only.
  lemma {:induction false} OwnObservations(hist: seq<Obs>, u: nat, i: nat)
    ensures LastAt(hist, u, i) == LastAt(Filter(OfUnit(u), hist), u, i)
    ensures FirstOf(hist, u) == FirstOf(Filter(OfUnit(u), hist), u)
  {
    if hist != [] {
      var n := |hist| - 1;
      OwnObservations(hist[..n], u, i);
      FilterStep(OfUnit(u), hist, n);
      assert hist[..n + 1] == hist;
      var own := Filter(OfUnit(u), hist[..n]);
      if hist[n].unit == u {
        Snoc(own, hist[n], u, i);
      } else {
        assert own + [] == own;
      }
    }
  }
}
