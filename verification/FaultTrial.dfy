// One fault-injection trial (apps/resnet50_int8_g1_5.cpp): DRAM flips held over
// a pass of images, cache flips over their intervals, and the restore that must
// leave no residue.
module FaultTrials {
  import opened Bits
  import opened CacheFlips
  import opened DeviceMemory

  datatype Region = Input | Output | Internal

  // One held DRAM fault of the trial's work list.
  datatype DramSite = DramSite(cell: nat, bit: nat, region: Region)

  datatype Result =
    | Thrown
    | Done(flips: seq<Flip>, restoredOk: seq<bool>, evaluated: nat, cache: seq<Record>)

  // Everything a trial is given from outside: the staged images, what the
  // engine writes during each inference, which inferences come out valid, and
  // the same for the closing sanity inference.
  datatype Setup = Setup(dram: seq<DramSite>, cache: seq<Site>, inputBase: nat, inputSize: nat,
                         staged: seq<seq<Byte>>, engine: seq<Writes>, valid: seq<bool>,
                         sanityImage: seq<Byte>, sanityWrites: Writes, sanityMatches: bool)

  predicate InInput(t: Setup, c: nat) {
    t.inputBase <= c < t.inputBase + t.inputSize
  }

  predicate GoodSetup(t: Setup, size: nat) {
    && |t.staged| == |t.engine| == |t.valid| > 0
    && t.inputBase + t.inputSize <= size
    && (forall i | 0 <= i < |t.staged| :: |t.staged[i]| == t.inputSize) && |t.sanityImage| == t.inputSize
    && (forall k | 0 <= k < |t.dram| :: t.dram[k].cell < size && t.dram[k].bit < 8
                                        && (t.dram[k].region == Input <==> InInput(t, t.dram[k].cell)))
    && GoodSites(t.cache, size, |t.staged|)
  }

  function DramSpots(dram: seq<DramSite>): (r: seq<Spot>)
    ensures |r| == |dram|
  {
    seq(|dram|, k requires 0 <= k < |dram| => Spot(dram[k].cell, BitMask(dram[k].bit)))
  }

  // The XOR of all held faults on one byte.
  function Held(dram: seq<DramSite>, c: nat): Byte {
    MaskAll(DramSpots(dram), c)
  }

  lemma HeldSnoc(dram: seq<DramSite>, k: nat, c: nat)
    requires k < |dram|
    ensures Held(dram[..k + 1], c) == XorByte(Held(dram[..k], c), if dram[k].cell == c then BitMask(dram[k].bit) else 0)
  {
    assert DramSpots(dram[..k + 1]) == DramSpots(dram[..k]) + [Spot(dram[k].cell, BitMask(dram[k].bit))];
    SnocAll(DramSpots(dram[..k]), Spot(dram[k].cell, BitMask(dram[k].bit)), c);
  }

  // A byte that nothing but flips and their removal touches.
  ghost predicate Untouched(t: Setup, c: nat) {
    && !InInput(t, c)
    && (forall i | 0 <= i < |t.engine| :: c !in t.engine[i]) && c !in t.sanityWrites
    && (forall k | 0 <= k < |t.dram| :: t.dram[k].cell == c ==> t.dram[k].region == Internal)
  }

  ghost function Quiet(t: Setup, size: nat): set<nat> {
    set c | 0 <= c < size && Untouched(t, c)
  }

  // Only staging and the listed faults write the input binding.
  ghost predicate InputIsOurs(t: Setup) {
    && (forall i, c | 0 <= i < |t.engine| && c in t.engine[i] :: !InInput(t, c))
    && (forall k | 0 <= k < |t.cache| :: !InInput(t, t.cache[k].cell))
  }

  // ---- DRAM flips -------------------------------------------------------------

  // Flip every site in work order.
  method FlipAll(mem: array<Byte>, dram: seq<DramSite>) returns (flips: seq<Flip>)
    requires forall k | 0 <= k < |dram| :: dram[k].cell < mem.Length && dram[k].bit < 8
    modifies mem
    ensures forall c | 0 <= c < mem.Length :: mem[c] == XorByte(old(mem[c]), Held(dram, c))
    ensures |flips| == |dram| && forall k | 0 <= k < |dram| ::
              && flips[k].cell == dram[k].cell && flips[k].mask == BitMask(dram[k].bit)
              && flips[k].before == XorByte(old(mem[dram[k].cell]), Held(dram[..k], dram[k].cell))
  {
    flips := [];
    forall c | 0 <= c < mem.Length ensures XorByte(mem[c], Held(dram[..0], c)) == mem[c] {
      XorByteLaws(mem[c], 0, 0);
    }
    for k := 0 to |dram|
      invariant |flips| == k
      invariant forall c | 0 <= c < mem.Length :: mem[c] == XorByte(old(mem[c]), Held(dram[..k], c))
      invariant forall j | 0 <= j < k ::
                  && flips[j].cell == dram[j].cell && flips[j].mask == BitMask(dram[j].bit)
                  && flips[j].before == XorByte(old(mem[dram[j].cell]), Held(dram[..j], dram[j].cell))
    {
      forall c | 0 <= c < mem.Length
        ensures XorByte(old(mem[c]), Held(dram[..k + 1], c)) ==
                if c == dram[k].cell then XorByte(mem[c], BitMask(dram[k].bit)) else mem[c]
      {
        HeldSnoc(dram, k, c);
        XorByteLaws(old(mem[c]), Held(dram[..k], c), BitMask(dram[k].bit));
        XorByteLaws(Held(dram[..k], c), 0, 0);
      }
      var flip := FlipBit(mem, dram[k].cell, dram[k].bit);
      flips := flips + [flip.value];
    }
    assert dram[..|dram|] == dram;
  }

  // The guard compare: pristine XOR every recorded mask must be what is live.
  method GuardCompare(mem: array<Byte>, pristine: seq<Byte>, dram: seq<DramSite>, flips: seq<Flip>) returns (ok: bool)
    requires |pristine| == mem.Length && |flips| == |dram|
    requires forall k | 0 <= k < |dram| :: dram[k].cell < mem.Length
    requires forall k | 0 <= k < |dram| :: flips[k].cell == dram[k].cell && flips[k].mask == BitMask(dram[k].bit)
    ensures ok <==> forall c | 0 <= c < mem.Length :: mem[c] == XorByte(pristine[c], Held(dram, c))
  {
    var expected := pristine;
    forall c | 0 <= c < |pristine| ensures XorByte(pristine[c], Held(dram[..0], c)) == pristine[c] {
      XorByteLaws(pristine[c], 0, 0);
    }
    for k := 0 to |flips|
      invariant |expected| == |pristine|
      invariant forall c | 0 <= c < |pristine| :: expected[c] == XorByte(pristine[c], Held(dram[..k], c))
    {
      forall c | 0 <= c < |pristine|
        ensures XorByte(pristine[c], Held(dram[..k + 1], c)) ==
                if c == dram[k].cell then XorByte(expected[c], flips[k].mask) else expected[c]
      {
        HeldSnoc(dram, k, c);
        XorByteLaws(pristine[c], Held(dram[..k], c), BitMask(dram[k].bit));
        XorByteLaws(Held(dram[..k], c), 0, 0);
      }
      expected := expected[dram[k].cell := XorByte(expected[dram[k].cell], flips[k].mask)];
    }
    assert dram[..|dram|] == dram;
    ok := mem[..] == expected;
    assert ok <==> forall c | 0 <= c < mem.Length :: mem[..][c] == expected[c];
  }

  // Re-apply the held faults of one region, in work order.
  method FlipRegion(mem: array<Byte>, dram: seq<DramSite>, region: Region)
    requires forall k | 0 <= k < |dram| :: dram[k].cell < mem.Length && dram[k].bit < 8
    modifies mem
    ensures forall c | 0 <= c < mem.Length
            && (forall k | 0 <= k < |dram| && dram[k].cell == c :: dram[k].region == region) ::
              mem[c] == XorByte(old(mem[c]), Held(dram, c))
    ensures forall c | 0 <= c < mem.Length
            && (forall k | 0 <= k < |dram| && dram[k].cell == c :: dram[k].region != region) ::
              mem[c] == old(mem[c])
  {
    forall c | 0 <= c < mem.Length ensures XorByte(mem[c], Held(dram[..0], c)) == mem[c] {
      XorByteLaws(mem[c], 0, 0);
    }
    for n := 0 to |dram|
      invariant forall c | 0 <= c < mem.Length
                && (forall k | 0 <= k < |dram| && dram[k].cell == c :: dram[k].region == region) ::
                  mem[c] == XorByte(old(mem[c]), Held(dram[..n], c))
      invariant forall c | 0 <= c < mem.Length
                && (forall k | 0 <= k < |dram| && dram[k].cell == c :: dram[k].region != region) ::
                  mem[c] == old(mem[c])
    {
      forall c | 0 <= c < mem.Length
        ensures XorByte(old(mem[c]), Held(dram[..n + 1], c)) ==
                XorByte(XorByte(old(mem[c]), Held(dram[..n], c)), if c == dram[n].cell then BitMask(dram[n].bit) else 0)
      {
        HeldSnoc(dram, n, c);
        XorByteLaws(old(mem[c]), Held(dram[..n], c), if c == dram[n].cell then BitMask(dram[n].bit) else 0);
        XorByteLaws(XorByte(old(mem[c]), Held(dram[..n], c)), 0, 0);
      }
      if dram[n].region == region {
        var flip := FlipBit(mem, dram[n].cell, dram[n].bit);
      }
    }
    assert dram[..|dram|] == dram;
  }

  // ---- the evaluation pass ------------------------------------------------------

  function StartsAt(sites: seq<Site>, n: nat, image: nat): (r: seq<nat>)
    requires n <= |sites|
    ensures forall k: nat :: k in r <==> k < n && sites[k].start == image
  {
    if n == 0 then []
    else if sites[n - 1].start == image then StartsAt(sites, n - 1, image) + [n - 1]
    else StartsAt(sites, n - 1, image)
  }

  method BuildStarts(sites: seq<Site>, images: nat) returns (starts: seq<seq<nat>>)
    requires forall k | 0 <= k < |sites| :: sites[k].start < images
    ensures |starts| == images && forall i | 0 <= i < images :: starts[i] == StartsAt(sites, |sites|, i)
  {
    starts := seq(images, _ => []);
    for n := 0 to |sites|
      invariant |starts| == images && forall i | 0 <= i < images :: starts[i] == StartsAt(sites, n, i)
    {
      starts := starts[sites[n].start := starts[sites[n].start] + [n]];
    }
  }

  // Changes to noisy bytes alone leave the tracked bytes as they read.
  lemma QuietBytesStay(spots: seq<Spot>, bytes: map<nat, ByteState>, was: seq<Byte>, now: seq<Byte>, pre: seq<Byte>,
                       quiet: set<nat>)
    requires |was| == |now| == |pre| && Undisturbed(spots, bytes, was, pre, quiet)
    requires forall c | c in quiet && c < |was| :: now[c] == was[c]
    ensures Undisturbed(spots, bytes, now, pre, quiet)
  {
    forall c | c in quiet && c < |now| ensures Reads(spots, bytes, now[c], pre[c], c) {
      assert Reads(spots, bytes, was[c], pre[c], c);
    }
  }

  method Stage(mem: array<Byte>, base: nat, image: seq<Byte>)
    requires base + |image| <= mem.Length
    modifies mem
    ensures forall c | 0 <= c < mem.Length ::
              mem[c] == if base <= c < base + |image| then image[c - base] else old(mem[c])
  {
    forall c | base <= c < base + |image| {
      mem[c] := image[c - base];
    }
  }

  // The input binding holds this image with the held faults on top.
  ghost predicate HoldsImage(t: Setup, image: seq<Byte>, mem: seq<Byte>)
    requires |image| == t.inputSize && t.inputBase + t.inputSize <= |mem|
  {
    forall c: nat | InInput(t, c) :: mem[c] == XorByte(image[c - t.inputBase], Held(t.dram, c))
  }

  lemma InputStays(t: Setup, image: seq<Byte>, was: seq<Byte>, now: seq<Byte>)
    requires |image| == t.inputSize && t.inputBase + t.inputSize <= |was| == |now| && HoldsImage(t, image, was)
    requires forall c: nat | InInput(t, c) :: now[c] == was[c]
    ensures HoldsImage(t, image, now)
  {
  }

  // The tracker's books are right and its quiet bytes read as they should.
  ghost predicate Tracking(t: Setup, tracker: Tracker, mem: array<Byte>, pre: seq<Byte>)
    reads tracker, mem
  {
    && tracker.mem == mem && tracker.sites == t.cache && tracker.images == |t.staged|
    && |tracker.records| == |t.cache| && |pre| == mem.Length
    && Indices(t.cache, tracker.active)
    && Booked(Spots(t.cache, tracker.active), tracker.bytes)
    && Undisturbed(Spots(t.cache, tracker.active), tracker.bytes, mem[..], pre, Quiet(t, mem.Length))
  }

  // Staging, held input faults, cache flips, inference, held output faults.
  method RunImage(t: Setup, i: nat, mem: array<Byte>, tracker: Tracker, starting: seq<nat>, ghost pre: seq<Byte>)
    returns (ok: bool)
    requires GoodSetup(t, mem.Length) && i < |t.staged|
    requires Tracking(t, tracker, mem, pre) && Indices(t.cache, starting)
    modifies mem, tracker
    ensures ReadOnlySitesAreQuiet(t.cache, Quiet(t, mem.Length)) ==> ok
    ensures ok ==> Tracking(t, tracker, mem, pre)
    ensures ok ==> tracker.active == old(tracker.active) + starting
    ensures ok ==> forall k | 0 <= k < |t.cache| ::
              Brought(old(tracker.records)[k], tracker.records[k], k in starting, i)
    ensures ok && InputIsOurs(t) ==> HoldsImage(t, t.staged[i], mem[..])
  {
    ghost var spots := Spots(t.cache, tracker.active);
    ghost var quiet := Quiet(t, mem.Length);
    Stage(mem, t.inputBase, t.staged[i]);
    FlipRegion(mem, t.dram, Input);
    QuietBytesStay(spots, tracker.bytes, old(mem[..]), mem[..], pre, quiet);
    assert HoldsImage(t, t.staged[i], mem[..]);
    ghost var staged := mem[..];
    ok := tracker.Apply(i, starting, pre, quiet);
    if !ok {
      return;
    }
    ghost var applied := mem[..];
    RunEngine(mem, t.engine[i]);
    FlipRegion(mem, t.dram, Output);
    if InputIsOurs(t) {
      InputStays(t, t.staged[i], staged, mem[..]);
    }
    QuietBytesStay(Spots(t.cache, tracker.active), tracker.bytes, applied, mem[..], pre, quiet);
  }

  // Where every cache site stands before image i.
  ghost predicate Lifecycle(t: Setup, records: seq<Record>, active: seq<nat>, i: nat, quiet: set<nat>)
    requires |records| == |t.cache|
  {
    forall k {:trigger records[k]} | 0 <= k < |t.cache| :: Stands(t.cache[k], records[k], k in active, i, quiet)
  }

  ghost predicate Stands(s: Site, r: Record, active: bool, i: nat, quiet: set<nat>) {
    && (active <==> s.start < i <= s.last)
    && (r.applied <==> s.start < i)
    && (r.applied ==> r.applyImage == s.start)
    && (r.removal == NotApplied <==> !r.applied || active)
    && (r.removal != NotApplied ==> r.removalImage == s.last)
    && (r.removal == ReXor <==> r.removal != NotApplied && s.readOnly)
    && (s.cell in quiet ==> r.removal != Overwritten)
  }

  // Where it stands once `last` was the last image evaluated: applied and
  // removed in time, and on a byte nothing else writes put back.
  predicate Settled(s: Site, r: Record, last: nat, quiet: set<nat>) {
    && (r.applied <==> s.start <= last)
    && (r.removal == NotApplied <==> s.start > last)
    && (r.applied ==> r.applyImage == s.start && r.removalImage == if s.last < last then s.last else last)
    && (r.removal == ReXor <==> r.applied && s.readOnly)
    && (r.applied && !s.readOnly && s.cell in quiet ==> r.removal == Restored)
  }

  ghost predicate AllSettledAt(t: Setup, records: seq<Record>, last: nat, quiet: set<nat>) {
    |records| == |t.cache| && forall k | 0 <= k < |t.cache| :: Settled(t.cache[k], records[k], last, quiet)
  }

  // One image and the removal of what ends with it, or of everything when its
  // output is invalid.
  method RunOne(t: Setup, i: nat, mem: array<Byte>, tracker: Tracker, starting: seq<nat>, ghost pre: seq<Byte>)
    returns (ok: bool)
    requires GoodSetup(t, mem.Length) && i < |t.staged| && starting == StartsAt(t.cache, |t.cache|, i)
    requires Tracking(t, tracker, mem, pre) && Lifecycle(t, tracker.records, tracker.active, i, Quiet(t, mem.Length))
    modifies mem, tracker
    ensures ReadOnlySitesAreQuiet(t.cache, Quiet(t, mem.Length)) ==> ok
    ensures ok ==> Tracking(t, tracker, mem, pre)
    ensures ok && t.valid[i] ==> Lifecycle(t, tracker.records, tracker.active, i + 1, Quiet(t, mem.Length))
    ensures ok && !t.valid[i] ==> tracker.active == [] && AllSettledAt(t, tracker.records, i, Quiet(t, mem.Length))
    ensures ok && InputIsOurs(t) ==> HoldsImage(t, t.staged[i], mem[..])
  {
    ghost var quiet := Quiet(t, mem.Length);
    ghost var records0, active0 := tracker.records, tracker.active;
    assert forall j | 0 <= j < |starting| :: starting[j] in starting;
    ok := RunImage(t, i, mem, tracker, starting, pre);
    if !ok {
      return;
    }
    ghost var records1, active1 := tracker.records, tracker.active;
    ok := tracker.Remove(i, !t.valid[i], pre, quiet);
    if !ok {
      return;
    }
    StepLifecycle(t, records0, active0, records1, active1, tracker.records, tracker.active,
                  starting, i, !t.valid[i], quiet);
  }

  // The pass over the images, aborted at the first invalid output.
  method RunPass(t: Setup, mem: array<Byte>, tracker: Tracker, starts: seq<seq<nat>>, ghost pre: seq<Byte>)
    returns (ok: bool, last: nat)
    requires GoodSetup(t, mem.Length) && Tracking(t, tracker, mem, pre)
    requires Lifecycle(t, tracker.records, tracker.active, 0, Quiet(t, mem.Length))
    requires |starts| == |t.staged| && forall i | 0 <= i < |starts| :: starts[i] == StartsAt(t.cache, |t.cache|, i)
    modifies mem, tracker
    ensures ReadOnlySitesAreQuiet(t.cache, Quiet(t, mem.Length)) ==> ok
    ensures ok ==> IsLastEvaluated(t, last)
    ensures ok ==> Tracking(t, tracker, mem, pre) && tracker.active == []
    ensures ok ==> AllSettledAt(t, tracker.records, last, Quiet(t, mem.Length))
    ensures ok && InputIsOurs(t) ==> HoldsImage(t, t.staged[last], mem[..])
  {
    ghost var quiet := Quiet(t, mem.Length);
    ok, last := true, 0;
    var i := 0;
    while i < |t.staged|
      invariant i <= |t.staged| && (i > 0 ==> last == i - 1)
      invariant forall j | 0 <= j < i :: t.valid[j]
      invariant Tracking(t, tracker, mem, pre) && Lifecycle(t, tracker.records, tracker.active, i, Quiet(t, mem.Length))
      invariant i > 0 && InputIsOurs(t) ==> HoldsImage(t, t.staged[last], mem[..])
    {
      ok := RunOne(t, i, mem, tracker, starts[i], pre);
      if !ok {
        return;
      }
      last := i;
      if !t.valid[i] {
        return;
      }
      i := i + 1;
    }
    AllSettled(t, tracker.records, tracker.active, i, quiet);
  }

  ghost predicate IsLastEvaluated(t: Setup, last: nat)
    requires |t.valid| == |t.staged|
  {
    && last < |t.staged|
    && (forall j | 0 <= j < last :: t.valid[j])
    && (last == |t.staged| - 1 || !t.valid[last])
  }

  lemma StepLifecycle(t: Setup, records0: seq<Record>, active0: seq<nat>, records1: seq<Record>, active1: seq<nat>,
                      records2: seq<Record>, active2: seq<nat>, starting: seq<nat>, i: nat, all: bool, quiet: set<nat>)
    requires |records0| == |records1| == |records2| == |t.cache|
    requires forall k | 0 <= k < |t.cache| :: t.cache[k].start <= t.cache[k].last
    requires Lifecycle(t, records0, active0, i, quiet)
    requires starting == StartsAt(t.cache, |t.cache|, i) && active1 == active0 + starting
    requires Indices(t.cache, active1) && Indices(t.cache, active2)
    requires forall k | 0 <= k < |t.cache| :: Brought(records0[k], records1[k], k in starting, i)
    requires forall k :: k in active2 <==> k in active1 && !(all || t.cache[k].last == i)
    requires forall k | 0 <= k < |t.cache| ::
               if k in active1 && (all || t.cache[k].last == i)
               then Gone(t.cache[k], records1[k], records2[k], i, quiet) else records2[k] == records1[k]
    ensures !all ==> Lifecycle(t, records2, active2, i + 1, quiet)
    ensures all ==> active2 == [] && AllSettledAt(t, records2, i, quiet)
  {
    forall k | 0 <= k < |t.cache|
      ensures !all ==> Stands(t.cache[k], records2[k], k in active2, i + 1, quiet)
      ensures all ==> Settled(t.cache[k], records2[k], i, quiet)
    {
      assert Stands(t.cache[k], records0[k], k in active0, i, quiet);
      assert Brought(records0[k], records1[k], k in starting, i);
    }
    SomeMember(active2);
  }

  // After the last image nothing is alive.
  lemma AllSettled(t: Setup, records: seq<Record>, active: seq<nat>, i: nat, quiet: set<nat>)
    requires |records| == |t.cache| && i == |t.staged| > 0 && Indices(t.cache, active)
    requires forall k | 0 <= k < |t.cache| :: t.cache[k].start <= t.cache[k].last < i
    requires Lifecycle(t, records, active, i, quiet)
    ensures active == [] && AllSettledAt(t, records, i - 1, quiet)
  {
    SomeMember(active);
    forall k | 0 <= k < |t.cache| ensures k !in active && Settled(t.cache[k], records[k], i - 1, quiet) {
      assert Stands(t.cache[k], records[k], k in active, i, quiet);
    }
  }

  lemma SomeMember(s: seq<nat>)
    ensures s != [] ==> s[0] in s
  {
  }

  // ---- restore --------------------------------------------------------------------

  // Un-flip every site in reverse work order. A site reports its byte restored
  // exactly when the byte, held faults aside, is what it was before any flip.
  method Restore(mem: array<Byte>, dram: seq<DramSite>, flips: seq<Flip>, ghost init: seq<Byte>)
    returns (restoredOk: seq<bool>)
    requires |flips| == |dram| && |init| == mem.Length
    requires forall k | 0 <= k < |dram| :: dram[k].cell < mem.Length && dram[k].bit < 8
    requires forall k | 0 <= k < |dram| :: flips[k].before == XorByte(init[dram[k].cell], Held(dram[..k], dram[k].cell))
    modifies mem
    ensures forall c | 0 <= c < mem.Length :: mem[c] == XorByte(old(mem[c]), Held(dram, c))
    ensures |restoredOk| == |dram| && forall k | 0 <= k < |dram| ::
              restoredOk[k] <==> XorByte(old(mem[dram[k].cell]), Held(dram, dram[k].cell)) == init[dram[k].cell]
  {
    restoredOk := seq(|dram|, _ => false);
    var n := |dram|;
    assert dram[..n] == dram;
    forall c | 0 <= c < mem.Length ensures mem[c] == XorByte(XorByte(mem[c], Held(dram, c)), Held(dram[..n], c)) {
      XorTwice(mem[c], Held(dram, c));
    }
    while n > 0
      invariant n <= |dram| && |restoredOk| == |dram|
      invariant forall c | 0 <= c < mem.Length ::
                  mem[c] == XorByte(XorByte(old(mem[c]), Held(dram, c)), Held(dram[..n], c))
      invariant forall k | n <= k < |dram| ::
                  restoredOk[k] <==> XorByte(old(mem[dram[k].cell]), Held(dram, dram[k].cell)) == init[dram[k].cell]
    {
      n := n - 1;
      var cell, mask := dram[n].cell, BitMask(dram[n].bit);
      forall c | 0 <= c < mem.Length
        ensures XorByte(XorByte(old(mem[c]), Held(dram, c)), Held(dram[..n], c)) ==
                if c == cell then XorByte(mem[c], mask) else mem[c]
      {
        HeldSnoc(dram, n, c);
        UndoLast(XorByte(old(mem[c]), Held(dram, c)), Held(dram[..n], c), if c == cell then mask else 0);
        XorByteLaws(mem[c], 0, 0);
      }
      var unflip := FlipBit(mem, cell, dram[n].bit);
      XorInjective(XorByte(old(mem[cell]), Held(dram, cell)), init[cell], Held(dram[..n], cell));
      restoredOk := restoredOk[n := unflip.value.after == flips[n].before];
    }
    forall c | 0 <= c < mem.Length ensures mem[c] == XorByte(old(mem[c]), Held(dram, c)) {
      XorByteLaws(XorByte(old(mem[c]), Held(dram, c)), 0, 0);
      assert DramSpots(dram[..0]) == [];
    }
  }

  lemma UndoLast(x: Byte, held: Byte, mask: Byte)
    ensures XorByte(XorByte(x, XorByte(held, mask)), mask) == XorByte(x, held)
  {
    XorByteLaws(x, XorByte(held, mask), mask);
    XorByteLaws(held, mask, mask);
    XorByteLaws(mask, held, 0);
    XorByteLaws(held, 0, 0);
  }

  lemma XorInjective(x: Byte, y: Byte, z: Byte)
    ensures XorByte(x, z) == XorByte(y, z) <==> x == y
  {
    XorByteLaws(x, z, z);
    XorByteLaws(y, z, z);
    XorByteLaws(z, 0, 0);
    XorByteLaws(x, 0, 0);
    XorByteLaws(y, 0, 0);
  }

  // ---- the trial ---------------------------------------------------------------------

  // Flip, guard, and run the pass with the faults held.
  method HoldAndRun(t: Setup, mem: array<Byte>) returns (ok: bool, flips: seq<Flip>, last: nat, cache: seq<Record>)
    requires GoodSetup(t, mem.Length)
    modifies mem
    ensures ReadOnlySitesAreQuiet(t.cache, Quiet(t, mem.Length)) ==> ok
    ensures ok ==> IsLastEvaluated(t, last)
    ensures ok ==> |flips| == |t.dram| && forall k | 0 <= k < |t.dram| ::
              flips[k].before == XorByte(old(mem[t.dram[k].cell]), Held(t.dram[..k], t.dram[k].cell))
    ensures ok ==> forall c: nat | c < mem.Length && Untouched(t, c) :: mem[c] == XorByte(old(mem[c]), Held(t.dram, c))
    ensures ok && InputIsOurs(t) ==> HoldsImage(t, t.staged[last], mem[..])
    ensures ok ==> AllSettledAt(t, cache, last, Quiet(t, mem.Length))
  {
    last, cache := 0, [];
    var pristine := mem[..];
    flips := FlipAll(mem, t.dram);
    ok := GuardCompare(mem, pristine, t.dram, flips);
    if !ok {
      return;
    }
    ghost var pre := mem[..];
    var starts := BuildStarts(t.cache, |t.staged|);
    var tracker := new Tracker(mem, t.cache, |t.staged|);
    FreshTracker(t, tracker, mem, pre);
    ok, last := RunPass(t, mem, tracker, starts, pre);
    if !ok || tracker.active != [] {
      ok := false;
      return;
    }
    cache := tracker.records;
    assert Spots(t.cache, tracker.active) == [];
    forall c: nat | c < mem.Length && Untouched(t, c) ensures mem[c] == pre[c] {
      assert c in Quiet(t, mem.Length);
      assert Reads([], tracker.bytes, mem[..][c], pre[c], c);
      XorByteLaws(pre[c], 0, 0);
    }
  }

  // The faults, their restore and the compare of the input binding.
  method RunFaults(t: Setup, mem: array<Byte>) returns (r: Result)
    requires GoodSetup(t, mem.Length)
    modifies mem
    ensures ReadOnlySitesAreQuiet(t.cache, Quiet(t, mem.Length)) && InputIsOurs(t) ==> r.Done?
    ensures r.Done? ==> forall c: nat | c < mem.Length && Untouched(t, c) :: mem[c] == old(mem[c])
    ensures r.Done? ==>
              && |r.restoredOk| == |t.dram|
              && forall k | 0 <= k < |t.dram| && Untouched(t, t.dram[k].cell) :: r.restoredOk[k]
    ensures r.Done? ==> 0 < r.evaluated <= |t.staged| && IsLastEvaluated(t, r.evaluated - 1)
    ensures r.Done? ==> mem[t.inputBase..t.inputBase + t.inputSize] == t.staged[r.evaluated - 1]
    ensures r.Done? ==> AllSettledAt(t, r.cache, r.evaluated - 1, Quiet(t, mem.Length))
  {
    ghost var init := mem[..];
    var ok, flips, last, cache := HoldAndRun(t, mem);
    if !ok {
      return Thrown;
    }
    ghost var held := mem[..];
    var restoredOk := Restore(mem, t.dram, flips, init);
    forall c: nat | c < mem.Length && Untouched(t, c) ensures XorByte(held[c], Held(t.dram, c)) == init[c] {
      XorTwice(init[c], Held(t.dram, c));
    }
    if InputIsOurs(t) {
      forall c: nat | InInput(t, c) ensures mem[c] == t.staged[last][c - t.inputBase] {
        XorTwice(t.staged[last][c - t.inputBase], Held(t.dram, c));
      }
      assert mem[t.inputBase..t.inputBase + t.inputSize] == t.staged[last];
    }
    if mem[t.inputBase..t.inputBase + t.inputSize] != t.staged[last] {
      return Thrown;
    }
    r := Done(flips, restoredOk, last + 1, cache);
  }

  // The whole trial: faults, restore, and the sanity inference on what they
  // leave, `seen`.
  method RunTrial(t: Setup, mem: array<Byte>) returns (r: Result, ghost restored: seq<Byte>, ghost seen: seq<Byte>)
    requires GoodSetup(t, mem.Length)
    modifies mem
    // no fail-closed check can fire but the sanity inference's own
    ensures r.Done? ==> t.sanityMatches
    ensures ReadOnlySitesAreQuiet(t.cache, Quiet(t, mem.Length)) && InputIsOurs(t) && t.sanityMatches ==> r.Done?
    // no residue, wherever the pass was aborted: not before the sanity
    // inference, not in what it sees, and not after it
    ensures r.Done? ==> |restored| == |seen| == mem.Length && forall c: nat | c < mem.Length && Untouched(t, c) ::
              restored[c] == seen[c] == mem[c] == old(mem[c])
    ensures r.Done? ==>
              && |r.restoredOk| == |t.dram|
              && forall k | 0 <= k < |t.dram| && Untouched(t, t.dram[k].cell) :: r.restoredOk[k]
    // the input binding is restored to the last evaluated image, and the
    // sanity inference sees its own
    ensures r.Done? ==> 0 < r.evaluated <= |t.staged| && IsLastEvaluated(t, r.evaluated - 1)
    ensures r.Done? ==> restored[t.inputBase..t.inputBase + t.inputSize] == t.staged[r.evaluated - 1]
    ensures r.Done? ==> seen[t.inputBase..t.inputBase + t.inputSize] == t.sanityImage
    // every cache site was applied and removed when its images say so, and
    // put its byte back unless something else writes there
    ensures r.Done? ==> AllSettledAt(t, r.cache, r.evaluated - 1, Quiet(t, mem.Length))
  {
    r := RunFaults(t, mem);
    restored, seen := mem[..], mem[..];
    if r.Thrown? {
      return;
    }
    Stage(mem, t.inputBase, t.sanityImage);
    seen := mem[..];
    assert seen[t.inputBase..t.inputBase + t.inputSize] == t.sanityImage;
    RunEngine(mem, t.sanityWrites);
    if !t.sanityMatches {
      r := Thrown;
    }
  }

  lemma FreshTracker(t: Setup, tracker: Tracker, mem: array<Byte>, pre: seq<Byte>)
    requires pre == mem[..] && tracker.mem == mem && tracker.sites == t.cache && tracker.images == |t.staged|
    requires tracker.active == [] && tracker.bytes == map[] && |tracker.records| == |t.cache|
    requires forall k | 0 <= k < |t.cache| :: !tracker.records[k].applied && tracker.records[k].removal == NotApplied
    ensures Tracking(t, tracker, mem, pre) && Lifecycle(t, tracker.records, tracker.active, 0, Quiet(t, mem.Length))
  {
    assert Spots(t.cache, tracker.active) == [];
    forall c | 0 <= c < mem.Length ensures Reads([], tracker.bytes, mem[..][c], pre[c], c) {
      XorByteLaws(pre[c], 0, 0);
    }
  }
}
