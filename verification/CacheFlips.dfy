// Cache flips that come and go by image interval, several in one byte
// (`apply_cache` and `remove_cache` in apps/resnet50_int8_g1_5.cpp).
module CacheFlips {
  import opened Bits
  import opened DeviceMemory

  // One cache site of a trial, alive over images [start, last].
  datatype Site = Site(cell: nat, bit: nat, start: nat, last: nat, readOnly: bool)

  datatype Removal = NotApplied | ReXor | Restored | Overwritten

  datatype Record = Record(applied: bool, applyImage: nat, flip: Flip,
                           removal: Removal, removalImage: nat, removeBefore: Byte, removeAfter: Byte)

  // Bookkeeping of one byte that carries active flips.
  datatype ByteState = ByteState(pristine: Byte, activeMask: Byte, activeCount: int, overwritten: bool)

  // What read_cache_work admits.
  predicate GoodSites(sites: seq<Site>, size: nat, images: nat) {
    forall k | 0 <= k < |sites| ::
      sites[k].cell < size && sites[k].bit < 8 && sites[k].start <= sites[k].last < images
  }

  // ---- what the bookkeeping must say --------------------------------------------

  predicate Indices(sites: seq<Site>, live: seq<nat>) {
    forall i | 0 <= i < |live| :: live[i] < |sites|
  }

  function SpotOf(s: Site): Spot {
    Spot(s.cell, BitMask(s.bit))
  }

  function Spots(sites: seq<Site>, live: seq<nat>): (r: seq<Spot>)
    requires Indices(sites, live)
    ensures |r| == |live|
  {
    seq(|live|, i requires 0 <= i < |live| => SpotOf(sites[live[i]]))
  }

  // A byte has an entry exactly while flips are active on it, and the entry
  // holds their number and the XOR of their masks.
  ghost predicate Entry(spots: seq<Spot>, bytes: map<nat, ByteState>, c: nat) {
    && (c in bytes <==> CountAll(spots, c) > 0)
    && (c in bytes ==> bytes[c].activeCount == CountAll(spots, c) && bytes[c].activeMask == MaskAll(spots, c))
  }

  ghost predicate Booked(spots: seq<Spot>, bytes: map<nat, ByteState>) {
    forall c: nat :: Entry(spots, bytes, c)
  }

  // A byte nothing else writes reads its pre-cache value XOR its active mask.
  ghost predicate Reads(spots: seq<Spot>, bytes: map<nat, ByteState>, now: Byte, pre: Byte, c: nat) {
    && now == XorByte(pre, MaskAll(spots, c))
    && (c in bytes ==> bytes[c].pristine == pre && !bytes[c].overwritten)
  }

  ghost predicate Undisturbed(spots: seq<Spot>, bytes: map<nat, ByteState>, mem: seq<Byte>, pre: seq<Byte>,
                              quiet: set<nat>)
    requires |mem| == |pre|
  {
    forall c {:trigger Reads(spots, bytes, mem[c], pre[c], c)} | c in quiet && c < |mem| ::
      Reads(spots, bytes, mem[c], pre[c], c)
  }

  // The engine has not rewritten a tracked byte, as far as its entry can tell.
  predicate Intact(entry: ByteState, now: Byte) {
    !entry.overwritten && now == XorByte(entry.pristine, entry.activeMask)
  }

  ghost predicate ReadOnlySitesAreQuiet(sites: seq<Site>, quiet: set<nat>) {
    forall k | 0 <= k < |sites| && sites[k].readOnly :: sites[k].cell in quiet
  }

  // ---- the tracker ----------------------------------------------------------------

  class Tracker {
    const mem: array<Byte>
    const sites: seq<Site>
    const images: nat
    var records: seq<Record>
    var active: seq<nat>
    var bytes: map<nat, ByteState>

    constructor (mem: array<Byte>, sites: seq<Site>, images: nat)
      ensures this.mem == mem && this.sites == sites && this.images == images
      ensures active == [] && bytes == map[] && |records| == |sites|
      ensures forall k | 0 <= k < |sites| :: !records[k].applied && records[k].removal == NotApplied
    {
      this.mem, this.sites, this.images := mem, sites, images;
      records := seq(|sites|, _ => Record(false, 0, Flip(0, 0, 0, 0), NotApplied, 0, 0, 0));
      active, bytes := [], map[];
    }

    // One site comes alive. False is the fail-closed throw.
    method ApplyOne(index: nat, image: nat, ghost spots: seq<Spot>, ghost pre: seq<Byte>, ghost quiet: set<nat>)
      returns (ok: bool)
      requires GoodSites(sites, mem.Length, images) && |records| == |sites| && index < |sites|
      requires |pre| == mem.Length && Booked(spots, bytes)
      requires Undisturbed(spots, bytes, mem[..], pre, quiet)
      modifies mem, this
      ensures ReadOnlySitesAreQuiet(sites, quiet) ==> ok
      ensures var s := sites[index];
              ok <==> (s.readOnly && s.cell in old(bytes) && !old(bytes)[s.cell].overwritten ==>
                         Intact(old(bytes)[s.cell], old(mem[s.cell])))
      ensures ok ==> var c := sites[index].cell;
              c in bytes && (bytes[c].overwritten <==> c in old(bytes) && !Intact(old(bytes)[c], old(mem[c])))
      ensures ok ==> Booked(spots + [SpotOf(sites[index])], bytes)
      ensures ok ==> Undisturbed(spots + [SpotOf(sites[index])], bytes, mem[..], pre, quiet)
      ensures ok ==> active == old(active) + [index] && |records| == |sites|
      ensures ok ==> forall k | 0 <= k < |sites| && k != index :: records[k] == old(records[k])
      ensures ok ==>
                records[index] ==
                old(records[index]).(applied := true, applyImage := image, flip := records[index].flip)
      ensures mem[..] ==
              old(mem[..])[sites[index].cell := XorByte(old(mem[sites[index].cell]), BitMask(sites[index].bit))]
      ensures OnlySiteBytes(sites, old(mem[..]), mem[..])
    {
      var site := sites[index];
      assert site.cell in quiet ==> Reads(spots, bytes, mem[site.cell], pre[site.cell], site.cell);
      assert Entry(spots, bytes, site.cell);
      var flipped := FlipBit(mem, site.cell, site.bit);
      var flip := flipped.value;
      var state;
      if site.cell !in bytes {
        state := ByteState(flip.before, 0, 0, false);
      } else {
        state := bytes[site.cell];
        if !state.overwritten && flip.before != XorByte(state.pristine, state.activeMask) {
          if site.readOnly {
            ok := false;
            return;
          }
          state := state.(overwritten := true);
        }
      }
      state := state.(activeMask := XorByte(state.activeMask, flip.mask), activeCount := state.activeCount + 1);
      EnterKeeps(spots, SpotOf(site), bytes, state.overwritten, old(mem[..]), pre, quiet);
      assert state == Entering(bytes, SpotOf(site), state.overwritten, flip.before);
      bytes := bytes[site.cell := state];
      records := records[index := records[index].(applied := true, applyImage := image, flip := flip)];
      active := active + [index];
      ok := true;
    }

    // `apply_cache`: every site starting at this image comes alive.
    method Apply(image: nat, starting: seq<nat>, ghost pre: seq<Byte>, ghost quiet: set<nat>) returns (ok: bool)
      requires GoodSites(sites, mem.Length, images) && |records| == |sites|
      requires Indices(sites, active) && Indices(sites, starting)
      requires |pre| == mem.Length && Booked(Spots(sites, active), bytes)
      requires Undisturbed(Spots(sites, active), bytes, mem[..], pre, quiet)
      modifies mem, this
      ensures ReadOnlySitesAreQuiet(sites, quiet) ==> ok
      ensures ok ==> active == old(active) + starting && Indices(sites, active)
      ensures ok ==> Booked(Spots(sites, active), bytes)
      ensures ok ==> Undisturbed(Spots(sites, active), bytes, mem[..], pre, quiet)
      ensures ok ==> |records| == |sites| && forall k | 0 <= k < |sites| ::
                Brought(old(records)[k], records[k], k in starting, image)
      ensures OnlySiteBytes(sites, old(mem[..]), mem[..])
    {
      ok := true;
      for i := 0 to |starting|
        invariant active == old(active) + starting[..i] && Indices(sites, active)
        invariant |records| == |sites|
        invariant Booked(Spots(sites, active), bytes)
        invariant Undisturbed(Spots(sites, active), bytes, mem[..], pre, quiet)
        invariant forall k | 0 <= k < |sites| :: Brought(old(records)[k], records[k], k in starting[..i], image)
        invariant OnlySiteBytes(sites, old(mem[..]), mem[..])
      {
        var index := starting[i];
        SpotsSnoc(sites, active, index);
        assert starting[..i + 1] == starting[..i] + [index];
        ok := ApplyOne(index, image, Spots(sites, active), pre, quiet);
        if !ok {
          return;
        }
      }
      assert starting[..|starting|] == starting;
    }

    // One site goes. False is a fail-closed throw.
    method RemoveSite(index: nat, image: nat, ghost keep: seq<Spot>, ghost rest: seq<Spot>,
                      ghost pre: seq<Byte>, ghost quiet: set<nat>)
      returns (ok: bool)
      requires GoodSites(sites, mem.Length, images) && |records| == |sites| && index < |sites|
      requires |pre| == mem.Length && Booked(keep + [SpotOf(sites[index])] + rest, bytes)
      requires Undisturbed(keep + [SpotOf(sites[index])] + rest, bytes, mem[..], pre, quiet)
      modifies mem, this`records, this`bytes
      ensures (sites[index].readOnly ==> sites[index].cell in quiet) ==> ok
      ensures var s := sites[index]; s.cell in old(bytes)
      ensures var s := sites[index]; ok <==> (s.readOnly ==> Intact(old(bytes)[s.cell], old(mem[s.cell])))
      ensures ok ==> var s := sites[index];
              && |records| == |sites|
              && (records[index].removal == Overwritten <==> !Intact(old(bytes)[s.cell], old(mem[s.cell])))
      ensures ok ==> Booked(keep + rest, bytes)
      ensures ok ==> Undisturbed(keep + rest, bytes, mem[..], pre, quiet)
      ensures ok ==> |records| == |sites| && forall k | 0 <= k < |sites| && k != index :: records[k] == old(records[k])
      ensures ok ==> Gone(sites[index], old(records[index]), records[index], image, quiet)
      ensures ok && records[index].removal == Overwritten ==> mem[..] == old(mem[..])
      ensures ok && records[index].removal != Overwritten ==>
                mem[..] ==
                old(mem[..])[sites[index].cell := XorByte(old(mem[sites[index].cell]), BitMask(sites[index].bit))]
      ensures OnlySiteBytes(sites, old(mem[..]), mem[..])
    {
      var site := sites[index];
      ghost var x := SpotOf(site);
      assert Entry(keep + [x] + rest, bytes, site.cell);
      SpotIsCounted(keep, x, rest);
      assert site.cell in quiet ==> Reads(keep + [x] + rest, bytes, mem[site.cell], pre[site.cell], site.cell);
      var current := mem[site.cell];
      var state := bytes[site.cell];
      var expected := XorByte(state.pristine, state.activeMask);
      var intact := !state.overwritten && current == expected;
      var after, removal;
      if site.readOnly || intact {
        var unflip := FlipBit(mem, site.cell, site.bit);
        after := unflip.value.after;
        if site.readOnly && (!intact || after != XorByte(expected, BitMask(site.bit))) {
          ok := false;
          return;
        }
        removal := if site.readOnly then ReXor else Restored;
      } else {
        after := current;
        removal := Overwritten;
        state := state.(overwritten := true);
      }
      state := state.(activeMask := XorByte(state.activeMask, BitMask(site.bit)), activeCount := state.activeCount - 1);
      LeaveKeeps(keep, x, rest, bytes, state, old(mem[..]), mem[..], pre, quiet);
      if state.activeCount == 0 {
        LastFlipRestores(keep, x, rest, old(bytes)[site.cell]);
        if site.readOnly && after != state.pristine {
          ok := false;
          return;
        }
        bytes := bytes - {site.cell};
      } else {
        bytes := bytes[site.cell := state];
      }
      records := records[index := records[index].(removal := removal, removalImage := image,
                                                  removeBefore := current, removeAfter := after)];
      ok := true;
    }

    // `remove_cache`: sites whose last image this was, or all of them.
    method Remove(image: nat, all: bool, ghost pre: seq<Byte>, ghost quiet: set<nat>) returns (ok: bool)
      requires GoodSites(sites, mem.Length, images) && |records| == |sites| && Indices(sites, active)
      requires |pre| == mem.Length && Booked(Spots(sites, active), bytes)
      requires Undisturbed(Spots(sites, active), bytes, mem[..], pre, quiet)
      modifies mem, this
      ensures ReadOnlySitesAreQuiet(sites, quiet) ==> ok
      ensures ok ==> Indices(sites, active) && forall k ::
                k in active <==> k in old(active) && !(all || sites[k].last == image)
      ensures ok ==> Booked(Spots(sites, active), bytes)
      ensures ok ==> Undisturbed(Spots(sites, active), bytes, mem[..], pre, quiet)
      ensures ok ==> |records| == |sites| && forall k | 0 <= k < |sites| ::
                if k in old(active) && (all || sites[k].last == image)
                then Gone(sites[k], old(records)[k], records[k], image, quiet)
                else records[k] == old(records)[k]
      ensures OnlySiteBytes(sites, old(mem[..]), mem[..])
    {
      var keep: seq<nat> := [];
      var n := |active|;
      assert Spots(sites, keep) + Spots(sites, active[0..]) == Spots(sites, active);
      for i := 0 to n
        invariant active == old(active) && Indices(sites, keep) && |records| == |sites|
        invariant forall k :: k in keep <==> k in active[..i] && !(all || sites[k].last == image)
        invariant Booked(Spots(sites, keep) + Spots(sites, active[i..]), bytes)
        invariant Undisturbed(Spots(sites, keep) + Spots(sites, active[i..]), bytes, mem[..], pre, quiet)
        invariant forall k | 0 <= k < |sites| ::
                    if k in active[..i] && (all || sites[k].last == image)
                    then Gone(sites[k], old(records)[k], records[k], image, quiet)
                    else records[k] == old(records)[k]
        invariant OnlySiteBytes(sites, old(mem[..]), mem[..])
      {
        var index := active[i];
        assert active[..i + 1] == active[..i] + [index];
        SpotsHead(sites, keep, active, i);
        if !all && sites[index].last != image {
          keep := keep + [index];
        } else {
          ok := RemoveSite(index, image, Spots(sites, keep), Spots(sites, active[i + 1..]), pre, quiet);
          if !ok {
            return;
          }
        }
      }
      assert Spots(sites, keep) + Spots(sites, active[n..]) == Spots(sites, keep);
      assert active[..n] == active;
      active := keep;
      ok := true;
    }
  }

  lemma SpotsSnoc(sites: seq<Site>, live: seq<nat>, index: nat)
    requires Indices(sites, live) && index < |sites|
    ensures Indices(sites, live + [index])
    ensures Spots(sites, live + [index]) == Spots(sites, live) + [SpotOf(sites[index])]
  {
  }

  lemma SpotsHead(sites: seq<Site>, keep: seq<nat>, active: seq<nat>, i: nat)
    requires Indices(sites, keep) && Indices(sites, active) && i < |active|
    ensures Spots(sites, keep) + Spots(sites, active[i..]) ==
            Spots(sites, keep) + [SpotOf(sites[active[i]])] + Spots(sites, active[i + 1..])
    ensures Spots(sites, keep + [active[i]]) + Spots(sites, active[i + 1..]) ==
            Spots(sites, keep) + Spots(sites, active[i..])
  {
  }

  // With its last flip gone, an intact byte is back at its pristine value.
  lemma LastFlipRestores(keep: seq<Spot>, x: Spot, rest: seq<Spot>, entry: ByteState)
    requires entry.activeMask == MaskAll(keep + [x] + rest, x.cell) && CountAll(keep + [x] + rest, x.cell) == 1
    ensures XorByte(XorByte(entry.pristine, entry.activeMask), x.mask) == entry.pristine
  {
    RemoveOne(keep, x, rest, x.cell);
    UncountedIsUnmasked(keep + rest, x.cell);
    XorByteLaws(entry.pristine, entry.activeMask, x.mask);
    XorByteLaws(entry.pristine, 0, 0);
  }

  lemma SpotIsCounted(keep: seq<Spot>, x: Spot, rest: seq<Spot>)
    ensures CountAll(keep + [x] + rest, x.cell) > 0
  {
    ConcatAll(keep + [x], rest, x.cell);
    SnocAll(keep, x, x.cell);
  }

  // A record before and after its site may have come alive.
  predicate Brought(was: Record, now: Record, starts: bool, image: nat) {
    if starts then now == was.(applied := true, applyImage := image, flip := now.flip) else now == was
  }

  // A record before and after its site was removed.
  ghost predicate Gone(site: Site, was: Record, now: Record, image: nat, quiet: set<nat>) {
    && now == was.(removal := now.removal, removalImage := image,
                   removeBefore := now.removeBefore, removeAfter := now.removeAfter)
    && now.removal != NotApplied
    && (now.removal == ReXor <==> site.readOnly)
    && (site.cell in quiet ==> now.removal != Overwritten)
  }

  // Only bytes that carry some site may change.
  ghost predicate OnlySiteBytes(sites: seq<Site>, was: seq<Byte>, now: seq<Byte>) {
    && |was| == |now|
    && forall c | 0 <= c < |was| && (forall k | 0 <= k < |sites| :: sites[k].cell != c) :: now[c] == was[c]
  }

  // Removing a flip: the entry loses its mask and goes with its last flip.
  lemma LeaveKeeps(keep: seq<Spot>, x: Spot, rest: seq<Spot>, bytes: map<nat, ByteState>, state: ByteState,
                   was: seq<Byte>, now: seq<Byte>, pre: seq<Byte>, quiet: set<nat>)
    requires x.cell < |was| == |pre| && Booked(keep + [x] + rest, bytes) && x.cell in bytes
    requires Undisturbed(keep + [x] + rest, bytes, was, pre, quiet)
    requires state == ByteState(bytes[x.cell].pristine, XorByte(bytes[x.cell].activeMask, x.mask),
                                bytes[x.cell].activeCount - 1, state.overwritten)
    requires x.cell in quiet ==> !state.overwritten && now == was[x.cell := XorByte(was[x.cell], x.mask)]
    requires x.cell !in quiet ==> now == was || now == was[x.cell := XorByte(was[x.cell], x.mask)]
    ensures var after := if state.activeCount == 0 then bytes - {x.cell} else bytes[x.cell := state];
            Booked(keep + rest, after) && Undisturbed(keep + rest, after, now, pre, quiet)
    ensures x.cell in quiet && state.activeCount == 0 ==> now[x.cell] == state.pristine
  {
    var after := if state.activeCount == 0 then bytes - {x.cell} else bytes[x.cell := state];
    forall c: nat ensures Entry(keep + rest, after, c) {
      assert Entry(keep + [x] + rest, bytes, c);
      RemoveOne(keep, x, rest, c);
      XorByteLaws(MaskAll(keep + [x] + rest, c), 0, 0);
    }
    forall c | c in quiet && c < |now| ensures Reads(keep + rest, after, now[c], pre[c], c) {
      assert Reads(keep + [x] + rest, bytes, was[c], pre[c], c);
      RemoveOne(keep, x, rest, c);
      XorByteLaws(MaskAll(keep + [x] + rest, c), 0, 0);
      XorByteLaws(pre[c], MaskAll(keep + [x] + rest, c), x.mask);
    }
    if x.cell in quiet && state.activeCount == 0 {
      assert Entry(keep + rest, after, x.cell) && Reads(keep + rest, after, now[x.cell], pre[x.cell], x.cell);
      UncountedIsUnmasked(keep + rest, x.cell);
      XorByteLaws(pre[x.cell], 0, 0);
      assert Reads(keep + [x] + rest, bytes, was[x.cell], pre[x.cell], x.cell);
    }
  }

  // What a new flip makes of its byte's entry.
  function Entering(bytes: map<nat, ByteState>, x: Spot, overwritten: bool, before: Byte): ByteState
  {
    if x.cell in bytes then
      var old_ := bytes[x.cell];
      ByteState(old_.pristine, XorByte(old_.activeMask, x.mask), old_.activeCount + 1, overwritten)
    else ByteState(before, XorByte(0, x.mask), 1, false)
  }

  lemma EnterKeeps(spots: seq<Spot>, x: Spot, bytes: map<nat, ByteState>, overwritten: bool,
                   mem: seq<Byte>, pre: seq<Byte>, quiet: set<nat>)
    requires x.cell < |mem| == |pre|
    requires Booked(spots, bytes) && Undisturbed(spots, bytes, mem, pre, quiet)
    requires x.cell in quiet ==> !overwritten
    ensures var after := bytes[x.cell := Entering(bytes, x, overwritten, mem[x.cell])];
            && Booked(spots + [x], after)
            && Undisturbed(spots + [x], after, mem[x.cell := XorByte(mem[x.cell], x.mask)], pre, quiet)
  {
    var state := Entering(bytes, x, overwritten, mem[x.cell]);
    var after, flipped := bytes[x.cell := state], mem[x.cell := XorByte(mem[x.cell], x.mask)];
    forall c: nat ensures Entry(spots + [x], after, c) {
      assert Entry(spots, bytes, c);
      EnterKeepsEntry(spots, x, bytes, overwritten, mem[x.cell], c);
    }
    forall c | c in quiet && c < |mem| ensures Reads(spots + [x], after, flipped[c], pre[c], c) {
      assert Reads(spots, bytes, mem[c], pre[c], c) && Entry(spots, bytes, c);
      EnterKeepsByte(spots, x, bytes, overwritten, mem[x.cell], mem[c], pre[c], c);
    }
  }

  lemma EnterKeepsEntry(spots: seq<Spot>, x: Spot, bytes: map<nat, ByteState>, overwritten: bool, now: Byte, c: nat)
    requires Entry(spots, bytes, c)
    ensures Entry(spots + [x], bytes[x.cell := Entering(bytes, x, overwritten, now)], c)
  {
    SnocAll(spots, x, c);
    if c == x.cell && c !in bytes {
      UncountedIsUnmasked(spots, c);
    } else if c == x.cell {
      assert MaskAll(spots + [x], c) == XorByte(MaskAll(spots, c), x.mask);
    } else {
      assert MaskAll(spots + [x], c) == MaskAll(spots, c);
    }
  }

  lemma EnterKeepsByte(spots: seq<Spot>, x: Spot, bytes: map<nat, ByteState>, overwritten: bool,
                       now: Byte, read: Byte, pre: Byte, c: nat)
    requires c == x.cell ==> now == read && !overwritten
    requires Entry(spots, bytes, c) && Reads(spots, bytes, read, pre, c)
    ensures Reads(spots + [x], bytes[x.cell := Entering(bytes, x, overwritten, now)],
                  if c == x.cell then XorByte(read, x.mask) else read, pre, c)
  {
    SnocAll(spots, x, c);
    if c == x.cell {
      XorByteLaws(pre, MaskAll(spots, c), x.mask);
      if c !in bytes {
        UncountedIsUnmasked(spots, c);
        XorByteLaws(pre, 0, 0);
      }
    } else {
      XorByteLaws(MaskAll(spots, c), 0, 0);
    }
  }

  lemma {:induction false} UncountedIsUnmasked(spots: seq<Spot>, cell: nat)
    requires CountAll(spots, cell) == 0
    ensures MaskAll(spots, cell) == 0
  {
    if spots != [] {
      UncountedIsUnmasked(spots[1..], cell);
    }
  }
}
