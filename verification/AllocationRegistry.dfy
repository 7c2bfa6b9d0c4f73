// The run-scoped registry of device allocations
// (src/semantic/allocation_registry.cpp).

module Registry {
  import opened Bits
  import opened Outcomes

  const ADDRESSES: nat := 0x1_0000_0000_0000_0000

  type Address = a: nat | a < ADDRESSES

  datatype Descriptor = Descriptor(
    id: string, device: int, base: Address, size: Address, alignment: Address,
    owner: string, semantic: string, phase: string, lifetime: string, active: bool)

  datatype BitAddress = BitAddress(
    id: string, device: int, offset: Address, bit: nat, mask: Byte, va: Address, owner: string, semantic: string)

  // What the source throws.
  datatype Error =
    | EmptyId | NegativeDevice | ZeroAddress | ZeroSize | MissingProvenance | NotActive | RangeOverflows
    | DuplicateId | RangesOverlap | BadBit | UnknownId | Inactive | OffsetOutOfRange | NotMapped

  type Result<T> = Outcome<T, Error>

  // ---- what the registry keeps ---------------------------------------------------

  // Does the range end before the address space does?
  predicate Fits(d: Descriptor)
    requires d.size > 0
  {
    d.size - 1 <= ADDRESSES - 1 - d.base
  }

  predicate WellFormed(d: Descriptor) {
    d.id != "" && d.device >= 0 && d.base != 0 && d.size > 0 && Fits(d)
  }

  predicate Holds(d: Descriptor, device: int, va: nat) {
    d.active && d.device == device && d.base <= va < d.base + d.size
  }

  ghost predicate Disjoint(d: Descriptor, e: Descriptor) {
    forall va: nat {:trigger Holds(d, d.device, va)} {:trigger Holds(e, d.device, va)} ::
      !(Holds(d, d.device, va) && Holds(e, d.device, va))
  }

  ghost predicate Consistent(s: seq<Descriptor>) {
    && (forall i | 0 <= i < |s| :: WellFormed(s[i]))
    && (forall i, j | 0 <= i < j < |s| :: s[i].id != s[j].id)
    && (forall i, j | 0 <= i < j < |s| :: Disjoint(s[i], s[j]))
  }

  // ---- adding ----------------------------------------------------------------------

  predicate Overlaps(d: Descriptor, e: Descriptor) {
    && e.active && e.device == d.device && d.size > 0 && e.size > 0
    && d.base <= e.base + (e.size - 1) && e.base <= d.base + (d.size - 1)
  }

  function Complaint(d: Descriptor): Result<()> {
    if d.id == "" then Thrown(EmptyId)
    else if d.device < 0 then Thrown(NegativeDevice)
    else if d.base == 0 then Thrown(ZeroAddress)
    else if d.size == 0 then Thrown(ZeroSize)
    else if d.owner == "" || d.semantic == "" || d.phase == "" || d.lifetime == "" then Thrown(MissingProvenance)
    else if !d.active then Thrown(NotActive)
    else if !Fits(d) then Thrown(RangeOverflows)
    else Ok(())
  }

  predicate Clashes(d: Descriptor, e: Descriptor) {
    e.id == d.id || Overlaps(d, e)
  }

  function FirstClash(s: seq<Descriptor>, d: Descriptor): (r: nat)
    ensures r <= |s| && (r < |s| ==> Clashes(d, s[r])) && forall i | 0 <= i < r :: !Clashes(d, s[i])
  {
    if s == [] || Clashes(d, s[0]) then 0 else 1 + FirstClash(s[1..], d)
  }

  // Nothing but a well-formed descriptor with a new id and a free range is added.
  ghost predicate Addable(s: seq<Descriptor>, d: Descriptor) {
    Complaint(d).Ok? && forall i | 0 <= i < |s| :: !Clashes(d, s[i])
  }

  lemma OverlapIsSharedByte(d: Descriptor, e: Descriptor)
    requires d.active && d.size > 0 && e.size > 0
    ensures Overlaps(d, e) <==> !Disjoint(d, e)
  {
    var va: nat := if d.base <= e.base then e.base else d.base;
    if Overlaps(d, e) {
      assert Holds(d, d.device, va) && Holds(e, d.device, va);
    }
  }

  // Every successful call keeps the registry consistent.
  lemma AddKeepsConsistent(s: seq<Descriptor>, d: Descriptor)
    requires Consistent(s) && Addable(s, d)
    ensures Consistent(s + [d])
  {
    forall i | 0 <= i < |s| ensures Disjoint(s[i], d) && s[i].id != d.id {
      OverlapIsSharedByte(d, s[i]);
      assert !Clashes(d, s[i]);
      forall va: nat ensures !(Holds(s[i], s[i].device, va) && Holds(d, s[i].device, va)) {
        assert Holds(d, s[i].device, va) ==> Holds(d, d.device, va);
      }
    }
  }

  function Find(s: seq<Descriptor>, id: string): (r: nat)
    ensures r <= |s| && (r < |s| ==> s[r].id == id) && forall i | 0 <= i < r :: s[i].id != id
  {
    if s == [] || s[0].id == id then 0 else 1 + Find(s[1..], id)
  }

  function ClearedAt(s: seq<Descriptor>, i: nat): (t: seq<Descriptor>)
    requires i < |s|
    ensures |t| == |s| && forall j | 0 <= j < |s| :: t[j] == if j == i then s[j].(active := false) else s[j]
  {
    s[i := s[i].(active := false)]
  }

  lemma ClearKeepsConsistent(s: seq<Descriptor>, i: nat)
    requires Consistent(s) && i < |s|
    ensures Consistent(ClearedAt(s, i))
  {
    var t := ClearedAt(s, i);
    forall a, b | 0 <= a < b < |t| ensures Disjoint(t[a], t[b]) {
      forall va: nat ensures !(Holds(t[a], t[a].device, va) && Holds(t[b], t[a].device, va)) {
        assert Disjoint(s[a], s[b]);
        assert !(Holds(s[a], s[a].device, va) && Holds(s[b], s[a].device, va));
      }
    }
  }

  // ---- lookups ---------------------------------------------------------------------

  function MakeAddress(d: Descriptor, offset: Address, bit: nat, va: Address): BitAddress {
    BitAddress(d.id, d.device, offset, bit, BitMask(bit), va, d.owner, d.semantic)
  }

  function FindHolder(s: seq<Descriptor>, device: int, va: nat): (r: nat)
    ensures r <= |s| && (r < |s| ==> Holds(s[r], device, va)) && forall i | 0 <= i < r :: !Holds(s[i], device, va)
  {
    if s == [] || Holds(s[0], device, va) then 0 else 1 + FindHolder(s[1..], device, va)
  }

  function Forward(s: seq<Descriptor>, id: string, offset: Address, bit: nat): Result<BitAddress> {
    if bit >= 8 then Thrown(BadBit)
    else
      var k := Find(s, id);
      if k == |s| then Thrown(UnknownId)
      else if !s[k].active then Thrown(Inactive)
      else if offset >= s[k].size then Thrown(OffsetOutOfRange)
      else Ok(MakeAddress(s[k], offset, bit, (s[k].base + offset) % ADDRESSES))
  }

  function Reverse(s: seq<Descriptor>, device: int, va: Address, bit: nat): Result<BitAddress> {
    if device < 0 then Thrown(NegativeDevice)
    else if bit >= 8 then Thrown(BadBit)
    else
      var k := FindHolder(s, device, va);
      if k == |s| then Thrown(NotMapped) else Ok(MakeAddress(s[k], va - s[k].base, bit, va))
  }

  // The two lookups undo each other on every bit of every active allocation, and
  // no address wraps.
  lemma ForwardThenReverse(s: seq<Descriptor>, id: string, offset: Address, bit: nat)
    requires Consistent(s) && Forward(s, id, offset, bit).Ok?
    ensures var a := Forward(s, id, offset, bit).value;
            Reverse(s, a.device, a.va, bit) == Ok(a)
            && exists k :: 0 <= k < |s| && s[k].id == id && s[k].active && a.va == s[k].base + offset
  {
    var k := Find(s, id);
    var va := s[k].base + offset;
    assert WellFormed(s[k]) && va < ADDRESSES;
    HolderIsUnique(s, k, va);
  }

  lemma ReverseThenForward(s: seq<Descriptor>, device: int, va: Address, bit: nat)
    requires Consistent(s) && Reverse(s, device, va, bit).Ok?
    ensures var a := Reverse(s, device, va, bit).value;
            Forward(s, a.id, a.offset, bit) == Ok(a) && a.va == va && a.device == device
  {
    var k := FindHolder(s, device, va);
    var j := Find(s, s[k].id);
    assert j == k;
  }

  lemma HolderIsUnique(s: seq<Descriptor>, k: nat, va: nat)
    requires Consistent(s) && k < |s| && Holds(s[k], s[k].device, va)
    ensures FindHolder(s, s[k].device, va) == k
  {
    var j := FindHolder(s, s[k].device, va);
    assert j < k ==> Disjoint(s[j], s[k]);
  }

  // An address is mapped exactly when some active allocation on the device
  // contains it, so a freed allocation is never a target.
  lemma MappedExactly(s: seq<Descriptor>, device: int, va: Address, bit: nat)
    requires device >= 0 && bit < 8
    ensures Reverse(s, device, va, bit).Ok? <==> exists k :: 0 <= k < |s| && Holds(s[k], device, va)
  {
    var k := FindHolder(s, device, va);
  }

  // ---- the object ----------------------------------------------------------------

  class AllocationRegistry {
    var allocations: seq<Descriptor>

    ghost predicate Valid()
      reads this
    {
      Consistent(allocations)
    }

    constructor ()
      ensures Valid() && allocations == []
    {
      allocations := [];
    }

    // Exactly the addable descriptors are added. The end of a stored range never
    // overflows while it is compared.
    method Add(d: Descriptor) returns (r: Result<()>)
      requires Valid()
      modifies this
      ensures Valid()
      ensures r.Ok? <==> Addable(old(allocations), d)
      ensures allocations == if r.Ok? then old(allocations) + [d] else old(allocations)
      ensures Complaint(d).Thrown? ==> r == Complaint(d)
      ensures Complaint(d).Ok? && r.Thrown? ==>
                var k := FirstClash(old(allocations), d);
                && k < |old(allocations)|
                && r.error == if old(allocations)[k].id == d.id then DuplicateId else RangesOverlap
    {
      r := Complaint(d);
      if r.Thrown? { return; }
      var end := d.base + (d.size - 1);
      for i := 0 to |allocations|
        invariant forall j | 0 <= j < i :: !Clashes(d, allocations[j])
      {
        var e := allocations[i];
        assert WellFormed(e);
        if e.id == d.id { return Thrown(DuplicateId); }
        if e.active && e.device == d.device {
          var existingEnd: Address := e.base + (e.size - 1);
          if d.base <= existingEnd && e.base <= end { return Thrown(RangesOverlap); }
        }
      }
      AddKeepsConsistent(allocations, d);
      allocations := allocations + [d];
    }

    // Clears the flag of the named allocation, once.
    method Deactivate(id: string) returns (done: bool)
      requires Valid()
      modifies this
      ensures Valid()
      ensures var k := Find(old(allocations), id);
              && (done <==> k < |old(allocations)| && old(allocations)[k].active)
              && (done ==> allocations == ClearedAt(old(allocations), k))
      ensures !done ==> allocations == old(allocations)
    {
      var k := FindIndex(id);
      if k == |allocations| || !allocations[k].active { return false; }
      ClearKeepsConsistent(allocations, k);
      allocations := ClearedAt(allocations, k);
      return true;
    }

    method FindIndex(id: string) returns (k: nat)
      ensures k == Find(allocations, id)
    {
      k := 0;
      while k < |allocations| && allocations[k].id != id
        invariant k <= |allocations| && forall i | 0 <= i < k :: allocations[i].id != id
      {
        k := k + 1;
      }
    }

    method BitToVa(id: string, offset: Address, bit: nat) returns (r: Result<BitAddress>)
      requires Valid()
      ensures r == Forward(allocations, id, offset, bit)
    {
      if bit >= 8 { return Thrown(BadBit); }
      var k := FindIndex(id);
      if k == |allocations| { return Thrown(UnknownId); }
      if !allocations[k].active { return Thrown(Inactive); }
      if offset >= allocations[k].size { return Thrown(OffsetOutOfRange); }
      return Ok(MakeAddress(allocations[k], offset, bit, (allocations[k].base + offset) % ADDRESSES));
    }

    method VaToBit(device: int, va: Address, bit: nat) returns (r: Result<BitAddress>)
      requires Valid()
      ensures r == Reverse(allocations, device, va, bit)
    {
      if device < 0 { return Thrown(NegativeDevice); }
      if bit >= 8 { return Thrown(BadBit); }
      for i := 0 to |allocations|
        invariant forall j | 0 <= j < i :: !Holds(allocations[j], device, va)
      {
        var d := allocations[i];
        if d.active && d.device == device && va >= d.base && va - d.base < d.size {
          return Ok(MakeAddress(d, va - d.base, bit, va));
        }
      }
      return Thrown(NotMapped);
    }
  }
}
