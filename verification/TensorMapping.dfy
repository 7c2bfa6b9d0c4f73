// Tensor-level addresses: element and bit to GPU byte and back
// (src/semantic/tensor_mapping.cpp).
module TensorMapping {
  import opened Bits
  import opened CheckedArithmetic
  import opened Outcomes
  import Registry

  datatype DType = UInt8 | Int8 | Float32 | Int32

  function SizeOf(dtype: DType): Size {
    match dtype
    case UInt8 | Int8 => 1
    case Float32 | Int32 => 4
  }

  datatype Tensor = Tensor(
    name: string, shape: seq<Size>, strides: seq<Size>, dtype: DType,
    base: Size, allocationSize: Size, allocationId: string, lifetime: string)

  datatype TensorBit = TensorBit(
    name: string, element: Size, elementBit: Size, offset: Size, bit: nat, mask: Byte, va: Size)

  // ---- sizes ------------------------------------------------------------------

  // Row-major: each stride is the product of the dimensions after it.
  ghost predicate RowMajor(t: Tensor) {
    t.strides == [] ||
    (|t.strides| == |t.shape| && forall i | 0 <= i < |t.shape| :: t.strides[i] == Product(t.shape[i + 1..]))
  }

  // The strides from dimension i on are row-major.
  ghost predicate RowMajorFrom(t: Tensor, i: nat)
    requires |t.strides| == |t.shape|
  {
    forall k | i <= k < |t.shape| :: t.strides[k] == Product(t.shape[k + 1..])
  }

  // The check multiplies up from the last dimension; a product overflows before
  // any stride differs.
  ghost predicate StridesOverflow(t: Tensor) {
    && t.strides != [] && |t.strides| == |t.shape|
    && exists i :: 0 <= i < |t.shape| && OverflowsAt(t, i)
  }

  ghost predicate OverflowsAt(t: Tensor, i: nat)
    requires i < |t.shape| == |t.strides|
  {
    RowMajorFrom(t, i) && Product(t.shape[i..]) > MAX
  }

  method HasContiguousStrides(t: Tensor) returns (r: Result<bool>)
    ensures r == if StridesOverflow(t) then Thrown(Overflow) else Ok(RowMajor(t))
  {
    if t.strides == [] { return Ok(true); }
    if |t.strides| != |t.shape| { return Ok(false); }
    var expected: Size := 1;
    var index := |t.shape|;
    assert t.shape[index..] == [];
    while index > 0
      invariant index <= |t.shape| && expected == Product(t.shape[index..]) && RowMajorFrom(t, index)
      invariant forall i | index <= i < |t.shape| :: !OverflowsAt(t, i)
    {
      index := index - 1;
      if t.strides[index] != expected {
        assert forall i | 0 <= i <= index :: !RowMajorFrom(t, i);
        return Ok(false);
      }
      SuffixProduct(t.shape, index);
      var next := Multiply(expected, t.shape[index]);
      if next.Thrown? {
        assert OverflowsAt(t, index);
        return Thrown(next.error);
      }
      expected := next.value;
    }
    return Ok(true);
  }

  lemma SuffixProduct(s: seq<nat>, i: nat)
    requires i < |s|
    ensures Product(s[i..]) == Product(s[i + 1..]) * s[i]
  {
    assert s[i..] == [s[i]] + s[i + 1..];
    ProductSplits([s[i]], s[i + 1..]);
    assert [s[i]][..0] == [];
    assert Product([s[i]]) == s[i];
  }

  // The number of bytes of a tensor that can be mapped at all.
  function Bytes(t: Tensor): nat {
    Product(t.shape) * SizeOf(t.dtype)
  }

  // A zero dimension, and no overflow before it.
  ghost predicate ZeroFirst(shape: seq<Size>) {
    exists i :: 0 <= i < |shape| && shape[i] == 0 && AllPositive(shape[..i]) && Product(shape[..i]) <= MAX
  }

  method ElementCount(t: Tensor) returns (r: Result<Size>)
    ensures r.Ok? <==> t.shape != [] && AllPositive(t.shape) && Product(t.shape) <= MAX
    ensures r.Ok? ==> r.value == Product(t.shape)
    ensures r.Thrown? ==>
              r.error == if t.shape == [] then EmptyShape else if ZeroFirst(t.shape) then ZeroDimension else Overflow
  {
    if t.shape == [] { return Thrown(EmptyShape); }
    var count: Size := 1;
    for i := 0 to |t.shape|
      invariant count == Product(t.shape[..i]) && AllPositive(t.shape[..i])
    {
      var dimension := t.shape[i];
      if dimension == 0 { return Thrown(ZeroDimension); }
      assert t.shape[..i + 1][..i] == t.shape[..i];
      var next := Multiply(count, dimension);
      if next.Thrown? {
        OverflowIsFirst(t.shape, i);
        return Thrown(next.error);
      }
      count := next.value;
    }
    assert t.shape[..|t.shape|] == t.shape;
    return Ok(count);
  }

  lemma OverflowIsFirst(shape: seq<Size>, i: nat)
    requires i < |shape| && AllPositive(shape[..i + 1]) && Product(shape[..i + 1]) > MAX
    ensures !ZeroFirst(shape) && (AllPositive(shape) ==> Product(shape) > MAX)
  {
    assert forall j {:trigger shape[j]} | 0 <= j <= i :: shape[..i + 1][j] == shape[j];
    forall k | 0 <= k < |shape| && shape[k] == 0 && AllPositive(shape[..k]) ensures Product(shape[..k]) > MAX {
      ProductGrows(shape[..k], i + 1);
      assert shape[..k][..i + 1] == shape[..i + 1];
    }
    if AllPositive(shape) {
      ProductGrows(shape, i + 1);
    }
  }

  ghost predicate Mappable(t: Tensor) {
    t.shape != [] && AllPositive(t.shape) && Product(t.shape) <= MAX && Bytes(t) <= MAX
  }

  // Why a tensor has no size.
  ghost function SizeError(t: Tensor): Error {
    if t.shape == [] then EmptyShape else if ZeroFirst(t.shape) then ZeroDimension else Overflow
  }

  method RequiredBytes(t: Tensor) returns (r: Result<Size>)
    ensures r == if Mappable(t) then Ok(Bytes(t)) else Thrown(SizeError(t))
  {
    var count := ElementCount(t);
    if count.Thrown? { return count; }
    assert !ZeroFirst(t.shape);
    return Multiply(count.value, SizeOf(t.dtype));
  }

  // ---- what the snapshot keeps ---------------------------------------------------

  // The exclusive end must be an address too, so a tensor may not reach the last
  // byte of the address space, which a registered allocation may.
  ghost predicate Sound(t: Tensor) {
    && t.name != "" && t.allocationId != "" && t.lifetime != "" && t.base != 0 && RowMajor(t)
    && Mappable(t) && Bytes(t) <= t.allocationSize && t.base + Bytes(t) <= MAX
  }

  ghost predicate Covers(t: Tensor, va: nat) {
    t.base <= va < t.base + Bytes(t)
  }

  ghost predicate Apart(t: Tensor, u: Tensor) {
    t.base + Bytes(t) <= u.base || u.base + Bytes(u) <= t.base
  }

  ghost predicate Consistent(s: seq<Tensor>) {
    && (forall i | 0 <= i < |s| :: Sound(s[i]))
    && (forall i, j | 0 <= i < j < |s| :: s[i].name != s[j].name && Apart(s[i], s[j]))
  }

  // A tensor is added exactly when it is sound, has a new name and a range apart
  // from every other.
  ghost predicate Addable(s: seq<Tensor>, t: Tensor) {
    Sound(t) && forall i | 0 <= i < |s| :: s[i].name != t.name && Apart(s[i], t)
  }

  // The first reason to refuse a tensor by itself.
  ghost function Complaint(t: Tensor): Option<Error> {
    if t.name == "" then Some(EmptyName)
    else if t.allocationId == "" then Some(EmptyAllocationId)
    else if t.lifetime == "" then Some(EmptyLifetime)
    else if t.base == 0 then Some(ZeroAddress)
    else if StridesOverflow(t) then Some(Overflow)
    else if !RowMajor(t) then Some(NotContiguous)
    else if !Mappable(t) then Some(SizeError(t))
    else if t.allocationSize < Bytes(t) then Some(AllocationTooSmall)
    else if t.base + Bytes(t) > MAX then Some(Overflow)
    else None
  }

  // Overflowing strides belong to a tensor that has no size either.
  lemma SoundIsWithoutComplaint(t: Tensor)
    ensures Sound(t) <==> Complaint(t).None?
  {
    if StridesOverflow(t) {
      OverflowingStrides(t);
    }
  }

  // The exclusive end of a sound tensor.
  method EndOf(t: Tensor) returns (r: Result<Size>)
    ensures Complaint(t).Some? ==> r == Thrown(Complaint(t).value)
    ensures Complaint(t).None? ==> r == Ok(t.base + Bytes(t))
  {
    if t.name == "" { return Thrown(EmptyName); }
    if t.allocationId == "" { return Thrown(EmptyAllocationId); }
    if t.lifetime == "" { return Thrown(EmptyLifetime); }
    if t.base == 0 { return Thrown(ZeroAddress); }
    var contiguous := HasContiguousStrides(t);
    if contiguous.Thrown? { return Thrown(contiguous.error); }
    if !contiguous.value { return Thrown(NotContiguous); }
    var required := RequiredBytes(t);
    if required.Thrown? { return Thrown(required.error); }
    if t.allocationSize < required.value { return Thrown(AllocationTooSmall); }
    return AddressAdd(t.base, required.value);
  }

  // The first tensor that has the name or shares a byte.
  ghost function FirstClash(s: seq<Tensor>, t: Tensor): (r: nat)
    ensures r <= |s| && (r < |s| ==> Clashes(s[r], t)) && forall i | 0 <= i < r :: !Clashes(s[i], t)
  {
    if s == [] || Clashes(s[0], t) then 0 else 1 + FirstClash(s[1..], t)
  }

  ghost predicate Clashes(u: Tensor, t: Tensor) { u.name == t.name || !Apart(u, t) }

  // ---- addresses -----------------------------------------------------------------

  function AddressOf(t: Tensor, element: Size, elementBit: Size, offset: Size, va: Size): TensorBit {
    TensorBit(t.name, element, elementBit, offset, elementBit % 8, BitMask(elementBit % 8), va)
  }

  // The bit with this element and element bit of t.
  ghost predicate IsBitOf(t: Tensor, a: TensorBit) {
    && a.name == t.name && a.element < Product(t.shape) && a.elementBit < 8 * SizeOf(t.dtype)
    && a.offset == a.element * SizeOf(t.dtype) + a.elementBit / 8 < Bytes(t)
    && a.bit == a.elementBit % 8 && a.mask == BitMask(a.bit) && a.va == t.base + a.offset
  }

  lemma OffsetFits(t: Tensor, element: nat, elementBit: nat)
    requires element < Product(t.shape) && elementBit < 8 * SizeOf(t.dtype)
    ensures element * SizeOf(t.dtype) + elementBit / 8 < Bytes(t)
  {
  }

  // Two bits of one tensor at the same byte and bit are the same bit.
  lemma SameByteSameBit(t: Tensor, a: TensorBit, b: TensorBit)
    requires IsBitOf(t, a) && IsBitOf(t, b) && a.va == b.va && a.bit == b.bit
    ensures a == b
  {
    if SizeOf(t.dtype) == 1 {
      SameElement(1, a.element, a.elementBit / 8, b.element, b.elementBit / 8);
    } else {
      SameElement(4, a.element, a.elementBit / 8, b.element, b.elementBit / 8);
    }
  }

  lemma SameElement(size: nat, e: nat, x: nat, f: nat, y: nat)
    requires (size == 1 || size == 4) && x < size && y < size && e * size + x == f * size + y
    ensures e == f && x == y
  {
  }

  class MappingSnapshot {
    var tensors: seq<Tensor>

    ghost predicate Valid()
      reads this
    {
      Consistent(tensors)
    }

    constructor ()
      ensures Valid() && tensors == []
    {
      tensors := [];
    }

    method AddTensor(t: Tensor) returns (r: Result<()>)
      requires Valid()
      modifies this
      ensures Valid()
      ensures r.Ok? <==> Addable(old(tensors), t)
      ensures tensors == if r.Ok? then old(tensors) + [t] else old(tensors)
      ensures Complaint(t).Some? ==> r == Thrown(Complaint(t).value)
      ensures Complaint(t).None? && r.Thrown? ==>
                var k := FirstClash(old(tensors), t);
                k < |old(tensors)| && r.error == if old(tensors)[k].name == t.name then DuplicateName else RangesOverlap
    {
      SoundIsWithoutComplaint(t);
      var end := EndOf(t);
      if end.Thrown? { return Thrown(end.error); }
      for i := 0 to |tensors|
        invariant tensors == old(tensors)
        invariant forall j | 0 <= j < i :: tensors[j].name != t.name && Apart(tensors[j], t)
      {
        var e := tensors[i];
        if e.name == t.name { return Thrown(DuplicateName); }
        assert Sound(e);
        var size := RequiredBytes(e);
        var existingEnd := AddressAdd(e.base, size.value);
        if t.base < existingEnd.value && e.base < end.value {
          EmptyIsNever(e);
          EmptyIsNever(t);
          return Thrown(RangesOverlap);
        }
      }
      tensors := tensors + [t];
      r := Ok(());
    }

    // Exactly the bits of known tensors are mapped, and no valid index overflows.
    method BitToVa(name: string, element: Size, elementBit: Size) returns (r: Result<TensorBit>, ghost k: nat)
      requires Valid()
      ensures r.Ok? <==> exists i :: 0 <= i < |tensors| && tensors[i].name == name
                                     && element < Product(tensors[i].shape) && elementBit < 8 * SizeOf(tensors[i].dtype)
      ensures r.Ok? ==> && k < |tensors| && IsBitOf(tensors[k], r.value)
                        && r.value.name == name && r.value.element == element && r.value.elementBit == elementBit
      ensures r.Thrown? ==> if k < |tensors| && tensors[k].name == name
                            then r.error ==
                              (if element >= Product(tensors[k].shape) then ElementOutOfRange else BitOutOfRange)
                            else r.error == UnknownTensor && forall i | 0 <= i < |tensors| :: tensors[i].name != name
    {
      var i := 0;
      k := 0;
      while i < |tensors| && tensors[i].name != name
        invariant i <= |tensors| && forall j | 0 <= j < i :: tensors[j].name != name
      {
        i := i + 1;
      }
      if i == |tensors| { return Thrown(UnknownTensor), 0; }
      var t := tensors[i];
      assert Sound(t);
      var count := ElementCount(t);
      if element >= count.value { return Thrown(ElementOutOfRange), i; }
      var width := Multiply(SizeOf(t.dtype), 8);
      if elementBit >= width.value { return Thrown(BitOutOfRange), i; }
      OffsetFits(t, element, elementBit);
      var start := Multiply(element, SizeOf(t.dtype));
      var offset := start.value + elementBit / 8;
      var va := AddressAdd(t.base, offset);
      return Ok(AddressOf(t, element, elementBit, offset, va.value)), i;
    }

    // Exactly the bytes of known tensors are found.
    method VaToBit(va: Size, bit: nat) returns (r: Result<TensorBit>, ghost k: nat)
      requires Valid()
      ensures r.Ok? <==> bit < 8 && exists i :: 0 <= i < |tensors| && Covers(tensors[i], va)
      ensures r.Ok? ==> k < |tensors| && IsBitOf(tensors[k], r.value) && r.value.va == va && r.value.bit == bit
      ensures r.Thrown? ==> r.error == if bit >= 8 then BitOutOfRange else NotMapped
    {
      k := 0;
      if bit >= 8 { return Thrown(BitOutOfRange), 0; }
      for i := 0 to |tensors|
        invariant forall j | 0 <= j < i :: !Covers(tensors[j], va)
      {
        var t := tensors[i];
        assert Sound(t);
        var size := RequiredBytes(t);
        var end := AddressAdd(t.base, size.value);
        if t.base <= va < end.value {
          var offset := va - t.base;
          var element := offset / SizeOf(t.dtype);
          var elementBit := (offset % SizeOf(t.dtype)) * 8 + bit;
          return Ok(AddressOf(t, element, elementBit, offset, va)), i;
        }
      }
      return Thrown(NotMapped), 0;
    }
  }

  lemma EmptyIsNever(t: Tensor)
    requires Mappable(t)
    ensures Bytes(t) > 0
  {
    ProductGrows(t.shape, 0);
    assert t.shape[..0] == [];
  }

  lemma OverflowingStrides(t: Tensor)
    requires StridesOverflow(t)
    ensures !Mappable(t)
  {
    var i :| 0 <= i < |t.shape| && OverflowsAt(t, i);
    assert t.shape[..i] + t.shape[i..] == t.shape;
    ProductSplits(t.shape[..i], t.shape[i..]);
    if AllPositive(t.shape) {
      ProductGrows(t.shape, i);
      AtLeastFactor(Product(t.shape[..i]), Product(t.shape[i..]));
    }
  }

  lemma AtLeastFactor(a: nat, b: nat)
    requires a >= 1
    ensures a * b >= b
  {
  }

  // ---- round trips -------------------------------------------------------------------

  // A byte belongs to one tensor, so the two lookups undo each other: whatever
  // either returns is the one bit of that tensor at that byte and bit.
  lemma OneTensorPerByte(s: seq<Tensor>, i: nat, j: nat, va: nat)
    requires Consistent(s) && i < |s| && j < |s| && Covers(s[i], va) && Covers(s[j], va)
    ensures i == j
  {
  }

  method ThereAndBack(m: MappingSnapshot, name: string, element: Size, elementBit: Size)
    returns (there: Result<TensorBit>, back: Result<TensorBit>)
    requires m.Valid()
    ensures there.Ok? ==> back == there
  {
    ghost var i, j;
    back := Thrown(NotMapped);
    there, i := m.BitToVa(name, element, elementBit);
    if there.Ok? {
      back, j := m.VaToBit(there.value.va, there.value.bit);
      assert Covers(m.tensors[i], there.value.va);
      OneTensorPerByte(m.tensors, i, j, there.value.va);
      SameByteSameBit(m.tensors[i], there.value, back.value);
    }
  }

  method BackAndThere(m: MappingSnapshot, va: Size, bit: nat)
    returns (back: Result<TensorBit>, there: Result<TensorBit>)
    requires m.Valid()
    ensures back.Ok? ==> there == back
  {
    ghost var i, j;
    there := Thrown(NotMapped);
    back, i := m.VaToBit(va, bit);
    if back.Ok? {
      assert IsBitOf(m.tensors[i], back.value);
      there, j := m.BitToVa(back.value.name, back.value.element, back.value.elementBit);
      assert there.Ok?;
      assert m.tensors[i].name == m.tensors[j].name;
    }
  }

  // When a tensor lies at the start of a registered allocation, both levels give
  // its bytes the same offset, bit and mask.
  lemma LevelsAgree(s: seq<Registry.Descriptor>, k: nat, t: Tensor, a: TensorBit)
    requires Registry.Consistent(s) && k < |s| && s[k].active
    requires s[k].id == t.allocationId && s[k].base == t.base && Bytes(t) <= s[k].size
    requires Sound(t) && IsBitOf(t, a)
    ensures var r := Registry.Reverse(s, s[k].device, a.va, a.bit);
            r.Ok? && r.value.id == t.allocationId && r.value.offset == a.offset
            && r.value.bit == a.bit && r.value.mask == a.mask && r.value.va == a.va
  {
    assert Registry.WellFormed(s[k]);
    Registry.HolderIsUnique(s, k, a.va);
  }
}
