// Device memory as one array of bytes, and the bit flip on it
// (src/injector/device_bit_injector.cu).
//
// A site's cell is the index its (allocation, byte offset) resolves to; the
// pre-flight check of the program resolves every site against the registry before
// the first flip, and AllocationRegistry proves that live ranges never overlap.
module DeviceMemory {
  import opened Bits
  import opened Outcomes

  datatype Flip = Flip(cell: nat, mask: Byte, before: Byte, after: Byte)

  datatype FlipError = OffsetOutside | BitOutside

  // flip_device_bit: read, XOR one bit, read back.
  method FlipBit(mem: array<Byte>, cell: nat, bit: nat) returns (r: Outcome<Flip, FlipError>)
    modifies mem
    ensures r.Thrown? <==> cell >= mem.Length || bit >= 8
    ensures r.Thrown? ==> mem[..] == old(mem[..]) && (r.error == OffsetOutside <==> cell >= mem.Length)
    ensures r.Ok? ==> mem[..] == old(mem[..])[cell := XorByte(old(mem[cell]), BitMask(bit))]
    ensures r.Ok? ==> r.value == Flip(cell, BitMask(bit), old(mem[cell]), mem[cell])
  {
    if cell >= mem.Length {
      return Thrown(OffsetOutside);
    }
    if bit >= 8 {
      return Thrown(BitOutside);
    }
    var mask := BitMask(bit);
    var before := mem[cell];
    mem[cell] := XorByte(mem[cell], mask);
    r := Ok(Flip(cell, mask, before, mem[cell]));
  }

  // The bytes an inference writes, for any engine whatever.
  type Writes = map<nat, Byte>

  function Written(s: seq<Byte>, w: Writes): (r: seq<Byte>)
    ensures |r| == |s|
    ensures forall c | 0 <= c < |s| :: r[c] == if c in w then w[c] else s[c]
  {
    seq(|s|, c requires 0 <= c < |s| => if c in w then w[c] else s[c])
  }

  method RunEngine(mem: array<Byte>, w: Writes)
    modifies mem
    ensures mem[..] == Written(old(mem[..]), w)
  {
    forall c | 0 <= c < mem.Length && c in w {
      mem[c] := w[c];
    }
  }

  // A flip on one byte, and the XOR and number of a list of them there.
  datatype Spot = Spot(cell: nat, mask: Byte)

  function MaskAt(s: Spot, cell: nat): Byte {
    if s.cell == cell then s.mask else 0
  }

  function MaskAll(spots: seq<Spot>, cell: nat): Byte {
    if spots == [] then 0 else XorByte(MaskAt(spots[0], cell), MaskAll(spots[1..], cell))
  }

  function CountAll(spots: seq<Spot>, cell: nat): nat {
    if spots == [] then 0 else (if spots[0].cell == cell then 1 else 0) + CountAll(spots[1..], cell)
  }

  lemma {:induction false} ConcatAll(s: seq<Spot>, t: seq<Spot>, cell: nat)
    ensures MaskAll(s + t, cell) == XorByte(MaskAll(s, cell), MaskAll(t, cell))
    ensures CountAll(s + t, cell) == CountAll(s, cell) + CountAll(t, cell)
  {
    if s == [] {
      assert s + t == t;
      XorByteLaws(MaskAll(t, cell), 0, 0);
    } else {
      assert (s + t)[0] == s[0] && (s + t)[1..] == s[1..] + t;
      ConcatAll(s[1..], t, cell);
      XorByteLaws(MaskAt(s[0], cell), MaskAll(s[1..], cell), MaskAll(t, cell));
    }
  }

  lemma SnocAll(s: seq<Spot>, x: Spot, cell: nat)
    ensures MaskAll(s + [x], cell) == XorByte(MaskAll(s, cell), MaskAt(x, cell))
    ensures CountAll(s + [x], cell) == CountAll(s, cell) + (if x.cell == cell then 1 else 0)
  {
    ConcatAll(s, [x], cell);
    assert [x][1..] == [];
  }

  // Taking one spot out of the middle XORs its mask away.
  lemma RemoveOne(s: seq<Spot>, x: Spot, t: seq<Spot>, cell: nat)
    ensures MaskAll(s + t, cell) == XorByte(MaskAll(s + [x] + t, cell), MaskAt(x, cell))
    ensures CountAll(s + t, cell) == CountAll(s + [x] + t, cell) - (if x.cell == cell then 1 else 0)
  {
    ConcatAll(s, t, cell);
    ConcatAll(s + [x], t, cell);
    SnocAll(s, x, cell);
    XorCancel(MaskAll(s, cell), MaskAt(x, cell), MaskAll(t, cell));
  }
}
