// Numbers as little-endian bytes, the form the image cache stores them in.
module LittleEndian {
  import opened Bits
  import opened Fips180

  function Pow256(n: nat): (r: nat)
    ensures r > 0
  {
    if n == 0 then 1 else 256 * Pow256(n - 1)
  }

  // The n low bytes of v as this machine stores them.
  function Encode(v: nat, n: nat): (r: Bytes)
    ensures |r| == n
  {
    if n == 0 then [] else [v % 256] + Encode(v / 256, n - 1)
  }

  function Decode(b: Bytes): nat {
    if b == [] then 0 else b[0] + 256 * Decode(b[1..])
  }

  lemma {:induction false} DecodeEncode(v: nat, n: nat)
    requires v < Pow256(n)
    ensures Decode(Encode(v, n)) == v
  {
    if n > 0 {
      DecodeEncode(v / 256, n - 1);
      assert Encode(v, n)[1..] == Encode(v / 256, n - 1);
    }
  }

  lemma {:induction false} EncodeDecode(b: Bytes)
    ensures Encode(Decode(b), |b|) == b
  {
    if b != [] {
      EncodeDecode(b[1..]);
      DigitAndRest(b[0], Decode(b[1..]));
      assert [b[0]] + b[1..] == b;
    }
  }

  lemma DigitAndRest(d: Byte, rest: nat)
    ensures (d + 256 * rest) % 256 == d && (d + 256 * rest) / 256 == rest
  {
  }

  // A stored number reads back as v exactly when its bytes are those of v.
  lemma ReadsAs(b: Bytes, v: nat)
    requires v < Pow256(|b|)
    ensures Decode(b) == v <==> b == Encode(v, |b|)
  {
    DecodeEncode(v, |b|);
    EncodeDecode(b);
  }

  lemma Widths()
    ensures Pow256(4) == 0x1_0000_0000 && Pow256(8) == 0x1_0000_0000_0000_0000
  {
  }
}
