// SHA-256 as FIPS 180-4 defines it.
module Fips180 {
  import opened Bits
  import opened Words

  // Section 4.2.2
  const K: seq<Word> := [
    0x428a2f98, 0x71374491, 0xb5c0fbcf, 0xe9b5dba5, 0x3956c25b, 0x59f111f1, 0x923f82a4, 0xab1c5ed5,
    0xd807aa98, 0x12835b01, 0x243185be, 0x550c7dc3, 0x72be5d74, 0x80deb1fe, 0x9bdc06a7, 0xc19bf174,
    0xe49b69c1, 0xefbe4786, 0x0fc19dc6, 0x240ca1cc, 0x2de92c6f, 0x4a7484aa, 0x5cb0a9dc, 0x76f988da,
    0x983e5152, 0xa831c66d, 0xb00327c8, 0xbf597fc7, 0xc6e00bf3, 0xd5a79147, 0x06ca6351, 0x14292967,
    0x27b70a85, 0x2e1b2138, 0x4d2c6dfc, 0x53380d13, 0x650a7354, 0x766a0abb, 0x81c2c92e, 0x92722c85,
    0xa2bfe8a1, 0xa81a664b, 0xc24b8b70, 0xc76c51a3, 0xd192e819, 0xd6990624, 0xf40e3585, 0x106aa070,
    0x19a4c116, 0x1e376c08, 0x2748774c, 0x34b0bcb5, 0x391c0cb3, 0x4ed8aa4a, 0x5b9cca4f, 0x682e6ff3,
    0x748f82ee, 0x78a5636f, 0x84c87814, 0x8cc70208, 0x90befffa, 0xa4506ceb, 0xbef9a3f7, 0xc67178f2]

  function Constant(t: nat): Word
    requires t < 64
  {
    K[t]
  }

  // Section 3.2: rotation to the right.
  function Rotr(x: Word, n: nat): Word
    requires 0 < n < 32
  {
    WordOr(Shr(x, n), Shl(x, 32 - n))
  }

  // Section 4.1.2
  function Ch(x: Word, y: Word, z: Word): Word {
    WordXor(WordAnd(x, y), WordAnd(WordNot(x), z))
  }

  function Maj(x: Word, y: Word, z: Word): Word {
    WordXor(WordXor(WordAnd(x, y), WordAnd(x, z)), WordAnd(y, z))
  }

  function BigSigma0(x: Word): Word { WordXor(WordXor(Rotr(x, 2), Rotr(x, 13)), Rotr(x, 22)) }
  function BigSigma1(x: Word): Word { WordXor(WordXor(Rotr(x, 6), Rotr(x, 11)), Rotr(x, 25)) }
  function SmallSigma0(x: Word): Word { WordXor(WordXor(Rotr(x, 7), Rotr(x, 18)), Shr(x, 3)) }
  function SmallSigma1(x: Word): Word { WordXor(WordXor(Rotr(x, 17), Rotr(x, 19)), Shr(x, 10)) }

  datatype Hash = Hash(a: Word, b: Word, c: Word, d: Word, e: Word, f: Word, g: Word, h: Word)

  // Section 5.3.3
  const H0 := Hash(0x6a09e667, 0xbb67ae85, 0x3c6ef372, 0xa54ff53a, 0x510e527f, 0x9b05688c, 0x1f83d9ab, 0x5be0cd19)

  type Bytes = seq<Byte>

  // Section 3.1: the most significant byte comes first.
  function BigEndian(b0: Byte, b1: Byte, b2: Byte, b3: Byte): Word {
    0x100_0000 * b0 + 0x1_0000 * b1 + 0x100 * b2 + b3
  }

  // Section 6.2.2, step 1: the message schedule.
  function Schedule(block: Bytes, t: nat): Word
    requires |block| == 64 && t < 64
  {
    if t < 16 then BigEndian(block[4 * t], block[4 * t + 1], block[4 * t + 2], block[4 * t + 3])
    else Add(Add(Add(SmallSigma1(Schedule(block, t - 2)), Schedule(block, t - 7)),
                 SmallSigma0(Schedule(block, t - 15))),
             Schedule(block, t - 16))
  }

  // Step 3, one round with its constant and schedule word.
  function Round(v: Hash, k: Word, w: Word): Hash {
    var t1 := Add(Add(Add(Add(v.h, BigSigma1(v.e)), Ch(v.e, v.f, v.g)), k), w);
    var t2 := Add(BigSigma0(v.a), Maj(v.a, v.b, v.c));
    Hash(Add(t1, t2), v.a, v.b, v.c, Add(v.d, t1), v.e, v.f, v.g)
  }

  // Steps 2 and 3: the working variables after t rounds.
  function Rounds(start: Hash, block: Bytes, t: nat): Hash
    requires |block| == 64 && t <= 64
  {
    if t == 0 then start
    else Round(Rounds(start, block, t - 1), Constant(t - 1), Schedule(block, t - 1))
  }

  // Step 4.
  function AddHash(x: Hash, y: Hash): Hash {
    Hash(Add(x.a, y.a), Add(x.b, y.b), Add(x.c, y.c), Add(x.d, y.d),
         Add(x.e, y.e), Add(x.f, y.f), Add(x.g, y.g), Add(x.h, y.h))
  }

  const ROUNDS: nat := 64

  function Compress(start: Hash, block: Bytes): Hash
    requires |block| == 64
  {
    AddHash(start, Rounds(start, block, ROUNDS))
  }

  function HashBlocks(data: Bytes): Hash
    requires |data| % 64 == 0
  {
    if data == [] then H0
    else Compress(HashBlocks(data[..|data| - 64]), data[|data| - 64..])
  }

  // Section 5.1.1: one bit, then zeros, then the length in 64 bits.
  function ZeroBytes(n: nat): (z: nat)
    ensures (n + 1 + z) % 64 == 56 && z < 64
  {
    (119 - n % 64) % 64
  }

  // 256 ^ (7 - i)
  function Scale(i: nat): nat
    requires i < 8
  {
    if i == 0 then 0x100_0000_0000_0000
    else if i == 1 then 0x1_0000_0000_0000
    else if i == 2 then 0x100_0000_0000
    else if i == 3 then 0x1_0000_0000
    else if i == 4 then 0x100_0000
    else if i == 5 then 0x1_0000
    else if i == 6 then 0x100
    else 1
  }

  function LengthByte(bits: nat, i: nat): Byte
    requires i < 8
  {
    (bits / Scale(i)) % 256
  }

  function LengthBytes(bits: nat): (r: Bytes)
    ensures |r| == 8
  {
    seq(8, i requires 0 <= i < 8 => LengthByte(bits, i))
  }

  function Zeros(n: nat): (r: Bytes)
    ensures |r| == n
  {
    seq(n, _ => 0)
  }

  function PadWith(m: Bytes, bits: nat): (r: Bytes)
    ensures |r| == |m| + 1 + ZeroBytes(|m|) + 8 && |r| % 64 == 0
  {
    m + [0x80] + Zeros(ZeroBytes(|m|)) + LengthBytes(bits)
  }

  function WordBytes(w: Word): Bytes {
    [w / 0x100_0000, (w / 0x1_0000) % 256, (w / 0x100) % 256, w % 256]
  }

  function HashBytes(h: Hash): (r: Bytes)
    ensures |r| == 32
  {
    WordBytes(h.a) + WordBytes(h.b) + WordBytes(h.c) + WordBytes(h.d) +
    WordBytes(h.e) + WordBytes(h.f) + WordBytes(h.g) + WordBytes(h.h)
  }

  // The standard defines the digest of messages shorter than 2^64 bits.
  const MAX_BYTES: nat := 0x2000_0000_0000_0000

  function Digest(m: Bytes): (r: Bytes)
    ensures |r| == 32
  {
    HashBytes(HashBlocks(PadWith(m, 8 * |m|)))
  }
}
