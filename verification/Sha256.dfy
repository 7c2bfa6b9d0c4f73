// The streaming SHA-256 of the image cache (apps/resnet50_int8_g1_5.cpp).
module Sha256Stream {
  import opened Bits
  import opened Words
  import opened Fips180

  const TWO64: nat := 0x1_0000_0000_0000_0000

  // ---- the compression function ----------------------------------------------

  // Bytes joined by shifts are the big-endian value.
  function Join(b0: Byte, b1: Byte, b2: Byte, b3: Byte): Word {
    WordOr(WordOr(WordOr(Shl(b0, 24), Shl(b1, 16)), Shl(b2, 8)), b3)
  }

  lemma JoinBytes(b0: Byte, b1: Byte, b2: Byte, b3: Byte)
    ensures Join(b0, b1, b2, b3) == BigEndian(b0, b1, b2, b3)
  {
    Pow2Values();
    JoinShifted(24, 16, 8, b0, b1, b2, b3);
  }

  lemma JoinShifted(s0: nat, s1: nat, s2: nat, b0: Byte, b1: Byte, b2: Byte, b3: Byte)
    requires Pow2(s0) == 0x100_0000 && Pow2(s1) == 0x1_0000 && Pow2(s2) == 0x100
    ensures WordOr(WordOr(WordOr(Shl(b0, s0), Shl(b1, s1)), Shl(b2, s2)), b3) == BigEndian(b0, b1, b2, b3)
  {
    ShlIs(b0, s0, 0x100_0000);
    ShlIs(b1, s1, 0x1_0000);
    ShlIs(b2, s2, 0x100);
    var j1 := b0 * 0x100 + b1;
    var j2 := j1 * 0x100 + b2;
    OrIs(s0, 0x100_0000, b0, b1 * 0x1_0000);
    assert Or(Shl(b0, s0), Shl(b1, s1)) == j1 * 0x1_0000;
    OrIs(s1, 0x1_0000, j1, b2 * 0x100);
    assert Or(j1 * 0x1_0000, Shl(b2, s2)) == j2 * 0x100;
    OrIs(s2, 0x100, j2, b3);
  }

  lemma ShlIs(x: Word, n: nat, scale: nat)
    requires Pow2(n) == scale && x * scale < TWO32
    ensures Shl(x, n) == x * scale
  {
    ShlScales(x, n);
  }

  lemma OrIs(k: nat, scale: nat, hi: nat, low: nat)
    requires Pow2(k) == scale && low < scale
    ensures Or(hi * scale, low) == hi * scale + low
  {
    OrAligned(k, hi, low);
  }

  lemma Pow2Values()
    ensures Pow2(8) == 0x100 && Pow2(16) == 0x1_0000 && Pow2(24) == 0x100_0000
  {
  }

  // Or of an aligned value and a smaller one adds them.
  lemma {:induction false} OrAligned(k: nat, hi: nat, low: nat)
    requires low < Pow2(k)
    ensures Or(hi * Pow2(k), low) == hi * Pow2(k) + low
  {
    if k > 0 {
      var h := hi * Pow2(k - 1);
      assert hi * Pow2(k) == 2 * h;
      OrAligned(k - 1, hi, low / 2);
      assert (2 * h) / 2 == h && (2 * h) % 2 == 0;
    } else {
      assert low == 0;
    }
  }

  lemma Reorder(a: Word, b: Word, c: Word, d: Word)
    ensures Add(Add(Add(a, b), c), d) == Add(Add(Add(d, c), b), a)
  {
    AddThree(a, b, c);
    AddThree(d, c, b);
    AddTwo(a + b + c, d);
    AddTwo(d + c + b, a);
  }

  lemma AddThree(a: Word, b: Word, c: Word)
    ensures Add(Add(a, b), c) == (a + b + c) % TWO32
  {
    AddTwo(a + b, c);
  }

  lemma AddTwo(x: nat, y: nat)
    ensures (x % TWO32 + y) % TWO32 == (x + y) % TWO32
  {
  }

  method ExpandSchedule(p: array<Byte>) returns (w: array<Word>)
    requires p.Length == 64
    ensures w.Length == 64 && forall j | 0 <= j < 64 :: w[j] == Schedule(p[..], j)
  {
    w := new Word[64];
    for i := 0 to 16
      invariant forall j | 0 <= j < i :: w[j] == Schedule(p[..], j)
    {
      w[i] := Join(p[4 * i], p[4 * i + 1], p[4 * i + 2], p[4 * i + 3]);
      JoinBytes(p[4 * i], p[4 * i + 1], p[4 * i + 2], p[4 * i + 3]);
    }
    ExtendSchedule(w, p[..]);
  }

  method ExtendSchedule(w: array<Word>, ghost block: Bytes)
    requires w.Length == 64 && |block| == 64 && forall j | 0 <= j < 16 :: w[j] == Schedule(block, j)
    modifies w
    ensures forall j | 0 <= j < 64 :: w[j] == Schedule(block, j)
  {
    for i := 16 to 64
      invariant forall j | 0 <= j < i :: w[j] == Schedule(block, j)
    {
      var s0 := SmallSigma0(w[i - 15]);
      var s1 := SmallSigma1(w[i - 2]);
      Reorder(w[i - 16], s0, w[i - 7], s1);
      w[i] := Add(Add(Add(w[i - 16], s0), w[i - 7]), s1);
    }
  }

  // ---- streaming -------------------------------------------------------------

  predicate Look(x: int) { true }

  // The state is the hash of these whole blocks. Quantified so that only a
  // proof that mentions Look unfolds the compression function.
  ghost predicate IsHashOf(state: Hash, blocks: Bytes) {
    && |blocks| % 64 == 0
    && forall x: int {:trigger Look(x)} :: Look(x) ==> state == HashBlocks(blocks)
  }

  lemma Fold(state: Hash, blocks: Bytes)
    requires |blocks| % 64 == 0 && state == HashBlocks(blocks)
    ensures IsHashOf(state, blocks)
  {
  }

  lemma Unfold(state: Hash, blocks: Bytes)
    requires IsHashOf(state, blocks)
    ensures state == HashBlocks(blocks)
  {
    assert Look(0);
  }

  lemma OneMoreBlock(n: nat)
    requires n % 64 == 0
    ensures (n + 64) % 64 == 0
  {
  }

  lemma HashesOneMore(state: Hash, blocks: Bytes, block: Bytes)
    requires |block| == 64 && IsHashOf(state, blocks)
    ensures IsHashOf(Compress(state, block), blocks + block)
  {
    Unfold(state, blocks);
    OneMoreBlock(|blocks|);
    HashBlocksStep(blocks, block);
    Fold(Compress(state, block), blocks + block);
  }

  lemma HashBlocksStep(blocks: Bytes, block: Bytes)
    requires |block| == 64 && |blocks| % 64 == 0
    ensures HashBlocks(blocks + block) == Compress(HashBlocks(blocks), block)
  {
    var all := blocks + block;
    assert all[..|all| - 64] == blocks && all[|all| - 64..] == block;
  }

  // What the stream computes from everything it absorbed; the bit count wraps.
  function StreamDigest(m: Bytes): (r: Bytes)
    ensures |r| == 32
  {
    HashBytes(HashBlocks(PadWith(m, (8 * |m|) % TWO64)))
  }

  lemma StreamDigestIsStandard(m: Bytes)
    requires |m| < MAX_BYTES
    ensures StreamDigest(m) == Fips180.Digest(m)
  {
    ShortLength(|m|);
  }

  lemma DigestOfPadded(state: Hash, msg: Bytes, m: Bytes)
    requires IsHashOf(state, msg) && msg == PadWith(m, (8 * |m|) % TWO64)
    ensures HashBytes(state) == StreamDigest(m)
  {
    Unfold(state, msg);
  }

  lemma ShortLength(n: nat)
    ensures n < MAX_BYTES ==> (8 * n) % TWO64 == 8 * n
  {
  }

  method AllRounds(state: Hash, p: array<Byte>, w: array<Word>) returns (v: Hash)
    requires p.Length == 64 && w.Length == 64 && forall j | 0 <= j < 64 :: w[j] == Schedule(p[..], j)
    ensures v == Rounds(state, p[..], ROUNDS)
  {
    v := state;
    for i := 0 to ROUNDS
      invariant v == Rounds(state, p[..], i)
    {
      v := Round(v, Constant(i), w[i]);
    }
  }

  method CompressBlock(state: Hash, p: array<Byte>, ghost blocks: Bytes) returns (next: Hash)
    requires p.Length == 64 && IsHashOf(state, blocks)
    ensures IsHashOf(next, blocks + p[..])
  {
    var w := ExpandSchedule(p);
    var v := AllRounds(state, p, w);
    next := AddHash(state, v);
    HashesOneMore(state, blocks, p[..]);
  }

  class Sha256 {
    var state: Hash
    var bits: nat             // wraps at 2^64
    const buffer: array<Byte>
    var fill: nat
    ghost var msg: Bytes      // everything absorbed so far
    ghost var hashed: Bytes   // the part of it that is in the state

    ghost predicate Streaming()
      reads this, buffer
    {
      && buffer.Length == 64 && fill < 64
      && msg == hashed + buffer[..fill]
      && IsHashOf(state, hashed)
    }

    ghost predicate Valid()
      reads this, buffer
    {
      Streaming() && bits == (8 * |msg|) % TWO64
    }

    constructor ()
      ensures Valid() && msg == [] && fresh(buffer)
    {
      buffer := new Byte[64];
      state := H0;
      bits, fill := 0, 0;
      msg, hashed := [], [];
      Fold(H0, []);
    }

    // One turn of the loop of Update: as much of data[p..] as the buffer holds.
    method Feed(data: Bytes, p: nat) returns (q: nat)
      requires Streaming() && p < |data|
      modifies this`state, this`fill, this`msg, this`hashed, buffer
      ensures p < q <= |data| && msg == old(msg) + data[p..q]
      ensures Streaming()
    {
      var take := if |data| - p < 64 - fill then |data| - p else 64 - fill;
      ghost var was := buffer[..];
      forall i | 0 <= i < take {
        buffer[fill + i] := data[p + i];
      }
      ghost var chunk := data[p..p + take];
      assert buffer[..fill + take] == was[..fill] + chunk;
      msg := msg + chunk;
      fill := fill + take;
      q := p + take;
      if fill == 64 {
        state := CompressBlock(state, buffer, hashed);
        hashed := hashed + buffer[..];
        fill := 0;
        assert buffer[..fill] == [];
      }
    }

    // Any chunk, including an empty one, is absorbed whole.
    method Update(data: Bytes)
      requires Valid()
      modifies this, buffer
      ensures Valid() && msg == old(msg) + data
    {
      bits := (bits + |data| * 8) % TWO64;
      var p := 0;
      while p < |data|
        invariant p <= |data| && Streaming() && msg == old(msg) + data[..p]
        invariant bits == (old(bits) + |data| * 8) % TWO64
      {
        ghost var o := p;
        p := Feed(data, p);
        assert data[..o] + data[o..p] == data[..p];
      }
      assert data[..p] == data;
      BitsWrap(|old(msg)|, |data|);
    }

    // The zero bytes after the one bit, up to byte 56 of a block.
    method PadZeros(ghost m: Bytes)
      requires Valid() && msg == m + [0x80]
      modifies this, buffer
      ensures Valid() && msg == m + [0x80] + Zeros(ZeroBytes(|m|))
    {
      ghost var n := 0;
      ZerosGrow(m, 0);
      FillCount(|hashed|, fill);
      while fill != 56
        invariant Valid() && n <= ZeroBytes(|m|)
        invariant msg == m + [0x80] + Zeros(n)
        invariant fill == |msg| % 64
        decreases ZeroBytes(|m|) - n
      {
        ZeroCount(|m|, n);
        ZerosGrow(m, n);
        Update([0]);
        n := n + 1;
        FillCount(|hashed|, fill);
      }
      ZeroCount(|m|, n);
    }

    // Padding and the length, then the state in big-endian bytes. Consumes the
    // object.
    method Digest() returns (out: Bytes)
      requires Valid()
      modifies this, buffer
      ensures out == StreamDigest(old(msg))
    {
      ghost var m := msg;
      var length := bits;
      Update([0x80]);
      PadZeros(m);
      Update(LengthBytes(length));
      out := HashBytes(state);
      PaddedWhole(|m|, |hashed|, fill);
      assert hashed == msg;
      DigestOfPadded(state, msg, m);
    }
  }

  lemma PaddedWhole(n: nat, blocks: nat, fill: nat)
    requires blocks % 64 == 0 && fill < 64 && blocks + fill == n + 1 + ZeroBytes(n) + 8
    ensures fill == 0
  {
  }

  lemma FillCount(n: nat, fill: nat)
    requires fill < 64 && n % 64 == 0
    ensures fill == (n + fill) % 64
  {
  }

  lemma ZerosGrow(m: Bytes, n: nat)
    ensures m + [0x80] + Zeros(0) == m + [0x80]
    ensures m + [0x80] + Zeros(n) + [0] == m + [0x80] + Zeros(n + 1)
  {
    assert Zeros(n + 1) == Zeros(n) + [0];
  }

  lemma BitsWrap(n: nat, m: nat)
    ensures ((8 * n) % TWO64 + m * 8) % TWO64 == (8 * (n + m)) % TWO64
  {
  }

  lemma ZeroCount(n: nat, z: nat)
    requires z <= ZeroBytes(n)
    ensures (n + 1 + z) % 64 == 56 <==> z == ZeroBytes(n)
  {
  }
}
