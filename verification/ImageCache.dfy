// The on-disk cache of preprocessed images (apps/resnet50_int8_g1_5.cpp):
// header, digest and blob in one file, hashed in one piece by the writer and in
// megabyte chunks by the reader.
module ImageCache {
  import opened Fips180
  import opened Sha256Stream
  import opened LittleEndian

  datatype File = Absent | Present(bytes: Bytes)

  const MAGIC: Bytes := [0x47, 0x4d, 0x32, 0x44, 0x49, 0x4d, 0x47, 0x43]
  const VERSION: nat := 1
  const CHUNK: nat := 0x10_0000
  const MAX_FLOATS: nat := 0x1fff_ffff_ffff_ffff

  type Digest32 = b: Bytes | |b| == 32 witness HashBytes(H0)

  type Size = n: nat | n < TWO64

  // The product wraps like the size_t it is.
  function Floats(count: Size, per: Size): Size {
    (count * per) % TWO64
  }

  function Fields(key: Digest32, count: Size, per: Size): (r: Bytes)
    ensures |r| == 60
  {
    MAGIC + Encode(VERSION, 4) + key + Encode(count, 8) + Encode(per, 8)
  }

  function Header(key: Digest32, count: Size, per: Size, sha: Digest32): (r: Bytes)
    ensures |r| == 92
  {
    Fields(key, count, per) + sha
  }

  // Header, then a blob of the announced size with the recorded digest, and
  // nothing after it.
  ghost predicate IsCacheFile(f: Bytes, key: Digest32, count: Size, per: Size) {
    && |f| == 92 + 4 * Floats(count, per)
    && f[..60] == Fields(key, count, per)
    && f[60..92] == StreamDigest(f[92..])
  }

  // ---- reading ---------------------------------------------------------------

  class Reader {
    const bytes: Bytes
    var pos: nat

    constructor (bytes: Bytes)
      ensures this.bytes == bytes && pos == 0
    {
      this.bytes := bytes;
      pos := 0;
    }

    // Fails on a short read.
    method ReadExact(size: nat) returns (ok: bool, data: Bytes)
      requires pos <= |bytes|
      modifies this
      ensures old(pos) <= pos <= |bytes|
      ensures ok <==> old(pos) + size <= |bytes|
      ensures ok ==> pos == old(pos) + size && data == bytes[old(pos)..pos]
    {
      if pos + size <= |bytes| {
        ok, data := true, bytes[pos..pos + size];
        pos := pos + size;
      } else {
        ok, data := false, bytes[pos..];
        pos := |bytes|;
      }
    }
  }

  // Magic, version, key and both counts, each read and compared in turn; then
  // the recorded digest.
  method ReadHeader(f: Reader, key: Digest32, count: Size, per: Size) returns (ok: bool, sha: Bytes)
    requires f.pos == 0
    modifies f
    ensures f.pos <= |f.bytes|
    ensures ok <==> |f.bytes| >= 92 && f.bytes[..60] == Fields(key, count, per)
    ensures ok ==> f.pos == 92 && sha == f.bytes[60..92]
  {
    Widths();
    ghost var b := f.bytes;
    var magic, version, fileKey;
    sha := [];
    ok, magic := f.ReadExact(8);
    if !ok { return; }
    if magic != MAGIC { ok := false; FieldsAre(b, key, count, per); return; }
    ok, version := f.ReadExact(4);
    if !ok { return; }
    ReadsAs(version, VERSION);
    if Decode(version) != VERSION { ok := false; FieldsAre(b, key, count, per); return; }
    ok, fileKey := f.ReadExact(32);
    if !ok { return; }
    if fileKey != key { ok := false; FieldsAre(b, key, count, per); return; }
    ok, sha := ReadCounts(f, key, count, per);
  }

  method ReadCounts(f: Reader, key: Digest32, count: Size, per: Size) returns (ok: bool, sha: Bytes)
    requires f.pos == 44 <= |f.bytes|
    requires f.bytes[..8] == MAGIC && f.bytes[8..12] == Encode(VERSION, 4) && f.bytes[12..44] == key
    modifies f
    ensures f.pos <= |f.bytes|
    ensures ok <==> |f.bytes| >= 92 && f.bytes[..60] == Fields(key, count, per)
    ensures ok ==> f.pos == 92 && sha == f.bytes[60..92]
  {
    Widths();
    ghost var b := f.bytes;
    var first, second;
    sha := [];
    ok, first := f.ReadExact(8);
    if !ok { return; }
    ok, second := f.ReadExact(8);
    if !ok { return; }
    ReadsAs(first, count);
    ReadsAs(second, per);
    FieldsAre(b, key, count, per);
    if Decode(first) != count || Decode(second) != per { ok := false; return; }
    ok, sha := f.ReadExact(32);
  }

  lemma FieldsAre(b: Bytes, key: Digest32, count: Size, per: Size)
    ensures |b| >= 60 ==> (b[..60] == Fields(key, count, per) <==>
              && b[..8] == MAGIC && b[8..12] == Encode(VERSION, 4) && b[12..44] == key
              && b[44..52] == Encode(count, 8) && b[52..60] == Encode(per, 8))
  {
    if |b| >= 60 {
      var v, c, p := Encode(VERSION, 4), Encode(count, 8), Encode(per, 8);
      Slices(b, MAGIC, v, key, c, p);
    }
  }

  lemma Slices(b: Bytes, m: Bytes, v: Bytes, k: Bytes, c: Bytes, p: Bytes)
    requires |b| >= 60 && |m| == 8 && |v| == 4 && |k| == 32 && |c| == 8 && |p| == 8
    ensures b[..60] == m + v + k + c + p <==>
              && b[..8] == m && b[8..12] == v && b[12..44] == k && b[44..52] == c && b[52..60] == p
  {
    var all := m + v + k + c + p;
    assert all[..8] == m && all[8..12] == v && all[12..44] == k && all[44..52] == c && all[52..60] == p;
    assert b[..60] == b[..8] + b[8..12] + b[12..44] + b[44..52] + b[52..60];
  }

  // The blob, chunk by chunk, into a buffer of zeros; hashed as it comes.
  method ReadBlob(f: Reader, total: nat) returns (ok: bool, out: Bytes, hasher: Sha256)
    requires f.pos <= |f.bytes|
    modifies f
    ensures f.pos <= |f.bytes| && fresh(hasher) && fresh(hasher.buffer)
    ensures ok <==> old(f.pos) + total <= |f.bytes|
    ensures ok ==> f.pos == old(f.pos) + total && out == f.bytes[old(f.pos)..f.pos]
    ensures ok ==> hasher.Valid() && hasher.msg == out
  {
    ghost var start := f.pos;
    out := Zeros(total);
    hasher := new Sha256();
    ok := true;
    var done := 0;
    while done < total
      invariant done <= total && start + done == f.pos <= |f.bytes| && |out| == total
      invariant fresh(hasher) && fresh(hasher.buffer) && hasher.Valid()
      invariant hasher.msg == f.bytes[start..start + done] == out[..done]
    {
      var take := if total - done < CHUNK then total - done else CHUNK;
      var chunk;
      ok, chunk := f.ReadExact(take);
      if !ok { return; }
      hasher.Update(chunk);
      out := out[..done] + chunk + out[done + take..];
      done := done + take;
    }
    assert out == out[..done];
  }

  method SameDigest(hasher: Sha256, sha: Bytes) returns (same: bool)
    requires hasher.Valid()
    modifies hasher, hasher.buffer
    ensures same <==> StreamDigest(old(hasher.msg)) == sha
  {
    var have := hasher.Digest();
    same := have == sha;
  }

  // The rest of the file must be the blob, with this digest.
  method ReadChecked(f: Reader, total: nat, sha: Bytes) returns (ok: bool, blob: Bytes)
    requires f.pos <= |f.bytes|
    modifies f
    ensures ok <==> old(f.pos) + total == |f.bytes| && StreamDigest(f.bytes[old(f.pos)..]) == sha
    ensures ok ==> blob == f.bytes[old(f.pos)..]
  {
    var hasher;
    ok, blob, hasher := ReadBlob(f, total);
    if !ok { return; }
    if f.pos < |f.bytes| { ok := false; return; }
    assert blob == f.bytes[old(f.pos)..];
    ok := SameDigest(hasher, sha);
  }

  // `memory` is how many floats can be allocated; `before` is what the caller's
  // vector holds. A missing file leaves the vector as it is, every other miss
  // clears it.
  method Load(file: File, key: Digest32, count: Size, per: Size, memory: nat, before: Bytes)
    returns (hit: bool, out: Bytes)
    ensures hit <==> && file.Present? && IsCacheFile(file.bytes, key, count, per)
                     && Floats(count, per) <= MAX_FLOATS && Floats(count, per) <= memory
    ensures hit ==> out == file.bytes[92..]
    ensures !hit ==> out == if file.Absent? then before else []
  {
    if file.Absent? { return false, before; }
    var f := new Reader(file.bytes);
    var ok, sha := ReadHeader(f, key, count, per);
    if !ok { return false, []; }
    var total := (count * per * 4) % TWO64;
    var n := Floats(count, per);
    if n > MAX_FLOATS || n > memory { return false, []; }
    FourTimes(count * per, total);
    var blob;
    ok, blob := ReadChecked(f, total, sha);
    if !ok { return false, []; }
    return true, blob;
  }

  lemma FourTimes(n: nat, total: nat)
    requires n % TWO64 <= MAX_FLOATS && total == (n * 4) % TWO64
    ensures total == 4 * (n % TWO64)
  {
    Remainder(n * 4, 4 * (n / TWO64), 4 * (n % TWO64));
  }

  lemma Remainder(x: nat, q: nat, r: nat)
    requires x == q * TWO64 + r && r < TWO64
    ensures x % TWO64 == r
  {
  }

  // ---- writing ---------------------------------------------------------------

  method HashWhole(blob: Bytes) returns (sha: Bytes)
    ensures sha == StreamDigest(blob)
  {
    var hasher := new Sha256();
    hasher.Update(blob);
    assert [] + blob == blob;
    sha := hasher.Digest();
  }

  method AppendChunks(head: Bytes, blob: Bytes) returns (tmp: Bytes)
    ensures tmp == head + blob
  {
    tmp := head;
    var done := 0;
    while done < |blob|
      invariant done <= |blob| && tmp == head + blob[..done]
    {
      var take := if |blob| - done < CHUNK then |blob| - done else CHUNK;
      tmp := tmp + blob[done..done + take];
      assert blob[..done] + blob[done..done + take] == blob[..done + take];
      done := done + take;
    }
    assert blob[..done] == blob;
  }

  // The file that replaces the old one. A write beyond `room` bytes fails, and
  // then the old file stays.
  method Store(previous: File, key: Digest32, count: Size, per: Size, blob: Bytes, room: nat) returns (file: File)
    ensures file == if 92 + |blob| <= room then Present(Header(key, count, per, StreamDigest(blob)) + blob)
                    else previous
  {
    var sha := HashWhole(blob);
    var tmp := AppendChunks(Header(key, count, per, sha), blob);
    file := if |tmp| <= room then Present(tmp) else previous;
  }

  // ---- round trip ------------------------------------------------------------

  // What Store writes loads again exactly when the blob has the announced size.
  lemma StoredFileLoads(key: Digest32, count: Size, per: Size, blob: Bytes)
    ensures var f := Header(key, count, per, StreamDigest(blob)) + blob;
            && f[92..] == blob
            && (IsCacheFile(f, key, count, per) <==> |blob| == 4 * Floats(count, per))
  {
    var h := Header(key, count, per, StreamDigest(blob));
    var f := h + blob;
    assert f[92..] == blob && f[..60] == h[..60] == Fields(key, count, per);
    assert f[60..92] == h[60..] == StreamDigest(blob);
  }

  // A file answers to one key and one pair of sizes.
  lemma OneKeyPerFile(f: Bytes, key: Digest32, count: Size, per: Size, key': Digest32, count': Size, per': Size)
    requires IsCacheFile(f, key, count, per) && IsCacheFile(f, key', count', per')
    ensures key == key' && count == count' && per == per'
  {
    Widths();
    FieldsAre(f, key, count, per);
    FieldsAre(f, key', count', per');
    DecodeEncode(count, 8);
    DecodeEncode(per, 8);
    DecodeEncode(count', 8);
    DecodeEncode(per', 8);
  }

  // ---- staging ---------------------------------------------------------------

  function Concat(staged: seq<Bytes>): Bytes {
    if staged == [] then [] else Concat(staged[..|staged| - 1]) + staged[|staged| - 1]
  }

  predicate Carries(file: File, blob: Bytes) {
    file.Present? && |file.bytes| >= 92 && file.bytes[92..] == blob
  }

  // The images of a campaign: from the cache on a hit, otherwise preprocessed
  // one by one and stored for the next launch.
  method Stage(file: File, key: Digest32, per: Size, staged: seq<Bytes>, memory: nat, room: nat)
    returns (hit: bool, input: Bytes, next: File)
    requires |staged| < TWO64
    ensures !hit ==> input == Concat(staged)
    ensures hit ==> next == file && Carries(file, input)
    ensures !hit ==> if 92 + |input| <= room then Carries(next, input) else next == file
  {
    hit, input := Load(file, key, |staged|, per, memory, []);
    next := file;
    if !hit {
      for i := 0 to |staged|
        invariant input == Concat(staged[..i])
      {
        assert staged[..i + 1][..i] == staged[..i];
        input := input + staged[i];
      }
      assert staged[..|staged|] == staged;
      next := Store(file, key, |staged|, per, input, room);
      if 92 + |input| <= room {
        StoredBlob(next, key, |staged|, per, input);
      }
    }
  }

  // A launch that preprocessed and stored its images is followed by one that
  // stages the same buffer, from the cache or not.
  method Relaunch(file: File, key: Digest32, per: Size, staged: seq<Bytes>, memory: nat, memoryLater: nat, room: nat)
    returns (hit: bool, first: Bytes, second: Bytes)
    requires |staged| < TWO64
    ensures !hit && 92 + |first| <= room ==> second == first
  {
    var again, next, last;
    hit, first, next := Stage(file, key, per, staged, memory, room);
    again, second, last := Stage(next, key, per, staged, memoryLater, room);
  }

  lemma StoredBlob(file: File, key: Digest32, count: Size, per: Size, blob: Bytes)
    requires file == Present(Header(key, count, per, StreamDigest(blob)) + blob)
    ensures Carries(file, blob)
  {
  }
}
