// The pool of observed pages and its address arithmetic
// (`PoolMap` in tools/g3_probe/g3_pool.py).
module PoolMaps {
  import opened Outcomes
  import opened Sorting

  datatype Page = Page(chunk: nat, va: int, pa: nat, size: nat)

  datatype Query = Query(chunkA: nat, offsetA: int, chunkB: nat, offsetB: int)

  // Pages by chunk in address order, and one page for every physical address.
  datatype Pool = Pool(chunks: map<nat, seq<Page>>, paPages: seq<Page>)

  predicate Sound(p: Page) { p.size > 0 }

  predicate ByChunk(x: Page, y: Page) { x.chunk < y.chunk || (x.chunk == y.chunk && x.va < y.va) }

  // Each page starts where the one before it ends.
  predicate Tiled(s: seq<Page>) {
    forall i | 0 < i < |s| :: s[i].va == s[i - 1].va + s[i - 1].size
  }

  function InChunk(c: nat): Page -> bool { (p: Page) => p.chunk == c }

  ghost predicate Valid(pool: Pool) {
    && (forall c | c in pool.chunks :: ChunkOk(c, pool.chunks[c]))
    && (forall p | p in pool.paPages :: Known(pool, p))
    && (forall i, j | 0 <= i < j < |pool.paPages| :: pool.paPages[i].pa < pool.paPages[j].pa)
    && pool.paPages != []
  }

  ghost predicate ChunkOk(c: nat, s: seq<Page>) {
    s != [] && Tiled(s) && forall p | p in s :: Sound(p) && p.chunk == c
  }

  predicate Known(pool: Pool, p: Page) {
    p.chunk in pool.chunks && p in pool.chunks[p.chunk]
  }

  // ---- construction --------------------------------------------------------------

  ghost predicate Groups(sorted: seq<Page>, chunks: map<nat, seq<Page>>) {
    && (forall c :: c in chunks <==> exists p :: p in sorted && p.chunk == c)
    && (forall c | c in chunks :: chunks[c] == Filter(InChunk(c), sorted) && chunks[c] != [])
  }

  method GroupByChunk(sorted: seq<Page>) returns (chunks: map<nat, seq<Page>>, order: seq<nat>)
    ensures forall c :: c in order <==> c in chunks
    ensures Groups(sorted, chunks)
  {
    chunks, order := map[], [];
    for i := 0 to |sorted|
      invariant forall c :: c in order <==> c in chunks
      invariant Groups(sorted[..i], chunks)
    {
      var p := sorted[i];
      assert sorted[..i + 1] == sorted[..i] + [p];
      GroupStep(sorted[..i], chunks, p);
      if p.chunk !in chunks {
        order := order + [p.chunk];
      }
      chunks := chunks[p.chunk := (if p.chunk in chunks then chunks[p.chunk] else []) + [p]];
    }
    assert sorted[..|sorted|] == sorted;
  }

  lemma GroupStep(s: seq<Page>, chunks: map<nat, seq<Page>>, p: Page)
    requires Groups(s, chunks)
    ensures Groups(s + [p], chunks[p.chunk := (if p.chunk in chunks then chunks[p.chunk] else []) + [p]])
  {
    var more := chunks[p.chunk := (if p.chunk in chunks then chunks[p.chunk] else []) + [p]];
    if p.chunk !in chunks {
      FilterNone(InChunk(p.chunk), s);
    }
    forall c | c in more ensures more[c] == Filter(InChunk(c), s + [p]) && more[c] != [] {
      ChunkSnoc(c, s, p);
    }
    forall c ensures c in more <==> exists q :: q in s + [p] && q.chunk == c {
      if q :| q in s && q.chunk == c {
        assert q in s + [p];
      }
      assert p in s + [p];
    }
  }

  lemma ChunkSnoc(c: nat, s: seq<Page>, p: Page)
    ensures Filter(InChunk(c), s + [p]) == if p.chunk == c then Filter(InChunk(c), s) + [p] else Filter(InChunk(c), s)
  {
    FilterAppend(InChunk(c), s, [p]);
  }

  lemma FilterNone(p: Page -> bool, s: seq<Page>)
    requires forall x | x in s :: !p(x)
    ensures Filter(p, s) == []
  {
    if Filter(p, s) != [] {
      assert Filter(p, s)[0] in Filter(p, s);
    }
  }

  method CheckTiled(s: seq<Page>) returns (ok: bool)
    requires s != []
    ensures ok <==> Tiled(s)
  {
    var cursor := s[0].va;
    for i := 0 to |s|
      invariant forall k | 0 < k < i :: s[k].va == s[k - 1].va + s[k - 1].size
      invariant cursor == if i == 0 then s[0].va else s[i - 1].va + s[i - 1].size
    {
      if s[i].va != cursor { return false; }
      cursor := s[i].va + s[i].size;
    }
    return true;
  }

  // No later page has the same physical address.
  ghost predicate IsLast(sorted: seq<Page>, p: Page) {
    exists i :: 0 <= i < |sorted| && sorted[i] == p && forall j | i < j < |sorted| :: sorted[j].pa != p.pa
  }

  lemma LastStays(sorted: seq<Page>, p: Page, q: Page)
    requires IsLast(sorted, p) && p.pa != q.pa
    ensures IsLast(sorted + [q], p)
  {
    var i :| 0 <= i < |sorted| && sorted[i] == p && forall j | i < j < |sorted| :: sorted[j].pa != p.pa;
    assert (sorted + [q])[i] == p;
  }

  // The kept pages ascend, one for each address that occurs, the last one with it.
  ghost predicate OnePerPhysical(sorted: seq<Page>, r: seq<Page>) {
    && (forall p | p in r :: p in sorted && IsLast(sorted, p))
    && (forall p | p in sorted :: HasPhysical(r, p.pa))
    && (forall i, j | 0 <= i < j < |r| :: r[i].pa < r[j].pa)
  }

  ghost predicate HasPhysical(r: seq<Page>, pa: nat) {
    exists q :: q in r && q.pa == pa
  }

  // What the dictionary by physical address holds.
  ghost predicate LastOnes(sorted: seq<Page>, last: map<nat, Page>) {
    && (forall a | a in last :: last[a] in sorted && last[a].pa == a && IsLast(sorted, last[a]))
    && (forall p | p in sorted :: p.pa in last)
  }

  lemma LastOnesStep(sorted: seq<Page>, last: map<nat, Page>, q: Page)
    requires LastOnes(sorted, last)
    ensures LastOnes(sorted + [q], last[q.pa := q])
  {
    forall a | a in last && a != q.pa ensures IsLast(sorted + [q], last[a]) {
      LastStays(sorted, last[a], q);
    }
    assert (sorted + [q])[|sorted|] == q;
  }

  method LastByPhysical(sorted: seq<Page>) returns (last: map<nat, Page>, order: seq<nat>)
    ensures LastOnes(sorted, last) && Distinct(order) && forall a :: a in order <==> a in last
  {
    last, order := map[], [];
    for i := 0 to |sorted|
      invariant LastOnes(sorted[..i], last) && Distinct(order) && forall a :: a in order <==> a in last
    {
      assert sorted[..i + 1] == sorted[..i] + [sorted[i]];
      LastOnesStep(sorted[..i], last, sorted[i]);
      if sorted[i].pa !in last {
        order := order + [sorted[i].pa];
      }
      last := last[sorted[i].pa := sorted[i]];
    }
    assert sorted[..|sorted|] == sorted;
  }

  // One page per physical address: the last one in chunk order.
  method DistinctPhysical(sorted: seq<Page>) returns (r: seq<Page>)
    ensures OnePerPhysical(sorted, r)
  {
    var last, order := LastByPhysical(sorted);
    var less := (x: nat, y: nat) => x < y;
    var keys := SortBy(less, order);
    SortKeepsElements(less, order);
    SortIsSorted(less, order);
    SameMultisetDistinct(order, keys);
    r := PagesOf(last, keys, sorted);
    forall p | p in sorted ensures HasPhysical(r, p.pa) {
      assert p.pa in keys;
      var k :| 0 <= k < |keys| && keys[k] == p.pa;
      assert r[k] in r;
    }
    forall i, j | 0 <= i < j < |r| ensures r[i].pa < r[j].pa {
      assert !less(keys[j], keys[i]) && keys[i] != keys[j];
    }
  }

  function PagesOf(last: map<nat, Page>, keys: seq<nat>, ghost sorted: seq<Page>): (r: seq<Page>)
    requires forall k | 0 <= k < |keys| :: keys[k] in last && last[keys[k]] in sorted && last[keys[k]].pa == keys[k]
    ensures |r| == |keys| && forall k | 0 <= k < |r| :: r[k] == last[keys[k]] && r[k] in sorted && r[k].pa == keys[k]
  {
    seq(|keys|, k requires 0 <= k < |keys| && keys[k] in last => last[keys[k]])
  }

  // None when the pages of some chunk do not tile its addresses.
  method BuildPool(pages: seq<Page>) returns (pool: Option<Pool>)
    requires pages != [] && forall p | p in pages :: Sound(p)
    ensures pool.Some? <==> ChunksTile(pages, SortBy(ByChunk, pages))
    ensures pool.Some? ==> Valid(pool.value) && forall p | p in pages :: Known(pool.value, p)
    ensures pool.Some? ==> Groups(SortBy(ByChunk, pages), pool.value.chunks)
    ensures pool.Some? ==> OnePerPhysical(SortBy(ByChunk, pages), pool.value.paPages)
  {
    SortKeepsElements(ByChunk, pages);
    assert pages[0] in SortBy(ByChunk, pages);
    pool := Assemble(SortBy(ByChunk, pages));
  }

  method Assemble(sorted: seq<Page>) returns (pool: Option<Pool>)
    requires sorted != [] && forall p | p in sorted :: Sound(p)
    ensures pool.Some? <==> ChunksTile(sorted, sorted)
    ensures pool.Some? ==> Valid(pool.value) && forall p | p in sorted :: Known(pool.value, p)
    ensures pool.Some? ==> Groups(sorted, pool.value.chunks) && OnePerPhysical(sorted, pool.value.paPages)
  {
    var chunks, order := GroupByChunk(sorted);
    var tiled := AllTiled(chunks, order);
    TiledByPage(sorted, chunks);
    if !tiled {
      return None;
    }
    var paPages := DistinctPhysical(sorted);
    assert sorted[0] in sorted && HasPhysical(paPages, sorted[0].pa);
    GroupsAreValid(sorted, chunks, paPages);
    pool := Some(Pool(chunks, paPages));
  }

  lemma TiledByPage(sorted: seq<Page>, chunks: map<nat, seq<Page>>)
    requires Groups(sorted, chunks)
    ensures (forall c | c in chunks :: Tiled(chunks[c])) <==> ChunksTile(sorted, sorted)
  {
    if forall c | c in chunks :: Tiled(chunks[c]) {
      forall p | p in sorted ensures Tiled(Filter(InChunk(p.chunk), sorted)) {
        assert p.chunk in chunks;
      }
    }
  }

  // In address order, the pages of every chunk tile its addresses.
  ghost predicate ChunksTile(pages: seq<Page>, sorted: seq<Page>) {
    forall p | p in pages :: Tiled(Filter(InChunk(p.chunk), sorted))
  }

  lemma GroupsAreValid(sorted: seq<Page>, chunks: map<nat, seq<Page>>, paPages: seq<Page>)
    requires (forall p | p in sorted :: Sound(p)) && paPages != []
    requires Groups(sorted, chunks) && (forall c | c in chunks :: Tiled(chunks[c]))
    requires OnePerPhysical(sorted, paPages)
    ensures Valid(Pool(chunks, paPages)) && forall p | p in sorted :: Known(Pool(chunks, paPages), p)
  {
    forall p | p in sorted ensures Known(Pool(chunks, paPages), p) {
      InItsGroup(sorted, chunks, p);
    }
    forall c | c in chunks ensures ChunkOk(c, chunks[c]) {
      GroupOk(sorted, chunks, c);
    }
  }

  lemma InItsGroup(sorted: seq<Page>, chunks: map<nat, seq<Page>>, p: Page)
    requires Groups(sorted, chunks) && p in sorted
    ensures p.chunk in chunks && p in chunks[p.chunk]
  {
    assert InChunk(p.chunk)(p);
  }

  lemma GroupOk(sorted: seq<Page>, chunks: map<nat, seq<Page>>, c: nat)
    requires (forall p | p in sorted :: Sound(p)) && Groups(sorted, chunks) && c in chunks && Tiled(chunks[c])
    ensures ChunkOk(c, chunks[c])
  {
    forall p | p in chunks[c] ensures Sound(p) && p.chunk == c {
      assert p in Filter(InChunk(c), sorted);
    }
  }

  method AllTiled(chunks: map<nat, seq<Page>>, order: seq<nat>) returns (ok: bool)
    requires (forall c | c in chunks :: chunks[c] != []) && forall c :: c in order <==> c in chunks
    ensures ok <==> forall c | c in chunks :: Tiled(chunks[c])
  {
    for i := 0 to |order|
      invariant forall k | 0 <= k < i :: order[k] in chunks && Tiled(chunks[order[k]])
    {
      assert order[i] in chunks;
      var fits := CheckTiled(chunks[order[i]]);
      if !fits { return false; }
    }
    return true;
  }

  // ---- address arithmetic ------------------------------------------------------

  function PageForVa(s: seq<Page>, va: int): Option<Page> {
    if s == [] then None
    else if s[0].va <= va < s[0].va + s[0].size then Some(s[0])
    else PageForVa(s[1..], va)
  }

  // The physical address of an offset into a chunk; None where the source throws.
  function PaOf(pool: Pool, chunk: nat, offset: int): Option<int> {
    if chunk !in pool.chunks || pool.chunks[chunk] == [] then None
    else
      var va := pool.chunks[chunk][0].va + offset;
      match PageForVa(pool.chunks[chunk], va)
      case None => None
      case Some(p) => Some(p.pa + (va - p.va))
  }

  // The offset of a page in its chunk.
  function OffsetOf(pool: Pool, p: Page): int
    requires p.chunk in pool.chunks && pool.chunks[p.chunk] != []
  {
    p.va - pool.chunks[p.chunk][0].va
  }

  // Inside a page, offsets and physical addresses advance together.
  lemma OffsetReachesPage(pool: Pool, p: Page, low: nat)
    requires Valid(pool) && Known(pool, p) && low < p.size
    ensures PaOf(pool, p.chunk, OffsetOf(pool, p) + low) == Some(p.pa + low)
  {
    var s := pool.chunks[p.chunk];
    assert ChunkOk(p.chunk, s);
    var k :| 0 <= k < |s| && s[k] == p;
    OnlyPageForVa(s, k, p.va + low);
  }

  lemma {:induction false} OnlyPageForVa(s: seq<Page>, k: nat, va: int)
    requires Tiled(s) && (forall p | p in s :: Sound(p)) && k < |s| && s[k].va <= va < s[k].va + s[k].size
    ensures PageForVa(s, va) == Some(s[k])
  {
    if k > 0 {
      Ascends(s, k);
      OnlyPageForVa(s[1..], k - 1, va);
    }
  }

  lemma {:induction false} Ascends(s: seq<Page>, k: nat)
    requires Tiled(s) && (forall p | p in s :: Sound(p)) && 0 < k < |s|
    ensures s[0].va + s[0].size <= s[k].va
  {
    assert s[k].va == s[k - 1].va + s[k - 1].size;
    if k > 1 {
      Ascends(s, k - 1);
      assert Sound(s[k - 1]);
    }
  }
}
