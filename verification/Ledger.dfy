// The page ledger of one allocation, from captured kernel events
// (`build_allocation_ledger` in tools/g2_observer/run_g2_tensorrt_probe.py).
module Ledger {
  import opened Outcomes
  import opened Bits
  import opened Words
  import opened Sorting

  // Captured rows with a map base; rows of other types are never looked at.
  datatype Event =
    | MapReturn(base: int, length: int, at: int, status: int)
    | FreeReturn(base: int, length: int, at: int)
    | PteHeader(base: int, length: int, at: int, status: int, queryOffset: int, querySize: int, mapOffset: int,
                complete: bool, written: int, remaining: int, pageSize: int)
    | PteEntry(base: int, at: int, queryOffset: int, querySize: int, index: int,
               valid: bool, video: bool, highWordZero: bool, physical: Option<nat>)

  datatype Failure =
    | MapCount | HeaderMissing | NonzeroStatus | NoFree | Outlived | Incomplete | PayloadCount | Unreported
    | BadPageSize | NonLocal | GapOrOverlap | WrongEnd | MappedLate

  // A page of the mapping clipped to the allocation.
  datatype Segment = Segment(pageVa: int, pageSize: int, start: int, end: int, physical: nat, header: Event)

  // ---- selection -------------------------------------------------------------------

  predicate Contains(e: Event, base: int, end: int)
    requires !e.PteEntry?
  {
    e.base <= base && e.base + e.length >= end
  }

  predicate IsMap(e: Event, base: int, end: int) { e.MapReturn? && Contains(e, base, end) }
  predicate IsHeader(e: Event, base: int, end: int) { e.PteHeader? && Contains(e, base, end) }
  predicate IsFree(e: Event, base: int, end: int) { e.FreeReturn? && Contains(e, base, end) }

  predicate SameQuery(e: Event, h: Event) {
    && e.PteEntry? && h.PteHeader?
    && e.at == h.at && e.base == h.base && e.queryOffset == h.queryOffset && e.querySize == h.querySize
  }

  // ---- tiling ------------------------------------------------------------------------

  predicate InSegment(s: Segment, v: int) { s.start <= v < s.end }

  function SegmentHolds(v: int): Segment -> int { (s: Segment) => if InSegment(s, v) then 1 else 0 }
  function SegmentLength(): Segment -> int { (s: Segment) => s.end - s.start }

  function CoverCount(s: seq<Segment>, v: int): int { Sum(SegmentHolds(v), s) }

  // Each segment starts where the one before it ends.
  predicate Tiles(s: seq<Segment>, base: int, end: int) {
    if s == [] then base == end
    else s[0].start == base && Tiles(s[1..], s[0].end, end)
  }

  // Every byte of the range in exactly one segment, no other byte in any.
  ghost predicate ExactCover(s: seq<Segment>, base: int, end: int) {
    forall v: int {:trigger CoverCount(s, v)} :: CoverCount(s, v) == if base <= v < end then 1 else 0
  }

  ghost predicate Nonempty(s: seq<Segment>) {
    forall i | 0 <= i < |s| :: s[i].start < s[i].end
  }

  predicate ByStart(x: Segment, y: Segment) { x.start < y.start }

  lemma {:induction false} TilesAscend(s: seq<Segment>, base: int, end: int)
    requires Tiles(s, base, end) && Nonempty(s)
    ensures base <= end && (s != [] ==> base < end)
  {
    if s != [] {
      NonemptyRest(s);
      TilesAscend(s[1..], s[0].end, end);
    }
  }

  lemma NonemptyRest(s: seq<Segment>)
    requires s != [] && Nonempty(s)
    ensures Nonempty(s[1..])
  {
  }

  lemma {:induction false} TilesCoverExactly(s: seq<Segment>, base: int, end: int)
    requires Tiles(s, base, end) && Nonempty(s)
    ensures ExactCover(s, base, end) && Sum(SegmentLength(), s) == end - base
  {
    if s != [] {
      NonemptyRest(s);
      TilesCoverExactly(s[1..], s[0].end, end);
      TilesAscend(s[1..], s[0].end, end);
      forall v: int ensures CoverCount(s, v) == if base <= v < end then 1 else 0 {
        assert CoverCount(s[1..], v) == if s[0].end <= v < end then 1 else 0;
      }
    }
  }

  // Sorted segments that cover the range exactly are in tiling order.
  lemma {:induction false} ExactCoverTiles(s: seq<Segment>, base: int, end: int)
    requires base <= end && ExactCover(s, base, end) && Nonempty(s) && SortedBy(ByStart, s)
    ensures Tiles(s, base, end)
  {
    if s == [] {
      assert CoverCount(s, base) == 0;
    } else {
      FirstIsAtBase(s, base, end);
      NonemptyRest(s);
      RestCovers(s, base, end);
      ExactCoverTiles(s[1..], s[0].end, end);
    }
  }

  lemma FirstIsAtBase(s: seq<Segment>, base: int, end: int)
    requires s != [] && base <= end && ExactCover(s, base, end) && Nonempty(s) && SortedBy(ByStart, s)
    ensures s[0].start == base && base < s[0].end <= end
  {
    HoldsIsPositive(s, 0, s[0].start);
    HoldsIsPositive(s, 0, s[0].end - 1);
    assert CoverCount(s, s[0].start) == 1 && CoverCount(s, s[0].end - 1) == 1 && CoverCount(s, base) == 1;
    if s[0].start > base {
      forall i | 0 <= i < |s| ensures SegmentHolds(base)(s[i]) == 0 {
        if i > 0 {
          assert !ByStart(s[i], s[0]);
        }
      }
      SumPositive(SegmentHolds(base), s);
    }
  }

  lemma HoldsIsPositive(s: seq<Segment>, i: nat, v: int)
    requires i < |s| && InSegment(s[i], v)
    ensures CoverCount(s, v) > 0
  {
    assert SegmentHolds(v)(s[i]) > 0;
    SumPositive(SegmentHolds(v), s);
  }

  lemma RestCovers(s: seq<Segment>, base: int, end: int)
    requires s != [] && ExactCover(s, base, end) && s[0].start == base && base < s[0].end <= end
    ensures ExactCover(s[1..], s[0].end, end)
    ensures SortedBy(ByStart, s) ==> SortedBy(ByStart, s[1..])
  {
    forall v: int ensures CoverCount(s[1..], v) == if s[0].end <= v < end then 1 else 0 {
      assert CoverCount(s, v) == if base <= v < end then 1 else 0;
    }
  }

  // The cursor loop. It reports nothing exactly when the sorted segments cover
  // every byte of the allocation once.
  method CheckTiling(segments: seq<Segment>, base: int, end: int) returns (failures: seq<Failure>)
    requires SortedBy(ByStart, segments) && Nonempty(segments)
    ensures failures == [] <==> Tiles(segments, base, end)
    ensures base <= end ==> (failures == [] <==> ExactCover(segments, base, end))
    ensures failures == [] ==> Sum(SegmentLength(), segments) == end - base
    ensures forall f | f in failures :: f == GapOrOverlap || f == WrongEnd
  {
    failures := [];
    var cursor := base;
    var i := 0;
    while i < |segments|
      invariant i <= |segments| && failures == []
      invariant Tiles(segments, base, end) <==> Tiles(segments[i..], cursor, end)
    {
      if segments[i].start != cursor {
        failures := [GapOrOverlap];
        break;
      }
      assert segments[i..][1..] == segments[i + 1..];
      cursor := segments[i].end;
      i := i + 1;
    }
    if cursor != end {
      failures := failures + [WrongEnd];
    }
    if Tiles(segments, base, end) {
      TilesCoverExactly(segments, base, end);
    }
    if base <= end && ExactCover(segments, base, end) {
      ExactCoverTiles(segments, base, end);
    }
  }

  // ---- collecting the segments -------------------------------------------------------

  // A power of two, as the bit trick tests it.
  predicate PowerOfTwo(n: int) {
    n > 0 && And(n, n - 1) == 0
  }

  // The bit test accepts exactly the powers of two.
  lemma PowerOfTwoIs(n: nat)
    ensures PowerOfTwo(n) <==> exists k: nat :: n == Pow2(k)
  {
    if PowerOfTwo(n) {
      AcceptedIsPower(n);
    }
    if k: nat :| n == Pow2(k) {
      PowerIsAccepted(k);
    }
  }

  lemma {:induction false} AcceptedIsPower(n: nat)
    requires PowerOfTwo(n)
    ensures exists k: nat :: n == Pow2(k)
  {
    if n == 1 {
      assert n == Pow2(0);
    } else if n % 2 == 1 {
      assert And(n, n - 1) / 2 == And(n / 2, (n - 1) / 2);
      assert (n - 1) / 2 == n / 2;
      AndSelf(n / 2);
    } else {
      assert (n - 1) / 2 == n / 2 - 1;
      assert And(n, n - 1) / 2 == And(n / 2, n / 2 - 1);
      AcceptedIsPower(n / 2);
      var k: nat :| n / 2 == Pow2(k);
      assert n == Pow2(k + 1);
    }
  }

  lemma {:induction false} PowerIsAccepted(k: nat)
    ensures PowerOfTwo(Pow2(k))
  {
    if k > 0 {
      PowerIsAccepted(k - 1);
      var n := Pow2(k);
      assert n / 2 == Pow2(k - 1) && (n - 1) / 2 == n / 2 - 1;
    }
  }

  lemma {:induction false} AndSelf(n: nat)
    ensures And(n, n) == n
  {
    if n > 0 {
      AndSelf(n / 2);
    }
  }

  predicate Local(e: Event) {
    e.PteEntry? && e.valid && e.video && e.highWordZero && e.physical.Some?
  }

  function PageVa(e: Event, h: Event): int
    requires e.PteEntry? && h.PteHeader?
  {
    h.base + h.queryOffset + e.index * h.pageSize - h.mapOffset
  }

  function Max(x: int, y: int): int { if x > y then x else y }
  function Min(x: int, y: int): int { if x < y then x else y }

  function Clip(e: Event, h: Event, base: int, end: int): Segment
    requires e.PteEntry? && h.PteHeader?
  {
    var page := PageVa(e, h);
    Segment(page, h.pageSize, Max(base, page), Min(end, page + h.pageSize),
            if e.physical.Some? then e.physical.value else 0, h)
  }

  // A header that may be used: complete, fully written, nothing left, with a
  // power-of-two page size.
  function HeaderComplaint(h: Event, entries: nat): seq<Failure>
    requires h.PteHeader?
  {
    if !h.complete then [Incomplete]
    else if entries != h.written then [PayloadCount]
    else if h.remaining != 0 then [Unreported]
    else if !PowerOfTwo(h.pageSize) then [BadPageSize]
    else []
  }

  // What a header reports.
  function EntryOf(h: Event): Event -> bool { (e: Event) => SameQuery(e, h) }

  function Entries(rows: seq<Event>, h: Event): seq<Event> { Filter(EntryOf(h), rows) }

  // The page of e lies at least partly in the allocation.
  predicate Meets(e: Event, h: Event, base: int, end: int) {
    SameQuery(e, h) && Clip(e, h, base, end).start < Clip(e, h, base, end).end
  }

  // The valid local pages among the entries, clipped to the allocation.
  function Pieces(entries: seq<Event>, h: Event, base: int, end: int): seq<Segment> {
    if entries == [] then []
    else
      var e := entries[|entries| - 1];
      Pieces(entries[..|entries| - 1], h, base, end)
      + if Meets(e, h, base, end) && Local(e) then [Clip(e, h, base, end)] else []
  }

  function HeaderPieces(rows: seq<Event>, h: Event, base: int, end: int): seq<Segment> {
    if h.PteHeader? && HeaderComplaint(h, |Entries(rows, h)|) == [] then Pieces(Entries(rows, h), h, base, end) else []
  }

  function AllPieces(rows: seq<Event>, headers: seq<Event>, base: int, end: int): seq<Segment> {
    if headers == [] then []
    else AllPieces(rows, headers[..|headers| - 1], base, end) + HeaderPieces(rows, headers[|headers| - 1], base, end)
  }

  // A header whose report can be used in full: every page of it that meets the
  // allocation is valid and local.
  ghost predicate Clean(rows: seq<Event>, h: Event, base: int, end: int) {
    && h.PteHeader? && HeaderComplaint(h, |Entries(rows, h)|) == []
    && forall e | e in rows && Meets(e, h, base, end) :: Local(e)
  }

  predicate IsCoverage(f: Failure) { f == GapOrOverlap || f == WrongEnd }

  // A coverage failure was reported.
  predicate HasCoverage(failures: seq<Failure>) {
    exists f :: f in failures && IsCoverage(f)
  }

  lemma HasCoverageIn(a: seq<Failure>, b: seq<Failure>)
    ensures HasCoverage(a + b) <==> HasCoverage(a) || HasCoverage(b)
  {
    if HasCoverage(a) {
      var f :| f in a && IsCoverage(f);
      assert f in a + b;
    }
    if HasCoverage(b) {
      var f :| f in b && IsCoverage(f);
      assert f in a + b;
    }
  }

  // The segments of one header.
  method SegmentsOf(rows: seq<Event>, h: Event, base: int, end: int)
    returns (segments: seq<Segment>, failures: seq<Failure>)
    requires h.PteHeader?
    ensures segments == HeaderPieces(rows, h, base, end)
    ensures failures == [] <==> Clean(rows, h, base, end)
    ensures !HasCoverage(failures)
  {
    segments := [];
    var entries := Entries(rows, h);
    failures := HeaderComplaint(h, |entries|);
    if failures != [] { return; }
    for i := 0 to |entries|
      invariant segments == Pieces(entries[..i], h, base, end)
      invariant failures == [] <==> forall e | e in entries[..i] && Meets(e, h, base, end) :: Local(e)
      invariant !HasCoverage(failures)
    {
      var e := entries[i];
      assert e in entries;
      assert entries[..i + 1] == entries[..i] + [e] && entries[..i + 1][..i] == entries[..i];
      var s := Clip(e, h, base, end);
      if s.start < s.end {
        if Local(e) {
          segments := segments + [s];
        } else {
          failures := failures + [NonLocal];
        }
      }
    }
    assert entries[..|entries|] == entries;
  }

  // The segments of all headers in order.
  method AllSegments(rows: seq<Event>, headers: seq<Event>, base: int, end: int)
    returns (segments: seq<Segment>, failures: seq<Failure>)
    requires forall h | h in headers :: h.PteHeader?
    ensures segments == AllPieces(rows, headers, base, end)
    ensures failures == [] <==> forall h | h in headers :: Clean(rows, h, base, end)
    ensures !HasCoverage(failures)
  {
    segments, failures := [], [];
    for i := 0 to |headers|
      invariant segments == AllPieces(rows, headers[..i], base, end)
      invariant failures == [] <==> forall h | h in headers[..i] :: Clean(rows, h, base, end)
      invariant !HasCoverage(failures)
    {
      assert headers[..i + 1] == headers[..i] + [headers[i]] && headers[..i + 1][..i] == headers[..i];
      assert headers[i] in headers;
      var more, wrong := SegmentsOf(rows, headers[i], base, end);
      segments := segments + more;
      failures := failures + wrong;
    }
    assert headers[..|headers|] == headers;
  }

  // ---- what the segments are -----------------------------------------------------------

  // A segment is a non-empty piece of the allocation inside one valid local page
  // that a header of the allocation reported.
  ghost predicate Grounded(s: Segment, rows: seq<Event>, base: int, end: int) {
    && s.start < s.end && base <= s.start && s.end <= end
    && s.pageVa <= s.start && s.end <= s.pageVa + s.pageSize && PowerOfTwo(s.pageSize)
    && s.header in rows && IsHeader(s.header, base, end) && s.pageSize == s.header.pageSize
    && exists e :: e in rows && SameQuery(e, s.header) && Local(e) && s.pageVa == PageVa(e, s.header)
                   && e.physical == Some(s.physical)
  }

  lemma {:induction false} PiecesAre(entries: seq<Event>, h: Event, base: int, end: int, s: Segment)
    ensures s in Pieces(entries, h, base, end) <==> exists e :: e in entries && IsPiece(e, h, base, end, s)
  {
    if entries != [] {
      var init, last := entries[..|entries| - 1], entries[|entries| - 1];
      PiecesAre(init, h, base, end, s);
      assert entries == init + [last];
      assert forall e :: e in entries <==> e in init || e == last;
      assert s in Pieces(entries, h, base, end) <==> s in Pieces(init, h, base, end) || IsPiece(last, h, base, end, s);
    }
  }

  // The segment is the clipped page of this entry.
  predicate IsPiece(e: Event, h: Event, base: int, end: int, s: Segment) {
    Meets(e, h, base, end) && Local(e) && s == Clip(e, h, base, end)
  }

  lemma HeaderPieceIsGrounded(rows: seq<Event>, h: Event, base: int, end: int, s: Segment)
    requires h in rows && IsHeader(h, base, end) && s in HeaderPieces(rows, h, base, end)
    ensures Grounded(s, rows, base, end)
  {
    PiecesAre(Entries(rows, h), h, base, end, s);
  }

  lemma {:induction false} PiecesAreGrounded(rows: seq<Event>, headers: seq<Event>, base: int, end: int)
    requires forall h | h in headers :: h in rows && IsHeader(h, base, end)
    ensures forall s | s in AllPieces(rows, headers, base, end) :: Grounded(s, rows, base, end)
  {
    if headers != [] {
      var n := |headers| - 1;
      assert headers[n] in headers;
      PiecesAreGrounded(rows, headers[..n], base, end);
      forall s | s in HeaderPieces(rows, headers[n], base, end) ensures Grounded(s, rows, base, end) {
        HeaderPieceIsGrounded(rows, headers[n], base, end, s);
      }
    }
  }

  lemma {:induction false} CleanPagesAreThere(rows: seq<Event>, headers: seq<Event>, base: int, end: int, h: Event,
                                              e: Event)
    requires h in headers && Clean(rows, h, base, end) && e in rows && Meets(e, h, base, end)
    ensures Clip(e, h, base, end) in AllPieces(rows, headers, base, end)
  {
    var n := |headers| - 1;
    if headers[n] == h {
      PiecesAre(Entries(rows, h), h, base, end, Clip(e, h, base, end));
    } else {
      CleanPagesAreThere(rows, headers[..n], base, end, h, e);
    }
  }

  // ---- the ledger --------------------------------------------------------------------

  function MapOf(base: int, end: int): Event -> bool { (e: Event) => IsMap(e, base, end) }
  function HeaderOf(base: int, end: int): Event -> bool { (e: Event) => IsHeader(e, base, end) }
  function FreeOf(base: int, end: int): Event -> bool { (e: Event) => IsFree(e, base, end) }

  function Maps(rows: seq<Event>, base: int, end: int): seq<Event> { Filter(MapOf(base, end), rows) }
  function Headers(rows: seq<Event>, base: int, end: int): seq<Event> { Filter(HeaderOf(base, end), rows) }
  function Frees(rows: seq<Event>, base: int, end: int): seq<Event> { Filter(FreeOf(base, end), rows) }

  // When the allocation was mapped: 0 if no mapping contains it.
  method EarliestMap(maps: seq<Event>) returns (at: int)
    requires forall e | e in maps :: e.MapReturn?
    ensures maps == [] ==> at == 0
    ensures maps != [] ==> (exists e :: e in maps && e.at == at) && forall e | e in maps :: at <= e.at
  {
    if maps == [] { return 0; }
    assert maps[0] in maps;
    at := maps[0].at;
    for i := 1 to |maps|
      invariant exists e :: e in maps && e.at == at
      invariant forall e | e in maps[..i] :: at <= e.at
    {
      assert maps[..i + 1] == maps[..i] + [maps[i]];
      assert maps[i] in maps;
      if maps[i].at < at {
        at := maps[i].at;
      }
    }
    assert maps[..|maps|] == maps;
  }

  method EarliestFree(frees: seq<Event>, mappedAt: int) returns (at: Option<int>)
    requires forall e | e in frees :: e.FreeReturn?
    ensures at.None? <==> forall e | e in frees :: e.at <= mappedAt
    ensures at.Some? ==> (exists e :: e in frees && e.at == at.value > mappedAt)
                         && forall e | e in frees && e.at > mappedAt :: at.value <= e.at
  {
    at := None;
    for i := 0 to |frees|
      invariant at.None? <==> forall e | e in frees[..i] :: e.at <= mappedAt
      invariant at.Some? ==> (exists e :: e in frees && e.at == at.value > mappedAt)
                             && forall e | e in frees[..i] && e.at > mappedAt :: at.value <= e.at
    {
      assert frees[..i + 1] == frees[..i] + [frees[i]];
      assert frees[i] in frees;
      if frees[i].at > mappedAt && (at.None? || frees[i].at < at.value) {
        at := Some(frees[i].at);
      }
    }
    assert frees[..|frees|] == frees;
  }

  // The mapping happened once, at `at`, and was undone in time.
  ghost predicate TimesOk(maps: seq<Event>, frees: seq<Event>, at: int, teardownEnd: int) {
    && |maps| == 1 && maps[0].MapReturn? && maps[0].status == 0 && maps[0].at == at
    && exists f :: f in frees && f.FreeReturn? && at < f.at <= teardownEnd
  }

  method CheckTimes(maps: seq<Event>, headers: seq<Event>, frees: seq<Event>, teardownEnd: int)
    returns (failures: seq<Failure>, mappedAt: int)
    requires (forall e | e in maps :: e.MapReturn?) && (forall e | e in headers :: e.PteHeader?)
    requires forall e | e in frees :: e.FreeReturn?
    ensures failures == [] <==> TimesOk(maps, frees, mappedAt, teardownEnd) && forall e | e in headers :: e.status == 0
    ensures |maps| == 1 ==> mappedAt == maps[0].at
    ensures !HasCoverage(failures)
  {
    failures := if |maps| != 1 then [MapCount] else [];
    if (exists e :: e in maps && e.status != 0) || (exists e :: e in headers && e.status != 0) {
      failures := failures + [NonzeroStatus];
    }
    mappedAt := EarliestMap(maps);
    var unmappedAt := EarliestFree(frees, mappedAt);
    if unmappedAt.None? {
      failures := failures + [NoFree];
    } else if unmappedAt.value > teardownEnd {
      failures := failures + [Outlived];
    }
    if |maps| == 1 {
      assert maps[0] in maps && forall e | e in maps :: e == maps[0];
    }
  }

  lemma StartOrder()
    ensures StrictWeakOrder(ByStart)
  {
  }

  // The pages of the headers in address order.
  method CheckPages(rows: seq<Event>, headers: seq<Event>, base: int, end: int)
    returns (segments: seq<Segment>, failures: seq<Failure>)
    requires base <= end && forall h | h in headers :: h in rows && IsHeader(h, base, end)
    ensures segments == SortBy(ByStart, AllPieces(rows, headers, base, end))
    ensures failures == [] <==> AllClean(rows, headers, base, end) && ExactCover(segments, base, end)
    ensures HasCoverage(failures) <==> !ExactCover(segments, base, end)
  {
    var found, wrong := AllSegments(rows, headers, base, end);
    segments := SortBy(ByStart, found);
    PiecesAreGrounded(rows, headers, base, end);
    SortKeepsElements(ByStart, found);
    StartOrder();
    SortIsSorted(ByStart, found);
    forall i | 0 <= i < |segments| ensures segments[i].start < segments[i].end {
      assert segments[i] in found;
    }
    var gaps := CheckTiling(segments, base, end);
    failures := wrong + gaps;
    HasCoverageIn(wrong, gaps);
    assert gaps != [] ==> gaps[0] in gaps;
  }

  // The clipped pages of all headers in address order.
  function SegmentsIn(rows: seq<Event>, base: int, end: int): seq<Segment> {
    SortBy(ByStart, AllPieces(rows, Headers(rows, base, end), base, end))
  }

  // What a ledger without failures stands for.
  ghost predicate Accepts(rows: seq<Event>, base: int, end: int, segments: seq<Segment>, allocatedAt: Option<int>,
                          teardownEnd: int) {
    && Headers(rows, base, end) != []
    && Accepted(rows, Maps(rows, base, end), Headers(rows, base, end), Frees(rows, base, end), base, end, segments,
                allocatedAt, teardownEnd)
  }

  ghost predicate Accepted(rows: seq<Event>, maps: seq<Event>, headers: seq<Event>, frees: seq<Event>, base: int,
                           end: int, segments: seq<Segment>, allocatedAt: Option<int>, teardownEnd: int) {
    && AllClean(rows, headers, base, end) && (forall h | h in headers :: h.PteHeader? && h.status == 0)
    && |maps| == 1 && maps[0].MapReturn? && TimesOk(maps, frees, maps[0].at, teardownEnd)
    && ExactCover(segments, base, end)
    && (segments != [] && allocatedAt.Some? ==> maps[0].at < allocatedAt.value)
  }

  ghost predicate AllClean(rows: seq<Event>, headers: seq<Event>, base: int, end: int) {
    forall h | h in headers :: Clean(rows, h, base, end)
  }

  method Join(rows: seq<Event>, maps: seq<Event>, headers: seq<Event>, frees: seq<Event>, base: int, end: int,
              allocatedAt: Option<int>, teardownEnd: int)
    returns (segments: seq<Segment>, failures: seq<Failure>)
    requires base <= end && headers != [] && forall h | h in headers :: h in rows && IsHeader(h, base, end)
    requires (forall e | e in maps :: e.MapReturn?) && (forall e | e in frees :: e.FreeReturn?)
    ensures segments == SortBy(ByStart, AllPieces(rows, headers, base, end))
    ensures failures == [] <==> Accepted(rows, maps, headers, frees, base, end, segments, allocatedAt, teardownEnd)
    ensures HasCoverage(failures) <==> !ExactCover(segments, base, end)
  {
    var mappedAt, wrong;
    failures, mappedAt := CheckTimes(maps, headers, frees, teardownEnd);
    segments, wrong := CheckPages(rows, headers, base, end);
    var late := if segments != [] && allocatedAt.Some? && mappedAt >= allocatedAt.value then [MappedLate] else [];
    HasCoverageIn(failures, wrong);
    HasCoverageIn(failures + wrong, late);
    failures := failures + wrong + late;
  }

  // There is no failure exactly when one mapping contains the allocation and was
  // freed in time, every header that contains it can be used in full, and the
  // clipped pages cover every byte of it once. A coverage failure is reported
  // exactly when they do not.
  ghost predicate IsLedger(rows: seq<Event>, base: int, end: int, allocatedAt: Option<int>, teardownEnd: int,
                           segments: seq<Segment>, failures: seq<Failure>) {
    && segments == SegmentsIn(rows, base, end)
    && (failures == [] <==> Accepts(rows, base, end, segments, allocatedAt, teardownEnd))
    && if Headers(rows, base, end) == [] then HeaderMissing in failures
       else HasCoverage(failures) <==> !ExactCover(segments, base, end)
  }

  // The allocation is [base, end).
  method BuildLedger(rows: seq<Event>, base: int, end: int, allocatedAt: Option<int>, teardownEnd: int)
    returns (segments: seq<Segment>, failures: seq<Failure>)
    requires base <= end
    ensures IsLedger(rows, base, end, allocatedAt, teardownEnd, segments, failures)
  {
    var maps, headers, frees := Maps(rows, base, end), Headers(rows, base, end), Frees(rows, base, end);
    if headers == [] {
      return [], (if |maps| != 1 then [MapCount] else []) + [HeaderMissing];
    }
    segments, failures := Join(rows, maps, headers, frees, base, end, allocatedAt, teardownEnd);
  }

  // The segments of a ledger without failures: in address order, their lengths
  // add up to the size, each lies within one valid local page, and no page that
  // meets the allocation is missing.
  lemma AcceptedPages(rows: seq<Event>, base: int, end: int, segments: seq<Segment>, allocatedAt: Option<int>,
                      teardownEnd: int)
    requires base <= end && segments == SegmentsIn(rows, base, end)
    requires Accepts(rows, base, end, segments, allocatedAt, teardownEnd)
    ensures SortedBy(ByStart, segments) && Sum(SegmentLength(), segments) == end - base
    ensures forall s | s in segments :: Grounded(s, rows, base, end)
    ensures forall h, e | h in rows && IsHeader(h, base, end) && e in rows && Meets(e, h, base, end) ::
              Local(e) && Clip(e, h, base, end) in segments
  {
    var headers := Headers(rows, base, end);
    var found := AllPieces(rows, headers, base, end);
    PiecesAreGrounded(rows, headers, base, end);
    SortKeepsElements(ByStart, found);
    StartOrder();
    SortIsSorted(ByStart, found);
    forall i | 0 <= i < |segments| ensures segments[i].start < segments[i].end {
      assert segments[i] in found;
    }
    ExactCoverTiles(segments, base, end);
    TilesCoverExactly(segments, base, end);
    forall h, e | h in rows && IsHeader(h, base, end) && e in rows && Meets(e, h, base, end)
      ensures Local(e) && Clip(e, h, base, end) in segments
    {
      CleanPagesAreThere(rows, headers, base, end, h, e);
    }
  }
}
