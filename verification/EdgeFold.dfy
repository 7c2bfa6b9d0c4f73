// Folding measured rows into one label per address pair
// (`load_edges` in tools/g3_probe/build_bank_table.py).
module EdgeFold {
  import opened Edges
  import opened Sorting

  type Key = (nat, nat)

  // One measured row: the run it came from, its label and its two addresses.
  datatype Row = Row(source: string, cls: Label, a: nat, b: nat)

  // Older sources, in falling priority, behind every table-build run.
  const OLD_SOURCES: seq<string> := ["reprobe", "pilot", "s3b", "s3"]

  function KeyOf(a: nat, b: nat): Key {
    if a < b then (a, b) else (b, a)
  }

  function Names(runs: seq<string>): seq<string> {
    runs + OLD_SOURCES
  }

  // A dictionary built from an enumerated list keeps the last index of a name.
  function LastIndex(names: seq<string>, source: string): (i: nat)
    requires source in names
    ensures i < |names| && names[i] == source
    ensures forall j | i < j < |names| :: names[j] != source
  {
    var last := |names| - 1;
    if names[last] == source then last
    else LastIndex(names[..last], source)
  }

  function Rank(runs: seq<string>, source: string): nat {
    if source in Names(runs) then LastIndex(Names(runs), source) else |Names(runs)|
  }

  function Fresher(runs: seq<string>): (Row, Row) -> bool {
    (x: Row, y: Row) => Rank(runs, x.source) < Rank(runs, y.source)
  }

  // ---- row selectors -----------------------------------------------------

  function OnKey(key: Key): Row -> bool {
    (r: Row) => KeyOf(r.a, r.b) == key
  }

  function DecidedOn(key: Key): Row -> bool {
    (r: Row) => KeyOf(r.a, r.b) == key && r.cls != Mid
  }

  function DecidedAt(runs: seq<string>, key: Key, rank: nat): Row -> bool {
    (r: Row) => KeyOf(r.a, r.b) == key && r.cls != Mid && Rank(runs, r.source) == rank
  }

  function LowOn(key: Key): Row -> bool {
    (r: Row) => KeyOf(r.a, r.b) == key && r.cls == Low
  }

  function DeepFrom(run: string, key: Key): Row -> bool {
    (r: Row) => KeyOf(r.a, r.b) == key && r.cls == Deep && r.source == run
  }

  // ---- what a fold must produce -----------------------------------------

  // The first decided label of a list, or Mid.
  function FirstDecided(rows: seq<Row>): Label {
    if rows == [] then Mid
    else if rows[0].cls != Mid then rows[0].cls
    else FirstDecided(rows[1..])
  }

  // The row whose label FirstDecided gives, or the first row if none is decided.
  function Origin(rows: seq<Row>): Row
    requires rows != []
  {
    if rows[0].cls != Mid || FirstDecided(rows[1..]) == Mid then rows[0] else Origin(rows[1..])
  }

  // No row of `key` ranks before `source`, or no decided one if there is any.
  ghost predicate IsSource(runs: seq<string>, rows: seq<Row>, key: Key, source: string) {
    if Filter(DecidedOn(key), rows) != [] then TrustedRank(runs, rows, key, Rank(runs, source))
    else forall r | r in Filter(OnKey(key), rows) :: Rank(runs, source) <= Rank(runs, r.source)
  }

  // `cls` is that of the earliest row among the most trusted decided rows
  // of `key`, or Mid when no row of `key` is decided.
  ghost predicate IsVerdict(runs: seq<string>, rows: seq<Row>, key: Key, cls: Label) {
    if Filter(DecidedOn(key), rows) == [] then cls == Mid
    else exists rank: nat :: TrustedRank(runs, rows, key, rank)
                             && cls == Filter(DecidedAt(runs, key, rank), rows)[0].cls
  }

  // No decided row of `key` ranks before `rank`, and some row has that rank.
  ghost predicate TrustedRank(runs: seq<string>, rows: seq<Row>, key: Key, rank: nat) {
    && (forall r | r in rows && DecidedOn(key)(r) :: rank <= Rank(runs, r.source))
    && Filter(DecidedAt(runs, key, rank), rows) != []
  }

  // A verdict is Mid exactly when no row of the pair is decided; otherwise it
  // is the label of a decided row no other decided row ranks before.
  lemma VerdictRow(runs: seq<string>, rows: seq<Row>, key: Key, cls: Label) returns (best: Row)
    requires IsVerdict(runs, rows, key, cls)
    ensures cls == Mid <==> forall r | r in rows :: !DecidedOn(key)(r)
    ensures cls != Mid ==> best in rows && DecidedOn(key)(best) && best.cls == cls
    ensures cls != Mid ==> forall r | r in rows && DecidedOn(key)(r) :: Rank(runs, best.source) <= Rank(runs, r.source)
  {
    best := Row("", Mid, 0, 0);
    NonemptyFilter(DecidedOn(key), rows);
    if Filter(DecidedOn(key), rows) != [] {
      var rank: nat :| TrustedRank(runs, rows, key, rank)
                       && cls == Filter(DecidedAt(runs, key, rank), rows)[0].cls;
      best := Filter(DecidedAt(runs, key, rank), rows)[0];
      assert best in Filter(DecidedAt(runs, key, rank), rows);
    }
  }

  lemma OnKeySnoc(rows: seq<Row>, row: Row, key: Key)
    ensures Filter(OnKey(key), rows + [row]) ==
            if KeyOf(row.a, row.b) == key then Filter(OnKey(key), rows) + [row] else Filter(OnKey(key), rows)
  {
    FilterAppend(OnKey(key), rows, [row]);
  }

  // ---- the fold itself ----------------------------------------------------

  ghost predicate FoldOf(edges: map<Key, (Label, string)>, rows: seq<Row>) {
    && (forall key :: key in edges <==> key.0 < key.1 && Filter(OnKey(key), rows) != [])
    && (forall key | key in edges :: edges[key] == Stored(Filter(OnKey(key), rows)))
  }

  function Stored(rows: seq<Row>): (Label, string)
    requires rows != []
  {
    (FirstDecided(rows), Origin(rows).source)
  }

  lemma {:induction false} StoredAppend(s: seq<Row>, row: Row)
    ensures Stored(s + [row]) ==
            if s != [] && (FirstDecided(s) != Mid || row.cls == Mid) then Stored(s) else (row.cls, row.source)
  {
    if s == [] {
      assert s + [row] == [row];
    } else {
      assert (s + [row])[0] == s[0] && (s + [row])[1..] == s[1..] + [row];
      StoredAppend(s[1..], row);
      assert Origin(s + [row]) ==
             if s[0].cls != Mid || FirstDecided(s[1..] + [row]) == Mid then s[0] else Origin(s[1..] + [row]);
    }
  }

  // What one row does to the stored labels.
  function FoldNext(edges: map<Key, (Label, string)>, row: Row): map<Key, (Label, string)> {
    var key := KeyOf(row.a, row.b);
    if row.a != row.b && (key !in edges || (edges[key].0 == Mid && row.cls != Mid))
    then edges[key := (row.cls, row.source)] else edges
  }

  lemma FoldStep(edges: map<Key, (Label, string)>, rows: seq<Row>, row: Row)
    requires FoldOf(edges, rows)
    ensures FoldOf(FoldNext(edges, row), rows + [row])
  {
    var mine, next := KeyOf(row.a, row.b), FoldNext(edges, row);
    forall key
      ensures key in next <==> key.0 < key.1 && Filter(OnKey(key), rows + [row]) != []
      ensures key in next ==> next[key] == Stored(Filter(OnKey(key), rows + [row]))
    {
      OnKeySnoc(rows, row, key);
      if key == mine {
        StoredAppend(Filter(OnKey(key), rows), row);
      }
    }
  }

  // Rows sorted by rank, first row of a pair stored, an undecided label
  // replaced by the next decided one.
  method Fold(runs: seq<string>, rows: seq<Row>) returns (edges: map<Key, (Label, string)>)
    requires forall r | r in rows :: r.source in Names(runs)
    ensures forall key :: key in edges <==> key.0 < key.1 && Filter(OnKey(key), rows) != []
    ensures forall key | key in edges ::
            IsVerdict(runs, rows, key, edges[key].0) && IsSource(runs, rows, key, edges[key].1)
  {
    var sorted := SortBy(Fresher(runs), rows);
    edges := map[];
    for i := 0 to |sorted|
      invariant FoldOf(edges, sorted[..i])
    {
      var row := sorted[i];
      FoldStep(edges, sorted[..i], row);
      assert sorted[..i + 1] == sorted[..i] + [row];
      if row.a != row.b {
        var key := KeyOf(row.a, row.b);
        if key !in edges {
          edges := edges[key := (row.cls, row.source)];
        } else if edges[key].0 != row.cls {
          if edges[key].0 == Mid && row.cls != Mid {
            edges := edges[key := (row.cls, row.source)];
          }
        }
      }
    }
    assert sorted[..|sorted|] == sorted;
    FoldedIsVerdict(runs, rows, edges);
  }

  // Folding the rows in rank order stores verdicts, with their sources.
  lemma FoldedIsVerdict(runs: seq<string>, rows: seq<Row>, edges: map<Key, (Label, string)>)
    requires FoldOf(edges, SortBy(Fresher(runs), rows))
    ensures forall key :: key in edges <==> key.0 < key.1 && Filter(OnKey(key), rows) != []
    ensures forall key | key in edges ::
            IsVerdict(runs, rows, key, edges[key].0) && IsSource(runs, rows, key, edges[key].1)
  {
    var sorted := SortBy(Fresher(runs), rows);
    forall key ensures Filter(OnKey(key), sorted) != [] <==> Filter(OnKey(key), rows) != [] {
      SortKeepsElements(Fresher(runs), rows);
      NonemptyFilter(OnKey(key), sorted);
      NonemptyFilter(OnKey(key), rows);
    }
    forall key | key in edges
      ensures IsVerdict(runs, rows, key, edges[key].0) && IsSource(runs, rows, key, edges[key].1)
    {
      SortedFirstIsVerdict(runs, rows, key);
      SortedOriginIsSource(runs, rows, key);
    }
  }

  lemma NonemptyFilter(p: Row -> bool, rows: seq<Row>)
    ensures Filter(p, rows) != [] <==> exists r :: r in rows && p(r)
  {
    var f := Filter(p, rows);
    if f != [] {
      assert f[0] in f;
    }
    if r :| r in rows && p(r) {
      assert r in f;
    }
  }

  // In a list sorted by rank, the first decided row has the least rank of all
  // decided rows, and stability makes it the earliest of them.
  lemma SortedFirstIsVerdict(runs: seq<string>, rows: seq<Row>, key: Key)
    ensures IsVerdict(runs, rows, key, FirstDecided(Filter(OnKey(key), SortBy(Fresher(runs), rows))))
  {
    var less := Fresher(runs);
    var sorted := SortBy(less, rows);
    SortKeepsElements(less, rows);
    SortIsSorted(less, rows);
    FirstDecidedIsFirst(key, sorted);
    var decided := Filter(DecidedOn(key), sorted);
    if decided == [] {
      NonemptyFilter(DecidedOn(key), sorted);
      NonemptyFilter(DecidedOn(key), rows);
    } else {
      var rank := Rank(runs, decided[0].source);
      NonemptyFilter(DecidedOn(key), sorted);
      NonemptyFilter(DecidedOn(key), rows);
      FirstHasLeastRank(runs, key, sorted);
      FirstOfFiner(DecidedOn(key), DecidedAt(runs, key, rank), sorted);
      SortIsStable(less, DecidedAt(runs, key, rank), rows);
      assert Filter(DecidedAt(runs, key, rank), rows)[0] == decided[0];
    }
  }

  lemma SortedOriginIsSource(runs: seq<string>, rows: seq<Row>, key: Key)
    requires Filter(OnKey(key), SortBy(Fresher(runs), rows)) != []
    ensures IsSource(runs, rows, key, Origin(Filter(OnKey(key), SortBy(Fresher(runs), rows))).source)
  {
    var sorted := SortBy(Fresher(runs), rows);
    SortKeepsElements(Fresher(runs), rows);
    SortIsSorted(Fresher(runs), rows);
    FirstDecidedIsFirst(key, sorted);
    NonemptyFilter(DecidedOn(key), sorted);
    NonemptyFilter(DecidedOn(key), rows);
    if Filter(DecidedOn(key), rows) == [] {
      FirstRanksFirst(runs, key, sorted);
    } else {
      OriginIsFirst(key, sorted);
      FirstHasLeastRank(runs, key, sorted);
      var best := Filter(DecidedOn(key), sorted)[0];
      assert best in Filter(DecidedOn(key), sorted);
      NonemptyFilter(DecidedAt(runs, key, Rank(runs, best.source)), rows);
    }
  }

  lemma {:induction false} OriginIsFirst(key: Key, rows: seq<Row>)
    requires Filter(DecidedOn(key), rows) != []
    ensures Filter(OnKey(key), rows) != []
    ensures Origin(Filter(OnKey(key), rows)) == Filter(DecidedOn(key), rows)[0]
  {
    FirstDecidedIsFirst(key, rows);
    var best := Filter(DecidedOn(key), rows)[0];
    assert best in Filter(DecidedOn(key), rows);
    assert best in Filter(OnKey(key), rows);
    if !DecidedOn(key)(rows[0]) {
      OriginIsFirst(key, rows[1..]);
      FirstDecidedIsFirst(key, rows[1..]);
    }
  }

  lemma {:induction false} FirstRanksFirst(runs: seq<string>, key: Key, rows: seq<Row>)
    requires SortedBy(Fresher(runs), rows) && Filter(OnKey(key), rows) != []
    ensures forall r | r in rows && OnKey(key)(r) ::
            Rank(runs, Filter(OnKey(key), rows)[0].source) <= Rank(runs, r.source)
  {
    if OnKey(key)(rows[0]) {
      forall r | r in rows && OnKey(key)(r) ensures Rank(runs, rows[0].source) <= Rank(runs, r.source) {
        var k :| 0 <= k < |rows| && rows[k] == r;
        assert k > 0 ==> !Fresher(runs)(rows[k], rows[0]);
      }
    } else {
      FirstRanksFirst(runs, key, rows[1..]);
    }
  }

  lemma {:induction false} FirstDecidedIsFirst(key: Key, rows: seq<Row>)
    ensures var decided := Filter(DecidedOn(key), rows);
            FirstDecided(Filter(OnKey(key), rows)) == if decided == [] then Mid else decided[0].cls
  {
    if rows != [] {
      FirstDecidedIsFirst(key, rows[1..]);
      FilterAppend(OnKey(key), [rows[0]], rows[1..]);
      assert rows == [rows[0]] + rows[1..];
    }
  }

  lemma {:induction false} FirstHasLeastRank(runs: seq<string>, key: Key, rows: seq<Row>)
    requires SortedBy(Fresher(runs), rows)
    requires Filter(DecidedOn(key), rows) != []
    ensures forall r | r in rows && DecidedOn(key)(r) ::
              Rank(runs, Filter(DecidedOn(key), rows)[0].source) <= Rank(runs, r.source)
  {
    if DecidedOn(key)(rows[0]) {
      forall r | r in rows && DecidedOn(key)(r)
        ensures Rank(runs, rows[0].source) <= Rank(runs, r.source)
      {
        var k :| 0 <= k < |rows| && rows[k] == r;
        assert k > 0 ==> !Fresher(runs)(rows[k], rows[0]);
      }
    } else {
      FirstHasLeastRank(runs, key, rows[1..]);
    }
  }

  // A finer selector that keeps the first selected row selects it first too.
  lemma {:induction false} FirstOfFiner(p: Row -> bool, q: Row -> bool, rows: seq<Row>)
    requires forall r | q(r) :: p(r)
    requires Filter(p, rows) != [] && q(Filter(p, rows)[0])
    ensures Filter(q, rows) != [] && Filter(q, rows)[0] == Filter(p, rows)[0]
  {
    if !p(rows[0]) {
      FirstOfFiner(p, q, rows[1..]);
    }
  }

  // ---- contests between table-build runs ---------------------------------

  // Every low row of a pair is a vote, whatever its source.
  function LowVotes(rows: seq<Row>, key: Key): nat {
    |Filter(LowOn(key), rows)|
  }

  // A run votes deep once, however many deep rows it has for the pair.
  function DeepRuns(runs: seq<string>, rows: seq<Row>, key: Key): set<string> {
    set run | run in runs && Filter(DeepFrom(run, key), rows) != []
  }

  predicate Contested(runs: seq<string>, rows: seq<Row>, key: Key) {
    DeepRuns(runs, rows, key) != {} && LowVotes(rows, key) > 0
  }

  function Winner(runs: seq<string>, rows: seq<Row>, key: Key): Label {
    ByVotes(|DeepRuns(runs, rows, key)|, LowVotes(rows, key))
  }

  // Decided rows of the contesting runs leave; everything else stays.
  function KeptRow(runs: seq<string>, contested: set<Key>): Row -> bool {
    (r: Row) => !(r.source in runs && (r.cls == Deep || r.cls == Low) && KeyOf(r.a, r.b) in contested)
  }

  // Table-build runs are named after their directory, behind a fixed prefix.
  predicate RunNames(runs: seq<string>) {
    forall run | run in runs :: |run| >= 3 && run[..3] == "t1:"
  }

  ghost predicate IsFreshest(runs: seq<string>, run: string) {
    run in runs && forall other | other in runs :: Rank(runs, run) <= Rank(runs, other)
  }

  // The rows the fold sees for one pair, once contests are resolved.
  function ResolvedRows(runs: seq<string>, rows: seq<Row>, key: Key, freshest: string): seq<Row> {
    if Contested(runs, rows, key) then
      Filter(KeptRow(runs, {key}), rows) + [Row(freshest, Winner(runs, rows, key), key.0, key.1)]
    else rows
  }

  ghost predicate DeepSetsOf(runs: seq<string>, rows: seq<Row>, deepSets: map<string, set<Key>>) {
    && deepSets.Keys == (set run | run in runs)
    && forall run, key | run in deepSets ::
         key in deepSets[run] <==> Filter(DeepFrom(run, key), rows) != []
  }

  lemma DeepSetsStep(runs: seq<string>, rows: seq<Row>, deepSets: map<string, set<Key>>, r: Row)
    requires DeepSetsOf(runs, rows, deepSets)
    ensures r.source in deepSets && r.cls == Deep ==>
              DeepSetsOf(runs, rows + [r], deepSets[r.source := deepSets[r.source] + {KeyOf(r.a, r.b)}])
    ensures !(r.source in deepSets && r.cls == Deep) ==> DeepSetsOf(runs, rows + [r], deepSets)
  {
    forall run, key
      ensures Filter(DeepFrom(run, key), rows + [r]) ==
              Filter(DeepFrom(run, key), rows) + (if DeepFrom(run, key)(r) then [r] else [])
    {
      FilterAppend(DeepFrom(run, key), rows, [r]);
    }
  }

  method CollectDeep(runs: seq<string>, rows: seq<Row>) returns (deepSets: map<string, set<Key>>)
    ensures DeepSetsOf(runs, rows, deepSets)
  {
    deepSets := map run | run in runs :: {};
    for i := 0 to |rows|
      invariant DeepSetsOf(runs, rows[..i], deepSets)
    {
      var r := rows[i];
      DeepSetsStep(runs, rows[..i], deepSets, r);
      assert rows[..i + 1] == rows[..i] + [r];
      if r.source in deepSets && r.cls == Deep {
        deepSets := deepSets[r.source := deepSets[r.source] + {KeyOf(r.a, r.b)}];
      }
    }
    assert rows[..|rows|] == rows;
  }

  ghost predicate LowTally(rows: seq<Row>, lows: map<Key, nat>) {
    forall key | key in lows :: lows[key] == LowVotes(rows, key)
  }

  lemma LowTallyStep(rows: seq<Row>, lows: map<Key, nat>, r: Row)
    requires LowTally(rows, lows)
    ensures var mine := KeyOf(r.a, r.b);
            LowTally(rows + [r], if r.cls == Low && mine in lows then lows[mine := lows[mine] + 1] else lows)
  {
    forall key
      ensures LowVotes(rows + [r], key) == LowVotes(rows, key) + if LowOn(key)(r) then 1 else 0
    {
      FilterAppend(LowOn(key), rows, [r]);
    }
  }

  // Low votes, for the pairs some run read deep.
  method CountLows(rows: seq<Row>, keys: set<Key>) returns (lows: map<Key, nat>)
    ensures lows.Keys == keys && LowTally(rows, lows)
  {
    lows := map key | key in keys :: 0;
    for i := 0 to |rows|
      invariant lows.Keys == keys && LowTally(rows[..i], lows)
    {
      var r := rows[i];
      LowTallyStep(rows[..i], lows, r);
      assert rows[..i + 1] == rows[..i] + [r];
      var key := KeyOf(r.a, r.b);
      if r.cls == Low && key in lows {
        lows := lows[key := lows[key] + 1];
      }
    }
    assert rows[..|rows|] == rows;
  }

  function Voters(deepSets: map<string, set<Key>>, key: Key): set<string> {
    set run | run in deepSets && key in deepSets[run]
  }

  lemma VotersAreDeepRuns(runs: seq<string>, rows: seq<Row>, deepSets: map<string, set<Key>>, key: Key)
    requires DeepSetsOf(runs, rows, deepSets)
    ensures Voters(deepSets, key) == DeepRuns(runs, rows, key)
  {
  }

  ghost predicate AreContests(runs: seq<string>, rows: seq<Row>, contested: map<Key, Label>) {
    && (forall key :: key in contested <==> Contested(runs, rows, key))
    && (forall key | key in contested :: contested[key] == Winner(runs, rows, key))
  }

  function ByVotes(deeps: nat, lows: nat): Label {
    if deeps > lows then Deep else if lows > deeps then Low else Mid
  }

  // Vote counting: one verdict per pair read deep by some run and low by some row.
  method Contests(runs: seq<string>, rows: seq<Row>) returns (contested: map<Key, Label>)
    ensures AreContests(runs, rows, contested)
  {
    var deepSets := CollectDeep(runs, rows);
    var anyDeep := set run, key | run in deepSets && key in deepSets[run] :: key;
    var lows := CountLows(rows, anyDeep);
    contested := map key | key in lows && lows[key] > 0 :: ByVotes(|Voters(deepSets, key)|, lows[key]);
    forall key
      ensures key in contested <==> Contested(runs, rows, key)
      ensures key in contested ==> contested[key] == Winner(runs, rows, key)
    {
      ContestOfVotes(runs, rows, deepSets, lows, key);
    }
  }

  lemma ContestOfVotes(runs: seq<string>, rows: seq<Row>, deepSets: map<string, set<Key>>, lows: map<Key, nat>,
                       key: Key)
    requires DeepSetsOf(runs, rows, deepSets) && LowTally(rows, lows)
    requires lows.Keys == set run, key | run in deepSets && key in deepSets[run] :: key
    ensures Contested(runs, rows, key) <==> key in lows && lows[key] > 0
    ensures key in lows ==> Winner(runs, rows, key) == ByVotes(|Voters(deepSets, key)|, lows[key])
  {
    VotersAreDeepRuns(runs, rows, deepSets, key);
    if run :| run in Voters(deepSets, key) {
      assert key in deepSets[run];
    }
    if key in lows {
      var run :| run in deepSets && key in deepSets[run];
      assert run in Voters(deepSets, key);
    }
  }

  method FreshestRun(runs: seq<string>) returns (run: string)
    requires runs != []
    ensures IsFreshest(runs, run)
  {
    run := runs[0];
    for i := 1 to |runs|
      invariant run in runs
      invariant forall j | 0 <= j < i :: Rank(runs, run) <= Rank(runs, runs[j])
    {
      if Rank(runs, runs[i]) < Rank(runs, run) {
        run := runs[i];
      }
    }
  }

  method Resolve(runs: seq<string>, rows: seq<Row>) returns (resolved: seq<Row>, ghost freshest: string)
    requires forall r | r in rows :: r.source in Names(runs)
    ensures forall r | r in resolved :: r.source in Names(runs)
    ensures runs != [] ==> IsFreshest(runs, freshest)
    ensures forall key :: Filter(OnKey(key), resolved) ==
                          Filter(OnKey(key), ResolvedRows(runs, rows, key, freshest))
  {
    var contested := Contests(runs, rows);
    var first := "";
    if runs != [] {
      first := FreshestRun(runs);
    }
    freshest := first;
    if contested.Keys == {} {
      resolved := rows;
      forall key ensures ResolvedRows(runs, rows, key, freshest) == rows {
        assert key !in contested.Keys;
      }
    } else {
      ContestsNeedRuns(runs, rows, contested);
      resolved := ReplaceContested(runs, rows, contested, first);
    }
  }

  lemma ContestsNeedRuns(runs: seq<string>, rows: seq<Row>, contested: map<Key, Label>)
    requires AreContests(runs, rows, contested) && contested.Keys != {}
    ensures runs != []
  {
    var key :| key in contested.Keys;
    assert Contested(runs, rows, key);
  }

  method ReplaceContested(runs: seq<string>, rows: seq<Row>, contested: map<Key, Label>, freshest: string)
    returns (resolved: seq<Row>)
    requires AreContests(runs, rows, contested)
    ensures forall r | r in resolved :: r in rows || r.source == freshest
    ensures forall key :: Filter(OnKey(key), resolved) ==
                          Filter(OnKey(key), ResolvedRows(runs, rows, key, freshest))
  {
    var kept := Filter(KeptRow(runs, contested.Keys), rows);
    forall key | key in contested ensures key.0 <= key.1 {
      ContestedKeyIsOrdered(runs, rows, key);
    }
    resolved := AppendWinners(kept, contested, freshest);
    forall key
      ensures Filter(OnKey(key), resolved) == Filter(OnKey(key), ResolvedRows(runs, rows, key, freshest))
    {
      ResolvedOnKey(runs, rows, contested, resolved, key, freshest);
    }
  }

  lemma ResolvedOnKey(runs: seq<string>, rows: seq<Row>, contested: map<Key, Label>, resolved: seq<Row>, key: Key,
                      freshest: string)
    requires AreContests(runs, rows, contested)
    requires WithWinners(Filter(KeptRow(runs, contested.Keys), rows), contested, freshest, contested.Keys, resolved)
    ensures Filter(OnKey(key), resolved) == Filter(OnKey(key), ResolvedRows(runs, rows, key, freshest))
  {
    KeptOnKey(runs, contested.Keys, rows, key);
    assert WinnerAdded(Filter(KeptRow(runs, contested.Keys), rows), contested, freshest, contested.Keys, resolved, key);
    if key in contested {
      AppendedOnKey(runs, rows, key, freshest);
    }
  }

  lemma AppendedOnKey(runs: seq<string>, rows: seq<Row>, key: Key, freshest: string)
    requires Contested(runs, rows, key)
    ensures Filter(OnKey(key), ResolvedRows(runs, rows, key, freshest)) ==
            Filter(OnKey(key), Filter(KeptRow(runs, {key}), rows))
              + [Row(freshest, Winner(runs, rows, key), key.0, key.1)]
  {
    ContestedKeyIsOrdered(runs, rows, key);
    FilterAppend(OnKey(key), Filter(KeptRow(runs, {key}), rows),
      [Row(freshest, Winner(runs, rows, key), key.0, key.1)]);
  }

  // The rows of one pair after some contests were decided.
  ghost predicate WinnerAdded(kept: seq<Row>, contested: map<Key, Label>, freshest: string, done: set<Key>,
                              rows: seq<Row>, key: Key)
    requires done <= contested.Keys
  {
    Filter(OnKey(key), rows) ==
      if key in done then Filter(OnKey(key), kept) + [Row(freshest, contested[key], key.0, key.1)]
      else Filter(OnKey(key), kept)
  }

  ghost predicate WithWinners(kept: seq<Row>, contested: map<Key, Label>, freshest: string, done: set<Key>,
                              rows: seq<Row>)
    requires done <= contested.Keys
  {
    forall key :: WinnerAdded(kept, contested, freshest, done, rows, key)
  }

  // One row per contested pair, from the freshest run.
  method AppendWinners(kept: seq<Row>, contested: map<Key, Label>, freshest: string) returns (resolved: seq<Row>)
    requires forall key | key in contested :: key.0 <= key.1
    ensures forall r | r in resolved :: r in kept || r.source == freshest
    ensures WithWinners(kept, contested, freshest, contested.Keys, resolved)
  {
    resolved := kept;
    var todo := contested.Keys;
    ghost var done := {};
    while todo != {}
      invariant done !! todo && done + todo == contested.Keys
      invariant forall r | r in resolved :: r in kept || r.source == freshest
      invariant WithWinners(kept, contested, freshest, done, resolved)
      decreases todo
    {
      var key :| key in todo;
      WinnerStep(kept, contested, freshest, done, resolved, key);
      resolved := resolved + [Row(freshest, contested[key], key.0, key.1)];
      done, todo := done + {key}, todo - {key};
    }
  }

  lemma WinnerStep(kept: seq<Row>, contested: map<Key, Label>, freshest: string, done: set<Key>, rows: seq<Row>,
                   key: Key)
    requires done <= contested.Keys && key in contested && key !in done && key.0 <= key.1
    requires WithWinners(kept, contested, freshest, done, rows)
    ensures WithWinners(kept, contested, freshest, done + {key}, rows + [Row(freshest, contested[key], key.0, key.1)])
  {
    var row := Row(freshest, contested[key], key.0, key.1);
    forall k ensures WinnerAdded(kept, contested, freshest, done + {key}, rows + [row], k) {
      assert WinnerAdded(kept, contested, freshest, done, rows, k);
      OnKeySnoc(rows, row, k);
    }
  }

  lemma ContestedKeyIsOrdered(runs: seq<string>, rows: seq<Row>, key: Key)
    requires Contested(runs, rows, key)
    ensures key.0 <= key.1
  {
    var lows := Filter(LowOn(key), rows);
    assert lows[0] in lows;
  }

  // Removing rows of other contested pairs does not touch the rows of `key`.
  lemma {:induction false} KeptOnKey(runs: seq<string>, contested: set<Key>, rows: seq<Row>, key: Key)
    ensures Filter(OnKey(key), Filter(KeptRow(runs, contested), rows)) ==
            if key in contested then Filter(OnKey(key), Filter(KeptRow(runs, {key}), rows))
            else Filter(OnKey(key), rows)
  {
    if rows != [] {
      KeptOnKey(runs, contested, rows[1..], key);
    }
  }

  // The whole of `load_edges` after parsing.
  method LoadEdges(runs: seq<string>, rows: seq<Row>) returns (edges: map<Key, (Label, string)>, ghost freshest: string)
    requires forall r | r in rows :: r.source in Names(runs)
    ensures runs != [] ==> IsFreshest(runs, freshest)
    ensures forall key :: key in edges <==> key.0 < key.1 && Filter(OnKey(key), rows) != []
    ensures forall key | key in edges ::
              && IsVerdict(runs, ResolvedRows(runs, rows, key, freshest), key, edges[key].0)
              && IsSource(runs, ResolvedRows(runs, rows, key, freshest), key, edges[key].1)
  {
    var resolved;
    resolved, freshest := Resolve(runs, rows);
    edges := Fold(runs, resolved);
    forall key ensures Filter(OnKey(key), resolved) != [] <==> Filter(OnKey(key), rows) != [] {
      ResolvingKeepsPairs(runs, rows, key, freshest);
    }
    forall key | key in edges
      ensures IsVerdict(runs, ResolvedRows(runs, rows, key, freshest), key, edges[key].0)
      ensures IsSource(runs, ResolvedRows(runs, rows, key, freshest), key, edges[key].1)
    {
      VerdictDependsOnKeyRows(runs, resolved, ResolvedRows(runs, rows, key, freshest), key, edges[key].0);
      SourceDependsOnKeyRows(runs, resolved, ResolvedRows(runs, rows, key, freshest), key, edges[key].1);
    }
  }

  lemma ResolvingKeepsPairs(runs: seq<string>, rows: seq<Row>, key: Key, freshest: string)
    ensures Filter(OnKey(key), ResolvedRows(runs, rows, key, freshest)) != [] <==> Filter(OnKey(key), rows) != []
  {
    if Contested(runs, rows, key) {
      var deep, low := ContestWitnesses(runs, rows, key);
      FilterHolds(OnKey(key), rows, low);
      ResolvedDecided(runs, rows, key, freshest);
      FilterHolds(OnKey(key), ResolvedRows(runs, rows, key, freshest),
                  Row(freshest, Winner(runs, rows, key), key.0, key.1));
    }
  }

  lemma FilterHolds(p: Row -> bool, rows: seq<Row>, r: Row)
    requires r in rows && p(r)
    ensures Filter(p, rows) != []
  {
    assert r in Filter(p, rows);
  }

  lemma {:induction false} FilterTwice(p: Row -> bool, q: Row -> bool, rows: seq<Row>)
    requires forall r | q(r) :: p(r)
    ensures Filter(q, Filter(p, rows)) == Filter(q, rows)
  {
    if rows != [] {
      FilterTwice(p, q, rows[1..]);
    }
  }

  lemma VerdictDependsOnKeyRows(runs: seq<string>, rows: seq<Row>, others: seq<Row>, key: Key, cls: Label)
    requires Filter(OnKey(key), rows) == Filter(OnKey(key), others)
    requires IsVerdict(runs, rows, key, cls)
    ensures IsVerdict(runs, others, key, cls)
  {
    FilterTwice(OnKey(key), DecidedOn(key), rows);
    FilterTwice(OnKey(key), DecidedOn(key), others);
    if Filter(DecidedOn(key), rows) != [] {
      var rank: nat :| TrustedRank(runs, rows, key, rank)
                       && cls == Filter(DecidedAt(runs, key, rank), rows)[0].cls;
      FilterTwice(OnKey(key), DecidedAt(runs, key, rank), rows);
      FilterTwice(OnKey(key), DecidedAt(runs, key, rank), others);
      forall r | r in others && DecidedOn(key)(r) ensures rank <= Rank(runs, r.source) {
        assert r in Filter(OnKey(key), others);
        assert r in rows;
      }
      assert TrustedRank(runs, others, key, rank);
    }
  }

  lemma SourceDependsOnKeyRows(runs: seq<string>, rows: seq<Row>, others: seq<Row>, key: Key, source: string)
    requires Filter(OnKey(key), rows) == Filter(OnKey(key), others)
    requires IsSource(runs, rows, key, source)
    ensures IsSource(runs, others, key, source)
  {
    FilterTwice(OnKey(key), DecidedOn(key), rows);
    FilterTwice(OnKey(key), DecidedOn(key), others);
    var rank := Rank(runs, source);
    FilterTwice(OnKey(key), DecidedAt(runs, key, rank), rows);
    FilterTwice(OnKey(key), DecidedAt(runs, key, rank), others);
    forall r | r in others && DecidedOn(key)(r) ensures r in rows {
      assert r in Filter(OnKey(key), others);
    }
  }

  // ---- what a contest means for the stored label --------------------------

  // A decided row a contest does not remove.
  predicate SurvivesContest(runs: seq<string>, key: Key, r: Row) {
    OnKey(key)(r) && r.cls != Mid && !(r.source in runs && (r.cls == Deep || r.cls == Low))
  }

  // The comment above the vote promises that a tie leaves the pair mid. It
  // does so exactly when no source outside the table-build runs decided the
  // pair (and no run called it shoulder).
  lemma TieStaysMidExactly(runs: seq<string>, rows: seq<Row>, key: Key, freshest: string, cls: Label)
    requires Contested(runs, rows, key) && Winner(runs, rows, key) == Mid
    requires IsVerdict(runs, ResolvedRows(runs, rows, key, freshest), key, cls)
    ensures cls == Mid <==> forall r | r in rows :: !SurvivesContest(runs, key, r)
  {
    var best := VerdictRow(runs, ResolvedRows(runs, rows, key, freshest), key, cls);
    ResolvedDecided(runs, rows, key, freshest);
  }

  // Which decided rows a contested pair still has.
  lemma ResolvedDecided(runs: seq<string>, rows: seq<Row>, key: Key, freshest: string)
    requires Contested(runs, rows, key)
    ensures var w := Row(freshest, Winner(runs, rows, key), key.0, key.1);
            && OnKey(key)(w)
            && w in ResolvedRows(runs, rows, key, freshest)
            && forall r :: r in ResolvedRows(runs, rows, key, freshest) && DecidedOn(key)(r) <==>
                           (r in rows && SurvivesContest(runs, key, r)) || (r == w && w.cls != Mid)
  {
    ContestedKeyIsOrdered(runs, rows, key);
    var kept := Filter(KeptRow(runs, {key}), rows);
    forall r | OnKey(key)(r) ensures r in kept <==> r in rows && KeptRow(runs, {key})(r) {
    }
  }

  // A tie broken against the promise: one deep run, one older low.
  lemma TieCanEndLow(run: string, freshest: string, cls: Label)
    requires run != "s3"
    requires var rows := [Row(run, Deep, 1, 2), Row("s3", Low, 1, 2)];
             IsVerdict([run], ResolvedRows([run], rows, (1, 2), freshest), (1, 2), cls)
    ensures Winner([run], [Row(run, Deep, 1, 2), Row("s3", Low, 1, 2)], (1, 2)) == Mid
    ensures cls == Low
  {
    var key := (1, 2);
    var deep, low := Row(run, Deep, 1, 2), Row("s3", Low, 1, 2);
    var rows := [deep, low];
    OneAgainstOne(run, deep, low, key);
    var best := VerdictRow([run], ResolvedRows([run], rows, key, freshest), key, cls);
    ResolvedDecided([run], rows, key, freshest);
    assert SurvivesContest([run], key, low);
  }

  lemma OneAgainstOne(run: string, deep: Row, low: Row, key: Key)
    requires DeepFrom(run, key)(deep) && LowOn(key)(low)
    ensures Contested([run], [deep, low], key) && Winner([run], [deep, low], key) == Mid
  {
    var rows := [deep, low];
    assert deep in Filter(DeepFrom(run, key), rows);
    assert DeepRuns([run], rows, key) == {run};
    assert rows == [deep] + [low];
    FilterAppend(LowOn(key), [deep], [low]);
    assert Filter(LowOn(key), [deep]) == [] && Filter(LowOn(key), [low]) == [low];
  }

  predicate ShoulderFrom(run: string, key: Key, r: Row) {
    OnKey(key)(r) && r.source == run && r.cls == Shoulder
  }

  // A decided winner is what the table stores, except that a shoulder row of
  // the freshest run comes before it.
  lemma WinnerIsStored(runs: seq<string>, rows: seq<Row>, key: Key, freshest: string, cls: Label)
    requires RunNames(runs) && IsFreshest(runs, freshest)
    requires Contested(runs, rows, key) && Winner(runs, rows, key) != Mid
    requires IsVerdict(runs, ResolvedRows(runs, rows, key, freshest), key, cls)
    ensures cls == if exists r :: r in rows && ShoulderFrom(freshest, key, r) then Shoulder
                   else Winner(runs, rows, key)
  {
    var rank := Rank(runs, freshest);
    var kept := Filter(KeptRow(runs, {key}), rows);
    var w := Row(freshest, Winner(runs, rows, key), key.0, key.1);
    FreshestDecides(runs, rows, key, freshest, cls);
    ContestedKeyIsOrdered(runs, rows, key);
    FilterAppend(DecidedAt(runs, key, rank), kept, [w]);
    KeptShoulders(runs, rows, key, freshest);
  }

  // The stored label is that of the freshest run's first decided row.
  lemma FreshestDecides(runs: seq<string>, rows: seq<Row>, key: Key, freshest: string, cls: Label)
    requires RunNames(runs) && IsFreshest(runs, freshest)
    requires Contested(runs, rows, key) && Winner(runs, rows, key) != Mid
    requires IsVerdict(runs, ResolvedRows(runs, rows, key, freshest), key, cls)
    ensures var first := Filter(DecidedAt(runs, key, Rank(runs, freshest)), ResolvedRows(runs, rows, key, freshest));
            first != [] && cls == first[0].cls
  {
    var resolved := ResolvedRows(runs, rows, key, freshest);
    ResolvedDecided(runs, rows, key, freshest);
    NonemptyFilter(DecidedOn(key), resolved);
    var rank: nat :| TrustedRank(runs, resolved, key, rank)
                     && cls == Filter(DecidedAt(runs, key, rank), resolved)[0].cls;
    assert rank <= Rank(runs, freshest);
    var first := Filter(DecidedAt(runs, key, rank), resolved)[0];
    assert first in Filter(DecidedAt(runs, key, rank), resolved);
    if first.source != freshest {
      FreshestBeatsOlder(runs, freshest, first.source);
    }
  }

  // What a contest leaves of the freshest run's decided rows are its shoulders.
  lemma KeptShoulders(runs: seq<string>, rows: seq<Row>, key: Key, freshest: string)
    requires RunNames(runs) && IsFreshest(runs, freshest)
    ensures var left := Filter(DecidedAt(runs, key, Rank(runs, freshest)), Filter(KeptRow(runs, {key}), rows));
            && (left != [] <==> exists r :: r in rows && ShoulderFrom(freshest, key, r))
            && (left != [] ==> left[0].cls == Shoulder)
  {
    var at := DecidedAt(runs, key, Rank(runs, freshest));
    var kept := Filter(KeptRow(runs, {key}), rows);
    NonemptyFilter(at, kept);
    if Filter(at, kept) != [] {
      var first := Filter(at, kept)[0];
      assert first in Filter(at, kept);
      if first.source != freshest {
        FreshestBeatsOlder(runs, freshest, first.source);
      }
      assert ShoulderFrom(freshest, key, first);
    }
    if r :| r in rows && ShoulderFrom(freshest, key, r) {
      assert r in kept && at(r);
    }
  }

  // No source ranks before the freshest run.
  lemma FreshestBeatsOlder(runs: seq<string>, freshest: string, source: string)
    requires RunNames(runs) && IsFreshest(runs, freshest) && source != freshest
    ensures Rank(runs, freshest) < Rank(runs, source)
  {
    assert freshest in Names(runs);
    if source in runs {
      assert source in Names(runs);
      assert Rank(runs, freshest) <= Rank(runs, source);
    } else {
      RunsAreNotOld(freshest);
      assert Rank(runs, freshest) < |runs|;
    }
  }

  // No older source carries the prefix of the table-build runs.
  lemma RunsAreNotOld(run: string)
    requires |run| >= 3 && run[..3] == "t1:"
    ensures run !in OLD_SOURCES
  {
    assert run[..3][0] == 't';
    forall source | source in OLD_SOURCES ensures source[0] != 't' {
      assert source == "reprobe" || source == "pilot" || source == "s3b" || source == "s3";
    }
  }

  // ---- truthful measurements ----------------------------------------------

  ghost predicate Truthful(truth: Truth, rows: seq<Row>) {
    forall r | r in rows :: truth.Admits(r.cls, r.a, r.b)
  }

  // With truthful rows there is nothing to contest, and the stored label of a
  // pair is truthful; it is decided as soon as one row is.
  lemma TruthfulRowsFoldTruthfully(truth: Truth, runs: seq<string>, rows: seq<Row>, key: Key, freshest: string,
                                   cls: Label)
    requires Truthful(truth, rows)
    requires IsVerdict(runs, ResolvedRows(runs, rows, key, freshest), key, cls)
    ensures !Contested(runs, rows, key)
    ensures truth.Admits(cls, key.0, key.1)
    ensures cls == Mid <==> forall r | r in rows && OnKey(key)(r) :: r.cls == Mid
  {
    TruthfulRowsNeverContest(truth, runs, rows, key);
    var best := VerdictRow(runs, rows, key, cls);
    if cls != Mid {
      assert truth.Admits(best.cls, best.a, best.b);
    }
  }

  lemma TruthfulRowsNeverContest(truth: Truth, runs: seq<string>, rows: seq<Row>, key: Key)
    requires Truthful(truth, rows)
    ensures !Contested(runs, rows, key)
  {
    if Contested(runs, rows, key) {
      var deep, low := ContestWitnesses(runs, rows, key);
    }
  }

  lemma ContestWitnesses(runs: seq<string>, rows: seq<Row>, key: Key) returns (deep: Row, low: Row)
    requires Contested(runs, rows, key)
    ensures deep in rows && OnKey(key)(deep) && deep.cls == Deep
    ensures low in rows && OnKey(key)(low) && low.cls == Low
  {
    var run :| run in DeepRuns(runs, rows, key);
    deep := Filter(DeepFrom(run, key), rows)[0];
    assert deep in Filter(DeepFrom(run, key), rows);
    low := Filter(LowOn(key), rows)[0];
    assert low in Filter(LowOn(key), rows);
  }
}
