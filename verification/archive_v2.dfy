/**
 The archived second-generation updater. It parses every scoreboard module
 into a dict keyed by sheet tab, finds the grey marker rows already present
 in each tab by scanning column N, and writes each cluster's name onto the
 matching marker row and its questions (column A label, column N points) onto
 the rows right below.
 */
module ArchiveV2 {
  import opened Common
  import opened Scoreboard
  import opened OrderedDict
  import opened Categories
  import opened Sheet
  import opened Layout

  /** `parse_challenges`: every module, filed under its sheet tab. */
  function ParseAll(s: Snapshot): (r: Result<seq<(string, seq<Cluster>)>, ParseError>)
    ensures r.Ok? <==> (AllNamed(ModulesOf(s)) &&
              forall j :: 0 <= j < |ModulesOf(s)| ==> ParseClusters(ClustersOf(ModulesOf(s)[j])).Ok?)
    ensures r.Ok? ==> DistinctKeys(r.value)
    ensures r.Ok? ==> forall k :: (Get(r.value, k) ==
              (var j := LastWith(ModulesOf(s), k);
               if j < 0 then None else Some(ParseClusters(ClustersOf(ModulesOf(s)[j])).value)))
  {
    GroupBySheetOk(ModulesOf(s), ParseClusters, []);
    GroupBySheetValues(ModulesOf(s), ParseClusters, []);
    GroupBySheet(ModulesOf(s), ParseClusters, [])
  }

  /* ---------------- the marker scan ---------------- */

  /** A marker row the scan found: its row, its column A text and the number
      of question rows under it. */
  datatype Marker = Marker(row: int, name: string, questionCount: int)

  /** Column N of a row of `get_all_values`, `""` when the row is shorter. */
  function ColumnN(row: seq<string>): string
  {
    if |row| > ColN then row[ColN] else ""
  }

  /** Column A of a row, `""` when the row is empty. */
  function ColumnA(row: seq<string>): string
  {
    if |row| > 0 then row[0] else ""
  }

  /** Sheet row `r` (1-based) has no point value: column N is empty or the
      header text. */
  predicate IsMarkerAt(values: seq<seq<string>>, r: int)
    requires 1 <= r <= |values|
  {
    var n := ColumnN(values[r - 1]);
    n == "" || n == "Point Value"
  }

  /** The first marker row at or after row `c`, or the row past the last. */
  function RunEnd(values: seq<seq<string>>, c: int): (e: int)
    requires 1 <= c
    ensures c <= e && (e <= |values| + 1 || e == c)
    decreases |values| + 1 - c
  {
    if c > |values| || IsMarkerAt(values, c) then c else RunEnd(values, c + 1)
  }

  /** Rows `c, c+1, ...` up to `RunEnd` are question rows; the row it
      returns is a marker row or lies past the last row. */
  lemma {:induction false} RunEndFacts(values: seq<seq<string>>, c: int)
    requires 1 <= c
    ensures forall k :: c <= k < RunEnd(values, c) ==> !IsMarkerAt(values, k)
    ensures RunEnd(values, c) > |values| || IsMarkerAt(values, RunEnd(values, c))
    decreases |values| + 1 - c
  {
    if c <= |values| && !IsMarkerAt(values, c) {
      RunEndFacts(values, c + 1);
    }
  }

  /** The scan from row `r`: a marker row is reported with the length of the
      run of question rows under it and the scan resumes where that run ends;
      any other row is skipped. */
  function Scan(values: seq<seq<string>>, r: int): seq<Marker>
    requires 1 <= r
    decreases |values| + 1 - r
  {
    if r > |values| then []
    else if IsMarkerAt(values, r) then
      var e := RunEnd(values, r + 1);
      [Marker(r, ColumnA(values[r - 1]), e - r - 1)] + Scan(values, e)
    else Scan(values, r + 1)
  }

  /** `find_challenge_markers`: the outer loop walks the rows from row 3,
      the inner loop (`CountQuestionRows`) counts the question rows under
      each marker. */
  method FindChallengeMarkers(values: seq<seq<string>>) returns (markers: seq<Marker>)
    ensures markers == Scan(values, 3)
  {
    markers := [];
    var current := 3;
    ghost var all := Scan(values, 3);
    while current <= |values|
      invariant 3 <= current
      invariant markers + Scan(values, current) == all
      decreases |values| + 1 - current
    {
      if IsMarkerAt(values, current) {
        var count := CountQuestionRows(values, current);
        var m, next := Marker(current, ColumnA(values[current - 1]), count), current + 1 + count;
        ScanStepMarker(values, current, next, m, markers);
        markers, current := markers + [m], next;
      } else {
        ScanSkips(values, current);
        current := current + 1;
        assert markers + Scan(values, current) == all;
      }
    }
  }

  /** One marker step of `FindChallengeMarkers`: reporting the marker and
      resuming after its run leaves the remaining scan unchanged. */
  lemma {:induction false} ScanStepMarker(values: seq<seq<string>>, current: int, next: int, m: Marker, markers: seq<Marker>)
    requires 1 <= current <= |values| && IsMarkerAt(values, current)
    requires next == RunEnd(values, current + 1)
    requires m == Marker(current, ColumnA(values[current - 1]), next - current - 1)
    ensures (markers + [m]) + Scan(values, next) == markers + Scan(values, current)
  {
    ScanAtMarker(values, current);
    assert (markers + [m]) + Scan(values, next) == markers + ([m] + Scan(values, next));
  }

  /** The inner loop of `find_challenge_markers`: the number of question rows
      right under the marker at row `current`. */
  method CountQuestionRows(values: seq<seq<string>>, current: int) returns (count: int)
    requires 1 <= current <= |values|
    ensures count >= 0 && current + 1 + count == RunEnd(values, current + 1)
  {
    count := 0;
    var check := current + 1;
    while check <= |values| && !IsMarkerAt(values, check)
      invariant current + 1 <= check && check == current + 1 + count
      invariant check <= |values| + 1
      invariant RunEnd(values, check) == RunEnd(values, current + 1)
      decreases |values| + 1 - check
    {
      count := count + 1;
      check := check + 1;
    }
    assert RunEnd(values, check) == check;
  }

  /** The marker rows among rows `lo..hi-1`, in order. */
  function MarkerRowsIn(values: seq<seq<string>>, lo: int, hi: int): seq<int>
    decreases hi - lo
  {
    if hi <= lo then []
    else (if 1 <= lo <= |values| && IsMarkerAt(values, lo) then [lo] else []) + MarkerRowsIn(values, lo + 1, hi)
  }

  /** `MarkerRowsIn` holds exactly the marker rows of `lo..hi-1`, strictly
      increasing. */
  lemma {:induction false} MarkerRowsInExact(values: seq<seq<string>>, lo: int, hi: int)
    ensures forall r :: r in MarkerRowsIn(values, lo, hi) <==> lo <= r < hi && 1 <= r <= |values| && IsMarkerAt(values, r)
    ensures forall i, j :: 0 <= i < j < |MarkerRowsIn(values, lo, hi)| ==> MarkerRowsIn(values, lo, hi)[i] < MarkerRowsIn(values, lo, hi)[j]
    decreases hi - lo
  {
    if lo < hi {
      MarkerRowsInExact(values, lo + 1, hi);
      var rest := MarkerRowsIn(values, lo + 1, hi);
      var head: seq<int> := if 1 <= lo <= |values| && IsMarkerAt(values, lo) then [lo] else [];
      assert MarkerRowsIn(values, lo, hi) == head + rest;
      forall i, j | 0 <= i < j < |head + rest| ensures (head + rest)[i] < (head + rest)[j] {
        if i < |head| {
          assert (head + rest)[j] in rest;
        }
      }
    }
  }

  /** A run of question rows contributes no marker row. */
  lemma {:induction false} SkipRun(values: seq<seq<string>>, a: int, b: int, hi: int)
    requires 1 <= a <= b <= hi && b <= |values| + 1
    requires forall k :: a <= k < b ==> !IsMarkerAt(values, k)
    ensures MarkerRowsIn(values, a, hi) == MarkerRowsIn(values, b, hi)
    decreases b - a
  {
    if a < b {
      SkipRun(values, a + 1, b, hi);
    }
  }

  /** The rows of the markers, in order. */
  function MarkerRows(ms: seq<Marker>): (rows: seq<int>)
    ensures |rows| == |ms|
  {
    if |ms| == 0 then [] else [ms[0].row] + MarkerRows(ms[1..])
  }

  /** The marker's count is the length of the maximal run of question rows
      right under it, and its name is its column A. */
  predicate Counted(values: seq<seq<string>>, m: Marker)
  {
    && 1 <= m.row <= |values|
    && m.name == ColumnA(values[m.row - 1])
    && m.questionCount >= 0
    && m.row + m.questionCount <= |values|
    && (forall k :: m.row < k <= m.row + m.questionCount ==> !IsMarkerAt(values, k))
    && (m.row + m.questionCount + 1 > |values| || IsMarkerAt(values, m.row + m.questionCount + 1))
  }

  /** The scan from row `r` reports exactly the marker rows from `r` on, in
      order: no marker row is missed and no question row is reported. */
  lemma {:induction false} ScanRows(values: seq<seq<string>>, r: int)
    requires 1 <= r
    ensures MarkerRows(Scan(values, r)) == MarkerRowsIn(values, r, |values| + 1)
    decreases |values| + 1 - r
  {
    var hi := |values| + 1;
    if r <= |values| {
      MarkerRowsInStep(values, r, hi);
      if IsMarkerAt(values, r) {
        var e := RunEnd(values, r + 1);
        var rest := Scan(values, e);
        ScanRows(values, e);
        RunEndFacts(values, r + 1);
        SkipRun(values, r + 1, e, hi);
        ScanAtMarker(values, r);
        MarkerRowsCons(Marker(r, ColumnA(values[r - 1]), e - r - 1), rest);
        assert MarkerRows(Scan(values, r)) == [r] + MarkerRows(rest);
      } else {
        ScanRows(values, r + 1);
        ScanSkips(values, r);
        assert MarkerRows(Scan(values, r)) == MarkerRows(Scan(values, r + 1));
      }
    }
  }

  /** One step of `MarkerRowsIn`: row `lo` if it is a marker row, then the
      rest. */
  lemma {:induction false} MarkerRowsInStep(values: seq<seq<string>>, lo: int, hi: int)
    requires 1 <= lo <= |values| && lo < hi
    ensures MarkerRowsIn(values, lo, hi) == (if IsMarkerAt(values, lo) then [lo] else []) + MarkerRowsIn(values, lo + 1, hi)
  {
  }

  /** At a marker row the scan reports it, then resumes where its run ends. */
  lemma {:induction false} ScanAtMarker(values: seq<seq<string>>, r: int)
    requires 1 <= r <= |values| && IsMarkerAt(values, r)
    ensures var e := RunEnd(values, r + 1);
      Scan(values, r) == [Marker(r, ColumnA(values[r - 1]), e - r - 1)] + Scan(values, e)
  {
  }

  /** Any other row is skipped. */
  lemma {:induction false} ScanSkips(values: seq<seq<string>>, r: int)
    requires 1 <= r <= |values| && !IsMarkerAt(values, r)
    ensures Scan(values, r) == Scan(values, r + 1)
  {
  }

  lemma {:induction false} MarkerRowsCons(m: Marker, ms: seq<Marker>)
    ensures MarkerRows([m] + ms) == [m.row] + MarkerRows(ms)
  {
    assert ([m] + ms)[1..] == ms;
  }

  /** Each marker the scan reports carries its column A text and the length
      of the maximal run of question rows under it. */
  lemma {:induction false} ScanCounted(values: seq<seq<string>>, r: int)
    requires 1 <= r
    ensures forall i :: 0 <= i < |Scan(values, r)| ==> Counted(values, Scan(values, r)[i])
    decreases |values| + 1 - r
  {
    if r <= |values| {
      if IsMarkerAt(values, r) {
        var e := RunEnd(values, r + 1);
        var m := Marker(r, ColumnA(values[r - 1]), e - r - 1);
        ScanCounted(values, e);
        HeadCounted(values, r, e, m);
        ScanAtMarker(values, r);
        CountedCons(values, m, Scan(values, e), Scan(values, r));
      } else {
        ScanCounted(values, r + 1);
        ScanSkips(values, r);
      }
    }
  }

  /** The marker the scan reports at a marker row is counted correctly. */
  lemma {:induction false} HeadCounted(values: seq<seq<string>>, r: int, e: int, m: Marker)
    requires 1 <= r <= |values| && IsMarkerAt(values, r)
    requires e == RunEnd(values, r + 1) && m == Marker(r, ColumnA(values[r - 1]), e - r - 1)
    ensures Counted(values, m)
  {
    RunEndFacts(values, r + 1);
  }

  lemma {:induction false} CountedCons(values: seq<seq<string>>, head: Marker, rest: seq<Marker>, all: seq<Marker>)
    requires all == [head] + rest
    requires Counted(values, head)
    requires forall i :: 0 <= i < |rest| ==> Counted(values, rest[i])
    ensures forall i :: 0 <= i < |all| ==> Counted(values, all[i])
  {
    forall i | 0 <= i < |all| ensures Counted(values, all[i]) {
      if i > 0 {
        assert all[i] == rest[i - 1];
      }
    }
  }

  /** The scan `find_challenge_markers` runs: its markers are the marker
      rows from row 3 on, strictly increasing, each counted correctly. */
  lemma {:induction false} MarkersFound(values: seq<seq<string>>)
    ensures forall r :: r in MarkerRows(Scan(values, 3)) <==> 3 <= r <= |values| && IsMarkerAt(values, r)
    ensures forall i, j :: 0 <= i < j < |Scan(values, 3)| ==> Scan(values, 3)[i].row < Scan(values, 3)[j].row
    ensures forall i :: 0 <= i < |Scan(values, 3)| ==> Counted(values, Scan(values, 3)[i])
  {
    ScanRows(values, 3);
    ScanCounted(values, 3);
    MarkerRowsInExact(values, 3, |values| + 1);
    var ms := Scan(values, 3);
    forall i | 0 <= i < |ms| ensures MarkerRows(ms)[i] == ms[i].row {
      MarkerRowsAt(ms, i);
    }
  }

  lemma {:induction false} MarkerRowsAt(ms: seq<Marker>, i: int)
    requires 0 <= i < |ms|
    ensures MarkerRows(ms)[i] == ms[i].row
    decreases i
  {
    if i > 0 {
      MarkerRowsAt(ms[1..], i - 1);
    }
  }

  /* ---------------- the writes ---------------- */

  /** The two writes for a question on `row`: its label into column A, its
      points into column N. */
  function QuestionCells(row: int, q: Question): seq<ValueUpdate>
  {
    [ ValueUpdate(row, ColA, [Text(QuestionLabel(q))]),
      ValueUpdate(row, ColN, [Number(q.points)]) ]
  }

  /** The writes for the questions under a marker at `row`. */
  function QuestionWrites(row: int, qs: seq<Question>): seq<ValueUpdate>
  {
    WritesFrom(row + 1, qs, QuestionCells)
  }

  /** Two writes per question: write `2j` puts question `j`'s label into
      column A, write `2j + 1` its points into column N, both on row
      `row + j + 1`; no write goes elsewhere. */
  lemma {:induction false} QuestionWritesAt(row: int, qs: seq<Question>, j: int)
    requires 0 <= j < |qs|
    ensures |QuestionWrites(row, qs)| == 2 * |qs|
    ensures QuestionWrites(row, qs)[2 * j] == ValueUpdate(row + j + 1, ColA, [Text(QuestionLabel(qs[j]))])
    ensures QuestionWrites(row, qs)[2 * j + 1] == ValueUpdate(row + j + 1, ColN, [Number(qs[j].points)])
  {
    WritesFromAt(row + 1, qs, QuestionCells, j);
  }

  /** Every question write is one cell of column A or N on a row below the
      marker, within the question count. */
  lemma {:induction false} QuestionWritesShape(row: int, qs: seq<Question>, u: ValueUpdate)
    requires u in QuestionWrites(row, qs)
    ensures (u.col == ColA || u.col == ColN) && |u.values| == 1 && row < u.row <= row + |qs|
  {
    WritesFromMember(row + 1, qs, QuestionCells, u);
  }

  /** The writes for one marker paired with one cluster: the cluster name
      onto the marker row, then the questions below it. */
  function PairWrites(m: Marker, c: Cluster): seq<ValueUpdate>
  {
    [ValueUpdate(m.row, ColA, [Text(c.name)])] + QuestionWrites(m.row, c.questions)
  }

  /** The writes `f` gives the first `k` marker/cluster pairs, pair after
      pair. */
  function ZipBy(ms: seq<Marker>, cs: seq<Cluster>, k: nat, f: (Marker, Cluster) -> seq<ValueUpdate>): seq<ValueUpdate>
    requires k <= |ms| && k <= |cs|
  {
    if k == 0 then [] else ZipBy(ms, cs, k - 1, f) + f(ms[k - 1], cs[k - 1])
  }

  /** The writes for the first `k` marker/cluster pairs. */
  function ZipWrites(ms: seq<Marker>, cs: seq<Cluster>, k: nat): seq<ValueUpdate>
    requires k <= |ms| && k <= |cs|
  {
    ZipBy(ms, cs, k, PairWrites)
  }

  /** `zip(markers, challenge_clusters)`: as many pairs as the shorter list. */
  function ZipAll(ms: seq<Marker>, cs: seq<Cluster>): seq<ValueUpdate>
  {
    ZipWrites(ms, cs, Min(|ms|, |cs|))
  }

  /** Pairs beyond the first `k` do not matter: markers without a cluster
      and clusters without a marker get no write. */
  lemma {:induction false} ZipIgnoresExtra(ms: seq<Marker>, cs: seq<Cluster>, k: nat)
    requires k <= |ms| && k <= |cs|
    ensures ZipWrites(ms, cs, k) == ZipWrites(ms[..k], cs[..k], k)
  {
    assert ms[..k][..k] == ms[..k] && cs[..k][..k] == cs[..k];
    ZipAgrees(ms, cs, ms[..k], cs[..k], k, PairWrites);
  }

  /** `ZipBy` only looks at the first `k` entries: any lists agreeing
      there give the same writes. */
  lemma {:induction false} ZipAgrees(ms: seq<Marker>, cs: seq<Cluster>, ms': seq<Marker>, cs': seq<Cluster>, k: nat,
                                     f: (Marker, Cluster) -> seq<ValueUpdate>)
    requires k <= |ms| && k <= |cs| && k <= |ms'| && k <= |cs'|
    requires ms[..k] == ms'[..k] && cs[..k] == cs'[..k]
    ensures ZipBy(ms, cs, k, f) == ZipBy(ms', cs', k, f)
    decreases k
  {
    if k > 0 {
      assert ms[k - 1] == ms[..k][k - 1] && ms'[k - 1] == ms'[..k][k - 1];
      assert cs[k - 1] == cs[..k][k - 1] && cs'[k - 1] == cs'[..k][k - 1];
      assert ms[..k - 1] == ms[..k][..k - 1] && ms'[..k - 1] == ms'[..k][..k - 1];
      assert cs[..k - 1] == cs[..k][..k - 1] && cs'[..k - 1] == cs'[..k][..k - 1];
      ZipAgrees(ms, cs, ms', cs', k - 1, f);
    }
  }

  /** Each pair of the zip gets one write for its marker row and two per
      question. */
  lemma {:induction false} ZipWritesCount(ms: seq<Marker>, cs: seq<Cluster>, k: nat)
    requires k <= |ms| && k <= |cs|
    ensures |ZipWrites(ms, cs, k)| == k + 2 * QuestionCount(cs, k)
  {
    forall m, c ensures |PairWrites(m, c)| == 1 + 2 * |c.questions| {
      PairWritesLength(m, c);
    }
    ZipByCount(ms, cs, k, PairWrites);
  }

  /** When `f` gives each pair one write plus two per question, the first
      `k` pairs get `k` plus twice their questions. */
  lemma {:induction false} ZipByCount(ms: seq<Marker>, cs: seq<Cluster>, k: nat, f: (Marker, Cluster) -> seq<ValueUpdate>)
    requires k <= |ms| && k <= |cs|
    requires forall m, c :: |f(m, c)| == 1 + 2 * |c.questions|
    ensures |ZipBy(ms, cs, k, f)| == k + 2 * QuestionCount(cs, k)
    decreases k
  {
    if k > 0 {
      ZipByCount(ms, cs, k - 1, f);
    }
  }

  /** One pair's writes: the marker row's, then two per question. */
  lemma {:induction false} PairWritesLength(m: Marker, c: Cluster)
    ensures |PairWrites(m, c)| == 1 + 2 * |c.questions|
  {
    WritesFromLength(m.row + 1, c.questions, QuestionCells);
  }

  /** Every write of the zip is a single cell in column A or N. */
  lemma {:induction false} ZipWritesCells(ms: seq<Marker>, cs: seq<Cluster>, k: nat, u: ValueUpdate)
    requires k <= |ms| && k <= |cs|
    requires u in ZipWrites(ms, cs, k)
    ensures (u.col == ColA || u.col == ColN) && |u.values| == 1
  {
    forall m, c, v | v in PairWrites(m, c) ensures (v.col == ColA || v.col == ColN) && |v.values| == 1 {
      PairWritesCells(m, c, v);
    }
    ZipByCells(ms, cs, k, PairWrites, u);
  }

  /** When every write `f` gives is a single cell in column A or N, so is
      every write of the zip. */
  lemma {:induction false} ZipByCells(ms: seq<Marker>, cs: seq<Cluster>, k: nat, f: (Marker, Cluster) -> seq<ValueUpdate>,
                                      u: ValueUpdate)
    requires k <= |ms| && k <= |cs|
    requires forall m, c, v :: v in f(m, c) ==> (v.col == ColA || v.col == ColN) && |v.values| == 1
    requires u in ZipBy(ms, cs, k, f)
    ensures (u.col == ColA || u.col == ColN) && |u.values| == 1
    decreases k
  {
    if k > 0 && u in ZipBy(ms, cs, k - 1, f) {
      ZipByCells(ms, cs, k - 1, f, u);
    }
  }

  lemma {:induction false} PairWritesCells(m: Marker, c: Cluster, u: ValueUpdate)
    requires u in PairWrites(m, c)
    ensures (u.col == ColA || u.col == ColN) && |u.values| == 1
  {
    if u in QuestionWrites(m.row, c.questions) {
      QuestionWritesShape(m.row, c.questions, u);
    }
  }

  /** How many questions the first `k` clusters hold together. */
  function QuestionCount(cs: seq<Cluster>, k: nat): int
    requires k <= |cs|
  {
    if k == 0 then 0 else QuestionCount(cs, k - 1) + |cs[k - 1].questions|
  }

  /** The calls for one dict entry: nothing when the tab is missing or in a
      dry run; otherwise one values write of all pairs, sent only when
      there is something to write. */
  function EntryCalls(tabs: map<string, seq<seq<string>>>, name: string, cs: seq<Cluster>, dryRun: bool): seq<TabCall>
  {
    if name !in tabs || dryRun then []
    else
      var writes := ZipAll(Scan(tabs[name], 3), cs);
      if writes == [] then [] else [TabCall(name, ValuesBatchUpdate(writes))]
  }

  /** The calls for the dict entries, in iteration order. */
  function AllCalls(tabs: map<string, seq<seq<string>>>, d: seq<(string, seq<Cluster>)>, dryRun: bool): seq<TabCall>
    decreases |d|
  {
    if |d| == 0 then []
    else AllCalls(tabs, d[..|d| - 1], dryRun) + EntryCalls(tabs, d[|d| - 1].0, d[|d| - 1].1, dryRun)
  }

  /** The zip loop of `update_sheet`: for each marker/cluster pair, the
      cluster name onto the marker row, then the questions below it. */
  method ZipLoop(markers: seq<Marker>, clusters: seq<Cluster>) returns (updates: seq<ValueUpdate>)
    ensures updates == ZipAll(markers, clusters)
  {
    updates := [];
    var k := 0;
    while k < |markers| && k < |clusters|
      invariant 0 <= k <= |markers| && k <= |clusters|
      invariant updates == ZipWrites(markers, clusters, k)
    {
      var w := PairLoop(markers[k], clusters[k]);
      updates := updates + w;
      k := k + 1;
    }
  }

  /** The body of the zip loop for one pair: the marker row's write, then
      the question rows' writes. */
  method PairLoop(m: Marker, c: Cluster) returns (w: seq<ValueUpdate>)
    ensures w == PairWrites(m, c)
  {
    w := [ValueUpdate(m.row, ColA, [Text(c.name)])];
    w := AppendWritesFrom(w, m.row + 1, c.questions, QuestionCells);
  }

  /** `update_sheet`: the dict entries in order, each handled on its own. */
  method UpdateSheet(d: seq<(string, seq<Cluster>)>, tabs: map<string, seq<seq<string>>>, dryRun: bool)
    returns (calls: seq<TabCall>)
    ensures calls == AllCalls(tabs, d, dryRun)
  {
    calls := [];
    for i := 0 to |d|
      invariant calls == AllCalls(tabs, d[..i], dryRun)
    {
      var name := d[i].0;
      var clusters := d[i].1;
      assert d[..i + 1][..i] == d[..i];
      if name in tabs && !dryRun {
        var markers := FindChallengeMarkers(tabs[name]);
        var updates := ZipLoop(markers, clusters);
        if updates != [] {
          calls := calls + [TabCall(name, ValuesBatchUpdate(updates))];
        }
      }
    }
    assert d[..|d|] == d;
  }

  /** A dry run makes no call at all. A real run makes at most one call per
      dict entry, always a non-empty values write to a tab that exists:
      never a clear, never a formatting request. */
  lemma {:induction false} RunCalls(tabs: map<string, seq<seq<string>>>, d: seq<(string, seq<Cluster>)>)
    ensures AllCalls(tabs, d, true) == []
    ensures |AllCalls(tabs, d, false)| <= |d|
    ensures forall i :: 0 <= i < |AllCalls(tabs, d, false)| ==>
              var c := AllCalls(tabs, d, false)[i];
              c.tab in tabs && c.call.ValuesBatchUpdate? && c.call.updates != []
    decreases |d|
  {
    if |d| > 0 {
      var init := d[..|d| - 1];
      RunCalls(tabs, init);
      var a: seq<TabCall>, e: seq<TabCall> := AllCalls(tabs, init, false), EntryCalls(tabs, d[|d| - 1].0, d[|d| - 1].1, false);
      assert AllCalls(tabs, d, false) == a + e;
      forall i | 0 <= i < |a + e|
        ensures (a + e)[i].tab in tabs && (a + e)[i].call.ValuesBatchUpdate? && (a + e)[i].call.updates != []
      {
        if i < |a| {
          assert (a + e)[i] == a[i];
        } else {
          assert (a + e)[i] == e[i - |a|];
        }
      }
    }
  }
}
