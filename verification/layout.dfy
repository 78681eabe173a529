/**
 The row layout every sheet updater builds from the parsed clusters. Starting
 at a given row, each cluster takes a marker row (its name in column A), one
 row per question (`Question i` in A, `N/A` in D, the points in N and, in the
 variants that seed the team columns, `Nothing` in each of G..M) and one blank
 row. The layout is described twice: as a per-row plan with the cell values
 each row kind calls for, and as the loop that walks the clusters with a
 running row counter and collects value updates and the marker and question
 row numbers.
 */
module Layout {
  import opened Common
  import opened Scoreboard
  import opened Sheet
  import opened Guard

  /** What the layout puts on one sheet row. */
  datatype RowKind = MarkerRow(name: string) | QuestionRow(question: Question) | BlankRow

  /** The two kinds of rows whose numbers the updaters collect. */
  datatype RowTag = MarkerTag | QuestionTag

  predicate HasTag(k: RowKind, t: RowTag)
  {
    if t.MarkerTag? then k.MarkerRow? else k.QuestionRow?
  }

  /** The rows of the questions of one cluster. */
  function QuestionPlan(qs: seq<Question>): (p: seq<RowKind>)
    ensures |p| == |qs|
    ensures forall i :: 0 <= i < |qs| ==> p[i] == QuestionRow(qs[i])
  {
    seq(|qs|, i requires 0 <= i < |qs| => QuestionRow(qs[i]))
  }

  /** The rows of one cluster: marker, questions, blank. */
  function ClusterPlan(c: Cluster): seq<RowKind>
  {
    [MarkerRow(c.name)] + QuestionPlan(c.questions) + [BlankRow]
  }

  /** The rows of all clusters, one cluster after the other. */
  function Plan(cs: seq<Cluster>): seq<RowKind>
    decreases |cs|
  {
    if |cs| == 0 then [] else Plan(cs[..|cs| - 1]) + ClusterPlan(cs[|cs| - 1])
  }

  /** The number of questions over all clusters. */
  function QuestionCount(cs: seq<Cluster>): nat
    decreases |cs|
  {
    if |cs| == 0 then 0 else QuestionCount(cs[..|cs| - 1]) + |cs[|cs| - 1].questions|
  }

  /** How far below the start row the marker of cluster `k` sits; for
      `k == |cs|`, the number of rows the whole layout takes. */
  function MarkerOffset(cs: seq<Cluster>, k: int): nat
    requires 0 <= k <= |cs|
  {
    2 * k + QuestionCount(cs[..k])
  }

  /** Cluster `k`'s rows sit at offsets `MarkerOffset(cs, k)` up to (not
      including) `MarkerOffset(cs, k + 1)` of the plan. */
  ghost predicate ClusterAt(cs: seq<Cluster>, k: int)
    requires 0 <= k < |cs|
  {
    MarkerOffset(cs, k) <= MarkerOffset(cs, k + 1) <= |Plan(cs)| &&
    Plan(cs)[MarkerOffset(cs, k)..MarkerOffset(cs, k + 1)] == ClusterPlan(cs[k])
  }

  lemma {:induction false} SliceOfPrefix<T>(x: seq<T>, y: seq<T>, a: int, b: int)
    requires 0 <= a <= b <= |x|
    ensures (x + y)[a..b] == x[a..b]
  {
  }

  lemma {:induction false} SliceOfSuffix<T>(x: seq<T>, y: seq<T>)
    ensures (x + y)[|x|..|x| + |y|] == y
  {
  }

  /** The plan has two rows per cluster plus one per question. */
  lemma {:induction false} PlanLength(cs: seq<Cluster>)
    ensures |Plan(cs)| == 2 * |cs| + QuestionCount(cs)
    decreases |cs|
  {
    if |cs| > 0 {
      PlanLength(cs[..|cs| - 1]);
    }
  }

  /** Cluster `k` takes `|questions| + 2` rows. */
  lemma {:induction false} MarkerOffsetStep(cs: seq<Cluster>, k: int)
    requires 0 <= k < |cs|
    ensures MarkerOffset(cs, k + 1) == MarkerOffset(cs, k) + |cs[k].questions| + 2
  {
    assert cs[..k + 1][..k] == cs[..k];
  }

  /** Cluster `k`'s rows are where `MarkerOffset` says. */
  lemma {:induction false} PlanClusterAt(cs: seq<Cluster>, k: int)
    requires 0 <= k < |cs|
    ensures ClusterAt(cs, k)
    decreases |cs|
  {
    var n := |cs| - 1;
    var init := cs[..n];
    PlanLength(init);
    MarkerOffsetStep(cs, k);
    assert Plan(cs) == Plan(init) + ClusterPlan(cs[n]);
    var a, b := MarkerOffset(cs, k), MarkerOffset(cs, k + 1);
    if k < n {
      assert cs[..k] == init[..k] && cs[..k + 1] == init[..k + 1];
      assert a == MarkerOffset(init, k) && b == MarkerOffset(init, k + 1);
      PlanClusterAt(init, k);
      SliceOfPrefix(Plan(init), ClusterPlan(cs[n]), a, b);
    } else {
      assert cs[..k] == init;
      assert a == |Plan(init)|;
      SliceOfSuffix(Plan(init), ClusterPlan(cs[n]));
    }
  }

  /** Each cluster takes `|questions| + 2` consecutive rows: its marker, its
      questions in order, a blank; the clusters follow one another in order
      and nothing else is in the plan. */
  lemma {:induction false} PlanShape(cs: seq<Cluster>)
    ensures |Plan(cs)| == MarkerOffset(cs, |cs|) == 2 * |cs| + QuestionCount(cs)
    ensures forall k :: 0 <= k < |cs| ==> MarkerOffset(cs, k + 1) == MarkerOffset(cs, k) + |cs[k].questions| + 2
    ensures forall k :: 0 <= k < |cs| ==> ClusterAt(cs, k)
  {
    assert cs[..|cs|] == cs;
    PlanLength(cs);
    forall k | 0 <= k < |cs|
      ensures MarkerOffset(cs, k + 1) == MarkerOffset(cs, k) + |cs[k].questions| + 2
      ensures ClusterAt(cs, k)
    {
      MarkerOffsetStep(cs, k);
      PlanClusterAt(cs, k);
    }
  }

  /** The sheet rows whose plan entry carries tag `t`, when the plan `p` is
      laid out from row `start`, in plan order. */
  function RowsOf(p: seq<RowKind>, start: int, t: RowTag): seq<int>
    decreases |p|
  {
    if |p| == 0 then []
    else RowsOf(p[..|p| - 1], start, t) + (if HasTag(p[|p| - 1], t) then [start + |p| - 1] else [])
  }

  /** The rows of tag `t` are exactly the plan rows carrying `t`, listed in
      strictly increasing order. */
  lemma {:induction false} RowsOfExact(p: seq<RowKind>, start: int, t: RowTag)
    ensures forall i :: 0 <= i < |RowsOf(p, start, t)| ==>
              start <= RowsOf(p, start, t)[i] < start + |p| && HasTag(p[RowsOf(p, start, t)[i] - start], t)
    ensures forall i :: 0 <= i < |p| && HasTag(p[i], t) ==> start + i in RowsOf(p, start, t)
    ensures forall i, j :: 0 <= i < j < |RowsOf(p, start, t)| ==> RowsOf(p, start, t)[i] < RowsOf(p, start, t)[j]
  {
    RowsOfBounds(p, start, t);
    RowsOfComplete(p, start, t);
    RowsOfSorted(p, start, t);
  }

  lemma {:induction false} RowsOfBounds(p: seq<RowKind>, start: int, t: RowTag)
    ensures forall i :: 0 <= i < |RowsOf(p, start, t)| ==>
              start <= RowsOf(p, start, t)[i] < start + |p| && HasTag(p[RowsOf(p, start, t)[i] - start], t)
    decreases |p|
  {
    if |p| > 0 {
      var init := p[..|p| - 1];
      var r, ri := RowsOf(p, start, t), RowsOf(init, start, t);
      RowsOfBounds(init, start, t);
      assert r == ri + (if HasTag(p[|p| - 1], t) then [start + |p| - 1] else []);
      forall i | 0 <= i < |r|
        ensures start <= r[i] < start + |p| && HasTag(p[r[i] - start], t)
      {
        if i < |ri| {
          assert r[i] == ri[i];
          assert init[ri[i] - start] == p[ri[i] - start];
        }
      }
    }
  }

  lemma {:induction false} RowsOfComplete(p: seq<RowKind>, start: int, t: RowTag)
    ensures forall i :: 0 <= i < |p| && HasTag(p[i], t) ==> start + i in RowsOf(p, start, t)
    decreases |p|
  {
    if |p| > 0 {
      var init := p[..|p| - 1];
      var r, ri := RowsOf(p, start, t), RowsOf(init, start, t);
      RowsOfComplete(init, start, t);
      assert r == ri + (if HasTag(p[|p| - 1], t) then [start + |p| - 1] else []);
      forall i | 0 <= i < |p| && HasTag(p[i], t) ensures start + i in r {
        if i < |init| {
          assert init[i] == p[i];
          assert start + i in ri;
        }
      }
    }
  }

  lemma {:induction false} RowsOfSorted(p: seq<RowKind>, start: int, t: RowTag)
    ensures forall i, j :: 0 <= i < j < |RowsOf(p, start, t)| ==> RowsOf(p, start, t)[i] < RowsOf(p, start, t)[j]
    decreases |p|
  {
    if |p| > 0 {
      var init := p[..|p| - 1];
      var r, ri := RowsOf(p, start, t), RowsOf(init, start, t);
      RowsOfSorted(init, start, t);
      RowsOfBounds(init, start, t);
      assert r == ri + (if HasTag(p[|p| - 1], t) then [start + |p| - 1] else []);
      forall i, j | 0 <= i < j < |r| ensures r[i] < r[j] {
        assert r[i] == ri[i];
        if j < |ri| {
          assert r[j] == ri[j];
        }
      }
    }
  }

  /** Laying out `p + q` from `start` is laying out `p`, then `q` right below. */
  lemma {:induction false} RowsOfAppend(p: seq<RowKind>, q: seq<RowKind>, start: int, t: RowTag)
    ensures RowsOf(p + q, start, t) == RowsOf(p, start, t) + RowsOf(q, start + |p|, t)
    decreases |q|
  {
    if |q| == 0 {
      assert p + q == p;
    } else {
      var q' := q[..|q| - 1];
      assert (p + q)[..|p + q| - 1] == p + q';
      RowsOfAppend(p, q', start, t);
    }
  }

  /** A plan whose entries all carry tag `t` yields one row per entry; one
      with no such entry yields none. */
  lemma {:induction false} RowsOfUniform(p: seq<RowKind>, start: int, t: RowTag)
    ensures (forall i :: 0 <= i < |p| ==> HasTag(p[i], t)) ==> |RowsOf(p, start, t)| == |p|
    ensures (forall i :: 0 <= i < |p| ==> !HasTag(p[i], t)) ==> RowsOf(p, start, t) == []
    decreases |p|
  {
    if |p| > 0 {
      RowsOfUniform(p[..|p| - 1], start, t);
    }
  }

  /** One cluster's rows hold one marker and one row per question. */
  lemma {:induction false} ClusterRowCounts(c: Cluster, s: int)
    ensures |RowsOf(ClusterPlan(c), s, MarkerTag)| == 1
    ensures |RowsOf(ClusterPlan(c), s, QuestionTag)| == |c.questions|
  {
    var m, qp := [MarkerRow(c.name)], QuestionPlan(c.questions);
    assert ClusterPlan(c) == (m + qp) + [BlankRow];
    forall t: RowTag
      ensures |RowsOf(ClusterPlan(c), s, t)| ==
                |RowsOf(m, s, t)| + |RowsOf(qp, s + 1, t)| + |RowsOf([BlankRow], s + 1 + |qp|, t)|
    {
      RowsOfAppend(m + qp, [BlankRow], s, t);
      RowsOfAppend(m, qp, s, t);
    }
    RowsOfUniform(qp, s + 1, MarkerTag);
    RowsOfUniform(qp, s + 1, QuestionTag);
    RowsOfUniform([BlankRow], s + 1 + |qp|, MarkerTag);
    RowsOfUniform([BlankRow], s + 1 + |qp|, QuestionTag);
    RowsOfUniform(m, s, MarkerTag);
    RowsOfUniform(m, s, QuestionTag);
  }

  /** The layout has one marker row per cluster and one question row per
      question. */
  lemma {:induction false} RowCounts(cs: seq<Cluster>, start: int)
    ensures |RowsOf(Plan(cs), start, MarkerTag)| == |cs|
    ensures |RowsOf(Plan(cs), start, QuestionTag)| == QuestionCount(cs)
    decreases |cs|
  {
    if |cs| > 0 {
      var init := cs[..|cs| - 1];
      var c := cs[|cs| - 1];
      RowCounts(init, start);
      RowsOfAppend(Plan(init), ClusterPlan(c), start, MarkerTag);
      RowsOfAppend(Plan(init), ClusterPlan(c), start, QuestionTag);
      ClusterRowCounts(c, start + |Plan(init)|);
    }
  }

  /** A cluster's only marker is its first row. */
  lemma {:induction false} ClusterMarkerRow(c: Cluster, s: int)
    ensures RowsOf(ClusterPlan(c), s, MarkerTag) == [s]
  {
    var m, qp := [MarkerRow(c.name)], QuestionPlan(c.questions);
    assert ClusterPlan(c) == (m + qp) + [BlankRow];
    RowsOfAppend(m + qp, [BlankRow], s, MarkerTag);
    RowsOfAppend(m, qp, s, MarkerTag);
    RowsOfUniform(qp, s + 1, MarkerTag);
    RowsOfUniform([BlankRow], s + 1 + |qp|, MarkerTag);
    assert m[..0] == [];
  }

  /** The `k`-th marker row of the layout is the marker of cluster `k`, at
      offset `MarkerOffset(cs, k)` below the start row. */
  lemma {:induction false} MarkerRowsAt(cs: seq<Cluster>, start: int, k: int)
    requires 0 <= k < |cs|
    ensures |RowsOf(Plan(cs), start, MarkerTag)| == |cs|
    ensures RowsOf(Plan(cs), start, MarkerTag)[k] == start + MarkerOffset(cs, k)
    ensures MarkerOffset(cs, k) < |Plan(cs)| && Plan(cs)[MarkerOffset(cs, k)] == MarkerRow(cs[k].name)
  {
    RowCounts(cs, start);
    MarkerRowIndex(cs, start, k);
    MarkerRowOfCluster(cs, k);
  }

  /** Cluster `k`'s marker sits at offset `MarkerOffset(cs, k)` of the plan. */
  lemma {:induction false} MarkerRowOfCluster(cs: seq<Cluster>, k: int)
    requires 0 <= k < |cs|
    ensures MarkerOffset(cs, k) < |Plan(cs)| && Plan(cs)[MarkerOffset(cs, k)] == MarkerRow(cs[k].name)
  {
    PlanClusterAt(cs, k);
    MarkerOffsetStep(cs, k);
    var a, b := MarkerOffset(cs, k), MarkerOffset(cs, k + 1);
    assert Plan(cs)[a..b][0] == Plan(cs)[a];
  }

  lemma {:induction false} MarkerRowIndex(cs: seq<Cluster>, start: int, k: int)
    requires 0 <= k < |cs|
    ensures |RowsOf(Plan(cs), start, MarkerTag)| == |cs|
    ensures RowsOf(Plan(cs), start, MarkerTag)[k] == start + MarkerOffset(cs, k)
    decreases |cs|
  {
    var n := |cs| - 1;
    var init := cs[..n];
    var pi := Plan(init);
    assert Plan(cs) == pi + ClusterPlan(cs[n]);
    RowCounts(init, start);
    RowsOfAppend(pi, ClusterPlan(cs[n]), start, MarkerTag);
    ClusterMarkerRow(cs[n], start + |pi|);
    var r, ri := RowsOf(Plan(cs), start, MarkerTag), RowsOf(pi, start, MarkerTag);
    assert r == ri + [start + |pi|];
    if k < n {
      MarkerRowIndex(init, start, k);
      assert cs[..k] == init[..k];
      assert r[k] == ri[k];
    } else {
      PlanLength(init);
      assert cs[..k] == init;
    }
  }

  /** The column A label of a question row, `f"Question {index}"`. */
  function QuestionLabel(q: Question): string
  {
    "Question " + IntToString(q.index)
  }

  /** The seven `Nothing` values written across G..M. */
  const TeamDefaults: seq<CellValue> :=
    [ Text(TeamSentinel), Text(TeamSentinel), Text(TeamSentinel), Text(TeamSentinel),
      Text(TeamSentinel), Text(TeamSentinel), Text(TeamSentinel) ]

  /** The value updates the loop appends for one row, in the order the
      source appends them. */
  function RowUpdates(k: RowKind, row: int, team: bool): seq<ValueUpdate>
  {
    match k
    case MarkerRow(name) => [ValueUpdate(row, ColA, [Text(name)])]
    case QuestionRow(q) =>
      [ ValueUpdate(row, ColA, [Text(QuestionLabel(q))]),
        ValueUpdate(row, ColD, [Text(AnswerSentinel)]),
        ValueUpdate(row, ColN, [Number(q.points)]) ]
      + (if team then [ValueUpdate(row, ColG, TeamDefaults)] else [])
    case BlankRow => []
  }

  /** The value, if any, the layout means column `col` of a row of kind `k`
      to hold; `None` means the cell is left alone. */
  function Expected(k: RowKind, col: int, team: bool): Option<CellValue>
  {
    match k
    case MarkerRow(name) => if col == ColA then Some(Text(name)) else None
    case QuestionRow(q) =>
      if col == ColA then Some(Text(QuestionLabel(q)))
      else if col == ColD then Some(Text(AnswerSentinel))
      else if col == ColN then Some(Number(q.points))
      else if team && ColG <= col <= ColM then Some(Text(TeamSentinel))
      else None
    case BlankRow => None
  }

  /** One row's updates stay on that row and inside columns A..N, and write
      only values the existing-work check does not count as work. */
  lemma {:induction false} RowUpdatesSafe(k: RowKind, row: int, team: bool)
    ensures forall u :: u in RowUpdates(k, row, team) ==>
              u.row == row && ColA <= u.col && u.col + |u.values| <= ColN + 1 && SentinelOnly(u)
  {
    SentinelsAreNotWork();
    if k.QuestionRow? {
      var us := RowUpdates(k, row, team);
      assert SentinelOnly(us[0]) && SentinelOnly(us[1]) && SentinelOnly(us[2]);
      if team {
        var u := us[3];
        assert u.values == TeamDefaults;
        forall j | 0 <= j < |u.values| ensures !CellIsWork(u.col + j, Display(u.values[j])) {
          assert Display(u.values[j]) == TeamSentinel;
        }
      }
    }
  }

  /** The updates `f` gives each row of a plan laid out from row `start`. */
  function UpdatesBy(p: seq<RowKind>, start: int, f: (RowKind, int) -> seq<ValueUpdate>): seq<ValueUpdate>
    decreases |p|
  {
    if |p| == 0 then []
    else UpdatesBy(p[..|p| - 1], start, f) + f(p[|p| - 1], start + |p| - 1)
  }

  lemma {:induction false} UpdatesByAppend(p: seq<RowKind>, q: seq<RowKind>, start: int, f: (RowKind, int) -> seq<ValueUpdate>)
    ensures UpdatesBy(p + q, start, f) == UpdatesBy(p, start, f) + UpdatesBy(q, start + |p|, f)
    decreases |q|
  {
    if |q| == 0 {
      assert p + q == p;
    } else {
      var q' := q[..|q| - 1];
      assert (p + q)[..|p + q| - 1] == p + q';
      UpdatesByAppend(p, q', start, f);
    }
  }

  function RowWriter(team: bool): (RowKind, int) -> seq<ValueUpdate>
  {
    (k, row) => RowUpdates(k, row, team)
  }

  /** The updates for a plan laid out from row `start`, row by row. */
  function UpdatesOf(p: seq<RowKind>, start: int, team: bool): seq<ValueUpdate>
  {
    UpdatesBy(p, start, RowWriter(team))
  }

  /** Every update of a laid-out plan stays on the plan's rows and inside
      columns A..N, and writes nothing the existing-work check would count
      as work. */
  lemma {:induction false} UpdatesOfSafe(p: seq<RowKind>, start: int, team: bool)
    ensures forall u :: u in UpdatesOf(p, start, team) ==>
              start <= u.row < start + |p| && ColA <= u.col && u.col + |u.values| <= ColN + 1 && SentinelOnly(u)
    decreases |p|
  {
    if |p| > 0 {
      UpdatesOfSafe(p[..|p| - 1], start, team);
      RowUpdatesSafe(p[|p| - 1], start + |p| - 1, team);
    }
  }

  /** Laying out `p + q` from `start` is laying out `p`, then `q` right below. */
  lemma {:induction false} UpdatesOfAppend(p: seq<RowKind>, q: seq<RowKind>, start: int, team: bool)
    ensures UpdatesOf(p + q, start, team) == UpdatesOf(p, start, team) + UpdatesOf(q, start + |p|, team)
  {
    UpdatesByAppend(p, q, start, RowWriter(team));
  }

  /** Applying one row's updates puts into each cell of that row exactly
      what `Expected` says, and leaves every other cell alone. */
  lemma {:induction false} RowContents(g: Grid, k: RowKind, row: int, team: bool, cell: (int, int))
    ensures var g' := ApplyUpdates(g, RowUpdates(k, row, team));
      if cell.0 == row && Expected(k, cell.1, team).Some?
      then cell in g' && g'[cell] == Expected(k, cell.1, team).value
      else Same(g, g', cell)
  {
    var us := RowUpdates(k, row, team);
    if cell.0 == row && Expected(k, cell.1, team).Some? {
      var j := if cell.1 == ColA then 0 else if cell.1 == ColD then 1 else if cell.1 == ColN then 2 else 3;
      ApplyUpdatesSole(g, us, j, cell);
    } else {
      ApplyUpdatesUntouched(g, us, cell);
    }
  }

  /** The updates of a plan are those of the rows above row `i`, then row
      `i`'s own, then those of the rows below. */
  lemma {:induction false} UpdatesOfSplit(p: seq<RowKind>, start: int, team: bool, i: int)
    requires 0 <= i < |p|
    ensures UpdatesOf(p, start, team) ==
              UpdatesOf(p[..i], start, team) + RowUpdates(p[i], start + i, team) + UpdatesOf(p[i + 1..], start + i + 1, team)
  {
    var f := RowWriter(team);
    UpdatesBySplit(p, start, f, i);
    assert f(p[i], start + i) == RowUpdates(p[i], start + i, team);
    assert UpdatesOf(p[..i], start, team) == UpdatesBy(p[..i], start, f);
    assert UpdatesOf(p[i + 1..], start + i + 1, team) == UpdatesBy(p[i + 1..], start + i + 1, f);
  }

  /** `UpdatesBy` of a plan is that of the rows before `i`, then row `i`'s
      own updates, then that of the rows after it. */
  lemma {:induction false} UpdatesBySplit(p: seq<RowKind>, start: int, f: (RowKind, int) -> seq<ValueUpdate>, i: int)
    requires 0 <= i < |p|
    ensures UpdatesBy(p, start, f) == UpdatesBy(p[..i], start, f) + f(p[i], start + i) + UpdatesBy(p[i + 1..], start + i + 1, f)
  {
    var pre, mid, post := p[..i], [p[i]], p[i + 1..];
    assert p == (pre + mid) + post;
    assert |pre + mid| == i + 1;
    UpdatesByAppend(pre + mid, post, start, f);
    UpdatesByAppend(pre, mid, start, f);
    assert mid[..0] == [];
    assert UpdatesBy(mid, start + i, f) == UpdatesBy([], start + i, f) + f(p[i], start + i);
  }

  /** After the values `batch_update` of a laid-out plan, each cell of plan
      row `i` holds what the row's kind calls for, or is left alone. */
  lemma {:induction false} LayoutRowContents(g: Grid, p: seq<RowKind>, start: int, team: bool, i: int, col: int)
    requires 0 <= i < |p|
    ensures var g' := ApplyUpdates(g, UpdatesOf(p, start, team));
      if Expected(p[i], col, team).Some?
      then (start + i, col) in g' && g'[(start + i, col)] == Expected(p[i], col, team).value
      else Same(g, g', (start + i, col))
  {
    var cell := (start + i, col);
    UpdatesOfSplit(p, start, team, i);
    var a := UpdatesOf(p[..i], start, team);
    var b := RowUpdates(p[i], start + i, team);
    var c := UpdatesOf(p[i + 1..], start + i + 1, team);
    UpdatesOfSafe(p[..i], start, team);
    UpdatesOfSafe(p[i + 1..], start + i + 1, team);
    ApplyUpdatesAppend(g, a + b, c);
    ApplyUpdatesAppend(g, a, b);
    var ga := ApplyUpdates(g, a);
    ApplyUpdatesUntouched(g, a, cell);
    RowContents(ga, p[i], start + i, team, cell);
    ApplyUpdatesUntouched(ApplyUpdates(ga, b), c, cell);
  }

  /** The values `batch_update` of a laid-out plan leaves every row outside
      the plan alone. */
  lemma {:induction false} LayoutOffRows(g: Grid, p: seq<RowKind>, start: int, team: bool, cell: (int, int))
    requires cell.0 < start || start + |p| <= cell.0
    ensures Same(g, ApplyUpdates(g, UpdatesOf(p, start, team)), cell)
  {
    UpdatesOfSafe(p, start, team);
    ApplyUpdatesUntouched(g, UpdatesOf(p, start, team), cell);
  }

  /** Clearing `rg` and then writing the layout: a layout cell holds what its
      row calls for, any other cell of `rg` is empty, and the rest is as
      before. */
  lemma {:induction false} ClearedLayoutCell(g: Grid, rg: CellRange, p: seq<RowKind>, start: int, team: bool, cell: (int, int))
    ensures var g' := ApplyUpdates(ClearRange(g, rg), UpdatesOf(p, start, team));
      if start <= cell.0 < start + |p| && Expected(p[cell.0 - start], cell.1, team).Some?
      then cell in g' && g'[cell] == Expected(p[cell.0 - start], cell.1, team).value
      else if InRange(cell, rg) then cell !in g'
      else Same(g, g', cell)
  {
    var g1 := ClearRange(g, rg);
    if start <= cell.0 < start + |p| {
      var i := cell.0 - start;
      assert cell == (start + i, cell.1);
      LayoutRowContents(g1, p, start, team, i, cell.1);
    } else {
      LayoutOffRows(g1, p, start, team, cell);
    }
  }

  /** The state of the layout loop after it has walked the rows of `p`:
      the updates and row lists of `p`, and the next free row. */
  ghost predicate Built(p: seq<RowKind>, start: int, team: bool, updates: seq<ValueUpdate>,
                        questionRows: seq<int>, markerRows: seq<int>, row: int)
  {
    && row == start + |p|
    && updates == UpdatesOf(p, start, team)
    && questionRows == RowsOf(p, start, QuestionTag)
    && markerRows == RowsOf(p, start, MarkerTag)
  }

  /** Walking one more row appends that row's updates and, for a marker or
      question row, its number to the matching list. */
  lemma {:induction false} Extend(p: seq<RowKind>, k: RowKind, start: int, team: bool, updates: seq<ValueUpdate>,
               questionRows: seq<int>, markerRows: seq<int>, row: int)
    requires Built(p, start, team, updates, questionRows, markerRows, row)
    ensures Built(p + [k], start, team, updates + RowUpdates(k, row, team),
                  questionRows + (if k.QuestionRow? then [row] else []),
                  markerRows + (if k.MarkerRow? then [row] else []), row + 1)
  {
    assert (p + [k])[..|p|] == p;
  }

  /** The inner loop of the updaters: one question row per question, each
      with its updates and its number appended. */
  method AddQuestions(qs: seq<Question>, start: int, team: bool, ghost p: seq<RowKind>,
                      updates0: seq<ValueUpdate>, questionRows0: seq<int>, markerRows: seq<int>, row0: int)
    returns (updates: seq<ValueUpdate>, questionRows: seq<int>, row: int)
    requires Built(p, start, team, updates0, questionRows0, markerRows, row0)
    ensures Built(p + QuestionPlan(qs), start, team, updates, questionRows, markerRows, row)
  {
    updates, questionRows, row := updates0, questionRows0, row0;
    ghost var p' := p;
    for j := 0 to |qs|
      invariant p' == p + QuestionPlan(qs[..j])
      invariant Built(p', start, team, updates, questionRows, markerRows, row)
    {
      var q := qs[j];
      Extend(p', QuestionRow(q), start, team, updates, questionRows, markerRows, row);
      questionRows := questionRows + [row];
      updates := updates + RowUpdates(QuestionRow(q), row, team);
      QuestionPlanStep(qs, j);
      p' := p' + [QuestionRow(q)];
      row := row + 1;
    }
    assert qs[..|qs|] == qs;
  }

  /** The question rows of the first `j + 1` questions extend those of the
      first `j` by question `j`'s row. */
  lemma {:induction false} QuestionPlanStep(qs: seq<Question>, j: int)
    requires 0 <= j < |qs|
    ensures QuestionPlan(qs[..j + 1]) == QuestionPlan(qs[..j]) + [QuestionRow(qs[j])]
  {
    var a, b := QuestionPlan(qs[..j + 1]), QuestionPlan(qs[..j]) + [QuestionRow(qs[j])];
    forall i | 0 <= i < j + 1 ensures a[i] == b[i] {
      assert qs[..j + 1][i] == qs[i];
      if i < j {
        assert qs[..j][i] == qs[i];
      }
    }
  }

  /** The plan of the first `k + 1` clusters extends that of the first `k`
      by cluster `k`'s marker, questions and blank. */
  lemma {:induction false} PlanStep(cs: seq<Cluster>, k: int)
    requires 0 <= k < |cs|
    ensures Plan(cs[..k + 1]) == Plan(cs[..k]) + [MarkerRow(cs[k].name)] + QuestionPlan(cs[k].questions) + [BlankRow]
  {
    assert cs[..k + 1][..k] == cs[..k];
  }

  /** The loop of the updaters: walk the clusters with a running row counter,
      append the marker's update and row number, then each question's
      updates and row number, then skip a blank row. It computes exactly the
      plan's updates and row lists, and the row after the last blank. */
  method BuildLayout(cs: seq<Cluster>, start: int, team: bool)
    returns (updates: seq<ValueUpdate>, questionRows: seq<int>, markerRows: seq<int>, next: int)
    ensures updates == UpdatesOf(Plan(cs), start, team)
    ensures questionRows == RowsOf(Plan(cs), start, QuestionTag)
    ensures markerRows == RowsOf(Plan(cs), start, MarkerTag)
    ensures next == start + |Plan(cs)|
  {
    updates, questionRows, markerRows := [], [], [];
    var row := start;
    ghost var p: seq<RowKind> := [];
    for k := 0 to |cs|
      invariant p == Plan(cs[..k])
      invariant Built(p, start, team, updates, questionRows, markerRows, row)
    {
      var c := cs[k];
      PlanStep(cs, k);
      Extend(p, MarkerRow(c.name), start, team, updates, questionRows, markerRows, row);
      markerRows := markerRows + [row];
      updates := updates + RowUpdates(MarkerRow(c.name), row, team);
      p := p + [MarkerRow(c.name)];
      row := row + 1;
      updates, questionRows, row := AddQuestions(c.questions, start, team, p, updates, questionRows, markerRows, row);
      p := p + QuestionPlan(c.questions);
      Extend(p, BlankRow, start, team, updates, questionRows, markerRows, row);
      updates := updates + RowUpdates(BlankRow, row, team);
      p := p + [BlankRow];
      row := row + 1;
    }
    assert cs[..|cs|] == cs;
    next := row;
  }
}
