/**
 `update_category_sheet`, the template updater. It opens the category's tab,
 runs the existing-work check over the region (rows 3..100, or 50..150 in test
 mode) and aborts when it fires. Otherwise it clears A..N of the region, writes
 the cluster layout from the region's first row, then sends the dropdowns,
 the row formatting, and the colour rules in batches of at most 100.
 */
module Template {
  import opened Common
  import opened Scoreboard
  import opened Sheet
  import opened Guard
  import opened Layout
  import opened Requests

  /** `start_row`: 50 in test mode, 3 otherwise. */
  function StartRow(testMode: bool): int
  {
    if testMode then 50 else 3
  }

  /** `end_row`: 150 in test mode, 100 otherwise. The clear and the check
      stop here; the layout does not. */
  function EndRow(testMode: bool): int
  {
    if testMode then 150 else 100
  }

  /** The calls a run makes once the check has passed: clear the region,
      write the layout's values, send the dropdowns, then the formats, then
      the colour rules chunk by chunk. */
  function TemplateCalls(cs: seq<Cluster>, start: int, end: int): seq<ApiCall>
  {
    var p := Plan(cs);
    var questionRows := RowsOf(p, start, QuestionTag);
    var markerRows := RowsOf(p, start, MarkerTag);
    [ BatchClear(CellRange(start, end, ColA, ColN)),
      ValuesBatchUpdate(UpdatesOf(p, start, true)),
      BatchUpdate(ValidationRequests(questionRows)),
      BatchUpdate(FormatRequests(markerRows, questionRows)) ]
    + BatchCalls(Chunks(ConditionalRequests(questionRows)))
  }

  /** `update_category_sheet`. `sheet` is the tab, `None` when it does not
      exist; `readFails` says whether reading the region raises. It succeeds
      exactly when the tab exists, can be read and its region holds no work;
      a failed run makes no call at all, a successful one makes exactly the
      calls of `TemplateCalls`. */
  method UpdateCategorySheet(sheet: Option<Grid>, clusters: seq<Cluster>, testMode: bool, readFails: bool)
    returns (success: bool, calls: seq<ApiCall>)
    ensures success <==> sheet.Some? && !readFails && Virgin(sheet.value, StartRow(testMode), EndRow(testMode))
    ensures !success ==> calls == []
    ensures success ==> calls == TemplateCalls(clusters, StartRow(testMode), EndRow(testMode))
  {
    if sheet.None? {
      return false, [];
    }
    var g := sheet.value;
    var start := StartRow(testMode);
    var end := EndRow(testMode);
    var answer := if readFails then ReadFailed else Rows(AnswerRead(g, start, end));
    var team := if readFails then ReadFailed else Rows(TeamRead(g, start, end));
    var found := CheckExistingWork(answer, team);
    NoWorkIffVirgin(g, start, end);
    if found {
      return false, [];
    }
    calls := [BatchClear(CellRange(start, end, ColA, ColN))];
    var updates, questionRows, markerRows, next := BuildLayout(clusters, start, true);
    calls := calls + [ValuesBatchUpdate(updates)];
    calls := calls + [BatchUpdate(ValidationRequests(questionRows))];
    calls := calls + [BatchUpdate(FormatRequests(markerRows, questionRows))];
    var batches := SendInChunks(ConditionalRequests(questionRows));
    calls := calls + batches;
    success := true;
  }

  /** A successful run changes cell values only through its clear and its
      values write: the grid afterwards is the layout written over the
      cleared region. */
  lemma {:induction false} TemplateValues(g: Grid, cs: seq<Cluster>, start: int, end: int)
    ensures ApplyCalls(g, TemplateCalls(cs, start, end)) ==
              ApplyUpdates(ClearRange(g, CellRange(start, end, ColA, ColN)), UpdatesOf(Plan(cs), start, true))
  {
    var calls := TemplateCalls(cs, start, end);
    var g1 := ClearRange(g, CellRange(start, end, ColA, ColN));
    var g2 := ApplyUpdates(g1, UpdatesOf(Plan(cs), start, true));
    assert calls == calls[..2] + calls[2..];
    ApplyCallsAppend(g, calls[..2], calls[2..]);
    assert ApplyCalls(g, calls[..2]) == g2 by {
      var two := calls[..2];
      assert two[0] == BatchClear(CellRange(start, end, ColA, ColN));
      assert two[1] == ValuesBatchUpdate(UpdatesOf(Plan(cs), start, true));
      assert ApplyCalls(g, two) == ApplyCalls(g1, two[1..]);
      assert ApplyCalls(g1, two[1..]) == ApplyCalls(g2, two[1..][1..]);
      assert two[1..][1..] == [];
    }
    var rest := calls[2..];
    BatchCallsWriteNothing(Chunks(ConditionalRequests(RowsOf(Plan(cs), start, QuestionTag))));
    forall i | 0 <= i < |rest| ensures !IsCellWrite(rest[i]) {
      assert rest[i] == calls[i + 2];
    }
    RequestsKeepValues(g2, rest);
  }

  /** What a successful run leaves in each cell: a layout cell holds its
      value; any other cell of the cleared region is empty; every other
      cell, including the unwritten cells of layout rows past the region,
      is as before. */
  lemma {:induction false} TemplateCell(g: Grid, cs: seq<Cluster>, start: int, end: int, cell: (int, int))
    ensures var g' := ApplyCalls(g, TemplateCalls(cs, start, end));
      var p := Plan(cs);
      if start <= cell.0 < start + |p| && Expected(p[cell.0 - start], cell.1, true).Some?
      then cell in g' && g'[cell] == Expected(p[cell.0 - start], cell.1, true).value
      else if InRange(cell, CellRange(start, end, ColA, ColN)) then cell !in g'
      else Same(g, g', cell)
  {
    TemplateValues(g, cs, start, end);
    ClearedLayoutCell(g, CellRange(start, end, ColA, ColN), Plan(cs), start, true, cell);
  }

  /** After a successful run the region holds no work, so running the
      updater again on the same tab passes the existing-work check and
      rewrites the region. */
  lemma {:induction false} SecondRunPasses(g: Grid, cs: seq<Cluster>, testMode: bool)
    ensures var start, end := StartRow(testMode), EndRow(testMode);
      var g' := ApplyCalls(g, TemplateCalls(cs, start, end));
      !HasWork(AnswerRead(g', start, end), TeamRead(g', start, end))
  {
    var start, end := StartRow(testMode), EndRow(testMode);
    var g1 := ClearRange(g, CellRange(start, end, ColA, ColN));
    var us := UpdatesOf(Plan(cs), start, true);
    TemplateValues(g, cs, start, end);
    ClearedIsVirgin(g, start, end);
    UpdatesOfSafe(Plan(cs), start, true);
    forall k | 0 <= k < |us| ensures SentinelOnly(us[k]) {
      assert us[k] in us;
    }
    SentinelUpdatesKeepVirgin(g1, us, start, end);
    NoWorkIffVirgin(ApplyCalls(g, TemplateCalls(cs, start, end)), start, end);
  }

  /** A successful run makes four calls, then one per 100 colour rules:
      `4 + ceil(10 * questions / 100)` in all. */
  lemma {:induction false} TemplateCallCount(cs: seq<Cluster>, start: int, end: int)
    ensures |TemplateCalls(cs, start, end)| == 4 + (10 * QuestionCount(cs) + ChunkSize - 1) / ChunkSize
  {
    var questionRows := RowsOf(Plan(cs), start, QuestionTag);
    RowCounts(cs, start);
    ConditionalLayout(questionRows);
    ChunksCount(ConditionalRequests(questionRows));
  }

  /** Nothing bounds the layout by `end_row`: when the plan's last written
      row (the last question of the last cluster, or its marker) lies below
      `end`, the values `batch_update` writes column A of a row that the
      existing-work check never reads and the clear never empties. */
  lemma {:induction false} LayoutOverrunsRegion(cs: seq<Cluster>, start: int, end: int, team: bool)
    requires |cs| > 0 && start + 2 * |cs| + QuestionCount(cs) - 2 > end
    ensures exists u :: u in UpdatesOf(Plan(cs), start, team) && u.row > end && u.col == ColA
  {
    var p, n := Plan(cs), |cs| - 1;
    var c := ClusterPlan(cs[n]);
    PlanLength(cs);
    assert p == Plan(cs[..n]) + c;
    var i := |p| - 2;
    assert p[i] == c[|c| - 2];
    if |cs[n].questions| == 0 {
      assert c[|c| - 2] == MarkerRow(cs[n].name);
    } else {
      var qs := cs[n].questions;
      assert c[|c| - 2] == QuestionPlan(qs)[|qs| - 1] == QuestionRow(qs[|qs| - 1]);
    }
    UpdatesOfSplit(p, start, team, i);
    var u := RowUpdates(p[i], start + i, team)[0];
    assert u in UpdatesOf(p, start, team);
  }
}
