/**
 The three archived single-category updaters for the OSINT tab. All three
 parse the "Open Source Intelligence" module and lay its clusters out as the
 template does (marker row, one row per question, blank row); they differ in
 what they send:

 - the final variant writes from row 3 (row 50 with `--test`) without a
   check or a clear, then adds the dropdowns, the row formats and the colour
   rules of the team columns, in batches of at most 100;
 - the test variant writes from row 3, then copies the dropdowns of row 4
   onto every question row, one call per row, skipping a row whose copy
   raises;
 - the clean variant clears A3:N100, writes from row 3 without the team
   defaults, and gives each marker row a light grey background.

 Nothing but the clear is sent without `--yes`.
 */
module Osint {
  import opened Common
  import opened Scoreboard
  import opened Sheet
  import opened Layout
  import opened Requests
  import Template

  /** The scoreboard module the updaters read. */
  const OsintCategory: string := "Open Source Intelligence"

  /** `parse_osint_challenges`: the clusters of the first module named
      "Open Source Intelligence"; `[]` when there is none; a nameless module
      met before it raises. */
  function ParseOsint(s: Snapshot): (r: Result<seq<Cluster>, ParseError>)
    ensures NoMatchBefore(ModulesOf(s), OsintCategory, |ModulesOf(s)|) ==> r == Ok([])
    ensures forall k :: (0 <= k < |ModulesOf(s)| && NoMatchBefore(ModulesOf(s), OsintCategory, k)
                          && ModulesOf(s)[k].name == Some(OsintCategory))
                          ==> r == ParseClusters(ClustersOf(ModulesOf(s)[k]))
    ensures forall k :: (0 <= k < |ModulesOf(s)| && NoMatchBefore(ModulesOf(s), OsintCategory, k)
                          && ModulesOf(s)[k].name.None?)
                          ==> r == Err(MissingKey("name"))
  {
    ParseCategory(s, OsintCategory)
  }

  // ---------------------------------------------------------------------
  // The final variant

  /** The calls of a confirmed run of the final variant: the layout's values
      with the team defaults, the dropdowns, the formats, then the five team
      colour rules per question row in batches of at most 100. */
  function FinalCalls(cs: seq<Cluster>, testMode: bool): seq<ApiCall>
  {
    var start := Template.StartRow(testMode);
    var p := Plan(cs);
    var questionRows := RowsOf(p, start, QuestionTag);
    var markerRows := RowsOf(p, start, MarkerTag);
    [ ValuesBatchUpdate(UpdatesOf(p, start, true)),
      BatchUpdate(ValidationRequests(questionRows)),
      BatchUpdate(FormatRequests(markerRows, questionRows)) ]
    + BatchCalls(Chunks(TeamConditionalRequests(questionRows)))
  }

  /** `update_osint_sheet` of the final variant. `tabExists` says whether
      the OSINT tab exists (opening a missing one raises before any call);
      `confirmed` is `--yes`. Without both, nothing is sent. */
  method UpdateOsintFinal(tabExists: bool, cs: seq<Cluster>, testMode: bool, confirmed: bool)
    returns (calls: seq<ApiCall>)
    ensures !tabExists || !confirmed ==> calls == []
    ensures tabExists && confirmed ==> calls == FinalCalls(cs, testMode)
  {
    if !tabExists {
      return [];
    }
    var start := Template.StartRow(testMode);
    var updates, questionRows, markerRows, next := BuildLayout(cs, start, true);
    if !confirmed {
      return [];
    }
    calls := [ValuesBatchUpdate(updates)];
    calls := calls + [BatchUpdate(ValidationRequests(questionRows))];
    calls := calls + [BatchUpdate(FormatRequests(markerRows, questionRows))];
    var batches := SendInChunks(TeamConditionalRequests(questionRows));
    calls := calls + batches;
  }

  /** Only the first call of a final run writes values; the rest are
      requests. */
  lemma {:induction false} FinalValues(g: Grid, cs: seq<Cluster>, testMode: bool)
    ensures ApplyCalls(g, FinalCalls(cs, testMode)) ==
              ApplyUpdates(g, UpdatesOf(Plan(cs), Template.StartRow(testMode), true))
  {
    var start := Template.StartRow(testMode);
    var calls := FinalCalls(cs, testMode);
    var g1 := ApplyUpdates(g, UpdatesOf(Plan(cs), start, true));
    assert calls == calls[..1] + calls[1..];
    ApplyCallsAppend(g, calls[..1], calls[1..]);
    assert ApplyCalls(g, calls[..1]) == g1 by {
      var one := calls[..1];
      assert one[0] == ValuesBatchUpdate(UpdatesOf(Plan(cs), start, true));
      assert ApplyCalls(g, one) == ApplyCalls(g1, one[1..]);
      assert one[1..] == [];
    }
    var rest := calls[1..];
    BatchCallsWriteNothing(Chunks(TeamConditionalRequests(RowsOf(Plan(cs), start, QuestionTag))));
    forall i | 0 <= i < |rest| ensures !IsCellWrite(rest[i]) {
      assert rest[i] == calls[i + 1];
    }
    RequestsKeepValues(g1, rest);
  }

  /** What a confirmed final run leaves in each cell: a layout cell holds
      its value, with `Nothing` across G..M of every question row; since
      nothing is cleared, every other cell keeps what it held. */
  lemma {:induction false} FinalCell(g: Grid, cs: seq<Cluster>, testMode: bool, cell: (int, int))
    ensures var start := Template.StartRow(testMode);
      var g' := ApplyCalls(g, FinalCalls(cs, testMode));
      var p := Plan(cs);
      if start <= cell.0 < start + |p| && Expected(p[cell.0 - start], cell.1, true).Some?
      then cell in g' && g'[cell] == Expected(p[cell.0 - start], cell.1, true).value
      else Same(g, g', cell)
  {
    var start := Template.StartRow(testMode);
    FinalValues(g, cs, testMode);
    var p := Plan(cs);
    if start <= cell.0 < start + |p| {
      LayoutRowContents(g, p, start, true, cell.0 - start, cell.1);
    } else {
      LayoutOffRows(g, p, start, true, cell);
    }
  }

  /** A confirmed final run makes three calls, then one per 100 team colour
      rules: `3 + ceil(5 * questions / 100)` in all. */
  lemma {:induction false} FinalCallCount(cs: seq<Cluster>, testMode: bool)
    ensures |FinalCalls(cs, testMode)| == 3 + (5 * QuestionCount(cs) + ChunkSize - 1) / ChunkSize
  {
    var questionRows := RowsOf(Plan(cs), Template.StartRow(testMode), QuestionTag);
    RowCounts(cs, Template.StartRow(testMode));
    TeamConditionalLayout(questionRows);
    ChunksCount(TeamConditionalRequests(questionRows));
  }

  // ---------------------------------------------------------------------
  // The test variant

  /** The first row of the test and clean variants. */
  const FirstRow: int := 3

  /** The request that copies the dropdowns of row 4 (columns A..N) onto
      the same columns of `row`. */
  function CopyRequest(row: int): Request
  {
    CopyPaste(RowSpan(4, ColA, ColN + 1), RowSpan(row, ColA, ColN + 1), PasteDataValidation)
  }

  /** One copy call per question row, in order, except for the rows whose
      copy raises (`fails`), which are reported and skipped. */
  function CopyCalls(rows: seq<int>, fails: int -> bool): seq<ApiCall>
    decreases |rows|
  {
    if |rows| == 0 then []
    else CopyCalls(rows[..|rows| - 1], fails)
         + (if fails(rows[|rows| - 1]) then [] else [BatchUpdate([CopyRequest(rows[|rows| - 1])])])
  }

  /** The calls of a confirmed run of the test variant. */
  function TestCalls(cs: seq<Cluster>, fails: int -> bool): seq<ApiCall>
  {
    var p := Plan(cs);
    [ValuesBatchUpdate(UpdatesOf(p, FirstRow, true))] + CopyCalls(RowsOf(p, FirstRow, QuestionTag), fails)
  }

  /** `update_osint_sheet` of the test variant. `fails(r)` says whether
      reading row 4 or sending the copy for row `r` raises. */
  method UpdateOsintTest(tabExists: bool, cs: seq<Cluster>, confirmed: bool, fails: int -> bool)
    returns (calls: seq<ApiCall>)
    ensures !tabExists || !confirmed ==> calls == []
    ensures tabExists && confirmed ==> calls == TestCalls(cs, fails)
  {
    if !tabExists {
      return [];
    }
    var updates, questionRows, markerRows, next := BuildLayout(cs, FirstRow, true);
    if !confirmed {
      return [];
    }
    calls := [ValuesBatchUpdate(updates)];
    for i := 0 to |questionRows|
      invariant calls == [ValuesBatchUpdate(updates)] + CopyCalls(questionRows[..i], fails)
    {
      var row := questionRows[i];
      assert questionRows[..i + 1][..i] == questionRows[..i];
      if !fails(row) {
        calls := calls + [BatchUpdate([CopyRequest(row)])];
      }
    }
    assert questionRows[..|questionRows|] == questionRows;
  }

  /** Every copy call carries one copy from row 4 onto a listed row that
      did not fail, and every listed row that did not fail gets one. */
  lemma {:induction false} CopyCallsExact(rows: seq<int>, fails: int -> bool, c: ApiCall)
    ensures c in CopyCalls(rows, fails) <==>
              exists r :: r in rows && !fails(r) && c == BatchUpdate([CopyRequest(r)])
    decreases |rows|
  {
    if |rows| > 0 {
      var init, last := rows[..|rows| - 1], rows[|rows| - 1];
      CopyCallsExact(init, fails, c);
      assert rows == init + [last];
      if c in CopyCalls(rows, fails) && c !in CopyCalls(init, fails) {
        assert last in rows;
      }
      if exists r :: r in rows && !fails(r) && c == BatchUpdate([CopyRequest(r)]) {
        var r :| r in rows && !fails(r) && c == BatchUpdate([CopyRequest(r)]);
        if r != last {
          assert r in init;
        }
      }
    }
  }

  /** The number of listed rows whose copy does not fail. */
  function Succeeding(rows: seq<int>, fails: int -> bool): nat
    decreases |rows|
  {
    if |rows| == 0 then 0
    else Succeeding(rows[..|rows| - 1], fails) + (if fails(rows[|rows| - 1]) then 0 else 1)
  }

  /** One copy call per non-failing row, and one per question row when none
      fails. */
  lemma {:induction false} CopyCallCount(rows: seq<int>, fails: int -> bool)
    ensures |CopyCalls(rows, fails)| == Succeeding(rows, fails) <= |rows|
    ensures (forall i :: 0 <= i < |rows| ==> !fails(rows[i])) ==> Succeeding(rows, fails) == |rows|
    decreases |rows|
  {
    if |rows| > 0 {
      var init := rows[..|rows| - 1];
      CopyCallCount(init, fails);
      assert forall i :: 0 <= i < |init| ==> init[i] == rows[i];
    }
  }

  /** The copies change no value: a confirmed test run leaves the grid as
      the values write alone does, whichever copies fail. */
  lemma {:induction false} TestValues(g: Grid, cs: seq<Cluster>, fails: int -> bool)
    ensures ApplyCalls(g, TestCalls(cs, fails)) == ApplyUpdates(g, UpdatesOf(Plan(cs), FirstRow, true))
  {
    var rows := RowsOf(Plan(cs), FirstRow, QuestionTag);
    var copies := CopyCalls(rows, fails);
    var g1 := ApplyUpdates(g, UpdatesOf(Plan(cs), FirstRow, true));
    var head := [ValuesBatchUpdate(UpdatesOf(Plan(cs), FirstRow, true))];
    ApplyCallsAppend(g, head, copies);
    assert ApplyCalls(g, head) == ApplyCalls(g1, head[1..]);
    assert head[1..] == [];
    forall i | 0 <= i < |copies| ensures !IsCellWrite(copies[i]) {
      assert copies[i] in copies;
      CopyCallsExact(rows, fails, copies[i]);
    }
    RequestsKeepValues(g1, copies);
  }

  // ---------------------------------------------------------------------
  // The clean variant

  /** The range the clean variant clears first, A3:N100. */
  const CleanRange: CellRange := CellRange(3, 100, ColA, ColN)

  /** The light grey background of a marker row, columns A..N. */
  function CleanMarkerFormat(row: int): seq<Request>
  {
    [RepeatCell(RowSpan(row, ColA, ColN + 1), MarkerLightGrey)]
  }

  /** The calls of the clean variant as written: the clear is sent before
      `--yes` is consulted; a confirmed run then writes the layout without
      the team defaults and formats the marker rows. */
  function CleanCalls(cs: seq<Cluster>, confirmed: bool): seq<ApiCall>
  {
    var p := Plan(cs);
    [BatchClear(CleanRange)]
    + (if confirmed
       then [ ValuesBatchUpdate(UpdatesOf(p, FirstRow, false)),
              BatchUpdate(PerRow(RowsOf(p, FirstRow, MarkerTag), CleanMarkerFormat)) ]
       else [])
  }

  /** `update_osint_sheet` of the clean variant. */
  method UpdateOsintClean(tabExists: bool, cs: seq<Cluster>, confirmed: bool) returns (calls: seq<ApiCall>)
    ensures !tabExists ==> calls == []
    ensures tabExists ==> calls == CleanCalls(cs, confirmed)
  {
    if !tabExists {
      return [];
    }
    calls := [BatchClear(CleanRange)];
    var updates, questionRows, markerRows, next := BuildLayout(cs, FirstRow, false);
    if confirmed {
      calls := calls + [ValuesBatchUpdate(updates)];
      calls := calls + [BatchUpdate(PerRow(markerRows, CleanMarkerFormat))];
    }
  }

  /** The marker formats: one light grey request per cluster, on that
      cluster's marker row, across A..N. */
  lemma {:induction false} CleanMarkerFormats(cs: seq<Cluster>, i: int)
    requires 0 <= i < |cs|
    ensures var rows := RowsOf(Plan(cs), FirstRow, MarkerTag);
      && |rows| == |cs| && |PerRow(rows, CleanMarkerFormat)| == |cs|
      && PerRow(rows, CleanMarkerFormat)[i] == RepeatCell(RowSpan(rows[i], ColA, ColN + 1), MarkerLightGrey)
      && FirstRow <= rows[i] < FirstRow + |Plan(cs)|
      && Plan(cs)[rows[i] - FirstRow] == MarkerRow(cs[i].name)
  {
    var rows := RowsOf(Plan(cs), FirstRow, MarkerTag);
    RowCounts(cs, FirstRow);
    PerRowLength(rows, CleanMarkerFormat, 1);
    PerRowAt(rows, CleanMarkerFormat, 1, i, 0);
    MarkerRowsAt(cs, FirstRow, i);
  }

  /** A confirmed clean run leaves the layout written over the cleared
      A3:N100. */
  lemma {:induction false} CleanValues(g: Grid, cs: seq<Cluster>)
    ensures ApplyCalls(g, CleanCalls(cs, true)) ==
              ApplyUpdates(ClearRange(g, CleanRange), UpdatesOf(Plan(cs), FirstRow, false))
  {
    var calls := CleanCalls(cs, true);
    var g1 := ClearRange(g, CleanRange);
    var g2 := ApplyUpdates(g1, UpdatesOf(Plan(cs), FirstRow, false));
    assert calls[0] == BatchClear(CleanRange);
    assert calls[1] == ValuesBatchUpdate(UpdatesOf(Plan(cs), FirstRow, false));
    assert ApplyCalls(g, calls) == ApplyCalls(g1, calls[1..]);
    assert ApplyCalls(g1, calls[1..]) == ApplyCalls(g2, calls[1..][1..]);
    var last := calls[1..][1..];
    assert last == [BatchUpdate(PerRow(RowsOf(Plan(cs), FirstRow, MarkerTag), CleanMarkerFormat))];
    assert ApplyCalls(g2, last) == ApplyCalls(g2, last[1..]);
    assert last[1..] == [];
  }

  /** What a confirmed clean run leaves in each cell: a layout cell holds
      its value; every other cell of A3:N100 is empty, the team columns of
      the question rows included; every cell outside is as before. */
  lemma {:induction false} CleanCell(g: Grid, cs: seq<Cluster>, cell: (int, int))
    ensures var g' := ApplyCalls(g, CleanCalls(cs, true));
      var p := Plan(cs);
      if FirstRow <= cell.0 < FirstRow + |p| && Expected(p[cell.0 - FirstRow], cell.1, false).Some?
      then cell in g' && g'[cell] == Expected(p[cell.0 - FirstRow], cell.1, false).value
      else if InRange(cell, CleanRange) then cell !in g'
      else Same(g, g', cell)
  {
    CleanValues(g, cs);
    ClearedLayoutCell(g, CleanRange, Plan(cs), FirstRow, false, cell);
  }

  /** As written, a run without `--yes`, which reports that it changed
      nothing, has already emptied A3:N100: a sheet with anything in A3
      comes out different. */
  lemma {:induction false} PreviewClears(g: Grid, cs: seq<Cluster>)
    requires (3, ColA) in g
    ensures CleanCalls(cs, false) == [BatchClear(CleanRange)]
    ensures ApplyCalls(g, CleanCalls(cs, false)) != g
  {
    var calls := CleanCalls(cs, false);
    var g' := ApplyCalls(g, calls);
    assert calls == [BatchClear(CleanRange)];
    assert g' == ApplyCalls(ClearRange(g, CleanRange), calls[1..]);
    assert calls[1..] == [];
    assert (3, ColA) !in g';
  }

  /** The clean variant as its preview message describes it: the clear is
      part of the confirmed run. */
  function CleanCallsIntended(cs: seq<Cluster>, confirmed: bool): seq<ApiCall>
  {
    if confirmed then CleanCalls(cs, true) else []
  }

  /** With the clear moved under `--yes`, a preview changes no cell, and a
      confirmed run is unchanged. */
  lemma {:induction false} PreviewKeepsSheet(g: Grid, cs: seq<Cluster>)
    ensures ApplyCalls(g, CleanCallsIntended(cs, false)) == g
    ensures CleanCallsIntended(cs, true) == CleanCalls(cs, true)
  {
  }
}
