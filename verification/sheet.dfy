/**
 The spreadsheet as the synchronizer sees it. A worksheet's contents are a
 finite map from (1-based row, 0-based column) to a cell value; column A is 0,
 D is 3, G..M are 6..12 and N is 13. The scripts talk to the sheet through
 three calls: `batch_clear` of an A1 range, a values `batch_update` of ranges
 starting at one cell, and a spreadsheet `batch_update` of API requests
 (validation, formatting, conditional formatting, copy-paste), which changes
 presentation but no cell value.
 */
module Sheet {
  import opened Common

  const ColA: int := 0
  const ColD: int := 3
  const ColG: int := 6
  const ColM: int := 12
  const ColN: int := 13

  /** The sentinel for an untouched Answer Status cell (column D). */
  const AnswerSentinel: string := "N/A"
  /** The sentinel for an untouched team member cell (columns G..M). */
  const TeamSentinel: string := "Nothing"

  /** The choices of the Answer Status dropdown, in the order listed. */
  const AnswerChoices: seq<string> := ["Yes", "No", "N/A", "Needs Validation", "Ready to submit"]
  /** The choices of the team member dropdown, in the order listed. */
  const TeamChoices: seq<string> := ["Nothing", "Started", "Agree", "Disagree", "Surrender"]

  /** A value written to a cell: a string, or a number (the point values). */
  datatype CellValue = Text(text: string) | Number(n: int)

  /** What reading a cell back gives: the string, or the decimal rendering. */
  function Display(v: CellValue): string
  {
    match v
    case Text(s) => s
    case Number(n) => IntToString(n)
  }

  /** Cell contents keyed by (row, column); an absent key is an empty cell. */
  type Grid = map<(int, int), CellValue>

  /** One entry of a values `batch_update`: `values` written rightwards from
      the cell at `row`, `col` (`A5` is one value, `G5:M5` seven). */
  datatype ValueUpdate = ValueUpdate(row: int, col: int, values: seq<CellValue>)

  /** The cell lies in the span `u` writes. */
  predicate Writes(u: ValueUpdate, cell: (int, int))
  {
    cell.0 == u.row && u.col <= cell.1 < u.col + |u.values|
  }

  /** An inclusive A1 range `rows row1..row2 x columns col1..col2`. */
  datatype CellRange = CellRange(row1: int, row2: int, col1: int, col2: int)

  predicate InRange(cell: (int, int), rg: CellRange)
  {
    rg.row1 <= cell.0 <= rg.row2 && rg.col1 <= cell.1 <= rg.col2
  }

  /** A Sheets API grid range: 0-based, end-exclusive row and column bounds. */
  datatype GridRange = GridRange(startRow: int, endRow: int, startCol: int, endCol: int)

  /** The grid range of columns `c1 <= c < c2` of the 1-based sheet row `row`. */
  function RowSpan(row: int, c1: int, c2: int): GridRange
  {
    GridRange(row - 1, row, c1, c2)
  }

  /** The two dropdowns; both are strict and show the custom picker. */
  datatype ValidationRule = AnswerStatusRule | TeamMemberRule

  /** The values a dropdown accepts. */
  function Choices(rule: ValidationRule): seq<string>
  {
    match rule
    case AnswerStatusRule => AnswerChoices
    case TeamMemberRule => TeamChoices
  }

  /** A `repeatCell` format, named by what it looks like. */
  datatype CellFormat =
    | MarkerGrey        // background 0.85 grey, the template and final OSINT marker rows
    | MarkerLightGrey   // background 0.9 grey, the clean OSINT marker rows
    | WhiteBordered     // white background with solid borders, question rows
    | WhiteText         // white foreground text, team columns of question rows

  /** The look a conditional format rule applies, named by its colours. */
  datatype Highlight =
    | WhiteBoldOnGreen | WhiteBoldOnRed | OnGrey | OnBeige | DarkGreenBoldOnLightGreen
    | OnWhite | OnLightGreen | BoldOnGreen | WhiteBoldOnBlack

  datatype PasteType = PasteDataValidation

  /** A request of a spreadsheet `batch_update`. */
  datatype Request =
    | SetDataValidation(range: GridRange, rule: ValidationRule)
    | RepeatCell(range: GridRange, format: CellFormat)
    | AddConditionalFormat(range: GridRange, textEq: string, highlight: Highlight)
    | CopyPaste(source: GridRange, destination: GridRange, pasteType: PasteType)

  /** One call to the spreadsheet service. */
  datatype ApiCall =
    | BatchClear(range: CellRange)
    | ValuesBatchUpdate(updates: seq<ValueUpdate>)
    | BatchUpdate(requests: seq<Request>)

  /** A call against one named tab. */
  datatype TabCall = TabCall(tab: string, call: ApiCall)

  /** The call changes cell values (clear or write), as opposed to requests. */
  predicate IsCellWrite(c: ApiCall)
  {
    c.BatchClear? || c.ValuesBatchUpdate?
  }

  /** The grid after one value update: the cells `u` spans take its values,
      every other cell is as before. */
  function ApplyUpdate(g: Grid, u: ValueUpdate): (r: Grid)
    ensures forall cell :: cell in r <==> cell in g || Writes(u, cell)
    ensures forall cell :: Writes(u, cell) ==> r[cell] == u.values[cell.1 - u.col]
    ensures forall cell :: cell in g && !Writes(u, cell) ==> r[cell] == g[cell]
    decreases |u.values|
  {
    if |u.values| == 0 then g
    else
      var rest := ValueUpdate(u.row, u.col + 1, u.values[1..]);
      var r := ApplyUpdate(g[(u.row, u.col) := u.values[0]], rest);
      ApplyUpdateStep(g, u, r);
      r
  }

  /** The step of `ApplyUpdate`: writing the first value, then the rest of
      the span one column to the right, writes the whole span. */
  lemma {:induction false} ApplyUpdateStep(g: Grid, u: ValueUpdate, r: Grid)
    requires |u.values| > 0
    requires var g', rest := g[(u.row, u.col) := u.values[0]], ValueUpdate(u.row, u.col + 1, u.values[1..]);
             && (forall cell :: cell in r <==> cell in g' || Writes(rest, cell))
             && (forall cell :: Writes(rest, cell) ==> r[cell] == rest.values[cell.1 - rest.col])
             && (forall cell :: cell in g' && !Writes(rest, cell) ==> r[cell] == g'[cell])
    ensures forall cell :: cell in r <==> cell in g || Writes(u, cell)
    ensures forall cell :: Writes(u, cell) ==> r[cell] == u.values[cell.1 - u.col]
    ensures forall cell :: cell in g && !Writes(u, cell) ==> r[cell] == g[cell]
  {
    var g', rest := g[(u.row, u.col) := u.values[0]], ValueUpdate(u.row, u.col + 1, u.values[1..]);
    forall cell | Writes(u, cell)
      ensures cell in r && r[cell] == u.values[cell.1 - u.col]
    {
      if cell.1 == u.col {
        assert cell == (u.row, u.col) && !Writes(rest, cell);
      } else {
        assert Writes(rest, cell);
        assert u.values[cell.1 - u.col] == rest.values[cell.1 - rest.col];
      }
    }
  }

  /** The grid after a values `batch_update`, entries applied in order. */
  function ApplyUpdates(g: Grid, us: seq<ValueUpdate>): Grid
    decreases |us|
  {
    if |us| == 0 then g else ApplyUpdates(ApplyUpdate(g, us[0]), us[1..])
  }

  /** The cell holds the same thing (or is empty) in both grids. */
  predicate Same(g: Grid, g': Grid, cell: (int, int))
  {
    (cell in g' <==> cell in g) && (cell in g ==> g'[cell] == g[cell])
  }

  /** Applying `us + vs` is applying `us`, then `vs`. */
  lemma {:induction false} ApplyUpdatesAppend(g: Grid, us: seq<ValueUpdate>, vs: seq<ValueUpdate>)
    ensures ApplyUpdates(g, us + vs) == ApplyUpdates(ApplyUpdates(g, us), vs)
    decreases |us|
  {
    if |us| == 0 {
      assert us + vs == vs;
    } else {
      assert (us + vs)[1..] == us[1..] + vs;
      ApplyUpdatesAppend(ApplyUpdate(g, us[0]), us[1..], vs);
    }
  }

  /** A cell no update spans keeps its contents. */
  lemma {:induction false} ApplyUpdatesUntouched(g: Grid, us: seq<ValueUpdate>, cell: (int, int))
    requires forall j :: 0 <= j < |us| ==> !Writes(us[j], cell)
    ensures Same(g, ApplyUpdates(g, us), cell)
    decreases |us|
  {
    if |us| > 0 {
      assert !Writes(us[0], cell);
      ApplyUpdatesUntouched(ApplyUpdate(g, us[0]), us[1..], cell);
    }
  }

  /** A cell exactly one update spans ends up holding that update's value. */
  lemma {:induction false} ApplyUpdatesSole(g: Grid, us: seq<ValueUpdate>, j: int, cell: (int, int))
    requires 0 <= j < |us| && Writes(us[j], cell)
    requires forall k :: 0 <= k < |us| && k != j ==> !Writes(us[k], cell)
    ensures cell in ApplyUpdates(g, us)
    ensures ApplyUpdates(g, us)[cell] == us[j].values[cell.1 - us[j].col]
  {
    var pre, post := us[..j], us[j + 1..];
    assert us == pre + [us[j]] + post;
    ApplyUpdatesAppend(g, pre + [us[j]], post);
    ApplyUpdatesAppend(g, pre, [us[j]]);
    var h := ApplyUpdate(ApplyUpdates(g, pre), us[j]);
    assert ApplyUpdates(ApplyUpdates(g, pre), [us[j]]) == h;
    forall k | 0 <= k < |post| ensures !Writes(post[k], cell) {
      assert post[k] == us[j + 1 + k];
    }
    ApplyUpdatesUntouched(h, post, cell);
  }

  /** The grid after `batch_clear` of `rg`: its cells are emptied. */
  function ClearRange(g: Grid, rg: CellRange): (r: Grid)
    ensures forall cell :: cell in r <==> cell in g && !InRange(cell, rg)
    ensures forall cell :: cell in r ==> r[cell] == g[cell]
  {
    map cell | cell in g && !InRange(cell, rg) :: g[cell]
  }

  /** The cell values after one call; requests leave them alone. */
  function ApplyCall(g: Grid, c: ApiCall): Grid
  {
    match c
    case BatchClear(rg) => ClearRange(g, rg)
    case ValuesBatchUpdate(us) => ApplyUpdates(g, us)
    case BatchUpdate(_) => g
  }

  /** The cell values after a sequence of calls, in order. */
  function ApplyCalls(g: Grid, cs: seq<ApiCall>): Grid
    decreases |cs|
  {
    if |cs| == 0 then g else ApplyCalls(ApplyCall(g, cs[0]), cs[1..])
  }

  /** Making calls `cs + ds` is making `cs`, then `ds`. */
  lemma {:induction false} ApplyCallsAppend(g: Grid, cs: seq<ApiCall>, ds: seq<ApiCall>)
    ensures ApplyCalls(g, cs + ds) == ApplyCalls(ApplyCalls(g, cs), ds)
    decreases |cs|
  {
    if |cs| == 0 {
      assert cs + ds == ds;
    } else {
      assert (cs + ds)[1..] == cs[1..] + ds;
      ApplyCallsAppend(ApplyCall(g, cs[0]), cs[1..], ds);
    }
  }

  /** Calls that neither clear nor write values leave every cell as it was. */
  lemma {:induction false} RequestsKeepValues(g: Grid, cs: seq<ApiCall>)
    requires forall i :: 0 <= i < |cs| ==> !IsCellWrite(cs[i])
    ensures ApplyCalls(g, cs) == g
    decreases |cs|
  {
    if |cs| > 0 {
      assert !IsCellWrite(cs[0]);
      RequestsKeepValues(g, cs[1..]);
    }
  }

  /** The writes `f` gives item `j` of `xs` on row `first + j`, item after
      item: the shape of the updaters' loops that lay a list out one row per
      item. */
  function WritesFrom<T>(first: int, xs: seq<T>, f: (int, T) -> seq<ValueUpdate>): seq<ValueUpdate>
    decreases |xs|
  {
    if |xs| == 0 then [] else WritesFrom(first, xs[..|xs| - 1], f) + f(first + |xs| - 1, xs[|xs| - 1])
  }

  /** When `f` gives two writes per item, there are two per item. */
  lemma {:induction false} WritesFromLength<T>(first: int, xs: seq<T>, f: (int, T) -> seq<ValueUpdate>)
    requires forall r, x :: |f(r, x)| == 2
    ensures |WritesFrom(first, xs, f)| == 2 * |xs|
    decreases |xs|
  {
    if |xs| > 0 {
      WritesFromLength(first, xs[..|xs| - 1], f);
    }
  }

  /** When `f` gives two writes per item, item `j`'s two writes, for row
      `first + j`, are at positions `2j` and `2j + 1`. */
  lemma {:induction false} WritesFromAt<T>(first: int, xs: seq<T>, f: (int, T) -> seq<ValueUpdate>, j: int)
    requires forall r, x :: |f(r, x)| == 2
    requires 0 <= j < |xs|
    ensures |WritesFrom(first, xs, f)| == 2 * |xs|
    ensures |f(first + j, xs[j])| == 2
    ensures WritesFrom(first, xs, f)[2 * j] == f(first + j, xs[j])[0]
    ensures WritesFrom(first, xs, f)[2 * j + 1] == f(first + j, xs[j])[1]
    decreases |xs|
  {
    var n := |xs|;
    WritesFromLength(first, xs, f);
    if j < n - 1 {
      WritesFromAt(first, xs[..n - 1], f, j);
      assert xs[..n - 1][j] == xs[j];
    } else {
      WritesFromLength(first, xs[..n - 1], f);
    }
  }

  /** Every write of `WritesFrom` is one `f` gives some item on its row. */
  lemma {:induction false} WritesFromMember<T>(first: int, xs: seq<T>, f: (int, T) -> seq<ValueUpdate>, u: ValueUpdate)
    requires u in WritesFrom(first, xs, f)
    ensures exists j :: 0 <= j < |xs| && u in f(first + j, xs[j])
    decreases |xs|
  {
    var n := |xs|;
    if u in WritesFrom(first, xs[..n - 1], f) {
      WritesFromMember(first, xs[..n - 1], f, u);
      var j :| 0 <= j < n - 1 && u in f(first + j, xs[..n - 1][j]);
      assert xs[..n - 1][j] == xs[j];
    }
  }

  lemma {:induction false} WritesFromStep<T>(first: int, xs: seq<T>, f: (int, T) -> seq<ValueUpdate>, j: int)
    requires 0 <= j < |xs|
    ensures WritesFrom(first, xs[..j + 1], f) == WritesFrom(first, xs[..j], f) + f(first + j, xs[j])
  {
    assert xs[..j + 1][..j] == xs[..j];
  }

  /** The loop `for j, x in enumerate(xs): updates += f(first + j, x)`. */
  method AppendWritesFrom<T>(updates0: seq<ValueUpdate>, first: int, xs: seq<T>, f: (int, T) -> seq<ValueUpdate>)
    returns (updates: seq<ValueUpdate>)
    ensures updates == updates0 + WritesFrom(first, xs, f)
  {
    updates := updates0;
    for j := 0 to |xs|
      invariant updates == updates0 + WritesFrom(first, xs[..j], f)
    {
      WritesFromStep(first, xs, f, j);
      updates := updates + f(first + j, xs[j]);
    }
    assert xs[..|xs|] == xs;
  }

  /** What reading one cell gives: its rendering, or `""` when empty. */
  function CellText(g: Grid, row: int, col: int): string
  {
    if (row, col) in g then Display(g[(row, col)]) else ""
  }

  /** `worksheet.get` of rows `r1..r2`, columns `c1..c2`: one list of strings
      per row, empty cells read as `""`. */
  function ReadRect(g: Grid, r1: int, r2: int, c1: int, c2: int): (rows: seq<seq<string>>)
    requires c1 <= c2
    ensures |rows| == if r1 <= r2 then r2 - r1 + 1 else 0
    ensures forall i :: 0 <= i < |rows| ==> |rows[i]| == c2 - c1 + 1
    ensures forall i, j :: 0 <= i < |rows| && 0 <= j < |rows[i]| ==> rows[i][j] == CellText(g, r1 + i, c1 + j)
  {
    if r2 < r1 then []
    else seq(r2 - r1 + 1, i => seq(c2 - c1 + 1, j => CellText(g, r1 + i, c1 + j)))
  }

  /** The cell at sheet row `r`, column `c` sits at `[r - r1][c - c1]`. */
  lemma {:induction false} ReadRectAt(g: Grid, r1: int, r2: int, c1: int, c2: int, r: int, c: int)
    requires c1 <= c2 && r1 <= r <= r2 && c1 <= c <= c2
    ensures 0 <= r - r1 < |ReadRect(g, r1, r2, c1, c2)|
    ensures 0 <= c - c1 < |ReadRect(g, r1, r2, c1, c2)[r - r1]|
    ensures ReadRect(g, r1, r2, c1, c2)[r - r1][c - c1] == CellText(g, r, c)
  {
    var rows := ReadRect(g, r1, r2, c1, c2);
    assert rows[r - r1][c - c1] == CellText(g, r1 + (r - r1), c1 + (c - c1));
  }
}
