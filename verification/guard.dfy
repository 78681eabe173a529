/**
 The safety check `check_existing_work`: before the template rewrites a
 region it reads Answer Status (column D) and the team member columns (G..M)
 over the region's rows, and reports existing work when any trimmed D cell is
 neither empty nor "N/A", or any trimmed G..M cell is neither empty nor
 "Nothing". A failed read also counts as work found, so the update aborts.
 */
module Guard {
  import opened Common
  import opened Sheet

  /** A trimmed Answer Status value that is neither empty nor the sentinel. */
  predicate AnswerIsWork(cell: string)
  {
    var v := Strip(cell);
    v != "" && v != AnswerSentinel
  }

  /** A trimmed team member value that is neither empty nor the sentinel. */
  predicate TeamIsWork(cell: string)
  {
    var v := Strip(cell);
    v != "" && v != TeamSentinel
  }

  /** The outcome of one `worksheet.get`: ragged rows of strings, or a raise. */
  datatype Read = Rows(rows: seq<seq<string>>) | ReadFailed

  /** The first cell of some row of `answer` is work, or some cell of `team` is. */
  predicate HasWork(answer: seq<seq<string>>, team: seq<seq<string>>)
  {
    || (exists i :: 0 <= i < |answer| && |answer[i]| > 0 && AnswerIsWork(answer[i][0]))
    || (exists i, j :: 0 <= i < |team| && 0 <= j < |team[i]| && TeamIsWork(team[i][j]))
  }

  /** What the check must answer: work found, or a read that raised. */
  predicate WorkFound(answer: Read, team: Read)
  {
    answer.ReadFailed? || team.ReadFailed? || HasWork(answer.rows, team.rows)
  }

  /** `check_existing_work`: scans the D rows and then the G..M rows in order
      and stops at the first cell holding work; true means "abort". */
  method CheckExistingWork(answer: Read, team: Read) returns (found: bool)
    ensures found <==> WorkFound(answer, team)
  {
    if answer.ReadFailed? || team.ReadFailed? {
      return true;
    }
    var a := answer.rows;
    var t := team.rows;
    var i := 0;
    while i < |a|
      invariant 0 <= i <= |a|
      invariant forall i' :: 0 <= i' < i && |a[i']| > 0 ==> !AnswerIsWork(a[i'][0])
    {
      if |a[i]| > 0 && AnswerIsWork(a[i][0]) {
        return true;
      }
      i := i + 1;
    }
    i := 0;
    while i < |t|
      invariant 0 <= i <= |t|
      invariant forall i', j :: 0 <= i' < i && 0 <= j < |t[i']| ==> !TeamIsWork(t[i'][j])
    {
      var j := 0;
      while j < |t[i]|
        invariant 0 <= j <= |t[i]|
        invariant forall j' :: 0 <= j' < j ==> !TeamIsWork(t[i][j'])
      {
        if TeamIsWork(t[i][j]) {
          return true;
        }
        j := j + 1;
      }
      i := i + 1;
    }
    return false;
  }

  /** The value would count as work in column `col`. */
  predicate CellIsWork(col: int, s: string)
  {
    (col == ColD && AnswerIsWork(s)) || (ColG <= col <= ColM && TeamIsWork(s))
  }

  /** No cell of rows `r1..r2` holds work in column D or G..M. */
  ghost predicate Virgin(g: Grid, r1: int, r2: int)
  {
    forall cell :: cell in g && r1 <= cell.0 <= r2 ==> !CellIsWork(cell.1, Display(g[cell]))
  }

  /** The guard's two reads of rows `r1..r2` of the grid `g`. */
  function AnswerRead(g: Grid, r1: int, r2: int): seq<seq<string>>
  {
    ReadRect(g, r1, r2, ColD, ColD)
  }

  function TeamRead(g: Grid, r1: int, r2: int): seq<seq<string>>
  {
    ReadRect(g, r1, r2, ColG, ColM)
  }

  /** The check over rows `r1..r2` of a readable grid finds nothing exactly
      when those rows are virgin. */
  lemma {:induction false} NoWorkIffVirgin(g: Grid, r1: int, r2: int)
    ensures !HasWork(AnswerRead(g, r1, r2), TeamRead(g, r1, r2)) <==> Virgin(g, r1, r2)
  {
    if HasWork(AnswerRead(g, r1, r2), TeamRead(g, r1, r2)) {
      WorkIsNotVirgin(g, r1, r2);
    }
    if !Virgin(g, r1, r2) {
      NotVirginIsWork(g, r1, r2);
    }
  }

  lemma {:induction false} WorkIsNotVirgin(g: Grid, r1: int, r2: int)
    requires HasWork(AnswerRead(g, r1, r2), TeamRead(g, r1, r2))
    ensures !Virgin(g, r1, r2)
  {
    var a := AnswerRead(g, r1, r2);
    var t := TeamRead(g, r1, r2);
    assert !AnswerIsWork("") && !TeamIsWork("");
    if i :| 0 <= i < |a| && |a[i]| > 0 && AnswerIsWork(a[i][0]) {
      assert a[i][0] == CellText(g, r1 + i, ColD);
      assert (r1 + i, ColD) in g && CellIsWork(ColD, Display(g[(r1 + i, ColD)]));
    } else {
      var i, j :| 0 <= i < |t| && 0 <= j < |t[i]| && TeamIsWork(t[i][j]);
      assert t[i][j] == CellText(g, r1 + i, ColG + j);
      assert (r1 + i, ColG + j) in g && CellIsWork(ColG + j, Display(g[(r1 + i, ColG + j)]));
    }
  }

  lemma {:induction false} NotVirginIsWork(g: Grid, r1: int, r2: int)
    requires !Virgin(g, r1, r2)
    ensures HasWork(AnswerRead(g, r1, r2), TeamRead(g, r1, r2))
  {
    var cell :| cell in g && r1 <= cell.0 <= r2 && CellIsWork(cell.1, Display(g[cell]));
    WorkCellIsRead(g, r1, r2, cell.0, cell.1);
  }

  /** A cell holding work in the region shows up in one of the two reads. */
  lemma {:induction false} WorkCellIsRead(g: Grid, r1: int, r2: int, r: int, c: int)
    requires r1 <= r <= r2 && CellIsWork(c, CellText(g, r, c))
    ensures HasWork(AnswerRead(g, r1, r2), TeamRead(g, r1, r2))
  {
    var v := CellText(g, r, c);
    if c == ColD {
      ReadRectAt(g, r1, r2, ColD, ColD, r, c);
      var a := AnswerRead(g, r1, r2);
      assert a[r - r1][0] == v && AnswerIsWork(v);
    } else {
      ReadRectAt(g, r1, r2, ColG, ColM, r, c);
      var t := TeamRead(g, r1, r2);
      assert t[r - r1][c - ColG] == v && TeamIsWork(v);
    }
  }

  /** Every cell `u` writes in column D or G..M holds a value that is not
      work: the sentinel, or anything else outside those columns. */
  predicate SentinelOnly(u: ValueUpdate)
  {
    forall k :: 0 <= k < |u.values| ==> !CellIsWork(u.col + k, Display(u.values[k]))
  }

  /** Writing sentinel-only updates keeps virgin rows virgin. */
  lemma {:induction false} SentinelUpdatesKeepVirgin(g: Grid, us: seq<ValueUpdate>, r1: int, r2: int)
    requires Virgin(g, r1, r2)
    requires forall k :: 0 <= k < |us| ==> SentinelOnly(us[k])
    ensures Virgin(ApplyUpdates(g, us), r1, r2)
    decreases |us|
  {
    if |us| > 0 {
      var g' := ApplyUpdate(g, us[0]);
      forall cell | cell in g' && r1 <= cell.0 <= r2
        ensures !CellIsWork(cell.1, Display(g'[cell]))
      {
        if Writes(us[0], cell) {
          var k := cell.1 - us[0].col;
          assert us[0].col + k == cell.1;
        }
      }
      SentinelUpdatesKeepVirgin(g', us[1..], r1, r2);
    }
  }

  /** Clearing columns A..N of rows `r1..r2` leaves them virgin. */
  lemma {:induction false} ClearedIsVirgin(g: Grid, r1: int, r2: int)
    ensures Virgin(ClearRange(g, CellRange(r1, r2, ColA, ColN)), r1, r2)
  {
  }

  /** The sentinels themselves are not work, and each is one of the choices
      its column's dropdown offers. */
  lemma {:induction false} SentinelsAreNotWork()
    ensures !CellIsWork(ColD, AnswerSentinel) && AnswerSentinel in AnswerChoices
    ensures forall col :: ColG <= col <= ColM ==> !CellIsWork(col, TeamSentinel)
    ensures TeamSentinel in TeamChoices
  {
    assert AnswerChoices[2] == AnswerSentinel;
    assert TeamChoices[0] == TeamSentinel;
  }
}
