/**
 The spreadsheet `batch_update` requests the updaters build from the marker
 and question row numbers: dropdown validation on column D and on each of
 G..M, background and border formatting, conditional colour rules for every
 dropdown choice, and the split of a long request list into chunks of at most
 100, the largest batch the updaters send at once.
 */
module Requests {
  import opened Common
  import opened Sheet

  /** The requests `f` gives each row of `rows`, row after row. */
  function PerRow<T>(rows: seq<int>, f: int -> seq<T>): seq<T>
    decreases |rows|
  {
    if |rows| == 0 then [] else f(rows[0]) + PerRow(rows[1..], f)
  }

  /** When `f` gives every row `k` requests, the list has `k` per row. */
  lemma {:induction false} PerRowLength<T>(rows: seq<int>, f: int -> seq<T>, k: nat)
    requires forall r :: |f(r)| == k
    ensures |PerRow(rows, f)| == k * |rows|
    decreases |rows|
  {
    if |rows| > 0 {
      PerRowLength(rows[1..], f, k);
      assert k * |rows| == k + k * (|rows| - 1);
    }
  }

  /** ... and the `j`-th request of the `i`-th row sits at `k * i + j`. */
  lemma {:induction false} PerRowAt<T>(rows: seq<int>, f: int -> seq<T>, k: nat, i: int, j: int)
    requires forall r :: |f(r)| == k
    requires 0 <= i < |rows| && 0 <= j < k
    ensures k * i + j < |PerRow(rows, f)| && |f(rows[i])| == k
    ensures PerRow(rows, f)[k * i + j] == f(rows[i])[j]
    decreases i
  {
    PerRowLength(rows, f, k);
    assert k * i + j < k * |rows| by {
      assert k * |rows| == k * i + k * (|rows| - i);
      assert k * (|rows| - i) >= k;
    }
    if i > 0 {
      PerRowAt(rows[1..], f, k, i - 1, j);
      assert k * i + j == k + (k * (i - 1) + j);
      assert rows[i] == rows[1..][i - 1];
    }
  }

  /** Column D and each of G..M of a question row get a dropdown; the other
      columns do not. */
  function ColumnRule(col: int): Option<ValidationRule>
  {
    if col == ColD then Some(AnswerStatusRule)
    else if ColG <= col <= ColM then Some(TeamMemberRule)
    else None
  }

  /** The `j`-th dropdown request of a question row: column D first, then
      G, H, ..., M. */
  function ValidationAt(row: int, j: int): Request
  {
    var col := if j == 0 then ColD else ColG + j - 1;
    SetDataValidation(RowSpan(row, col, col + 1), if j == 0 then AnswerStatusRule else TeamMemberRule)
  }

  /** The eight dropdown requests of one question row, in the order the
      source appends them. */
  function RowValidation(row: int): seq<Request>
  {
    [ SetDataValidation(RowSpan(row, 3, 4), AnswerStatusRule),
      SetDataValidation(RowSpan(row, 6, 7), TeamMemberRule),
      SetDataValidation(RowSpan(row, 7, 8), TeamMemberRule),
      SetDataValidation(RowSpan(row, 8, 9), TeamMemberRule),
      SetDataValidation(RowSpan(row, 9, 10), TeamMemberRule),
      SetDataValidation(RowSpan(row, 10, 11), TeamMemberRule),
      SetDataValidation(RowSpan(row, 11, 12), TeamMemberRule),
      SetDataValidation(RowSpan(row, 12, 13), TeamMemberRule) ]
  }

  /** The dropdown requests of all question rows. */
  function ValidationRequests(questionRows: seq<int>): seq<Request>
  {
    PerRow(questionRows, RowValidation)
  }

  /** Eight dropdown requests per question row: request `8 * i + j` is the
      `j`-th of row `i`, the D dropdown then one per column of G..M, each
      with the rule `ColumnRule` assigns its column. */
  lemma {:induction false} ValidationLayout(questionRows: seq<int>)
    ensures |ValidationRequests(questionRows)| == 8 * |questionRows|
    ensures forall i, j :: 0 <= i < |questionRows| && 0 <= j < 8 ==>
              ValidationRequests(questionRows)[8 * i + j] == ValidationAt(questionRows[i], j)
    ensures forall row, j :: 0 <= j < 8 ==>
              var r := ValidationAt(row, j);
              r.range.startRow == row - 1 && r.range.endRow == row && r.range.endCol == r.range.startCol + 1
              && ColumnRule(r.range.startCol) == Some(r.rule)
  {
    PerRowLength(questionRows, RowValidation, 8);
    forall i, j | 0 <= i < |questionRows| && 0 <= j < 8
      ensures ValidationRequests(questionRows)[8 * i + j] == ValidationAt(questionRows[i], j)
    {
      PerRowAt(questionRows, RowValidation, 8, i, j);
      RowValidationAt(questionRows[i], j);
    }
  }

  lemma {:induction false} RowValidationAt(row: int, j: int)
    requires 0 <= j < 8
    ensures RowValidation(row)[j] == ValidationAt(row, j)
  {
  }

  /** The look of each Answer Status choice, in the order of `AnswerChoices`. */
  const AnswerHighlights: seq<Highlight> :=
    [WhiteBoldOnGreen, WhiteBoldOnRed, OnGrey, OnBeige, DarkGreenBoldOnLightGreen]
  /** The look of each team member choice, in the order of `TeamChoices`. */
  const TeamHighlights: seq<Highlight> :=
    [OnWhite, OnLightGreen, BoldOnGreen, WhiteBoldOnRed, WhiteBoldOnBlack]

  /** The five colour rules on G..M of one question row. */
  function TeamRules(row: int): seq<Request>
  {
    var rg := RowSpan(row, ColG, ColM + 1);
    [ AddConditionalFormat(rg, "Nothing", OnWhite),
      AddConditionalFormat(rg, "Started", OnLightGreen),
      AddConditionalFormat(rg, "Agree", BoldOnGreen),
      AddConditionalFormat(rg, "Disagree", WhiteBoldOnRed),
      AddConditionalFormat(rg, "Surrender", WhiteBoldOnBlack) ]
  }

  /** The ten colour rules of one question row in the template: five on D,
      then five on G..M. */
  function RowRules(row: int): seq<Request>
  {
    var rg := RowSpan(row, ColD, ColD + 1);
    [ AddConditionalFormat(rg, "Yes", WhiteBoldOnGreen),
      AddConditionalFormat(rg, "No", WhiteBoldOnRed),
      AddConditionalFormat(rg, "N/A", OnGrey),
      AddConditionalFormat(rg, "Needs Validation", OnBeige),
      AddConditionalFormat(rg, "Ready to submit", DarkGreenBoldOnLightGreen) ]
    + TeamRules(row)
  }

  /** The `j`-th colour rule of a question row: the `j`-th Answer Status
      choice on D for `j < 5`, else the `(j - 5)`-th team choice on G..M. */
  function RuleAt(row: int, j: int): Request
    requires 0 <= j < 10
  {
    if j < 5 then AddConditionalFormat(RowSpan(row, ColD, ColD + 1), AnswerChoices[j], AnswerHighlights[j])
    else AddConditionalFormat(RowSpan(row, ColG, ColM + 1), TeamChoices[j - 5], TeamHighlights[j - 5])
  }

  /** The colour rules of all question rows, as the template builds them. */
  function ConditionalRequests(questionRows: seq<int>): seq<Request>
  {
    PerRow(questionRows, RowRules)
  }

  /** The colour rules of all question rows, team columns only. */
  function TeamConditionalRequests(questionRows: seq<int>): seq<Request>
  {
    PerRow(questionRows, TeamRules)
  }

  /** Ten colour rules per question row: rule `10 * i + j` colours the
      `j`-th dropdown choice of row `i`, so every choice of both dropdowns
      gets exactly its own look on every question row. */
  lemma {:induction false} ConditionalLayout(questionRows: seq<int>)
    ensures |ConditionalRequests(questionRows)| == 10 * |questionRows|
    ensures forall i, j :: 0 <= i < |questionRows| && 0 <= j < 10 ==>
              ConditionalRequests(questionRows)[10 * i + j] == RuleAt(questionRows[i], j)
  {
    PerRowLength(questionRows, RowRules, 10);
    forall i, j | 0 <= i < |questionRows| && 0 <= j < 10
      ensures ConditionalRequests(questionRows)[10 * i + j] == RuleAt(questionRows[i], j)
    {
      PerRowAt(questionRows, RowRules, 10, i, j);
      RowRulesAt(questionRows[i], j);
    }
  }

  lemma {:induction false} RowRulesAt(row: int, j: int)
    requires 0 <= j < 10
    ensures RowRules(row)[j] == RuleAt(row, j)
  {
  }

  /** The `j`-th team-only colour rule of a question row: rule `j + 5` of
      the template's ten. */
  function TeamRuleAt(row: int, j: int): Request
    requires 0 <= j < 5
  {
    RuleAt(row, j + 5)
  }

  /** Five team-only colour rules per question row: rule `5 * i + j` is the
      `(j + 5)`-th of the template's rules for row `i`. */
  lemma {:induction false} TeamConditionalLayout(questionRows: seq<int>)
    ensures |TeamConditionalRequests(questionRows)| == 5 * |questionRows|
    ensures forall i, j :: 0 <= i < |questionRows| && 0 <= j < 5 ==>
              TeamConditionalRequests(questionRows)[5 * i + j] == TeamRuleAt(questionRows[i], j)
  {
    PerRowLength(questionRows, TeamRules, 5);
    forall i, j | 0 <= i < |questionRows| && 0 <= j < 5
      ensures TeamConditionalRequests(questionRows)[5 * i + j] == TeamRuleAt(questionRows[i], j)
    {
      PerRowAt(questionRows, TeamRules, 5, i, j);
      assert TeamRules(questionRows[i])[j] == RowRules(questionRows[i])[j + 5];
      RowRulesAt(questionRows[i], j + 5);
    }
  }

  /** The background request of a marker row (columns A..N). */
  function MarkerFormat(row: int): seq<Request>
  {
    [RepeatCell(RowSpan(row, ColA, ColN + 1), MarkerGrey)]
  }

  /** The two format requests of a question row: white with borders over
      A..N, white text over G..M. */
  function QuestionFormat(row: int): seq<Request>
  {
    [ RepeatCell(RowSpan(row, ColA, ColN + 1), WhiteBordered),
      RepeatCell(RowSpan(row, ColG, ColM + 1), WhiteText) ]
  }

  /** The format requests: the markers' backgrounds, then the question rows'
      two requests each. */
  function FormatRequests(markerRows: seq<int>, questionRows: seq<int>): seq<Request>
  {
    PerRow(markerRows, MarkerFormat) + PerRow(questionRows, QuestionFormat)
  }

  /** One format request per marker row, then two per question row, in row
      list order. */
  lemma {:induction false} FormatLayout(markerRows: seq<int>, questionRows: seq<int>)
    ensures |FormatRequests(markerRows, questionRows)| == |markerRows| + 2 * |questionRows|
    ensures forall i :: 0 <= i < |markerRows| ==>
              FormatRequests(markerRows, questionRows)[i] == RepeatCell(RowSpan(markerRows[i], ColA, ColN + 1), MarkerGrey)
    ensures forall i :: 0 <= i < |questionRows| ==>
              && FormatRequests(markerRows, questionRows)[|markerRows| + 2 * i] ==
                   RepeatCell(RowSpan(questionRows[i], ColA, ColN + 1), WhiteBordered)
              && FormatRequests(markerRows, questionRows)[|markerRows| + 2 * i + 1] ==
                   RepeatCell(RowSpan(questionRows[i], ColG, ColM + 1), WhiteText)
  {
    PerRowLength(markerRows, MarkerFormat, 1);
    PerRowLength(questionRows, QuestionFormat, 2);
    var m := PerRow(markerRows, MarkerFormat);
    var q := PerRow(questionRows, QuestionFormat);
    forall i | 0 <= i < |markerRows|
      ensures (m + q)[i] == RepeatCell(RowSpan(markerRows[i], ColA, ColN + 1), MarkerGrey)
    {
      PerRowAt(markerRows, MarkerFormat, 1, i, 0);
    }
    forall i | 0 <= i < |questionRows|
      ensures (m + q)[|m| + 2 * i] == RepeatCell(RowSpan(questionRows[i], ColA, ColN + 1), WhiteBordered)
      ensures (m + q)[|m| + 2 * i + 1] == RepeatCell(RowSpan(questionRows[i], ColG, ColM + 1), WhiteText)
    {
      PerRowAt(questionRows, QuestionFormat, 2, i, 0);
      PerRowAt(questionRows, QuestionFormat, 2, i, 1);
    }
  }

  /** The largest number of requests the updaters send in one call. */
  const ChunkSize: nat := 100

  /** `[xs[i:i + 100] for i in range(0, len(xs), 100)]`: consecutive chunks
      of at most `ChunkSize` elements. */
  function Chunks<T>(xs: seq<T>): seq<seq<T>>
    decreases |xs|
  {
    if |xs| == 0 then []
    else if |xs| <= ChunkSize then [xs]
    else [xs[..ChunkSize]] + Chunks(xs[ChunkSize..])
  }

  /** Sending the chunks one after another sends the list, in order. */
  lemma {:induction false} ChunksFlatten<T>(xs: seq<T>)
    ensures Flatten(Chunks(xs)) == xs
    decreases |xs|
  {
    var cs := Chunks(xs);
    if 0 < |xs| <= ChunkSize {
      assert Flatten(cs) == xs + Flatten(cs[1..]);
    } else if |xs| > ChunkSize {
      ChunksFlatten(xs[ChunkSize..]);
      assert cs[1..] == Chunks(xs[ChunkSize..]);
      assert xs == xs[..ChunkSize] + xs[ChunkSize..];
    }
  }

  /** There are `ceil(|xs| / 100)` chunks. */
  lemma {:induction false} ChunksCount<T>(xs: seq<T>)
    ensures |Chunks(xs)| == (|xs| + ChunkSize - 1) / ChunkSize
    decreases |xs|
  {
    if |xs| > ChunkSize {
      ChunksCount(xs[ChunkSize..]);
    }
  }

  /** Chunk `i` is `xs[100 * i .. min(100 * i + 100, |xs|)]`: it holds
      between 1 and 100 elements, exactly 100 unless it is the last. */
  lemma {:induction false} ChunksAt<T>(xs: seq<T>, i: int)
    requires 0 <= i < |Chunks(xs)|
    ensures ChunkSize * i < |xs|
    ensures Chunks(xs)[i] == xs[ChunkSize * i .. Min(ChunkSize * i + ChunkSize, |xs|)]
    ensures 1 <= |Chunks(xs)[i]| <= ChunkSize
    ensures i < |Chunks(xs)| - 1 ==> |Chunks(xs)[i]| == ChunkSize
    decreases |xs|
  {
    if i > 0 {
      var rest := xs[ChunkSize..];
      assert Chunks(xs)[i] == Chunks(rest)[i - 1];
      ChunksAt(rest, i - 1);
      var a := ChunkSize * (i - 1);
      var e := Min(a + ChunkSize, |rest|);
      assert ChunkSize * i == a + ChunkSize && Min(ChunkSize * i + ChunkSize, |xs|) == e + ChunkSize;
      assert rest[a..e] == xs[a + ChunkSize .. e + ChunkSize];
    }
  }

  /** One spreadsheet `batch_update` per batch, in order. */
  function BatchCalls(batches: seq<seq<Request>>): (r: seq<ApiCall>)
    ensures |r| == |batches|
    ensures forall i :: 0 <= i < |r| ==> r[i] == BatchUpdate(batches[i])
  {
    seq(|batches|, i requires 0 <= i < |batches| => BatchUpdate(batches[i]))
  }

  /** `for i in range(0, len(reqs), 100): spreadsheet.batch_update(reqs[i:i + 100])`:
      one call per chunk, so no call carries more than 100 requests and the
      calls together carry every request once, in order. */
  method SendInChunks(reqs: seq<Request>) returns (calls: seq<ApiCall>)
    ensures calls == BatchCalls(Chunks(reqs))
  {
    calls := [];
    ghost var sent: seq<seq<Request>> := [];
    var i := 0;
    while i < |reqs|
      invariant 0 <= i <= |reqs|
      invariant sent + Chunks(reqs[i..]) == Chunks(reqs)
      invariant calls == BatchCalls(sent)
      decreases |reqs| - i
    {
      var j := Min(i + ChunkSize, |reqs|);
      var batch := reqs[i..j];
      if |reqs[i..]| > ChunkSize {
        assert reqs[i..][..ChunkSize] == batch;
        assert reqs[i..][ChunkSize..] == reqs[j..];
      } else {
        assert reqs[i..] == batch;
        assert reqs[j..] == [];
      }
      assert Chunks(reqs[i..]) == [batch] + Chunks(reqs[j..]);
      sent := sent + [batch];
      calls := calls + [BatchUpdate(batch)];
      i := j;
    }
  }

  /** Every call `BatchCalls` makes is a request batch: none writes a value. */
  lemma {:induction false} BatchCallsWriteNothing(batches: seq<seq<Request>>)
    ensures forall i :: 0 <= i < |BatchCalls(batches)| ==> !IsCellWrite(BatchCalls(batches)[i])
  {
  }
}
