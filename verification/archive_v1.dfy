/**
 The archived first-generation updater. It flattens every module's clusters
 into one list of questions per sheet tab, each named after its cluster, and
 writes that list from row 3 down, the name into column A and the points into
 column N.
 */
module ArchiveV1 {
  import opened Common
  import opened Scoreboard
  import opened OrderedDict
  import opened Categories
  import opened Sheet

  /** One flat question: its display name, its points, its cluster. */
  datatype Entry = Entry(name: string, points: int, cluster: string)

  /** The name of question `i` (0-based) of a cluster with `n` questions:
      `"{cluster} - Question {i+1}"` when there are several, else the
      cluster name alone. */
  function EntryName(cluster: string, n: int, i: int): string
  {
    if n > 1 then cluster + " - Question " + IntToString(i + 1) else cluster
  }

  /** The flat questions of one parsed cluster, in order. */
  function ClusterEntries(c: Cluster): (es: seq<Entry>)
    ensures |es| == |c.questions|
    ensures forall i :: 0 <= i < |es| ==>
              es[i] == Entry(EntryName(c.name, |c.questions|, i), c.questions[i].points, c.name)
  {
    seq(|c.questions|, i requires 0 <= i < |c.questions| =>
      Entry(EntryName(c.name, |c.questions|, i), c.questions[i].points, c.name))
  }

  /** The points of `es`, in order. */
  function EntryPoints(es: seq<Entry>): (ps: seq<int>)
    ensures |ps| == |es|
  {
    if |es| == 0 then [] else [es[0].points] + EntryPoints(es[1..])
  }

  /** The flat questions of all clusters, cluster after cluster. */
  function AllEntries(cs: seq<Cluster>): seq<Entry>
    decreases |cs|
  {
    if |cs| == 0 then [] else AllEntries(cs[..|cs| - 1]) + ClusterEntries(cs[|cs| - 1])
  }

  /** The clusters of one module flattened; the first cluster that raises
      aborts the parse. */
  function FlatParse(raw: seq<RawCluster>): (r: Result<seq<Entry>, ParseError>)
    ensures r.Ok? <==> ParseClusters(raw).Ok?
    ensures r.Ok? ==> r.value == AllEntries(ParseClusters(raw).value)
    ensures r.Err? ==> r == Err(ParseClusters(raw).error)
  {
    match ParseClusters(raw)
    case Ok(cs) => Ok(AllEntries(cs))
    case Err(e) => Err(e)
  }

  /** `parse_challenges`: every module's flat questions, filed under its
      sheet tab; a later module with the same tab replaces an earlier one. */
  function ParseAllFlat(s: Snapshot): (r: Result<seq<(string, seq<Entry>)>, ParseError>)
    ensures r.Ok? <==> (AllNamed(ModulesOf(s)) &&
              forall j :: 0 <= j < |ModulesOf(s)| ==> ParseClusters(ClustersOf(ModulesOf(s)[j])).Ok?)
    ensures r.Ok? ==> DistinctKeys(r.value)
    ensures r.Ok? ==> forall k :: (Get(r.value, k) ==
              (var j := LastWith(ModulesOf(s), k);
               if j < 0 then None else Some(AllEntries(ParseClusters(ClustersOf(ModulesOf(s)[j])).value))))
  {
    GroupBySheetOk(ModulesOf(s), FlatParse, []);
    GroupBySheetValues(ModulesOf(s), FlatParse, []);
    GroupBySheet(ModulesOf(s), FlatParse, [])
  }

  /** Names: a cluster of one question keeps its own name; in a cluster of
      several, question `i` is numbered `i + 1` after the cluster name. */
  lemma {:induction false} EntryNames(c: Cluster, i: int)
    requires 0 <= i < |c.questions|
    ensures |c.questions| == 1 ==> ClusterEntries(c)[i].name == c.name
    ensures |c.questions| > 1 ==> ClusterEntries(c)[i].name == c.name + " - Question " + IntToString(i + 1)
    ensures ClusterEntries(c)[i].cluster == c.name
  {
  }

  /** A cluster read from the scoreboard with `n > 0` questions contributes
      `n` entries whose points add up to its pool; one with `n <= 0`
      contributes none. */
  lemma {:induction false} ParsedClusterEntries(raw: RawCluster)
    requires ParseCluster(raw).Ok?
    ensures var c := ParseCluster(raw).value;
      var n := raw.challenges.value;
      && (n <= 0 ==> ClusterEntries(c) == [])
      && (n > 0 ==> |ClusterEntries(c)| == n && Sum(EntryPoints(ClusterEntries(c))) == raw.points.value)
  {
    var c := ParseCluster(raw).value;
    EntryPointsAre(ClusterEntries(c), c.questions);
  }

  /** The points of a cluster's entries are the points of its questions. */
  lemma {:induction false} EntryPointsAre(es: seq<Entry>, qs: seq<Question>)
    requires |es| == |qs|
    requires forall i :: 0 <= i < |es| ==> es[i].points == qs[i].points
    ensures EntryPoints(es) == Points(qs)
    decreases |es|
  {
    if |es| > 0 {
      EntryPointsAre(es[1..], qs[1..]);
    }
  }

  /** The points of all entries add up to the clusters' split totals. */
  lemma {:induction false} AllEntriesPoints(cs: seq<Cluster>)
    ensures Sum(EntryPoints(AllEntries(cs))) == Sum(ClusterTotals(cs))
    decreases |cs|
  {
    if |cs| > 0 {
      var init, c := cs[..|cs| - 1], cs[|cs| - 1];
      AllEntriesPoints(init);
      EntryPointsAre(ClusterEntries(c), c.questions);
      EntryPointsAppend(AllEntries(init), ClusterEntries(c));
      SumAppend(EntryPoints(AllEntries(init)), EntryPoints(ClusterEntries(c)));
      SumAppend(ClusterTotals(init), [TotalOf(c.questions)]);
    }
  }

  /** The sum of each cluster's question points, cluster by cluster. */
  function ClusterTotals(cs: seq<Cluster>): seq<int>
    decreases |cs|
  {
    if |cs| == 0 then [] else ClusterTotals(cs[..|cs| - 1]) + [TotalOf(cs[|cs| - 1].questions)]
  }

  lemma {:induction false} EntryPointsAppend(xs: seq<Entry>, ys: seq<Entry>)
    ensures EntryPoints(xs + ys) == EntryPoints(xs) + EntryPoints(ys)
    decreases |xs|
  {
    if |xs| > 0 {
      assert (xs + ys)[1..] == xs[1..] + ys;
      assert (xs + ys)[0] == xs[0];
      EntryPointsAppend(xs[1..], ys);
      assert EntryPoints(xs + ys) == [xs[0].points] + EntryPoints(xs[1..] + ys);
    } else {
      assert xs + ys == ys;
    }
  }

  /** The row of the first entry. */
  const FirstRow: int := 3

  /** The two writes for an entry on `row`: its name into column A, its
      points into column N. */
  function EntryCells(row: int, e: Entry): seq<ValueUpdate>
  {
    [ ValueUpdate(row, ColA, [Text(e.name)]),
      ValueUpdate(row, ColN, [Number(e.points)]) ]
  }

  /** The writes for a tab's entries, one row each from row 3. */
  function EntryWrites(es: seq<Entry>): seq<ValueUpdate>
  {
    WritesFrom(FirstRow, es, EntryCells)
  }

  /** Entry `i` goes to row `3 + i`: its name into column A (write `2i`),
      its points into column N (write `2i + 1`). */
  lemma {:induction false} EntryWritesAt(es: seq<Entry>, i: int)
    requires 0 <= i < |es|
    ensures |EntryWrites(es)| == 2 * |es|
    ensures EntryWrites(es)[2 * i] == ValueUpdate(FirstRow + i, ColA, [Text(es[i].name)])
    ensures EntryWrites(es)[2 * i + 1] == ValueUpdate(FirstRow + i, ColN, [Number(es[i].points)])
  {
    WritesFromAt(FirstRow, es, EntryCells, i);
  }

  /** Every write is one cell of column A or N on an entry's row: nothing
      else in the tab is touched. */
  lemma {:induction false} EntryWritesCells(es: seq<Entry>, u: ValueUpdate)
    requires u in EntryWrites(es)
    ensures (u.col == ColA || u.col == ColN) && |u.values| == 1 && FirstRow <= u.row < FirstRow + |es|
  {
    WritesFromMember(FirstRow, es, EntryCells, u);
  }

  /** The calls for one dict entry: nothing when the tab is missing, in a
      dry run, or when there is nothing to write; otherwise one values
      write. */
  function EntryCalls(tabs: set<string>, name: string, es: seq<Entry>, dryRun: bool): seq<TabCall>
  {
    if name !in tabs || dryRun || es == [] then []
    else [TabCall(name, ValuesBatchUpdate(EntryWrites(es)))]
  }

  /** The calls for the dict entries, in iteration order. */
  function AllCalls(tabs: set<string>, d: seq<(string, seq<Entry>)>, dryRun: bool): seq<TabCall>
    decreases |d|
  {
    if |d| == 0 then []
    else AllCalls(tabs, d[..|d| - 1], dryRun) + EntryCalls(tabs, d[|d| - 1].0, d[|d| - 1].1, dryRun)
  }

  /** `update_sheet`: each dict entry in order; a missing tab is skipped, a
      dry run writes nothing, and a tab's entries go from row 3 down. */
  method UpdateSheet(d: seq<(string, seq<Entry>)>, tabs: set<string>, dryRun: bool) returns (calls: seq<TabCall>)
    ensures calls == AllCalls(tabs, d, dryRun)
  {
    calls := [];
    for i := 0 to |d|
      invariant calls == AllCalls(tabs, d[..i], dryRun)
    {
      var name, es := d[i].0, d[i].1;
      assert d[..i + 1][..i] == d[..i];
      assert d[..i + 1][i] == d[i];
      assert AllCalls(tabs, d[..i + 1], dryRun) == AllCalls(tabs, d[..i], dryRun) + EntryCalls(tabs, name, es, dryRun);
      if name in tabs && !dryRun {
        var updates := AppendWritesFrom([], FirstRow, es, EntryCells);
        assert updates == EntryWrites(es);
        if updates != [] {
          calls := calls + [TabCall(name, ValuesBatchUpdate(updates))];
        } else {
          assert es == [] by {
            if es != [] {
              WritesFromLength(FirstRow, es, EntryCells);
            }
          }
        }
      }
    }
    assert d[..|d|] == d;
  }

  /** A dry run makes no call at all, for any tab. */
  lemma {:induction false} DryRunWritesNothing(tabs: set<string>, d: seq<(string, seq<Entry>)>)
    ensures AllCalls(tabs, d, true) == []
    decreases |d|
  {
    if |d| > 0 {
      DryRunWritesNothing(tabs, d[..|d| - 1]);
    }
  }
}
