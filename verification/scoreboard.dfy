/**
 The scoreboard snapshot and the challenge parser.

 The snapshot is the JSON object the dashboard assigns to `window.preload`,
 already decoded: a report holding a list of modules (categories), each module
 holding clusters (a named challenge with a question count `challenges` and a
 point pool `points`). A cluster becomes a `Cluster` whose questions `1..n`
 share the pool: each of the first `n-1` gets `points // n`, the last gets what
 is left, so the question points always add back up to the pool.
 */
module Scoreboard {
  import opened Common

  /** A cluster object as decoded; a key absent from the object is `None`. */
  datatype RawCluster = RawCluster(name: Option<string>, challenges: Option<int>, points: Option<int>)

  /** A module object; `clusters` is `None` when the key is absent. */
  datatype RawModule = RawModule(name: Option<string>, clusters: Option<seq<RawCluster>>)

  /** The `report` object; `modules` is `None` when the key is absent. */
  datatype Report = Report(modules: Option<seq<RawModule>>)

  /** The decoded snapshot; `report` is `None` when the key is absent. */
  datatype Snapshot = Snapshot(report: Option<Report>)

  /** A question: its 1-based position within its cluster and its points. */
  datatype Question = Question(index: int, points: int)

  /** A parsed cluster: its name, its questions in order and its point pool. */
  datatype Cluster = Cluster(name: string, questions: seq<Question>, totalPoints: int)

  /** Indexing a decoded object with a key it lacks raises `KeyError(key)`. */
  datatype ParseError = MissingKey(key: string)

  /** `preload.get('report', {}).get('modules', [])`. */
  function ModulesOf(s: Snapshot): seq<RawModule>
  {
    match s.report
    case None => []
    case Some(rep) => match rep.modules
      case None => []
      case Some(ms) => ms
  }

  /** `module.get('clusters', [])`. */
  function ClustersOf(m: RawModule): seq<RawCluster>
  {
    match m.clusters
    case None => []
    case Some(cs) => cs
  }

  /** The points of `qs`, in order. */
  function Points(qs: seq<Question>): (ps: seq<int>)
    ensures |ps| == |qs|
    ensures forall i :: 0 <= i < |qs| ==> ps[i] == qs[i].points
  {
    seq(|qs|, i requires 0 <= i < |qs| => qs[i].points)
  }

  /** The sum of the points of `qs`. */
  function TotalOf(qs: seq<Question>): int
  {
    Sum(Points(qs))
  }

  /** The point split of one cluster with `n` questions and `p` points. The
      first `n-1` questions each get the floor of `p / n` (Dafny's `/` with a
      positive divisor is Python's `//`, also for a negative `p`), the last
      one gets the rest; a non-positive `n` gives no questions. */
  function Split(n: int, p: int): (qs: seq<Question>)
    ensures n <= 0 ==> qs == []
    ensures n > 0 ==> |qs| == n
    ensures forall i :: 0 <= i < |qs| ==> qs[i].index == i + 1
    ensures n > 0 ==> TotalOf(qs) == p
  {
    if n <= 0 then []
    else
      var avg := p / n;
      var qs := seq(n, i requires 0 <= i < n =>
        Question(i + 1, if i == n - 1 then p - avg * (n - 1) else avg));
      SplitTotal(n, p, qs);
      qs
  }

  /** Every question of a split but the last gets the floor share of the
      pool; the last gets at least that and less than `n` more. */
  lemma {:induction false} SplitShares(n: int, p: int)
    ensures forall i :: 0 <= i < |Split(n, p)| - 1 ==> Split(n, p)[i].points * n <= p < Split(n, p)[i].points * n + n
    ensures n > 0 ==> 0 <= Split(n, p)[n - 1].points - p / n < n
  {
    if n > 0 {
      var qs, avg := Split(n, p), p / n;
      assert avg * n <= p < avg * n + n;
      forall i | 0 <= i < n - 1
        ensures qs[i].points * n <= p < qs[i].points * n + n
      {
        assert qs[i].points == avg;
      }
      assert qs[n - 1].points - avg == p - avg * n;
    }
  }

  /** The sum of `k` copies of `a`. */
  lemma {:induction false} SumConstant(k: nat, a: int)
    ensures Sum(seq(k, _ => a)) == k * a
  {
    if k > 0 {
      assert seq(k, _ => a)[1..] == seq(k - 1, _ => a);
      SumConstant(k - 1, a);
    }
  }

  /** The split of `p` over `n > 0` questions adds up to `p`. */
  lemma {:induction false} SplitTotal(n: int, p: int, qs: seq<Question>)
    requires n > 0 && |qs| == n
    requires forall i :: 0 <= i < n - 1 ==> qs[i].points == p / n
    requires qs[n - 1].points == p - (p / n) * (n - 1)
    ensures TotalOf(qs) == p
  {
    var avg := p / n;
    var ps := Points(qs);
    assert ps == seq(n - 1, _ => avg) + [ps[n - 1]];
    SumAppend(seq(n - 1, _ => avg), [ps[n - 1]]);
    SumConstant(n - 1, avg);
    assert Sum([ps[n - 1]]) == ps[n - 1];
  }

  /** One cluster object: `cluster['name']`, `cluster['challenges']` and
      `cluster['points']` are read in that order, the first absent one raises. */
  function ParseCluster(c: RawCluster): (r: Result<Cluster, ParseError>)
    ensures c.name.None? ==> r == Err(MissingKey("name"))
    ensures c.name.Some? && c.challenges.None? ==> r == Err(MissingKey("challenges"))
    ensures c.name.Some? && c.challenges.Some? && c.points.None? ==> r == Err(MissingKey("points"))
    ensures r.Ok? <==> c.name.Some? && c.challenges.Some? && c.points.Some?
    ensures r.Ok? ==> r.value.name == c.name.value && r.value.totalPoints == c.points.value
    ensures r.Ok? ==> |r.value.questions| == (if c.challenges.value > 0 then c.challenges.value else 0)
    ensures r.Ok? && c.challenges.value > 0 ==> TotalOf(r.value.questions) == c.points.value
  {
    match (c.name, c.challenges, c.points)
    case (None, _, _) => Err(MissingKey("name"))
    case (Some(_), None, _) => Err(MissingKey("challenges"))
    case (Some(_), Some(_), None) => Err(MissingKey("points"))
    case (Some(name), Some(n), Some(p)) => Ok(Cluster(name, Split(n, p), p))
  }

  /** The clusters of one module, in source order; the first cluster that
      raises aborts the whole parse. */
  function ParseClusters(cs: seq<RawCluster>): (r: Result<seq<Cluster>, ParseError>)
    ensures r.Ok? <==> forall i :: 0 <= i < |cs| ==> ParseCluster(cs[i]).Ok?
    ensures r.Ok? ==> |r.value| == |cs|
    ensures r.Ok? ==> forall i :: 0 <= i < |cs| ==> ParseCluster(cs[i]) == Ok(r.value[i])
    ensures r.Err? ==> exists i :: 0 <= i < |cs| && ParseCluster(cs[i]) == Err(r.error)
                                   && forall j :: 0 <= j < i ==> ParseCluster(cs[j]).Ok?
  {
    if |cs| == 0 then Ok([])
    else match ParseCluster(cs[0])
      case Err(e) => Err(e)
      case Ok(c) =>
        match ParseClusters(cs[1..])
        case Err(e) =>
          assert forall j :: 1 <= j < |cs| ==> cs[j] == cs[1..][j - 1];
          Err(e)
        case Ok(rest) =>
          assert forall j :: 1 <= j < |cs| ==> cs[j] == cs[1..][j - 1];
          Ok([c] + rest)
  }

  /** Every module before position `k` has a name and it is not `category`. */
  ghost predicate NoMatchBefore(ms: seq<RawModule>, category: string, k: int)
    requires 0 <= k <= |ms|
  {
    forall j :: 0 <= j < k ==> ms[j].name.Some? && ms[j].name.value != category
  }

  /** The module scan of `parse_category_challenges`: the first module whose
      name equals `category` is parsed and returned, later ones are ignored; a
      nameless module met before any match raises; no match yields `[]`. */
  function ParseModules(ms: seq<RawModule>, category: string): (r: Result<seq<Cluster>, ParseError>)
    ensures NoMatchBefore(ms, category, |ms|) ==> r == Ok([])
    ensures forall k :: (0 <= k < |ms| && NoMatchBefore(ms, category, k) && ms[k].name == Some(category))
                          ==> r == ParseClusters(ClustersOf(ms[k]))
    ensures forall k :: (0 <= k < |ms| && NoMatchBefore(ms, category, k) && ms[k].name.None?)
                          ==> r == Err(MissingKey("name"))
  {
    if |ms| == 0 then Ok([])
    else match ms[0].name
      case None => Err(MissingKey("name"))
      case Some(name) =>
        if name == category then ParseClusters(ClustersOf(ms[0]))
        else
          var r := ParseModules(ms[1..], category);
          assert forall k :: 1 <= k <= |ms| ==> (NoMatchBefore(ms, category, k) <==> NoMatchBefore(ms[1..], category, k - 1));
          r
  }

  /** `parse_category_challenges(preload_data, category_name)`. */
  function ParseCategory(s: Snapshot, category: string): Result<seq<Cluster>, ParseError>
  {
    ParseModules(ModulesOf(s), category)
  }

  /** When every module is named, the parse succeeds with `[]` exactly when no
      module is named `category` or the first one that is has no clusters;
      otherwise it returns the clusters of that first match, one per raw
      cluster, each with its name, pool and split. */
  lemma {:induction false} ParseCategoryEmptyIff(s: Snapshot, category: string)
    requires forall j :: 0 <= j < |ModulesOf(s)| ==> ModulesOf(s)[j].name.Some?
    requires forall j, i :: 0 <= j < |ModulesOf(s)| && 0 <= i < |ClustersOf(ModulesOf(s)[j])|
               ==> ParseCluster(ClustersOf(ModulesOf(s)[j])[i]).Ok?
    ensures ParseCategory(s, category).Ok?
    ensures ParseCategory(s, category) == Ok([]) <==>
              NoMatchBefore(ModulesOf(s), category, |ModulesOf(s)|)
              || exists k :: 0 <= k < |ModulesOf(s)| && NoMatchBefore(ModulesOf(s), category, k)
                             && ModulesOf(s)[k].name == Some(category) && ClustersOf(ModulesOf(s)[k]) == []
  {
    var ms := ModulesOf(s);
    if NoMatchBefore(ms, category, |ms|) {
    } else {
      var k := FirstMatch(ms, category);
      forall k' | 0 <= k' < |ms| && NoMatchBefore(ms, category, k') && ms[k'].name == Some(category)
        ensures k' == k
      {
      }
    }
  }

  /** The position of the first module named `category`, when there is one and
      every module is named. */
  lemma {:induction false} FirstMatch(ms: seq<RawModule>, category: string) returns (k: nat)
    requires forall j :: 0 <= j < |ms| ==> ms[j].name.Some?
    requires !NoMatchBefore(ms, category, |ms|)
    ensures k < |ms| && NoMatchBefore(ms, category, k) && ms[k].name == Some(category)
  {
    k := 0;
    while k < |ms| && ms[k].name != Some(category)
      invariant k <= |ms| && NoMatchBefore(ms, category, k)
      decreases |ms| - k
    {
      k := k + 1;
    }
  }
}
