/**
 The scoreboard-category to sheet-tab table and the module loop shared by the
 two whole-report parsers: every module is filed under
 `CATEGORY_MAP.get(name, name)` in a dict, so a later module with the same
 sheet key replaces an earlier one.
 */
module Categories {
  import opened Common
  import opened Scoreboard
  import opened OrderedDict

  /** `CATEGORY_MAP`: scoreboard module name to sheet tab name. */
  const CategoryMap: map<string, string> := map[
    "Open Source Intelligence" := "OSINT",
    "Cryptography" := "Crypto",
    "Password Cracking" := "Cracking",
    "Log Analysis" := "Log",
    "Network Traffic Analysis" := "NTA",
    "Forensics" := "Forensics",
    "Scanning & Reconnaissance" := "Scanning",
    "Web Application Exploitation" := "Web",
    "Enumeration & Exploitation" := "Enum and Exploit"
  ]

  /** `CATEGORY_MAP.get(name, name)`: an unknown module keeps its own name. */
  function SheetKey(name: string): string
  {
    if name in CategoryMap then CategoryMap[name] else name
  }

  /** All modules are named, so their sheet keys can be computed. */
  predicate AllNamed(ms: seq<RawModule>)
  {
    forall j :: 0 <= j < |ms| ==> ms[j].name.Some?
  }

  /** The last position whose module files under sheet key `k`, or -1. */
  function LastWith(ms: seq<RawModule>, k: string): (j: int)
    requires AllNamed(ms)
    ensures -1 <= j < |ms|
    ensures j >= 0 ==> SheetKey(ms[j].name.value) == k
    ensures forall j' :: j < j' < |ms| ==> SheetKey(ms[j'].name.value) != k
  {
    if |ms| == 0 then -1
    else
      var j := LastWith(ms[1..], k);
      if j >= 0 then j + 1
      else if SheetKey(ms[0].name.value) == k then 0
      else -1
  }

  /** The loop `for module in modules: d[CATEGORY_MAP.get(name, name)] =
      parse(module clusters)`, continued from the dict `acc`. Reading the name
      comes first, so a nameless module raises before its clusters are read;
      the first failure aborts. */
  function GroupBySheet<V>(ms: seq<RawModule>, parse: seq<RawCluster> -> Result<V, ParseError>,
                           acc: seq<(string, V)>): (r: Result<seq<(string, V)>, ParseError>)
    requires DistinctKeys(acc)
    ensures r.Ok? ==> DistinctKeys(r.value)
  {
    if |ms| == 0 then Ok(acc)
    else match ms[0].name
      case None => Err(MissingKey("name"))
      case Some(name) =>
        match parse(ClustersOf(ms[0]))
        case Err(e) => Err(e)
        case Ok(v) => GroupBySheet(ms[1..], parse, Put(acc, SheetKey(name), v))
  }

  /** Filing the modules succeeds exactly when every module is named and its
      clusters parse. */
  lemma {:induction false} GroupBySheetOk<V>(ms: seq<RawModule>, parse: seq<RawCluster> -> Result<V, ParseError>,
                                             acc: seq<(string, V)>)
    requires DistinctKeys(acc)
    ensures GroupBySheet(ms, parse, acc).Ok? <==>
              AllNamed(ms) && forall j :: 0 <= j < |ms| ==> parse(ClustersOf(ms[j])).Ok?
    decreases |ms|
  {
    if |ms| > 0 {
      var rest := ms[1..];
      assert forall j :: 1 <= j < |ms| ==> ms[j] == rest[j - 1];
      assert AllNamed(ms) <==> ms[0].name.Some? && AllNamed(rest);
      assert (forall j :: 0 <= j < |ms| ==> parse(ClustersOf(ms[j])).Ok?) <==>
             parse(ClustersOf(ms[0])).Ok? && forall j :: 0 <= j < |rest| ==> parse(ClustersOf(rest[j])).Ok?;
      if ms[0].name.Some? && parse(ClustersOf(ms[0])).Ok? {
        var acc' := Put(acc, SheetKey(ms[0].name.value), parse(ClustersOf(ms[0])).value);
        assert GroupBySheet(ms, parse, acc) == GroupBySheet(rest, parse, acc');
        GroupBySheetOk(rest, parse, acc');
      }
    }
  }

  /** When every module is named and parses, every key holds the value
      parsed from the LAST module filed under it, and keys no module reaches
      keep their value from `acc`. */
  lemma {:induction false} GroupBySheetValues<V>(ms: seq<RawModule>, parse: seq<RawCluster> -> Result<V, ParseError>,
                              acc: seq<(string, V)>)
    requires DistinctKeys(acc)
    ensures AllNamed(ms) && (forall j :: 0 <= j < |ms| ==> parse(ClustersOf(ms[j])).Ok?) ==>
      var r := GroupBySheet(ms, parse, acc);
      r.Ok? && forall k :: (Get(r.value, k) ==
        (var j := LastWith(ms, k); if j < 0 then Get(acc, k) else Some(parse(ClustersOf(ms[j])).value)))
  {
    if AllNamed(ms) && (forall j :: 0 <= j < |ms| ==> parse(ClustersOf(ms[j])).Ok?) {
      GroupBySheetOk(ms, parse, acc);
      forall k
        ensures Get(GroupBySheet(ms, parse, acc).value, k) ==
          (var j := LastWith(ms, k); if j < 0 then Get(acc, k) else Some(parse(ClustersOf(ms[j])).value))
      {
        GroupBySheetValueAt(ms, parse, acc, k);
      }
    }
  }

  /** `GroupBySheetValues` for one key `k`. */
  lemma {:induction false} GroupBySheetValueAt<V>(ms: seq<RawModule>, parse: seq<RawCluster> -> Result<V, ParseError>,
                                                  acc: seq<(string, V)>, k: string)
    requires DistinctKeys(acc)
    requires AllNamed(ms) && forall j :: 0 <= j < |ms| ==> parse(ClustersOf(ms[j])).Ok?
    ensures GroupBySheet(ms, parse, acc).Ok?
    ensures var j := LastWith(ms, k);
      Get(GroupBySheet(ms, parse, acc).value, k) == if j < 0 then Get(acc, k) else Some(parse(ClustersOf(ms[j])).value)
    decreases |ms|
  {
    GroupBySheetOk(ms, parse, acc);
    if |ms| > 0 {
      var rest := ms[1..];
      var acc' := Put(acc, SheetKey(ms[0].name.value), parse(ClustersOf(ms[0])).value);
      assert forall j :: 0 <= j < |rest| ==> rest[j] == ms[j + 1];
      assert GroupBySheet(ms, parse, acc) == GroupBySheet(rest, parse, acc');
      GroupBySheetValueAt(rest, parse, acc', k);
      GroupStep(ms, parse, acc, GroupBySheet(ms, parse, acc).value, k);
    }
  }

  /** One step of the module loop, for one key `k`: if the modules after
      the first leave `k` with the value of its last module among them, or
      with its value after filing the first module when none of them
      reaches it, then all the modules leave `k` with the value of its last
      module, or its value in `acc` when none reaches it. */
  lemma {:induction false} GroupStep<V>(ms: seq<RawModule>, parse: seq<RawCluster> -> Result<V, ParseError>,
                     acc: seq<(string, V)>, r: seq<(string, V)>, k: string)
    requires |ms| > 0 && AllNamed(ms) && DistinctKeys(acc)
    requires forall j :: 0 <= j < |ms| ==> parse(ClustersOf(ms[j])).Ok?
    requires var j := LastWith(ms[1..], k);
      Get(r, k) == if j < 0 then Get(Put(acc, SheetKey(ms[0].name.value), parse(ClustersOf(ms[0])).value), k)
                   else Some(parse(ClustersOf(ms[1..][j])).value)
    ensures var j := LastWith(ms, k);
      Get(r, k) == if j < 0 then Get(acc, k) else Some(parse(ClustersOf(ms[j])).value)
  {
    var j' := LastWith(ms[1..], k);
    if j' >= 0 {
      assert ms[1..][j'] == ms[j' + 1];
    }
  }
}
