/**
 A Python `dict` with string keys as the sequence of its items in insertion order. Assigning to
 a key that is already present replaces its value in place; a new key goes to
 the end. Iterating `d.items()` walks this sequence.
 */
module OrderedDict {
  import opened Common

  /** The keys of `d`, in iteration order. */
  function Keys<V>(d: seq<(string, V)>): (ks: seq<string>)
    ensures |ks| == |d|
    ensures forall i :: 0 <= i < |d| ==> ks[i] == d[i].0
  {
    seq(|d|, i requires 0 <= i < |d| => d[i].0)
  }

  /** No key occurs twice. */
  predicate DistinctKeys<V>(d: seq<(string, V)>)
  {
    forall i, j :: 0 <= i < j < |d| ==> d[i].0 != d[j].0
  }

  /** The position of `k` in `d`, or -1 when `k` is not a key. */
  function IndexOf<V>(d: seq<(string, V)>, k: string): (i: int)
    ensures -1 <= i < |d|
    ensures i >= 0 ==> d[i].0 == k && forall j :: 0 <= j < i ==> d[j].0 != k
    ensures i < 0 <==> k !in Keys(d)
  {
    if |d| == 0 then -1
    else if d[0].0 == k then 0
    else
      var i := IndexOf(d[1..], k);
      assert Keys(d) == [d[0].0] + Keys(d[1..]);
      if i < 0 then -1 else i + 1
  }

  /** In a dict with distinct keys, the key at position `i` is found there. */
  lemma {:induction false} IndexOfDistinct<V>(d: seq<(string, V)>, i: int)
    requires DistinctKeys(d) && 0 <= i < |d|
    ensures IndexOf(d, d[i].0) == i
  {
  }

  /** `d.get(k)`. */
  function Get<V>(d: seq<(string, V)>, k: string): (r: Option<V>)
    ensures r.None? <==> k !in Keys(d)
    ensures r.Some? ==> exists i :: 0 <= i < |d| && d[i] == (k, r.value)
  {
    var i := IndexOf(d, k);
    if i < 0 then None else Some(d[i].1)
  }

  /** `d[k] = v`. */
  function Put<V>(d: seq<(string, V)>, k: string, v: V): (r: seq<(string, V)>)
    requires DistinctKeys(d)
    ensures DistinctKeys(r)
    ensures k in Keys(d) ==> Keys(r) == Keys(d)
    ensures k !in Keys(d) ==> Keys(r) == Keys(d) + [k]
    ensures Get(r, k) == Some(v)
    ensures forall k' :: k' != k ==> Get(r, k') == Get(d, k')
  {
    var i := IndexOf(d, k);
    if i < 0 then
      var r := d + [(k, v)];
      assert Keys(r) == Keys(d) + [k];
      assert forall k' :: k' != k ==> IndexOf(r, k') == IndexOf(d, k') by {
        forall k' | k' != k ensures IndexOf(r, k') == IndexOf(d, k') {
          var j := IndexOf(d, k');
          if j >= 0 { assert r[j] == d[j]; }
        }
      }
      r
    else
      var r := d[i := (k, v)];
      assert Keys(r) == Keys(d);
      IndexOfDistinct(r, i);
      r
  }
}
