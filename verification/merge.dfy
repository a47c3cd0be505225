/** The result merger (`_merger_dict_of_metrics`): zips each per-hash HMGET
    reply onto the period series, then sums the replies period by period into
    one dictionary keyed by `%Y-%m-%d`. */
module Merge {
  import opened Wrappers
  import opened Calendar
  import opened Format

  /** A missing field counts as zero. */
  function Or0(v: Option<int>): int {
    v.GetOr(0)
  }

  /** The value of a dictionary key, zero when absent (`dict.get(n, 0)`). */
  function Get0(m: map<string, int>, k: string): int {
    if k in m then m[k] else 0
  }

  /** The `%Y-%m-%d` keys of a series, in series order. */
  function Names(series: seq<Date>): (names: seq<string>)
    ensures |names| == |series|
    ensures forall i :: 0 <= i < |series| ==> names[i] == LongDay(series[i])
  {
    seq(|series|, i requires 0 <= i < |series| => LongDay(series[i]))
  }

  predicate Distinct<T(==)>(xs: seq<T>) {
    forall i, j :: 0 <= i < j < |xs| ==> xs[i] != xs[j]
  }

  function Elements<T>(xs: seq<T>): set<T> {
    set i | 0 <= i < |xs| :: xs[i]
  }

  /** Distinct dates have distinct series keys. */
  lemma NamesDistinct(series: seq<Date>)
    requires Distinct(series)
    ensures Distinct(Names(series))
  {
    forall i, j | 0 <= i < j < |series|
      ensures Names(series)[i] != Names(series)[j]
    {
      LongDayInjective(series[i], series[j]);
    }
  }

  /** One reply list as a dictionary: the name at each index mapped to the
      reply at that index, a later index overwriting an earlier one. */
  function ResultDict(names: seq<string>, result: seq<Option<int>>): (m: map<string, int>)
    requires |result| >= |names|
    ensures m.Keys == Elements(names)
    decreases |names|
  {
    if |names| == 0 then map[]
    else
      var n := |names| - 1;
      assert Elements(names) == Elements(names[..n]) + {names[n]};
      ResultDict(names[..n], result)[names[n] := Or0(result[n])]
  }

  /** Distinct names hold their own replies: nothing is overwritten. */
  lemma {:induction false} ResultDictAt(names: seq<string>, result: seq<Option<int>>)
    requires |result| >= |names| && Distinct(names)
    ensures forall i :: 0 <= i < |names| ==> ResultDict(names, result)[names[i]] == Or0(result[i])
    decreases |names|
  {
    if |names| > 0 {
      var n := |names| - 1;
      assert Distinct(names[..n]);
      ResultDictAt(names[..n], result);
      forall i | 0 <= i < n
        ensures ResultDict(names, result)[names[i]] == Or0(result[i])
      {
        assert names[..n][i] == names[i] != names[n];
      }
    }
  }

  /** A list of distinct elements has as many elements as its set. */
  lemma {:induction false} DistinctElements<T>(xs: seq<T>)
    requires Distinct(xs)
    ensures |Elements(xs)| == |xs|
    decreases |xs|
  {
    if |xs| > 0 {
      var n := |xs| - 1;
      assert Distinct(xs[..n]);
      DistinctElements(xs[..n]);
      assert Elements(xs) == Elements(xs[..n]) + {xs[n]};
      assert xs[n] !in Elements(xs[..n]);
    }
  }

  /** The reducing step: keys of either side, values summed, absent as zero. */
  function Combine(a: map<string, int>, b: map<string, int>): (c: map<string, int>)
    ensures c.Keys == a.Keys + b.Keys
    ensures forall k :: Get0(c, k) == Get0(a, k) + Get0(b, k)
  {
    map k | k in a.Keys + b.Keys :: Get0(a, k) + Get0(b, k)
  }

  /** The total of one key across a list of dictionaries. */
  function SumGet(ds: seq<map<string, int>>, k: string): int {
    if |ds| == 0 then 0 else SumGet(ds[..|ds| - 1], k) + Get0(ds[|ds| - 1], k)
  }

  /** `reduce(Combine, ds)`: a left fold, defined for a non-empty list. */
  function Reduce(ds: seq<map<string, int>>): (r: map<string, int>)
    requires |ds| >= 1
    ensures forall k :: Get0(r, k) == SumGet(ds, k)
    ensures (forall i :: 0 <= i < |ds| ==> ds[i].Keys == ds[0].Keys) ==> r.Keys == ds[0].Keys
  {
    if |ds| == 1 then
      assert forall k :: SumGet(ds, k) == SumGet([], k) + Get0(ds[0], k);
      ds[0]
    else
      var n := |ds| - 1;
      assert ds[..n][0] == ds[0];
      Combine(Reduce(ds[..n]), ds[n])
  }

  /** The total of index i across reply lists, missing replies as zero. */
  function SumAt(results: seq<seq<Option<int>>>, i: nat): int
    requires forall k :: 0 <= k < |results| ==> i < |results[k]|
  {
    if |results| == 0 then 0
    else SumAt(results[..|results| - 1], i) + Or0(results[|results| - 1][i])
  }

  /** The list of per-reply dictionaries, in reply order. */
  function ResultDicts(names: seq<string>, results: seq<seq<Option<int>>>): (ds: seq<map<string, int>>)
    requires forall k :: 0 <= k < |results| ==> |results[k]| >= |names|
    ensures |ds| == |results|
    ensures forall k :: 0 <= k < |results| ==> ds[k].Keys == Elements(names)
  {
    if |results| == 0 then []
    else
      var n := |results| - 1;
      ResultDicts(names, results[..n]) + [ResultDict(names, results[n])]
  }

  /** `_merger_dict_of_metrics(series, results)`. */
  function MergeMetrics(series: seq<Date>, results: seq<seq<Option<int>>>): (r: map<string, int>)
    requires |results| >= 1
    requires forall k :: 0 <= k < |results| ==> |results[k]| >= |series|
    ensures r.Keys == Elements(Names(series))
    ensures Distinct(series) ==> |r| == |series|
    ensures Distinct(series) ==> forall i :: 0 <= i < |series| ==> r[LongDay(series[i])] == SumAt(results, i)
  {
    var r := Reduce(ResultDicts(Names(series), results));
    if Distinct(series) then
      MergedDistinct(series, results);
      r
    else
      r
  }

  /** For distinct dates, the merged dictionary has one key per date, holding its replies' sum. */
  lemma MergedDistinct(series: seq<Date>, results: seq<seq<Option<int>>>)
    requires |results| >= 1 && Distinct(series)
    requires forall k :: 0 <= k < |results| ==> |results[k]| >= |series|
    ensures var r := Reduce(ResultDicts(Names(series), results));
      |r| == |series| && forall i :: 0 <= i < |series| ==> LongDay(series[i]) in r && r[LongDay(series[i])] == SumAt(results, i)
  {
    var names := Names(series);
    var r := Reduce(ResultDicts(names, results));
    NamesDistinct(series);
    DistinctElements(names);
    assert |r| == |r.Keys|;
    forall i | 0 <= i < |series|
      ensures names[i] in r && r[names[i]] == SumAt(results, i)
    {
      SumOfDicts(names, results, i);
    }
  }

  /** Summing the dictionaries at a name sums the replies at its index. */
  lemma {:induction false} SumOfDicts(names: seq<string>, results: seq<seq<Option<int>>>, i: nat)
    requires Distinct(names) && i < |names|
    requires forall k :: 0 <= k < |results| ==> |results[k]| >= |names|
    ensures SumGet(ResultDicts(names, results), names[i]) == SumAt(results, i)
    decreases |results|
  {
    if |results| > 0 {
      var n := |results| - 1;
      var ds := ResultDicts(names, results);
      assert ds[..n] == ResultDicts(names, results[..n]);
      SumOfDicts(names, results[..n], i);
      ResultDictAt(names, results[n]);
    }
  }
}
