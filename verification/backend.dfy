/** The Redis analytics backend: tracking counters and reading them back as
    time series. Every operation takes the store explicitly and returns the
    new store (for writes) together with the reply the backend hands back. */
module Backend {
  import opened Wrappers
  import opened Calendar
  import opened Format
  import opened RedisStore
  import opened Keys
  import opened Ranges
  import opened Merge

  /** `track_count`: adds `amt` to the subject's undated total and replies with it. */
  function TrackCount(s: Store, id: string, metric: string, amt: int): (r: (Store, int))
    ensures r.1 == ScalarValue(s, AggregateKey(id, metric)) + amt
    ensures forall k :: ScalarValue(r.0, k) == ScalarValue(s, k) + (if k == AggregateKey(id, metric) then amt else 0)
    ensures r.0.scalars.Keys == s.scalars.Keys + {AggregateKey(id, metric)}
    ensures r.0.hashes == s.hashes
  {
    Incr(s, AggregateKey(id, metric), amt)
  }

  /** The counter slots one tracked event touches: its day, its week (named by
      the week's Monday) and its month. The week and month slots share the
      hash of the event's own two-digit year. */
  predicate Hit(k: string, f: string, id: string, metric: string, date: Date) {
    || (k == DailyKey(id, date) && f == DailyName(metric, date))
    || (k == WeeklyKey(id, date) && f == WeeklyName(metric, ClosestWeek(date)))
    || (k == WeeklyKey(id, date) && f == MonthlyName(metric, date))
  }

  /** The fields of hash `k` that tracking an event creates if missing. */
  function TouchedFields(k: string, id: string, metric: string, date: Date): set<string> {
    (if k == DailyKey(id, date) then {DailyName(metric, date)} else {})
    + (if k == WeeklyKey(id, date) then {WeeklyName(metric, ClosestWeek(date)), MonthlyName(metric, date)} else {})
  }

  /** Python's `a and b`: `a` when it is falsy (zero), otherwise `b`. */
  function PyAnd(a: int, b: int): int {
    if a == 0 then a else b
  }

  /** The pipeline of `track_metric` on abstract slots: HINCRBY `f1` of hash
      `k1`, `f2` and `f3` of hash `k2`, INCRBY scalar `c`, all by `amt`, in
      that order, replying with the four new values. */
  function Pipeline(s: Store, k1: string, f1: string, k2: string, f2: string, f3: string, c: string, amt: int)
    : (r: (Store, seq<int>))
    requires f2 != f3
    ensures |r.1| == 4
  {
    var a := HIncrBy(s, k1, f1, amt);
    var b := HIncrByTwo(a.0, k2, f2, f3, amt);
    var d := Incr(b.0, c, amt);
    (d.0, [a.1, b.1, b.2, d.1])
  }

  /** The pipeline adds `amt` to exactly its three fields and its scalar. */
  lemma PipelineWrites(s: Store, k1: string, f1: string, k2: string, f2: string, f3: string, c: string, amt: int)
    requires k1 != k2 && f2 != f3
    ensures var t := Pipeline(s, k1, f1, k2, f2, f3, c, amt).0;
      forall k, f ::
        FieldValue(t, k, f) == FieldValue(s, k, f) + (if (k == k1 && f == f1) || (k == k2 && (f == f2 || f == f3)) then amt else 0)
    ensures var t := Pipeline(s, k1, f1, k2, f2, f3, c, amt).0;
      forall k :: ScalarValue(t, k) == ScalarValue(s, k) + (if k == c then amt else 0)
  {
    var (s1, v1) := HIncrBy(s, k1, f1, amt);
    var (s3, v2, v3) := HIncrByTwo(s1, k2, f2, f3, amt);
    var (s4, v4) := Incr(s3, c, amt);
    PipelineFields(s, s1, s3, s4, k1, f1, k2, f2, f3, amt);
    assert forall k :: ScalarValue(s3, k) == ScalarValue(s, k);
  }

  /** The pipeline creates its two hashes, its three fields and its scalar, and nothing else. */
  lemma PipelineCreates(s: Store, k1: string, f1: string, k2: string, f2: string, f3: string, c: string, amt: int)
    requires f2 != f3
    ensures var t := Pipeline(s, k1, f1, k2, f2, f3, c, amt).0;
      && t.hashes.Keys == s.hashes.Keys + {k1, k2}
      && t.scalars.Keys == s.scalars.Keys + {c}
    ensures var t := Pipeline(s, k1, f1, k2, f2, f3, c, amt).0;
      forall k :: HashAt(t, k).Keys == HashAt(s, k).Keys + ((if k == k1 then {f1} else {}) + (if k == k2 then {f2, f3} else {}))
  {
    var (s1, v1) := HIncrBy(s, k1, f1, amt);
    var (s3, v2, v3) := HIncrByTwo(s1, k2, f2, f3, amt);
    var (s4, v4) := Incr(s3, c, amt);
    PipelineKeys(s, s1, s3, s4, k1, f1, k2, f2, f3);
  }

  /** The pipeline replies with the four new values, in command order. */
  lemma PipelineReplies(s: Store, k1: string, f1: string, k2: string, f2: string, f3: string, c: string, amt: int)
    requires k1 != k2 && f2 != f3
    ensures var v := Pipeline(s, k1, f1, k2, f2, f3, c, amt).1;
      && v[0] == FieldValue(s, k1, f1) + amt && v[1] == FieldValue(s, k2, f2) + amt
      && v[2] == FieldValue(s, k2, f3) + amt && v[3] == ScalarValue(s, c) + amt
  {
    var a := HIncrBy(s, k1, f1, amt);
    var b := HIncrByTwo(a.0, k2, f2, f3, amt);
    var d := Incr(b.0, c, amt);
    RepliesAfter(s, a.0, b.0, k1, f1, k2, f2, f3, c, amt, a.1, b.1, b.2, d.1);
  }

  /** Each reply of the pipeline is its slot's value before the pipeline plus the amount. */
  lemma RepliesAfter(s: Store, s1: Store, s3: Store, k1: string, f1: string, k2: string, f2: string, f3: string, c: string,
                     amt: int, v1: int, v2: int, v3: int, v4: int)
    requires k1 != k2
    requires v1 == FieldValue(s, k1, f1) + amt
    requires forall k, f :: FieldValue(s1, k, f) == FieldValue(s, k, f) + (if k == k1 && f == f1 then amt else 0)
    requires s1.scalars == s.scalars && s3.scalars == s1.scalars
    requires v2 == FieldValue(s1, k2, f2) + amt && v3 == FieldValue(s1, k2, f3) + amt
    requires v4 == ScalarValue(s3, c) + amt
    ensures v1 == FieldValue(s, k1, f1) + amt && v2 == FieldValue(s, k2, f2) + amt
    ensures v3 == FieldValue(s, k2, f3) + amt && v4 == ScalarValue(s, c) + amt
  {
    assert FieldValue(s1, k2, f2) == FieldValue(s, k2, f2) && FieldValue(s1, k2, f3) == FieldValue(s, k2, f3);
  }

  /** Two HINCRBYs of distinct fields of one hash, replying with both new values. */
  function HIncrByTwo(s: Store, key: string, f2: string, f3: string, amt: int): (r: (Store, int, int))
    requires f2 != f3
    ensures r.1 == FieldValue(s, key, f2) + amt && r.2 == FieldValue(s, key, f3) + amt
    ensures forall k, f :: FieldValue(r.0, k, f) == FieldValue(s, k, f) + (if k == key && (f == f2 || f == f3) then amt else 0)
    ensures r.0.hashes.Keys == s.hashes.Keys + {key}
    ensures forall k :: HashAt(r.0, k).Keys == HashAt(s, k).Keys + (if k == key then {f2, f3} else {})
    ensures r.0.scalars == s.scalars
  {
    var (s2, v2) := HIncrBy(s, key, f2, amt);
    var (s3, v3) := HIncrBy(s2, key, f3, amt);
    assert forall k :: HashAt(s3, k).Keys == HashAt(s, k).Keys + (if k == key then {f2, f3} else {}) by {
      forall k
        ensures HashAt(s3, k).Keys == HashAt(s, k).Keys + (if k == key then {f2, f3} else {})
      {
        if k == key {
          assert HashAt(s3, k).Keys == HashAt(s, k).Keys + {f2} + {f3};
        }
      }
    }
    (s3, v2, v3)
  }

  /** The field values after the pipeline's HINCRBYs and INCRBY. */
  lemma PipelineFields(s: Store, s1: Store, s3: Store, s4: Store,
                       k1: string, f1: string, k2: string, f2: string, f3: string, amt: int)
    requires k1 != k2
    requires forall k, f :: FieldValue(s1, k, f) == FieldValue(s, k, f) + (if k == k1 && f == f1 then amt else 0)
    requires forall k, f :: FieldValue(s3, k, f) == FieldValue(s1, k, f) + (if k == k2 && (f == f2 || f == f3) then amt else 0)
    requires s4.hashes == s3.hashes
    ensures forall k, f ::
      FieldValue(s4, k, f) == FieldValue(s, k, f) + (if (k == k1 && f == f1) || (k == k2 && (f == f2 || f == f3)) then amt else 0)
  {
    forall k, f
      ensures FieldValue(s4, k, f) == FieldValue(s, k, f) + (if (k == k1 && f == f1) || (k == k2 && (f == f2 || f == f3)) then amt else 0)
    {
      assert FieldValue(s4, k, f) == FieldValue(s3, k, f);
    }
  }

  /** The hash fields present after the pipeline. */
  lemma PipelineKeys(s: Store, s1: Store, s3: Store, s4: Store,
                     k1: string, f1: string, k2: string, f2: string, f3: string)
    requires forall k :: HashAt(s1, k).Keys == HashAt(s, k).Keys + (if k == k1 then {f1} else {})
    requires forall k :: HashAt(s3, k).Keys == HashAt(s1, k).Keys + (if k == k2 then {f2, f3} else {})
    requires s4.hashes == s3.hashes
    ensures forall k ::
      HashAt(s4, k).Keys == HashAt(s, k).Keys + ((if k == k1 then {f1} else {}) + (if k == k2 then {f2, f3} else {}))
  {
    forall k
      ensures HashAt(s4, k).Keys == HashAt(s, k).Keys + ((if k == k1 then {f1} else {}) + (if k == k2 then {f2, f3} else {}))
    {
      assert HashAt(s4, k) == HashAt(s3, k);
    }
  }

  /** `track_metric`: one pipeline of three HINCRBYs (day, week, month) and one
      INCRBY (the total), each by `amt`; the reply is the `and` of the four
      new values. */
  function TrackMetric(s: Store, id: string, metric: string, date: Date, amt: int): (r: (Store, int))
    ensures forall k, f :: FieldValue(r.0, k, f) == FieldValue(s, k, f) + (if Hit(k, f, id, metric, date) then amt else 0)
    ensures forall k :: ScalarValue(r.0, k) == ScalarValue(s, k) + (if k == AggregateKey(id, metric) then amt else 0)
    ensures r.0.hashes.Keys == s.hashes.Keys + {DailyKey(id, date), WeeklyKey(id, date)}
    ensures forall k :: HashAt(r.0, k).Keys == HashAt(s, k).Keys + TouchedFields(k, id, metric, date)
    ensures r.0.scalars.Keys == s.scalars.Keys + {AggregateKey(id, metric)}
    ensures r.1 != 0 <==>
      && FieldValue(s, DailyKey(id, date), DailyName(metric, date)) + amt != 0
      && FieldValue(s, WeeklyKey(id, date), WeeklyName(metric, ClosestWeek(date))) + amt != 0
      && FieldValue(s, WeeklyKey(id, date), MonthlyName(metric, date)) + amt != 0
      && ScalarValue(s, AggregateKey(id, metric)) + amt != 0
    ensures r.1 != 0 ==> r.1 == ScalarValue(s, AggregateKey(id, metric)) + amt
  {
    var monday := ClosestWeek(date);
    DailyKeyNotWeeklyKey(id, date, id, date);
    WeeklyNameNotMonthlyName(metric, monday, metric, date);
    var k1, f1, k2, f2, f3, c := DailyKey(id, date), DailyName(metric, date),
      WeeklyKey(id, date), WeeklyName(metric, monday), MonthlyName(metric, date), AggregateKey(id, metric);
    var (t, v) := Pipeline(s, k1, f1, k2, f2, f3, c, amt);
    PipelineWrites(s, k1, f1, k2, f2, f3, c, amt);
    PipelineCreates(s, k1, f1, k2, f2, f3, c, amt);
    PipelineReplies(s, k1, f1, k2, f2, f3, c, amt);
    TrackSlots(s, t, id, metric, date, amt, k1, f1, k2, f2, f3, c);
    TrackFields(s, t, id, metric, date, amt, k1, f1, k2, f2, f3, c);
    (t, AndAll(v))
  }

  /** `v[0] and v[1] and v[2] and v[3]`: zero when any reply is zero, else the last. */
  function AndAll(v: seq<int>): (r: int)
    requires |v| == 4
    ensures r != 0 <==> v[0] != 0 && v[1] != 0 && v[2] != 0 && v[3] != 0
    ensures r != 0 ==> r == v[3]
  {
    PyAnd(PyAnd(PyAnd(v[0], v[1]), v[2]), v[3])
  }

  /** The pipeline of `track_metric` writes exactly the slots `Hit` names. */
  lemma TrackSlots(s: Store, t: Store, id: string, metric: string, date: Date, amt: int,
                   k1: string, f1: string, k2: string, f2: string, f3: string, c: string)
    requires k1 == DailyKey(id, date) && f1 == DailyName(metric, date) && k2 == WeeklyKey(id, date)
    requires f2 == WeeklyName(metric, ClosestWeek(date)) && f3 == MonthlyName(metric, date)
    requires k1 != k2 && f2 != f3
    requires t == Pipeline(s, k1, f1, k2, f2, f3, c, amt).0
    ensures forall k, f :: FieldValue(t, k, f) == FieldValue(s, k, f) + (if Hit(k, f, id, metric, date) then amt else 0)
  {
    PipelineWrites(s, k1, f1, k2, f2, f3, c, amt);
  }

  /** The pipeline of `track_metric` creates exactly the fields `TouchedFields` names. */
  lemma TrackFields(s: Store, t: Store, id: string, metric: string, date: Date, amt: int,
                    k1: string, f1: string, k2: string, f2: string, f3: string, c: string)
    requires k1 == DailyKey(id, date) && f1 == DailyName(metric, date) && k2 == WeeklyKey(id, date)
    requires f2 == WeeklyName(metric, ClosestWeek(date)) && f3 == MonthlyName(metric, date)
    requires f2 != f3
    requires t == Pipeline(s, k1, f1, k2, f2, f3, c, amt).0
    ensures forall k :: HashAt(t, k).Keys == HashAt(s, k).Keys + TouchedFields(k, id, metric, date)
  {
    PipelineCreates(s, k1, f1, k2, f2, f3, c, amt);
  }

  /** `get_count`: the undated total, 0 when never tracked. */
  function GetCount(s: Store, id: string, metric: string): (r: int)
    ensures r == ScalarValue(s, AggregateKey(id, metric))
    ensures AggregateKey(id, metric) !in s.scalars ==> r == 0
  {
    Get(s, AggregateKey(id, metric)).GetOr(0)
  }

  /** `get_counts`: one `get_count` per (subject, metric) pair, in order. */
  function GetCounts(s: Store, idents: seq<(string, string)>): (r: seq<int>)
    ensures |r| == |idents|
    ensures forall j :: 0 <= j < |idents| ==> r[j] == GetCount(s, idents[j].0, idents[j].1)
  {
    seq(|idents|, j requires 0 <= j < |idents| => Get(s, AggregateKey(idents[j].0, idents[j].1)).GetOr(0))
  }

  /** The sum of one field over a list of hashes. */
  function SlotSum(s: Store, keys: seq<string>, field: string): int {
    if |keys| == 0 then 0
    else SlotSum(s, keys[..|keys| - 1], field) + FieldValue(s, keys[|keys| - 1], field)
  }

  /** One HMGET per hash key, in key order, all asking for the same fields;
      the batch fails with the server's error when any HMGET does. */
  function HMGetEach(s: Store, keys: seq<string>, fields: seq<string>): (r: Result<seq<seq<Option<int>>>>)
    ensures r.Failure? <==> |keys| > 0 && |fields| == 0
    ensures r.Failure? ==> r.error == HMGetArityError
    ensures r.Success? ==> |r.value| == |keys|
    ensures r.Success? ==> forall h :: 0 <= h < |keys| ==> |r.value[h]| == |fields|
    ensures r.Success? ==> forall h, i :: 0 <= h < |keys| && 0 <= i < |fields| ==>
      r.value[h][i].GetOr(0) == FieldValue(s, keys[h], fields[i])
  {
    if |keys| == 0 then Success([])
    else
      match HMGetEach(s, keys[..|keys| - 1], fields)
      case Failure(e) => Failure(e)
      case Success(init) =>
        match HMGet(s, keys[|keys| - 1], fields)
        case Failure(e) => Failure(e)
        case Success(last) => Success(init + [last])
  }

  /** Summing the replies at one position sums that field over the hashes. */
  lemma {:induction false} SumOfReplies(s: Store, keys: seq<string>, fields: seq<string>, i: nat)
    requires i < |fields|
    ensures SumAt(HMGetEach(s, keys, fields).value, i) == SlotSum(s, keys, fields[i])
    decreases |keys|
  {
    if |keys| > 0 {
      var n := |keys| - 1;
      assert HMGetEach(s, keys, fields).value[..n] == HMGetEach(s, keys[..n], fields).value;
      SumOfReplies(s, keys[..n], fields, i);
    }
  }

  // Series of period starts.

  /** `from_date + timedelta(days=i)` for i below `limit`. */
  function DaySeries(from: Date, limit: nat): (r: seq<Date>)
    ensures |r| == limit
    ensures forall i :: 0 <= i < limit ==> ToOrdinal(r[i]) == ToOrdinal(from) + i
    ensures Distinct(r)
  {
    seq(limit, i requires 0 <= i < limit => AddDays(from, i))
  }

  /** `monday + timedelta(days=7 * i)` for i below `limit`. */
  function WeekSeries(monday: Date, limit: nat): (r: seq<Date>)
    ensures |r| == limit
    ensures forall i :: 0 <= i < limit ==> ToOrdinal(r[i]) == ToOrdinal(monday) + 7 * i
    ensures Distinct(r)
  {
    seq(limit, i requires 0 <= i < limit => AddDays(monday, 7 * i))
  }

  /** `first + relativedelta(months=i)` for i below `limit`. */
  function MonthSeries(first: Date, limit: nat): (r: seq<Date>)
    requires first.day == 1
    ensures |r| == limit
    ensures forall i :: 0 <= i < limit ==> MonthIndex(r[i]) == MonthIndex(first) + i && r[i].day == 1
    ensures Distinct(r)
  {
    seq(limit, i requires 0 <= i < limit => AddMonths(first, i))
  }

  // Hash keys and field names of a query.

  function DailyKeys(id: string, range: seq<Date>): (r: seq<string>)
    ensures |r| == |range| && forall h :: 0 <= h < |range| ==> r[h] == DailyKey(id, range[h])
  {
    seq(|range|, h requires 0 <= h < |range| => DailyKey(id, range[h]))
  }

  function WeeklyKeys(id: string, range: seq<Date>): (r: seq<string>)
    ensures |r| == |range| && forall h :: 0 <= h < |range| ==> r[h] == WeeklyKey(id, range[h])
  {
    seq(|range|, h requires 0 <= h < |range| => WeeklyKey(id, range[h]))
  }

  function DailyNames(metric: string, series: seq<Date>): (r: seq<string>)
    ensures |r| == |series| && forall i :: 0 <= i < |series| ==> r[i] == DailyName(metric, series[i])
  {
    seq(|series|, i requires 0 <= i < |series| => DailyName(metric, series[i]))
  }

  function WeeklyNames(metric: string, series: seq<Date>): (r: seq<string>)
    ensures |r| == |series| && forall i :: 0 <= i < |series| ==> r[i] == WeeklyName(metric, series[i])
  {
    seq(|series|, i requires 0 <= i < |series| => WeeklyName(metric, series[i]))
  }

  function MonthlyNames(metric: string, series: seq<Date>): (r: seq<string>)
    ensures |r| == |series| && forall i :: 0 <= i < |series| ==> r[i] == MonthlyName(metric, series[i])
  {
    seq(|series|, i requires 0 <= i < |series| => MonthlyName(metric, series[i]))
  }

  // The hashes each query reads.

  function DayHashes(id: string, from: Date, limit: nat): seq<string> {
    DailyKeys(id, DailyDateRange(from, Days(limit)))
  }

  function WeekHashes(id: string, from: Date, limit: nat): seq<string> {
    var monday := ClosestWeek(from);
    WeeklyKeys(id, WeeklyDateRange(monday, Days(7 * limit)))
  }

  function MonthHashes(id: string, from: Date, limit: nat): seq<string> {
    var first := FirstOfMonth(from);
    WeeklyKeys(id, WeeklyDateRange(first, Months(limit)))
  }

  /** A query before merging: the series and one reply list per hash. */
  datatype Raw = Raw(series: seq<Date>, replies: seq<seq<Option<int>>>)

  /** The replies fit the merger: at least one list, each as long as the series. */
  predicate Mergeable(q: Raw) {
    && |q.replies| >= 1
    && forall h :: 0 <= h < |q.replies| ==> |q.replies[h]| == |q.series|
  }

  /** The part of `get_metric_by_day` that talks to the store, as run under a
      caller's connection: every daily field of the series is asked of every
      monthly hash the range touches. */
  function DayQuery(s: Store, id: string, metric: string, from: Date, limit: nat): (r: Result<Raw>)
    ensures r.Failure? <==> limit == 0
    ensures r.Failure? ==> r.error == HMGetArityError
    ensures r.Success? ==> var q := r.value;
      && q.series == DaySeries(from, limit)
      && Mergeable(q) && |q.replies| == |DayHashes(id, from, limit)|
      && forall h, i :: 0 <= h < |q.replies| && 0 <= i < limit ==>
        q.replies[h][i].GetOr(0) == FieldValue(s, DayHashes(id, from, limit)[h], DailyName(metric, q.series[i]))
  {
    var series := DaySeries(from, limit);
    match HMGetEach(s, DayHashes(id, from, limit), DailyNames(metric, series))
    case Failure(e) => Failure(e)
    case Success(replies) => Success(Raw(series, replies))
  }

  /** The store-facing part of `get_metric_by_week`: the series starts at the
      Monday on or before `from`, and every weekly field is asked of every
      yearly hash the range touches. */
  function WeekQuery(s: Store, id: string, metric: string, from: Date, limit: nat): (r: Result<Raw>)
    ensures r.Failure? <==> limit == 0
    ensures r.Failure? ==> r.error == HMGetArityError
    ensures r.Success? ==> var q := r.value;
      && q.series == WeekSeries(ClosestWeek(from), limit)
      && Mergeable(q) && |q.replies| == |WeekHashes(id, from, limit)|
      && forall h, i :: 0 <= h < |q.replies| && 0 <= i < limit ==>
        q.replies[h][i].GetOr(0) == FieldValue(s, WeekHashes(id, from, limit)[h], WeeklyName(metric, q.series[i]))
  {
    var series := WeekSeries(ClosestWeek(from), limit);
    match HMGetEach(s, WeekHashes(id, from, limit), WeeklyNames(metric, series))
    case Failure(e) => Failure(e)
    case Success(replies) => Success(Raw(series, replies))
  }

  /** The store-facing part of `get_metric_by_month`: the series starts on the
      first of `from`'s month. */
  function MonthQuery(s: Store, id: string, metric: string, from: Date, limit: nat): (r: Result<Raw>)
    ensures r.Failure? <==> limit == 0
    ensures r.Failure? ==> r.error == HMGetArityError
    ensures r.Success? ==> var q := r.value;
      && q.series == MonthSeries(FirstOfMonth(from), limit)
      && Mergeable(q) && |q.replies| == |MonthHashes(id, from, limit)|
      && forall h, i :: 0 <= h < |q.replies| && 0 <= i < limit ==>
        q.replies[h][i].GetOr(0) == FieldValue(s, MonthHashes(id, from, limit)[h], MonthlyName(metric, q.series[i]))
  {
    var series := MonthSeries(FirstOfMonth(from), limit);
    match HMGetEach(s, MonthHashes(id, from, limit), MonthlyNames(metric, series))
    case Failure(e) => Failure(e)
    case Success(replies) => Success(Raw(series, replies))
  }

  /** The merged answer of a query: the series and the per-period totals. */
  datatype Answer = Answer(series: seq<Date>, values: map<string, int>)

  function Merged(q: Raw): (a: Answer)
    requires Mergeable(q)
    ensures a.series == q.series
    ensures a.values.Keys == Elements(Names(q.series))
  {
    Answer(q.series, MergeMetrics(q.series, q.replies))
  }

  /** `get_metric_by_day` without a caller's connection: one value per day of
      the series, the day's counter summed over every hash read. */
  function GetMetricByDay(s: Store, id: string, metric: string, from: Date, limit: nat): (r: Result<Answer>)
    ensures r.Failure? <==> limit == 0
    ensures r.Failure? ==> r.error == HMGetArityError
    ensures r.Success? ==> var a := r.value;
      && a.series == DaySeries(from, limit)
      && a.values.Keys == Elements(Names(a.series)) && |a.values| == limit
      && forall i :: 0 <= i < limit ==>
        a.values[LongDay(a.series[i])] == SlotSum(s, DayHashes(id, from, limit), DailyName(metric, a.series[i]))
  {
    match DayQuery(s, id, metric, from, limit)
    case Failure(e) => Failure(e)
    case Success(q) =>
      forall i | 0 <= i < limit
        ensures SumAt(q.replies, i) == SlotSum(s, DayHashes(id, from, limit), DailyName(metric, q.series[i]))
      {
        SumOfReplies(s, DayHashes(id, from, limit), DailyNames(metric, q.series), i);
      }
      Success(Merged(q))
  }

  /** `get_metric_by_week` without a caller's connection. */
  function GetMetricByWeek(s: Store, id: string, metric: string, from: Date, limit: nat): (r: Result<Answer>)
    ensures r.Failure? <==> limit == 0
    ensures r.Failure? ==> r.error == HMGetArityError
    ensures r.Success? ==> var a := r.value;
      && a.series == WeekSeries(ClosestWeek(from), limit)
      && a.values.Keys == Elements(Names(a.series)) && |a.values| == limit
      && forall i :: 0 <= i < limit ==>
        a.values[LongDay(a.series[i])] == SlotSum(s, WeekHashes(id, from, limit), WeeklyName(metric, a.series[i]))
  {
    match WeekQuery(s, id, metric, from, limit)
    case Failure(e) => Failure(e)
    case Success(q) =>
      forall i | 0 <= i < limit
        ensures SumAt(q.replies, i) == SlotSum(s, WeekHashes(id, from, limit), WeeklyName(metric, q.series[i]))
      {
        SumOfReplies(s, WeekHashes(id, from, limit), WeeklyNames(metric, q.series), i);
      }
      Success(Merged(q))
  }

  /** `get_metric_by_month` without a caller's connection. */
  function GetMetricByMonth(s: Store, id: string, metric: string, from: Date, limit: nat): (r: Result<Answer>)
    ensures r.Failure? <==> limit == 0
    ensures r.Failure? ==> r.error == HMGetArityError
    ensures r.Success? ==> var a := r.value;
      && a.series == MonthSeries(FirstOfMonth(from), limit)
      && a.values.Keys == Elements(Names(a.series)) && |a.values| == limit
      && forall i :: 0 <= i < limit ==>
        a.values[LongDay(a.series[i])] == SlotSum(s, MonthHashes(id, from, limit), MonthlyName(metric, a.series[i]))
  {
    match MonthQuery(s, id, metric, from, limit)
    case Failure(e) => Failure(e)
    case Success(q) =>
      forall i | 0 <= i < limit
        ensures SumAt(q.replies, i) == SlotSum(s, MonthHashes(id, from, limit), MonthlyName(metric, q.series[i]))
      {
        SumOfReplies(s, MonthHashes(id, from, limit), MonthlyNames(metric, q.series), i);
      }
      Success(Merged(q))
  }

  /** The granularities `get_metrics` accepts. */
  datatype Granularity = ByDay | ByWeek | ByMonth

  /** `unicode.lower` on one character, for A-Z and the Kelvin sign (U+212A),
      whose lower case is 'k'; a byte-string `group_by` only has A-Z lowered. */
  function LowerChar(c: char): char {
    if 'A' <= c <= 'Z' then (c as int - 'A' as int + 'a' as int) as char
    else if c == '\U{212A}' then 'k'
    else c
  }

  function Lower(s: string): (r: string)
    ensures |r| == |s|
  {
    seq(|s|, i requires 0 <= i < |s| => LowerChar(s[i]))
  }

  const GroupByError := "Allowed values for group_by are day, week or month."

  /** The `allowed_types` lookup on the lower-cased `group_by`. */
  function ParseGroupBy(groupBy: string): (r: Option<Granularity>)
    ensures r == Some(ByDay) <==> Lower(groupBy) == "day"
    ensures r == Some(ByWeek) <==> Lower(groupBy) == "week"
    ensures r == Some(ByMonth) <==> Lower(groupBy) == "month"
  {
    var g := Lower(groupBy);
    if g == "day" then Some(ByDay)
    else if g == "week" then Some(ByWeek)
    else if g == "month" then Some(ByMonth)
    else None
  }

  /** One subject's query under the shared connection of `get_metrics`. */
  function RawQuery(g: Granularity, s: Store, id: string, metric: string, from: Date, limit: nat): (r: Result<Raw>)
    ensures r.Failure? <==> limit == 0
    ensures r.Failure? ==> r.error == HMGetArityError
    ensures r.Success? ==> Mergeable(r.value)
  {
    match g
    case ByDay => DayQuery(s, id, metric, from, limit)
    case ByWeek => WeekQuery(s, id, metric, from, limit)
    case ByMonth => MonthQuery(s, id, metric, from, limit)
  }

  /** The stand-alone query of a granularity. */
  function GetMetricBy(g: Granularity, s: Store, id: string, metric: string, from: Date, limit: nat): Result<Answer> {
    match g
    case ByDay => GetMetricByDay(s, id, metric, from, limit)
    case ByWeek => GetMetricByWeek(s, id, metric, from, limit)
    case ByMonth => GetMetricByMonth(s, id, metric, from, limit)
  }

  /** The replies of a pipeline: all values when every command succeeded,
      else the error of the first that failed. */
  function Collect<T>(rs: seq<Result<T>>): (r: Result<seq<T>>)
    ensures r.Success? <==> forall j :: 0 <= j < |rs| ==> rs[j].Success?
    ensures r.Success? ==> |r.value| == |rs| && forall j :: 0 <= j < |rs| ==> rs[j] == Success(r.value[j])
    ensures r.Failure? ==> exists j :: 0 <= j < |rs| && rs[j] == Failure(r.error)
  {
    if |rs| == 0 then Success([])
    else
      match rs[0]
      case Failure(e) => Failure(e)
      case Success(v) =>
        match Collect(rs[1..])
        case Failure(e) => Failure(e)
        case Success(vs) => Success([v] + vs)
  }

  /** A query under a shared connection, merged afterwards, is the stand-alone query. */
  lemma RawThenMerge(g: Granularity, s: Store, id: string, metric: string, from: Date, limit: nat)
    requires limit > 0
    ensures GetMetricBy(g, s, id, metric, from, limit) == Success(Merged(RawQuery(g, s, id, metric, from, limit).value))
  {
  }

  /** `get_metrics`: an unknown `group_by` is an error; otherwise every
      (subject, metric) pair is queried on one connection and each reply list
      merged afterwards, giving what the stand-alone query would give. With no
      period asked for (`limit` 0) every HMGET names no field and the server
      refuses it, unless there is no pair to query. */
  function GetMetrics(s: Store, idents: seq<(string, string)>, from: Date, limit: nat, groupBy: string): (r: Result<seq<Answer>>)
    ensures r.Failure? <==> ParseGroupBy(groupBy).None? || (limit == 0 && |idents| > 0)
    ensures r.Failure? && ParseGroupBy(groupBy).None? ==> r.error == GroupByError
    ensures r.Failure? && ParseGroupBy(groupBy).Some? ==> r.error == HMGetArityError
    ensures r.Success? ==> |r.value| == |idents|
  {
    match ParseGroupBy(groupBy)
    case None => Failure(GroupByError)
    case Some(g) => GetMetricsOf(g, s, idents, from, limit)
  }

  /** The body of `get_metrics` once `group_by` is accepted: every pair is
      queried on the shared connection, then each reply list is merged. */
  function GetMetricsOf(g: Granularity, s: Store, idents: seq<(string, string)>, from: Date, limit: nat): (r: Result<seq<Answer>>)
    ensures r.Failure? <==> limit == 0 && |idents| > 0
    ensures r.Failure? ==> r.error == HMGetArityError
    ensures r.Success? ==> |r.value| == |idents|
  {
    var raws := Queries(g, s, idents, from, limit);
    match Collect(raws)
    case Failure(e) => Failure(e)
    case Success(qs) =>
      Success(seq(|qs|, j requires 0 <= j < |qs| => Merged(qs[j])))
  }

  /** The shared-connection query of every pair, in order. */
  function Queries(g: Granularity, s: Store, idents: seq<(string, string)>, from: Date, limit: nat): (raws: seq<Result<Raw>>)
    ensures |raws| == |idents|
    ensures (forall j :: 0 <= j < |raws| ==> raws[j].Success?) <==> !(limit == 0 && |idents| > 0)
    ensures forall j :: 0 <= j < |raws| ==> raws[j].Failure? ==> raws[j].error == HMGetArityError
    ensures forall j :: 0 <= j < |raws| ==> raws[j].Success? ==> Mergeable(raws[j].value)
  {
    var raws := seq(|idents|, j requires 0 <= j < |idents| => RawQuery(g, s, idents[j].0, idents[j].1, from, limit));
    assert limit == 0 && |idents| > 0 ==> raws[0].Failure?;
    raws
  }

  /** `get_metrics` gives, for each pair, exactly what the stand-alone query
      of the chosen granularity gives. */
  lemma GetMetricsIsStandAlone(s: Store, idents: seq<(string, string)>, from: Date, limit: nat, groupBy: string)
    requires GetMetrics(s, idents, from, limit, groupBy).Success?
    ensures var r := GetMetrics(s, idents, from, limit, groupBy).value;
      forall j :: 0 <= j < |idents| ==>
        GetMetricBy(ParseGroupBy(groupBy).value, s, idents[j].0, idents[j].1, from, limit) == Success(r[j])
  {
    var g := ParseGroupBy(groupBy).value;
    var raws := Queries(g, s, idents, from, limit);
    var qs := Collect(raws).value;
    var r := GetMetrics(s, idents, from, limit, groupBy).value;
    assert r == seq(|qs|, j requires 0 <= j < |qs| => Merged(qs[j]));
    forall j | 0 <= j < |idents|
      ensures GetMetricBy(g, s, idents[j].0, idents[j].1, from, limit) == Success(r[j])
    {
      assert raws[j] == RawQuery(g, s, idents[j].0, idents[j].1, from, limit);
      assert raws[j] == Success(qs[j]);
      RawThenMerge(g, s, idents[j].0, idents[j].1, from, limit);
    }
  }

  /** Tracking one event on an empty store creates exactly three keys: a daily
      hash with one field, a yearly hash with two (week and month) and the
      total, each holding the amount. */
  lemma FirstTrackLayout(id: string, metric: string, date: Date, amt: int)
    ensures var t := TrackMetric(Empty, id, metric, date, amt).0;
      && |t.hashes| == 2 && |t.scalars| == 1
      && |HashAt(t, DailyKey(id, date))| == 1
      && |HashAt(t, WeeklyKey(id, date))| == 2
      && FieldValue(t, DailyKey(id, date), DailyName(metric, date)) == amt
      && FieldValue(t, WeeklyKey(id, date), WeeklyName(metric, ClosestWeek(date))) == amt
      && FieldValue(t, WeeklyKey(id, date), MonthlyName(metric, date)) == amt
      && ScalarValue(t, AggregateKey(id, metric)) == amt
  {
    var t := TrackMetric(Empty, id, metric, date, amt).0;
    var k1, f1, k2, f2, f3, c := DailyKey(id, date), DailyName(metric, date),
      WeeklyKey(id, date), WeeklyName(metric, ClosestWeek(date)), MonthlyName(metric, date), AggregateKey(id, metric);
    DailyKeyNotWeeklyKey(id, date, id, date);
    WeeklyNameNotMonthlyName(metric, ClosestWeek(date), metric, date);
    assert HashAt(t, k1).Keys == {f1} by {
      assert TouchedFields(k1, id, metric, date) == {f1};
    }
    assert HashAt(t, k2).Keys == {f2, f3} by {
      assert TouchedFields(k2, id, metric, date) == {f2, f3};
    }
    LayoutSizes(t, k1, f1, k2, f2, f3, c);
  }

  /** Sizes of a store holding exactly two hashes, of one and two fields, and one scalar. */
  lemma LayoutSizes(t: Store, k1: string, f1: string, k2: string, f2: string, f3: string, c: string)
    requires k1 != k2 && f2 != f3
    requires t.hashes.Keys == {k1, k2} && t.scalars.Keys == {c}
    requires HashAt(t, k1).Keys == {f1} && HashAt(t, k2).Keys == {f2, f3}
    ensures |t.hashes| == 2 && |t.scalars| == 1
    ensures |HashAt(t, k1)| == 1 && |HashAt(t, k2)| == 2
  {
    assert |t.hashes| == |t.hashes.Keys|;
    assert |t.scalars| == |t.scalars.Keys|;
    assert |HashAt(t, k1)| == |HashAt(t, k1).Keys|;
    assert |HashAt(t, k2)| == |HashAt(t, k2).Keys|;
  }

  /** Lower-casing leaves no upper-case letter and no Kelvin sign. */
  lemma LowerIsLowerCase(s: string)
    ensures forall i :: 0 <= i < |s| ==> !('A' <= Lower(s)[i] <= 'Z') && Lower(s)[i] != '\U{212A}'
  {
  }

  /** Lower-casing is the identity on strings already in lower case, so it is idempotent. */
  lemma LowerFixesLowerCase(s: string)
    requires forall i :: 0 <= i < |s| ==> !('A' <= s[i] <= 'Z') && s[i] != '\U{212A}'
    ensures Lower(s) == s
  {
  }

  lemma LowerIdempotent(s: string)
    ensures Lower(Lower(s)) == Lower(s)
  {
    LowerIsLowerCase(s);
    LowerFixesLowerCase(Lower(s));
  }

  /** Lower-casing `group_by` before passing it in selects the same granularity. */
  lemma ParseGroupByCaseInsensitive(groupBy: string)
    ensures ParseGroupBy(Lower(groupBy)) == ParseGroupBy(groupBy)
  {
    LowerIdempotent(groupBy);
  }

  /** `group_by` is matched without regard to case. */
  lemma GroupByExamples()
    ensures ParseGroupBy("day") == Some(ByDay) && ParseGroupBy("DAY") == Some(ByDay)
    ensures ParseGroupBy("Week") == Some(ByWeek) && ParseGroupBy("wee\U{212A}") == Some(ByWeek)
    ensures ParseGroupBy("mOnTh") == Some(ByMonth)
    ensures ParseGroupBy("leapyear") == None && ParseGroupBy("days") == None && ParseGroupBy("") == None
  {
    assert Lower("DAY") == "day";
    assert Lower("Week") == "week";
    assert Lower("wee\U{212A}") == "week";
    assert Lower("mOnTh") == "month";
    assert |Lower("leapyear")| == 8 && |Lower("")| == 0;
    assert Lower("days") == "days";
  }

  /** An unknown `group_by` is refused whatever else is asked. */
  lemma GetMetricsRejectsLeapyear(s: Store, from: Date)
    ensures GetMetrics(s, [], from, 10, "leapyear") == Failure(GroupByError)
    ensures GetMetrics(s, [("1", "m")], from, 0, "leapyear") == Failure(GroupByError)
  {
    GroupByExamples();
  }
}
