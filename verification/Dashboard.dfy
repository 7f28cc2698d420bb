/** The dashboard's time series: stats merged into 288 five-minute slots. Times are
    milliseconds. */
module Dashboard {

  const BUCKET_MS: int := 300_000
  const SLOTS: int := 288

  datatype Stat = Stat(bucket: int, requestCount: int, errorCount: int, avgLatencyMs: int)

  datatype Entry = Entry(requests: int, errors: int, latencySum: int, latencyCount: int)

  datatype DataPoint = DataPoint(time: int, requests: int, errors: int, avgLatency: int)

  datatype Field = Requests | Errors | Latency

  function Value(s: Stat, f: Field): int {
    match f
    case Requests => s.requestCount
    case Errors => s.errorCount
    case Latency => s.avgLatencyMs * s.requestCount
  }

  /** The sum of a field over the stats whose bucket is in a set. */
  function Sum(stats: seq<Stat>, buckets: set<int>, f: Field): int {
    if stats == [] then 0
    else
      var s := stats[|stats| - 1];
      Sum(stats[..|stats| - 1], buckets, f) + if s.bucket in buckets then Value(s, f) else 0
  }

  function Align(now: int): int { now / BUCKET_MS * BUCKET_MS }

  /** The time of slot `j`, oldest first; the last slot is the current bucket. */
  function SlotTime(now: int, j: int): int { Align(now) - (SLOTS - 1 - j) * BUCKET_MS }

  /** The times of the first `n` slots. */
  function SlotTimes(now: int, n: nat): set<int> { set j | 0 <= j < n :: SlotTime(now, j) }

  /** Math.round of a quotient: to the nearest integer, halves up. */
  function Round(sum: int, count: int): int
    requires count > 0
  {
    (2 * sum + count) / (2 * count)
  }

  function Mean(sum: int, count: int): int { if count > 0 then Round(sum, count) else 0 }

  lemma RoundIsNearest(sum: int, count: int)
    requires count > 0
    ensures var r := Round(sum, count); -count <= 2 * (sum - r * count) < count
  {
    var (a, b) := (2 * sum + count, 2 * count);
    assert b * (a / b) <= a < b * (a / b) + b;
  }

  /** The point of slot `j`. */
  function Point(stats: seq<Stat>, now: int, j: int): DataPoint {
    var t := SlotTime(now, j);
    DataPoint(t, Sum(stats, {t}, Requests), Sum(stats, {t}, Errors),
              Mean(Sum(stats, {t}, Latency), Sum(stats, {t}, Requests)))
  }

  /** The points of the first `n` slots. */
  function Series(stats: seq<Stat>, now: int, n: nat): (points: seq<DataPoint>)
    ensures |points| == n && forall j :: 0 <= j < n ==> points[j] == Point(stats, now, j)
  {
    if n == 0 then [] else Series(stats, now, n - 1) + [Point(stats, now, n - 1)]
  }

  /** A bucket of the last 24 hours that is a whole number of five-minute steps. */
  predicate InWindow(now: int, bucket: int) {
    bucket % BUCKET_MS == 0 && SlotTime(now, 0) <= bucket <= Align(now)
  }

  /** The window is the last twenty-four hours. */
  lemma InWindowIff(now: int, bucket: int)
    ensures InWindow(now, bucket) <==> bucket % 300_000 == 0 && now - 86_400_000 < bucket <= now
  {
    if bucket % 300_000 == 0 {
      var (q, a) := (bucket / 300_000, now / 300_000);
      assert bucket == 300_000 * q && 300_000 * a <= now < 300_000 * a + 300_000;
    }
  }

  lemma WindowIsSlots(now: int, bucket: int)
    ensures InWindow(now, bucket) <==> bucket in SlotTimes(now, SLOTS)
  {
    if InWindow(now, bucket) {
      var j := SLOTS - 1 - (Align(now) - bucket) / BUCKET_MS;
      assert bucket == SlotTime(now, j);
    }
  }

  /** The sum of a field over the stats in the window. */
  function WindowSum(stats: seq<Stat>, now: int, f: Field): int {
    if stats == [] then 0
    else
      var s := stats[|stats| - 1];
      WindowSum(stats[..|stats| - 1], now, f) + if InWindow(now, s.bucket) then Value(s, f) else 0
  }

  function TotalRequests(points: seq<DataPoint>): int {
    if points == [] then 0 else TotalRequests(points[..|points| - 1]) + points[|points| - 1].requests
  }

  function TotalErrors(points: seq<DataPoint>): int {
    if points == [] then 0 else TotalErrors(points[..|points| - 1]) + points[|points| - 1].errors
  }

  lemma {:induction false} SumSplit(stats: seq<Stat>, a: set<int>, b: set<int>, f: Field)
    requires a !! b
    ensures Sum(stats, a + b, f) == Sum(stats, a, f) + Sum(stats, b, f)
  {
    if stats != [] {
      SumSplit(stats[..|stats| - 1], a, b, f);
    }
  }

  lemma {:induction false} SumNone(stats: seq<Stat>, f: Field)
    ensures Sum(stats, {}, f) == 0
  {
    if stats != [] {
      SumNone(stats[..|stats| - 1], f);
    }
  }

  lemma {:induction false} SumOfWindow(stats: seq<Stat>, now: int, f: Field)
    ensures Sum(stats, SlotTimes(now, SLOTS), f) == WindowSum(stats, now, f)
  {
    if stats != [] {
      SumOfWindow(stats[..|stats| - 1], now, f);
      WindowIsSlots(now, stats[|stats| - 1].bucket);
    }
  }

  /** A slot time not seen before. */
  lemma NextSlotIsNew(now: int, n: nat)
    ensures SlotTime(now, n) !in SlotTimes(now, n)
    ensures SlotTimes(now, n + 1) == SlotTimes(now, n) + {SlotTime(now, n)}
  {
  }

  /** One more slot adds the sum of its bucket. */
  lemma SumNextSlot(stats: seq<Stat>, now: int, n: nat, f: Field)
    ensures Sum(stats, SlotTimes(now, n + 1), f) == Sum(stats, SlotTimes(now, n), f) + Sum(stats, {SlotTime(now, n)}, f)
  {
    NextSlotIsNew(now, n);
    SumSplit(stats, SlotTimes(now, n), {SlotTime(now, n)}, f);
  }

  lemma {:induction false} SlotsConserve(stats: seq<Stat>, now: int, points: seq<DataPoint>)
    requires forall j {:trigger points[j]} :: 0 <= j < |points| ==> Shows(stats, now, j, points[j])
    ensures TotalRequests(points) == Sum(stats, SlotTimes(now, |points|), Requests)
    ensures TotalErrors(points) == Sum(stats, SlotTimes(now, |points|), Errors)
  {
    var n := |points| - 1;
    if n < 0 {
      SumNone(stats, Requests);
      SumNone(stats, Errors);
      assert SlotTimes(now, 0) == {};
    } else {
      SlotsConserve(stats, now, points[..n]);
      SumNextSlot(stats, now, n, Requests);
      SumNextSlot(stats, now, n, Errors);
      assert Shows(stats, now, n, points[n]);
    }
  }

  /** A point that shows the requests and errors of slot `j`. */
  predicate Shows(stats: seq<Stat>, now: int, j: int, p: DataPoint) {
    p.requests == Sum(stats, {SlotTime(now, j)}, Requests) && p.errors == Sum(stats, {SlotTime(now, j)}, Errors)
  }

  lemma PointShows(stats: seq<Stat>, now: int, j: int)
    ensures Shows(stats, now, j, Point(stats, now, j))
  {
  }

  /** The 288 points together show all and only the requests and errors of the stats in
      the window, each counted once. */
  lemma SeriesConserves(stats: seq<Stat>, now: int)
    ensures TotalRequests(Series(stats, now, SLOTS)) == WindowSum(stats, now, Requests)
    ensures TotalErrors(Series(stats, now, SLOTS)) == WindowSum(stats, now, Errors)
  {
    var points := Series(stats, now, SLOTS);
    forall j {:trigger points[j]} | 0 <= j < SLOTS ensures Shows(stats, now, j, points[j]) {
      PointShows(stats, now, j);
    }
    SlotsConserve(stats, now, points);
    SumOfWindow(stats, now, Requests);
    SumOfWindow(stats, now, Errors);
  }

  // ---------------------------------------------------------------- what a point shows

  function Repeat(x: int, n: nat): (xs: seq<int>)
    ensures |xs| == n && forall i :: 0 <= i < n ==> xs[i] == x
  {
    seq(n, i => x)
  }

  ghost predicate Counts(stats: seq<Stat>) { forall i :: 0 <= i < |stats| ==> stats[i].requestCount >= 0 }

  /** One latency for each request of a bucket: the average of its row. */
  ghost function Spread(stats: seq<Stat>, t: int): seq<int>
    requires Counts(stats)
  {
    if stats == [] then []
    else
      var s := stats[|stats| - 1];
      Spread(stats[..|stats| - 1], t) + if s.bucket == t then Repeat(s.avgLatencyMs, s.requestCount) else []
  }

  function Plus(xs: seq<int>): int { if xs == [] then 0 else Plus(xs[..|xs| - 1]) + xs[|xs| - 1] }

  /** The errors of the rows of a bucket. */
  function ErrorsAt(stats: seq<Stat>, t: int): int {
    if stats == [] then 0
    else
      var s := stats[|stats| - 1];
      ErrorsAt(stats[..|stats| - 1], t) + if s.bucket == t then s.errorCount else 0
  }

  lemma {:induction false} PlusRepeat(xs: seq<int>, x: int, n: nat)
    ensures Plus(xs + Repeat(x, n)) == Plus(xs) + x * n
  {
    if n == 0 {
      assert xs + Repeat(x, n) == xs;
    } else {
      var all := xs + Repeat(x, n);
      assert all[..|all| - 1] == xs + Repeat(x, n - 1);
      PlusRepeat(xs, x, n - 1);
      assert x * n == x * (n - 1) + x;
    }
  }

  lemma {:induction false} SumsAre(stats: seq<Stat>, t: int)
    requires Counts(stats)
    ensures Sum(stats, {t}, Requests) == |Spread(stats, t)| && Sum(stats, {t}, Latency) == Plus(Spread(stats, t))
    ensures Sum(stats, {t}, Errors) == ErrorsAt(stats, t)
  {
    if stats != [] {
      var (rest, s) := (stats[..|stats| - 1], stats[|stats| - 1]);
      SumsAre(rest, t);
      PlusRepeat(Spread(rest, t), s.avgLatencyMs, s.requestCount);
      assert Spread(rest, t) + [] == Spread(rest, t);
    }
  }

  /** Slot `j` is the five minutes that many steps before the current ones. Its point shows
      the requests and errors of that time, and as latency the mean over its requests, each
      counted with its row's average, to the nearest integer with halves up. */
  lemma PointMeans(stats: seq<Stat>, now: int, j: nat)
    requires Counts(stats) && j < 288
    ensures var p := Point(stats, now, j);
            var ls := Spread(stats, p.time);
            && p.time % 300_000 == 0 && p.time <= now - (287 - j) * 300_000 < p.time + 300_000
            && p.requests == |ls| && p.errors == ErrorsAt(stats, p.time)
            && (ls == [] ==> p.avgLatency == 0)
            && (ls != [] ==> -|ls| <= 2 * (Plus(ls) - p.avgLatency * |ls|) < |ls|)
  {
    var t := SlotTime(now, j);
    SumsAre(stats, t);
    SlotTimeIs(now, j);
    if Spread(stats, t) != [] {
      RoundIsNearest(Plus(Spread(stats, t)), |Spread(stats, t)|);
    }
  }

  lemma SlotTimeIs(now: int, j: nat)
    requires j < 288
    ensures var t := SlotTime(now, j); t % 300_000 == 0 && t <= now - (287 - j) * 300_000 < t + 300_000
  {
    var a := now / 300_000;
    assert SlotTime(now, j) == (a - (287 - j)) * 300_000;
  }

  // ---------------------------------------------------------------- the merge

  /** An entry that holds the sums of one bucket; no entry stands for zero sums. */
  predicate Holds(dataMap: map<int, Entry>, stats: seq<Stat>, t: int) {
    if t in dataMap then
      dataMap[t].requests == dataMap[t].latencyCount == Sum(stats, {t}, Requests)
      && dataMap[t].errors == Sum(stats, {t}, Errors) && dataMap[t].latencySum == Sum(stats, {t}, Latency)
    else Sum(stats, {t}, Requests) == Sum(stats, {t}, Errors) == Sum(stats, {t}, Latency) == 0
  }

  /** The merge of the stats by bucket. */
  method MergeStats(stats: seq<Stat>) returns (dataMap: map<int, Entry>)
    ensures forall t :: Holds(dataMap, stats, t)
  {
    dataMap := map[];
    for n := 0 to |stats|
      invariant forall t :: Holds(dataMap, stats[..n], t)
    {
      assert stats[..n + 1][..n] == stats[..n];
      var s := stats[n];
      ghost var before := dataMap;
      assert Holds(before, stats[..n], s.bucket);
      var latency := s.avgLatencyMs * s.requestCount;
      if s.bucket in dataMap {
        var existing := dataMap[s.bucket];
        dataMap := dataMap[s.bucket := Entry(
          existing.requests + s.requestCount, existing.errors + s.errorCount,
          existing.latencySum + latency, existing.latencyCount + s.requestCount)];
      } else {
        dataMap := dataMap[s.bucket := Entry(s.requestCount, s.errorCount, latency, s.requestCount)];
      }
      forall t: int {:trigger Holds(dataMap, stats[..n + 1], t)} ensures Holds(dataMap, stats[..n + 1], t) {
        assert Holds(before, stats[..n], t);
      }
    }
    assert stats[..|stats|] == stats;
  }

  method BuildTimeSeries(stats: seq<Stat>, now: int) returns (result: seq<DataPoint>)
    ensures result == Series(stats, now, SLOTS)
    ensures TotalRequests(result) == WindowSum(stats, now, Requests)
    ensures TotalErrors(result) == WindowSum(stats, now, Errors)
  {
    var alignedNow := Align(now);
    var dataMap := MergeStats(stats);
    result := [];
    var i := SLOTS - 1;
    while i >= 0
      invariant -1 <= i < SLOTS
      invariant result == Series(stats, now, SLOTS - 1 - i)
    {
      var slotTime := alignedNow - i * BUCKET_MS;
      assert Holds(dataMap, stats, slotTime);
      if slotTime in dataMap {
        var d := dataMap[slotTime];
        result := result + [DataPoint(slotTime, d.requests, d.errors, Mean(d.latencySum, d.latencyCount))];
      } else {
        result := result + [DataPoint(slotTime, 0, 0, 0)];
      }
      i := i - 1;
    }
    SeriesConserves(stats, now);
  }
}
