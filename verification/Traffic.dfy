/** Traffic statistics: requests are merged one by one into five-minute rows, and the
    rows are aggregated into a heatmap. Times are seconds. */
module Traffic {

  const BUCKET_SECONDS: int := 300

  datatype Key = Key(bucketStart: int, routeSlug: string, tenantID: string, tokenID: string)

  datatype Row = Row(requests: int, errors: int, avgLatency: int, status2xx: int, status4xx: int, status5xx: int)

  datatype Stat = Stat(key: Key, row: Row)

  /** One proxied request, as recordTrafficStat sees it. */
  datatype Request = Request(time: int, routeSlug: string, tenantID: string, tokenID: string, status: int, latency: int)

  predicate Is2xx(status: int) { 200 <= status < 300 }
  predicate Is4xx(status: int) { 400 <= status < 500 }
  predicate Is5xx(status: int) { status >= 500 }

  function Bit(b: bool): int { if b then 1 else 0 }

  function KeyOf(r: Request): Key { Key(r.time - r.time % BUCKET_SECONDS, r.routeSlug, r.tenantID, r.tokenID) }

  function StatOf(r: Request): Stat {
    Stat(KeyOf(r), Row(1, Bit(Is4xx(r.status) || Is5xx(r.status)), r.latency,
                       Bit(Is2xx(r.status)), Bit(Is4xx(r.status)), Bit(Is5xx(r.status))))
  }

  /** SQL integer division truncates toward zero. */
  function TruncDiv(a: int, b: int): int
    requires b > 0
  {
    if a >= 0 then a / b else -((-a) / b)
  }

  /** ON CONFLICT DO UPDATE. */
  function Merge(row: Row, excluded: Row): Row
    requires row.requests + excluded.requests > 0
  {
    var n := row.requests + excluded.requests;
    Row(n, row.errors + excluded.errors,
        TruncDiv(row.avgLatency * row.requests + excluded.avgLatency * excluded.requests, n),
        row.status2xx + excluded.status2xx, row.status4xx + excluded.status4xx, row.status5xx + excluded.status5xx)
  }

  function Upsert(rows: map<Key, Row>, stat: Stat): map<Key, Row>
    requires stat.key in rows ==> rows[stat.key].requests + stat.row.requests > 0
  {
    rows[stat.key := if stat.key in rows then Merge(rows[stat.key], stat.row) else stat.row]
  }

  /** The table after the given requests, in the order their upserts land. */
  function Table(reqs: seq<Request>): (rows: map<Key, Row>)
    ensures forall k :: k in rows ==> rows[k].requests > 0
  {
    if reqs == [] then map[] else Upsert(Table(reqs[..|reqs| - 1]), StatOf(reqs[|reqs| - 1]))
  }

  // ---------------------------------------------------------------- conservation

  datatype Class = Any | Success | ClientError | ServerError

  predicate In(status: int, c: Class) {
    match c
    case Any => true
    case Success => 200 <= status < 300
    case ClientError => 400 <= status < 500
    case ServerError => 500 <= status
  }

  /** The row `k` is for this request: its five minutes contain the request's time, and the
      route, the tenant and the token are the request's. */
  predicate IsFor(k: Key, r: Request) {
    && k.bucketStart % 300 == 0 && k.bucketStart <= r.time < k.bucketStart + 300
    && k.routeSlug == r.routeSlug && k.tenantID == r.tenantID && k.tokenID == r.tokenID
  }

  lemma KeyOfIff(k: Key, r: Request)
    ensures KeyOf(r) == k <==> IsFor(k, r)
  {
    if IsFor(k, r) {
      var q := k.bucketStart / 300;
      assert r.time - 300 * q == r.time % 300;
    }
  }

  /** How many of the requests that a row is for are in a status class. */
  function Count(reqs: seq<Request>, k: Key, c: Class): nat {
    if reqs == [] then 0
    else
      var r := reqs[|reqs| - 1];
      Count(reqs[..|reqs| - 1], k, c) + Bit(IsFor(k, r) && In(r.status, c))
  }

  /** Whatever the landing order, each row counts exactly the requests it is for, split by
      status class; errors are the 4xx and 5xx ones, and no class overlaps another. */
  lemma {:induction false} CountsConserved(reqs: seq<Request>, k: Key)
    ensures k in Table(reqs) <==> Count(reqs, k, Any) > 0
    ensures Count(reqs, k, Success) + Count(reqs, k, ClientError) + Count(reqs, k, ServerError) <= Count(reqs, k, Any)
    ensures k in Table(reqs) ==>
              var row := Table(reqs)[k];
              && row.requests == Count(reqs, k, Any)
              && row.status2xx == Count(reqs, k, Success)
              && row.status4xx == Count(reqs, k, ClientError)
              && row.status5xx == Count(reqs, k, ServerError)
              && row.errors == row.status4xx + row.status5xx
              && row.status2xx + row.errors <= row.requests
  {
    if reqs != [] {
      CountsConserved(reqs[..|reqs| - 1], k);
      KeyOfIff(k, reqs[|reqs| - 1]);
    }
  }

  // ---------------------------------------------------------------- the running average

  /** The latencies that went into one row, in landing order. */
  function Latencies(reqs: seq<Request>, k: Key): seq<int> {
    if reqs == [] then []
    else
      var r := reqs[|reqs| - 1];
      Latencies(reqs[..|reqs| - 1], k) + if IsFor(k, r) then [r.latency] else []
  }

  /** The average the row holds after merging these latencies one at a time. */
  function Average(ls: seq<int>): int
    requires ls != []
  {
    var n := |ls| - 1;
    if n == 0 then ls[0] else TruncDiv(Average(ls[..n]) * n + ls[n], n + 1)
  }

  function Sum(ls: seq<int>): int { if ls == [] then 0 else Sum(ls[..|ls| - 1]) + ls[|ls| - 1] }

  lemma {:induction false} LatenciesCounted(reqs: seq<Request>, k: Key)
    ensures |Latencies(reqs, k)| == Count(reqs, k, Any)
  {
    if reqs != [] {
      LatenciesCounted(reqs[..|reqs| - 1], k);
    }
  }

  /** Merging one more request of a key is one more step of its running average. */
  lemma MergeOne(row: Row, r: Request, ls: seq<int>)
    requires ls != [] && row.requests == |ls| && row.avgLatency == Average(ls)
    ensures Merge(row, StatOf(r).row).avgLatency == Average(ls + [r.latency])
  {
    assert (ls + [r.latency])[..|ls|] == ls;
  }

  lemma {:induction false} RowHoldsAverage(reqs: seq<Request>, k: Key)
    requires k in Table(reqs)
    ensures Latencies(reqs, k) != [] && Table(reqs)[k].avgLatency == Average(Latencies(reqs, k))
  {
    var (n, before) := (|reqs| - 1, Latencies(reqs[..|reqs| - 1], k));
    KeyOfIff(k, reqs[n]);
    if IsFor(k, reqs[n]) {
      LatenciesCounted(reqs[..n], k);
      CountsConserved(reqs[..n], k);
      if before == [] {
        assert before + [reqs[n].latency] == [reqs[n].latency];
      } else {
        RowHoldsAverage(reqs[..n], k);
        MergeOne(Table(reqs[..n])[k], reqs[n], before);
      }
    } else {
      assert before + [] == before;
      RowHoldsAverage(reqs[..n], k);
    }
  }

  /** One merge loses less than one unit per request already counted. */
  lemma DivisionLoss(a: int, n: int)
    requires a >= 0 && n > 0
    ensures n * TruncDiv(a, n) <= a <= n * TruncDiv(a, n) + n - 1
  {
  }

  lemma DivisionBetween(a: int, n: int, lo: int, hi: int)
    requires a >= 0 && n > 0 && n * lo <= a <= n * hi
    ensures lo <= TruncDiv(a, n) <= hi
  {
    var q := a / n;
    if q < lo {
      Scale(n, q + 1, lo);
      assert false;
    }
    if q > hi {
      Scale(n, hi + 1, q);
      assert false;
    }
  }

  lemma Scale(n: int, x: int, y: int)
    requires n > 0 && x <= y
    ensures n * x <= n * y
  {
  }

  /** `average` is at most `sum / n` and falls short of it by at most `(n - 1) / 2`. */
  predicate Near(n: int, average: int, sum: int) {
    n * average <= sum && 2 * sum <= 2 * (n * average) + n * (n - 1)
  }

  /** For every landing order, n merges of non-negative latencies with sum S leave an
      average between their least and greatest, never above S/n, and below it by at
      most (n - 1)/2. */
  lemma {:induction false} AverageBounds(ls: seq<int>, lo: int, hi: int)
    requires ls != [] && 0 <= lo && forall i :: 0 <= i < |ls| ==> lo <= ls[i] <= hi
    ensures lo <= Average(ls) <= hi
    ensures Near(|ls|, Average(ls), Sum(ls))
  {
    var n := |ls| - 1;
    assert Sum(ls[..0]) == 0;
    if n > 0 {
      AverageBounds(ls[..n], lo, hi);
      var a := Average(ls[..n]);
      MergeBounds(n, a, ls[n], lo, hi);
      Accumulate(n, a, Average(ls), Sum(ls[..n]), ls[n]);
    }
  }

  lemma MergeBounds(n: int, a: int, l: int, lo: int, hi: int)
    requires n > 0 && 0 <= lo <= a <= hi && lo <= l <= hi
    ensures a * n + l >= 0
    ensures var q := TruncDiv(a * n + l, n + 1);
            lo <= q <= hi && (n + 1) * q <= a * n + l <= (n + 1) * q + n
  {
    assert n * lo <= a * n <= n * hi;
    assert 0 <= n * lo;
    assert (n + 1) * lo == n * lo + lo && (n + 1) * hi == n * hi + hi;
    DivisionBetween(a * n + l, n + 1, lo, hi);
    DivisionLoss(a * n + l, n + 1);
  }

  lemma Accumulate(n: int, a: int, q: int, sum: int, l: int)
    requires n > 0 && (n + 1) * q <= a * n + l <= (n + 1) * q + n
    requires Near(n, a, sum)
    ensures Near(n + 1, q, sum + l)
  {
    assert (n + 1) * n == n * (n - 1) + 2 * n;
  }

  lemma {:induction false} LatenciesAreOfKey(reqs: seq<Request>, k: Key, lo: int, hi: int)
    requires forall r :: r in reqs && IsFor(k, r) ==> lo <= r.latency <= hi
    ensures forall i :: 0 <= i < |Latencies(reqs, k)| ==> lo <= Latencies(reqs, k)[i] <= hi
  {
    if reqs != [] {
      LatenciesAreOfKey(reqs[..|reqs| - 1], k, lo, hi);
      assert reqs[|reqs| - 1] in reqs;
    }
  }

  /** The bounds for a row of the table, whatever other keys' upserts land in between. */
  lemma RowAverageBounds(reqs: seq<Request>, k: Key, lo: int, hi: int)
    requires k in Table(reqs) && 0 <= lo && forall r :: r in reqs && IsFor(k, r) ==> lo <= r.latency <= hi
    ensures var (row, sum) := (Table(reqs)[k], Sum(Latencies(reqs, k)));
            lo <= row.avgLatency <= hi && Near(row.requests, row.avgLatency, sum)
  {
    CountsConserved(reqs, k);
    LatenciesCounted(reqs, k);
    RowHoldsAverage(reqs, k);
    LatenciesAreOfKey(reqs, k, lo, hi);
    AverageBounds(Latencies(reqs, k), lo, hi);
  }

  function UpTo(n: nat): (ls: seq<int>)
    ensures |ls| == n && forall i :: 0 <= i < n ==> ls[i] == i
  {
    seq(n, i => i)
  }

  /** The error bound is attained for every n: latencies 0, 1, .., n-1 landing in that
      order leave the average at zero, though their true mean is (n - 1)/2. */
  lemma {:induction false} BoundIsTight(n: nat)
    requires n > 0
    ensures Average(UpTo(n)) == 0 && 2 * Sum(UpTo(n)) == n * (n - 1)
  {
    assert UpTo(n)[..n - 1] == UpTo(n - 1);
    if n == 1 {
      assert Sum(UpTo(0)) == 0;
    } else {
      BoundIsTight(n - 1);
      NothingLeft(n - 1, Average(UpTo(n - 1)), n);
      Triangle(n);
    }
  }

  lemma NothingLeft(a: int, zero: int, n: int)
    requires 0 <= a < n && zero == 0
    ensures TruncDiv(zero * a + a, n) == 0
  {
    DivisionLoss(a, n);
    DivisionBetween(a, n, 0, 0 + 1);
    assert n * 1 > a;
  }

  lemma Triangle(n: int)
    ensures n * (n - 1) == (n - 1) * (n - 2) + 2 * (n - 1)
  {
  }

  // ---------------------------------------------------------------- heatmap

  datatype Cell = Cell(routeSlug: string, hour: int)

  datatype HeatmapCell = HeatmapCell(cell: Cell, requests: int)

  function HourOf(time: int): int { time / 3600 % 24 }

  function CellOf(s: Stat): Cell { Cell(s.key.routeSlug, HourOf(s.key.bucketStart)) }

  /** The hour of a time of day, on any day. */
  lemma HourIff(time: int, h: int)
    ensures HourOf(time) == h <==> 0 <= h < 24 && (time - 3600 * h) % 86400 < 3600
  {
    var hours := time / 3600;
    var (day, rest) := (hours / 24, time % 3600);
    assert time == 86400 * day + 3600 * (hours % 24) + rest;
    if 0 <= h < 24 {
      var offset := 3600 * (hours % 24 - h) + rest;
      assert time - 3600 * h == 86400 * day + offset;
      if offset >= 0 {
        DayOffset(day, offset);
      } else {
        DayOffset(day - 1, offset + 86400);
      }
    }
  }

  lemma DayOffset(day: int, offset: int)
    requires 0 <= offset < 86400
    ensures (86400 * day + offset) % 86400 == offset
  {
  }

  /** The requests of the stats that fall into one of the given cells. */
  function RequestsIn(stats: seq<Stat>, cells: set<Cell>): int {
    if stats == [] then 0
    else
      var s := stats[|stats| - 1];
      RequestsIn(stats[..|stats| - 1], cells) + if CellOf(s) in cells then s.row.requests else 0
  }

  function Total(stats: seq<Stat>): int {
    if stats == [] then 0 else Total(stats[..|stats| - 1]) + stats[|stats| - 1].row.requests
  }

  function CellTotal(cells: seq<HeatmapCell>): int {
    if cells == [] then 0 else CellTotal(cells[..|cells| - 1]) + cells[|cells| - 1].requests
  }

  lemma {:induction false} RequestsInDisjoint(stats: seq<Stat>, a: set<Cell>, b: set<Cell>)
    requires a !! b
    ensures RequestsIn(stats, a + b) == RequestsIn(stats, a) + RequestsIn(stats, b)
  {
    if stats != [] {
      RequestsInDisjoint(stats[..|stats| - 1], a, b);
    }
  }

  lemma {:induction false} RequestsInNone(stats: seq<Stat>)
    ensures RequestsIn(stats, {}) == 0
  {
    if stats != [] {
      RequestsInNone(stats[..|stats| - 1]);
    }
  }

  lemma {:induction false} RequestsInAll(stats: seq<Stat>, cells: set<Cell>)
    requires forall i :: 0 <= i < |stats| ==> CellOf(stats[i]) in cells
    ensures RequestsIn(stats, cells) == Total(stats)
  {
    if stats != [] {
      RequestsInAll(stats[..|stats| - 1], cells);
    }
  }

  ghost predicate Distinct(cells: seq<HeatmapCell>) {
    forall i, j :: 0 <= i < j < |cells| ==> cells[i].cell != cells[j].cell
  }

  ghost predicate Shown(cells: seq<HeatmapCell>, c: Cell) { exists i :: 0 <= i < |cells| && cells[i].cell == c }

  /** Every request of the input is in exactly one cell: cells are distinct, each holds
      the requests of its route and hour, and together they hold the whole total. */
  method TrafficHeatmap(stats: seq<Stat>) returns (cells: seq<HeatmapCell>)
    ensures CellTotal(cells) == Total(stats)
    ensures forall i :: 0 <= i < |cells| ==> cells[i].requests == RequestsIn(stats, {cells[i].cell})
    ensures Distinct(cells) && forall s :: s in stats ==> Shown(cells, CellOf(s))
  {
    var counts: map<Cell, int> := map[];
    for n := 0 to |stats|
      invariant forall c :: c in counts ==> counts[c] == RequestsIn(stats[..n], {c})
      invariant forall c :: c !in counts ==> RequestsIn(stats[..n], {c}) == 0
      invariant forall i :: 0 <= i < n ==> CellOf(stats[i]) in counts
    {
      assert stats[..n + 1][..n] == stats[..n];
      var c := CellOf(stats[n]);
      counts := counts[c := (if c in counts then counts[c] else 0) + stats[n].row.requests];
    }
    assert stats[..|stats|] == stats;
    RequestsInAll(stats, counts.Keys);
    cells := CellList(stats, counts);
  }

  lemma AppendCell(cells: seq<HeatmapCell>, x: HeatmapCell)
    ensures CellTotal(cells + [x]) == CellTotal(cells) + x.requests
    ensures Distinct(cells) && !Shown(cells, x.cell) ==> Distinct(cells + [x])
    ensures forall c :: Shown(cells + [x], c) <==> Shown(cells, c) || c == x.cell
  {
    assert (cells + [x])[..|cells|] == cells;
    assert (cells + [x])[|cells|] == x;
    forall c | Shown(cells, c) ensures Shown(cells + [x], c) {
      var i :| 0 <= i < |cells| && cells[i].cell == c;
      assert (cells + [x])[i].cell == c;
    }
  }

  /** One output cell for each entry of the map. */
  method CellList(ghost stats: seq<Stat>, counts: map<Cell, int>) returns (cells: seq<HeatmapCell>)
    requires forall c :: c in counts ==> counts[c] == RequestsIn(stats, {c})
    ensures CellTotal(cells) == RequestsIn(stats, counts.Keys) && Distinct(cells)
    ensures forall i :: 0 <= i < |cells| ==> cells[i].cell in counts && cells[i].requests == counts[cells[i].cell]
    ensures forall c :: c in counts ==> Shown(cells, c)
  {
    cells := [];
    var rest := counts.Keys;
    ghost var done: set<Cell> := {};
    RequestsInNone(stats);
    while rest != {}
      invariant rest !! done && rest + done == counts.Keys
      invariant CellTotal(cells) == RequestsIn(stats, done) && Distinct(cells)
      invariant forall i :: 0 <= i < |cells| ==> cells[i].cell in done && cells[i].requests == counts[cells[i].cell]
      invariant forall c :: c in done ==> Shown(cells, c)
      decreases rest
    {
      var c :| c in rest;
      RequestsInDisjoint(stats, done, {c});
      AppendCell(cells, HeatmapCell(c, counts[c]));
      cells := cells + [HeatmapCell(c, counts[c])];
      rest, done := rest - {c}, done + {c};
    }
    assert done == counts.Keys;
  }

  // ---------------------------------------------------------------- the store

  class TrafficStore {
    var rows: map<Key, Row>

    constructor ()
      ensures rows == map[]
    {
      rows := map[];
    }

    method UpsertTrafficStat(stat: Stat)
      requires stat.key in rows ==> rows[stat.key].requests + stat.row.requests > 0
      modifies this
      ensures rows == Upsert(old(rows), stat)
      ensures stat.key in rows && rows - {stat.key} == old(rows) - {stat.key}
      ensures stat.key !in old(rows) ==> rows[stat.key] == stat.row
      ensures stat.key in old(rows) ==>
                var (a, b, c) := (old(rows)[stat.key], stat.row, rows[stat.key]);
                && c.requests == a.requests + b.requests && c.errors == a.errors + b.errors
                && c.status2xx == a.status2xx + b.status2xx && c.status4xx == a.status4xx + b.status4xx
                && c.status5xx == a.status5xx + b.status5xx
                && c.avgLatency == TruncDiv(a.avgLatency * a.requests + b.avgLatency * b.requests, c.requests)
    {
      if stat.key in rows {
        var (row, excluded) := (rows[stat.key], stat.row);
        var n := row.requests + excluded.requests;
        rows := rows[stat.key := Row(
          n, row.errors + excluded.errors,
          TruncDiv(row.avgLatency * row.requests + excluded.avgLatency * excluded.requests, n),
          row.status2xx + excluded.status2xx, row.status4xx + excluded.status4xx, row.status5xx + excluded.status5xx)];
      } else {
        rows := rows[stat.key := stat.row];
      }
    }

    /** `landed` is the history of requests the table already holds. */
    method RecordTrafficStat(r: Request, ghost landed: seq<Request>)
      requires rows == Table(landed)
      modifies this
      ensures rows == Table(landed + [r])
    {
      var (status2xx, status4xx, status5xx, errors) := (0, 0, 0, 0);
      if r.status >= 200 && r.status < 300 {
        status2xx := 1;
      } else if r.status >= 400 && r.status < 500 {
        status4xx, errors := 1, 1;
      } else if r.status >= 500 {
        status5xx, errors := 1, 1;
      }
      UpsertTrafficStat(Stat(KeyOf(r), Row(1, errors, r.latency, status2xx, status4xx, status5xx)));
      assert (landed + [r])[..|landed|] == landed;
    }

    /** Purging drops exactly the old rows and leaves every other row as it was. */
    method PurgeTrafficStats(olderThan: int) returns (purged: int)
      modifies this
      ensures rows == map k | k in old(rows) && k.bucketStart >= olderThan :: old(rows)[k]
      ensures purged == |old(rows)| - |rows|
    {
      var kept := map k | k in rows && k.bucketStart >= olderThan :: rows[k];
      purged := |rows| - |kept|;
      rows := kept;
    }
  }
}
