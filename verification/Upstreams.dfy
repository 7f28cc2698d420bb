/** The weighted choice of an upstream from a route's load-balancing pool. */
module Upstreams {

  datatype Upstream = Upstream(id: string, routeID: string, url: string, weight: int, isPrimary: bool)

  datatype Health = Health(routeID: string, url: string, status: string)

  datatype Share = Share(url: string, weight: int)

  const DOWN: string := "down"

  // ---------------------------------------------------------------- the table of upstreams

  /** The one fact about stored weights that the choice relies on. */
  ghost predicate PositiveWeights(ups: seq<Upstream>) {
    forall u :: u in ups ==> u.weight > 0
  }

  class UpstreamTable {
    var rows: seq<Upstream>

    ghost predicate Valid()
      reads this
    {
      PositiveWeights(rows)
    }

    constructor ()
      ensures Valid() && rows == []
    {
      rows := [];
    }

    /** Whatever weight a caller asks for, a positive one is stored. */
    method Create(id: string, routeID: string, url: string, weight: int, isPrimary: bool) returns (ok: bool)
      requires Valid()
      modifies this
      ensures Valid()
      ensures ok <==> url != "" && forall u :: u in old(rows) ==> u.id != id
      ensures rows == if ok then old(rows) + [Upstream(id, routeID, url, if weight > 0 then weight else 1, isPrimary)]
                      else old(rows)
    {
      var stored := weight;
      if stored <= 0 {
        stored := 1;
      }
      if url == "" || exists u :: u in rows && u.id == id {
        return false;
      }
      rows := rows + [Upstream(id, routeID, url, stored, isPrimary)];
      return true;
    }

    method Update(id: string, url: string, weight: int, isPrimary: bool) returns (ok: bool)
      requires Valid()
      modifies this
      ensures Valid() && |rows| == |old(rows)|
      ensures ok <==> url != "" && exists u :: u in old(rows) && u.id == id
      ensures forall i :: 0 <= i < |rows| ==>
                rows[i] == if ok && old(rows)[i].id == id
                           then old(rows)[i].(
                             url := url, weight := if weight > 0 then weight else 1, isPrimary := isPrimary)
                           else old(rows)[i]
    {
      var stored := weight;
      if stored <= 0 {
        stored := 1;
      }
      if url == "" || !exists u :: u in rows && u.id == id {
        return false;
      }
      rows := seq(|rows|, i requires 0 <= i < |rows| reads this =>
        if rows[i].id == id then rows[i].(url := url, weight := stored, isPrimary := isPrimary) else rows[i]);
      return true;
    }
  }

  // ---------------------------------------------------------------- building the pool

  /** The last status recorded for one upstream of a route; none is the empty string. */
  function StatusOf(records: seq<Health>, routeID: string, url: string): string
    decreases |records|
  {
    if records == [] then ""
    else
      var (rest, h) := (records[..|records| - 1], records[|records| - 1]);
      if h.routeID == routeID && h.url == url then h.status else StatusOf(rest, routeID, url)
  }

  predicate Down(records: seq<Health>, routeID: string, url: string) {
    StatusOf(records, routeID, url) == DOWN
  }

  /** The status of an upstream is that of the latest record of its route and URL. */
  lemma {:induction false} StatusIff(records: seq<Health>, routeID: string, url: string, status: string)
    requires status != ""
    ensures StatusOf(records, routeID, url) == status
            <==> exists i :: 0 <= i < |records| && records[i] == Health(routeID, url, status)
                             && forall j :: i < j < |records| ==> records[j].routeID != routeID || records[j].url != url
    decreases |records|
  {
    if records != [] {
      var (rest, n) := (records[..|records| - 1], |records| - 1);
      StatusIff(rest, routeID, url, status);
      if i :| 0 <= i < |rest| && rest[i] == Health(routeID, url, status)
              && forall j :: i < j < |rest| ==> rest[j].routeID != routeID || rest[j].url != url {
        assert records[i] == rest[i];
        assert forall j :: i < j < n ==> records[j] == rest[j];
      }
    }
  }

  /** It is down exactly when that record says "down". */
  lemma DownIff(records: seq<Health>, routeID: string, url: string)
    ensures Down(records, routeID, url)
            <==> exists i :: 0 <= i < |records| && records[i] == Health(routeID, url, "down")
                             && forall j :: i < j < |records| ==> records[j].routeID != routeID || records[j].url != url
  {
    StatusIff(records, routeID, url, "down");
  }

  method HealthStatus(records: seq<Health>, routeID: string) returns (status: map<string, string>)
    ensures forall url :: (if url in status then status[url] else "") == StatusOf(records, routeID, url)
  {
    status := map[];
    for i := 0 to |records|
      invariant forall url :: (if url in status then status[url] else "") == StatusOf(records[..i], routeID, url)
    {
      assert records[..i + 1][..i] == records[..i];
      if records[i].routeID == routeID {
        status := status[records[i].url := records[i].status];
      }
    }
    assert records[..|records|] == records;
  }

  /** The upstreams that are not known to be down, in table order. */
  function Living(ups: seq<Upstream>, records: seq<Health>, routeID: string): seq<Share>
    decreases |ups|
  {
    if ups == [] then []
    else
      var (rest, u) := (ups[..|ups| - 1], ups[|ups| - 1]);
      var living := Living(rest, records, routeID);
      if Down(records, routeID, u.url) then living else living + [Share(u.url, u.weight)]
  }

  function Pool(ups: seq<Upstream>, records: seq<Health>, routeID: string): seq<Share>
    requires ups != []
  {
    var living := Living(ups, records, routeID);
    if living == [] then [Share(ups[0].url, 1)] else living
  }

  /** The sum of the first `i` weights. */
  function Before(pool: seq<Share>, i: nat): int
    requires i <= |pool|
  {
    if i == 0 then 0 else Before(pool, i - 1) + pool[i - 1].weight
  }

  function Total(pool: seq<Share>): int { Before(pool, |pool|) }

  ghost predicate Positive(pool: seq<Share>) {
    pool != [] && forall i :: 0 <= i < |pool| ==> pool[i].weight > 0
  }

  lemma {:induction false} BeforeGrows(pool: seq<Share>, more: seq<Share>, i: nat)
    requires i <= |pool|
    ensures Before(pool + more, i) == Before(pool, i)
  {
    if i > 0 {
      BeforeGrows(pool, more, i - 1);
    }
  }

  method BuildPool(ups: seq<Upstream>, records: seq<Health>, routeID: string) returns (pool: seq<Share>, total: int)
    requires ups != []
    ensures pool == Pool(ups, records, routeID) && total == Total(pool)
  {
    var status := HealthStatus(records, routeID);
    pool, total := [], 0;
    for i := 0 to |ups|
      invariant pool == Living(ups[..i], records, routeID) && total == Total(pool)
    {
      assert ups[..i + 1][..i] == ups[..i];
      var url := ups[i].url;
      if !(url in status && status[url] == DOWN) {
        BeforeGrows(pool, [Share(url, ups[i].weight)], |pool|);
        pool := pool + [Share(url, ups[i].weight)];
        total := total + ups[i].weight;
      }
    }
    assert ups[..|ups|] == ups;
    if |pool| == 0 {
      pool, total := [Share(ups[0].url, 1)], 1;
      assert Before(pool, 1) == Before(pool, 0) + pool[0].weight;
    }
  }

  lemma {:induction false} LivingIsPositive(ups: seq<Upstream>, records: seq<Health>, routeID: string)
    requires PositiveWeights(ups)
    ensures forall s :: s in Living(ups, records, routeID) ==> s.weight > 0
  {
    if ups != [] {
      var u := ups[|ups| - 1];
      assert u in ups;
      LivingIsPositive(ups[..|ups| - 1], records, routeID);
    }
  }

  lemma PoolIsPositive(ups: seq<Upstream>, records: seq<Health>, routeID: string)
    requires ups != [] && PositiveWeights(ups)
    ensures Positive(Pool(ups, records, routeID))
  {
    var (living, pool) := (Living(ups, records, routeID), Pool(ups, records, routeID));
    LivingIsPositive(ups, records, routeID);
    forall i | 0 <= i < |pool| ensures pool[i].weight > 0 {
      assert living != [] ==> pool[i] in living;
    }
  }

  // ---------------------------------------------------------------- the choice

  /** The first entry whose running total exceeds `r`, or the length of the pool. */
  function Choice(pool: seq<Share>, r: int): (i: nat)
    ensures i <= |pool| && (i < |pool| ==> r < Before(pool, i + 1))
    ensures forall j :: 0 < j <= i ==> Before(pool, j) <= r
  {
    ChoiceFrom(pool, r, 0)
  }

  function ChoiceFrom(pool: seq<Share>, r: int, k: nat): (i: nat)
    requires k <= |pool|
    ensures k <= i <= |pool| && (i < |pool| ==> r < Before(pool, i + 1))
    ensures forall j :: k < j <= i ==> Before(pool, j) <= r
    decreases |pool| - k
  {
    if k == |pool| || r < Before(pool, k + 1) then k else ChoiceFrom(pool, r, k + 1)
  }

  /** The remainder of Go's `%`, which has the sign of the dividend. */
  function Remainder(n: int, m: int): (r: int)
    requires m > 0
    ensures -m < r < m && (n >= 0 ==> r == n % m)
  {
    if n >= 0 then n % m else -((-n) % m)
  }

  lemma AtLeastOnce(m: nat, d: int)
    requires d > 0
    ensures m * d >= m
  {
    assert m * d == m * (d - 1) + m;
  }

  lemma RemainderIs(n: nat, m: nat, q: nat, r: nat)
    requires n == m * q + r && r < m
    ensures Remainder(n, m) == r
  {
    var k := n / m;
    var s := n % m;
    assert n == m * k + s;
    assert m * (k - q) == r - s && m * (q - k) == s - r;
    if k > q {
      AtLeastOnce(m, k - q);
    } else if k < q {
      AtLeastOnce(m, q - k);
    }
  }

  lemma RemainderAgain(n: nat, m: nat)
    requires m > 0
    ensures Remainder(n + m, m) == Remainder(n, m)
  {
    assert m * (n / m + 1) == m * (n / m) + m;
    RemainderIs(n + m, m, n / m + 1, n % m);
  }

  lemma {:induction false} TotalExceeds(pool: seq<Share>, i: nat)
    requires Positive(pool) && i <= |pool|
    ensures Before(pool, i) >= i
  {
    if i > 0 {
      TotalExceeds(pool, i - 1);
    }
  }

  lemma {:induction false} BeforeAscends(pool: seq<Share>, i: nat, j: nat)
    requires Positive(pool) && i <= j <= |pool|
    ensures Before(pool, i) <= Before(pool, j)
  {
    if i < j {
      BeforeAscends(pool, i, j - 1);
    }
  }

  /** The residues that choose entry `i` are exactly those between its running totals. */
  lemma ChoiceIff(pool: seq<Share>, r: int, i: nat)
    requires Positive(pool) && 0 <= r && i < |pool|
    ensures Choice(pool, r) == i <==> Before(pool, i) <= r < Before(pool, i + 1)
  {
    var c := Choice(pool, r);
    if c < i {
      BeforeAscends(pool, c + 1, i);
    }
  }

  /** Whatever the clock says, some entry is chosen. */
  lemma AlwaysChooses(pool: seq<Share>, now: int)
    requires Positive(pool)
    ensures Total(pool) > 0 && Choice(pool, Remainder(now, Total(pool))) < |pool|
  {
    TotalExceeds(pool, |pool|);
  }

  /** The upstream that serves a request at clock reading `now`. */
  ghost function Served(pool: seq<Share>, now: int): string
    requires Positive(pool)
  {
    AlwaysChooses(pool, now);
    pool[Choice(pool, Remainder(now, Total(pool)))].url
  }

  /** The selection of the proxy: `none` is the route's own upstream, used without a pool. */
  method SelectUpstream(ups: seq<Upstream>, records: seq<Health>, routeID: string, none: string, now: int)
    returns (url: string)
    requires PositiveWeights(ups)
    ensures ups == [] ==> url == none
    ensures ups != [] ==> Positive(Pool(ups, records, routeID)) && url == Served(Pool(ups, records, routeID), now)
  {
    url := none;
    if |ups| > 0 {
      var pool, total := BuildPool(ups, records, routeID);
      PoolIsPositive(ups, records, routeID);
      AlwaysChooses(pool, now);
      var r := Remainder(now, total);
      var (cumulative, k) := (0, 0);
      while k < |pool|
        invariant 0 <= k <= |pool| && cumulative == Before(pool, k)
        invariant Choice(pool, r) == ChoiceFrom(pool, r, k)
      {
        cumulative := cumulative + pool[k].weight;
        if r < cumulative {
          url := pool[k].url;
          break;
        }
        k := k + 1;
      }
    }
  }

  // ---------------------------------------------------------------- proportionality

  /** The clock readings in [a, b) that serve `url`. */
  ghost function Hits(pool: seq<Share>, url: string, a: int, b: int): set<int>
    requires Positive(pool)
  {
    set now: int | a <= now < b && Served(pool, now) == url
  }

  lemma HitsSplit(pool: seq<Share>, url: string, a: int, b: int, c: int)
    requires Positive(pool) && a <= b <= c
    ensures |Hits(pool, url, a, c)| == |Hits(pool, url, a, b)| + |Hits(pool, url, b, c)|
  {
    assert Hits(pool, url, a, c) == Hits(pool, url, a, b) + Hits(pool, url, b, c);
    assert Hits(pool, url, a, b) !! Hits(pool, url, b, c);
  }

  lemma HitsOne(pool: seq<Share>, url: string, now: int)
    requires Positive(pool)
    ensures |Hits(pool, url, now, now + 1)| == if Served(pool, now) == url then 1 else 0
  {
    assert Hits(pool, url, now, now + 1) == if Served(pool, now) == url then {now} else {};
  }

  lemma {:induction false} HitsConstant(pool: seq<Share>, url: string, a: int, b: int, one: string)
    requires Positive(pool) && a <= b
    requires forall now :: a <= now < b ==> Served(pool, now) == one
    ensures |Hits(pool, url, a, b)| == if one == url then b - a else 0
    decreases b - a
  {
    if a < b {
      HitsConstant(pool, url, a, b - 1, one);
      HitsLast(pool, url, a, b - 1);
    } else {
      assert Hits(pool, url, a, b) == {};
    }
  }

  /** The weight that a URL has in the first `i` entries of a pool. */
  function WeightOf(pool: seq<Share>, url: string, i: nat): int
    requires i <= |pool|
  {
    if i == 0 then 0 else WeightOf(pool, url, i - 1) + if pool[i - 1].url == url then pool[i - 1].weight else 0
  }

  /** Each reading between two running totals serves the entry they enclose. */
  lemma ServedInCell(pool: seq<Share>, i: nat, now: int)
    requires Positive(pool) && i < |pool| && Before(pool, i) <= now < Before(pool, i + 1)
    ensures 0 <= now && Served(pool, now) == pool[i].url
  {
    TotalExceeds(pool, i);
    BeforeAscends(pool, i + 1, |pool|);
    ChoiceIff(pool, now, i);
    RemainderIs(now, Total(pool), 0, now);
  }

  lemma {:induction false} HitsOfPrefix(pool: seq<Share>, url: string, i: nat)
    requires Positive(pool) && i <= |pool|
    ensures |Hits(pool, url, 0, Before(pool, i))| == WeightOf(pool, url, i)
  {
    if i == 0 {
      assert Hits(pool, url, 0, 0) == {};
    } else {
      var (a, b) := (Before(pool, i - 1), Before(pool, i));
      HitsOfPrefix(pool, url, i - 1);
      TotalExceeds(pool, i - 1);
      forall now | a <= now < b ensures Served(pool, now) == pool[i - 1].url {
        ServedInCell(pool, i - 1, now);
      }
      HitsConstant(pool, url, a, b, pool[i - 1].url);
      HitsSplit(pool, url, 0, a, b);
    }
  }

  lemma HitsFirst(pool: seq<Share>, url: string, a: int, b: int)
    requires Positive(pool) && a < b
    ensures |Hits(pool, url, a, b)| == (if Served(pool, a) == url then 1 else 0) + |Hits(pool, url, a + 1, b)|
  {
    HitsSplit(pool, url, a, a + 1, b);
    HitsOne(pool, url, a);
  }

  lemma HitsLast(pool: seq<Share>, url: string, a: int, b: int)
    requires Positive(pool) && a <= b
    ensures |Hits(pool, url, a, b + 1)| == |Hits(pool, url, a, b)| + if Served(pool, b) == url then 1 else 0
  {
    HitsSplit(pool, url, a, b, b + 1);
    HitsOne(pool, url, b);
  }

  /** A window that loses what it gains may move on by one reading. */
  lemma HitsShift(pool: seq<Share>, url: string, a: nat, b: nat)
    requires Positive(pool) && a < b && Served(pool, a) == Served(pool, b)
    ensures |Hits(pool, url, a + 1, b + 1)| == |Hits(pool, url, a, b)|
  {
    HitsFirst(pool, url, a, b);
    HitsLast(pool, url, a + 1, b);
  }

  lemma NextTurn(pool: seq<Share>, url: string, a: nat)
    requires Positive(pool)
    ensures |Hits(pool, url, a + 1, a + 1 + Total(pool))| == |Hits(pool, url, a, a + Total(pool))|
  {
    ServedAgain(pool, a);
    HitsShift(pool, url, a, a + Total(pool));
  }

  /** The choice is exactly proportional: of any `Total` consecutive clock readings, each
      URL serves exactly as many as its weight. */
  lemma {:induction false} ExactlyProportional(pool: seq<Share>, url: string, from: nat)
    requires Positive(pool)
    ensures |Hits(pool, url, from, from + Total(pool))| == WeightOf(pool, url, |pool|)
  {
    if from == 0 {
      HitsOfPrefix(pool, url, |pool|);
    } else {
      ExactlyProportional(pool, url, from - 1);
      NextTurn(pool, url, from - 1);
    }
  }

  lemma ServedAgain(pool: seq<Share>, now: nat)
    requires Positive(pool)
    ensures Total(pool) > 0 && Served(pool, now + Total(pool)) == Served(pool, now)
  {
    AlwaysChooses(pool, now);
    RemainderAgain(now, Total(pool));
  }

  // ---------------------------------------------------------------- health

  /** The weight that a URL has among the configured upstreams. */
  function Configured(ups: seq<Upstream>, url: string): int
    decreases |ups|
  {
    if ups == [] then 0
    else
      var (rest, u) := (ups[..|ups| - 1], ups[|ups| - 1]);
      Configured(rest, url) + if u.url == url then u.weight else 0
  }

  lemma {:induction false} WeightGrows(pool: seq<Share>, more: seq<Share>, url: string, i: nat)
    requires i <= |pool|
    ensures WeightOf(pool + more, url, i) == WeightOf(pool, url, i)
  {
    if i > 0 {
      WeightGrows(pool, more, url, i - 1);
    }
  }

  lemma {:induction false} LivingWeight(ups: seq<Upstream>, records: seq<Health>, routeID: string, url: string)
    ensures var living := Living(ups, records, routeID);
            WeightOf(living, url, |living|) == if Down(records, routeID, url) then 0 else Configured(ups, url)
    ensures Living(ups, records, routeID) == [] <==> forall u :: u in ups ==> Down(records, routeID, u.url)
  {
    if ups != [] {
      var (rest, u) := (ups[..|ups| - 1], ups[|ups| - 1]);
      assert ups == rest + [u];
      var living := Living(rest, records, routeID);
      LivingWeight(rest, records, routeID, url);
      WeightGrows(living, [Share(u.url, u.weight)], url, |living|);
    }
  }

  /** What the proxy does with a route's upstreams over any full turn of the clock. While
      one of them is up, each URL that is up serves exactly its configured weight of the
      requests and each URL that is down serves none; a down URL is chosen only when all are. */
  lemma TrafficFollowsWeights(ups: seq<Upstream>, records: seq<Health>, routeID: string, url: string, from: nat)
    requires ups != [] && PositiveWeights(ups)
    ensures var pool := Pool(ups, records, routeID);
            && Positive(pool)
            && |Hits(pool, url, from, from + Total(pool))|
                 == if forall u :: u in ups ==> Down(records, routeID, u.url) then (if url == ups[0].url then 1 else 0)
                    else if Down(records, routeID, url) then 0
                    else Configured(ups, url)
  {
    var pool := Pool(ups, records, routeID);
    PoolIsPositive(ups, records, routeID);
    ExactlyProportional(pool, url, from);
    LivingWeight(ups, records, routeID, url);
    if |pool| == 1 {
      assert WeightOf(pool, url, 1) == WeightOf(pool, url, 0) + if pool[0].url == url then pool[0].weight else 0;
    }
  }

  /** Single choices: a URL that is down serves a request only when all upstreams are down. */
  lemma DownOnlyWhenAllDown(ups: seq<Upstream>, records: seq<Health>, routeID: string, now: nat)
    requires ups != [] && PositiveWeights(ups)
    ensures var pool := Pool(ups, records, routeID);
            && Positive(pool)
            && (Down(records, routeID, Served(pool, now)) <==> forall u :: u in ups ==> Down(records, routeID, u.url))
  {
    var pool := Pool(ups, records, routeID);
    PoolIsPositive(ups, records, routeID);
    LivingWeight(ups, records, routeID, "");
    AlwaysChooses(pool, now);
    LivingIsUp(ups, records, routeID);
    assert ups[0] in ups;
  }

  lemma {:induction false} LivingIsUp(ups: seq<Upstream>, records: seq<Health>, routeID: string)
    ensures forall s :: s in Living(ups, records, routeID) ==> !Down(records, routeID, s.url)
  {
    if ups != [] {
      LivingIsUp(ups[..|ups| - 1], records, routeID);
    }
  }
}
