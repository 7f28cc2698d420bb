/** The in-memory token-bucket limiter: one lazily refilled bucket per key.
    Times are seconds and tokens are reals; float rounding is not modelled. */
module RateLimiter {

  // ---------------------------------------------------------------- values

  /** The contents of one bucket. */
  datatype Bucket = Bucket(tokens: real, maxTokens: real, refillRate: real, lastRefill: real) {
    predicate Valid() {
      0.0 <= tokens <= maxTokens && 1.0 <= maxTokens && 0.0 < refillRate
    }
  }

  type Buckets = map<string, Bucket>

  /** What can happen to a limiter. An `Allow` with `rpm <= 0` carries no limit. */
  datatype Event =
    | Allow(key: string, rpm: int, burst: int, now: real)
    | Cleanup(now: real)

  const IDLE_SECONDS: real := 600.0

  function EffectiveBurst(rpm: int, burst: int): int
    requires rpm > 0
  {
    if burst > 0 then burst else if rpm / 10 >= 1 then rpm / 10 else 1
  }

  function NewBucket(rpm: int, burst: int, now: real): Bucket
    requires rpm > 0
  {
    var b := EffectiveBurst(rpm, burst) as real;
    Bucket(b, b, rpm as real / 60.0, now)
  }

  function Min(x: real, y: real): real { if x <= y then x else y }

  /** The tokens earned between two instants. */
  function Earned(since: real, until: real, rate: real): real { (until - since) * rate }

  function Refill(b: Bucket, now: real): Bucket {
    if now > b.lastRefill then
      b.(tokens := Min(b.maxTokens, b.tokens + Earned(b.lastRefill, now, b.refillRate)), lastRefill := now)
    else b
  }

  predicate CanTake(b: Bucket) { b.tokens >= 1.0 }

  function Take(b: Bucket): Bucket { if CanTake(b) then b.(tokens := b.tokens - 1.0) else b }

  predicate Limited(e: Event, key: string) { e.Allow? && e.key == key && e.rpm > 0 }

  /** The bucket a limited call finds (or creates), brought up to date. */
  function Fetch(bs: Buckets, e: Event): Bucket
    requires e.Allow? && e.rpm > 0
  {
    Refill(if e.key in bs then bs[e.key] else NewBucket(e.rpm, e.burst, e.now), e.now)
  }

  predicate Admits(bs: Buckets, e: Event)
    requires e.Allow?
  {
    e.rpm <= 0 || CanTake(Fetch(bs, e))
  }

  predicate Stale(b: Bucket, now: real) { b.lastRefill < now - IDLE_SECONDS }

  function Next(bs: Buckets, e: Event): Buckets {
    match e
    case Allow(key, rpm, _, _) => if rpm <= 0 then bs else bs[key := Take(Fetch(bs, e))]
    case Cleanup(now) => map k | k in bs && !Stale(bs[k], now) :: bs[k]
  }

  /** What settings let through at once: the burst, or without one a tenth of the calls per
      minute, whole and at least one. */
  predicate IsBurst(rpm: int, burst: int, c: int) {
    if burst > 0 then c == burst else c >= 1 && rpm < 10 * (c + 1) && (c == 1 || 10 * c <= rpm)
  }

  lemma EffectiveBurstIff(rpm: int, burst: int, c: int)
    requires rpm > 0
    ensures EffectiveBurst(rpm, burst) == c <==> IsBurst(rpm, burst, c)
  {
  }

  /** One call: without a limit it passes and changes nothing; otherwise its key's bucket,
      full if it is new, earns `rpm / 60` tokens a second up to what it can hold, and the
      call takes one if there is one. */
  lemma AllowMeans(bs: Buckets, e: Event, c: int)
    requires e.Allow? && IsBurst(e.rpm, e.burst, c)
    ensures if e.rpm <= 0 then Admits(bs, e) && Next(bs, e) == bs
            else
              var b := if e.key in bs then bs[e.key] else Bucket(c as real, c as real, e.rpm as real / 60.0, e.now);
              var elapsed := if e.now > b.lastRefill then e.now - b.lastRefill else 0.0;
              var sum := b.tokens + elapsed * b.refillRate;
              var tokens := if elapsed > 0.0 && sum > b.maxTokens then b.maxTokens else sum;
              && (Admits(bs, e) <==> tokens >= 1.0)
              && Next(bs, e) == bs[e.key := Bucket(if tokens >= 1.0 then tokens - 1.0 else tokens, b.maxTokens,
                                                    b.refillRate, b.lastRefill + elapsed)]
  {
    if e.rpm > 0 {
      EffectiveBurstIff(e.rpm, e.burst, c);
      RefillMeans(if e.key in bs then bs[e.key] else NewBucket(e.rpm, e.burst, e.now), e.now);
    }
  }

  lemma RefillMeans(b: Bucket, now: real)
    ensures var elapsed := if now > b.lastRefill then now - b.lastRefill else 0.0;
            var sum := b.tokens + elapsed * b.refillRate;
            Refill(b, now) == b.(tokens := if elapsed > 0.0 && sum > b.maxTokens then b.maxTokens else sum,
                                 lastRefill := b.lastRefill + elapsed)
  {
    if now > b.lastRefill {
      assert Earned(b.lastRefill, now, b.refillRate) == (now - b.lastRefill) * b.refillRate;
    }
  }

  /** A cleanup removes the buckets untouched for more than ten minutes, and nothing else. */
  lemma CleanupMeans(bs: Buckets, now: real, key: string)
    ensures var after := Next(bs, Event.Cleanup(now));
            && (key in after <==> key in bs && now - bs[key].lastRefill <= 600.0)
            && (key in after ==> after[key] == bs[key])
  {
  }

  // ---------------------------------------------------------------- runs

  /** The buckets just before event `j` of a run that starts with none. */
  function StateAt(es: seq<Event>, j: nat): Buckets
    requires j <= |es|
  {
    if j == 0 then map[] else Next(StateAt(es, j - 1), es[j - 1])
  }

  /** The limiter's answer to call `j`. */
  predicate Answer(es: seq<Event>, j: nat)
    requires j < |es| && es[j].Allow?
  {
    Admits(StateAt(es, j), es[j])
  }

  /** How many limited calls on `key` among events i, .., j-1 were admitted. */
  function Admitted(es: seq<Event>, key: string, i: nat, j: nat): nat
    requires j <= |es|
  {
    if j <= i then 0
    else Admitted(es, key, i, j - 1) + (if Limited(es[j - 1], key) && Answer(es, j - 1) then 1 else 0)
  }

  /** The index of the first limited call on `key` before event `j`; `j` if there is none. */
  function First(es: seq<Event>, key: string, j: nat): (i: nat)
    requires j <= |es|
    ensures i <= j && (i < j ==> Limited(es[i], key))
    ensures forall k :: 0 <= k < i ==> !Limited(es[k], key)
  {
    if j == 0 then 0
    else
      var i := First(es, key, j - 1);
      if i < j - 1 || Limited(es[j - 1], key) then i else j
  }

  /** The latest time of a limited call on `key` among the first `j` events: the
      clock of that bucket, which never steps back even when the system clock does. */
  function Clock(es: seq<Event>, key: string, j: nat): real
    requires j <= |es| && First(es, key, j) < j
  {
    if First(es, key, j - 1) == j - 1 then es[j - 1].now
    else
      var c := Clock(es, key, j - 1);
      if Limited(es[j - 1], key) && es[j - 1].now > c then es[j - 1].now else c
  }

  ghost predicate NoCleanup(es: seq<Event>) { forall k :: 0 <= k < |es| ==> es[k].Allow? }

  /** The capacity and rate that govern `key`: those of its first limited call. */
  function Capacity(es: seq<Event>, key: string, j: nat): real
    requires j <= |es| && First(es, key, j) < j
  {
    var e := es[First(es, key, j)];
    EffectiveBurst(e.rpm, e.burst) as real
  }

  function Rate(es: seq<Event>, key: string, j: nat): real
    requires j <= |es| && First(es, key, j) < j
  {
    es[First(es, key, j)].rpm as real / 60.0
  }

  /** What a bucket holds at any point of a run: tokens within bounds, the
      parameters of the key's first call whatever later calls pass, and the key's clock. */
  lemma {:induction false} BucketAt(es: seq<Event>, key: string, j: nat)
    requires NoCleanup(es) && j <= |es|
    ensures key in StateAt(es, j) <==> First(es, key, j) < j
    ensures First(es, key, j) < j ==>
              var b := StateAt(es, j)[key];
              b.Valid() && b.maxTokens == Capacity(es, key, j) && b.refillRate == Rate(es, key, j)
              && b.lastRefill == Clock(es, key, j)
  {
    if j > 0 {
      BucketAt(es, key, j - 1);
      if Limited(es[j - 1], key) && First(es, key, j - 1) < j - 1 {
        RefillValid(StateAt(es, j - 1)[key], es[j - 1].now);
      }
    }
  }

  lemma RefillValid(b: Bucket, now: real)
    requires b.Valid()
    ensures Refill(b, now).Valid()
  {
    if now > b.lastRefill {
      EarnedSign(b.lastRefill, now, b.refillRate);
    }
  }

  lemma EarnedSign(since: real, until: real, rate: real)
    requires since <= until && 0.0 <= rate
    ensures 0.0 <= Earned(since, until, rate)
    ensures since == until ==> Earned(since, until, rate) == 0.0
  {
  }

  lemma EarnedAdds(a: real, b: real, c: real, rate: real)
    ensures Earned(a, b, rate) + Earned(b, c, rate) == Earned(a, c, rate)
  {
  }

  /** What a full bucket could pay for from time `since` to time `until`. */
  function Budget(capacity: real, rate: real, since: real, until: real): real {
    capacity + Earned(since, until, rate)
  }

  /** Tokens left plus `spent` are at most the capacity plus the refill since `since`. */
  ghost predicate Within(b: Bucket, since: real, spent: nat) {
    b.tokens + spent as real <= Budget(b.maxTokens, b.refillRate, since, b.lastRefill)
  }

  /** Tokens left plus `spent` are exactly the capacity plus the refill since `since`. */
  ghost predicate Exactly(b: Bucket, since: real, spent: nat) {
    b.tokens + spent as real == Budget(b.maxTokens, b.refillRate, since, b.lastRefill)
  }

  lemma WithinRefill(b: Bucket, now: real, since: real, spent: nat)
    requires Within(b, since, spent)
    ensures Within(Refill(b, now), since, spent)
  {
    EarnedAdds(since, b.lastRefill, now, b.refillRate);
  }

  lemma ExactlyRefill(b: Bucket, now: real, since: real, spent: nat)
    requires Exactly(b, since, spent)
    ensures var r := Refill(b, now); r.tokens == r.maxTokens || Exactly(r, since, spent)
  {
    EarnedAdds(since, b.lastRefill, now, b.refillRate);
  }

  lemma WithinTake(b: Bucket, since: real, spent: nat)
    ensures Within(b, since, spent) ==> Within(Take(b), since, spent + if CanTake(b) then 1 else 0)
    ensures Exactly(b, since, spent) ==> Exactly(Take(b), since, spent + if CanTake(b) then 1 else 0)
  {
  }

  lemma FullIsExact(b: Bucket)
    requires b.Valid()
    ensures Within(b, b.lastRefill, 0)
    ensures b.tokens == b.maxTokens ==> Exactly(b, b.lastRefill, 0)
  {
    EarnedSign(b.lastRefill, b.lastRefill, b.refillRate);
  }

  /** The bucket that call `i` uses, up to date but before its token is taken. */
  function Fetched(es: seq<Event>, i: nat): Bucket
    requires i < |es| && es[i].Allow? && es[i].rpm > 0
  {
    Fetch(StateAt(es, i), es[i])
  }

  lemma FetchedAt(es: seq<Event>, key: string, i: nat)
    requires NoCleanup(es) && i < |es| && Limited(es[i], key)
    ensures var f := Fetched(es, i);
            f.Valid() && First(es, key, i + 1) < i + 1 && f.lastRefill == Clock(es, key, i + 1)
            && f.maxTokens == Capacity(es, key, i + 1) && f.refillRate == Rate(es, key, i + 1)
  {
    BucketAt(es, key, i);
    BucketAt(es, key, i + 1);
    if key in StateAt(es, i) {
      RefillValid(StateAt(es, i)[key], es[i].now);
    }
  }

  /** Parameters never change once a key has been seen. */
  lemma {:induction false} FirstStable(es: seq<Event>, key: string, i: nat, j: nat)
    requires i <= j <= |es| && First(es, key, i) < i
    ensures First(es, key, j) == First(es, key, i)
    decreases j
  {
    if i < j {
      FirstStable(es, key, i, j - 1);
    }
  }

  /** What is left plus what was spent since call `i` never exceeds capacity plus refill since `i`. */
  lemma {:induction false} SpentSince(es: seq<Event>, key: string, i: nat, j: nat)
    requires NoCleanup(es) && i < j <= |es| && Limited(es[i], key)
    ensures key in StateAt(es, j)
    ensures Within(StateAt(es, j)[key], Fetched(es, i).lastRefill, Admitted(es, key, i, j))
    decreases j
  {
    var since := Fetched(es, i).lastRefill;
    if i + 1 < j {
      SpentSince(es, key, i, j - 1);
      if Limited(es[j - 1], key) {
        WithinRefill(StateAt(es, j - 1)[key], es[j - 1].now, since, Admitted(es, key, i, j - 1));
        WithinTake(Fetched(es, j - 1), since, Admitted(es, key, i, j - 1));
      }
    } else {
      FetchedAt(es, key, i);
      FullIsExact(Fetched(es, i));
      WithinTake(Fetched(es, i), since, 0);
    }
  }

  /** At each call the bucket is exactly capacity, plus refill, minus spending since
      some earlier call (the creation or the last refill that hit the cap). */
  lemma {:induction false} FullAtSomeCall(es: seq<Event>, key: string, n: nat) returns (i: nat)
    requires NoCleanup(es) && n < |es| && Limited(es[n], key)
    ensures i <= n && Limited(es[i], key)
    ensures Exactly(Fetched(es, n), Fetched(es, i).lastRefill, Admitted(es, key, i, n))
    decreases n
  {
    FetchedAt(es, key, n);
    BucketAt(es, key, n);
    if key !in StateAt(es, n) || Fetched(es, n).tokens == Fetched(es, n).maxTokens {
      i := n;
      FullIsExact(Fetched(es, n));
    } else {
      var p := PreviousCall(es, key, n);
      i := FullAtSomeCall(es, key, p);
      var since := Fetched(es, i).lastRefill;
      WithinTake(Fetched(es, p), since, Admitted(es, key, i, p));
      QuietBetween(es, key, i, p + 1, n);
      ExactlyRefill(StateAt(es, n)[key], es[n].now, since, Admitted(es, key, i, n));
    }
  }

  lemma {:induction false} PreviousCall(es: seq<Event>, key: string, n: nat) returns (p: nat)
    requires n <= |es| && First(es, key, n) < n
    ensures p < n && Limited(es[p], key) && forall k :: p < k < n ==> !Limited(es[k], key)
  {
    if Limited(es[n - 1], key) {
      p := n - 1;
    } else {
      p := PreviousCall(es, key, n - 1);
    }
  }

  /** Events of other keys, and unlimited calls, leave a key's bucket and count alone. */
  lemma {:induction false} QuietBetween(es: seq<Event>, key: string, i: nat, a: nat, b: nat)
    requires NoCleanup(es) && i <= a <= b <= |es| && key in StateAt(es, a)
    requires forall k :: a <= k < b ==> !Limited(es[k], key)
    ensures key in StateAt(es, b) && StateAt(es, b)[key] == StateAt(es, a)[key]
    ensures Admitted(es, key, i, b) == Admitted(es, key, i, a)
    decreases b
  {
    if a < b {
      QuietBetween(es, key, i, a, b - 1);
    }
  }

  // ---------------------------------------------------------------- main results

  /** What the tokens of one key can pay for between calls `i` and `n` of a run:
      the capacity and the refill over the time the key's clock covers. */
  function Allowance(es: seq<Event>, key: string, i: nat, n: nat): real
    requires i <= n < |es| && First(es, key, n + 1) <= n && First(es, key, i + 1) <= i
  {
    Budget(Capacity(es, key, n + 1), Rate(es, key, n + 1), Clock(es, key, i + 1), Clock(es, key, n + 1))
  }

  lemma WithinAllowance(b: Bucket, since: real, spent: nat, allowance: real)
    requires Within(b, since, spent) && 0.0 <= b.tokens
    requires allowance == Budget(b.maxTokens, b.refillRate, since, b.lastRefill)
    ensures spent as real <= allowance
  {
  }

  lemma ExactlyAllowance(b: Bucket, since: real, spent: nat, allowance: real)
    requires Exactly(b, since, spent) && !CanTake(b)
    requires allowance == Budget(b.maxTokens, b.refillRate, since, b.lastRefill)
    ensures spent as real + 1.0 > allowance
  {
  }

  /** A burst of `c` calls, and `rpm` calls a minute for the time that passed. */
  ghost function Room(c: int, rpm: int, since: real, until: real): real {
    c as real + (until - since) * (rpm as real / 60.0)
  }

  /** The allowance in the terms of the key's first call: its burst, and its rate for the
      time that the key's clock covers. */
  lemma AllowanceIs(es: seq<Event>, key: string, i: nat, n: nat) returns (c: int)
    requires i <= n < |es| && First(es, key, n + 1) <= n && First(es, key, i + 1) <= i
    ensures var (e, since, until) := (es[First(es, key, n + 1)], Clock(es, key, i + 1), Clock(es, key, n + 1));
            IsBurst(e.rpm, e.burst, c) && Allowance(es, key, i, n) == Room(c, e.rpm, since, until)
  {
    var e := es[First(es, key, n + 1)];
    c := EffectiveBurst(e.rpm, e.burst);
    EffectiveBurstIff(e.rpm, e.burst, c);
  }

  /** The limiter is exact: over any run on any mix of keys and any clock, a call is
      admitted if and only if every window ending at it, from each earlier call on its
      key, still has room for it under the burst and the rate of the key's first call.
      It neither over-admits nor refuses early. */
  lemma AdmittedIffEveryWindowHasRoom(es: seq<Event>, key: string, n: nat) returns (c: int)
    requires NoCleanup(es) && n < |es| && Limited(es[n], key)
    ensures forall i {:trigger es[i]} :: 0 <= i <= n && Limited(es[i], key) ==> First(es, key, i + 1) <= i
    ensures First(es, key, n + 1) <= n
    ensures var (e, until) := (es[First(es, key, n + 1)], Clock(es, key, n + 1));
            && IsBurst(e.rpm, e.burst, c)
            && (Answer(es, n) <==>
                forall i {:trigger es[i]} :: 0 <= i <= n && Limited(es[i], key) ==>
                  Admitted(es, key, i, n) as real + 1.0 <= Room(c, e.rpm, Clock(es, key, i + 1), until))
  {
    forall i | 0 <= i <= n && Limited(es[i], key)
      ensures First(es, key, i + 1) <= i
      ensures Answer(es, n) ==> Admitted(es, key, i, n) as real + 1.0 <= Allowance(es, key, i, n)
    {
      FetchedAt(es, key, i);
      if Answer(es, n) {
        WithinWindow(es, key, i, n);
      }
    }
    FetchedAt(es, key, n);
    forall i | 0 <= i <= n && Limited(es[i], key)
      ensures var (e, until) := (es[First(es, key, n + 1)], Clock(es, key, n + 1));
              Allowance(es, key, i, n) == Room(EffectiveBurst(e.rpm, e.burst), e.rpm, Clock(es, key, i + 1), until)
    {
      FetchedAt(es, key, i);
      var d := AllowanceIs(es, key, i, n);
      EffectiveBurstIff(es[First(es, key, n + 1)].rpm, es[First(es, key, n + 1)].burst, d);
    }
    c := AllowanceIs(es, key, n, n);
    EffectiveBurstIff(es[First(es, key, n + 1)].rpm, es[First(es, key, n + 1)].burst, c);
    if !Answer(es, n) {
      var w := FullAtSomeCall(es, key, n);
      FetchedAt(es, key, w);
      ExactlyAllowance(Fetched(es, n), Fetched(es, w).lastRefill, Admitted(es, key, w, n), Allowance(es, key, w, n));
    }
  }

  lemma WithinWindow(es: seq<Event>, key: string, i: nat, j: nat)
    requires NoCleanup(es) && i <= j < |es| && Limited(es[i], key) && Limited(es[j], key)
    ensures First(es, key, i + 1) <= i && First(es, key, j + 1) <= j
    ensures Admitted(es, key, i, j + 1) as real <= Allowance(es, key, i, j)
  {
    FetchedAt(es, key, i);
    FetchedAt(es, key, j);
    SpentSince(es, key, i, j + 1);
    BucketAt(es, key, j + 1);
    WithinAllowance(StateAt(es, j + 1)[key], Fetched(es, i).lastRefill, Admitted(es, key, i, j + 1),
                    Allowance(es, key, i, j));
  }

  /** The window bound: the calls on `key` admitted from call `i` through call `j` number at
      most the burst of the key's first call plus its rate for the time that passed, read on
      the key's clock. */
  lemma WindowBound(es: seq<Event>, key: string, i: nat, j: nat) returns (c: int)
    requires NoCleanup(es) && i <= j < |es| && Limited(es[i], key) && Limited(es[j], key)
    ensures First(es, key, i + 1) <= i && First(es, key, j + 1) <= j
    ensures var e := es[First(es, key, j + 1)];
            && IsBurst(e.rpm, e.burst, c)
            && Admitted(es, key, i, j + 1) as real <= Room(c, e.rpm, Clock(es, key, i + 1), Clock(es, key, j + 1))
  {
    WithinWindow(es, key, i, j);
    c := AllowanceIs(es, key, i, j);
  }

  /** While its calls come at one time, a bucket only loses what it lets through. */
  lemma {:induction false} BurstLeft(es: seq<Event>, key: string, j: nat, t: real)
    requires NoCleanup(es) && j <= |es| && forall k :: 0 <= k < j && Limited(es[k], key) ==> es[k].now == t
    ensures var first := First(es, key, j);
            if first == j then key !in StateAt(es, j) && Admitted(es, key, 0, j) == 0
            else
              var c := EffectiveBurst(es[first].rpm, es[first].burst);
              && key in StateAt(es, j) && StateAt(es, j)[key].lastRefill == t
              && StateAt(es, j)[key].tokens == (c - Admitted(es, key, 0, j)) as real
  {
    if j > 0 {
      BurstLeft(es, key, j - 1, t);
    }
  }

  /** Calls on a new key that all come at one time are admitted until the burst is spent,
      and not once more. */
  lemma BurstAtOnce(es: seq<Event>, key: string, n: nat) returns (c: int)
    requires NoCleanup(es) && n < |es| && Limited(es[n], key)
    requires forall k :: 0 <= k <= n && Limited(es[k], key) ==> es[k].now == es[n].now
    ensures First(es, key, n + 1) <= n && IsBurst(es[First(es, key, n + 1)].rpm, es[First(es, key, n + 1)].burst, c)
    ensures Answer(es, n) <==> Admitted(es, key, 0, n) < c
  {
    var first := es[First(es, key, n + 1)];
    c := EffectiveBurst(first.rpm, first.burst);
    EffectiveBurstIff(first.rpm, first.burst, c);
    BurstLeft(es, key, n, es[n].now);
  }

  ghost predicate Monotone(es: seq<Event>) { forall i, j :: 0 <= i <= j < |es| ==> es[i].now <= es[j].now }

  /** On a clock that never steps back, a key's clock reads the time of its last call. */
  lemma {:induction false} MonotoneClock(es: seq<Event>, key: string, i: nat)
    requires Monotone(es) && i < |es| && Limited(es[i], key)
    ensures First(es, key, i + 1) < i + 1 && Clock(es, key, i + 1) == es[i].now
  {
    if First(es, key, i) < i {
      ClockBounded(es, key, i, es[i].now);
    }
  }

  lemma {:induction false} ClockBounded(es: seq<Event>, key: string, j: nat, bound: real)
    requires j <= |es| && First(es, key, j) < j && forall k :: 0 <= k < j ==> es[k].now <= bound
    ensures Clock(es, key, j) <= bound
  {
    if First(es, key, j - 1) < j - 1 {
      ClockBounded(es, key, j - 1, bound);
    }
  }

  /** The window bound in wall-clock time, for a clock that never steps back. */
  lemma MonotoneWindowBound(es: seq<Event>, key: string, i: nat, j: nat) returns (c: int)
    requires NoCleanup(es) && Monotone(es) && i <= j < |es| && Limited(es[i], key) && Limited(es[j], key)
    ensures First(es, key, j + 1) <= j
    ensures var e := es[First(es, key, j + 1)];
            && IsBurst(e.rpm, e.burst, c)
            && Admitted(es, key, i, j + 1) as real <= Room(c, e.rpm, es[i].now, es[j].now)
  {
    c := WindowBound(es, key, i, j);
    MonotoneClock(es, key, i);
    MonotoneClock(es, key, j);
  }

  // ---------------------------------------------------------------- cleanup

  /** The same run with every cleanup pass left out. */
  function KeptAt(es: seq<Event>, j: nat): Buckets
    requires j <= |es|
  {
    if j == 0 then map[]
    else if es[j - 1].Cleanup? then KeptAt(es, j - 1)
    else Next(KeptAt(es, j - 1), es[j - 1])
  }

  /** Every key always uses the parameters of its first limited call. */
  ghost predicate Uniform(es: seq<Event>) {
    forall i, j ::
      0 <= i < |es| && 0 <= j < |es| && es[i].Allow? && Limited(es[i], es[i].key) && Limited(es[j], es[i].key)
      ==> es[i].rpm == es[j].rpm && es[i].burst == es[j].burst
  }

  ghost predicate RefillsWhileIdle(es: seq<Event>) {
    forall i :: 0 <= i < |es| && es[i].Allow? && es[i].rpm > 0 ==>
      es[i].burst <= 10 * es[i].rpm
  }

  /** A bucket that serves the limited call `e`. */
  ghost predicate Serves(b: Bucket, e: Event)
    requires e.Allow? && e.rpm > 0
  {
    b.Valid() && b.maxTokens == EffectiveBurst(e.rpm, e.burst) as real && b.refillRate == e.rpm as real / 60.0
  }

  lemma IdleRefill(since: real, until: real, rpm: int)
    requires until - since >= IDLE_SECONDS && rpm > 0
    ensures Earned(since, until, rpm as real / 60.0) >= (10 * rpm) as real
  {
    var rate := rpm as real / 60.0;
    EarnedSign(since + IDLE_SECONDS, until, rate);
    EarnedAdds(since, since + IDLE_SECONDS, until, rate);
    assert Earned(since, since + IDLE_SECONDS, rate) == (10 * rpm) as real;
  }

  /** A bucket idle for over ten minutes is indistinguishable from a new one. */
  lemma IdleIsNew(b: Bucket, e: Event)
    requires e.Allow? && e.rpm > 0 && Serves(b, e) && Stale(b, e.now)
    requires e.burst <= 10 * e.rpm
    ensures Refill(b, e.now) == Refill(NewBucket(e.rpm, e.burst, e.now), e.now)
  {
    IdleRefill(b.lastRefill, e.now, e.rpm);
    assert Refill(b, e.now).tokens == b.maxTokens;
  }

  lemma StepServes(bs: Buckets, e: Event)
    requires e.Allow? && e.rpm > 0 && (e.key in bs ==> Serves(bs[e.key], e))
    ensures Serves(Next(bs, e)[e.key], e)
  {
    RefillValid(if e.key in bs then bs[e.key] else NewBucket(e.rpm, e.burst, e.now), e.now);
  }

  /** With and without cleanup, a key's bucket is the same or the cleaned-up one was idle. */
  lemma {:induction false} CleanupOnlyDropsIdle(es: seq<Event>, j: nat, n: nat)
    requires Monotone(es) && Uniform(es) && RefillsWhileIdle(es)
    requires j <= n < |es| && es[n].Allow? && es[n].rpm > 0
    ensures var (c, k, key) := (StateAt(es, j), KeptAt(es, j), es[n].key);
            && (key in c ==> key in k && c[key] == k[key])
            && (key in k ==> Serves(k[key], es[n]) && (key in c || Stale(k[key], es[n].now)))
    decreases j
  {
    if j > 0 {
      CleanupOnlyDropsIdle(es, j - 1, n);
      var (c, k, e) := (StateAt(es, j - 1), KeptAt(es, j - 1), es[j - 1]);
      if e.Allow? && Limited(e, es[n].key) {
        CleanupOnlyDropsIdle(es, j - 1, j - 1);
        StepServes(k, e);
        if e.key in k && e.key !in c {
          IdleIsNew(k[e.key], e);
        }
      }
    }
  }

  /** Cleanup is invisible: it changes no answer of a run whose clock never steps back,
      whose keys keep their parameters, and whose bursts refill within ten minutes. */
  lemma CleanupInvisible(es: seq<Event>, n: nat)
    requires Monotone(es) && Uniform(es) && RefillsWhileIdle(es)
    requires n < |es| && es[n].Allow?
    ensures Answer(es, n) == Admits(KeptAt(es, n), es[n])
  {
    if es[n].rpm > 0 {
      CleanupOnlyDropsIdle(es, n, n);
      var (c, k, e) := (StateAt(es, n), KeptAt(es, n), es[n]);
      if e.key in k && e.key !in c {
        IdleIsNew(k[e.key], e);
      }
    }
  }

  /** The same run with each cleanup pass replaced by an unlimited call, which does nothing. */
  function Unswept(es: seq<Event>): (us: seq<Event>)
    ensures |us| == |es|
    ensures forall k :: 0 <= k < |es| ==> us[k] == if es[k].Allow? then es[k] else Event.Allow("", 0, 0, es[k].now)
  {
    seq(|es|, k requires 0 <= k < |es| => if es[k].Allow? then es[k] else Event.Allow("", 0, 0, es[k].now))
  }

  lemma {:induction false} UnsweptState(es: seq<Event>, j: nat)
    requires j <= |es|
    ensures StateAt(Unswept(es), j) == KeptAt(es, j)
  {
    if j > 0 {
      UnsweptState(es, j - 1);
    }
  }

  lemma {:induction false} UnsweptFirst(es: seq<Event>, key: string, j: nat)
    requires j <= |es|
    ensures First(Unswept(es), key, j) == First(es, key, j)
  {
    if j > 0 {
      UnsweptFirst(es, key, j - 1);
    }
  }

  lemma {:induction false} UnsweptAdmitted(es: seq<Event>, key: string, i: nat, j: nat)
    requires Monotone(es) && Uniform(es) && RefillsWhileIdle(es) && j <= |es|
    ensures Admitted(Unswept(es), key, i, j) == Admitted(es, key, i, j)
    decreases j
  {
    if i < j {
      UnsweptAdmitted(es, key, i, j - 1);
      if Limited(es[j - 1], key) {
        UnsweptState(es, j - 1);
        CleanupInvisible(es, j - 1);
      }
    }
  }

  lemma UnsweptRun(es: seq<Event>)
    requires Monotone(es)
    ensures NoCleanup(Unswept(es)) && Monotone(Unswept(es))
  {
    var us := Unswept(es);
    assert forall k :: 0 <= k < |es| ==> us[k].now == es[k].now;
  }

  /** The window bound holds with cleanup running, whenever cleanup is invisible. */
  lemma CleanedWindowBound(es: seq<Event>, key: string, i: nat, j: nat) returns (c: int)
    requires Monotone(es) && Uniform(es) && RefillsWhileIdle(es)
    requires i <= j < |es| && Limited(es[i], key) && Limited(es[j], key)
    ensures First(es, key, j + 1) <= j
    ensures var e := es[First(es, key, j + 1)];
            && IsBurst(e.rpm, e.burst, c)
            && Admitted(es, key, i, j + 1) as real <= Room(c, e.rpm, es[i].now, es[j].now)
  {
    var us := Unswept(es);
    UnsweptRun(es);
    UnsweptAdmitted(es, key, i, j + 1);
    UnsweptFirst(es, key, j + 1);
    assert us[i] == es[i] && us[j] == es[j];
    c := MonotoneWindowBound(us, key, i, j);
    assert us[First(es, key, j + 1)] == es[First(es, key, j + 1)];
  }

  ghost predicate AllUse(es: seq<Event>, rpm: int, burst: int) {
    forall i :: 0 <= i < |es| && es[i].Allow? ==> es[i].rpm == rpm && es[i].burst == burst
  }

  /** No run of calls with `rpm` and `burst` can tell whether cleanup ran. */
  ghost predicate Invisible(rpm: int, burst: int) {
    forall es: seq<Event>, n: nat | Monotone(es) && AllUse(es, rpm, burst) && n < |es| && es[n].Allow? ::
      Answer(es, n) == Admits(KeptAt(es, n), es[n])
  }

  /** The time at which `Respend` cleans up: half a token's refill past ten minutes. */
  function Later(rpm: int): (t: real)
    requires rpm > 0
    ensures t > IDLE_SECONDS && Earned(0.0, t, rpm as real / 60.0) == (10 * rpm) as real + 0.5
  {
    var t := IDLE_SECONDS + 30.0 / rpm as real;
    assert t * (rpm as real / 60.0) == IDLE_SECONDS * (rpm as real / 60.0) + 0.5;
    t
  }

  function RespendEvent(rpm: int, burst: int, i: int): Event
    requires rpm > 0
  {
    var b := EffectiveBurst(rpm, burst);
    if i == b then Cleanup(Later(rpm)) else Allow("k", rpm, burst, if i < b then 0.0 else Later(rpm))
  }

  /** Spend the burst at time 0, clean up just past ten minutes, spend it again. */
  function Respend(rpm: int, burst: int): (es: seq<Event>)
    requires rpm > 0
    ensures |es| == 2 * EffectiveBurst(rpm, burst) + 1
    ensures forall i :: 0 <= i < |es| ==> es[i] == RespendEvent(rpm, burst, i)
  {
    seq(2 * EffectiveBurst(rpm, burst) + 1, i => RespendEvent(rpm, burst, i))
  }

  lemma TakeAtOnce(bs: Buckets, e: Event)
    requires e.Allow? && e.rpm > 0 && e.key in bs && bs[e.key].lastRefill == e.now && CanTake(bs[e.key])
    ensures Next(bs, e) == bs[e.key := bs[e.key].(tokens := bs[e.key].tokens - 1.0)]
  {
  }

  lemma TakeFirst(bs: Buckets, e: Event)
    requires e.Allow? && e.rpm > 0 && bs == map[]
    ensures var b := NewBucket(e.rpm, e.burst, e.now);
            Next(bs, e) == map[e.key := b.(tokens := EffectiveBurst(e.rpm, e.burst) as real - 1.0)]
  {
  }

  /** The buckets after `j` calls at time 0. */
  function Spent(rpm: int, burst: int, j: nat): Buckets
    requires rpm > 0
  {
    var b := EffectiveBurst(rpm, burst);
    if j == 0 then map[] else map["k" := Bucket((b - j) as real, b as real, rpm as real / 60.0, 0.0)]
  }

  lemma SpendOne(rpm: int, burst: int, j: nat)
    requires rpm > 0 && 0 < j <= EffectiveBurst(rpm, burst)
    ensures Next(Spent(rpm, burst, j - 1), Event.Allow("k", rpm, burst, 0.0)) == Spent(rpm, burst, j)
  {
    if j > 1 {
      TakeAtOnce(Spent(rpm, burst, j - 1), Event.Allow("k", rpm, burst, 0.0));
    } else {
      TakeFirst(map[], Event.Allow("k", rpm, burst, 0.0));
    }
  }

  /** Up to the cleanup both runs spend the burst. */
  lemma {:induction false} SpendBurst(rpm: int, burst: int, j: nat)
    requires rpm > 0 && j <= EffectiveBurst(rpm, burst)
    ensures var es := Respend(rpm, burst); StateAt(es, j) == KeptAt(es, j) == Spent(rpm, burst, j)
    decreases j
  {
    if j > 0 {
      SpendBurst(rpm, burst, j - 1);
      SpendOne(rpm, burst, j);
      assert Respend(rpm, burst)[j - 1] == RespendEvent(rpm, burst, j - 1);
    }
  }

  /** After it the cleaned run spends a whole new burst. */
  lemma {:induction false} SpendNewBurst(rpm: int, burst: int, j: nat)
    requires rpm > 0 && EffectiveBurst(rpm, burst) < j <= 2 * EffectiveBurst(rpm, burst)
    ensures var (es, b) := (Respend(rpm, burst), EffectiveBurst(rpm, burst));
            StateAt(es, j) == if j == b + 1 then map[]
                              else map["k" := Bucket((2 * b + 1 - j) as real, b as real, rpm as real / 60.0,
                                                      Later(rpm))]
    decreases j
  {
    var (es, b) := (Respend(rpm, burst), EffectiveBurst(rpm, burst));
    if j == b + 1 {
      SpendBurst(rpm, burst, b);
      assert es[b] == RespendEvent(rpm, burst, b);
      assert Stale(StateAt(es, b)["k"], Later(rpm));
    } else {
      SpendNewBurst(rpm, burst, j - 1);
      assert es[j - 1] == RespendEvent(rpm, burst, j - 1);
      if j == b + 2 {
        TakeFirst(map[], es[j - 1]);
      } else {
        TakeAtOnce(StateAt(es, j - 1), es[j - 1]);
      }
    }
  }

  /** A bucket that can no longer serve the rest of the second burst. */
  ghost predicate Short(b: Bucket, rpm: int, capacity: int, left: int)
    requires rpm > 0
  {
    b.lastRefill == Later(rpm) && b.refillRate == rpm as real / 60.0 && b.maxTokens == capacity as real
    && (b.tokens < 1.0 || b.tokens < left as real)
  }

  /** The run without cleanup has only ten minutes' refill to spend. */
  lemma {:induction false} SpendRefill(rpm: int, burst: int, j: nat)
    requires rpm > 0 && 10 * rpm < EffectiveBurst(rpm, burst)
    requires EffectiveBurst(rpm, burst) + 1 < j <= 2 * EffectiveBurst(rpm, burst)
    ensures var (es, b) := (Respend(rpm, burst), EffectiveBurst(rpm, burst));
            "k" in KeptAt(es, j) && Short(KeptAt(es, j)["k"], rpm, b, 2 * b + 1 - j)
    decreases j
  {
    var (es, b) := (Respend(rpm, burst), EffectiveBurst(rpm, burst));
    assert es[j - 1] == RespendEvent(rpm, burst, j - 1);
    if j == b + 2 {
      SpendBurst(rpm, burst, b);
      assert es[b] == RespendEvent(rpm, burst, b);
      assert KeptAt(es, b + 1) == KeptAt(es, b);
      FirstLate(KeptAt(es, b), es[b + 1]);
    } else {
      SpendRefill(rpm, burst, j - 1);
      assert Refill(KeptAt(es, j - 1)["k"], Later(rpm)) == KeptAt(es, j - 1)["k"];
    }
  }

  lemma FirstLate(bs: Buckets, e: Event)
    requires e.Allow? && e.rpm > 0 && e.now == Later(e.rpm)
    requires e.key in bs && bs[e.key] == Bucket(0.0, EffectiveBurst(e.rpm, e.burst) as real, e.rpm as real / 60.0, 0.0)
    requires 10 * e.rpm < EffectiveBurst(e.rpm, e.burst)
    ensures var b := EffectiveBurst(e.rpm, e.burst);
            e.key in Next(bs, e) && Short(Next(bs, e)[e.key], e.rpm, b, b - 1)
  {
    var f := Fetch(bs, e);
    assert Earned(0.0, e.now, e.rpm as real / 60.0) == (10 * e.rpm) as real + 0.5;
    assert f.tokens <= (10 * e.rpm) as real + 0.5;
  }

  /** Exactly when cleanup is invisible for a pair of settings: when the limit is
      off, or the burst refills within the ten idle minutes. */
  lemma InvisibleIff(rpm: int, burst: int)
    ensures Invisible(rpm, burst) <==> rpm <= 0 || burst <= 10 * rpm
  {
    if rpm > 0 && burst > 10 * rpm {
      var (es, b) := (Respend(rpm, burst), EffectiveBurst(rpm, burst));
      var n := 2 * b;
      SpendNewBurst(rpm, burst, n);
      SpendRefill(rpm, burst, n);
      assert es[n] == RespendEvent(rpm, burst, n);
      assert Refill(StateAt(es, n)["k"], Later(rpm)) == StateAt(es, n)["k"];
      assert Refill(KeptAt(es, n)["k"], Later(rpm)) == KeptAt(es, n)["k"];
      assert Answer(es, n) && !Admits(KeptAt(es, n), es[n]);
    } else {
      forall es: seq<Event>, n: nat | Monotone(es) && AllUse(es, rpm, burst) && n < |es| && es[n].Allow?
        ensures Answer(es, n) == Admits(KeptAt(es, n), es[n])
      {
        CleanupInvisible(es, n);
      }
    }
  }

  // ---------------------------------------------------------------- the limiter

  class TokenBucket {
    var tokens: real
    var maxTokens: real
    var refillRate: real
    var lastRefill: real

    constructor (rpm: int, burst: int, now: real)
      requires rpm > 0 && burst > 0
      ensures Value() == NewBucket(rpm, burst, now)
    {
      tokens, maxTokens := burst as real, burst as real;
      refillRate, lastRefill := rpm as real / 60.0, now;
    }

    function Value(): Bucket
      reads this
    {
      Bucket(tokens, maxTokens, refillRate, lastRefill)
    }

    /** Refill for the time elapsed, then take a token if there is one. */
    method Draw(now: real) returns (ok: bool)
      modifies this
      ensures ok == CanTake(Refill(old(Value()), now))
      ensures Value() == Take(Refill(old(Value()), now))
    {
      var elapsed := now - lastRefill;
      if elapsed > 0.0 {
        tokens := Min(maxTokens, tokens + elapsed * refillRate);
        lastRefill := now;
      }
      if tokens < 1.0 {
        return false;
      }
      tokens := tokens - 1.0;
      return true;
    }
  }

  class MemoryRateLimiter {
    var buckets: map<string, TokenBucket>

    constructor ()
      ensures Valid() && Contents() == map[]
    {
      buckets := map[];
    }

    /** No two keys share a bucket. */
    ghost predicate Valid()
      reads this
    {
      forall j, k :: j in buckets && k in buckets && j != k ==> buckets[j] != buckets[k]
    }

    ghost function Contents(): Buckets
      reads this, buckets.Values
    {
      map k | k in buckets :: buckets[k].Value()
    }

    method Allow(key: string, rpm: int, burst: int, now: real) returns (ok: bool)
      requires Valid()
      modifies this, buckets.Values
      ensures Valid() && fresh(buckets.Values - old(buckets.Values))
      ensures ok == Admits(old(Contents()), Event.Allow(key, rpm, burst, now))
      ensures Contents() == Next(old(Contents()), Event.Allow(key, rpm, burst, now))
    {
      if rpm <= 0 {
        return true;
      }
      var capacity := burst;
      if capacity <= 0 {
        capacity := if rpm / 10 >= 1 then rpm / 10 else 1;
      }
      if key !in buckets {
        var created := new TokenBucket(rpm, capacity, now);
        buckets := buckets[key := created];
      }
      ok := buckets[key].Draw(now);
    }

    method Cleanup(now: real)
      requires Valid()
      modifies this
      ensures Valid() && buckets.Values <= old(buckets.Values)
      ensures Contents() == Next(old(Contents()), Event.Cleanup(now))
    {
      var cutoff := now - IDLE_SECONDS;
      var pending := buckets.Keys;
      while pending != {}
        invariant pending <= old(buckets.Keys)
        invariant forall k :: k in buckets <==>
                    k in old(buckets) && (k in pending || !(old(buckets[k].lastRefill) < cutoff))
        invariant forall k :: k in buckets ==> buckets[k] == old(buckets)[k]
        decreases pending
      {
        var key :| key in pending;
        pending := pending - {key};
        if buckets[key].lastRefill < cutoff {
          buckets := buckets - {key};
        }
      }
    }
  }
}
