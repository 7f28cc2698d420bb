/** Per-route circuit breakers with a manual lock, asynchronous persistence and reload.
    Times are nanoseconds since the zero instant. */
module CircuitBreaker {

  // ---------------------------------------------------------------- one breaker

  type Route = string

  /** `Other` is any state string besides the three the code knows. */
  datatype State = Closed | Open | HalfOpen | Other(name: string)

  datatype Breaker = Breaker(
    state: State,
    failureCount: int,
    lastFailureAt: int,
    lastSuccessAt: int,
    openedAt: int,
    halfOpenAt: int,
    locked: bool)

  const FAILURE_THRESHOLD: int := 5
  const OPEN_DURATION: int := 30_000_000_000

  const FRESH: Breaker := Breaker(Closed, 0, 0, 0, 0, 0, false)

  predicate Expired(b: Breaker, now: int) { !b.locked && now - b.openedAt > OPEN_DURATION }

  predicate Admits(b: Breaker, now: int) { b.state == Open ==> Expired(b, now) }

  function AfterAllow(b: Breaker, now: int): Breaker {
    if b.state == Open && Expired(b, now) then b.(state := HalfOpen, halfOpenAt := now) else b
  }

  function Reported(b: Breaker, now: int): State {
    if b.state == Open && Expired(b, now) then HalfOpen else b.state
  }

  function AfterSuccess(b: Breaker, now: int): Breaker {
    var c := b.(lastSuccessAt := now);
    if c.state == HalfOpen && !c.locked then c.(state := Closed, failureCount := 0) else c
  }

  function AfterFailure(b: Breaker, now: int): Breaker {
    var c := b.(failureCount := b.failureCount + 1, lastFailureAt := now);
    if c.state == HalfOpen || c.failureCount >= FAILURE_THRESHOLD then c.(state := Open, openedAt := now) else c
  }

  function AfterForce(b: Breaker, state: State, now: int): Breaker {
    var c := b.(state := state);
    match state
    case Closed => c.(failureCount := 0, locked := false)
    case Open => c.(openedAt := now, locked := true)
    case HalfOpen => c.(halfOpenAt := now, locked := false)
    case Other(_) => c
  }

  /** The reported state and the admission decision agree at every instant. */
  lemma ReportAgreesWithAdmission(b: Breaker, now: int)
    ensures !Admits(b, now) <==> Reported(b, now) == Open
    ensures AfterAllow(b, now).state == Reported(b, now)
    ensures forall t :: t >= now && Admits(b, now) ==> Admits(AfterAllow(b, now), t)
  {
  }

  // ---------------------------------------------------------------- the system

  /** A copy of a breaker on its way to the store. */
  datatype Snapshot = Snapshot(route: Route, breaker: Breaker)

  /** `memory` is one process; `store` its table; `pending` the writes not yet carried
      out; `checked` the requests between AllowRequest's read and its write. */
  datatype System = System(
    memory: map<Route, Breaker>,
    store: map<Route, Breaker>,
    pending: multiset<Snapshot>,
    checked: multiset<Route>)

  datatype Step =
    | Allow(route: Route, now: int)
    | Check(route: Route, now: int)
    | Commit(route: Route, now: int)
    | Success(route: Route, now: int)
    | Failure(route: Route, now: int)
    | Force(route: Route, state: State, now: int)
    | Land(snapshot: Snapshot)
    | Drop(snapshot: Snapshot)
    | Restart(loaded: bool)

  /** Writes land or fail in any order and may outlive a crash; the handler lets
      only the three known states reach a Force. */
  predicate Enabled(s: System, step: Step) {
    match step
    case Commit(route, _) => route in s.checked && route in s.memory
    case Force(_, state, _) => !state.Other?
    case Land(snapshot) => snapshot in s.pending
    case Drop(snapshot) => snapshot in s.pending
    case _ => true
  }

  function Put(s: System, route: Route, b: Breaker): System {
    s.(memory := s.memory[route := b], pending := s.pending + multiset{Snapshot(route, b)})
  }

  function Get(s: System, route: Route): Breaker {
    if route in s.memory then s.memory[route] else FRESH
  }

  function Load(s: System, loaded: bool): System {
    if loaded then s.(memory := s.memory + s.store) else s
  }

  function Next(s: System, step: Step): System {
    match step
    case Allow(route, now) =>
      if route in s.memory then s.(memory := s.memory[route := AfterAllow(s.memory[route], now)]) else s
    case Check(route, now) =>
      if route in s.memory && s.memory[route].state == Open && Expired(s.memory[route], now)
      then s.(checked := s.checked + multiset{route}) else s
    case Commit(route, now) =>
      if route in s.memory
      then s.(memory := s.memory[route := s.memory[route].(state := HalfOpen, halfOpenAt := now)],
              checked := s.checked - multiset{route})
      else s
    case Success(route, now) =>
      if route in s.memory then Put(s, route, AfterSuccess(s.memory[route], now)) else s
    case Failure(route, now) => Put(s, route, AfterFailure(Get(s, route), now))
    case Force(route, state, now) => Put(s, route, AfterForce(Get(s, route), state, now))
    case Land(snapshot) =>
      s.(store := s.store[snapshot.route := snapshot.breaker], pending := s.pending - multiset{snapshot})
    case Drop(snapshot) => s.(pending := s.pending - multiset{snapshot})
    case Restart(loaded) => Load(s.(memory := map[], checked := multiset{}), loaded)
  }

  const EMPTY: System := System(map[], map[], multiset{}, multiset{})

  function Exec(s: System, steps: seq<Step>): System
    decreases |steps|
  {
    if steps == [] then s else Exec(Next(s, steps[0]), steps[1..])
  }

  predicate Legal(s: System, steps: seq<Step>)
    decreases |steps|
  {
    steps == [] || (Enabled(s, steps[0]) && Legal(Next(s, steps[0]), steps[1..]))
  }

  /** AllowRequest runs as one step. */
  predicate Atomic(steps: seq<Step>) { forall k :: 0 <= k < |steps| ==> !steps[k].Check? && !steps[k].Commit? }

  predicate NoForce(steps: seq<Step>, route: Route) {
    forall k :: 0 <= k < |steps| ==> !(steps[k].Force? && steps[k].route == route)
  }

  predicate NoRestart(steps: seq<Step>) { forall k :: 0 <= k < |steps| ==> !steps[k].Restart? }

  predicate AllLoaded(steps: seq<Step>) { forall k :: 0 <= k < |steps| && steps[k].Restart? ==> steps[k].loaded }

  lemma {:induction false} ExecAppend(s: System, a: seq<Step>, b: seq<Step>)
    ensures Exec(s, a + b) == Exec(Exec(s, a), b)
    ensures Legal(s, a + b) <==> Legal(s, a) && Legal(Exec(s, a), b)
    decreases |a|
  {
    if a == [] {
      assert a + b == b;
    } else {
      assert (a + b)[1..] == a[1..] + b;
      ExecAppend(Next(s, a[0]), a[1..], b);
    }
  }

  lemma ExecThen(s: System, a: seq<Step>, x: Step)
    ensures Exec(s, a + [x]) == Next(Exec(s, a), x)
    ensures Legal(s, a + [x]) <==> Legal(s, a) && Enabled(Exec(s, a), x)
  {
    ExecAppend(s, a, [x]);
    assert [x][1..] == [];
  }

  lemma LostAtRestart(s: System, steps: seq<Step>, route: Route, k: nat)
    requires k < |steps| && steps[k] == Restart(false)
    ensures route !in Exec(s, steps[..k + 1]).memory
  {
    assert steps[..k + 1] == steps[..k] + [steps[k]];
    ExecThen(s, steps[..k], steps[k]);
  }

  lemma LegalPrefix(s: System, steps: seq<Step>, k: nat)
    requires Legal(s, steps) && k <= |steps|
    ensures Legal(s, steps[..k])
  {
    assert steps == steps[..k] + steps[k..];
    ExecAppend(s, steps[..k], steps[k..]);
  }

  // ---------------------------------------------------------------- what the steps do

  /** A success closes a half-open breaker without a lock and resets its count; any other
      breaker only notes the time. */
  lemma SuccessMeans(s: System, route: Route, now: int)
    ensures var t := Next(s, Success(route, now));
            if route !in s.memory then t == s
            else
              var b := s.memory[route];
              var c := if b.state == HalfOpen && !b.locked
                       then b.(state := Closed, failureCount := 0, lastSuccessAt := now)
                       else b.(lastSuccessAt := now);
              t == s.(memory := s.memory[route := c], pending := s.pending + multiset{Snapshot(route, c)})
  {
  }

  /** A failure counts, on a breaker made for it if there is none. It opens a half-open
      breaker, whatever the count, and any other from the fifth failure on. */
  lemma FailureMeans(s: System, route: Route, now: int)
    ensures var t := Next(s, Failure(route, now));
            var b := if route in s.memory then s.memory[route] else Breaker(Closed, 0, 0, 0, 0, 0, false);
            var counted := b.(failureCount := b.failureCount + 1, lastFailureAt := now);
            var c := if b.state == HalfOpen || b.failureCount >= 4 then counted.(state := Open, openedAt := now)
                     else counted;
            t == s.(memory := s.memory[route := c], pending := s.pending + multiset{Snapshot(route, c)})
  {
  }

  /** A forced opening locks; a forced closing unlocks and resets; a forced trial unlocks. */
  lemma ForceMeans(s: System, route: Route, state: State, now: int)
    requires !state.Other?
    ensures var t := Next(s, Force(route, state, now));
            var b := if route in s.memory then s.memory[route] else Breaker(Closed, 0, 0, 0, 0, 0, false);
            && route in t.memory
            && t == s.(memory := s.memory[route := t.memory[route]],
                       pending := s.pending + multiset{Snapshot(route, t.memory[route])})
            && t.memory[route] == Breaker(
                 state, if state == Closed then 0 else b.failureCount, b.lastFailureAt, b.lastSuccessAt,
                 if state == Open then now else b.openedAt, if state == HalfOpen then now else b.halfOpenAt,
                 state == Open)
  {
  }

  /** Only an open, unlocked breaker changes when it is asked: more than thirty seconds after
      its opening, to half-open. */
  lemma AllowMeans(s: System, route: Route, now: int)
    ensures var t := Next(s, Allow(route, now));
            if route in s.memory && s.memory[route].state == Open && !s.memory[route].locked
               && now - s.memory[route].openedAt > 30_000_000_000
            then t == s.(memory := s.memory[route := s.memory[route].(state := HalfOpen, halfOpenAt := now)])
            else t == s
  {
    if route in s.memory {
      assert s.memory[route := s.memory[route]] == s.memory;
    }
  }

  // ---------------------------------------------------------------- invariants

  /** A closed breaker is below the threshold and unlocked; a `strict` one that is
      locked is also open. */
  predicate Sound(b: Breaker, strict: bool) {
    && !b.state.Other?
    && (b.state == Closed ==> b.failureCount < FAILURE_THRESHOLD && !b.locked)
    && (strict && b.locked ==> b.state == Open)
  }

  /** Every breaker in memory, in the store and on its way there is sound. */
  ghost predicate AllSound(s: System, strict: bool) {
    && (forall r :: r in s.memory ==> Sound(s.memory[r], strict))
    && (forall r :: r in s.store ==> Sound(s.store[r], strict))
    && (forall t :: t in s.pending ==> Sound(t.breaker, strict))
  }

  lemma PutSound(s: System, route: Route, b: Breaker, strict: bool)
    requires AllSound(s, strict) && Sound(b, strict)
    ensures AllSound(Put(s, route, b), strict)
  {
  }

  lemma StepSound(s: System, step: Step, strict: bool)
    requires AllSound(s, strict) && Enabled(s, step) && (strict ==> !step.Commit?)
    ensures AllSound(Next(s, step), strict)
  {
    match step
    case Success(route, now) =>
      if route in s.memory { PutSound(s, route, AfterSuccess(s.memory[route], now), strict); }
    case Failure(route, now) => PutSound(s, route, AfterFailure(Get(s, route), now), strict);
    case Force(route, state, now) => PutSound(s, route, AfterForce(Get(s, route), state, now), strict);
    case _ =>
  }

  /** Soundness survives every run from any sound state: crashes, stale reloads, writes
      in any order and AllowRequest's lock gap included. With AllowRequest atomic,
      a locked breaker moreover stays open. */
  lemma {:induction false} SoundAlways(s: System, steps: seq<Step>, strict: bool)
    requires AllSound(s, strict) && Legal(s, steps) && (strict ==> Atomic(steps))
    ensures AllSound(Exec(s, steps), strict)
    decreases |steps|
  {
    if steps != [] {
      StepSound(s, steps[0], strict);
      SoundAlways(Next(s, steps[0]), steps[1..], strict);
    }
  }

  // ---------------------------------------------------------------- lock durability

  predicate LockedOpen(b: Breaker) { b.state == Open && b.locked }

  predicate Held(s: System, route: Route) { route in s.memory && LockedOpen(s.memory[route]) }

  /** No snapshot that could undo a lock on `route` is on its way to the store. */
  ghost predicate NoUnlockedPending(s: System, route: Route) {
    forall t :: t in s.pending && t.route == route ==> LockedOpen(t.breaker)
  }

  /** The lock on `route` is in the store too. */
  ghost predicate Secured(s: System, route: Route) {
    Held(s, route) && route in s.store && LockedOpen(s.store[route])
  }

  /** No other step opens the gap of a held route or releases it. */
  lemma HeldStep(s: System, step: Step, route: Route)
    requires Held(s, route) && route !in s.checked && Enabled(s, step)
    requires !step.Restart? && !(step.Force? && step.route == route)
    ensures Held(Next(s, step), route) && route !in Next(s, step).checked
  {
  }

  /** What is on its way to the store, and what is in it, stays locked. */
  lemma SecuredStep(s: System, step: Step, route: Route)
    requires Held(s, route) && route !in s.checked && NoUnlockedPending(s, route) && Enabled(s, step)
    requires !step.Restart? && !(step.Force? && step.route == route)
    ensures NoUnlockedPending(Next(s, step), route)
    ensures Secured(s, route) ==> Secured(Next(s, step), route)
    ensures step.Land? && step.snapshot.route == route ==> Secured(Next(s, step), route)
  {
    HeldStep(s, step, route);
  }

  lemma {:induction false} HeldRun(s: System, steps: seq<Step>, route: Route)
    requires Held(s, route) && route !in s.checked
    requires Legal(s, steps) && NoForce(steps, route) && NoRestart(steps)
    ensures Held(Exec(s, steps), route) && route !in Exec(s, steps).checked
    ensures NoUnlockedPending(s, route) ==> NoUnlockedPending(Exec(s, steps), route)
    decreases |steps|
  {
    if steps != [] {
      HeldStep(s, steps[0], route);
      if NoUnlockedPending(s, route) {
        SecuredStep(s, steps[0], route);
      }
      HeldRun(Next(s, steps[0]), steps[1..], route);
    }
  }

  lemma {:induction false} SecuredRun(s: System, steps: seq<Step>, route: Route)
    requires Secured(s, route) && NoUnlockedPending(s, route) && route !in s.checked
    requires Legal(s, steps) && NoForce(steps, route) && AllLoaded(steps)
    ensures Secured(Exec(s, steps), route)
    decreases |steps|
  {
    if steps != [] {
      if !steps[0].Restart? {
        HeldStep(s, steps[0], route);
        SecuredStep(s, steps[0], route);
      }
      SecuredRun(Next(s, steps[0]), steps[1..], route);
    }
  }

  /** An operator's lock that falls between a request's read and its write ends up
      locked but half-open, and admits at every later instant. */
  lemma GapLosesLock(s: System, route: Route, now: int)
    requires route in s.memory && s.memory[route].state == Open && Expired(s.memory[route], now)
    ensures var steps := [Check(route, now)] + [Force(route, Open, now)] + [Commit(route, now)];
            && Legal(s, steps) && route in Exec(s, steps).memory
            && (var b := Exec(s, steps).memory[route]; b.locked && b.state == HalfOpen && forall t :: Admits(b, t))
  {
    var (check, force, commit) := (Check(route, now), Force(route, Open, now), Commit(route, now));
    assert [check] == [] + [check];
    ExecThen(s, [], check);
    ExecThen(s, [check], force);
    ExecThen(s, [check] + [force], commit);
  }

  /** The lock survives every run of this process that does not force `route` again. */
  ghost predicate Firm(s: System, route: Route) {
    forall steps | Legal(s, steps) && NoForce(steps, route) && NoRestart(steps) :: Held(Exec(s, steps), route)
  }

  /** Exactly when a lock in memory is firm: when no request of its route is between
      its read and its write. What other routes' requests do is of no consequence. */
  lemma FirmIff(s: System, route: Route)
    requires Held(s, route)
    ensures Firm(s, route) <==> route !in s.checked
  {
    if route !in s.checked {
      forall steps | Legal(s, steps) && NoForce(steps, route) && NoRestart(steps) ensures Held(Exec(s, steps), route) {
        HeldRun(s, steps, route);
      }
    } else {
      LateCommit(s, route, 0);
      assert !Held(Exec(s, [Commit(route, 0)]), route);
    }
  }

  /** A request in the gap can always write. */
  lemma LateCommit(s: System, route: Route, now: int)
    requires route in s.memory && route in s.checked
    ensures Legal(s, [Commit(route, now)]) && Exec(s, [Commit(route, now)]) == Next(s, Commit(route, now))
    ensures var t := Next(s, Commit(route, now)); route in t.memory && t.memory[route].state == HalfOpen
  {
    ExecThen(s, [], Commit(route, now));
    assert [] + [Commit(route, now)] == [Commit(route, now)];
  }

  /** The lock survives every run that does not force `route` again and whose reloads succeed. */
  ghost predicate Durable(s: System, route: Route) {
    forall steps | Legal(s, steps) && NoForce(steps, route) && AllLoaded(steps) :: Held(Exec(s, steps), route)
  }

  /** Exactly when a stored lock is durable: when no unlocked snapshot of the route is
      still on its way, for landing that one and restarting brings it back, and no
      request of the route is in the gap. */
  lemma DurableIff(s: System, route: Route)
    requires Secured(s, route)
    ensures Durable(s, route) <==> NoUnlockedPending(s, route) && route !in s.checked
  {
    if !NoUnlockedPending(s, route) {
      var t :| t in s.pending && t.route == route && !LockedOpen(t.breaker);
      LandAndRestart(s, t);
      assert !Held(Exec(s, [Land(t)] + [Restart(true)]), route);
    } else if route in s.checked {
      LateCommit(s, route, 0);
      assert !Held(Exec(s, [Commit(route, 0)]), route);
    } else {
      forall steps | Legal(s, steps) && NoForce(steps, route) && AllLoaded(steps) ensures Held(Exec(s, steps), route) {
        SecuredRun(s, steps, route);
      }
    }
  }

  /** Landing a snapshot and restarting puts it into memory. */
  lemma LandAndRestart(s: System, t: Snapshot)
    requires t in s.pending
    ensures var steps := [Land(t)] + [Restart(true)];
            && Legal(s, steps) && AllLoaded(steps) && NoForce(steps, t.route)
            && t.route in Exec(s, steps).memory && Exec(s, steps).memory[t.route] == t.breaker
  {
    assert [] + [Land(t)] == [Land(t)];
    ExecThen(s, [], Land(t));
    ExecThen(s, [Land(t)], Restart(true));
  }

  /** A run after a force that leaves the route to it and to requests, up to the landing
      of the forced snapshot. */
  predicate Settles(s1: System, route: Route, between: seq<Step>)
    requires route in s1.memory
  {
    && Legal(s1, between + [Land(Snapshot(route, s1.memory[route]))])
    && NoForce(between, route) && NoRestart(between)
  }

  /** Lock durability. If at the moment an operator forces `route` open no unlocked
      snapshot of it is pending and no request of it is in the gap, then however the
      forced snapshot's own write interleaves with other activity, the lock holds
      meanwhile and is durable once that write has landed. */
  lemma ForcedLockIsDurable(s: System, route: Route, now: int, between: seq<Step>)
    requires NoUnlockedPending(s, route) && route !in s.checked
    requires Settles(Next(s, Force(route, Open, now)), route, between)
    ensures var s1 := Next(s, Force(route, Open, now));
            var own := Land(Snapshot(route, s1.memory[route]));
            Held(Exec(s1, between), route) && Durable(Exec(s1, between + [own]), route)
  {
    var s1 := Next(s, Force(route, Open, now));
    var own := Land(Snapshot(route, s1.memory[route]));
    ExecThen(s1, between, own);
    HeldRun(s1, between, route);
    HeldStep(Exec(s1, between), own, route);
    SecuredStep(Exec(s1, between), own, route);
    DurableIff(Exec(s1, between + [own]), route);
  }

  /** And exactly then: the two conditions, which hold or fail before the force, decide
      whether every way to settle it ends in a durable lock. */
  lemma ForcedLockIsDurableIff(s: System, route: Route, now: int)
    ensures var s1 := Next(s, Force(route, Open, now));
            var own := Land(Snapshot(route, s1.memory[route]));
            (forall between | Settles(s1, route, between) :: Durable(Exec(s1, between + [own]), route))
            <==> NoUnlockedPending(s, route) && route !in s.checked
  {
    var s1 := Next(s, Force(route, Open, now));
    var own := Land(Snapshot(route, s1.memory[route]));
    if NoUnlockedPending(s, route) && route !in s.checked {
      forall between | Settles(s1, route, between) ensures Durable(Exec(s1, between + [own]), route) {
        ForcedLockIsDurable(s, route, now, between);
      }
    } else {
      ExecThen(s1, [], own);
      assert Settles(s1, route, []);
      var s2 := Exec(s1, [] + [own]);
      assert s.pending + multiset{own.snapshot} - multiset{own.snapshot} == s.pending;
      assert s2.pending == s.pending && s2.checked == s.checked && Secured(s2, route);
      DurableIff(s2, route);
    }
  }

  /** A restart whose reload fails is the one thing left that loses a durable lock:
      the lock holds at every point of a run if and only if every reload succeeds. */
  lemma {:induction false} HeldThroughoutIff(s: System, route: Route, steps: seq<Step>)
    requires Secured(s, route) && NoUnlockedPending(s, route) && route !in s.checked
    requires Legal(s, steps) && NoForce(steps, route)
    ensures (forall k :: 0 <= k <= |steps| ==> Held(Exec(s, steps[..k]), route)) <==> AllLoaded(steps)
  {
    if k :| 0 <= k < |steps| && steps[k] == Restart(false) {
      LostAtRestart(s, steps, route, k);
      assert !Held(Exec(s, steps[..k + 1]), route);
    } else {
      forall k | 0 <= k <= |steps| ensures Held(Exec(s, steps[..k]), route) {
        LegalPrefix(s, steps, k);
        SecuredRun(s, steps[..k], route);
      }
    }
  }

  // ---------------------------------------------------------------- quarantine

  /** Open, and neither unlocked nor opened before `t`: refusing for thirty seconds from `t`. */
  predicate Shut(b: Breaker, t: int) { b.state == Open && (b.locked || t <= b.openedAt) }

  predicate InWindow(t: int, now: int) { t <= now <= t + OPEN_DURATION }

  predicate Refuses(s: System, route: Route, now: int) {
    route in s.memory && !Admits(s.memory[route], now)
  }

  ghost predicate RefusesThroughout(s: System, route: Route, t: int) {
    forall now | InWindow(t, now) :: Refuses(s, route, now)
  }

  /** Every step that reads the clock reads a time in the window, in any order. */
  predicate Within(steps: seq<Step>, t: int) {
    forall k :: 0 <= k < |steps| && !steps[k].Land? && !steps[k].Drop? && !steps[k].Restart? ==>
      InWindow(t, steps[k].now)
  }

  /** A breaker refuses at every instant of the window exactly when it is shut. */
  lemma RefusesIffShut(s: System, route: Route, t: int)
    requires route in s.memory
    ensures RefusesThroughout(s, route, t) <==> Shut(s.memory[route], t)
  {
    assert InWindow(t, t + OPEN_DURATION);
    if RefusesThroughout(s, route, t) {
      assert Refuses(s, route, t + OPEN_DURATION);
    }
  }

  /** No request of the route is in the gap, and what memory has is shut. */
  predicate Quarantined(s: System, route: Route, t: int) {
    route in s.memory && Shut(s.memory[route], t) && route !in s.checked
  }

  /** A restart in the window would find a shut breaker, now and later. */
  ghost predicate Backed(s: System, route: Route, t: int) {
    && route in s.store && Shut(s.store[route], t)
    && forall x :: x in s.pending && x.route == route ==> Shut(x.breaker, t)
  }

  lemma QuarantinedStep(s: System, step: Step, route: Route, t: int)
    requires Quarantined(s, route, t) && Enabled(s, step) && Within([step], t)
    requires !step.Restart? && !(step.Force? && step.route == route)
    ensures Quarantined(Next(s, step), route, t)
  {
    assert [step][0] == step;
  }

  lemma BackedStep(s: System, step: Step, route: Route, t: int)
    requires Quarantined(s, route, t) && Backed(s, route, t) && Enabled(s, step) && Within([step], t)
    requires !(step.Force? && step.route == route) && (step.Restart? ==> step.loaded)
    ensures Quarantined(Next(s, step), route, t) && Backed(Next(s, step), route, t)
  {
    if !step.Restart? {
      QuarantinedStep(s, step, route, t);
    }
    assert [step][0] == step;
  }

  lemma {:induction false} QuarantineRun(s: System, steps: seq<Step>, route: Route, t: int)
    requires Quarantined(s, route, t) && Legal(s, steps) && NoForce(steps, route) && Within(steps, t)
    requires NoRestart(steps) || (Backed(s, route, t) && AllLoaded(steps))
    ensures Quarantined(Exec(s, steps), route, t)
    decreases |steps|
  {
    if steps != [] {
      assert Within([steps[0]], t);
      if !steps[0].Restart? {
        QuarantinedStep(s, steps[0], route, t);
      }
      if !NoRestart(steps) {
        BackedStep(s, steps[0], route, t);
      }
      QuarantineRun(Next(s, steps[0]), steps[1..], route, t);
    }
  }

  /** In a quarantined window no request of the route is admitted: each one that asks is
      refused, and none that asked earlier still writes its way through. */
  lemma QuarantineHolds(s: System, steps: seq<Step>, route: Route, t: int, k: nat)
    requires Quarantined(s, route, t) && Legal(s, steps) && NoForce(steps, route) && Within(steps, t)
    requires NoRestart(steps) || (Backed(s, route, t) && AllLoaded(steps))
    requires k < |steps|
    ensures (steps[k].Allow? || steps[k].Check?) && steps[k].route == route
            ==> Refuses(Exec(s, steps[..k]), route, steps[k].now)
    ensures !(steps[k].Commit? && steps[k].route == route)
  {
    assert steps == steps[..k] + steps[k..];
    ExecAppend(s, steps[..k], steps[k..]);
    QuarantineRun(s, steps[..k], route, t);
  }

  /** Every run of this process refuses the route throughout the window from `t`. */
  ghost predicate HoldsInProcess(s: System, route: Route, t: int) {
    forall steps | Legal(s, steps) && NoForce(steps, route) && NoRestart(steps) && Within(steps, t) ::
      RefusesThroughout(Exec(s, steps), route, t)
  }

  /** So does every run with restarts whose reloads succeed. */
  ghost predicate HoldsAcrossRestarts(s: System, route: Route, t: int) {
    forall steps | Legal(s, steps) && NoForce(steps, route) && AllLoaded(steps) && Within(steps, t) ::
      RefusesThroughout(Exec(s, steps), route, t)
  }

  lemma CommitReopens(s: System, route: Route, t: int)
    requires route in s.memory && route in s.checked
    ensures !HoldsInProcess(s, route, t) && !HoldsAcrossRestarts(s, route, t)
  {
    LateCommit(s, route, t);
    RefusesIffShut(Next(s, Commit(route, t)), route, t);
    assert Within([Commit(route, t)], t);
  }

  /** Exactly when a shut breaker is quarantined while the process lives. */
  lemma QuarantineIff(s: System, route: Route, t: int)
    requires route in s.memory && Shut(s.memory[route], t)
    ensures HoldsInProcess(s, route, t) <==> route !in s.checked
  {
    if route in s.checked {
      CommitReopens(s, route, t);
    } else {
      forall steps | Legal(s, steps) && NoForce(steps, route) && NoRestart(steps) && Within(steps, t)
        ensures RefusesThroughout(Exec(s, steps), route, t)
      {
        QuarantineRun(s, steps, route, t);
        RefusesIffShut(Exec(s, steps), route, t);
      }
    }
  }

  /** Exactly when the quarantine survives restarts: when, besides, the stored row and
      every snapshot on its way are shut as well. */
  lemma QuarantineAcrossRestartsIff(s: System, route: Route, t: int)
    requires route in s.memory && Shut(s.memory[route], t)
    ensures HoldsAcrossRestarts(s, route, t) <==> route !in s.checked && Backed(s, route, t)
  {
    if route in s.checked {
      CommitReopens(s, route, t);
    } else if !Backed(s, route, t) {
      UnbackedReopens(s, route, t);
    } else {
      forall steps | Legal(s, steps) && NoForce(steps, route) && AllLoaded(steps) && Within(steps, t)
        ensures RefusesThroughout(Exec(s, steps), route, t)
      {
        QuarantineRun(s, steps, route, t);
        RefusesIffShut(Exec(s, steps), route, t);
      }
    }
  }

  /** A restart brings back a row or a snapshot that is not shut. */
  lemma UnbackedReopens(s: System, route: Route, t: int)
    requires !Backed(s, route, t)
    ensures !HoldsAcrossRestarts(s, route, t)
  {
    if route in s.store && Shut(s.store[route], t) {
      var x :| x in s.pending && x.route == route && !Shut(x.breaker, t);
      LandAndRestart(s, x);
      var steps := [Land(x)] + [Restart(true)];
      RefusesIffShut(Exec(s, steps), route, t);
      assert Within(steps, t);
    } else {
      var steps := [Restart(true)];
      ExecThen(s, [], Restart(true));
      assert [] + steps == steps && InWindow(t, t);
      if route in s.store {
        RefusesIffShut(Exec(s, steps), route, t);
      } else {
        assert !Refuses(Exec(s, steps), route, t);
      }
    }
  }

  /** A failing reload is what remains: a backed quarantine holds at every point of a run
      if and only if every reload in it succeeds. */
  lemma {:induction false} QuarantineThroughoutIff(s: System, steps: seq<Step>, route: Route, t: int)
    requires Quarantined(s, route, t) && Backed(s, route, t)
    requires Legal(s, steps) && NoForce(steps, route) && Within(steps, t)
    ensures (forall k :: 0 <= k <= |steps| ==> RefusesThroughout(Exec(s, steps[..k]), route, t)) <==> AllLoaded(steps)
  {
    if k :| 0 <= k < |steps| && steps[k] == Restart(false) {
      LostAtRestart(s, steps, route, k);
      assert InWindow(t, t) && !Refuses(Exec(s, steps[..k + 1]), route, t);
    } else {
      forall k | 0 <= k <= |steps| ensures RefusesThroughout(Exec(s, steps[..k]), route, t) {
        LegalPrefix(s, steps, k);
        QuarantineRun(s, steps[..k], route, t);
        RefusesIffShut(Exec(s, steps[..k]), route, t);
      }
    }
  }

  /** The failure that opens a breaker quarantines its route for the next thirty seconds
      exactly when no request of the route is in the gap at that moment. */
  lemma OpeningQuarantinesIff(s: System, route: Route, now: int)
    requires Get(s, route).state != Open && AfterFailure(Get(s, route), now).state == Open
    ensures HoldsInProcess(Next(s, Failure(route, now)), route, now) <==> route !in s.checked
  {
    QuarantineIff(Next(s, Failure(route, now)), route, now);
  }

  /** Two requests in the gap, and the first of them writes. */
  lemma TwoInGap(s: System, route: Route, now: int)
    requires route in s.memory && s.memory[route].state == Open && Expired(s.memory[route], now)
    ensures var steps := [Check(route, now)] + [Check(route, now)] + [Commit(route, now)];
            && Legal(s, steps) && route in Exec(s, steps).checked
            && Get(Exec(s, steps), route).state == HalfOpen
  {
    var (check, commit) := (Check(route, now), Commit(route, now));
    assert [check] == [] + [check];
    ExecThen(s, [], check);
    ExecThen(s, [check], check);
    var t := Exec(s, [check] + [check]);
    assert t.memory == s.memory && t.checked == s.checked + multiset{route} + multiset{route};
    ExecThen(s, [check] + [check], commit);
  }

  /** A failing trial opens the breaker, and a request left in the gap reopens it at once. */
  lemma FailureThenCommit(s: System, steps: seq<Step>, route: Route, now: int)
    requires Legal(s, steps) && route in Exec(s, steps).checked && Get(Exec(s, steps), route).state == HalfOpen
    ensures var failed := steps + [Failure(route, now)];
            && Legal(s, failed + [Commit(route, now)])
            && Get(Exec(s, failed), route).state == Open && Get(Exec(s, failed), route).openedAt == now
            && Get(Exec(s, failed + [Commit(route, now)]), route).state == HalfOpen
  {
    ExecThen(s, steps, Failure(route, now));
    ExecThen(s, steps + [Failure(route, now)], Commit(route, now));
  }

  /** Two requests in the gap do break it: the first makes the breaker half-open, its
      failure opens it again, and at that very instant the second one makes it admit. */
  lemma GapBreaksQuarantine(s: System, route: Route, now: int)
    requires route in s.memory && s.memory[route].state == Open && Expired(s.memory[route], now)
    ensures var opening := [Check(route, now)] + [Check(route, now)] + [Commit(route, now)] + [Failure(route, now)];
            var steps := opening + [Commit(route, now)];
            && Legal(s, steps) && Within(steps, now)
            && Get(Exec(s, opening), route).state == Open && Get(Exec(s, opening), route).openedAt == now
            && forall t :: Admits(Get(Exec(s, steps), route), t)
  {
    TwoInGap(s, route, now);
    FailureThenCommit(s, [Check(route, now)] + [Check(route, now)] + [Commit(route, now)], route, now);
  }

  // ---------------------------------------------------------------- opening

  predicate Fails(step: Step, route: Route) { step.Failure? && step.route == route }

  function Failures(steps: seq<Step>, route: Route): nat
    decreases |steps|
  {
    if steps == [] then 0 else (if Fails(steps[0], route) then 1 else 0) + Failures(steps[1..], route)
  }

  /** A breaker that has counted `failures` since it was last reset, or was created. */
  predicate ResetAt(s: System, route: Route, failures: int) {
    Get(s, route).state == Closed && Get(s, route).failureCount == failures
  }

  /** A restart finds in the store what memory has counted; without a row, nothing was. */
  predicate KeepsCount(s: System, route: Route, loaded: bool) {
    var n := Get(s, route).failureCount;
    if loaded && route in s.store then s.store[route].state == Closed && s.store[route].failureCount == n else n == 0
  }

  /** Every restart that finds the breaker closed keeps its count. */
  predicate RestartsKeep(s: System, route: Route, steps: seq<Step>)
    decreases |steps|
  {
    steps != [] ==>
      && (steps[0].Restart? && Get(s, route).state == Closed ==> KeepsCount(s, route, steps[0].loaded))
      && RestartsKeep(Next(s, steps[0]), route, steps[1..])
  }

  lemma {:induction false} NoRestartKeeps(s: System, route: Route, steps: seq<Step>)
    requires NoRestart(steps)
    ensures RestartsKeep(s, route, steps)
    decreases |steps|
  {
    if steps != [] {
      NoRestartKeeps(Next(s, steps[0]), route, steps[1..]);
    }
  }

  lemma {:induction false} KeepsPrefix(s: System, route: Route, steps: seq<Step>, k: nat)
    requires RestartsKeep(s, route, steps) && k <= |steps|
    ensures RestartsKeep(s, route, steps[..k])
    decreases k
  {
    if k > 0 {
      KeepsPrefix(Next(s, steps[0]), route, steps[1..], k - 1);
      assert steps[..k][1..] == steps[1..][..k - 1];
    }
  }

  lemma CountStep(s: System, route: Route, n: int, step: Step)
    requires ResetAt(s, route, n) && route !in s.checked && Enabled(s, step)
    requires !(step.Force? && step.route == route) && (step.Restart? ==> KeepsCount(s, route, step.loaded))
    requires n + (if Fails(step, route) then 1 else 0) < FAILURE_THRESHOLD
    ensures ResetAt(Next(s, step), route, n + if Fails(step, route) then 1 else 0) && route !in Next(s, step).checked
  {
  }

  /** Below five failures since the last reset the breaker stays closed and counts them,
      whatever successes, other routes' forces, writes and count-keeping restarts lie between. */
  lemma {:induction false} ClosedBelowThreshold(s: System, route: Route, n: int, steps: seq<Step>)
    requires ResetAt(s, route, n) && route !in s.checked
    requires Legal(s, steps) && NoForce(steps, route) && RestartsKeep(s, route, steps)
    requires n + Failures(steps, route) < FAILURE_THRESHOLD
    ensures ResetAt(Exec(s, steps), route, n + Failures(steps, route)) && route !in Exec(s, steps).checked
    decreases |steps|
  {
    if steps != [] {
      CountStep(s, route, n, steps[0]);
      ClosedBelowThreshold(Next(s, steps[0]), route, if Fails(steps[0], route) then n + 1 else n, steps[1..]);
    }
  }

  /** A run keeps the breaker closed throughout if and only if it has fewer than `m`
      failures, and failure number `m` opens it at once. */
  ghost predicate OpensAt(s: System, route: Route, m: nat, steps: seq<Step>) {
    && ((forall k :: 0 <= k <= |steps| ==> Get(Exec(s, steps[..k]), route).state == Closed)
        <==> Failures(steps, route) < m)
    && forall k | 0 <= k < |steps| && Fails(steps[k], route) && Failures(steps[..k], route) + 1 == m ::
         var b := Get(Exec(s, steps[..k + 1]), route); b.state == Open && b.openedAt == steps[k].now
  }

  /** With `n` failures counted, the next five less `n` are what it takes. */
  lemma {:induction false} OpensAtFifthFailure(s: System, route: Route, n: nat, steps: seq<Step>)
    requires ResetAt(s, route, n) && n < FAILURE_THRESHOLD && route !in s.checked
    requires Legal(s, steps) && NoForce(steps, route) && RestartsKeep(s, route, steps)
    ensures OpensAt(s, route, FAILURE_THRESHOLD - n, steps)
  {
    var m := FAILURE_THRESHOLD - n;
    forall k | 0 <= k <= |steps| && Failures(steps[..k], route) < m
      ensures ResetAt(Exec(s, steps[..k]), route, n + Failures(steps[..k], route))
    {
      LegalPrefix(s, steps, k);
      KeepsPrefix(s, route, steps, k);
      ClosedBelowThreshold(s, route, n, steps[..k]);
    }
    forall k | 0 <= k < |steps| && Fails(steps[k], route) && Failures(steps[..k], route) + 1 == m
      ensures var b := Get(Exec(s, steps[..k + 1]), route); b.state == Open && b.openedAt == steps[k].now
    {
      assert steps[..k + 1] == steps[..k] + [steps[k]];
      ExecThen(s, steps[..k], steps[k]);
    }
    if Failures(steps, route) < m {
      forall k | 0 <= k <= |steps| ensures Failures(steps[..k], route) < m {
        assert steps == steps[..k] + steps[k..];
        FailuresAppend(steps[..k], steps[k..], route);
      }
    } else {
      var k := FailureNumber(steps, route, m);
      assert Get(Exec(s, steps[..k + 1]), route).state == Open;
    }
  }

  /** A request in the gap takes the breaker from closed to half-open after one failure. */
  lemma LateCommitOpens(s: System, route: Route)
    requires ResetAt(s, route, 0) && route in s.checked
    ensures var steps := [Failure(route, 0)] + [Commit(route, 0)];
            && Legal(s, steps) && Failures(steps, route) == 1
            && Get(Exec(s, steps[..2]), route).state == HalfOpen
  {
    var (failure, commit) := (Failure(route, 0), Commit(route, 0));
    assert [] + [failure] == [failure] && [failure][1..] == [] && [commit][1..] == [];
    ExecThen(s, [], failure);
    ExecThen(s, [failure], commit);
    FailuresAppend([failure], [commit], route);
    assert ([failure] + [commit])[..2] == [failure] + [commit];
  }

  /** From a reset every run of the process opens exactly at the fifth failure, if and
      only if no request of the route is in the gap: a late write needs no failure. */
  lemma OpensAtFifthFailureIff(s: System, route: Route)
    requires ResetAt(s, route, 0)
    ensures (forall steps | Legal(s, steps) && NoForce(steps, route) && NoRestart(steps) ::
               OpensAt(s, route, FAILURE_THRESHOLD, steps))
            <==> route !in s.checked
  {
    if route !in s.checked {
      forall steps | Legal(s, steps) && NoForce(steps, route) && NoRestart(steps)
        ensures OpensAt(s, route, FAILURE_THRESHOLD, steps)
      {
        NoRestartKeeps(s, route, steps);
        OpensAtFifthFailure(s, route, 0, steps);
      }
    } else {
      LateCommitOpens(s, route);
      assert !OpensAt(s, route, FAILURE_THRESHOLD, [Failure(route, 0)] + [Commit(route, 0)]);
    }
  }

  /** A restart can forget failures: after any run with four of them, a restart that finds
      no row and one more failure leave the breaker closed. */
  lemma RestartForgets(s: System, route: Route, steps: seq<Step>)
    requires Legal(s, steps) && Failures(steps, route) == FAILURE_THRESHOLD - 1
    ensures var longer := steps + [Restart(false)] + [Failure(route, 0)];
            && Legal(s, longer) && Failures(longer, route) == FAILURE_THRESHOLD
            && Get(Exec(s, longer), route).state == Closed && !OpensAt(s, route, FAILURE_THRESHOLD, longer)
  {
    var (restart, failure) := (Restart(false), Failure(route, 0));
    var most := steps + [restart];
    var longer := most + [failure];
    ExecThen(s, steps, restart);
    ExecThen(s, most, failure);
    FailuresAppend(steps, [restart], route);
    FailuresAppend(most, [failure], route);
    assert [restart][1..] == [] && [failure][1..] == [];
    assert longer[..|most|] == most && longer[..|most| + 1] == longer && longer[|most|] == failure;
  }

  /** Exactly when it does not: when it finds a closed row with the count that memory had,
      or, finding none, when there was nothing to forget. Then, and only then, every run of
      the new process opens after what was left of the five failures. */
  lemma RestartKeepsCountIff(s: System, route: Route, n: nat, loaded: bool)
    requires ResetAt(s, route, n) && n < FAILURE_THRESHOLD && AllSound(s, false)
    ensures var t := Next(s, Restart(loaded));
            (forall steps | Legal(t, steps) && NoForce(steps, route) && NoRestart(steps) ::
               OpensAt(t, route, FAILURE_THRESHOLD - n, steps))
            <==> KeepsCount(s, route, loaded)
  {
    var (t, m) := (Next(s, Restart(loaded)), FAILURE_THRESHOLD - n);
    var b := Get(t, route);
    assert Sound(b, false);
    if KeepsCount(s, route, loaded) {
      forall steps | Legal(t, steps) && NoForce(steps, route) && NoRestart(steps) ensures OpensAt(t, route, m, steps) {
        NoRestartKeeps(t, route, steps);
        OpensAtFifthFailure(t, route, n, steps);
      }
    } else if b.state != Closed {
      var none: seq<Step> := [];
      assert none[..0] == none && Get(Exec(t, none[..0]), route).state != Closed;
      assert Legal(t, none) && NoForce(none, route) && NoRestart(none);
      assert !OpensAt(t, route, m, none);
    } else if b.failureCount > n {
      var steps := Burst(t, route, FAILURE_THRESHOLD - b.failureCount);
      NoRestartKeeps(t, route, steps);
      OpensAtFifthFailure(t, route, b.failureCount, steps);
      assert !OpensAt(t, route, m, steps);
    } else {
      var steps := Burst(t, route, m);
      CountedShort(t, route, b.failureCount, m, steps);
    }
  }

  /** A count that is too low does not open in time. */
  lemma CountedShort(s: System, route: Route, n: int, m: nat, steps: seq<Step>)
    requires ResetAt(s, route, n) && n + m < FAILURE_THRESHOLD && route !in s.checked
    requires Legal(s, steps) && NoForce(steps, route) && NoRestart(steps) && Failures(steps, route) == m
    ensures !OpensAt(s, route, m, steps)
  {
    NoRestartKeeps(s, route, steps);
    forall k | 0 <= k <= |steps| ensures Get(Exec(s, steps[..k]), route).state == Closed {
      LegalPrefix(s, steps, k);
      KeepsPrefix(s, route, steps, k);
      assert steps == steps[..k] + steps[k..];
      FailuresAppend(steps[..k], steps[k..], route);
      ClosedBelowThreshold(s, route, n, steps[..k]);
    }
  }

  /** So many failures in a row. */
  lemma {:induction false} Burst(s: System, route: Route, m: nat) returns (steps: seq<Step>)
    ensures Legal(s, steps) && NoForce(steps, route) && NoRestart(steps) && Failures(steps, route) == m
    decreases m
  {
    steps := [];
    if m > 0 {
      var rest := Burst(Next(s, Failure(route, 0)), route, m - 1);
      steps := [Failure(route, 0)] + rest;
      assert steps[1..] == rest;
    }
  }

  lemma {:induction false} FailuresAppend(a: seq<Step>, b: seq<Step>, route: Route)
    ensures Failures(a + b, route) == Failures(a, route) + Failures(b, route)
    decreases |a|
  {
    if a == [] {
      assert a + b == b;
    } else {
      assert (a + b)[1..] == a[1..] + b;
      FailuresAppend(a[1..], b, route);
    }
  }

  lemma {:induction false} FailureNumber(steps: seq<Step>, route: Route, m: nat) returns (k: nat)
    requires Failures(steps, route) >= m > 0
    ensures k < |steps| && Fails(steps[k], route) && Failures(steps[..k], route) + 1 == m
    decreases |steps|
  {
    var n := |steps| - 1;
    assert steps == steps[..n] + [steps[n]] && [steps[n]][1..] == [];
    FailuresAppend(steps[..n], [steps[n]], route);
    if Failures(steps[..n], route) >= m {
      k := FailureNumber(steps[..n], route, m);
      assert steps[..n][..k] == steps[..k];
    } else {
      k := n;
    }
  }

  // ---------------------------------------------------------------- recovery

  /** A trial is under way: the breaker is half-open and not locked. */
  predicate OnTrial(s: System, route: Route) {
    route in s.memory && s.memory[route].state == HalfOpen && !s.memory[route].locked
  }

  /** No answer for `route` is recorded in these steps. */
  predicate NoAnswer(steps: seq<Step>, route: Route) {
    forall k :: 0 <= k < |steps| && (steps[k].Success? || steps[k].Failure?) ==> steps[k].route != route
  }

  /** A trial lasts until it is answered, whatever else the process does. */
  lemma {:induction false} TrialLasts(s: System, steps: seq<Step>, route: Route)
    requires OnTrial(s, route) && Legal(s, steps)
    requires NoForce(steps, route) && NoRestart(steps) && NoAnswer(steps, route)
    ensures OnTrial(Exec(s, steps), route)
    ensures route !in s.checked ==> route !in Exec(s, steps).checked
    decreases |steps|
  {
    if steps != [] {
      TrialLasts(Next(s, steps[0]), steps[1..], route);
    }
  }

  /** The answer decides the trial: a success closes the breaker with nothing counted, so
      that five more failures are what it takes to open it, and a failure opens it at once. */
  lemma TrialDecides(s: System, steps: seq<Step>, route: Route, now: int, later: seq<Step>)
    requires OnTrial(s, route) && route !in s.checked && Legal(s, steps)
    requires NoForce(steps, route) && NoRestart(steps) && NoAnswer(steps, route)
    ensures var closed := Exec(s, steps + [Success(route, now)]);
            && ResetAt(closed, route, 0)
            && (Legal(closed, later) && NoForce(later, route) && NoRestart(later) ==> OpensAt(closed, route, 5, later))
    ensures var failed := Get(Exec(s, steps + [Failure(route, now)]), route);
            failed.state == Open && failed.openedAt == now && !failed.locked
  {
    TrialLasts(s, steps, route);
    ExecThen(s, steps, Success(route, now));
    ExecThen(s, steps, Failure(route, now));
    var closed := Exec(s, steps + [Success(route, now)]);
    if Legal(closed, later) && NoForce(later, route) && NoRestart(later) {
      NoRestartKeeps(closed, route, later);
      OpensAtFifthFailure(closed, route, 0, later);
    }
  }

  /** The way back: more than thirty seconds after its opening an unlocked breaker admits a
      request, whose success resets it and whose failure opens it again. */
  lemma Recovers(s: System, route: Route, asked: int, answered: int)
    requires route in s.memory && s.memory[route].state == Open && !s.memory[route].locked
    requires asked - s.memory[route].openedAt > 30_000_000_000
    ensures Admits(s.memory[route], asked)
    ensures ResetAt(Exec(s, [Allow(route, asked)] + [Success(route, answered)]), route, 0)
    ensures var b := Get(Exec(s, [Allow(route, asked)] + [Failure(route, answered)]), route);
            b.state == Open && b.openedAt == answered
  {
    assert [] + [Allow(route, asked)] == [Allow(route, asked)];
    ExecThen(s, [], Allow(route, asked));
    ExecThen(s, [Allow(route, asked)], Success(route, answered));
    ExecThen(s, [Allow(route, asked)], Failure(route, answered));
  }

  /** The net effect of a force whose own write is settled before anything else happens. */
  lemma ForceSettled(s: System, route: Route, state: State, now: int)
    ensures var b := AfterForce(Get(s, route), state, now);
            var forced := Next(s, Force(route, state, now));
            && forced.memory == s.memory[route := b]
            && Next(forced, Land(Snapshot(route, b)))
                 == s.(memory := s.memory[route := b], store := s.store[route := b])
            && Next(forced, Drop(Snapshot(route, b))) == s.(memory := s.memory[route := b])
  {
    var one := multiset{Snapshot(route, AfterForce(Get(s, route), state, now))};
    assert s.pending + one - one == s.pending;
  }

  // ---------------------------------------------------------------- the manager

  lemma PutTwice(s: System, route: Route, a: Breaker, b: Breaker)
    ensures s.memory[route := a][route := b] == s.memory[route := b]
    ensures Put(s.(memory := s.memory[route := a]), route, b) == Put(s, route, b)
  {
  }

  class CircuitBreakerState {
    const routeID: Route
    var state: State
    var failureCount: int
    var lastFailureAt: int
    var lastSuccessAt: int
    var openedAt: int
    var halfOpenAt: int
    var locked: bool

    constructor (routeID: Route, b: Breaker)
      ensures this.routeID == routeID && Value() == b
    {
      this.routeID := routeID;
      state, failureCount, locked := b.state, b.failureCount, b.locked;
      lastFailureAt, lastSuccessAt := b.lastFailureAt, b.lastSuccessAt;
      openedAt, halfOpenAt := b.openedAt, b.halfOpenAt;
    }

    function Value(): Breaker
      reads this
    {
      Breaker(state, failureCount, lastFailureAt, lastSuccessAt, openedAt, halfOpenAt, locked)
    }

    method Succeed(now: int)
      modifies this
      ensures Value() == AfterSuccess(old(Value()), now)
      ensures Value() == if old(state) == HalfOpen && !old(locked)
                         then old(Value()).(state := Closed, failureCount := 0, lastSuccessAt := now)
                         else old(Value()).(lastSuccessAt := now)
    {
      lastSuccessAt := now;
      if state == HalfOpen && !locked {
        state := Closed;
        failureCount := 0;
      }
    }

    method Fail(now: int)
      modifies this
      ensures Value() == AfterFailure(old(Value()), now)
      ensures failureCount == old(failureCount) + 1 && lastFailureAt == now
      ensures lastSuccessAt == old(lastSuccessAt) && halfOpenAt == old(halfOpenAt) && locked == old(locked)
      ensures if old(state) == HalfOpen || failureCount >= 5 then state == Open && openedAt == now
              else state == old(state) && openedAt == old(openedAt)
    {
      failureCount := failureCount + 1;
      lastFailureAt := now;
      if state == HalfOpen {
        state := Open;
        openedAt := now;
      } else if failureCount >= FAILURE_THRESHOLD {
        state := Open;
        openedAt := now;
      }
    }

    method Override(forced: State, now: int)
      modifies this
      ensures Value() == AfterForce(old(Value()), forced, now)
      ensures state == forced && lastFailureAt == old(lastFailureAt) && lastSuccessAt == old(lastSuccessAt)
      ensures failureCount == (if forced == Closed then 0 else old(failureCount))
      ensures openedAt == (if forced == Open then now else old(openedAt))
      ensures halfOpenAt == (if forced == HalfOpen then now else old(halfOpenAt))
      ensures locked == if forced.Other? then old(locked) else forced == Open
    {
      state := forced;
      match forced {
        case Closed =>
          failureCount := 0;
          locked := false;
        case Open =>
          openedAt := now;
          locked := true;
        case HalfOpen =>
          halfOpenAt := now;
          locked := false;
        case Other(_) =>
      }
    }
  }

  /** The circuit_breakers table, and the upserts handed to goroutines but not yet run. */
  class BreakerStore {
    var rows: map<Route, Breaker>
    var pending: multiset<Snapshot>

    constructor ()
      ensures rows == map[] && pending == multiset{}
    {
      rows, pending := map[], multiset{};
    }

    /** `fails` is the database's verdict on this write. */
    method Upsert(snapshot: Snapshot, fails: bool) returns (ok: bool)
      modifies this`rows
      ensures ok == !fails
      ensures rows == if ok then old(rows)[snapshot.route := snapshot.breaker] else old(rows)
    {
      ok := !fails;
      if ok {
        rows := rows[snapshot.route := snapshot.breaker];
      }
    }
  }

  class CircuitBreakerManager {
    var breakers: map<Route, CircuitBreakerState>
    const store: BreakerStore

    constructor (store: BreakerStore)
      ensures Valid() && this.store == store && breakers == map[]
    {
      breakers := map[];
      this.store := store;
    }

    ghost predicate Valid()
      reads this
    {
      forall r :: r in breakers ==> breakers[r].routeID == r
    }

    /** The system this process and its store form, with no request inside AllowRequest. */
    ghost function Contents(): System
      reads this, breakers.Values, store
    {
      System(map r | r in breakers :: breakers[r].Value(), store.rows, store.pending, multiset{})
    }

    /** After a change to one breaker's fields the others are as they were. */
    twostate lemma OneChanged(cb: CircuitBreakerState)
      requires old(Valid()) && breakers == old(breakers) && cb.routeID in breakers && breakers[cb.routeID] == cb
      requires forall r :: r in breakers && r != cb.routeID ==> unchanged(breakers[r])
      ensures Contents().memory == old(Contents()).memory[cb.routeID := cb.Value()]
    {
    }

    method AllowRequest(route: Route, now: int) returns (ok: bool)
      requires Valid()
      modifies breakers.Values
      ensures Valid() && ok == (route in old(Contents()).memory ==> Admits(old(Contents()).memory[route], now))
      ensures ok <==> route in old(breakers) && old(breakers[route].state) == Open ==>
                        !old(breakers[route].locked) && now - old(breakers[route].openedAt) > 30_000_000_000
      ensures Contents() == Next(old(Contents()), Allow(route, now))
    {
      if route !in breakers {
        return true;
      }
      var cb := breakers[route];
      match cb.state {
        case Closed => ok := true;
        case Open =>
          ok := !cb.locked && now - cb.openedAt > OPEN_DURATION;
          if ok {
            cb.state := HalfOpen;
            cb.halfOpenAt := now;
          }
        case HalfOpen => ok := true;
        case Other(_) => ok := true;
      }
    }

    method RecordSuccess(route: Route, now: int)
      requires Valid()
      modifies breakers.Values, store`pending
      ensures Valid() && Contents() == Next(old(Contents()), Success(route, now))
    {
      if route !in breakers {
        return;
      }
      var cb := breakers[route];
      cb.Succeed(now);
      OneChanged(cb);
      PersistAsync(cb);
    }

    method RecordFailure(route: Route, now: int)
      requires Valid()
      modifies this`breakers, breakers.Values, store`pending
      ensures Valid() && forall r :: r in breakers && r !in old(breakers) ==> fresh(breakers[r])
      ensures Contents() == Next(old(Contents()), Failure(route, now))
    {
      ghost var s := Contents();
      var cb := GetOrCreate(route);
      FailOn(cb, now);
      PutTwice(s, route, Get(s, route), AfterFailure(Get(s, route), now));
    }

    method FailOn(cb: CircuitBreakerState, now: int)
      requires Valid() && cb.routeID in breakers && breakers[cb.routeID] == cb
      modifies cb, store`pending
      ensures Valid() && Contents() == Put(old(Contents()), cb.routeID, AfterFailure(old(cb.Value()), now))
    {
      cb.Fail(now);
      OneChanged(cb);
      PersistAsync(cb);
    }

    method GetOrCreate(route: Route) returns (cb: CircuitBreakerState)
      requires Valid()
      modifies this`breakers
      ensures Valid() && cb.routeID == route && breakers == old(breakers)[route := cb]
      ensures cb.Value() == Get(old(Contents()), route)
      ensures Contents() == old(Contents()).(memory := old(Contents()).memory[route := Get(old(Contents()), route)])
      ensures if route in old(breakers) then cb == old(breakers)[route] else fresh(cb)
    {
      if route !in breakers {
        cb := new CircuitBreakerState(route, FRESH);
        breakers := breakers[route := cb];
      } else {
        cb := breakers[route];
      }
    }

    method GetLocked(route: Route) returns (locked: bool)
      ensures locked == (route in Contents().memory && Contents().memory[route].locked)
    {
      locked := route in breakers && breakers[route].locked;
    }

    method GetState(route: Route, now: int) returns (state: State)
      ensures state == if route in Contents().memory then Reported(Contents().memory[route], now) else Closed
      ensures state == if route !in breakers then Closed
                       else if breakers[route].state == Open && !breakers[route].locked
                               && now - breakers[route].openedAt > 30_000_000_000 then HalfOpen
                       else breakers[route].state
    {
      if route !in breakers {
        return Closed;
      }
      var cb := breakers[route];
      if cb.state == Open && !cb.locked && now - cb.openedAt > OPEN_DURATION {
        return HalfOpen;
      }
      return cb.state;
    }

    /** Run with nothing in between, a forced state is in memory whether or not its
        synchronous write succeeds, and in the store when it does. */
    method ForceState(route: Route, state: State, now: int, upsertFails: bool) returns (ok: bool)
      requires Valid()
      modifies this`breakers, breakers.Values, store`rows
      ensures Valid() && forall r :: r in breakers && r !in old(breakers) ==> fresh(breakers[r])
      ensures ok == !upsertFails
      ensures var (s, b) := (old(Contents()), AfterForce(Get(old(Contents()), route), state, now));
              Contents() == s.(memory := s.memory[route := b], store := if ok then s.store[route := b] else s.store)
    {
      ghost var s := Contents();
      var cb := GetOrCreate(route);
      ok := ForceOn(cb, state, now, upsertFails);
      PutTwice(s, route, Get(s, route), AfterForce(Get(s, route), state, now));
    }

    method ForceOn(cb: CircuitBreakerState, state: State, now: int, upsertFails: bool) returns (ok: bool)
      requires Valid() && cb.routeID in breakers && breakers[cb.routeID] == cb
      modifies cb, store`rows
      ensures Valid() && ok == !upsertFails
      ensures var (s, b) := (old(Contents()), AfterForce(old(cb.Value()), state, now));
              Contents() == s.(memory := s.memory[cb.routeID := b],
                               store := if ok then s.store[cb.routeID := b] else s.store)
    {
      cb.Override(state, now);
      OneChanged(cb);
      ok := store.Upsert(Snapshot(cb.routeID, cb.Value()), upsertFails);
    }

    method PersistAsync(cb: CircuitBreakerState)
      modifies store`pending
      ensures store.pending == old(store.pending) + multiset{Snapshot(cb.routeID, cb.Value())}
    {
      store.pending := store.pending + multiset{Snapshot(cb.routeID, cb.Value())};
    }

    method LoadFromStore(listFails: bool)
      requires Valid()
      modifies this`breakers
      ensures Valid() && forall r :: r in breakers && r in store.rows && !listFails ==> fresh(breakers[r])
      ensures Contents() == Load(old(Contents()), !listFails)
      ensures Contents().memory == if listFails then old(Contents()).memory else old(Contents()).memory + store.rows
    {
      if listFails {
        return;
      }
      var records := store.rows.Keys;
      while records != {}
        invariant records <= store.rows.Keys && Valid()
        invariant forall r :: r in store.rows && r !in records ==> r in breakers && fresh(breakers[r])
        invariant breakers.Keys == old(breakers.Keys) + (store.rows.Keys - records)
        invariant forall r :: r in breakers && (r in records || r !in store.rows) ==>
                    r in old(breakers) && breakers[r] == old(breakers[r])
        invariant forall r :: r in store.rows && r !in records ==> breakers[r].Value() == store.rows[r]
        decreases records
      {
        var r :| r in records;
        var restored := new CircuitBreakerState(r, store.rows[r]);
        breakers := breakers[r := restored];
        records := records - {r};
      }
      assert Contents().memory == old(Contents()).memory + store.rows;
    }
  }
}
