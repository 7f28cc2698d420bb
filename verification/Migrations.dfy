/** The migration runner as a crash-and-resume protocol. A schema is any value, a
    statement a partial function on it; a migration's programmatic step is its last statement. */
module Migrations {
  import opened Options

  type Statement<!S> = S -> Option<S>

  datatype Migration<!S> = Migration(version: int, statements: seq<Statement<S>>)

  datatype Db<S> = Db(schema: S, recorded: set<int>)

  /** What the environment does to one migration's transaction: nothing; fail or crash
      before the commit takes effect; or commit and then fail or crash. */
  datatype Fault = NoFault | RolledBack | CommittedThenLost

  type Environment = nat -> Fault

  function Execute<S>(schema: S, statements: seq<Statement<S>>): Option<S> {
    if statements == [] then Some(schema)
    else match statements[0](schema)
      case None => None
      case Some(next) => Execute(next, statements[1..])
  }

  /** One transaction: all statements and the version row, or nothing. */
  function Transact<S>(db: Db<S>, m: Migration<S>, fault: Fault): (bool, Db<S>) {
    match Execute(db.schema, m.statements)
    case None => (false, db)
    case Some(schema) =>
      if fault == RolledBack || m.version in db.recorded then (false, db)
      else (fault == NoFault, Db(schema, db.recorded + {m.version}))
  }

  /** The loop from position `i`, with the versions read at the start of the run. */
  function RunFrom<S>(db: Db<S>, applied: set<int>, ms: seq<Migration<S>>, i: nat, env: Environment): (bool, Db<S>)
    requires i <= |ms|
    decreases |ms| - i
  {
    if i == |ms| then (true, db)
    else if ms[i].version in applied then RunFrom(db, applied, ms, i + 1, env)
    else
      var (ok, db') := Transact(db, ms[i], env(i));
      if ok then RunFrom(db', applied, ms, i + 1, env) else (false, db')
  }

  function Run<S>(db: Db<S>, ms: seq<Migration<S>>, env: Environment): (bool, Db<S>) {
    RunFrom(db, db.recorded, ms, 0, env)
  }

  // ---------------------------------------------------------------- traces

  /** The schemas that the statements, one after the other, lead through from `schema`. */
  ghost predicate Leads<S(!new)>(schema: S, statements: seq<Statement<S>>, trace: seq<S>) {
    && |trace| == |statements| + 1 && trace[0] == schema
    && forall i :: 0 <= i < |statements| ==> statements[i](trace[i]) == Some(trace[i + 1])
  }

  lemma LeadsOn<S(!new)>(schema: S, statements: seq<Statement<S>>, trace: seq<S>)
    requires statements != []
    ensures Leads(schema, statements, trace)
            <==> |trace| > 1 && trace[0] == schema && statements[0](schema) == Some(trace[1])
                 && Leads(trace[1], statements[1..], trace[1..])
  {
    if |trace| > 1 && Leads(trace[1], statements[1..], trace[1..]) {
      forall i | 1 <= i < |statements| ensures statements[i](trace[i]) == Some(trace[i + 1]) {
        assert statements[1..][i - 1](trace[1..][i - 1]) == Some(trace[1..][i]);
      }
    }
  }

  /** The statements succeed exactly when they lead through one schema after the other;
      what they leave is the last of these. */
  lemma {:induction false} ExecuteIff<S(!new)>(schema: S, statements: seq<Statement<S>>)
    ensures forall trace :: Leads(schema, statements, trace) ==>
              Execute(schema, statements) == Some(trace[|statements|])
    ensures Execute(schema, statements).Some? ==> exists trace :: Leads(schema, statements, trace)
    decreases |statements|
  {
    if statements == [] {
      assert Leads(schema, statements, [schema]);
    } else if statements[0](schema).Some? {
      var next := statements[0](schema).value;
      ExecuteIff(next, statements[1..]);
      forall trace | Leads(schema, statements, trace) ensures Execute(schema, statements) == Some(trace[|statements|]) {
        LeadsOn(schema, statements, trace);
      }
      if Execute(schema, statements).Some? {
        var rest :| Leads(next, statements[1..], rest);
        LeadsOn(schema, statements, [schema] + rest);
        assert ([schema] + rest)[1..] == rest;
        assert Leads(schema, statements, [schema] + rest);
      }
    } else {
      forall trace | Leads(schema, statements, trace) ensures false {
        LeadsOn(schema, statements, trace);
      }
    }
  }

  lemma {:induction false} ExecuteAppend<S>(schema: S, a: seq<Statement<S>>, b: seq<Statement<S>>)
    ensures Execute(schema, a + b)
              == match Execute(schema, a) case None => None case Some(next) => Execute(next, b)
    decreases |a|
  {
    if a == [] {
      assert a + b == b;
    } else {
      assert (a + b)[1..] == a[1..] + b;
      if a[0](schema).Some? {
        ExecuteAppend(a[0](schema).value, a[1..], b);
      }
    }
  }

  /** A statement that fails on the schema that those before it have left fails them all. */
  lemma FailureStops<S(!new)>(schema: S, statements: seq<Statement<S>>, k: nat, trace: seq<S>)
    requires k < |statements| && Leads(schema, statements[..k], trace) && statements[k](trace[k]) == None
    ensures Execute(schema, statements) == None
  {
    ExecuteIff(schema, statements[..k]);
    ExecuteAppend(schema, statements[..k], statements[k..]);
    assert statements == statements[..k] + statements[k..];
  }

  // ---------------------------------------------------------------- prefixes

  /** The schema after the first `k` migrations. */
  function Fold<S>(init: S, ms: seq<Migration<S>>, k: nat): Option<S>
    requires k <= |ms|
  {
    if k == 0 then Some(init)
    else match Fold(init, ms, k - 1)
      case None => None
      case Some(schema) => Execute(schema, ms[k - 1].statements)
  }

  /** The statements of the first `k` migrations, in order. */
  function StatementsOf<S>(ms: seq<Migration<S>>, k: nat): seq<Statement<S>>
    requires k <= |ms|
  {
    if k == 0 then [] else StatementsOf(ms, k - 1) + ms[k - 1].statements
  }

  /** The fold is what all the statements in order lead to, if they lead anywhere. */
  lemma {:induction false} FoldIff<S(!new)>(init: S, ms: seq<Migration<S>>, k: nat)
    requires k <= |ms|
    ensures Fold(init, ms, k) == Execute(init, StatementsOf(ms, k))
    ensures forall trace :: Leads(init, StatementsOf(ms, k), trace) ==>
              Fold(init, ms, k) == Some(trace[|StatementsOf(ms, k)|])
    ensures Fold(init, ms, k).Some? ==> exists trace :: Leads(init, StatementsOf(ms, k), trace)
    decreases k
  {
    if k > 0 {
      FoldIff(init, ms, k - 1);
      ExecuteAppend(init, StatementsOf(ms, k - 1), ms[k - 1].statements);
    }
    ExecuteIff(init, StatementsOf(ms, k));
  }

  function Versions<S>(ms: seq<Migration<S>>, k: nat): set<int>
    requires k <= |ms|
  {
    set i | 0 <= i < k :: ms[i].version
  }

  ghost predicate Distinct<S>(ms: seq<Migration<S>>) {
    forall i, j :: 0 <= i < j < |ms| ==> ms[i].version != ms[j].version
  }

  /** The database is the fold of the first `k` migrations and records exactly those. */
  ghost predicate AtPrefix<S>(db: Db<S>, init: S, ms: seq<Migration<S>>, k: nat) {
    k <= |ms| && Fold(init, ms, k) == Some(db.schema) && db.recorded == Versions(ms, k)
  }

  /** One run, under any faults, of any prefix of the list (an older or a newer
      release), moves the database from one prefix to another and never back. */
  lemma {:induction false} RunFromPrefix<S>(
      db: Db<S>, applied: set<int>, init: S, ms: seq<Migration<S>>, n: nat, a: nat, i: nat, k: nat, env: Environment)
      returns (k': nat)
    requires Distinct(ms) && i <= n <= |ms| && AtPrefix(db, init, ms, k)
    requires a <= k && applied == Versions(ms, a) && (if i <= a then k == a else k == i)
    ensures k <= k' && AtPrefix(RunFrom(db, applied, ms[..n], i, env).1, init, ms, k')
    ensures RunFrom(db, applied, ms[..n], i, env).0 ==> k' == if k >= n then k else n
    ensures k' <= if k >= n then k else n
    decreases n - i
  {
    if i == n {
      k' := k;
    } else if i < a {
      k' := RunFromPrefix(db, applied, init, ms, n, a, i + 1, k, env);
    } else {
      assert ms[i].version !in applied && ms[i].version !in db.recorded;
      var (ok, db') := Transact(db, ms[i], env(i));
      if Execute(db.schema, ms[i].statements).Some? && env(i) != RolledBack {
        assert Versions(ms, i + 1) == Versions(ms, i) + {ms[i].version};
        if ok {
          k' := RunFromPrefix(db', applied, init, ms, n, a, i + 1, i + 1, env);
        } else {
          k' := i + 1;
        }
      } else {
        k' := k;
      }
    }
  }

  lemma RunPrefix<S>(db: Db<S>, init: S, ms: seq<Migration<S>>, n: nat, k: nat, env: Environment) returns (k': nat)
    requires Distinct(ms) && n <= |ms| && AtPrefix(db, init, ms, k)
    ensures k <= k' && AtPrefix(Run(db, ms[..n], env).1, init, ms, k')
    ensures Run(db, ms[..n], env).0 ==> k' == if k >= n then k else n
    ensures k' <= if k >= n then k else n
  {
    k' := RunFromPrefix(db, db.recorded, init, ms, n, k, 0, k, env);
  }

  // ---------------------------------------------------------------- histories

  /** One start of the server: how many migrations its release knows, and what befalls it. */
  datatype Start = Start(known: nat, env: Environment)

  function Restarted<S>(db: Db<S>, ms: seq<Migration<S>>, starts: seq<Start>): Db<S>
    requires forall s :: s in starts ==> s.known <= |ms|
  {
    if starts == [] then db
    else
      var last := starts[|starts| - 1];
      Run(Restarted(db, ms, starts[..|starts| - 1]), ms[..last.known], last.env).1
  }

  /** After any history of interrupted, failing and completed runs the database equals
      the fold of some prefix, with exactly that prefix recorded. */
  lemma {:induction false} AlwaysAPrefix<S>(init: S, ms: seq<Migration<S>>, starts: seq<Start>) returns (k: nat)
    requires Distinct(ms) && forall s :: s in starts ==> s.known <= |ms|
    ensures AtPrefix(Restarted(Db(init, {}), ms, starts), init, ms, k)
  {
    if starts == [] {
      k := 0;
    } else {
      var n := |starts| - 1;
      k := AlwaysAPrefix(init, ms, starts[..n]);
      k := RunPrefix(Restarted(Db(init, {}), ms, starts[..n]), init, ms, starts[n].known, k, starts[n].env);
    }
  }

  function Calm(): Environment { (i: nat) => NoFault }

  /** A fault-free run from scratch completes exactly when every migration applies in turn. */
  lemma {:induction false} CleanRunFrom<S>(db: Db<S>, init: S, ms: seq<Migration<S>>, i: nat)
    requires Distinct(ms) && AtPrefix(db, init, ms, i)
    ensures RunFrom(db, {}, ms, i, Calm()).0 <==> Fold(init, ms, |ms|).Some?
    decreases |ms| - i
  {
    if i < |ms| {
      assert ms[i].version !in db.recorded;
      match Execute(db.schema, ms[i].statements)
      case None => FoldStuck(init, ms, i + 1, |ms|);
      case Some(schema) =>
        assert Versions(ms, i + 1) == Versions(ms, i) + {ms[i].version};
        CleanRunFrom(Db(schema, db.recorded + {ms[i].version}), init, ms, i + 1);
    }
  }

  lemma {:induction false} FoldStuck<S>(init: S, ms: seq<Migration<S>>, i: nat, j: nat)
    requires i <= j <= |ms| && Fold(init, ms, i) == None
    ensures Fold(init, ms, j) == None
    decreases j
  {
    if i < j {
      FoldStuck(init, ms, i, j - 1);
    }
  }

  /** Resuming is equivalent to one clean run: whatever happened before, a run of the
      whole list that completes leaves the database a single fault-free run from scratch
      would have left; and from then on no run, under any faults, changes it. */
  lemma CompletedRunIsCleanRun<S>(init: S, ms: seq<Migration<S>>, starts: seq<Start>, env: Environment)
    requires Distinct(ms) && forall s :: s in starts ==> s.known <= |ms|
    ensures var (ok, db) := Run(Restarted(Db(init, {}), ms, starts), ms, env);
            ok ==> && Run(Db(init, {}), ms, Calm()) == (true, db)
                   && forall later: Environment :: Run(db, ms, later) == (true, db)
  {
    var before := Restarted(Db(init, {}), ms, starts);
    var k := AlwaysAPrefix(init, ms, starts);
    assert ms[..|ms|] == ms;
    var k' := RunPrefix(before, init, ms, |ms|, k, env);
    var (ok, db) := Run(before, ms, env);
    if ok {
      assert AtPrefix(Db(init, {}), init, ms, 0);
      CleanRunFrom(Db(init, {}), init, ms, 0);
      var c := RunPrefix(Db(init, {}), init, ms, |ms|, 0, Calm());
      forall later: Environment ensures Run(db, ms, later) == (true, db) {
        NothingPending(db, ms, 0, later);
      }
    }
  }

  lemma {:induction false} NothingPending<S>(db: Db<S>, ms: seq<Migration<S>>, i: nat, env: Environment)
    requires i <= |ms| && forall j :: i <= j < |ms| ==> ms[j].version in db.recorded
    ensures RunFrom(db, db.recorded, ms, i, env) == (true, db)
    decreases |ms| - i
  {
    if i < |ms| {
      NothingPending(db, ms, i + 1, env);
    }
  }

  // ---------------------------------------------------------------- servers starting at once

  /** A server in its run: the migrations its release knows, the versions it read at the
      start, and its position; one that failed has stopped. */
  datatype Server = Server(known: nat, applied: set<int>, at: nat, stopped: bool)

  datatype Cluster<S> = Cluster(db: Db<S>, servers: seq<Server>)

  /** A server starts and reads the versions, or deals with the migration at its position. */
  datatype Step = Begin(known: nat) | Advance(server: nat, fault: Fault)

  predicate Enabled<S>(c: Cluster<S>, ms: seq<Migration<S>>, step: Step) {
    match step
    case Begin(known) => known <= |ms|
    case Advance(i, _) =>
      i < |c.servers| && !c.servers[i].stopped && c.servers[i].at < c.servers[i].known <= |ms|
  }

  function Next<S>(c: Cluster<S>, ms: seq<Migration<S>>, step: Step): Cluster<S>
    requires Enabled(c, ms, step)
  {
    match step
    case Begin(known) => c.(servers := c.servers + [Server(known, c.db.recorded, 0, false)])
    case Advance(i, fault) =>
      var s := c.servers[i];
      if ms[s.at].version in s.applied then c.(servers := c.servers[i := s.(at := s.at + 1)])
      else
        var (ok, db) := Transact(c.db, ms[s.at], fault);
        Cluster(db, c.servers[i := if ok then s.(at := s.at + 1) else s.(stopped := true)])
  }

  predicate Legal<S>(c: Cluster<S>, ms: seq<Migration<S>>, steps: seq<Step>)
    decreases |steps|
  {
    steps == [] || (Enabled(c, ms, steps[0]) && Legal(Next(c, ms, steps[0]), ms, steps[1..]))
  }

  function Exec<S>(c: Cluster<S>, ms: seq<Migration<S>>, steps: seq<Step>): Cluster<S>
    requires Legal(c, ms, steps)
    decreases |steps|
  {
    if steps == [] then c else Exec(Next(c, ms, steps[0]), ms, steps[1..])
  }

  /** Every server has read a prefix and got no further than the database. */
  ghost predicate Ordered<S>(c: Cluster<S>, ms: seq<Migration<S>>, k: nat)
    requires k <= |ms|
  {
    forall i :: 0 <= i < |c.servers| ==> c.servers[i].at <= k && c.servers[i].applied <= Versions(ms, k)
  }

  /** One step moves the database by at most one migration: whoever comes second to a
      migration finds its version recorded, and its transaction is rolled back. */
  lemma ClusterStep<S>(c: Cluster<S>, init: S, ms: seq<Migration<S>>, k: nat, step: Step) returns (k': nat)
    requires Distinct(ms) && AtPrefix(c.db, init, ms, k) && Ordered(c, ms, k) && Enabled(c, ms, step)
    ensures k <= k' <= k + 1 && k' <= |ms|
    ensures AtPrefix(Next(c, ms, step).db, init, ms, k') && Ordered(Next(c, ms, step), ms, k')
  {
    k' := k;
    if step.Advance? {
      var s := c.servers[step.server];
      if s.at == k {
        assert ms[k].version !in Versions(ms, k);
        assert Versions(ms, k + 1) == Versions(ms, k) + {ms[k].version};
        if ms[k].version in Next(c, ms, step).db.recorded {
          k' := k + 1;
        }
      } else {
        assert ms[s.at].version in Versions(ms, k);
      }
    }
  }

  /** Any number of servers, of any releases, starting and failing at any time: the database
      always equals the fold of some prefix with exactly that prefix recorded, and a server
      that reaches the end of its list finds all of it there. */
  lemma {:induction false} ClusterAtPrefix<S>(
      c: Cluster<S>, init: S, ms: seq<Migration<S>>, k: nat, steps: seq<Step>) returns (k': nat)
    requires Distinct(ms) && AtPrefix(c.db, init, ms, k) && Ordered(c, ms, k) && Legal(c, ms, steps)
    ensures k <= k' && AtPrefix(Exec(c, ms, steps).db, init, ms, k')
    ensures Ordered(Exec(c, ms, steps), ms, k')
    decreases |steps|
  {
    k' := k;
    if steps != [] {
      k' := ClusterStep(c, init, ms, k, steps[0]);
      k' := ClusterAtPrefix(Next(c, ms, steps[0]), init, ms, k', steps[1..]);
    }
  }

  lemma ConcurrentStartsKeepAPrefix<S>(init: S, ms: seq<Migration<S>>, steps: seq<Step>) returns (k: nat)
    requires Distinct(ms) && Legal(Cluster(Db(init, {}), []), ms, steps)
    ensures var c := Exec(Cluster(Db(init, {}), []), ms, steps);
            && AtPrefix(c.db, init, ms, k)
            && forall i :: 0 <= i < |c.servers| && c.servers[i].at == c.servers[i].known ==> c.servers[i].known <= k
  {
    k := ClusterAtPrefix(Cluster(Db(init, {}), []), init, ms, 0, steps);
  }

  // ---------------------------------------------------------------- the runner

  class Database<S(!new)> {
    var schema: S
    var recorded: set<int>

    constructor (schema: S)
      ensures Contents() == Db(schema, {})
    {
      this.schema, recorded := schema, {};
    }

    function Contents(): Db<S>
      reads this
    {
      Db(schema, recorded)
    }

    /** Statement by statement on the transaction's own copy; only a commit writes. */
    method ApplyMigration(m: Migration<S>, fault: Fault) returns (ok: bool)
      modifies this
      ensures (ok, Contents()) == Transact(old(Contents()), m, fault)
      ensures fault != RolledBack && m.version !in old(recorded) ==>
                forall trace :: Leads(old(schema), m.statements, trace) ==>
                  && schema == trace[|m.statements|] && recorded == old(recorded) + {m.version}
                  && ok == (fault == NoFault)
      ensures (forall trace :: !Leads(old(schema), m.statements, trace)) ==>
                !ok && schema == old(schema) && recorded == old(recorded)
      ensures fault == RolledBack || m.version in old(recorded) ==>
                !ok && schema == old(schema) && recorded == old(recorded)
    {
      ExecuteIff(schema, m.statements);
      var tx := schema;
      var k := 0;
      while k < |m.statements|
        invariant 0 <= k <= |m.statements|
        invariant Execute(schema, m.statements) == Execute(tx, m.statements[k..])
        invariant schema == old(schema) && recorded == old(recorded)
      {
        match m.statements[k](tx) {
          case None => return false;
          case Some(next) => tx := next;
        }
        k := k + 1;
      }
      if fault == RolledBack || m.version in recorded {
        return false;
      }
      schema, recorded := tx, recorded + {m.version};
      return fault == NoFault;
    }

    method RunMigrations(ms: seq<Migration<S>>, env: Environment) returns (ok: bool)
      modifies this
      ensures (ok, Contents()) == Run(old(Contents()), ms, env)
    {
      var applied := recorded;
      var i := 0;
      while i < |ms|
        invariant 0 <= i <= |ms|
        invariant Run(old(Contents()), ms, env) == RunFrom(Contents(), applied, ms, i, env)
      {
        if ms[i].version !in applied {
          ok := ApplyMigration(ms[i], env(i));
          if !ok {
            return;
          }
        }
        i := i + 1;
      }
      ok := true;
    }
  }
}
