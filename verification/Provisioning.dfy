/** Grant provisioning: any number of agents exchange a grant secret for a token, one
    store call at a time. A grant limits how many tokens it can issue. */
module Provisioning {

  datatype Grant = Grant(id: string, hash: string, maxUses: int, useCount: int, active: bool, expiresAt: int)

  /** A token together with the grant it was issued from. */
  datatype Issue = Issue(token: string, grant: string)

  /** Where one call of the handler has got to. */
  datatype Call =
    | Arrived(hash: string)
    | Holding(grant: Grant)
    | Counted(grant: Grant)
    | Issued(issue: Issue)
    | Answered

  /** `grants` is the table by primary key and `index` its unique index on the hash;
      `tokens` and `issuances` are the rows written. The rest records the run: the limit
      each grant was created with, the increments that succeeded, and the counted calls
      that ended without a token. */
  datatype System = System(
    grants: map<string, Grant>,
    index: map<string, string>,
    tokens: seq<Issue>,
    issuances: seq<Issue>,
    calls: seq<Call>,
    limits: map<string, int>,
    increments: multiset<string>,
    failures: multiset<string>)

  const EMPTY: System := System(map[], map[], [], [], [], map[], multiset{}, multiset{})

  datatype Step =
    | CreateGrant(id: string, hash: string, maxUses: int, expiresAt: int)
    | DeleteGrant(id: string)
    | Arrive(hash: string)
    | Read(call: nat, now: int)
    | Increment(call: nat, now: int)
    | IssueToken(call: nat, token: string)
    | Fail(call: nat)
    | Record(call: nat, ok: bool)

  const DEFAULT_MAX_USES: int := 10

  /** The limit the create handler stores for a requested one. */
  function StoredLimit(maxUses: int): int { if maxUses <= 0 then DEFAULT_MAX_USES else maxUses }

  predicate Usable(g: Grant, now: int) { g.active && g.expiresAt > now }

  /** The WHERE clause of the increment, against the limit the caller has read. */
  predicate CanCount(grants: map<string, Grant>, id: string, maxUses: int, now: int) {
    id in grants && grants[id].useCount < maxUses && Usable(grants[id], now)
  }

  /** Steps belong to calls in the matching phase. IDs are never reused, the hash is
      unique, and a token's ID is new. A counted call may fail at any time: no secret,
      a refused insert, or a crash. */
  predicate Enabled(s: System, step: Step) {
    match step
    case CreateGrant(id, hash, _, _) => id !in s.limits && hash !in s.index
    case DeleteGrant(id) => id in s.grants
    case Arrive(_) => true
    case Read(i, _) => i < |s.calls| && s.calls[i].Arrived?
    case Increment(i, _) => i < |s.calls| && s.calls[i].Holding?
    case IssueToken(i, token) => i < |s.calls| && s.calls[i].Counted? && forall x :: x in s.tokens ==> x.token != token
    case Fail(i) => i < |s.calls| && s.calls[i].Counted?
    case Record(i, _) => i < |s.calls| && s.calls[i].Issued?
  }

  function Next(s: System, step: Step): System
    requires Enabled(s, step)
  {
    match step
    case CreateGrant(id, hash, maxUses, expiresAt) =>
      var g := Grant(id, hash, StoredLimit(maxUses), 0, true, expiresAt);
      s.(grants := s.grants[id := g], index := s.index[hash := id], limits := s.limits[id := g.maxUses])
    case DeleteGrant(id) =>
      s.(grants := s.grants - {id}, index := s.index - {s.grants[id].hash})
    case Arrive(hash) => s.(calls := s.calls + [Arrived(hash)])
    case Read(i, now) =>
      var hash := s.calls[i].hash;
      if hash in s.index && s.index[hash] in s.grants && Usable(s.grants[s.index[hash]], now)
      then s.(calls := s.calls[i := Holding(s.grants[s.index[hash]])])
      else s.(calls := s.calls[i := Answered])
    case Increment(i, now) =>
      var held := s.calls[i].grant;
      if CanCount(s.grants, held.id, held.maxUses, now) then
        var g := s.grants[held.id];
        s.(grants := s.grants[held.id := g.(useCount := g.useCount + 1)],
           calls := s.calls[i := Counted(held)],
           increments := s.increments + multiset{held.id})
      else s.(calls := s.calls[i := Answered])
    case IssueToken(i, token) =>
      var issue := Issue(token, s.calls[i].grant.id);
      s.(tokens := s.tokens + [issue], calls := s.calls[i := Issued(issue)])
    case Fail(i) =>
      s.(calls := s.calls[i := Answered], failures := s.failures + multiset{s.calls[i].grant.id})
    case Record(i, ok) =>
      s.(calls := s.calls[i := Answered], issuances := if ok then s.issuances + [s.calls[i].issue] else s.issuances)
  }

  predicate Legal(s: System, steps: seq<Step>)
    decreases |steps|
  {
    steps == [] || (Enabled(s, steps[0]) && Legal(Next(s, steps[0]), steps[1..]))
  }

  function Exec(s: System, steps: seq<Step>): System
    requires Legal(s, steps)
    decreases |steps|
  {
    if steps == [] then s else Exec(Next(s, steps[0]), steps[1..])
  }

  // ---------------------------------------------------------------- accounting

  /** Tokens issued from a grant. */
  function IssuedFrom(tokens: seq<Issue>, id: string): nat {
    if tokens == [] then 0
    else IssuedFrom(tokens[..|tokens| - 1], id) + if tokens[|tokens| - 1].grant == id then 1 else 0
  }

  predicate InFlightFor(c: Call, id: string) { c.Counted? && c.grant.id == id }

  /** Calls between their increment and their token. */
  function InFlight(calls: seq<Call>, id: string): nat {
    if calls == [] then 0
    else InFlight(calls[..|calls| - 1], id) + if InFlightFor(calls[|calls| - 1], id) then 1 else 0
  }

  lemma IssuedFromAppend(tokens: seq<Issue>, x: Issue, id: string)
    ensures IssuedFrom(tokens + [x], id) == IssuedFrom(tokens, id) + if x.grant == id then 1 else 0
  {
    assert (tokens + [x])[..|tokens|] == tokens;
  }

  lemma InFlightAppend(calls: seq<Call>, c: Call, id: string)
    ensures InFlight(calls + [c], id) == InFlight(calls, id) + if InFlightFor(c, id) then 1 else 0
  {
    assert (calls + [c])[..|calls|] == calls;
  }

  lemma {:induction false} InFlightMove(calls: seq<Call>, i: nat, c: Call, id: string)
    requires i < |calls|
    ensures InFlight(calls[i := c], id) + (if InFlightFor(calls[i], id) then 1 else 0)
            == InFlight(calls, id) + (if InFlightFor(c, id) then 1 else 0)
  {
    var n := |calls| - 1;
    if i == n {
      assert calls[i := c][..n] == calls[..n];
    } else {
      InFlightMove(calls[..n], i, c, id);
      assert calls[i := c][..n] == calls[..n][i := c];
    }
  }

  /** The grant a call has in hand was created with the limit it shows. */
  predicate Genuine(s: System, c: Call) {
    c.Holding? || c.Counted? ==> c.grant.id in s.limits && c.grant.maxUses == s.limits[c.grant.id]
  }

  ghost predicate CallsGenuine(s: System) { forall i :: 0 <= i < |s.calls| ==> Genuine(s, s.calls[i]) }

  /** A live grant's counter is its number of successful increments. */
  predicate Exact(s: System, id: string) {
    id in s.grants ==>
      && id in s.limits && s.grants[id].maxUses == s.limits[id]
      && s.grants[id].id == id && s.grants[id].useCount == s.increments[id]
  }

  /** Increments stay within the limit the grant was created with. */
  predicate Limited(s: System, id: string) {
    s.increments[id] <= if id in s.limits then s.limits[id] else 0
  }

  /** Each increment is one token issued, one failed creation, or one call still in between. */
  ghost predicate Balanced(s: System, id: string) {
    s.increments[id] == IssuedFrom(s.tokens, id) + s.failures[id] + InFlight(s.calls, id)
  }

  /** Issuance records, and calls about to write one, name issued tokens. */
  ghost predicate Recorded(s: System) {
    && (forall x :: x in s.issuances ==> x in s.tokens)
    && (forall i :: 0 <= i < |s.calls| && s.calls[i].Issued? ==> s.calls[i].issue in s.tokens)
  }

  /** The primary key and the unique index on the hash are kept. */
  ghost predicate Indexed(s: System) {
    && (forall h :: h in s.index ==> s.index[h] in s.grants && s.grants[s.index[h]].hash == h)
    && (forall id :: id in s.grants ==>
          s.grants[id].id == id && s.grants[id].hash in s.index && s.index[s.grants[id].hash] == id)
  }

  lemma IndexedStep(s: System, step: Step)
    requires Indexed(s) && Enabled(s, step) && (forall id :: Exact(s, id))
    ensures Indexed(Next(s, step))
  {
    if step.CreateGrant? {
      assert Exact(s, step.id);
    }
  }

  lemma GenuineStep(s: System, step: Step)
    requires CallsGenuine(s) && Enabled(s, step) && forall id :: Exact(s, id)
    ensures CallsGenuine(Next(s, step))
  {
    if step.Read? {
      var hash := s.calls[step.call].hash;
      assert hash in s.index ==> Exact(s, s.index[hash]);
    }
  }

  lemma LimitStep(s: System, step: Step, id: string)
    requires CallsGenuine(s) && Enabled(s, step) && Exact(s, id) && Limited(s, id)
    ensures Exact(Next(s, step), id) && Limited(Next(s, step), id)
  {
    if step.Increment? {
      assert Genuine(s, s.calls[step.call]);
    }
  }

  lemma RecordedStep(s: System, step: Step)
    requires Recorded(s) && Enabled(s, step)
    ensures Recorded(Next(s, step))
  {
  }

  lemma BalancedStep(s: System, step: Step, id: string)
    requires Balanced(s, id) && Enabled(s, step)
    ensures Balanced(Next(s, step), id)
  {
    match step
    case Increment(i, now) => BalancedIncrement(s, i, now, id);
    case IssueToken(i, token) => BalancedIssue(s, i, token, id);
    case Fail(i) => InFlightMove(s.calls, i, Answered, id);
    case _ => BalancedElsewhere(s, step, id);
  }

  /** A successful increment puts one more call in flight. */
  lemma BalancedIncrement(s: System, i: nat, now: int, id: string)
    requires Balanced(s, id) && Enabled(s, Increment(i, now))
    ensures Balanced(Next(s, Increment(i, now)), id)
  {
    InFlightMove(s.calls, i, Next(s, Increment(i, now)).calls[i], id);
  }

  /** Issuing a token takes one call out of flight. */
  lemma BalancedIssue(s: System, i: nat, token: string, id: string)
    requires Balanced(s, id) && Enabled(s, Step.IssueToken(i, token))
    ensures Balanced(Next(s, Step.IssueToken(i, token)), id)
  {
    var issue := Issue(token, s.calls[i].grant.id);
    InFlightMove(s.calls, i, Issued(issue), id);
    IssuedFromAppend(s.tokens, issue, id);
  }

  lemma BalancedElsewhere(s: System, step: Step, id: string)
    requires Balanced(s, id) && Enabled(s, step) && !step.Increment? && !step.IssueToken? && !step.Fail?
    ensures Balanced(Next(s, step), id)
  {
    if step.Arrive? {
      InFlightAppend(s.calls, Arrived(step.hash), id);
    } else if step.Read? || step.Record? {
      InFlightMove(s.calls, step.call, Next(s, step).calls[step.call], id);
    }
  }

  ghost predicate Invariant(s: System) {
    CallsGenuine(s) && Recorded(s) && Indexed(s) && forall id :: Exact(s, id) && Limited(s, id) && Balanced(s, id)
  }

  lemma {:induction false} InvariantRun(s: System, steps: seq<Step>)
    requires Invariant(s) && Legal(s, steps)
    ensures Invariant(Exec(s, steps))
    decreases |steps|
  {
    if steps != [] {
      GenuineStep(s, steps[0]);
      RecordedStep(s, steps[0]);
      IndexedStep(s, steps[0]);
      var t := Next(s, steps[0]);
      forall id ensures Exact(t, id) && Limited(t, id) && Balanced(t, id) {
        LimitStep(s, steps[0], id);
        BalancedStep(s, steps[0], id);
      }
      InvariantRun(Next(s, steps[0]), steps[1..]);
    }
  }

  /** For any number of interleaved calls, grants created and deleted at any time: the
      tokens issued from a grant are at most its successful increments, which are at
      most its limit; every increment is accounted for; a live grant's counter is
      exact; and every issuance record names a token issued from that grant. */
  lemma GrantLimitHolds(steps: seq<Step>, id: string)
    requires Legal(EMPTY, steps)
    ensures var s := Exec(EMPTY, steps);
            && IssuedFrom(s.tokens, id) <= s.increments[id]
            && s.increments[id] <= (if id in s.limits then s.limits[id] else 0)
            && s.increments[id] == IssuedFrom(s.tokens, id) + s.failures[id] + InFlight(s.calls, id)
            && (id in s.grants ==> s.grants[id].useCount == s.increments[id])
            && (forall x :: x in s.issuances ==> x in s.tokens)
  {
    assert forall other :: Balanced(EMPTY, other);
    InvariantRun(EMPTY, steps);
    assert var s := Exec(EMPTY, steps); Exact(s, id) && Limited(s, id) && Balanced(s, id);
  }

  // ---------------------------------------------------------------- what each increment means

  lemma {:induction false} PrefixOf(s: System, steps: seq<Step>, k: nat)
    requires Legal(s, steps) && k < |steps|
    ensures Legal(s, steps[..k]) && Enabled(Exec(s, steps[..k]), steps[k])
    ensures Legal(s, steps[..k + 1]) && Exec(s, steps[..k + 1]) == Next(Exec(s, steps[..k]), steps[k])
    decreases k
  {
    assert steps[..k + 1][1..] == steps[1..][..k];
    if k > 0 {
      PrefixOf(Next(s, steps[0]), steps[1..], k - 1);
      assert steps[..k][1..] == steps[1..][..k - 1];
    } else {
      assert steps[1..][..0] == [];
    }
  }

  /** The step that created a grant: it set the limit for good, and whatever is live still
      has its hash and its expiry. */
  lemma {:induction false} CreatedBefore(steps: seq<Step>, id: string) returns (c: nat)
    requires Legal(EMPTY, steps) && id in Exec(EMPTY, steps).limits
    ensures c < |steps| && steps[c].CreateGrant? && steps[c].id == id
    ensures var s := Exec(EMPTY, steps);
            && s.limits[id] == (if steps[c].maxUses <= 0 then 10 else steps[c].maxUses)
            && (id in s.grants ==>
                  s.grants[id].active && s.grants[id].expiresAt == steps[c].expiresAt
                  && s.grants[id].hash == steps[c].hash)
    decreases |steps|
  {
    var n := |steps| - 1;
    PrefixOf(EMPTY, steps, n);
    assert steps[..n + 1] == steps;
    var before := Exec(EMPTY, steps[..n]);
    if id in before.limits {
      c := CreatedBefore(steps[..n], id);
      NoneUncreated(steps[..n], id);
    } else {
      c := n;
      NoneUncreated(steps[..n], id);
    }
  }

  lemma NoneUncreated(steps: seq<Step>, id: string)
    requires Legal(EMPTY, steps)
    ensures Invariant(Exec(EMPTY, steps))
    ensures id in Exec(EMPTY, steps).grants ==> id in Exec(EMPTY, steps).limits
  {
    assert forall other :: Balanced(EMPTY, other);
    InvariantRun(EMPTY, steps);
    assert Exact(Exec(EMPTY, steps), id);
  }

  /** Step `k` of a run counts a use of the grant that its call holds. */
  predicate Counts(steps: seq<Step>, k: nat)
    requires Legal(EMPTY, steps) && k < |steps|
  {
    PrefixOf(EMPTY, steps, k);
    Exec(EMPTY, steps[..k + 1]).increments != Exec(EMPTY, steps[..k]).increments
  }

  /** Exactly when an increment counts: when its grant is still there and active, has not
      expired at that moment, and has uses left under the limit it was created with. A
      counted use is one more of that grant, and of no other. */
  lemma CountsIff(steps: seq<Step>, k: nat) returns (c: nat)
    requires Legal(EMPTY, steps) && k < |steps| && steps[k].Increment?
    ensures Legal(EMPTY, steps[..k]) && Legal(EMPTY, steps[..k + 1])
    ensures steps[k].call < |Exec(EMPTY, steps[..k]).calls| && Exec(EMPTY, steps[..k]).calls[steps[k].call].Holding?
    ensures c < k && steps[c].CreateGrant?
    ensures var (s, t, created) := (Exec(EMPTY, steps[..k]), Exec(EMPTY, steps[..k + 1]), steps[c]);
            && s.calls[steps[k].call].grant.id == created.id
            && (Counts(steps, k) <==>
                  && created.id in s.grants && s.grants[created.id].active && steps[k].now < created.expiresAt
                  && s.increments[created.id] < if created.maxUses <= 0 then 10 else created.maxUses)
            && (Counts(steps, k) ==> t.increments == s.increments + multiset{created.id})
  {
    PrefixOf(EMPTY, steps, k);
    var s := Exec(EMPTY, steps[..k]);
    var held := s.calls[steps[k].call].grant;
    NoneUncreated(steps[..k], held.id);
    assert Genuine(s, s.calls[steps[k].call]) && Exact(s, held.id);
    c := CreatedBefore(steps[..k], held.id);
    assert (s.increments + multiset{held.id})[held.id] == s.increments[held.id] + 1;
  }

  // ---------------------------------------------------------------- the handler

  datatype Outcome = Created | Forbidden | InternalError

  /** The grant with this hash can be used: it is active, has a use left, and has neither
      expired when it is read nor when it is counted. */
  predicate Redeemable(grants: map<string, Grant>, id: string, hash: string, readAt: int, countedAt: int) {
    && id in grants && grants[id].hash == hash && grants[id].active && grants[id].useCount < grants[id].maxUses
    && grants[id].expiresAt > readAt && grants[id].expiresAt > countedAt
  }

  /** At most one grant has a hash, so there is no choice which one is used. */
  lemma OneOfHash(s: System, a: string, b: string, hash: string, readAt: int, countedAt: int)
    requires Indexed(s) && Redeemable(s.grants, a, hash, readAt, countedAt)
    requires Redeemable(s.grants, b, hash, readAt, countedAt)
    ensures a == b
  {
    assert s.index[s.grants[a].hash] == a;
  }

  /** Whether there is one is decided by the grant that the index gives for the hash. */
  lemma RedeemableIff(s: System, hash: string, readAt: int, countedAt: int)
    requires Indexed(s)
    ensures (exists id :: Redeemable(s.grants, id, hash, readAt, countedAt))
            <==> hash in s.index && Redeemable(s.grants, s.index[hash], hash, readAt, countedAt)
  {
    forall id | Redeemable(s.grants, id, hash, readAt, countedAt)
      ensures hash in s.index && s.index[hash] == id
    {
      assert s.grants[id].hash == hash;
    }
  }

  class ProvisioningStore {
    var grants: map<string, Grant>
    var index: map<string, string>
    var tokens: seq<Issue>
    var issuances: seq<Issue>
    ghost var calls: seq<Call>
    ghost var limits: map<string, int>
    ghost var increments: multiset<string>
    ghost var failures: multiset<string>

    ghost function Contents(): System
      reads this
    {
      System(grants, index, tokens, issuances, calls, limits, increments, failures)
    }

    /** The lookup by hash; nothing is said about why a grant is refused. */
    method ReadGrant(ghost call: nat, hash: string, now: int) returns (found: bool, grant: Grant)
      requires call < |calls| && calls[call] == Arrived(hash)
      modifies this`calls
      ensures Contents() == Next(old(Contents()), Read(call, now))
      ensures calls == old(calls)[call := if found then Holding(grant) else Answered]
      ensures found <==> hash in index && index[hash] in grants && grants[index[hash]].active
                         && grants[index[hash]].expiresAt > now
      ensures found ==> grant == grants[index[hash]]
    {
      found, grant := false, Grant("", "", 0, 0, false, 0);
      if hash in index && index[hash] in grants {
        grant := grants[index[hash]];
        found := grant.active && grant.expiresAt > now;
      }
      calls := calls[call := if found then Holding(grant) else Answered];
    }

    /** The conditional UPDATE. */
    method IncrementGrantUseCount(ghost call: nat, id: string, maxUses: int, now: int) returns (ok: bool)
      requires call < |calls| && calls[call].Holding?
      requires calls[call].grant.id == id && calls[call].grant.maxUses == maxUses
      modifies this`grants, this`calls, this`increments
      ensures Contents() == Next(old(Contents()), Increment(call, now))
      ensures ok <==> id in old(grants) && old(grants)[id].active && old(grants)[id].expiresAt > now
                      && old(grants)[id].useCount < maxUses
      ensures calls == old(calls)[call := if ok then Counted(old(calls)[call].grant) else Answered]
      ensures grants == if ok then old(grants)[id := old(grants)[id].(useCount := old(grants)[id].useCount + 1)]
                        else old(grants)
    {
      ok := id in grants && grants[id].useCount < maxUses && grants[id].active && grants[id].expiresAt > now;
      if ok {
        grants := grants[id := grants[id].(useCount := grants[id].useCount + 1)];
        calls, increments := calls[call := Counted(calls[call].grant)], increments + multiset{id};
      } else {
        calls := calls[call := Answered];
      }
    }

    method CreateToken(ghost call: nat, id: string, token: string, fails: bool) returns (ok: bool)
      requires call < |calls| && calls[call].Counted? && calls[call].grant.id == id
      requires forall x :: x in tokens ==> x.token != token
      modifies this`tokens, this`calls, this`failures
      ensures ok == !fails
      ensures Contents() == Next(old(Contents()), if ok then Step.IssueToken(call, token) else Fail(call))
      ensures calls == old(calls)[call := if ok then Issued(Issue(token, id)) else Answered]
    {
      ok := !fails;
      if ok {
        tokens := tokens + [Issue(token, id)];
        calls := calls[call := Issued(Issue(token, id))];
      } else {
        calls, failures := calls[call := Answered], failures + multiset{id};
      }
    }

    method RecordGrantIssuance(ghost call: nat, issue: Issue, fails: bool)
      requires call < |calls| && calls[call] == Issued(issue)
      modifies this`issuances, this`calls
      ensures Contents() == Next(old(Contents()), Record(call, !fails))
      ensures issuances == old(issuances) + if fails then [] else [issue]
    {
      if !fails {
        issuances := issuances + [issue];
      }
      calls := calls[call := Answered];
    }

    /** One call from arrival to answer with nothing in between. It is refused exactly when
        no grant of its hash can be used, and changes nothing then; otherwise it counts one
        use, and unless secret generation or CreateToken fails, `token` is issued from that
        grant, and recorded if the issuance log works. The call is the run of its steps,
        which the method returns. */
    method HandleProvision(hash: string, readAt: int, countedAt: int, token: string,
                           issueFails: bool, recordFails: bool)
        returns (outcome: Outcome, ghost used: string, ghost steps: seq<Step>)
      requires Indexed(Contents()) && forall x :: x in tokens ==> x.token != token
      modifies this
      ensures Indexed(Contents())
      ensures Legal(old(Contents()), steps) && Contents() == Exec(old(Contents()), steps)
      ensures outcome == Forbidden <==> !exists id :: Redeemable(old(grants), id, hash, readAt, countedAt)
      ensures outcome == Forbidden ==> grants == old(grants) && tokens == old(tokens) && issuances == old(issuances)
      ensures outcome != Forbidden ==>
                && Redeemable(old(grants), used, hash, readAt, countedAt)
                && outcome == (if issueFails then InternalError else Created)
                && grants == old(grants)[used := old(grants)[used].(useCount := old(grants)[used].useCount + 1)]
                && tokens == old(tokens) + (if issueFails then [] else [Issue(token, used)])
                && issuances == old(issuances) + if issueFails || recordFails then [] else [Issue(token, used)]
    {
      ghost var s0, n := Contents(), |calls|;
      var counted, id;
      counted, id, steps := Redeem(hash, readAt, countedAt);
      used := id;
      if !counted {
        return Forbidden, used, steps;
      }
      outcome, steps := IssueFor(n, s0, steps, id, token, issueFails, recordFails);
    }

    /** The two conditions on the grant, from the arrival of a call to its increment. */
    method Redeem(hash: string, readAt: int, countedAt: int)
        returns (counted: bool, id: string, ghost steps: seq<Step>)
      requires Indexed(Contents())
      modifies this`grants, this`calls, this`increments
      ensures Indexed(Contents())
      ensures Legal(old(Contents()), steps) && Contents() == Exec(old(Contents()), steps)
      ensures counted ==> Redeemable(old(grants), id, hash, readAt, countedAt)
      ensures !counted ==> !exists other :: Redeemable(old(grants), other, hash, readAt, countedAt)
      ensures counted ==> |calls| == |old(calls)| + 1 && calls[|old(calls)|].Counted?
      ensures counted ==> calls[|old(calls)|].grant.id == id
      ensures grants == if counted then old(grants)[id := old(grants)[id].(useCount := old(grants)[id].useCount + 1)]
                        else old(grants)
    {
      ghost var s0, n := Contents(), |calls|;
      RedeemableIff(s0, hash, readAt, countedAt);
      var found, grant;
      found, grant, steps := LookUp(hash, readAt);
      id := grant.id;
      if !found {
        return false, id, steps;
      }
      counted := IncrementGrantUseCount(n, grant.id, grant.maxUses, countedAt);
      steps := Then(s0, steps, Increment(n, countedAt));
    }

    /** The first of them: a call arrives and reads the grant of its hash. */
    method LookUp(hash: string, now: int) returns (found: bool, grant: Grant, ghost steps: seq<Step>)
      modifies this`calls
      ensures Legal(old(Contents()), steps) && Contents() == Exec(old(Contents()), steps)
      ensures found <==> hash in index && index[hash] in grants && grants[index[hash]].active
                         && grants[index[hash]].expiresAt > now
      ensures found ==> grant == grants[index[hash]]
      ensures calls == old(calls) + [if found then Holding(grant) else Answered]
    {
      ghost var s0, n := Contents(), |calls|;
      calls := calls + [Arrived(hash)];
      steps := Then(s0, [], Arrive(hash));
      found, grant := ReadGrant(n, hash, now);
      steps := Then(s0, steps, Read(n, now));
    }

    /** The rest of a call that has counted: the token, then the record of its issuance. */
    method IssueFor(ghost call: nat, ghost s0: System, ghost before: seq<Step>, id: string, token: string,
                    issueFails: bool, recordFails: bool) returns (outcome: Outcome, ghost steps: seq<Step>)
      requires Legal(s0, before) && Contents() == Exec(s0, before)
      requires call < |calls| && calls[call].Counted? && calls[call].grant.id == id
      requires forall x :: x in tokens ==> x.token != token
      modifies this`tokens, this`issuances, this`calls, this`failures
      ensures Legal(s0, steps) && Contents() == Exec(s0, steps)
      ensures outcome == if issueFails then InternalError else Created
      ensures tokens == old(tokens) + if issueFails then [] else [Issue(token, id)]
      ensures issuances == old(issuances) + if issueFails || recordFails then [] else [Issue(token, id)]
    {
      var created := CreateToken(call, id, token, issueFails);
      steps := Then(s0, before, if created then Step.IssueToken(call, token) else Fail(call));
      if !created {
        return InternalError, steps;
      }
      RecordGrantIssuance(call, Issue(token, id), recordFails);
      steps := Then(s0, steps, Record(call, !recordFails));
      return Created, steps;
    }
  }

  lemma Then(s: System, steps: seq<Step>, step: Step) returns (longer: seq<Step>)
    requires Legal(s, steps) && Enabled(Exec(s, steps), step)
    ensures longer == steps + [step] && Legal(s, longer) && Exec(s, longer) == Next(Exec(s, steps), step)
    decreases |steps|
  {
    longer := steps + [step];
    if steps == [] {
      assert longer[1..] == [];
    } else {
      var rest := Then(Next(s, steps[0]), steps[1..], step);
      assert longer[1..] == rest;
    }
  }
}
