/** The store's methods, statement by statement, against the one-step operations. */
module SqlStore {
  import opened Options
  import opened Tables
  import opened TenantStore

  /** The tenantIDs of the first `k` of these tenants. */
  ghost function FirstIDs(members: seq<Tenant>, k: nat): set<string>
    requires k <= |members|
  {
    if k == 0 then {} else FirstIDs(members, k - 1) + {members[k - 1].payload.tenantID}
  }

  lemma {:induction false} FirstIDsAre(members: seq<Tenant>, k: nat, id: string)
    requires k <= |members|
    ensures id in FirstIDs(members, k) <==> exists j :: 0 <= j < k && members[j].payload.tenantID == id
  {
    if k > 0 {
      FirstIDsAre(members, k - 1, id);
    }
  }

  lemma MembersAreTheOrg(tenants: seq<Tenant>, orgID: string)
    ensures var members := Filter(tenants, Is(OrgOf, orgID));
            FirstIDs(members, |members|) == TenantIDsOf(tenants, orgID)
  {
    var members := Filter(tenants, Is(OrgOf, orgID));
    forall id ensures id in FirstIDs(members, |members|) <==> id in TenantIDsOf(tenants, orgID) {
      FirstIDsAre(members, |members|, id);
      if j :| 0 <= j < |members| && members[j].payload.tenantID == id {
        assert members[j] in members && OrgOf(members[j]) == orgID;
      }
      if t :| t in tenants && t.orgID == orgID && t.payload.tenantID == id {
        assert OrgOf(t) == orgID && t in members;
      }
    }
  }

  /** The rows left after the first `k` passes. */
  function Left<T(!new)>(rows: seq<T>, column: T -> string, members: seq<Tenant>, k: nat): seq<T>
    requires k <= |members|
  {
    if k == 0 then rows else Filter(Left(rows, column, members, k - 1), NotIn(column, {TenantIDOf(members[k - 1])}))
  }

  lemma {:induction false} LeftIsFilter<T(!new)>(rows: seq<T>, column: T -> string, members: seq<Tenant>, k: nat)
    requires k <= |members|
    ensures Left(rows, column, members, k) == Filter(rows, NotIn(column, FirstIDs(members, k)))
  {
    if k == 0 {
      FilterAll(rows, NotIn(column, {}));
    } else {
      LeftIsFilter(rows, column, members, k - 1);
      var (gone, id) := (FirstIDs(members, k - 1), TenantIDOf(members[k - 1]));
      FilterTwice(rows, NotIn(column, gone), NotIn(column, {id}), NotIn(column, gone + {id}));
    }
  }

  // ---------------------------------------------------------------- between the statements

  /** A rename stopped after the tenant row. */
  function AfterRow(db: Db, id: string, payload: TenantPayload): Db {
    db.(tenants := TenantStore.UpdateTenant(db, id, payload).1.tenants)
  }

  /** A rename stopped after the tenant row and the cascade to routes. */
  function AfterRoutes(db: Db, id: string, payload: TenantPayload): Db {
    AfterRow(db, id, payload).(routes := TenantStore.UpdateTenant(db, id, payload).1.routes)
  }

  ghost predicate Names<T(!new)>(rows: seq<T>, column: T -> string, tenantID: string) {
    exists x :: x in rows && column(x) == tenantID
  }

  /** Overwriting one tenant's row leaves references intact exactly when its tenantID stays
      or nothing names it. */
  lemma OverwriteRefersIff<T(!new)>(rows: seq<T>, column: T -> string, tenants: seq<Tenant>, i: nat, row: Tenant)
    requires i < |tenants| && Refer(rows, column, tenants) && Unique(tenants, TenantIDOf)
    ensures Refer(rows, column, tenants[i := row])
            <==> TenantIDOf(row) == TenantIDOf(tenants[i]) || !Names(rows, column, TenantIDOf(tenants[i]))
  {
    var (after, from) := (tenants[i := row], TenantIDOf(tenants[i]));
    forall x | x in rows ensures column(x) != from || TenantIDOf(row) == from ==> Has(after, TenantIDOf, column(x)) {
      HasIff(tenants, TenantIDOf, column(x));
      HasIff(after, TenantIDOf, column(x));
      var k :| 0 <= k < |tenants| && TenantIDOf(tenants[k]) == column(x);
      assert after[k] in after;
    }
    if TenantIDOf(row) != from {
      forall k | 0 <= k < |after| ensures TenantIDOf(after[k]) != from {
        assert k != i ==> TenantIDOf(tenants[k]) != TenantIDOf(tenants[i]);
      }
      HasIff(after, TenantIDOf, from);
    }
  }

  /** The statements of a rename are not one transaction. Stopped after the tenant row, or
      seen by others there, the tables are consistent exactly when the tenantID is unchanged
      or no route and no token names it; after the routes, exactly when no token does. */
  lemma RenameGapIff(db: Db, id: string, payload: TenantPayload)
    requires Consistent(db) && TenantStore.UpdateTenant(db, id, payload).0.Ok?
    ensures var from := TenantIDOf(db.tenants[Find(db.tenants, Is(IdOfTenant, id))]);
            && (Consistent(AfterRow(db, id, payload)) <==>
                  from == payload.tenantID
                  || (!Names(db.routes, TenantOfRoute, from) && !Names(db.tokens, TenantOfToken, from)))
            && (Consistent(AfterRoutes(db, id, payload)) <==>
                  from == payload.tenantID || !Names(db.tokens, TenantOfToken, from))
  {
    var after := TenantStore.UpdateTenant(db, id, payload).1;
    var i := Find(db.tenants, Is(IdOfTenant, id));
    var row := db.tenants[i].(payload := payload);
    UpdateTenantConsistent(db, id, payload);
    assert TenantIDOf(row) == payload.tenantID && after.tenants == db.tenants[i := row];
    OverwriteRefersIff(db.routes, TenantOfRoute, db.tenants, i, row);
    OverwriteRefersIff(db.tokens, TenantOfToken, db.tenants, i, row);
  }

  /** Once the row has the new tenantID, a rename finds nothing to cascade. */
  lemma RepeatedRename(db: Db, id: string, payload: TenantPayload, stopped: Db)
    requires Consistent(db) && TenantStore.UpdateTenant(db, id, payload).0.Ok?
    requires stopped.tenants == TenantStore.UpdateTenant(db, id, payload).1.tenants
    ensures TenantStore.UpdateTenant(stopped, id, payload) == (TenantStore.UpdateTenant(db, id, payload).0, stopped)
  {
    var i := Find(db.tenants, Is(IdOfTenant, id));
    var row := db.tenants[i].(payload := payload);
    assert Is(IdOfTenant, id)(db.tenants[i]);
    assert IdOfTenant(db.tenants[i]) == id;
    assert IdOfTenant(row) == id;
    assert TenantIDOf(row) == payload.tenantID;
    OverwriteSame(db.tenants, IdOfTenant, i, row);
    OverwriteUnique(db.tenants, TenantIDOf, i, row);
    FindIs(stopped.tenants, IdOfTenant, i);
    FindIs(stopped.tenants, TenantIDOf, i);
    assert stopped.tenants == db.tenants[i := row] && stopped.tenants[i] == row;
    assert row.(payload := payload) == row && stopped.tenants[i := row] == stopped.tenants;
    assert Update(stopped.routes, MoveRoute(payload.tenantID, payload.tenantID)) == stopped.routes;
    assert Update(stopped.tokens, MoveToken(payload.tenantID, payload.tenantID)) == stopped.tokens;
  }

  /** An update of rows is without effect exactly when no row has the old tenantID. */
  lemma MoveNothingIff(db: Db, from: string, to: string)
    ensures Update(db.routes, MoveRoute(from, to)) == db.routes
            <==> from == to || !Names(db.routes, TenantOfRoute, from)
    ensures Update(db.tokens, MoveToken(from, to)) == db.tokens
            <==> from == to || !Names(db.tokens, TenantOfToken, from)
  {
    var (routes, tokens) := (Update(db.routes, MoveRoute(from, to)), Update(db.tokens, MoveToken(from, to)));
    forall i | 0 <= i < |db.routes|
      ensures routes[i] == db.routes[i] <==> from == to || TenantOfRoute(db.routes[i]) != from
    {
    }
    forall i | 0 <= i < |db.tokens|
      ensures tokens[i] == db.tokens[i] <==> from == to || TenantOfToken(db.tokens[i]) != from
    {
    }
    if r :| r in db.routes && TenantOfRoute(r) == from {
      var i :| 0 <= i < |db.routes| && db.routes[i] == r;
    }
    if t :| t in db.tokens && TenantOfToken(t) == from {
      var i :| 0 <= i < |db.tokens| && db.tokens[i] == t;
    }
  }

  /** Repeating a rename that stopped between its statements changes nothing, so it
      finishes it exactly when nothing was left to move. */
  lemma RenameResumesIff(db: Db, id: string, payload: TenantPayload)
    requires Consistent(db) && TenantStore.UpdateTenant(db, id, payload).0.Ok?
    ensures var (row, routes, from) := (AfterRow(db, id, payload), AfterRoutes(db, id, payload),
                                        TenantIDOf(db.tenants[Find(db.tenants, Is(IdOfTenant, id))]));
            var done := TenantStore.UpdateTenant(db, id, payload).1;
            && TenantStore.UpdateTenant(row, id, payload).1 == row
            && TenantStore.UpdateTenant(routes, id, payload).1 == routes
            && (TenantStore.UpdateTenant(row, id, payload).1 == done <==>
                  from == payload.tenantID
                  || (!Names(db.routes, TenantOfRoute, from) && !Names(db.tokens, TenantOfToken, from)))
            && (TenantStore.UpdateTenant(routes, id, payload).1 == done <==>
                  from == payload.tenantID || !Names(db.tokens, TenantOfToken, from))
  {
    var from := TenantIDOf(db.tenants[Find(db.tenants, Is(IdOfTenant, id))]);
    RepeatedRename(db, id, payload, AfterRow(db, id, payload));
    RepeatedRename(db, id, payload, AfterRoutes(db, id, payload));
    MoveNothingIff(db, from, payload.tenantID);
  }

  /** In neither intermediate state may a token use a route that it could not use before:
      after the row nobody's access has changed, and after the routes exactly the renamed
      tenant's own tokens are shut out until they have moved as well. */
  lemma RenameGapAccess(db: Db, id: string, payload: TenantPayload, t: nat, r: nat)
    requires Consistent(db) && TenantStore.UpdateTenant(db, id, payload).0.Ok?
    requires t < |db.tokens| && r < |db.routes|
    ensures var (row, routes, from) := (AfterRow(db, id, payload), AfterRoutes(db, id, payload),
                                        TenantIDOf(db.tenants[Find(db.tenants, Is(IdOfTenant, id))]));
            && row.tokens == db.tokens == routes.tokens && row.routes == db.routes && |routes.routes| == |db.routes|
            && (MayUse(routes.tokens[t], routes.routes[r]) <==>
                  MayUse(db.tokens[t], db.routes[r])
                  && (from == payload.tenantID || TenantOfToken(db.tokens[t]) != from))
  {
    var i := Find(db.tenants, Is(IdOfTenant, id));
    var (from, to) := (TenantIDOf(db.tenants[i]), payload.tenantID);
    if from != to {
      assert db.tokens[t] in db.tokens && db.routes[r] in db.routes;
      assert TenantOfToken(db.tokens[t]) != to && TenantOfRoute(db.routes[r]) != to;
    }
  }

  /** An organisation's deletion stopped in the loop: `k` tenants' routes are gone, and the
      tokens of those, or of one tenant more. */
  function Stopped(db: Db, orgID: string, k: nat, j: nat): Db
    requires k <= |Filter(db.tenants, Is(OrgOf, orgID))| && j <= |Filter(db.tenants, Is(OrgOf, orgID))|
  {
    var members := Filter(db.tenants, Is(OrgOf, orgID));
    db.(routes := Left(db.routes, TenantOfRoute, members, k), tokens := Left(db.tokens, TenantOfToken, members, j))
  }

  /** Deleting an organisation is safe to stop anywhere: rows go before the tenants they
      name, so the tables stay consistent, and repeating the deletion finishes it. */
  lemma DeleteOrgResumes(db: Db, orgID: string, k: nat, j: nat)
    requires Consistent(db)
    requires k <= |Filter(db.tenants, Is(OrgOf, orgID))| && j <= |Filter(db.tenants, Is(OrgOf, orgID))|
    ensures Consistent(Stopped(db, orgID, k, j))
    ensures TenantStore.DeleteOrg(Stopped(db, orgID, k, j), orgID) == TenantStore.DeleteOrg(db, orgID)
  {
    var members := Filter(db.tenants, Is(OrgOf, orgID));
    var stopped := Stopped(db, orgID, k, j);
    LeftThenAll(db.routes, TenantOfRoute, db.tenants, orgID, k);
    LeftThenAll(db.tokens, TenantOfToken, db.tenants, orgID, j);
    FilterKeyed(db.routes, NotIn(TenantOfRoute, FirstIDs(members, k)), IdOfRoute, SlugOf);
    FilterKeyed(db.tokens, NotIn(TenantOfToken, FirstIDs(members, j)), IdOfToken, HashOf);
    ReferSurvives(db.routes, TenantOfRoute, db.tenants, stopped.routes, db.tenants);
    ReferSurvives(db.tokens, TenantOfToken, db.tenants, stopped.tokens, db.tenants);
  }

  lemma LeftThenAll<T(!new)>(rows: seq<T>, column: T -> string, tenants: seq<Tenant>, orgID: string, k: nat)
    requires k <= |Filter(tenants, Is(OrgOf, orgID))|
    ensures var (members, dead) := (Filter(tenants, Is(OrgOf, orgID)), TenantIDsOf(tenants, orgID));
            && Left(rows, column, members, k) == Filter(rows, NotIn(column, FirstIDs(members, k)))
            && Filter(Left(rows, column, members, k), NotIn(column, dead)) == Filter(rows, NotIn(column, dead))
  {
    var (members, dead) := (Filter(tenants, Is(OrgOf, orgID)), TenantIDsOf(tenants, orgID));
    var gone := FirstIDs(members, k);
    LeftIsFilter(rows, column, members, k);
    MembersAreTheOrg(tenants, orgID);
    forall id | id in gone ensures id in dead {
      FirstIDsAre(members, k, id);
      FirstIDsAre(members, |members|, id);
    }
    FilterTwice(rows, NotIn(column, gone), NotIn(column, dead), NotIn(column, dead));
  }

  // ---------------------------------------------------------------- the store

  class Store {
    var orgs: set<string>
    var tenants: seq<Tenant>
    var routes: seq<Route>
    var tokens: seq<Token>

    constructor ()
      ensures Contents() == Db({}, [], [], [])
    {
      orgs, tenants, routes, tokens := {}, [], [], [];
    }

    function Contents(): Db
      reads this
    {
      Db(orgs, tenants, routes, tokens)
    }

    method CreateTenant(id: string, payload: TenantPayload, orgID: string) returns (r: Result<Tenant, Error>)
      modifies this`tenants
      ensures (r, Contents()) == TenantStore.CreateTenant(old(Contents()), id, payload, orgID)
    {
      if Has(tenants, IdOfTenant, id) || Has(tenants, TenantIDOf, payload.tenantID) {
        return Err(TenantIDExists);
      }
      var tenant := Tenant(id, payload, orgID);
      tenants := tenants + [tenant];
      return Ok(tenant);
    }

    /** Three statements: the tenant row, then the cascade to routes and to tokens. */
    method UpdateTenant(id: string, payload: TenantPayload) returns (r: Result<Tenant, Error>)
      modifies this`tenants, this`routes, this`tokens
      ensures (r, Contents()) == TenantStore.UpdateTenant(old(Contents()), id, payload)
    {
      var i := Find(tenants, Is(IdOfTenant, id));
      if i == |tenants| {
        return Err(TenantNotFound);
      }
      var current := tenants[i].payload.tenantID;
      var holder := Find(tenants, Is(TenantIDOf, payload.tenantID));
      if holder < |tenants| && holder != i {
        return Err(TenantIDExists);
      }
      tenants := tenants[i := tenants[i].(payload := payload)];
      assert Contents() == AfterRow(old(Contents()), id, payload);
      routes := Update(routes, MoveRoute(current, payload.tenantID));
      assert Contents() == AfterRoutes(old(Contents()), id, payload);
      tokens := Update(tokens, MoveToken(current, payload.tenantID));
      return Ok(Tenant(id, payload, ""));
    }

    method DeleteTenant(id: string) returns (r: Result<(), Error>)
      modifies this`tenants
      ensures (r, Contents()) == TenantStore.DeleteTenant(old(Contents()), id)
    {
      var i := Find(tenants, Is(IdOfTenant, id));
      if i == |tenants| {
        return Err(TenantNotFound);
      }
      if Has(routes, TenantOfRoute, tenants[i].payload.tenantID) {
        return Err(TenantHasRoutes);
      }
      if Has(tokens, TenantOfToken, tenants[i].payload.tenantID) {
        return Err(TenantHasTokens);
      }
      tenants := Filter(tenants, NotIn(IdOfTenant, {id}));
      return Ok(());
    }

    method CreateRoute(id: string, payload: RoutePayload, methods: seq<string>) returns (r: Result<Route, Error>)
      modifies this`routes
      ensures (r, Contents()) == TenantStore.CreateRoute(old(Contents()), id, payload, methods)
    {
      if !Has(tenants, TenantIDOf, payload.tenantID) {
        return Err(TenantIDDoesNotExist);
      }
      if Has(routes, IdOfRoute, id) || Has(routes, SlugOf, payload.slug) {
        return Err(SlugExists);
      }
      var route := Route(id, payload, methods);
      routes := routes + [route];
      return Ok(route);
    }

    method UpdateRoute(id: string, payload: RoutePayload, methods: seq<string>) returns (r: Result<Route, Error>)
      modifies this`routes
      ensures (r, Contents()) == TenantStore.UpdateRoute(old(Contents()), id, payload, methods)
    {
      if !Has(tenants, TenantIDOf, payload.tenantID) {
        return Err(TenantIDDoesNotExist);
      }
      var i := Find(routes, Is(IdOfRoute, id));
      if i == |routes| {
        return Err(RouteNotFound);
      }
      var holder := Find(routes, Is(SlugOf, payload.slug));
      if holder < |routes| && holder != i {
        return Err(SlugExists);
      }
      routes := routes[i := Route(id, payload, methods)];
      return Ok(routes[i]);
    }

    method CreateToken(row: Token) returns (r: Result<Token, Error>)
      modifies this`tokens
      ensures (r, Contents()) == TenantStore.CreateToken(old(Contents()), row)
    {
      if !Has(tenants, TenantIDOf, row.tenantID) {
        return Err(TenantIDDoesNotExist);
      }
      if Has(tokens, IdOfToken, row.id) || Has(tokens, HashOf, row.hash) {
        return Err(TokenCreationFailed);
      }
      var token := row.(active := true);
      tokens := tokens + [token];
      return Ok(token);
    }

    method DeleteRoute(id: string) returns (r: Result<(), Error>)
      modifies this`routes
      ensures (r, Contents()) == TenantStore.DeleteRoute(old(Contents()), id)
    {
      if !Has(routes, IdOfRoute, id) {
        return Err(RouteNotFound);
      }
      routes := Filter(routes, NotIn(IdOfRoute, {id}));
      return Ok(());
    }

    method SetTokenActive(id: string, active: bool) returns (r: Result<Token, Error>)
      modifies this`tokens
      ensures (r, Contents()) == TenantStore.SetTokenActive(old(Contents()), id, active)
    {
      var i := Find(tokens, Is(IdOfToken, id));
      if i == |tokens| {
        return Err(TokenNotFound);
      }
      tokens := tokens[i := tokens[i].(active := active)];
      return Ok(tokens[i]);
    }

    method DeleteToken(id: string) returns (r: Result<(), Error>)
      modifies this`tokens
      ensures (r, Contents()) == TenantStore.DeleteToken(old(Contents()), id)
    {
      if !Has(tokens, IdOfToken, id) {
        return Err(TokenNotFound);
      }
      tokens := Filter(tokens, NotIn(IdOfToken, {id}));
      return Ok(());
    }

    /** The proxy's check of a bearer token: the store validates it, then its tenant and its
        scopes are compared with the route's. */
    method CheckAccess(route: Route, hash: string, now: int) returns (answer: Access)
      ensures answer == Authorize(tokens, route, hash, now)
      ensures answer == Unauthenticated
              <==> forall t :: t in tokens && t.hash == hash ==> !t.active || t.expiresAt <= now
      ensures answer.Granted? ==> answer.token in tokens && answer.token.hash == hash && answer.token.active
                                  && answer.token.expiresAt > now && answer.token.tenantID == route.payload.tenantID
    {
      var i := Find(tokens, Live(hash, now));
      if i == |tokens| {
        forall k | 0 <= k < |tokens| ensures !Live(hash, now)(tokens[k]) {
        }
        return Unauthenticated;
      }
      var token := tokens[i];
      assert token in tokens && Live(hash, now)(token);
      if token.tenantID != route.payload.tenantID {
        return ForeignTenant;
      }
      if route.payload.requiredScope != "" && route.payload.requiredScope !in token.scopes {
        return ScopeMissing;
      }
      return Granted(token);
    }

    method DeleteRowsOf(tid: string)
      modifies this`routes, this`tokens
      ensures tokens == Filter(old(tokens), NotIn(TenantOfToken, {tid}))
      ensures routes == Filter(old(routes), NotIn(TenantOfRoute, {tid}))
    {
      tokens := Filter(tokens, NotIn(TenantOfToken, {tid}));
      routes := Filter(routes, NotIn(TenantOfRoute, {tid}));
    }

    /** One pass per tenant, each deleting that tenant's tokens and routes. */
    method DeleteTenantRows(members: seq<Tenant>)
      modifies this`routes, this`tokens
      ensures routes == Filter(old(routes), NotIn(TenantOfRoute, FirstIDs(members, |members|)))
      ensures tokens == Filter(old(tokens), NotIn(TenantOfToken, FirstIDs(members, |members|)))
    {
      ghost var (routes0, tokens0) := (routes, tokens);
      var k := 0;
      while k < |members|
        invariant 0 <= k <= |members|
        invariant routes == Left(routes0, TenantOfRoute, members, k)
        invariant tokens == Left(tokens0, TenantOfToken, members, k)
      {
        DeleteRowsOf(TenantIDOf(members[k]));
        k := k + 1;
      }
      LeftIsFilter(routes0, TenantOfRoute, members, k);
      LeftIsFilter(tokens0, TenantOfToken, members, k);
    }

    /** The passes over the organisation's tenants delete exactly what belongs to it. */
    method DeleteOrg(orgID: string) returns (r: Result<(), Error>)
      modifies this
      ensures (r, Contents()) == TenantStore.DeleteOrg(old(Contents()), orgID)
    {
      var members := Filter(tenants, Is(OrgOf, orgID));
      MembersAreTheOrg(tenants, orgID);
      DeleteTenantRows(members);
      tenants := Filter(tenants, NotIn(OrgOf, {orgID}));
      r := if orgID in orgs then Ok(()) else Err(OrgNotFound);
      orgs := orgs - {orgID};
    }
  }
}
