/** Tenants, routes and tokens: the tables of the SQL store, one store call at a time. */
module TenantStore {
  import opened Options
  import opened Tables

  // ---------------------------------------------------------------- rows

  datatype TenantPayload = TenantPayload(name: string, tenantID: string, authMode: string, headerName: string)

  datatype Tenant = Tenant(id: string, payload: TenantPayload, orgID: string)

  datatype RoutePayload = RoutePayload(
    slug: string, targetPath: string, tenantID: string, requiredScope: string, upstreamURL: string,
    healthCheckPath: string, rateLimitRPM: int, rateLimitBurst: int, allowCIDRs: string, denyCIDRs: string)

  datatype Route = Route(id: string, payload: RoutePayload, methods: seq<string>)

  datatype Token = Token(
    id: string, name: string, tenantID: string, scopes: seq<string>, expiresAt: int, active: bool, hash: string,
    rateLimitRPM: int, rateLimitBurst: int)

  datatype Db = Db(orgs: set<string>, tenants: seq<Tenant>, routes: seq<Route>, tokens: seq<Token>)

  datatype Error =
    | TenantIDExists | TenantNotFound | TenantHasRoutes | TenantHasTokens | TenantIDDoesNotExist
    | SlugExists | RouteNotFound | TokenCreationFailed | TokenNotFound | OrgNotFound

  function IdOfTenant(t: Tenant): string { t.id }
  function TenantIDOf(t: Tenant): string { t.payload.tenantID }
  function IdOfRoute(r: Route): string { r.id }
  function SlugOf(r: Route): string { r.payload.slug }
  function TenantOfRoute(r: Route): string { r.payload.tenantID }
  function IdOfToken(t: Token): string { t.id }
  function HashOf(t: Token): string { t.hash }
  function TenantOfToken(t: Token): string { t.tenantID }

  /** The row test `column = value`. */
  function Is<T(!new)>(column: T -> string, value: string): T -> bool { (x: T) => column(x) == value }

  /** The row test `column NOT IN (values)`. */
  function NotIn<T(!new)>(column: T -> string, values: set<string>): T -> bool { (x: T) => column(x) !in values }

  predicate Has<T(!new)>(rows: seq<T>, column: T -> string, value: string) {
    Find(rows, Is(column, value)) < |rows|
  }

  // ---------------------------------------------------------------- invariant

  /** Both columns identify rows. */
  ghost predicate Keyed<T(!new)>(rows: seq<T>, a: T -> string, b: T -> string) { Unique(rows, a) && Unique(rows, b) }

  /** Every row names an existing tenant. */
  ghost predicate Refer<T(!new)>(rows: seq<T>, column: T -> string, tenants: seq<Tenant>) {
    forall x :: x in rows ==> Has(tenants, TenantIDOf, column(x))
  }

  ghost predicate Consistent(db: Db) {
    && Keyed(db.tenants, IdOfTenant, TenantIDOf)
    && Keyed(db.routes, IdOfRoute, SlugOf)
    && Keyed(db.tokens, IdOfToken, HashOf)
    && Refer(db.routes, TenantOfRoute, db.tenants)
    && Refer(db.tokens, TenantOfToken, db.tenants)
  }

  // ---------------------------------------------------------------- operations

  function CreateTenant(db: Db, id: string, payload: TenantPayload, orgID: string): (Result<Tenant, Error>, Db) {
    if Has(db.tenants, IdOfTenant, id) || Has(db.tenants, TenantIDOf, payload.tenantID) then (Err(TenantIDExists), db)
    else
      var row := Tenant(id, payload, orgID);
      (Ok(row), db.(tenants := db.tenants + [row]))
  }

  function MoveRoute(from: string, to: string): Route -> Route {
    (r: Route) => if r.payload.tenantID == from then r.(payload := r.payload.(tenantID := to)) else r
  }

  function MoveToken(from: string, to: string): Token -> Token {
    (t: Token) => if t.tenantID == from then t.(tenantID := to) else t
  }

  /** The record returned does not carry the organisation, which the row keeps. */
  function UpdateTenant(db: Db, id: string, payload: TenantPayload): (Result<Tenant, Error>, Db) {
    var i := Find(db.tenants, Is(IdOfTenant, id));
    if i == |db.tenants| then (Err(TenantNotFound), db)
    else
      var j := Find(db.tenants, Is(TenantIDOf, payload.tenantID));
      var (row, from) := (db.tenants[i].(payload := payload), db.tenants[i].payload.tenantID);
      if j < |db.tenants| && j != i then (Err(TenantIDExists), db)
      else (Ok(Tenant(id, payload, "")), db.(
        tenants := db.tenants[i := row],
        routes := Update(db.routes, MoveRoute(from, payload.tenantID)),
        tokens := Update(db.tokens, MoveToken(from, payload.tenantID))))
  }

  function DeleteTenant(db: Db, id: string): (Result<(), Error>, Db) {
    var i := Find(db.tenants, Is(IdOfTenant, id));
    if i == |db.tenants| then (Err(TenantNotFound), db)
    else if Has(db.routes, TenantOfRoute, db.tenants[i].payload.tenantID) then (Err(TenantHasRoutes), db)
    else if Has(db.tokens, TenantOfToken, db.tenants[i].payload.tenantID) then (Err(TenantHasTokens), db)
    else (Ok(()), db.(tenants := Filter(db.tenants, NotIn(IdOfTenant, {id}))))
  }

  function CreateRoute(db: Db, id: string, payload: RoutePayload, methods: seq<string>): (Result<Route, Error>, Db) {
    if !Has(db.tenants, TenantIDOf, payload.tenantID) then (Err(TenantIDDoesNotExist), db)
    else if Has(db.routes, IdOfRoute, id) || Has(db.routes, SlugOf, payload.slug) then (Err(SlugExists), db)
    else
      var row := Route(id, payload, methods);
      (Ok(row), db.(routes := db.routes + [row]))
  }

  function UpdateRoute(db: Db, id: string, payload: RoutePayload, methods: seq<string>): (Result<Route, Error>, Db) {
    var i := Find(db.routes, Is(IdOfRoute, id));
    var j := Find(db.routes, Is(SlugOf, payload.slug));
    if !Has(db.tenants, TenantIDOf, payload.tenantID) then (Err(TenantIDDoesNotExist), db)
    else if i == |db.routes| then (Err(RouteNotFound), db)
    else if j < |db.routes| && j != i then (Err(SlugExists), db)
    else
      var row := Route(id, payload, methods);
      (Ok(row), db.(routes := db.routes[i := row]))
  }

  function DeleteRoute(db: Db, id: string): (Result<(), Error>, Db) {
    if !Has(db.routes, IdOfRoute, id) then (Err(RouteNotFound), db)
    else (Ok(()), db.(routes := Filter(db.routes, NotIn(IdOfRoute, {id}))))
  }

  /** `row` is the token built from the payload; it is stored active. */
  function CreateToken(db: Db, row: Token): (Result<Token, Error>, Db) {
    if !Has(db.tenants, TenantIDOf, row.tenantID) then (Err(TenantIDDoesNotExist), db)
    else if Has(db.tokens, IdOfToken, row.id) || Has(db.tokens, HashOf, row.hash) then (Err(TokenCreationFailed), db)
    else
      var stored := row.(active := true);
      (Ok(stored), db.(tokens := db.tokens + [stored]))
  }

  function SetTokenActive(db: Db, id: string, active: bool): (Result<Token, Error>, Db) {
    var i := Find(db.tokens, Is(IdOfToken, id));
    if i == |db.tokens| then (Err(TokenNotFound), db)
    else
      var row := db.tokens[i].(active := active);
      (Ok(row), db.(tokens := db.tokens[i := row]))
  }

  function DeleteToken(db: Db, id: string): (Result<(), Error>, Db) {
    if !Has(db.tokens, IdOfToken, id) then (Err(TokenNotFound), db)
    else (Ok(()), db.(tokens := Filter(db.tokens, NotIn(IdOfToken, {id}))))
  }

  function OrgOf(t: Tenant): string { t.orgID }

  /** The tenantIDs of one organisation. */
  function TenantIDsOf(tenants: seq<Tenant>, orgID: string): set<string> {
    set t | t in tenants && t.orgID == orgID :: t.payload.tenantID
  }

  /** Everything of the organisation goes, whether or not the organisation row exists. */
  function DeleteOrg(db: Db, orgID: string): (Result<(), Error>, Db) {
    var dead := TenantIDsOf(db.tenants, orgID);
    var db' := Db(db.orgs - {orgID},
                  Filter(db.tenants, NotIn(OrgOf, {orgID})),
                  Filter(db.routes, NotIn(TenantOfRoute, dead)),
                  Filter(db.tokens, NotIn(TenantOfToken, dead)));
    (if orgID in db.orgs then Ok(()) else Err(OrgNotFound), db')
  }

  // ---------------------------------------------------------------- runs

  datatype Op =
    | CreateTenantOp(id: string, tenant: TenantPayload, orgID: string)
    | UpdateTenantOp(id: string, tenant: TenantPayload)
    | DeleteTenantOp(id: string)
    | CreateRouteOp(id: string, route: RoutePayload, methods: seq<string>)
    | UpdateRouteOp(id: string, route: RoutePayload, methods: seq<string>)
    | DeleteRouteOp(id: string)
    | CreateTokenOp(token: Token)
    | SetTokenActiveOp(id: string, active: bool)
    | DeleteTokenOp(id: string)
    | DeleteOrgOp(orgID: string)

  function Apply(db: Db, op: Op): Db {
    match op
    case CreateTenantOp(id, tenant, orgID) => CreateTenant(db, id, tenant, orgID).1
    case UpdateTenantOp(id, tenant) => UpdateTenant(db, id, tenant).1
    case DeleteTenantOp(id) => DeleteTenant(db, id).1
    case CreateRouteOp(id, route, methods) => CreateRoute(db, id, route, methods).1
    case UpdateRouteOp(id, route, methods) => UpdateRoute(db, id, route, methods).1
    case DeleteRouteOp(id) => DeleteRoute(db, id).1
    case CreateTokenOp(token) => CreateToken(db, token).1
    case SetTokenActiveOp(id, active) => SetTokenActive(db, id, active).1
    case DeleteTokenOp(id) => DeleteToken(db, id).1
    case DeleteOrgOp(orgID) => DeleteOrg(db, orgID).1
  }

  function Run(db: Db, ops: seq<Op>): Db
    decreases |ops|
  {
    if ops == [] then db else Run(Apply(db, ops[0]), ops[1..])
  }

  // ---------------------------------------------------------------- consistency of every run

  lemma HasIff<T(!new)>(rows: seq<T>, column: T -> string, value: string)
    ensures Has(rows, column, value) <==> exists x :: x in rows && column(x) == value
  {
    var i := Find(rows, Is(column, value));
    if x :| x in rows && column(x) == value {
      var j :| 0 <= j < |rows| && rows[j] == x;
      assert Is(column, value)(rows[j]);
    }
  }

  lemma InsertKeyed<T(!new)>(rows: seq<T>, a: T -> string, b: T -> string, row: T)
    requires Keyed(rows, a, b) && !Has(rows, a, a(row)) && !Has(rows, b, b(row))
    ensures Keyed(rows + [row], a, b)
  {
    InsertUnique(rows, a, row);
    InsertUnique(rows, b, row);
  }

  lemma InsertUnique<T(!new)>(rows: seq<T>, column: T -> string, row: T)
    requires Unique(rows, column) && !Has(rows, column, column(row))
    ensures Unique(rows + [row], column)
  {
    forall i | 0 <= i < |rows| ensures column(rows[i]) != column(row) {
      assert !Is(column, column(row))(rows[i]);
    }
  }

  /** Overwriting row `i` keeps a column unique when no other row has its new value. */
  lemma OverwriteUnique<T(!new)>(rows: seq<T>, column: T -> string, i: nat, row: T)
    requires i < |rows| && Unique(rows, column)
    requires var j := Find(rows, Is(column, column(row))); j == |rows| || j == i
    ensures Unique(rows[i := row], column)
  {
    var j := Find(rows, Is(column, column(row)));
    forall k | 0 <= k < |rows| && k != i ensures column(rows[k]) != column(row) {
      assert column(rows[k]) != column(rows[i]);
      if k < j {
        assert !Is(column, column(row))(rows[k]);
      }
    }
  }

  /** Overwriting row `i` without touching a column keeps it unique. */
  lemma OverwriteSame<T(!new)>(rows: seq<T>, column: T -> string, i: nat, row: T)
    requires i < |rows| && Unique(rows, column) && column(row) == column(rows[i])
    ensures Unique(rows[i := row], column)
  {
  }

  lemma FilterKeyed<T(!new)>(rows: seq<T>, keep: T -> bool, a: T -> string, b: T -> string)
    requires Keyed(rows, a, b)
    ensures Keyed(Filter(rows, keep), a, b)
  {
    FilterUnique(rows, keep, a);
    FilterUnique(rows, keep, b);
  }

  /** An update of row contents keeps the uniqueness of every column it leaves alone. */
  lemma UpdateKeyed<T(!new)>(rows: seq<T>, f: T -> T, a: T -> string, b: T -> string)
    requires Keyed(rows, a, b) && forall x :: x in rows ==> a(f(x)) == a(x) && b(f(x)) == b(x)
    ensures Keyed(Update(rows, f), a, b)
  {
  }

  /** References hold when no row is new and every tenant that is named stays. */
  lemma ReferSurvives<T(!new)>(
      rows: seq<T>, column: T -> string, tenants: seq<Tenant>, rows': seq<T>, tenants': seq<Tenant>)
    requires Refer(rows, column, tenants)
    requires forall x :: x in rows' ==> x in rows
    requires forall x, t :: x in rows' && t in tenants && TenantIDOf(t) == column(x) ==> t in tenants'
    ensures Refer(rows', column, tenants')
  {
    forall x | x in rows' ensures Has(tenants', TenantIDOf, column(x)) {
      HasIff(tenants, TenantIDOf, column(x));
      HasIff(tenants', TenantIDOf, column(x));
    }
  }

  lemma CreateTenantConsistent(db: Db, id: string, payload: TenantPayload, orgID: string)
    requires Consistent(db)
    ensures Consistent(CreateTenant(db, id, payload, orgID).1)
  {
    var (result, db') := CreateTenant(db, id, payload, orgID);
    if result.Ok? {
      InsertKeyed(db.tenants, IdOfTenant, TenantIDOf, result.value);
      ReferSurvives(db.routes, TenantOfRoute, db.tenants, db.routes, db'.tenants);
      ReferSurvives(db.tokens, TenantOfToken, db.tenants, db.tokens, db'.tenants);
    }
  }

  lemma CreateRouteConsistent(db: Db, id: string, payload: RoutePayload, methods: seq<string>)
    requires Consistent(db)
    ensures Consistent(CreateRoute(db, id, payload, methods).1)
  {
    var (result, db') := CreateRoute(db, id, payload, methods);
    if result.Ok? {
      InsertKeyed(db.routes, IdOfRoute, SlugOf, result.value);
    }
  }

  lemma CreateTokenConsistent(db: Db, row: Token)
    requires Consistent(db)
    ensures Consistent(CreateToken(db, row).1)
  {
    var (result, db') := CreateToken(db, row);
    if result.Ok? {
      InsertKeyed(db.tokens, IdOfToken, HashOf, result.value);
    }
  }

  /** A tenant that routes or tokens name cannot be deleted. */
  lemma DeleteTenantConsistent(db: Db, id: string)
    requires Consistent(db)
    ensures Consistent(DeleteTenant(db, id).1)
  {
    var (result, db') := DeleteTenant(db, id);
    var i := Find(db.tenants, Is(IdOfTenant, id));
    if result.Ok? {
      FilterKeyed(db.tenants, NotIn(IdOfTenant, {id}), IdOfTenant, TenantIDOf);
      HasIff(db.routes, TenantOfRoute, TenantIDOf(db.tenants[i]));
      HasIff(db.tokens, TenantOfToken, TenantIDOf(db.tenants[i]));
      forall t | t in db.tenants && TenantIDOf(t) != TenantIDOf(db.tenants[i]) ensures t in db'.tenants {
        var k :| 0 <= k < |db.tenants| && db.tenants[k] == t;
        assert IdOfTenant(t) != id;
      }
      ReferSurvives(db.routes, TenantOfRoute, db.tenants, db.routes, db'.tenants);
      ReferSurvives(db.tokens, TenantOfToken, db.tenants, db.tokens, db'.tenants);
    }
  }

  lemma DeleteRowConsistent(db: Db, id: string)
    requires Consistent(db)
    ensures Consistent(DeleteRoute(db, id).1) && Consistent(DeleteToken(db, id).1)
  {
    FilterKeyed(db.routes, NotIn(IdOfRoute, {id}), IdOfRoute, SlugOf);
    FilterKeyed(db.tokens, NotIn(IdOfToken, {id}), IdOfToken, HashOf);
  }

  /** An organisation takes its tenants' routes and tokens along. */
  lemma DeleteOrgConsistent(db: Db, orgID: string)
    requires Consistent(db)
    ensures Consistent(DeleteOrg(db, orgID).1)
  {
    var db' := DeleteOrg(db, orgID).1;
    var dead := TenantIDsOf(db.tenants, orgID);
    FilterKeyed(db.tenants, NotIn(OrgOf, {orgID}), IdOfTenant, TenantIDOf);
    FilterKeyed(db.routes, NotIn(TenantOfRoute, dead), IdOfRoute, SlugOf);
    FilterKeyed(db.tokens, NotIn(TenantOfToken, dead), IdOfToken, HashOf);
    forall t | t in db.tenants && TenantIDOf(t) !in dead ensures t in db'.tenants {
      assert OrgOf(t) != orgID;
    }
    ReferSurvives(db.routes, TenantOfRoute, db.tenants, db'.routes, db'.tenants);
    ReferSurvives(db.tokens, TenantOfToken, db.tenants, db'.tokens, db'.tenants);
  }

  /** A rename takes every row that names the tenant with it. */
  lemma ReferMoves<T(!new)>(
      rows: seq<T>, column: T -> string, tenants: seq<Tenant>, i: nat, row: Tenant, f: T -> T)
    requires Refer(rows, column, tenants) && i < |tenants|
    requires forall x :: x in rows ==>
               column(f(x)) == if column(x) == TenantIDOf(tenants[i]) then TenantIDOf(row) else column(x)
    ensures Refer(Update(rows, f), column, tenants[i := row])
  {
    forall y | y in Update(rows, f) ensures Has(tenants[i := row], TenantIDOf, column(y)) {
      var j :| 0 <= j < |rows| && Update(rows, f)[j] == y;
      assert rows[j] in rows;
      HasIff(tenants, TenantIDOf, column(rows[j]));
      var k :| 0 <= k < |tenants| && TenantIDOf(tenants[k]) == column(rows[j]);
      assert tenants[i := row][if column(rows[j]) == TenantIDOf(tenants[i]) then i else k] in tenants[i := row];
      HasIff(tenants[i := row], TenantIDOf, column(y));
    }
  }

  lemma UpdateTenantConsistent(db: Db, id: string, payload: TenantPayload)
    requires Consistent(db)
    ensures Consistent(UpdateTenant(db, id, payload).1)
  {
    var (result, db') := UpdateTenant(db, id, payload);
    var i := Find(db.tenants, Is(IdOfTenant, id));
    if result.Ok? {
      var (from, to, row) := (TenantIDOf(db.tenants[i]), payload.tenantID, db.tenants[i].(payload := payload));
      assert TenantIDOf(row) == to;
      OverwriteUnique(db.tenants, TenantIDOf, i, row);
      OverwriteSame(db.tenants, IdOfTenant, i, row);
      UpdateKeyed(db.routes, MoveRoute(from, to), IdOfRoute, SlugOf);
      UpdateKeyed(db.tokens, MoveToken(from, to), IdOfToken, HashOf);
      ReferMoves(db.routes, TenantOfRoute, db.tenants, i, row, MoveRoute(from, to));
      ReferMoves(db.tokens, TenantOfToken, db.tenants, i, row, MoveToken(from, to));
    }
  }

  lemma UpdateRouteConsistent(db: Db, id: string, payload: RoutePayload, methods: seq<string>)
    requires Consistent(db)
    ensures Consistent(UpdateRoute(db, id, payload, methods).1)
  {
    var i := Find(db.routes, Is(IdOfRoute, id));
    var (result, db') := UpdateRoute(db, id, payload, methods);
    if result.Ok? {
      assert SlugOf(result.value) == payload.slug;
      OverwriteSame(db.routes, IdOfRoute, i, result.value);
      OverwriteUnique(db.routes, SlugOf, i, result.value);
    }
  }

  lemma SetTokenActiveConsistent(db: Db, id: string, active: bool)
    requires Consistent(db)
    ensures Consistent(SetTokenActive(db, id, active).1)
  {
    var i := Find(db.tokens, Is(IdOfToken, id));
    if i < |db.tokens| {
      var row := db.tokens[i].(active := active);
      OverwriteSame(db.tokens, IdOfToken, i, row);
      OverwriteSame(db.tokens, HashOf, i, row);
      assert db.tokens[i] in db.tokens && TenantOfToken(row) == TenantOfToken(db.tokens[i]);
    }
  }

  lemma ApplyConsistent(db: Db, op: Op)
    requires Consistent(db)
    ensures Consistent(Apply(db, op))
  {
    match op
    case CreateTenantOp(id, tenant, orgID) => CreateTenantConsistent(db, id, tenant, orgID);
    case UpdateTenantOp(id, tenant) => UpdateTenantConsistent(db, id, tenant);
    case DeleteTenantOp(id) => DeleteTenantConsistent(db, id);
    case DeleteOrgOp(orgID) => DeleteOrgConsistent(db, orgID);
    case _ => ApplyToRowsConsistent(db, op);
  }

  lemma ApplyToRowsConsistent(db: Db, op: Op)
    requires Consistent(db)
    requires !op.CreateTenantOp? && !op.UpdateTenantOp? && !op.DeleteTenantOp? && !op.DeleteOrgOp?
    ensures Consistent(Apply(db, op))
  {
    match op
    case CreateRouteOp(id, route, methods) => CreateRouteConsistent(db, id, route, methods);
    case UpdateRouteOp(id, route, methods) => UpdateRouteConsistent(db, id, route, methods);
    case DeleteRouteOp(id) => DeleteRowConsistent(db, id);
    case CreateTokenOp(token) => CreateTokenConsistent(db, token);
    case SetTokenActiveOp(id, active) => SetTokenActiveConsistent(db, id, active);
    case DeleteTokenOp(id) => DeleteRowConsistent(db, id);
  }

  /** Every run of store calls keeps IDs, tenantIDs, slugs and hashes unique and every
      route and token pointing at an existing tenant. */
  lemma {:induction false} RunConsistent(db: Db, ops: seq<Op>)
    requires Consistent(db)
    ensures Consistent(Run(db, ops))
    decreases |ops|
  {
    if ops != [] {
      ApplyConsistent(db, ops[0]);
      RunConsistent(Apply(db, ops[0]), ops[1..]);
    }
  }

  // ---------------------------------------------------------------- what the operations do

  /** Deleting by a unique column takes out one row. */
  lemma {:induction false} FilterOut<T(!new)>(rows: seq<T>, column: T -> string, i: nat)
    requires i < |rows| && Unique(rows, column)
    ensures Filter(rows, NotIn(column, {column(rows[i])})) == rows[..i] + rows[i + 1..]
  {
    var (rest, keep) := (rows[1..], NotIn(column, {column(rows[i])}));
    if i == 0 {
      forall x | x in rest ensures keep(x) {
        var k :| 1 <= k < |rows| && rows[k] == x;
      }
      FilterAll(rest, keep);
    } else {
      FilterOut(rest, column, i - 1);
      assert keep(rows[0]) && rest[i - 1] == rows[i];
      assert rows[..i] == [rows[0]] + rest[..i - 1] && rows[i + 1..] == rest[i..];
    }
  }

  lemma FindIs<T(!new)>(rows: seq<T>, column: T -> string, i: nat)
    requires i < |rows| && Unique(rows, column)
    ensures Find(rows, Is(column, column(rows[i]))) == i
  {
    var j := Find(rows, Is(column, column(rows[i])));
    assert Is(column, column(rows[i]))(rows[i]);
    assert j <= i;
  }

  /** The row found with a value is another row exactly when another row has the value. */
  lemma OtherHolds<T(!new)>(rows: seq<T>, id: T -> string, column: T -> string, i: nat, value: string)
    requires i < |rows| && Keyed(rows, id, column)
    ensures var j := Find(rows, Is(column, value));
            (j < |rows| && j != i) <==> exists x :: x in rows && id(x) != id(rows[i]) && column(x) == value
  {
    var j := Find(rows, Is(column, value));
    if j < |rows| && j != i {
      assert id(rows[j]) != id(rows[i]) && column(rows[j]) == value && rows[j] in rows;
    }
    if x :| x in rows && id(x) != id(rows[i]) && column(x) == value {
      var k :| 0 <= k < |rows| && rows[k] == x;
      FindIs(rows, column, k);
    }
  }

  lemma FindNone<T(!new)>(rows: seq<T>, column: T -> string, value: string)
    requires forall x :: x in rows ==> column(x) != value
    ensures Find(rows, Is(column, value)) == |rows| && !Has(rows, column, value)
  {
  }

  lemma CreateTenantMeans(db: Db, id: string, payload: TenantPayload, orgID: string)
    ensures CreateTenant(db, id, payload, orgID)
              == if exists t :: t in db.tenants && (t.id == id || t.payload.tenantID == payload.tenantID)
                 then (Err(TenantIDExists), db)
                 else (Ok(Tenant(id, payload, orgID)), db.(tenants := db.tenants + [Tenant(id, payload, orgID)]))
  {
    HasIff(db.tenants, IdOfTenant, id);
    HasIff(db.tenants, TenantIDOf, payload.tenantID);
  }

  function Renamed(db: Db, i: nat, payload: TenantPayload): Db
    requires i < |db.tenants|
  {
    var (from, to) := (db.tenants[i].payload.tenantID, payload.tenantID);
    db.(tenants := db.tenants[i := Tenant(db.tenants[i].id, payload, db.tenants[i].orgID)],
        routes := seq(|db.routes|, k requires 0 <= k < |db.routes| =>
                      var r := db.routes[k];
                      if r.payload.tenantID == from then r.(payload := r.payload.(tenantID := to)) else r),
        tokens := seq(|db.tokens|, k requires 0 <= k < |db.tokens| =>
                      var t := db.tokens[k]; if t.tenantID == from then t.(tenantID := to) else t))
  }

  /** A rename gives the tenant its new payload and every row that named it the new
      tenantID; it is refused when another tenant has that. */
  lemma UpdateTenantMeans(db: Db, id: string, payload: TenantPayload)
    requires Consistent(db)
    ensures (forall t :: t in db.tenants ==> t.id != id) ==>
              UpdateTenant(db, id, payload) == (Err(TenantNotFound), db)
    ensures forall i :: 0 <= i < |db.tenants| && db.tenants[i].id == id ==>
              UpdateTenant(db, id, payload)
                == if exists t :: t in db.tenants && t.id != id && t.payload.tenantID == payload.tenantID
                   then (Err(TenantIDExists), db)
                   else (Ok(Tenant(id, payload, "")), Renamed(db, i, payload))
  {
    if forall t :: t in db.tenants ==> t.id != id {
      FindNone(db.tenants, IdOfTenant, id);
    }
    forall i | 0 <= i < |db.tenants| && db.tenants[i].id == id
      ensures UpdateTenant(db, id, payload)
                == if exists t :: t in db.tenants && t.id != id && t.payload.tenantID == payload.tenantID
                   then (Err(TenantIDExists), db)
                   else (Ok(Tenant(id, payload, "")), Renamed(db, i, payload))
    {
      RenamedIs(db, i, payload);
    }
  }

  lemma RenamedIs(db: Db, i: nat, payload: TenantPayload)
    requires Consistent(db) && i < |db.tenants|
    ensures var id := db.tenants[i].id;
            UpdateTenant(db, id, payload)
              == if exists t :: t in db.tenants && t.id != id && t.payload.tenantID == payload.tenantID
                 then (Err(TenantIDExists), db)
                 else (Ok(Tenant(id, payload, "")), Renamed(db, i, payload))
  {
    var (id, from) := (db.tenants[i].id, db.tenants[i].payload.tenantID);
    FindIs(db.tenants, IdOfTenant, i);
    assert IdOfTenant(db.tenants[i]) == id;
    OtherHolds(db.tenants, IdOfTenant, TenantIDOf, i, payload.tenantID);
    assert forall t: Tenant :: IdOfTenant(t) == t.id && TenantIDOf(t) == t.payload.tenantID;
    assert Update(db.routes, MoveRoute(from, payload.tenantID)) == Renamed(db, i, payload).routes;
    assert Update(db.tokens, MoveToken(from, payload.tenantID)) == Renamed(db, i, payload).tokens;
  }

  /** A tenant goes only when no route and no token names it. */
  lemma DeleteTenantMeans(db: Db, id: string)
    requires Consistent(db)
    ensures (forall t :: t in db.tenants ==> t.id != id) ==> DeleteTenant(db, id) == (Err(TenantNotFound), db)
    ensures forall i :: 0 <= i < |db.tenants| && db.tenants[i].id == id ==>
              DeleteTenant(db, id)
                == if exists r :: r in db.routes && r.payload.tenantID == db.tenants[i].payload.tenantID
                   then (Err(TenantHasRoutes), db)
                   else if exists t :: t in db.tokens && t.tenantID == db.tenants[i].payload.tenantID
                   then (Err(TenantHasTokens), db)
                   else (Ok(()), db.(tenants := db.tenants[..i] + db.tenants[i + 1..]))
  {
    if forall t :: t in db.tenants ==> t.id != id {
      FindNone(db.tenants, IdOfTenant, id);
    }
    forall i | 0 <= i < |db.tenants| && db.tenants[i].id == id
      ensures Find(db.tenants, Is(IdOfTenant, id)) == i
      ensures Filter(db.tenants, NotIn(IdOfTenant, {id})) == db.tenants[..i] + db.tenants[i + 1..]
    {
      assert IdOfTenant(db.tenants[i]) == id;
      FindIs(db.tenants, IdOfTenant, i);
      FilterOut(db.tenants, IdOfTenant, i);
      HasIff(db.routes, TenantOfRoute, db.tenants[i].payload.tenantID);
      HasIff(db.tokens, TenantOfToken, db.tenants[i].payload.tenantID);
    }
    forall v ensures Has(db.routes, TenantOfRoute, v) <==> exists r :: r in db.routes && r.payload.tenantID == v {
      HasIff(db.routes, TenantOfRoute, v);
    }
    forall v ensures Has(db.tokens, TenantOfToken, v) <==> exists t :: t in db.tokens && t.tenantID == v {
      HasIff(db.tokens, TenantOfToken, v);
    }
  }

  lemma CreateRouteMeans(db: Db, id: string, payload: RoutePayload, methods: seq<string>)
    ensures CreateRoute(db, id, payload, methods)
              == if forall t :: t in db.tenants ==> t.payload.tenantID != payload.tenantID
                 then (Err(TenantIDDoesNotExist), db)
                 else if exists r :: r in db.routes && (r.id == id || r.payload.slug == payload.slug)
                 then (Err(SlugExists), db)
                 else (Ok(Route(id, payload, methods)), db.(routes := db.routes + [Route(id, payload, methods)]))
  {
    HasIff(db.tenants, TenantIDOf, payload.tenantID);
    HasIff(db.routes, IdOfRoute, id);
    HasIff(db.routes, SlugOf, payload.slug);
  }

  lemma UpdateRouteMeans(db: Db, id: string, payload: RoutePayload, methods: seq<string>)
    requires Consistent(db)
    ensures (forall t :: t in db.tenants ==> t.payload.tenantID != payload.tenantID) ==>
              UpdateRoute(db, id, payload, methods) == (Err(TenantIDDoesNotExist), db)
    ensures (exists t :: t in db.tenants && t.payload.tenantID == payload.tenantID) ==>
              (forall r :: r in db.routes ==> r.id != id) ==>
                UpdateRoute(db, id, payload, methods) == (Err(RouteNotFound), db)
    ensures (exists t :: t in db.tenants && t.payload.tenantID == payload.tenantID) ==>
              forall i :: 0 <= i < |db.routes| && db.routes[i].id == id ==>
                UpdateRoute(db, id, payload, methods)
                  == if exists r :: r in db.routes && r.id != id && r.payload.slug == payload.slug
                     then (Err(SlugExists), db)
                     else (Ok(Route(id, payload, methods)), db.(routes := db.routes[i := Route(id, payload, methods)]))
  {
    HasIff(db.tenants, TenantIDOf, payload.tenantID);
    if forall r :: r in db.routes ==> r.id != id {
      FindNone(db.routes, IdOfRoute, id);
    }
    forall i | 0 <= i < |db.routes| && db.routes[i].id == id
      ensures Find(db.routes, Is(IdOfRoute, id)) == i
      ensures var j := Find(db.routes, Is(SlugOf, payload.slug));
              (j < |db.routes| && j != i)
              <==> exists r :: r in db.routes && r.id != id && r.payload.slug == payload.slug
    {
      assert IdOfRoute(db.routes[i]) == id;
      FindIs(db.routes, IdOfRoute, i);
      OtherHolds(db.routes, IdOfRoute, SlugOf, i, payload.slug);
      assert forall r: Route :: IdOfRoute(r) == r.id && SlugOf(r) == r.payload.slug;
    }
  }

  /** A new token is active, whatever its row says. */
  lemma CreateTokenMeans(db: Db, row: Token)
    ensures CreateToken(db, row)
              == if forall t :: t in db.tenants ==> t.payload.tenantID != row.tenantID
                 then (Err(TenantIDDoesNotExist), db)
                 else if exists t :: t in db.tokens && (t.id == row.id || t.hash == row.hash)
                 then (Err(TokenCreationFailed), db)
                 else (Ok(row.(active := true)), db.(tokens := db.tokens + [row.(active := true)]))
  {
    HasIff(db.tenants, TenantIDOf, row.tenantID);
    HasIff(db.tokens, IdOfToken, row.id);
    HasIff(db.tokens, HashOf, row.hash);
  }

  /** Deleting a route or a token, or setting a token's flag, concerns the row with that ID. */
  lemma ByIdMeans(db: Db, id: string, active: bool)
    requires Consistent(db)
    ensures (forall r :: r in db.routes ==> r.id != id) ==> DeleteRoute(db, id) == (Err(RouteNotFound), db)
    ensures (forall t :: t in db.tokens ==> t.id != id) ==>
              && DeleteToken(db, id) == (Err(TokenNotFound), db)
              && SetTokenActive(db, id, active) == (Err(TokenNotFound), db)
    ensures forall i :: 0 <= i < |db.routes| && db.routes[i].id == id ==>
              DeleteRoute(db, id) == (Ok(()), db.(routes := db.routes[..i] + db.routes[i + 1..]))
    ensures forall i :: 0 <= i < |db.tokens| && db.tokens[i].id == id ==>
              && DeleteToken(db, id) == (Ok(()), db.(tokens := db.tokens[..i] + db.tokens[i + 1..]))
              && var row := db.tokens[i].(active := active);
                 SetTokenActive(db, id, active) == (Ok(row), db.(tokens := db.tokens[i := row]))
  {
    HasIff(db.routes, IdOfRoute, id);
    HasIff(db.tokens, IdOfToken, id);
    forall i | 0 <= i < |db.routes| && db.routes[i].id == id
      ensures DeleteRoute(db, id) == (Ok(()), db.(routes := db.routes[..i] + db.routes[i + 1..]))
    {
      assert IdOfRoute(db.routes[i]) == id && db.routes[i] in db.routes;
      FilterOut(db.routes, IdOfRoute, i);
    }
    forall i | 0 <= i < |db.tokens| && db.tokens[i].id == id
      ensures DeleteToken(db, id) == (Ok(()), db.(tokens := db.tokens[..i] + db.tokens[i + 1..]))
      ensures Find(db.tokens, Is(IdOfToken, id)) == i
    {
      assert IdOfToken(db.tokens[i]) == id && db.tokens[i] in db.tokens;
      FilterOut(db.tokens, IdOfToken, i);
      FindIs(db.tokens, IdOfToken, i);
    }
  }

  /** Exactly the rows of the organisation's tenants go; what stays, stays as often. */
  lemma DeleteOrgMeans(db: Db, orgID: string, tenant: Tenant, route: Route, token: Token)
    ensures var (r, after) := DeleteOrg(db, orgID);
            && (r == if orgID in db.orgs then Ok(()) else Err(OrgNotFound)) && after.orgs == db.orgs - {orgID}
            && multiset(after.tenants)[tenant] == (if tenant.orgID == orgID then 0 else multiset(db.tenants)[tenant])
            && multiset(after.routes)[route]
                 == (if exists t :: t in db.tenants && t.orgID == orgID && t.payload.tenantID == route.payload.tenantID
                     then 0 else multiset(db.routes)[route])
            && multiset(after.tokens)[token]
                 == (if exists t :: t in db.tenants && t.orgID == orgID && t.payload.tenantID == token.tenantID
                     then 0 else multiset(db.tokens)[token])
  {
    var dead := TenantIDsOf(db.tenants, orgID);
    FilterCounts(db.tenants, NotIn(OrgOf, {orgID}), tenant);
    FilterCounts(db.routes, NotIn(TenantOfRoute, dead), route);
    FilterCounts(db.tokens, NotIn(TenantOfToken, dead), token);
    assert OrgOf(tenant) == tenant.orgID;
    assert TenantOfRoute(route) == route.payload.tenantID && TenantOfToken(token) == token.tenantID;
  }

  // ---------------------------------------------------------------- access

  /** What the proxy makes of a secret's hash on a route. */
  datatype Access = Unauthenticated | ForeignTenant | ScopeMissing | Granted(token: Token)

  function Live(hash: string, now: int): Token -> bool {
    (t: Token) => t.hash == hash && t.active && t.expiresAt > now
  }

  /** The token validated first, then its tenant and its scopes against the route's. */
  function Authorize(tokens: seq<Token>, route: Route, hash: string, now: int): Access {
    var i := Find(tokens, Live(hash, now));
    if i == |tokens| then Unauthenticated
    else if tokens[i].tenantID != route.payload.tenantID then ForeignTenant
    else if route.payload.requiredScope != "" && route.payload.requiredScope !in tokens[i].scopes then ScopeMissing
    else Granted(tokens[i])
  }

  /** A secret opens a route exactly when its token is there, active and not expired,
      belongs to the route's tenant and has the scope that the route asks for, if any. */
  lemma GrantedIff(db: Db, route: Route, hash: string, now: int, t: Token)
    requires Consistent(db)
    ensures Authorize(db.tokens, route, hash, now) == Granted(t)
            <==> && t in db.tokens && t.hash == hash && t.active && now < t.expiresAt
                 && t.tenantID == route.payload.tenantID
                 && (route.payload.requiredScope == "" || exists s :: s in t.scopes && s == route.payload.requiredScope)
    ensures t in db.tokens && t.hash == hash && t.active && now < t.expiresAt ==>
              (Authorize(db.tokens, route, hash, now) == Granted(t) <==> MayUse(t, route))
  {
    var i := Find(db.tokens, Live(hash, now));
    if t in db.tokens && t.hash == hash && t.active && now < t.expiresAt {
      var k :| 0 <= k < |db.tokens| && db.tokens[k] == t;
      assert Live(hash, now)(db.tokens[k]);
      assert i <= k && Live(hash, now)(db.tokens[i]);
      assert HashOf(db.tokens[i]) == HashOf(db.tokens[k]);
    }
  }

  /** Whoever has `hash` is token `id`, and it is switched off. */
  ghost predicate SwitchedOff(db: Db, hash: string, id: string) {
    forall t :: t in db.tokens && t.hash == hash ==> t.id == id && !t.active
  }

  /** Neither switches the token on nor creates one with its hash. */
  predicate Leaves(op: Op, hash: string, id: string) {
    op != SetTokenActiveOp(id, true) && !(op.CreateTokenOp? && op.token.hash == hash)
  }

  lemma SwitchedOffMoved(db: Db, from: string, to: string, hash: string, id: string)
    requires SwitchedOff(db, hash, id)
    ensures SwitchedOff(db.(tokens := Update(db.tokens, MoveToken(from, to))), hash, id)
  {
    var after := Update(db.tokens, MoveToken(from, to));
    forall t | t in after && t.hash == hash ensures t.id == id && !t.active {
      var k :| 0 <= k < |after| && after[k] == t;
      var u := db.tokens[k];
      assert u in db.tokens && t == MoveToken(from, to)(u);
    }
  }

  lemma SwitchedOffSet(db: Db, other: string, active: bool, hash: string, id: string)
    requires SwitchedOff(db, hash, id) && (other == id ==> !active)
    ensures SwitchedOff(SetTokenActive(db, other, active).1, hash, id)
  {
    var i := Find(db.tokens, Is(IdOfToken, other));
    if i < |db.tokens| {
      var u := db.tokens[i];
      assert u in db.tokens && Is(IdOfToken, other)(u) && IdOfToken(u) == u.id;
      forall t | t in db.tokens[i := u.(active := active)] ensures t in db.tokens || t == u.(active := active) {
      }
    }
  }

  lemma SwitchedOffStep(db: Db, op: Op, hash: string, id: string)
    requires SwitchedOff(db, hash, id) && Leaves(op, hash, id)
    ensures SwitchedOff(Apply(db, op), hash, id)
  {
    match op
    case UpdateTenantOp(other, payload) =>
      var i := Find(db.tenants, Is(IdOfTenant, other));
      if i < |db.tenants| {
        SwitchedOffMoved(db, db.tenants[i].payload.tenantID, payload.tenantID, hash, id);
      }
    case SetTokenActiveOp(other, active) => SwitchedOffSet(db, other, active, hash, id);
    case CreateTokenOp(token) =>
    case DeleteTokenOp(other) =>
    case DeleteOrgOp(orgID) =>
    case _ =>
  }

  /** A token that is switched off opens no route at any time, whatever happens to tenants,
      routes and other tokens, until it is switched on again or its hash is created anew. */
  lemma {:induction false} SwitchedOffStaysOut(db: Db, ops: seq<Op>, hash: string, id: string, route: Route, now: int)
    requires SwitchedOff(db, hash, id) && forall k :: 0 <= k < |ops| ==> Leaves(ops[k], hash, id)
    ensures Authorize(Run(db, ops).tokens, route, hash, now) == Unauthenticated
    decreases |ops|
  {
    if ops != [] {
      SwitchedOffStep(db, ops[0], hash, id);
      SwitchedOffStaysOut(Apply(db, ops[0]), ops[1..], hash, id, route, now);
    } else {
      forall i | 0 <= i < |db.tokens| ensures !Live(hash, now)(db.tokens[i]) {
        assert db.tokens[i] in db.tokens;
      }
    }
  }

  /** The relation "token may use route": same tenant, and the required scope held. */
  predicate MayUse(token: Token, route: Route) {
    token.tenantID == route.payload.tenantID
    && (route.payload.requiredScope == "" || route.payload.requiredScope in token.scopes)
  }

  /** A tenant update keeps whose tenant is whose. */
  lemma RenameSeparates(db: Db, id: string, payload: TenantPayload, t: nat, r: nat)
    requires Consistent(db) && t < |db.tokens| && r < |db.routes|
    ensures var db' := UpdateTenant(db, id, payload).1;
            && |db'.routes| == |db.routes| && |db'.tokens| == |db.tokens|
            && (db'.tokens[t].tenantID == db'.routes[r].payload.tenantID
                <==> db.tokens[t].tenantID == db.routes[r].payload.tenantID)
  {
    var i := Find(db.tenants, Is(IdOfTenant, id));
    if UpdateTenant(db, id, payload).0.Ok? && db.tenants[i].payload.tenantID != payload.tenantID {
      assert TenantIDOf(db.tenants[i]) == db.tenants[i].payload.tenantID;
      assert db.routes[r] in db.routes && TenantOfRoute(db.routes[r]) != payload.tenantID;
      assert db.tokens[t] in db.tokens && TenantOfToken(db.tokens[t]) != payload.tenantID;
    }
  }

  /** A tenant update, renaming or not, changes nobody's access: row by row, a token may
      use a route afterwards exactly when it might before. */
  lemma RenamePreservesAccess(db: Db, id: string, payload: TenantPayload)
    requires Consistent(db)
    ensures var db' := UpdateTenant(db, id, payload).1;
            && |db'.routes| == |db.routes| && |db'.tokens| == |db.tokens|
            && forall t, r :: 0 <= t < |db.tokens| && 0 <= r < |db.routes| ==>
                 && db'.tokens[t].id == db.tokens[t].id && db'.routes[r].id == db.routes[r].id
                 && (MayUse(db'.tokens[t], db'.routes[r]) <==> MayUse(db.tokens[t], db.routes[r]))
  {
    forall t, r | 0 <= t < |db.tokens| && 0 <= r < |db.routes|
      ensures var db' := UpdateTenant(db, id, payload).1;
              MayUse(db'.tokens[t], db'.routes[r]) <==> MayUse(db.tokens[t], db.routes[r])
    {
      RenameSeparates(db, id, payload, t, r);
    }
  }

  /** The same answer, for a token that only its tenantID may tell apart. */
  predicate SameAnswer(a: Access, b: Access) {
    match (a, b)
    case (Granted(t), Granted(u)) => t.(tenantID := "") == u.(tenantID := "")
    case _ => a == b
  }

  /** So the proxy gives every secret the same answer on every route as before. */
  lemma RenameKeepsAnswers(db: Db, id: string, payload: TenantPayload, r: nat, hash: string, now: int)
    requires Consistent(db) && r < |db.routes|
    ensures var db' := UpdateTenant(db, id, payload).1;
            && |db'.routes| == |db.routes|
            && SameAnswer(Authorize(db'.tokens, db'.routes[r], hash, now),
                          Authorize(db.tokens, db.routes[r], hash, now))
  {
    var db' := UpdateTenant(db, id, payload).1;
    var i := Find(db.tenants, Is(IdOfTenant, id));
    if UpdateTenant(db, id, payload).0.Ok? {
      FindMoved(db.tokens, db.tenants[i].payload.tenantID, payload.tenantID, hash, now);
      var k := Find(db.tokens, Live(hash, now));
      if k < |db.tokens| {
        RenameSeparates(db, id, payload, k, r);
      }
    }
  }

  lemma {:induction false} FindMoved(tokens: seq<Token>, from: string, to: string, hash: string, now: int)
    ensures Find(Update(tokens, MoveToken(from, to)), Live(hash, now)) == Find(tokens, Live(hash, now))
  {
    if tokens != [] {
      FindMoved(tokens[1..], from, to, hash, now);
      assert Update(tokens, MoveToken(from, to))[1..] == Update(tokens[1..], MoveToken(from, to));
      assert Live(hash, now)(MoveToken(from, to)(tokens[0])) == Live(hash, now)(tokens[0]);
    }
  }

  // ---------------------------------------------------------------- organisation-scoped lists

  /** The tenants a row joins to within an organisation, one result row for each. */
  function Matches<T>(row: T, tenantID: string, tenants: seq<Tenant>, orgID: string): seq<T> {
    if tenants == [] then []
    else (if tenants[0].payload.tenantID == tenantID && tenants[0].orgID == orgID then [row] else [])
         + Matches(row, tenantID, tenants[1..], orgID)
  }

  /** FROM rows INNER JOIN tenants ON tenant_id WHERE org_id = orgID. */
  function InnerJoin<T>(rows: seq<T>, column: T -> string, tenants: seq<Tenant>, orgID: string): seq<T> {
    if rows == [] then []
    else Matches(rows[0], column(rows[0]), tenants, orgID) + InnerJoin(rows[1..], column, tenants, orgID)
  }

  /** The organisation of the tenant with this tenantID, or none. */
  function OrgOfTenantID(tenants: seq<Tenant>, tenantID: string): Option<string> {
    var i := Find(tenants, Is(TenantIDOf, tenantID));
    if i < |tenants| then Some(tenants[i].orgID) else None
  }

  function BelongsTo<T(!new)>(column: T -> string, tenants: seq<Tenant>, orgID: string): T -> bool {
    (x: T) => OrgOfTenantID(tenants, column(x)) == Some(orgID)
  }

  function ListRoutes(db: Db, orgID: string): seq<Route> {
    if orgID == "" then db.routes else InnerJoin(db.routes, TenantOfRoute, db.tenants, orgID)
  }

  function ListTokens(db: Db, orgID: string): seq<Token> {
    if orgID == "" then db.tokens else InnerJoin(db.tokens, TenantOfToken, db.tenants, orgID)
  }

  lemma {:induction false} MatchesAtMostOnce<T>(row: T, tenantID: string, tenants: seq<Tenant>, orgID: string)
    requires Unique(tenants, TenantIDOf)
    ensures Matches(row, tenantID, tenants, orgID)
              == if OrgOfTenantID(tenants, tenantID) == Some(orgID) then [row] else []
  {
    if tenants != [] {
      MatchesAtMostOnce(row, tenantID, tenants[1..], orgID);
      assert Is(TenantIDOf, tenantID)(tenants[0]) == (tenants[0].payload.tenantID == tenantID);
      if tenants[0].payload.tenantID == tenantID {
        forall t | t in tenants[1..] ensures t.payload.tenantID != tenantID {
          var k :| 1 <= k < |tenants| && tenants[k] == t;
        }
        HasIff(tenants[1..], TenantIDOf, tenantID);
      }
    }
  }

  lemma {:induction false} JoinIsFilter<T(!new)>(rows: seq<T>, column: T -> string, tenants: seq<Tenant>, orgID: string)
    requires Unique(tenants, TenantIDOf)
    ensures InnerJoin(rows, column, tenants, orgID) == Filter(rows, BelongsTo(column, tenants, orgID))
  {
    if rows != [] {
      MatchesAtMostOnce(rows[0], column(rows[0]), tenants, orgID);
      JoinIsFilter(rows[1..], column, tenants, orgID);
    }
  }

  /** The rows of `rows` that belong to an organisation come out of its join exactly as
      often as they are in the table, and no other row does. */
  lemma JoinIsExact<T(!new)>(rows: seq<T>, column: T -> string, tenants: seq<Tenant>, orgID: string, x: T)
    requires Unique(tenants, TenantIDOf)
    ensures multiset(InnerJoin(rows, column, tenants, orgID))[x]
              == if OrgOfTenantID(tenants, column(x)) == Some(orgID) then multiset(rows)[x] else 0
  {
    JoinIsFilter(rows, column, tenants, orgID);
    FilterCounts(rows, BelongsTo(column, tenants, orgID), x);
  }

  lemma OwnerOf(db: Db, tenantID: string) returns (owner: string)
    requires Consistent(db) && Has(db.tenants, TenantIDOf, tenantID)
    ensures Some(owner) == OrgOfTenantID(db.tenants, tenantID)
    ensures forall t :: t in db.tenants && t.payload.tenantID == tenantID ==> t.orgID == owner
  {
    owner := OrgOfTenantID(db.tenants, tenantID).value;
    forall t | t in db.tenants && t.payload.tenantID == tenantID ensures t.orgID == owner {
      var k :| 0 <= k < |db.tenants| && db.tenants[k] == t;
      assert TenantIDOf(db.tenants[k]) == tenantID;
      FindIs(db.tenants, TenantIDOf, k);
    }
  }

  /** In a consistent database every route belongs to its tenant's organisation. If that is
      named, its list holds the route exactly once; every other organisation's list leaves
      it out. A route of a tenant without organisation is in none of the lists. */
  lemma RouteListsPartition(db: Db, r: Route) returns (owner: string)
    requires Consistent(db) && r in db.routes
    ensures forall t :: t in db.tenants && t.payload.tenantID == r.payload.tenantID ==> t.orgID == owner
    ensures multiset(ListRoutes(db, ""))[r] == 1
    ensures forall orgID :: orgID != "" ==> multiset(ListRoutes(db, orgID))[r] == if orgID == owner then 1 else 0
  {
    owner := OwnerOf(db, r.payload.tenantID);
    OnceByUnique(db.routes, IdOfRoute, r);
    forall orgID | orgID != ""
      ensures multiset(ListRoutes(db, orgID))[r] == if orgID == owner then 1 else 0
    {
      JoinIsExact(db.routes, TenantOfRoute, db.tenants, orgID, r);
    }
  }

  /** The same for tokens. */
  lemma TokenListsPartition(db: Db, t: Token) returns (owner: string)
    requires Consistent(db) && t in db.tokens
    ensures forall x :: x in db.tenants && x.payload.tenantID == t.tenantID ==> x.orgID == owner
    ensures multiset(ListTokens(db, ""))[t] == 1
    ensures forall orgID :: orgID != "" ==> multiset(ListTokens(db, orgID))[t] == if orgID == owner then 1 else 0
  {
    owner := OwnerOf(db, t.tenantID);
    OnceByUnique(db.tokens, IdOfToken, t);
    forall orgID | orgID != ""
      ensures multiset(ListTokens(db, orgID))[t] == if orgID == owner then 1 else 0
    {
      JoinIsExact(db.tokens, TenantOfToken, db.tenants, orgID, t);
    }
  }

  lemma {:induction false} OnceByUnique<T(!new)>(rows: seq<T>, column: T -> string, x: T)
    requires Unique(rows, column)
    ensures multiset(rows)[x] == if x in rows then 1 else 0
  {
    if rows != [] {
      assert rows == [rows[0]] + rows[1..];
      OnceByUnique(rows[1..], column, x);
    }
  }
}
