/** Normalisation of submitted configuration and its two-phase import. */
module ConfigImport {
  import opened Options
  import opened Tables
  import opened Text
  import opened TenantStore
  import opened SqlStore

  // ---------------------------------------------------------------- lists of strings

  /** The trimmed items that are not blank, each once, in the order of first occurrence. */
  function Dedupe(items: seq<string>): seq<string>
    decreases |items|
  {
    if items == [] then []
    else
      var (rest, item) := (Dedupe(items[..|items| - 1]), TrimSpace(items[|items| - 1]));
      if item == "" || item in rest then rest else rest + [item]
  }

  method DedupeNonEmpty(items: seq<string>) returns (clean: seq<string>)
    ensures clean == Dedupe(items)
  {
    var seen: set<string> := {};
    clean := [];
    for i := 0 to |items|
      invariant clean == Dedupe(items[..i])
      invariant forall s :: s in seen <==> s in clean
    {
      assert items[..i + 1][..i] == items[..i];
      var normalized := TrimSpace(items[i]);
      if normalized == "" || normalized in seen {
        continue;
      }
      seen := seen + {normalized};
      clean := clean + [normalized];
    }
    assert items[..|items|] == items;
  }

  ghost predicate Distinct(items: seq<string>) {
    forall i, j :: 0 <= i < j < |items| ==> items[i] != items[j]
  }

  /** Nothing that occurs is lost, nothing else appears, nothing repeats. */
  lemma {:induction false} DedupeMeans(items: seq<string>)
    ensures Distinct(Dedupe(items))
    ensures forall s :: s in Dedupe(items) <==> s != "" && exists item :: item in items && TrimSpace(item) == s
    ensures forall s :: s in Dedupe(items) ==> TrimSpace(s) == s
  {
    if items != [] {
      var (rest, last) := (items[..|items| - 1], items[|items| - 1]);
      assert items == rest + [last];
      DedupeMeans(rest);
      TrimTwice(last, IsSpace);
    }
  }

  lemma DedupeStep(items: seq<string>, item: string)
    ensures Dedupe(items) <= Dedupe(items + [item])
  {
    assert (items + [item])[..|items|] == items;
  }

  /** Later items only add to the result. */
  lemma {:induction false} DedupeExtends(items: seq<string>, more: seq<string>)
    ensures Dedupe(items) <= Dedupe(items + more)
  {
    if more == [] {
      assert items + more == items;
    } else {
      var (rest, last) := (more[..|more| - 1], more[|more| - 1]);
      DedupeExtends(items, rest);
      DedupeStep(items + rest, last);
      assert items + rest + [last] == items + more;
    }
  }

  lemma {:induction false} DedupeOfClean(clean: seq<string>)
    requires Distinct(clean) && forall s :: s in clean ==> s != "" && TrimSpace(s) == s
    ensures Dedupe(clean) == clean
  {
    if clean != [] {
      var (rest, last) := (clean[..|clean| - 1], clean[|clean| - 1]);
      assert clean == rest + [last];
      assert forall s :: s in rest ==> s in clean;
      DedupeOfClean(rest);
      assert last in clean;
    }
  }

  lemma DedupeTwice(items: seq<string>)
    ensures Dedupe(Dedupe(items)) == Dedupe(items)
  {
    DedupeMeans(items);
    DedupeOfClean(Dedupe(items));
  }

  // ---------------------------------------------------------------- methods of a route

  const ALLOWED: set<string> := {"GET", "POST", "PUT", "PATCH", "DELETE", "HEAD", "OPTIONS"}

  /** Upper case as far as it matters for a method name: besides the ASCII letters, the
      dotless i and the long s have ASCII capitals. */
  function UpperChar(c: char): char {
    if 'a' <= c <= 'z' then c - 'a' + 'A' else if c == '\U{131}' then 'I' else if c == '\U{17f}' then 'S' else c
  }

  function ToUpper(s: string): (u: string)
    ensures |u| == |s|
  {
    seq(|s|, i requires 0 <= i < |s| => UpperChar(s[i]))
  }

  function MethodOf(item: string): string { ToUpper(TrimSpace(item)) }

  function Known(items: seq<string>): seq<string>
    decreases |items|
  {
    if items == [] then []
    else
      var (rest, m) := (Known(items[..|items| - 1]), MethodOf(items[|items| - 1]));
      if m in ALLOWED then rest + [m] else rest
  }

  method NormalizeMethods(methods: seq<string>) returns (clean: seq<string>)
    ensures clean == Dedupe(Known(methods))
  {
    var normalized: seq<string> := [];
    for i := 0 to |methods|
      invariant normalized == Known(methods[..i])
    {
      assert methods[..i + 1][..i] == methods[..i];
      var upper := ToUpper(TrimSpace(methods[i]));
      if upper in ALLOWED {
        normalized := normalized + [upper];
      }
    }
    assert methods[..|methods|] == methods;
    clean := DedupeNonEmpty(normalized);
  }

  /** `item`, without the space around it, is the method `m` in any mixture of cases. */
  predicate Spells(item: string, m: string) {
    var t := TrimSpace(item);
    && |t| == |m|
    && forall i :: 0 <= i < |m| ==>
         || t[i] == m[i] || ('A' <= m[i] <= 'Z' && t[i] == m[i] - 'A' + 'a')
         || (m[i] == 'I' && t[i] == '\U{131}') || (m[i] == 'S' && t[i] == '\U{17f}')
  }

  /** One of the items is this method. */
  ghost predicate Mentions(items: seq<string>, m: string) { exists item :: item in items && Spells(item, m) }

  lemma SpellsIff(item: string, m: string)
    requires m in ALLOWED
    ensures MethodOf(item) == m <==> Spells(item, m)
  {
    var t := TrimSpace(item);
    assert forall i :: 0 <= i < |m| ==> 'A' <= m[i] <= 'Z';
    assert |ToUpper(t)| == |t| && forall i :: 0 <= i < |t| ==> ToUpper(t)[i] == UpperChar(t[i]);
    if Spells(item, m) {
      assert forall i :: 0 <= i < |m| ==> ToUpper(t)[i] == m[i];
    }
  }

  lemma {:induction false} KnownMeans(items: seq<string>)
    ensures forall m :: m in Known(items) <==> m in ALLOWED && Mentions(items, m)
  {
    if items != [] {
      var (rest, last) := (items[..|items| - 1], items[|items| - 1]);
      assert items == rest + [last];
      KnownMeans(rest);
      forall m | m in ALLOWED ensures MethodOf(last) == m <==> Spells(last, m) {
        SpellsIff(last, m);
      }
    }
  }

  lemma AllowedIsClean(m: string)
    requires m in ALLOWED
    ensures m != "" && TrimSpace(m) == m
  {
    TrimIsIdentityIff(m, IsSpace);
  }

  /** A normalised list holds exactly the allowed methods that were named, each once. */
  lemma MethodsMean(items: seq<string>)
    ensures Distinct(Dedupe(Known(items)))
    ensures forall m :: m in Dedupe(Known(items)) <==> m in ALLOWED && Mentions(items, m)
  {
    DedupeMeans(Known(items));
    KnownMeans(items);
    forall m | m in Known(items) ensures m != "" && TrimSpace(m) == m {
      AllowedIsClean(m);
    }
  }

  /** The JSON value of a list of strings. */
  datatype Raw = Absent | List(items: seq<string>) | CommaSeparated(text: string) | Malformed

  function ItemsOf(raw: Raw): seq<string> {
    match raw
    case List(items) => items
    case CommaSeparated(text) => Split(text, ',')
    case _ => []
  }

  function ImportedMethods(raw: Raw): seq<string> {
    var list := Dedupe(ItemsOf(raw));
    Dedupe(Known(if list == [] then ["GET"] else list))
  }

  method ImportMethods(raw: Raw) returns (methods: seq<string>)
    ensures methods == ImportedMethods(raw)
  {
    match raw {
      case Absent => methods := [];
      case List(items) => methods := DedupeNonEmpty(items);
      case CommaSeparated(text) => methods := DedupeNonEmpty(Split(text, ','));
      case Malformed => methods := [];
    }
    if |methods| == 0 {
      methods := ["GET"];
    }
    methods := NormalizeMethods(methods);
  }

  lemma BlankIff(items: seq<string>)
    ensures Dedupe(items) != [] <==> exists item :: item in items && TrimSpace(item) != ""
  {
    DedupeMeans(items);
    if item :| item in items && TrimSpace(item) != "" {
      assert TrimSpace(item) in Dedupe(items);
    } else if Dedupe(items) != [] {
      assert Dedupe(items)[0] in Dedupe(items);
    }
  }

  lemma DefaultMethod()
    ensures Dedupe(Known(["GET"])) != []
  {
    MethodsMean(["GET"]);
    AllowedIsClean("GET");
    assert TrimSpace("GET") == "GET" && Spells("GET", "GET") && "GET" in ["GET"];
    assert "GET" in Dedupe(Known(["GET"]));
  }

  /** An import can store a route that no method reaches: exactly when it names something
      and none of it is an allowed method. */
  lemma NoMethodIff(raw: Raw)
    ensures ImportedMethods(raw) == []
            <==> (exists item :: item in ItemsOf(raw) && TrimSpace(item) != "")
                 && (forall m :: m in ALLOWED ==> !Mentions(ItemsOf(raw), m))
  {
    BlankIff(ItemsOf(raw));
    DefaultMethod();
    NoneNamedIff(ItemsOf(raw));
  }

  lemma KeepsMethods(items: seq<string>, m: string)
    requires m != ""
    ensures Mentions(items, m) <==> Mentions(Dedupe(items), m)
  {
    DedupeMeans(items);
    if item :| item in items && Spells(item, m) {
      var s := TrimSpace(item);
      TrimTwice(item, IsSpace);
      assert s in Dedupe(items) && Spells(s, m);
    }
    if s :| s in Dedupe(items) && Spells(s, m) {
      var item :| item in items && TrimSpace(item) == s;
      TrimTwice(item, IsSpace);
      assert Spells(item, m);
    }
  }

  /** Deduplication neither adds nor removes an allowed method. */
  lemma NoneNamedIff(items: seq<string>)
    ensures (forall m :: m in ALLOWED ==> !Mentions(items, m)) <==> Dedupe(Known(Dedupe(items))) == []
  {
    var once := Dedupe(items);
    MethodsMean(once);
    forall m | m in ALLOWED
      ensures Mentions(items, m) <==> m in Dedupe(Known(once))
    {
      KeepsMethods(items, m);
    }
    NoMember(Dedupe(Known(once)));
  }

  lemma NoMember(s: seq<string>)
    ensures s == [] <==> forall x :: x !in s
  {
    if s != [] {
      assert s[0] in s;
    }
  }

  /** A list names its items, a comma-separated text its fields, and anything else nothing. */
  lemma ItemsMean(raw: Raw)
    ensures raw.List? ==> ItemsOf(raw) == raw.items
    ensures raw.CommaSeparated? ==>
              Join(ItemsOf(raw), ',') == raw.text && forall item :: item in ItemsOf(raw) ==> ',' !in item
    ensures raw.Absent? || raw.Malformed? ==> ItemsOf(raw) == []
  {
    if raw.CommaSeparated? {
      JoinSplitN(raw.text, ',', |raw.text| + 1);
      SplitFields(raw.text, ',', |raw.text| + 1);
    }
  }

  ghost predicate AllBlank(items: seq<string>) { forall item :: item in items ==> Blank(item) }

  lemma AllBlankIff(items: seq<string>)
    ensures Dedupe(items) == [] <==> AllBlank(items)
  {
    BlankIff(items);
    forall item | item in items ensures TrimSpace(item) == "" <==> Blank(item) {
      TrimIsEmptyIff(item, IsSpace);
    }
  }

  lemma OneMethod(items: seq<string>, m: string)
    ensures m in Dedupe(Known(items)) <==> m in ALLOWED && Mentions(items, m)
  {
    MethodsMean(items);
  }

  lemma OnlyGet(m: string)
    ensures m in Dedupe(Known(["GET"])) <==> m == "GET"
  {
    OneMethod(["GET"], m);
    if m in ALLOWED {
      SpellsGet(m);
      assert "GET" in ["GET"];
    }
  }

  lemma OneKept(items: seq<string>, m: string)
    ensures m in Dedupe(Known(Dedupe(items))) <==> m in ALLOWED && Mentions(items, m)
  {
    OneMethod(Dedupe(items), m);
    if m in ALLOWED {
      AllowedIsClean(m);
      KeepsMethods(items, m);
    }
  }

  lemma ImportedOrGet(raw: Raw, m: string)
    ensures m in ImportedMethods(raw)
            <==> if AllBlank(ItemsOf(raw)) then m == "GET" else m in ALLOWED && Mentions(ItemsOf(raw), m)
  {
    var items := ItemsOf(raw);
    AllBlankIff(items);
    if AllBlank(items) {
      OnlyGet(m);
    } else {
      OneKept(items, m);
    }
  }

  /** What an import makes of a route's methods: the allowed ones that are named, and GET
      when nothing is. */
  lemma ImportedMethodsMean(raw: Raw, m: string)
    ensures m in ImportedMethods(raw)
            <==> if AllBlank(ItemsOf(raw)) then m == "GET"
                 else && m in {"GET", "POST", "PUT", "PATCH", "DELETE", "HEAD", "OPTIONS"}
                      && Mentions(ItemsOf(raw), m)
  {
    ImportedOrGet(raw, m);
  }

  lemma SpellsGet(m: string)
    requires m in ALLOWED
    ensures Spells("GET", m) <==> m == "GET"
  {
    AllowedIsClean("GET");
  }

  // ---------------------------------------------------------------- items

  datatype TenantError = NameAndTenantIDRequired

  function NormalizeTenant(payload: TenantPayload, defaultHeader: string): Result<TenantPayload, TenantError> {
    var p := TenantPayload(TrimSpace(payload.name), TrimSpace(payload.tenantID),
                           TrimSpace(payload.authMode), TrimSpace(payload.headerName));
    if p.name == "" || p.tenantID == "" then Err(NameAndTenantIDRequired)
    else Ok(p.(headerName := if p.headerName == "" then defaultHeader else p.headerName,
               authMode := if p.authMode == "" then "header" else p.authMode))
  }

  /** Each field of a normalised tenant is its own, trimmed; a blank header or mode has its default. */
  lemma NormalizeTenantMeans(payload: TenantPayload, defaultHeader: string)
    requires NormalizeTenant(payload, defaultHeader).Ok?
    ensures var p := NormalizeTenant(payload, defaultHeader).value;
            && p.name == TrimSpace(payload.name) && p.tenantID == TrimSpace(payload.tenantID)
            && p.headerName == (if Blank(payload.headerName) then defaultHeader else TrimSpace(payload.headerName))
            && p.authMode == if Blank(payload.authMode) then "header" else TrimSpace(payload.authMode)
  {
    TrimIsEmptyIff(payload.headerName, IsSpace);
    TrimIsEmptyIff(payload.authMode, IsSpace);
  }

  /** A normalised payload is a fixed point, unless the default header has space to trim. */
  lemma NormalizeTenantAgainIff(payload: TenantPayload, defaultHeader: string)
    requires NormalizeTenant(payload, defaultHeader).Ok?
    ensures var p := NormalizeTenant(payload, defaultHeader).value;
            NormalizeTenant(p, defaultHeader) == Ok(p)
            <==> TrimSpace(payload.headerName) != "" || TrimSpace(defaultHeader) in {"", defaultHeader}
  {
    TrimTwice(payload.name, IsSpace);
    TrimTwice(payload.tenantID, IsSpace);
    TrimTwice(payload.headerName, IsSpace);
    TrimTwice(payload.authMode, IsSpace);
    TrimIsIdentityIff("header", IsSpace);
  }

  datatype RouteItem = RouteItem(payload: RoutePayload, methods: Raw)

  /** The trimmed payload with an absolute target path, or none when a field is missing. */
  function NormalizeRoute(item: RouteItem): Option<RoutePayload> {
    var p := item.payload;
    var (slug, target) := (TrimSpace(p.slug), TrimSpace(p.targetPath));
    var (tenantID, upstream) := (TrimSpace(p.tenantID), TrimSpace(p.upstreamURL));
    if slug == "" || target == "" || tenantID == "" || upstream == "" then None
    else Some(p.(slug := slug, tenantID := tenantID, upstreamURL := upstream,
                 targetPath := if HasPrefix(target, "/") then target else "/" + target))
  }

  ghost predicate Blank(s: string) { forall c :: c in s ==> IsSpace(c) }

  /** An item is refused exactly when a required field is blank. */
  lemma RefusedIff(tenant: TenantPayload, defaultHeader: string, item: RouteItem)
    ensures NormalizeTenant(tenant, defaultHeader).Err? <==> Blank(tenant.name) || Blank(tenant.tenantID)
    ensures NormalizeRoute(item) == None <==>
            || Blank(item.payload.slug) || Blank(item.payload.targetPath)
            || Blank(item.payload.tenantID) || Blank(item.payload.upstreamURL)
  {
    TrimIsEmptyIff(tenant.name, IsSpace);
    TrimIsEmptyIff(tenant.tenantID, IsSpace);
    TrimIsEmptyIff(item.payload.slug, IsSpace);
    TrimIsEmptyIff(item.payload.targetPath, IsSpace);
    TrimIsEmptyIff(item.payload.tenantID, IsSpace);
    TrimIsEmptyIff(item.payload.upstreamURL, IsSpace);
  }

  /** A normalised route is trimmed, has an absolute target path, is otherwise as
      submitted, and is a fixed point. */
  lemma NormalizeRouteAgain(item: RouteItem)
    requires NormalizeRoute(item).Some?
    ensures var p := NormalizeRoute(item).value;
            && Trimmed(p.slug, IsSpace) && Trimmed(p.tenantID, IsSpace) && Trimmed(p.upstreamURL, IsSpace)
            && Trimmed(p.targetPath, IsSpace) && HasPrefix(p.targetPath, "/")
            && p == item.payload.(
                 slug := TrimSpace(item.payload.slug), tenantID := TrimSpace(item.payload.tenantID),
                 upstreamURL := TrimSpace(item.payload.upstreamURL), targetPath := p.targetPath)
            && (p.targetPath == TrimSpace(item.payload.targetPath)
                || (p.targetPath == "/" + TrimSpace(item.payload.targetPath)
                    && TrimSpace(item.payload.targetPath)[0] != '/'))
            && NormalizeRoute(item.(payload := p)) == Some(p)
  {
    var q := item.payload;
    var p := NormalizeRoute(item).value;
    TrimTwice(q.slug, IsSpace);
    TrimIsIdentityIff(p.slug, IsSpace);
    TrimTwice(q.tenantID, IsSpace);
    TrimIsIdentityIff(p.tenantID, IsSpace);
    TrimTwice(q.upstreamURL, IsSpace);
    TrimIsIdentityIff(p.upstreamURL, IsSpace);
    TargetPathAgain(q.targetPath);
  }

  lemma TargetPathAgain(raw: string)
    requires TrimSpace(raw) != ""
    ensures var target := TrimSpace(raw);
            var path := if HasPrefix(target, "/") then target else "/" + target;
            path != "" && HasPrefix(path, "/") && Trimmed(path, IsSpace) && TrimSpace(path) == path
  {
    var target := TrimSpace(raw);
    var path := if HasPrefix(target, "/") then target else "/" + target;
    TrimTwice(raw, IsSpace);
    TrimIsIdentityIff(target, IsSpace);
    TrimIsIdentityIff(path, IsSpace);
    assert ("/" + target)[..1] == "/" && ("/" + target)[|target|] == target[|target| - 1];
  }

  // ---------------------------------------------------------------- the import

  datatype Body = Body(tenants: seq<TenantPayload>, routes: seq<RouteItem>)

  /** What the surroundings contribute to one store call: an ID, and whether it fails. */
  datatype Draw = Draw(id: string, fails: bool)

  /** `None` as the cause is a storage failure. */
  datatype ItemError =
    | TenantInvalid(index: nat)
    | TenantRefused(tenantID: string, cause: Option<Error>)
    | RouteIncomplete(index: nat)
    | RouteRefused(slug: string, cause: Option<Error>)

  datatype Progress = Progress(db: Db, created: nat, errors: seq<ItemError>)

  datatype ImportResult = ImportResult(tenantsCreated: nat, routesCreated: nat, errors: seq<ItemError>)

  /** Where the import runs: the caller's organisation and the configured header name. */
  datatype Context = Context(orgID: string, header: string)

  function Note(p: Progress, error: ItemError): Progress { p.(errors := p.errors + [error]) }

  /** A route as the import would create it. */
  datatype PlannedRoute = PlannedRoute(payload: Option<RoutePayload>, methods: seq<string>)

  function PlanTenant(item: TenantPayload, ctx: Context): Option<TenantPayload> {
    var r := NormalizeTenant(item, ctx.header);
    if r.Ok? then Some(r.value) else None
  }

  function PlanRoute(item: RouteItem): PlannedRoute {
    PlannedRoute(NormalizeRoute(item), ImportedMethods(item.methods))
  }

  function PlanTenants(items: seq<TenantPayload>, ctx: Context): (plan: seq<Option<TenantPayload>>)
    ensures |plan| == |items| && forall i :: 0 <= i < |items| ==> plan[i] == PlanTenant(items[i], ctx)
  {
    seq(|items|, i requires 0 <= i < |items| => PlanTenant(items[i], ctx))
  }

  function PlanRoutes(items: seq<RouteItem>): (plan: seq<PlannedRoute>)
    ensures |plan| == |items| && forall i :: 0 <= i < |items| ==> plan[i] == PlanRoute(items[i])
  {
    seq(|items|, i requires 0 <= i < |items| => PlanRoute(items[i]))
  }

  function TenantStep(p: Progress, orgID: string, i: nat, payload: Option<TenantPayload>, draw: Draw): Progress {
    if payload.None? then Note(p, TenantInvalid(i))
    else if draw.fails then Note(p, TenantRefused(payload.value.tenantID, None))
    else
      var (r, db) := TenantStore.CreateTenant(p.db, draw.id, payload.value, orgID);
      if r.Err? then Note(p, TenantRefused(payload.value.tenantID, Some(r.error)))
      else p.(db := db, created := p.created + 1)
  }

  function RouteStep(p: Progress, i: nat, route: PlannedRoute, draw: Draw): Progress {
    if route.payload.None? then Note(p, RouteIncomplete(i))
    else if draw.fails then Note(p, RouteRefused(route.payload.value.slug, None))
    else
      var (r, db) := TenantStore.CreateRoute(p.db, draw.id, route.payload.value, route.methods);
      if r.Err? then Note(p, RouteRefused(route.payload.value.slug, Some(r.error)))
      else p.(db := db, created := p.created + 1)
  }

  /** The first `k` tenants of the body. */
  function TenantPhase(db: Db, orgID: string, plan: seq<Option<TenantPayload>>, draws: seq<Draw>, k: nat): Progress
    requires k <= |plan| == |draws|
  {
    if k == 0 then Progress(db, 0, [])
    else TenantStep(TenantPhase(db, orgID, plan, draws, k - 1), orgID, k - 1, plan[k - 1], draws[k - 1])
  }

  /** The first `k` routes of the body. */
  function RoutePhase(db: Db, plan: seq<PlannedRoute>, draws: seq<Draw>, k: nat): Progress
    requires k <= |plan| == |draws|
  {
    if k == 0 then Progress(db, 0, [])
    else RouteStep(RoutePhase(db, plan, draws, k - 1), k - 1, plan[k - 1], draws[k - 1])
  }

  datatype Draws = Draws(tenants: seq<Draw>, routes: seq<Draw>)

  predicate Fits(body: Body, draws: Draws) {
    |draws.tenants| == |body.tenants| && |draws.routes| == |body.routes|
  }

  function Import(db: Db, ctx: Context, body: Body, draws: Draws): (ImportResult, Db)
    requires Fits(body, draws)
  {
    var t := TenantPhase(db, ctx.orgID, PlanTenants(body.tenants, ctx), draws.tenants, |body.tenants|);
    var r := RoutePhase(t.db, PlanRoutes(body.routes), draws.routes, |body.routes|);
    (ImportResult(t.created, r.created, t.errors + r.errors), r.db)
  }

  /** One tenant of the body: either it becomes a row of the caller's organisation, or one
      error tells which item it was and what was wrong; nothing else changes. */
  lemma TenantStepMeans(p: Progress, orgID: string, i: nat, payload: Option<TenantPayload>, draw: Draw)
    ensures TenantStep(p, orgID, i, payload, draw)
              == if payload == None then Progress(p.db, p.created, p.errors + [TenantInvalid(i)])
                 else
                   var t := payload.value;
                   if draw.fails then Progress(p.db, p.created, p.errors + [TenantRefused(t.tenantID, None)])
                   else if exists x :: x in p.db.tenants && (x.id == draw.id || x.payload.tenantID == t.tenantID)
                   then Progress(p.db, p.created, p.errors + [TenantRefused(t.tenantID, Some(TenantIDExists))])
                   else Progress(p.db.(tenants := p.db.tenants + [Tenant(draw.id, t, orgID)]), p.created + 1, p.errors)
  {
    if payload.Some? {
      CreateTenantMeans(p.db, draw.id, payload.value, orgID);
    }
  }

  /** The same for one route. */
  lemma RouteStepMeans(p: Progress, i: nat, route: PlannedRoute, draw: Draw)
    ensures RouteStep(p, i, route, draw)
              == if route.payload == None then Progress(p.db, p.created, p.errors + [RouteIncomplete(i)])
                 else
                   var r := route.payload.value;
                   if draw.fails then Progress(p.db, p.created, p.errors + [RouteRefused(r.slug, None)])
                   else if forall t :: t in p.db.tenants ==> t.payload.tenantID != r.tenantID
                   then Progress(p.db, p.created, p.errors + [RouteRefused(r.slug, Some(TenantIDDoesNotExist))])
                   else if exists x :: x in p.db.routes && (x.id == draw.id || x.payload.slug == r.slug)
                   then Progress(p.db, p.created, p.errors + [RouteRefused(r.slug, Some(SlugExists))])
                   else Progress(p.db.(routes := p.db.routes + [Route(draw.id, r, route.methods)]),
                                 p.created + 1, p.errors)
  {
    if route.payload.Some? {
      CreateRouteMeans(p.db, draw.id, route.payload.value, route.methods);
    }
  }

  method ImportTenant(
      store: Store, orgID: string, i: nat, payload: Option<TenantPayload>, draw: Draw,
      created0: nat, errors0: seq<ItemError>)
    returns (created: nat, errors: seq<ItemError>)
    modifies store
    ensures Progress(store.Contents(), created, errors)
              == TenantStep(Progress(old(store.Contents()), created0, errors0), orgID, i, payload, draw)
  {
    created, errors := created0, errors0;
    if payload.None? {
      errors := errors + [TenantInvalid(i)];
      return;
    }
    if draw.fails {
      errors := errors + [TenantRefused(payload.value.tenantID, None)];
      return;
    }
    var r := store.CreateTenant(draw.id, payload.value, orgID);
    if r.Err? {
      errors := errors + [TenantRefused(payload.value.tenantID, Some(r.error))];
      return;
    }
    created := created + 1;
  }

  method PrepareRoute(item: RouteItem) returns (route: PlannedRoute)
    ensures route == PlanRoute(item)
  {
    var methods := ImportMethods(item.methods);
    route := PlannedRoute(NormalizeRoute(item), methods);
  }

  method ImportRoute(store: Store, i: nat, route: PlannedRoute, draw: Draw, created0: nat, errors0: seq<ItemError>)
    returns (created: nat, errors: seq<ItemError>)
    modifies store
    ensures Progress(store.Contents(), created, errors)
              == RouteStep(Progress(old(store.Contents()), created0, errors0), i, route, draw)
  {
    created, errors := created0, errors0;
    if route.payload.None? {
      errors := errors + [RouteIncomplete(i)];
      return;
    }
    if draw.fails {
      errors := errors + [RouteRefused(route.payload.value.slug, None)];
      return;
    }
    var r := store.CreateRoute(draw.id, route.payload.value, route.methods);
    if r.Err? {
      errors := errors + [RouteRefused(route.payload.value.slug, Some(r.error))];
      return;
    }
    created := created + 1;
  }

  method ImportTenants(store: Store, ctx: Context, items: seq<TenantPayload>, draws: seq<Draw>)
    returns (created: nat, errors: seq<ItemError>)
    requires |items| == |draws|
    modifies store
    ensures Progress(store.Contents(), created, errors)
              == TenantPhase(old(store.Contents()), ctx.orgID, PlanTenants(items, ctx), draws, |items|)
  {
    ghost var (before, plan) := (store.Contents(), PlanTenants(items, ctx));
    created, errors := 0, [];
    for i := 0 to |items|
      invariant Progress(store.Contents(), created, errors) == TenantPhase(before, ctx.orgID, plan, draws, i)
    {
      var payload := PlanTenant(items[i], ctx);
      created, errors := ImportTenant(store, ctx.orgID, i, payload, draws[i], created, errors);
    }
  }

  method ImportRoutes(store: Store, items: seq<RouteItem>, draws: seq<Draw>)
    returns (created: nat, errors: seq<ItemError>)
    requires |items| == |draws|
    modifies store
    ensures Progress(store.Contents(), created, errors)
              == RoutePhase(old(store.Contents()), PlanRoutes(items), draws, |items|)
  {
    ghost var (before, plan) := (store.Contents(), PlanRoutes(items));
    created, errors := 0, [];
    for i := 0 to |items|
      invariant Progress(store.Contents(), created, errors) == RoutePhase(before, plan, draws, i)
    {
      var route := PrepareRoute(items[i]);
      assert route == plan[i];
      created, errors := ImportRoute(store, i, route, draws[i], created, errors);
    }
  }

  method HandleImport(store: Store, ctx: Context, body: Body, draws: Draws) returns (result: ImportResult)
    requires Fits(body, draws)
    modifies store
    ensures (result, store.Contents()) == Import(old(store.Contents()), ctx, body, draws)
  {
    var tenants, tenantErrors := ImportTenants(store, ctx, body.tenants, draws.tenants);
    var routes, routeErrors := ImportRoutes(store, body.routes, draws.routes);
    result := ImportResult(tenants, routes, tenantErrors + routeErrors);
  }

  // ---------------------------------------------------------------- every item is accounted for

  /** `k` items were counted, and the counter says what the table gained. */
  ghost predicate Accounted<T(!new)>(p: Progress, k: nat, before: seq<T>, after: seq<T>) {
    p.created + |p.errors| == k && |after| == |before| + p.created && before <= after
  }

  lemma TenantStepAccounted(db: Db, p: Progress, orgID: string, i: nat, item: Option<TenantPayload>, draw: Draw)
    requires Accounted(p, i, db.tenants, p.db.tenants)
    ensures var q := TenantStep(p, orgID, i, item, draw);
            && Accounted(q, i + 1, db.tenants, q.db.tenants) && q.db == p.db.(tenants := q.db.tenants)
            && (Consistent(p.db) ==> Consistent(q.db))
  {
    if item.Some? && Consistent(p.db) {
      CreateTenantConsistent(p.db, draw.id, item.value, orgID);
    }
  }

  lemma RouteStepAccounted(db: Db, p: Progress, i: nat, item: PlannedRoute, draw: Draw)
    requires Accounted(p, i, db.routes, p.db.routes)
    ensures var q := RouteStep(p, i, item, draw);
            && Accounted(q, i + 1, db.routes, q.db.routes) && q.db == p.db.(routes := q.db.routes)
            && (Consistent(p.db) ==> Consistent(q.db))
  {
    if item.payload.Some? && Consistent(p.db) {
      CreateRouteConsistent(p.db, draw.id, item.payload.value, item.methods);
    }
  }

  lemma {:induction false} TenantsAccounted(
      db: Db, orgID: string, items: seq<Option<TenantPayload>>, draws: seq<Draw>, k: nat)
    requires k <= |items| == |draws|
    ensures var p := TenantPhase(db, orgID, items, draws, k);
            && Accounted(p, k, db.tenants, p.db.tenants) && p.db == db.(tenants := p.db.tenants)
            && (Consistent(db) ==> Consistent(p.db))
  {
    if k > 0 {
      TenantsAccounted(db, orgID, items, draws, k - 1);
      TenantStepAccounted(db, TenantPhase(db, orgID, items, draws, k - 1), orgID, k - 1, items[k - 1], draws[k - 1]);
    }
  }

  lemma {:induction false} RoutesAccounted(db: Db, items: seq<PlannedRoute>, draws: seq<Draw>, k: nat)
    requires k <= |items| == |draws|
    ensures var p := RoutePhase(db, items, draws, k);
            && Accounted(p, k, db.routes, p.db.routes) && p.db == db.(routes := p.db.routes)
            && (Consistent(db) ==> Consistent(p.db))
  {
    if k > 0 {
      RoutesAccounted(db, items, draws, k - 1);
      RouteStepAccounted(db, RoutePhase(db, items, draws, k - 1), k - 1, items[k - 1], draws[k - 1]);
    }
  }

  /** Whatever fails, each item of the body is counted once, the counters say what the
      tables gained, the old rows stay, and the database stays consistent. */
  lemma ImportAccounts(db: Db, ctx: Context, body: Body, draws: Draws)
    requires Fits(body, draws)
    ensures var (result, after) := Import(db, ctx, body, draws);
            && result.tenantsCreated + result.routesCreated + |result.errors| == |body.tenants| + |body.routes|
            && result.tenantsCreated == |after.tenants| - |db.tenants|
            && result.routesCreated == |after.routes| - |db.routes|
            && db.tenants <= after.tenants && db.routes <= after.routes
            && after.tokens == db.tokens && after.orgs == db.orgs
            && (Consistent(db) ==> Consistent(after))
  {
    var (tenants, routes) := (PlanTenants(body.tenants, ctx), PlanRoutes(body.routes));
    TenantsAccounted(db, ctx.orgID, tenants, draws.tenants, |tenants|);
    RoutesAccounted(TenantPhase(db, ctx.orgID, tenants, draws.tenants, |tenants|).db, routes, draws.routes, |routes|);
  }

  /** A row that one of the first `k` tenants of the plan was stored as. */
  ghost predicate TenantFrom(t: Tenant, orgID: string, items: seq<Option<TenantPayload>>, draws: seq<Draw>, k: nat) {
    exists i :: 0 <= i < k && i < |items| && i < |draws|
                && items[i] == Some(t.payload) && t.id == draws[i].id && t.orgID == orgID
  }

  ghost predicate RouteFrom(r: Route, items: seq<PlannedRoute>, draws: seq<Draw>, k: nat) {
    exists i :: 0 <= i < k && i < |items| && i < |draws|
                && items[i] == PlannedRoute(Some(r.payload), r.methods) && r.id == draws[i].id
  }

  lemma {:induction false} TenantRowsFrom(
      db: Db, orgID: string, items: seq<Option<TenantPayload>>, draws: seq<Draw>, k: nat, t: Tenant)
    requires k <= |items| == |draws| && t in TenantPhase(db, orgID, items, draws, k).db.tenants
    ensures t in db.tenants || TenantFrom(t, orgID, items, draws, k)
  {
    if k > 0 && t in TenantPhase(db, orgID, items, draws, k - 1).db.tenants {
      TenantRowsFrom(db, orgID, items, draws, k - 1, t);
    }
  }

  lemma {:induction false} RouteRowsFrom(db: Db, items: seq<PlannedRoute>, draws: seq<Draw>, k: nat, r: Route)
    requires k <= |items| == |draws| && r in RoutePhase(db, items, draws, k).db.routes
    ensures r in db.routes || RouteFrom(r, items, draws, k)
  {
    if k > 0 && r in RoutePhase(db, items, draws, k - 1).db.routes {
      RouteRowsFrom(db, items, draws, k - 1, r);
    }
  }

  /** Every row an import adds is one item of the body, normalised, under its own draw. */
  lemma ImportedRows(db: Db, ctx: Context, body: Body, draws: Draws)
    requires Fits(body, draws)
    ensures var after := Import(db, ctx, body, draws).1;
            && (forall t :: t in after.tenants && t !in db.tenants ==>
                  TenantFrom(t, ctx.orgID, PlanTenants(body.tenants, ctx), draws.tenants, |body.tenants|))
            && (forall r :: r in after.routes && r !in db.routes ==>
                  RouteFrom(r, PlanRoutes(body.routes), draws.routes, |body.routes|))
  {
    var (tenants, routes) := (PlanTenants(body.tenants, ctx), PlanRoutes(body.routes));
    var t := TenantPhase(db, ctx.orgID, tenants, draws.tenants, |tenants|);
    TenantsAccounted(db, ctx.orgID, tenants, draws.tenants, |tenants|);
    RoutesAccounted(t.db, routes, draws.routes, |routes|);
    forall x | x in t.db.tenants && x !in db.tenants
      ensures TenantFrom(x, ctx.orgID, tenants, draws.tenants, |tenants|)
    {
      TenantRowsFrom(db, ctx.orgID, tenants, draws.tenants, |tenants|, x);
    }
    var after := RoutePhase(t.db, routes, draws.routes, |routes|).db;
    forall r | r in after.routes && r !in db.routes ensures RouteFrom(r, routes, draws.routes, |routes|) {
      RouteRowsFrom(t.db, routes, draws.routes, |routes|, r);
    }
  }

  // ---------------------------------------------------------------- what an import achieves

  /** The store works throughout, and every ID it draws is new. */
  ghost predicate Smooth<T(!new)>(rows: seq<T>, id: T -> string, draws: seq<Draw>) {
    && (forall i :: 0 <= i < |draws| ==> !draws[i].fails && !Has(rows, id, draws[i].id))
    && (forall i, j :: 0 <= i < j < |draws| ==> draws[i].id != draws[j].id)
  }

  lemma HasAppended<T(!new)>(rows: seq<T>, column: T -> string, row: T, value: string)
    ensures Has(rows + [row], column, value) <==> Has(rows, column, value) || column(row) == value
  {
    HasIff(rows, column, value);
    HasIff(rows + [row], column, value);
  }

  predicate Names(item: Option<TenantPayload>, tenantID: string) {
    item.Some? && item.value.tenantID == tenantID
  }

  /** One of the first `k` items names this tenantID. */
  ghost predicate AnyNames(items: seq<Option<TenantPayload>>, k: nat, v: string)
    requires k <= |items|
  {
    k > 0 && (Names(items[k - 1], v) || AnyNames(items, k - 1, v))
  }

  lemma {:induction false} AnyNamesIff(items: seq<Option<TenantPayload>>, k: nat, v: string)
    requires k <= |items|
    ensures AnyNames(items, k, v) <==> exists i :: 0 <= i < k && Names(items[i], v)
  {
    if k > 0 {
      AnyNamesIff(items, k - 1, v);
    }
  }

  lemma TenantStepAchieves(p: Progress, orgID: string, i: nat, item: Option<TenantPayload>, draw: Draw, v: string)
    requires !draw.fails && !Has(p.db.tenants, IdOfTenant, draw.id)
    ensures var (before, after) := (p.db.tenants, TenantStep(p, orgID, i, item, draw).db.tenants);
            && (Has(after, TenantIDOf, v) <==> Has(before, TenantIDOf, v) || Names(item, v))
            && (Has(after, IdOfTenant, v) ==> Has(before, IdOfTenant, v) || draw.id == v)
  {
    if item.Some? {
      var row := Tenant(draw.id, item.value, orgID);
      HasAppended(p.db.tenants, TenantIDOf, row, v);
      HasAppended(p.db.tenants, IdOfTenant, row, v);
    }
  }

  /** The tenant phase takes its IDs from the draws. */
  lemma {:induction false} TenantIDsDrawn(
      db: Db, orgID: string, items: seq<Option<TenantPayload>>, draws: seq<Draw>, k: nat, j: nat)
    requires k <= j < |items| == |draws| && Smooth(db.tenants, IdOfTenant, draws)
    ensures !Has(TenantPhase(db, orgID, items, draws, k).db.tenants, IdOfTenant, draws[j].id)
  {
    if k > 0 {
      assert draws[k - 1].id != draws[j].id;
      TenantIDsDrawn(db, orgID, items, draws, k - 1, j);
      TenantIDsDrawn(db, orgID, items, draws, k - 1, k - 1);
      var p := TenantPhase(db, orgID, items, draws, k - 1);
      TenantStepAchieves(p, orgID, k - 1, items[k - 1], draws[k - 1], draws[j].id);
    }
  }

  /** After the tenant phase exactly the old and the validly named tenantIDs exist. */
  lemma {:induction false} TenantsAchieved(
      db: Db, orgID: string, items: seq<Option<TenantPayload>>, draws: seq<Draw>, k: nat, v: string)
    requires k <= |items| == |draws| && Smooth(db.tenants, IdOfTenant, draws)
    ensures Has(TenantPhase(db, orgID, items, draws, k).db.tenants, TenantIDOf, v)
            <==> Has(db.tenants, TenantIDOf, v) || AnyNames(items, k, v)
  {
    if k > 0 {
      TenantsAchieved(db, orgID, items, draws, k - 1, v);
      TenantIDsDrawn(db, orgID, items, draws, k - 1, k - 1);
      TenantStepAchieves(TenantPhase(db, orgID, items, draws, k - 1), orgID, k - 1, items[k - 1], draws[k - 1], v);
    }
  }

  /** A complete item of an existing tenant places its slug. */
  predicate Places(item: PlannedRoute, tenants: seq<Tenant>, slug: string) {
    item.payload.Some? && Has(tenants, TenantIDOf, item.payload.value.tenantID) && item.payload.value.slug == slug
  }

  /** One of the first `k` items places this slug. */
  ghost predicate AnyPlaces(items: seq<PlannedRoute>, tenants: seq<Tenant>, k: nat, v: string)
    requires k <= |items|
  {
    k > 0 && (Places(items[k - 1], tenants, v) || AnyPlaces(items, tenants, k - 1, v))
  }

  lemma {:induction false} AnyPlacesIff(items: seq<PlannedRoute>, tenants: seq<Tenant>, k: nat, v: string)
    requires k <= |items|
    ensures AnyPlaces(items, tenants, k, v) <==> exists i :: 0 <= i < k && Places(items[i], tenants, v)
  {
    if k > 0 {
      AnyPlacesIff(items, tenants, k - 1, v);
    }
  }

  lemma RouteStepAchieves(p: Progress, i: nat, item: PlannedRoute, draw: Draw, v: string)
    requires !draw.fails && !Has(p.db.routes, IdOfRoute, draw.id)
    ensures var (before, after) := (p.db.routes, RouteStep(p, i, item, draw).db.routes);
            && (Has(after, SlugOf, v) <==> Has(before, SlugOf, v) || Places(item, p.db.tenants, v))
            && (Has(after, IdOfRoute, v) ==> Has(before, IdOfRoute, v) || draw.id == v)
  {
    if item.payload.Some? {
      var row := Route(draw.id, item.payload.value, item.methods);
      HasAppended(p.db.routes, SlugOf, row, v);
      HasAppended(p.db.routes, IdOfRoute, row, v);
    }
  }

  /** The route phase takes its IDs from the draws. */
  lemma {:induction false} RouteIDsDrawn(db: Db, items: seq<PlannedRoute>, draws: seq<Draw>, k: nat, j: nat)
    requires k <= j < |items| == |draws| && Smooth(db.routes, IdOfRoute, draws)
    ensures !Has(RoutePhase(db, items, draws, k).db.routes, IdOfRoute, draws[j].id)
  {
    if k > 0 {
      assert draws[k - 1].id != draws[j].id;
      RouteIDsDrawn(db, items, draws, k - 1, j);
      RouteIDsDrawn(db, items, draws, k - 1, k - 1);
      RouteStepAchieves(RoutePhase(db, items, draws, k - 1), k - 1, items[k - 1], draws[k - 1], draws[j].id);
    }
  }

  lemma {:induction false} RoutePhaseTenants(db: Db, items: seq<PlannedRoute>, draws: seq<Draw>, k: nat)
    requires k <= |items| == |draws|
    ensures RoutePhase(db, items, draws, k).db.tenants == db.tenants
  {
    if k > 0 {
      RoutePhaseTenants(db, items, draws, k - 1);
    }
  }

  /** One more item of the route phase. */
  lemma RoutesAdvance(db: Db, items: seq<PlannedRoute>, draws: seq<Draw>, k: nat, v: string)
    requires 0 < k <= |items| == |draws| && Smooth(db.routes, IdOfRoute, draws)
    ensures Has(RoutePhase(db, items, draws, k).db.routes, SlugOf, v)
            <==> Has(RoutePhase(db, items, draws, k - 1).db.routes, SlugOf, v) || Places(items[k - 1], db.tenants, v)
  {
    RoutePhaseTenants(db, items, draws, k - 1);
    RouteIDsDrawn(db, items, draws, k - 1, k - 1);
    RouteStepAchieves(RoutePhase(db, items, draws, k - 1), k - 1, items[k - 1], draws[k - 1], v);
  }

  /** After the route phase exactly the old slugs and those placed exist. */
  lemma {:induction false} RoutesAchieved(db: Db, items: seq<PlannedRoute>, draws: seq<Draw>, k: nat, v: string)
    requires k <= |items| == |draws| && Smooth(db.routes, IdOfRoute, draws)
    ensures Has(RoutePhase(db, items, draws, k).db.routes, SlugOf, v)
            <==> Has(db.routes, SlugOf, v) || AnyPlaces(items, db.tenants, k, v)
  {
    if k > 0 {
      RoutesAchieved(db, items, draws, k - 1, v);
      RoutesAdvance(db, items, draws, k, v);
    }
  }

  /** The meaning of a smooth import, independent of the order of its items: the valid
      tenants exist, and the complete routes of tenants that now exist. */
  lemma ImportAchieves(db: Db, ctx: Context, body: Body, draws: Draws, v: string)
    requires Fits(body, draws)
    requires Smooth(db.tenants, IdOfTenant, draws.tenants) && Smooth(db.routes, IdOfRoute, draws.routes)
    ensures var after := Import(db, ctx, body, draws).1;
            && (Has(after.tenants, TenantIDOf, v) <==>
                  (Has(db.tenants, TenantIDOf, v)
                   || exists i :: 0 <= i < |body.tenants| && Names(PlanTenant(body.tenants[i], ctx), v)))
            && (Has(after.routes, SlugOf, v) <==>
                  (Has(db.routes, SlugOf, v)
                   || exists i :: 0 <= i < |body.routes| && Places(PlanRoute(body.routes[i]), after.tenants, v)))
  {
    var (tenants, routes) := (PlanTenants(body.tenants, ctx), PlanRoutes(body.routes));
    var t := TenantPhase(db, ctx.orgID, tenants, draws.tenants, |tenants|);
    TenantsAccounted(db, ctx.orgID, tenants, draws.tenants, |tenants|);
    RoutesAccounted(t.db, routes, draws.routes, |routes|);
    TenantsAchieved(db, ctx.orgID, tenants, draws.tenants, |tenants|, v);
    RoutesAchieved(t.db, routes, draws.routes, |routes|, v);
    AnyNamesIff(tenants, |tenants|, v);
    AnyPlacesIff(routes, t.db.tenants, |routes|, v);
  }

  // ---------------------------------------------------------------- importing again

  /** The database already holds whatever these tenants and routes would add. */
  ghost predicate Settled(db: Db, tenants: seq<Option<TenantPayload>>, routes: seq<PlannedRoute>) {
    && (forall i :: 0 <= i < |tenants| && tenants[i].Some? ==> Has(db.tenants, TenantIDOf, tenants[i].value.tenantID))
    && (forall i :: 0 <= i < |routes| && routes[i].payload.Some? ==>
          Has(db.tenants, TenantIDOf, routes[i].payload.value.tenantID) ==>
            Has(db.routes, SlugOf, routes[i].payload.value.slug))
  }

  lemma {:induction false} TenantsSettled(
      db: Db, orgID: string, items: seq<Option<TenantPayload>>, draws: seq<Draw>, k: nat)
    requires k <= |items| == |draws| && Settled(db, items, [])
    ensures TenantPhase(db, orgID, items, draws, k).db == db && TenantPhase(db, orgID, items, draws, k).created == 0
  {
    if k > 0 {
      TenantsSettled(db, orgID, items, draws, k - 1);
    }
  }

  lemma {:induction false} RoutesSettled(db: Db, items: seq<PlannedRoute>, draws: seq<Draw>, k: nat)
    requires k <= |items| == |draws| && Settled(db, [], items)
    ensures RoutePhase(db, items, draws, k).db == db && RoutePhase(db, items, draws, k).created == 0
  {
    if k > 0 {
      RoutesSettled(db, items, draws, k - 1);
    }
  }

  lemma ImportSettles(db: Db, ctx: Context, body: Body, draws: Draws)
    requires Fits(body, draws)
    requires Smooth(db.tenants, IdOfTenant, draws.tenants) && Smooth(db.routes, IdOfRoute, draws.routes)
    ensures Settled(Import(db, ctx, body, draws).1, PlanTenants(body.tenants, ctx), PlanRoutes(body.routes))
  {
    var (tenants, routes) := (PlanTenants(body.tenants, ctx), PlanRoutes(body.routes));
    var once := Import(db, ctx, body, draws).1;
    forall i | 0 <= i < |tenants| && tenants[i].Some? ensures Has(once.tenants, TenantIDOf, tenants[i].value.tenantID) {
      ImportAchieves(db, ctx, body, draws, tenants[i].value.tenantID);
      assert Names(PlanTenant(body.tenants[i], ctx), tenants[i].value.tenantID);
    }
    forall i | 0 <= i < |routes| && routes[i].payload.Some?
        && Has(once.tenants, TenantIDOf, routes[i].payload.value.tenantID)
      ensures Has(once.routes, SlugOf, routes[i].payload.value.slug)
    {
      ImportAchieves(db, ctx, body, draws, routes[i].payload.value.slug);
      assert Places(PlanRoute(body.routes[i]), once.tenants, routes[i].payload.value.slug);
    }
  }

  /** Importing the same body again creates nothing and leaves the store as it is, even if
      this time the store fails or repeats an ID. */
  lemma ImportAgainChangesNothing(db: Db, ctx: Context, body: Body, first: Draws, second: Draws)
    requires Fits(body, first) && Fits(body, second)
    requires Smooth(db.tenants, IdOfTenant, first.tenants) && Smooth(db.routes, IdOfRoute, first.routes)
    ensures var once := Import(db, ctx, body, first).1;
            var (result, twice) := Import(once, ctx, body, second);
            && twice == once && result.tenantsCreated == 0 && result.routesCreated == 0
            && |result.errors| == |body.tenants| + |body.routes|
  {
    var once := Import(db, ctx, body, first).1;
    ImportSettles(db, ctx, body, first);
    TenantsSettled(once, ctx.orgID, PlanTenants(body.tenants, ctx), second.tenants, |body.tenants|);
    RoutesSettled(once, PlanRoutes(body.routes), second.routes, |body.routes|);
    ImportAccounts(once, ctx, body, second);
  }
}
