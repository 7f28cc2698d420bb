/** Path handling: proxy slugs and joined upstream paths. */
module Paths {
  import opened Options
  import opened Tables
  import opened Text
  import opened UrlPaths
  import opened TenantStore

  // ---------------------------------------------------------------- proxy slugs

  datatype ProxyError = MissingSlug | UnknownSlug

  datatype Resolved = Resolved(slug: string, remainingPath: string, route: Route)

  const PROXY: string := "/proxy/"

  function RouteBySlug(routes: seq<Route>, slug: string): Option<Route> {
    var i := Find(routes, Is(SlugOf, slug));
    if i < |routes| then Some(routes[i]) else None
  }

  /** A route with the slug is found whenever there is one. */
  lemma RouteBySlugMeans(routes: seq<Route>, slug: string)
    ensures RouteBySlug(routes, slug) == None <==> forall x :: x in routes ==> x.payload.slug != slug
    ensures forall r :: RouteBySlug(routes, slug) == Some(r) ==> r in routes && r.payload.slug == slug
  {
    HasIff(routes, SlugOf, slug);
    var i := Find(routes, Is(SlugOf, slug));
    assert i < |routes| ==> SlugOf(routes[i]) == slug;
  }

  predicate Registered(routes: seq<Route>, slug: string) { RouteBySlug(routes, slug).Some? }

  function Slashes(s: string): nat {
    if s == "" then 0 else (if s[0] == '/' then 1 else 0) + Slashes(s[1..])
  }

  /** `slug` is made of the first one or two segments of `path`. */
  predicate Heads(slug: string, path: string) {
    Slashes(slug) <= 1 && (path == slug || HasPrefix(path, slug + "/"))
  }

  /** The two-segment slug is tried first, then the one-segment one. */
  function Resolve(routes: seq<Route>, path: string): Result<Resolved, ProxyError> {
    var trimmed := TrimPrefix(path, PROXY);
    if trimmed == "" then Err(MissingSlug)
    else
      var segments := SplitN(trimmed, '/', 3);
      if |segments| >= 2 && Registered(routes, segments[0] + "/" + segments[1]) then
        var slug := segments[0] + "/" + segments[1];
        Ok(Resolved(slug, if |segments| == 3 then "/" + segments[2] else "", RouteBySlug(routes, slug).value))
      else if Registered(routes, segments[0]) then
        Ok(Resolved(segments[0], if |segments| >= 2 then "/" + Join(segments[1..], '/') else "",
                    RouteBySlug(routes, segments[0]).value))
      else Err(UnknownSlug)
  }

  /** The lookups of the proxy handler, in its order. */
  method ResolveRoute(routes: seq<Route>, path: string) returns (r: Result<Resolved, ProxyError>)
    ensures r == Resolve(routes, path)
  {
    var trimmed := TrimPrefix(path, PROXY);
    if trimmed == "" {
      return Err(MissingSlug);
    }
    var segments := SplitN(trimmed, '/', 3);
    var (slug, remainingPath) := ("", "");
    var route := None;
    if |segments| >= 2 {
      var candidate := segments[0] + "/" + segments[1];
      route := RouteBySlug(routes, candidate);
      if route.Some? {
        slug := candidate;
        if |segments| == 3 {
          remainingPath := "/" + segments[2];
        }
      }
    }
    if route.None? {
      slug := segments[0];
      route := RouteBySlug(routes, slug);
      if route.None? {
        return Err(UnknownSlug);
      }
      if |segments| >= 2 {
        remainingPath := "/" + Join(segments[1..], '/');
      }
    }
    return Ok(Resolved(slug, remainingPath, route.value));
  }

  lemma {:induction false} SlashesIn(s: string)
    ensures Slashes(s) == 0 <==> '/' !in s
  {
    if s != "" {
      SlashesIn(s[1..]);
      assert s == [s[0]] + s[1..];
    }
  }

  lemma {:induction false} SlashesAdd(s: string, t: string)
    ensures Slashes(s + t) == Slashes(s) + Slashes(t)
  {
    if s == "" {
      assert s + t == t;
    } else {
      SlashesAdd(s[1..], t);
      assert (s + t)[1..] == s[1..] + t;
    }
  }

  /** A longer head of the same path has more slashes. */
  lemma LongerHead(short: string, long: string, path: string)
    requires Heads(short, path) && Heads(long, path) && |short| < |long|
    ensures Slashes(short) < Slashes(long)
  {
    var (n, tail) := (|short|, long[|short| + 1..]);
    assert path[..n + 1] == short + "/";
    assert long[..n + 1] == path[..n + 1];
    assert long == long[..n + 1] + tail;
    SlashesAdd(short, "/");
    SlashesAdd(short + "/", tail);
  }

  /** A path has one head with each number of slashes. */
  lemma HeadsAgree(a: string, b: string, path: string)
    requires Heads(a, path) && Heads(b, path) && Slashes(a) == Slashes(b)
    ensures a == b
  {
    if |a| < |b| {
      LongerHead(a, b, path);
    } else if |b| < |a| {
      LongerHead(b, a, path);
    } else {
      assert a == path[..|a|] && b == path[..|a|];
    }
  }

  /** The first field and what is left of the path after it. */
  lemma SplitFirst(path: string, n: nat)
    requires n > 1
    ensures var (i, fields) := (Index(path, '/'), SplitN(path, '/', n));
            && fields[0] == path[..i] && Slashes(fields[0]) == 0
            && (if i == |path| then fields == [path] else fields[1..] == SplitN(path[i + 1..], '/', n - 1))
            && (i < |path| ==> path == fields[0] + ("/" + path[i + 1..]))
  {
    var i := Index(path, '/');
    assert path[..|path|] == path;
    SlashesIn(path[..i]);
  }

  predicate Continues(slug: string, rest: string, path: string) {
    path == slug + rest && (rest == "" || HasPrefix(rest, "/"))
  }

  lemma ContinuesHeads(slug: string, rest: string, path: string)
    requires Continues(slug, rest, path) && Slashes(slug) <= 1
    ensures Heads(slug, path)
  {
    if rest == "" {
      assert slug + rest == slug;
    } else {
      assert rest == rest[..1] + rest[1..];
      assert path == (slug + "/") + rest[1..];
    }
  }

  /** The first field heads the path, and the others join to what follows it. */
  lemma OneSegment(path: string)
    ensures var fields := SplitN(path, '/', 3);
            && Slashes(fields[0]) == 0
            && Continues(fields[0], if |fields| >= 2 then "/" + Join(fields[1..], '/') else "", path)
  {
    var i := Index(path, '/');
    SplitFirst(path, 3);
    if i < |path| {
      JoinSplitN(path[i + 1..], '/', 2);
    }
  }

  lemma SecondField(rest: string)
    ensures var fields := SplitN(rest, '/', 2);
            Slashes(fields[0]) == 0 && Continues(fields[0], if |fields| == 2 then "/" + fields[1] else "", rest)
  {
    SplitFirst(rest, 2);
  }

  lemma Chain(a: string, b: string, more: string)
    ensures a + ("/" + (b + more)) == (a + "/" + b) + more
    ensures Slashes(a + "/" + b) == Slashes(a) + 1 + Slashes(b)
  {
    SlashesAdd(a, "/" + b);
    assert ("/" + b)[1..] == b && a + ("/" + b) == a + "/" + b;
  }

  /** So do the first two. */
  lemma TwoSegments(path: string)
    ensures var fields := SplitN(path, '/', 3);
            if |fields| == 1 then Slashes(path) == 0
            else
              && Slashes(fields[0] + "/" + fields[1]) == 1
              && Continues(fields[0] + "/" + fields[1], if |fields| == 3 then "/" + fields[2] else "", path)
  {
    var (i, fields) := (Index(path, '/'), SplitN(path, '/', 3));
    SplitFirst(path, 3);
    if i < |path| {
      SecondField(path[i + 1..]);
      Chain(fields[0], fields[1], if |fields| == 3 then "/" + fields[2] else "");
    }
  }

  /** A path has no other heads. */
  lemma HeadsAre(slug: string, path: string)
    requires Heads(slug, path)
    ensures var fields := SplitN(path, '/', 3);
            slug == fields[0] || (|fields| >= 2 && slug == fields[0] + "/" + fields[1])
  {
    var fields := SplitN(path, '/', 3);
    OneSegment(path);
    TwoSegments(path);
    if Slashes(slug) == 0 {
      ContinuesHeads(fields[0], if |fields| >= 2 then "/" + Join(fields[1..], '/') else "", path);
      HeadsAgree(slug, fields[0], path);
    } else if |fields| >= 2 {
      ContinuesHeads(fields[0] + "/" + fields[1], if |fields| == 3 then "/" + fields[2] else "", path);
      HeadsAgree(slug, fields[0] + "/" + fields[1], path);
    } else {
      assert path == slug + path[|slug|..];
      SlashesAdd(slug, path[|slug|..]);
    }
  }

  lemma ResolvedHeads(routes: seq<Route>, path: string)
    requires Resolve(routes, path).Ok?
    ensures var (r, trimmed) := (Resolve(routes, path).value, TrimPrefix(path, PROXY));
            && r.slug + r.remainingPath == trimmed && Heads(r.slug, trimmed)
            && RouteBySlug(routes, r.slug) == Some(r.route)
  {
    var trimmed := TrimPrefix(path, PROXY);
    OneSegment(trimmed);
    TwoSegments(trimmed);
    var r := Resolve(routes, path).value;
    ContinuesHeads(r.slug, r.remainingPath, trimmed);
  }

  lemma NoLongerHead(routes: seq<Route>, path: string, slug: string)
    requires var trimmed := TrimPrefix(path, PROXY); trimmed != "" && Heads(slug, trimmed) && Registered(routes, slug)
    ensures Resolve(routes, path).Ok? && |slug| <= |Resolve(routes, path).value.slug|
  {
    HeadsAre(slug, TrimPrefix(path, PROXY));
  }

  /** What the resolution means. The slug and the remaining path make up the request path
      again, and the slug is the longest registered one with at most two segments that
      heads it; none is found only when none is registered. */
  lemma LongestSlugWins(routes: seq<Route>, path: string)
    ensures var trimmed := TrimPrefix(path, "/proxy/");
            match Resolve(routes, path)
            case Err(MissingSlug) => trimmed == ""
            case Err(UnknownSlug) => trimmed != "" && forall x :: x in routes ==> !Heads(x.payload.slug, trimmed)
            case Ok(r) =>
              && r.slug + r.remainingPath == trimmed && Heads(r.slug, trimmed)
              && r.route in routes && r.route.payload.slug == r.slug
              && forall x :: x in routes && Heads(x.payload.slug, trimmed) ==> |x.payload.slug| <= |r.slug|
  {
    var trimmed := TrimPrefix(path, PROXY);
    if Resolve(routes, path).Ok? {
      ResolvedHeads(routes, path);
      RouteBySlugMeans(routes, Resolve(routes, path).value.slug);
    }
    forall x | trimmed != "" && x in routes && Heads(x.payload.slug, trimmed)
      ensures Resolve(routes, path).Ok? && |x.payload.slug| <= |Resolve(routes, path).value.slug|
    {
      RouteBySlugMeans(routes, x.payload.slug);
      NoLongerHead(routes, path, x.payload.slug);
    }
  }

  lemma BySlug(routes: seq<Route>, slug: string, route: Route)
    requires Unique(routes, SlugOf) && route in routes && route.payload.slug == slug
    ensures RouteBySlug(routes, slug) == Some(route)
  {
    var i := Find(routes, Is(SlugOf, slug));
    var j :| 0 <= j < |routes| && routes[j] == route;
    assert Is(SlugOf, slug)(routes[j]);
    assert i <= j;
    assert SlugOf(routes[i]) == SlugOf(routes[j]);
  }

  /** Segments that neither a client nor the mux changes. */
  ghost predicate CleanSegments(segments: seq<string>) { Dotless(segments) && Tidy(segments) }

  lemma ProxyIs(slug: string)
    ensures PROXY + slug == "/" + ("proxy" + ("/" + slug))
  {
  }

  lemma SegsOfProxy(slug: string)
    ensures Segs(PROXY + slug) == ["proxy"] + Segments(slug)
  {
    ProxyIs(slug);
    TrimPrefixAdded("/", "proxy" + ("/" + slug));
    SegmentsFirst("proxy", slug);
  }

  /** A route's address arrives as it is exactly when its segments are clean. */
  lemma AddressArrivesIff(slug: string)
    ensures Arrives(PROXY + slug) == PROXY + slug <==> CleanSegments(Segments(slug))
  {
    var (path, segments) := (PROXY + slug, Segments(slug));
    SegsOfProxy(slug);
    ArrivesIs(path);
    TidyBelow(["proxy"], segments);
    assert forall f :: f in segments ==> f in ["proxy"] + segments;
    if CleanSegments(segments) {
      DotsOfDotless(["proxy"] + segments);
      MuxDotless(["proxy"] + segments);
      assert path[..1] == "/" && Arrives(path)[..1] == "/";
      PathOfSegs(path);
      PathOfSegs(Arrives(path));
    }
  }

  /** When a request resolves, with nothing left over, the path is the slug's address. */
  lemma ResolvedAddress(routes: seq<Route>, path: string, route: Route)
    requires HasPrefix(path, PROXY) && Resolve(routes, path) == Ok(Resolved(route.payload.slug, "", route))
    ensures path == PROXY + route.payload.slug
  {
    var slug := route.payload.slug;
    LongestSlugWins(routes, path);
    assert slug + "" == slug && path == PROXY + TrimPrefix(path, PROXY);
  }

  /** A route answers at its own address, as a client and the mux deliver it, exactly when
      its slug has one or two segments and they are clean. */
  lemma RouteReachableIff(routes: seq<Route>, route: Route)
    requires Unique(routes, SlugOf) && route in routes
    ensures var (slug, arrived) := (route.payload.slug, Arrives(PROXY + route.payload.slug));
            HasPrefix(arrived, PROXY) && Resolve(routes, arrived) == Ok(Resolved(slug, "", route))
            <==> slug != "" && Slashes(slug) <= 1 && CleanSegments(Segments(slug))
  {
    var slug := route.payload.slug;
    var arrived := Arrives(PROXY + slug);
    AddressArrivesIff(slug);
    if HasPrefix(arrived, PROXY) && Resolve(routes, arrived) == Ok(Resolved(slug, "", route)) {
      ResolvedAddress(routes, arrived, route);
    }
    assert HasPrefix(PROXY + slug, PROXY);
    ResolvesAtSlugIff(routes, route);
  }

  /** The resolution alone, for a path that arrives as it is. */
  lemma ResolvesAtSlugIff(routes: seq<Route>, route: Route)
    requires Unique(routes, SlugOf) && route in routes
    ensures var slug := route.payload.slug;
            Resolve(routes, PROXY + slug) == Ok(Resolved(slug, "", route)) <==> slug != "" && Slashes(slug) <= 1
  {
    var slug := route.payload.slug;
    BySlug(routes, slug, route);
    TrimPrefixAdded(PROXY, slug);
    LongestSlugWins(routes, PROXY + slug);
    if slug != "" && Slashes(slug) <= 1 {
      assert Heads(slug, slug);
      var r := Resolve(routes, PROXY + slug).value;
      assert |r.slug + r.remainingPath| == |slug|;
      assert r.remainingPath == "" && r.slug + "" == r.slug;
      BySlug(routes, slug, r.route);
    }
  }

  // ---------------------------------------------------------------- joined paths

  predicate Skipped(part: string) { part == "" || part == "/" }

  /** The parts that the join keeps, trimmed. */
  function Kept(parts: seq<string>): seq<string>
    decreases |parts|
  {
    if parts == [] then []
    else
      var (rest, part) := (Kept(parts[..|parts| - 1]), parts[|parts| - 1]);
      if Skipped(part) then rest else rest + [Trim(part, IsSlash)]
  }

  function Joined(kept: seq<string>): string { "/" + Join(kept, '/') }

  method JoinURLPath(parts: seq<string>) returns (path: string)
    ensures path == Joined(Kept(parts))
  {
    var trimmed: seq<string> := [];
    for i := 0 to |parts|
      invariant trimmed == Kept(parts[..i])
    {
      assert parts[..i + 1][..i] == parts[..i];
      if parts[i] == "" || parts[i] == "/" {
        continue;
      }
      trimmed := trimmed + [Trim(parts[i], IsSlash)];
    }
    assert parts[..|parts|] == parts;
    if |trimmed| == 0 {
      return "/";
    }
    return "/" + Join(trimmed, '/');
  }

  /** What the join does with one more part: nothing if it is empty or a slash; otherwise it
      comes last, without the slashes at its ends. */
  lemma KeptMeans(parts: seq<string>, part: string, core: string, before: string, after: string)
    requires part == before + core + after && Trimmed(core, IsSlash)
    requires (forall c :: c in before ==> c == '/') && (forall c :: c in after ==> c == '/')
    ensures Kept(parts + [part]) == if part == "" || part == "/" then Kept(parts) else Kept(parts) + [core]
  {
    assert (parts + [part])[..|parts|] == parts;
    TrimIs(before, core, after, IsSlash);
  }

  /** Two paths joined: one slash first and one between them, none last. */
  lemma JoinOfTwo(a: string, b: string)
    requires a != "" && b != "" && Trimmed(a, IsSlash) && Trimmed(b, IsSlash)
    ensures Joined(Kept(["/" + a + "/", "/" + b])) == "/" + a + "/" + b
  {
    KeptMeans([], "/" + a + "/", a, "/", "/");
    assert "/" + b == "/" + b + "";
    KeptMeans(["/" + a + "/"], "/" + b, b, "/", "");
    assert [] + ["/" + a + "/"] == ["/" + a + "/"] && ["/" + a + "/"] + ["/" + b] == ["/" + a + "/", "/" + b];
    assert [] + [a] == [a] && [a] + [b] == [a, b] && [a, b][1..] == [b];
    assert |"/" + a + "/"| > 1 && |"/" + b| > 1;
    assert Join([a, b], '/') == a + "/" + b;
    assert "/" + (a + "/" + b) == "/" + a + "/" + b;
  }

  lemma {:induction false} KeptAppend(a: seq<string>, b: seq<string>)
    ensures Kept(a + b) == Kept(a) + Kept(b)
  {
    if b == [] {
      assert a + b == a && Kept(a) + [] == Kept(a);
    } else {
      assert (a + b)[..|a + b| - 1] == a + b[..|b| - 1];
      KeptAppend(a, b[..|b| - 1]);
    }
  }

  lemma {:induction false} KeptTrimmed(parts: seq<string>)
    ensures forall k :: k in Kept(parts) ==> Trimmed(k, IsSlash)
  {
    if parts != [] {
      KeptTrimmed(parts[..|parts| - 1]);
      var from, to := TrimOf(parts[|parts| - 1], IsSlash);
    }
  }

  lemma {:induction false} JoinEnds(kept: seq<string>)
    requires kept != []
    ensures var j := Join(kept, '/');
            && (kept[0] != "" ==> j != "" && j[0] == kept[0][0])
            && (kept[|kept| - 1] != "" ==> j != "" && j[|j| - 1] == kept[|kept| - 1][|kept[|kept| - 1]| - 1])
            && (|kept| > 1 ==>
                  j != "" && (kept[0] == "" ==> j[0] == '/') && (kept[|kept| - 1] == "" ==> j[|j| - 1] == '/'))
  {
    if |kept| > 1 {
      JoinEnds(kept[1..]);
      assert kept[1..][|kept| - 2] == kept[|kept| - 1];
    }
  }

  /** The first and the last kept part hold something besides slashes. */
  predicate SolidEnds(kept: seq<string>) { kept == [] || (kept[0] != "" && kept[|kept| - 1] != "") }

  /** A joined list is trimmed exactly when its ends are solid, or it is one bare part. */
  lemma JoinTrimmedIff(kept: seq<string>)
    requires forall k :: k in kept ==> Trimmed(k, IsSlash)
    ensures Trimmed(Join(kept, '/'), IsSlash) <==> SolidEnds(kept) || kept == [""]
  {
    if kept != [] {
      JoinEnds(kept);
      assert kept[0] in kept && kept[|kept| - 1] in kept;
    }
  }

  /** Joining a joined path with more parts: its slashes go, or its one bare slash is skipped. */
  lemma JoinAgain(parts: seq<string>, more: seq<string>)
    ensures var j := Join(Kept(parts), '/');
            Kept([Joined(Kept(parts))] + more) == (if j == "" then [] else [Trim("/" + j, IsSlash)]) + Kept(more)
  {
    KeptAppend([Joined(Kept(parts))], more);
    assert [Joined(Kept(parts))][..0] == [];
  }

  lemma TrimSlashFirst(j: string)
    ensures Trim("/" + j, IsSlash) == Trim(j, IsSlash)
  {
    assert ("/" + j)[1..] == j;
  }

  lemma JoinLength(a: seq<string>, b: seq<string>)
    requires a != []
    ensures |Join(a + b, '/')| == |Join(a, '/')| + if b == [] then 0 else 1 + |Join(b, '/')|
  {
    if b == [] {
      assert a + b == a;
    } else {
      JoinAppend(a, b, '/');
    }
  }

  /** Exactly when a nested join is the flat one: when the first and the last kept part of
      the inner list hold something besides slashes, or the one kept part is bare slashes
      and nothing is kept after it. */
  lemma FlattensIff(parts: seq<string>, more: seq<string>)
    ensures Joined(Kept([Joined(Kept(parts))] + more)) == Joined(Kept(parts + more))
            <==> SolidEnds(Kept(parts)) || (Kept(parts) == [""] && Kept(more) == [])
  {
    var (a, b) := (Kept(parts), Kept(more));
    var j := Join(a, '/');
    KeptAppend(parts, more);
    JoinAgain(parts, more);
    KeptTrimmed(parts);
    if a == [] {
      assert [] + b == b && a + b == b;
    } else {
      FlattensKeptIff(a, b);
    }
  }

  lemma FlattensKeptIff(a: seq<string>, b: seq<string>)
    requires a != [] && forall k :: k in a ==> Trimmed(k, IsSlash)
    ensures var j := Join(a, '/');
            Joined((if j == "" then [] else [Trim("/" + j, IsSlash)]) + b) == Joined(a + b)
            <==> SolidEnds(a) || (a == [""] && b == [])
  {
    var j := Join(a, '/');
    JoinEnds(a);
    JoinLength(a, b);
    JoinTrimmedIff(a);
    TrimSlashFirst(j);
    TrimIsIdentityIff(j, IsSlash);
    if j == "" {
      assert [] + b == b && Join([], '/') == "";
    } else {
      var t := Trim(j, IsSlash);
      JoinLength([t], b);
      var from, to := TrimOf(j, IsSlash);
      if t == j && b != [] {
        JoinAppend(a, b, '/');
        JoinAppend([t], b, '/');
      } else if t == j {
        assert [t] + b == [t] && a + b == a;
      } else {
        assert |t| < |j|;
      }
    }
  }

  /** A part that is skipped or holds something besides slashes. */
  predicate Plain(part: string) { Skipped(part) || exists c :: c in part && c != '/' }

  lemma {:induction false} PlainKept(parts: seq<string>)
    requires forall p :: p in parts ==> Plain(p)
    ensures "" !in Kept(parts)
  {
    if parts != [] {
      var p := parts[|parts| - 1];
      assert p in parts;
      PlainKept(parts[..|parts| - 1]);
      TrimIsEmptyIff(p, IsSlash);
    }
  }

  /** Hence the nested join of plain parts is the flat one, whatever follows. */
  lemma PlainFlattens(parts: seq<string>, more: seq<string>)
    requires forall p :: p in parts ==> Plain(p)
    ensures Joined(Kept([Joined(Kept(parts))] + more)) == Joined(Kept(parts + more))
  {
    PlainKept(parts);
    FlattensIff(parts, more);
  }

  /** A bare double slash first does not survive the nesting. */
  lemma DoubleSlashIsLost(a: string)
    requires a != "" && Trimmed(a, IsSlash)
    ensures Joined(Kept(["//", a])) == "//" + a
    ensures Joined(Kept([Joined(Kept(["//", a]))])) == "/" + a
  {
    assert ["//", a][..1] == ["//"] && ["//"][..0] == [];
    TrimIsEmptyIff("//", IsSlash);
    TrimIsIdentityIff(a, IsSlash);
    assert !Skipped(a);
    assert Kept(["//"]) == [""] && Kept(["//", a]) == ["", a];
    assert Join(["", a], '/') == "" + "/" + Join(["", a][1..], '/') == "/" + a;
    JoinAgain(["//", a], []);
    TrimSlashFirst("/" + a);
    TrimSlashFirst(a);
    assert [Joined(Kept(["//", a]))] + [] == [Joined(Kept(["//", a]))];
  }

  /** An upstream at root receives a forwarded path unchanged exactly when trimming its
      outer slashes only removes the first. */
  lemma RootJoinIff(root: string, path: string)
    requires Skipped(root) && HasPrefix(path, "/")
    ensures Joined(Kept([root, path])) == path
            <==> path == "/" || (|path| > 1 && path[1] != '/' && path[|path| - 1] != '/')
  {
    assert [root, path][..1] == [root] && [root][..0] == [] && Kept([root]) == [];
    assert path[..1] == "/" && path[0] == '/';
    var rest := path[1..];
    assert path == "/" + rest;
    if path != "/" {
      assert Kept([root, path]) == [Trim(path, IsSlash)];
      TrimSlashFirst(rest);
      TrimIsIdentityIff(rest, IsSlash);
      assert Joined(Kept([root, path])) == "/" + Trim(rest, IsSlash);
      assert ("/" + Trim(rest, IsSlash))[1..] == Trim(rest, IsSlash);
    } else {
      assert Kept([root, path]) == [];
    }
  }
}
