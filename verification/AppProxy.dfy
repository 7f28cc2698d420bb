/** Protected applications: the path of a request, and redirects sent by the upstream,
    rewritten and followed by a client. */
module AppProxy {
  import opened Options
  import opened Text
  import opened UrlPaths
  import opened Paths

  const APP: string := "/app/"
  const AUTH: string := "/_auth/"

  datatype AppRequest =
    | NoSlug
    | Auth(slug: string, action: string)
    | Forwarded(slug: string, remainingPath: string)

  /** The application's slug and the path below it. */
  function SplitApp(path: string): (string, string) {
    var parts := SplitN(TrimPrefix(path, APP), '/', 2);
    (parts[0], if |parts| == 2 then "/" + parts[1] else "/")
  }

  function HandleApp(path: string): AppRequest {
    var (slug, remainingPath) := SplitApp(path);
    if slug == "" then NoSlug
    else if HasPrefix(remainingPath, AUTH) then Auth(slug, TrimPrefix(remainingPath, AUTH))
    else Forwarded(slug, remainingPath)
  }

  lemma FirstField(s: string)
    ensures var parts := SplitN(s, '/', 2);
            && parts[0] == s[..Index(s, '/')] && '/' !in parts[0]
            && (|parts| == 2 <==> Index(s, '/') < |s|)
            && (|parts| == 2 ==> "/" + parts[1] == s[Index(s, '/')..])
  {
    var i := Index(s, '/');
    if i == |s| {
      assert s[..i] == s;
    } else {
      assert s[i..] == [s[i]] + s[i + 1..];
    }
  }

  lemma SplitAppIs(trimmed: string)
    ensures var i := Index(trimmed, '/');
            SplitApp(APP + trimmed) == (trimmed[..i], if i < |trimmed| then trimmed[i..] else "/")
  {
    TrimPrefixAdded(APP, trimmed);
    FirstField(trimmed);
  }

  /** The slug and the path below it make up what follows the `/app/` prefix. */
  lemma SplitAppMeans(trimmed: string)
    ensures var (slug, rest) := SplitApp(APP + trimmed);
            && '/' !in slug && HasPrefix(rest, "/")
            && (trimmed == slug + rest || (rest == "/" && trimmed == slug))
  {
    var i := Index(trimmed, '/');
    SplitAppIs(trimmed);
    if i < |trimmed| {
      assert trimmed == trimmed[..i] + trimmed[i..];
      assert trimmed[i..][..1] == "/";
    } else {
      assert trimmed[..i] == trimmed;
    }
  }

  /** There is no slug exactly when nothing, or a slash, follows the prefix. */
  lemma NoSlugIff(trimmed: string)
    ensures HandleApp(APP + trimmed).NoSlug? <==> trimmed == "" || trimmed[0] == '/'
  {
    SplitAppIs(trimmed);
  }

  lemma AuthMeans(trimmed: string)
    requires HandleApp(APP + trimmed).Auth?
    ensures var Auth(slug, action) := HandleApp(APP + trimmed);
            slug != "" && '/' !in slug && trimmed == slug + ("/_auth/" + action)
  {
    SplitAppMeans(trimmed);
    var rest := SplitApp(APP + trimmed).1;
    assert HasPrefix(rest, AUTH);
    PrefixRestored(rest, AUTH);
  }

  lemma ForwardedMeans(trimmed: string)
    requires HandleApp(APP + trimmed).Forwarded?
    ensures var Forwarded(slug, rest) := HandleApp(APP + trimmed);
            && slug != "" && '/' !in slug && HasPrefix(rest, "/") && !HasPrefix(rest, "/_auth/")
            && (trimmed == slug + rest || (rest == "/" && trimmed == slug))
  {
    SplitAppMeans(trimmed);
  }

  lemma PrefixRestored(s: string, prefix: string)
    requires HasPrefix(s, prefix)
    ensures s == prefix + TrimPrefix(s, prefix)
  {
  }

  lemma HandleAppIff(slug: string, path: string)
    requires HasPrefix(path, "/")
    ensures var r := HandleApp("/app/" + slug + path);
            && (r == Forwarded(slug, path) <==> slug != "" && '/' !in slug && !HasPrefix(path, "/_auth/"))
            && (r.Forwarded? && r.slug == slug ==> r.remainingPath == path)
            && (r.Forwarded? && r.slug == slug ==> '/' !in slug)
  {
    assert APP + slug + path == APP + (slug + path);
    SplitAppIs(slug + path);
    IndexPast(slug, path, '/');
    assert path[..1] == "/" && path[0] == '/';
    if '/' !in slug {
      assert (slug + path)[..|slug|] == slug && (slug + path)[|slug|..] == path;
    }
  }

  // ---------------------------------------------------------------- rewritten redirects

  /** A parsed URL reference; an empty scheme makes it relative, an empty query is none. */
  datatype Reference = Reference(scheme: string, host: string, path: string, query: string, fragment: string)

  /** What an HTTP request line for the URL would hold. */
  function RequestURI(u: Reference): string {
    (if u.path == "" then "/" else u.path) + if u.query == "" then "" else "?" + u.query
  }

  function Lower(s: string): string {
    seq(|s|, i requires 0 <= i < |s| => if 'A' <= s[i] <= 'Z' then s[i] - 'A' + 'a' else s[i])
  }

  predicate EqualFold(s: string, t: string) { Lower(s) == Lower(t) }

  /** Hosts are compared without regard to the case of letters, and to nothing else. */
  lemma EqualFoldIff(s: string, t: string)
    ensures EqualFold(s, t)
            <==> |s| == |t|
                 && forall i :: 0 <= i < |s| ==>
                      || s[i] == t[i] || ('A' <= s[i] <= 'Z' && t[i] == s[i] - 'A' + 'a')
                      || ('A' <= t[i] <= 'Z' && s[i] == t[i] - 'A' + 'a')
  {
    if EqualFold(s, t) {
      assert |Lower(s)| == |s| && |Lower(t)| == |t|;
      forall i | 0 <= i < |s|
        ensures s[i] == t[i] || ('A' <= s[i] <= 'Z' && t[i] == s[i] - 'A' + 'a')
                || ('A' <= t[i] <= 'Z' && s[i] == t[i] - 'A' + 'a')
      {
        assert Lower(s)[i] == Lower(t)[i];
      }
    }
  }

  /** The rewritten Location header, or none when it is left alone. */
  function Rewritten(u: Reference, slug: string, upstreamHost: string): Option<string> {
    if u.scheme != "" then
      if EqualFold(u.host, upstreamHost) then Some("/app/" + slug + RequestURI(u)) else None
    else Some("/app/" + slug + "/" + TrimPrefix(RequestURI(u), "/"))
  }

  /** The path with which a client follows a path-absolute reference. */
  function PathOf(uri: string): string {
    uri[..Index(uri[..Index(uri, '#')], '?')]
  }

  /** The path of a reference, read from the root. */
  function Meant(u: Reference): string {
    if HasPrefix(u.path, "/") then u.path else "/" + u.path
  }

  /** A reference as the URL parser delivers it: delimiters are gone from its parts, and one with
      a scheme or a host has an empty or an absolute path. */
  ghost predicate Parsed(u: Reference) {
    && '?' !in u.path && '#' !in u.path && '#' !in u.query
    && (u.scheme != "" || u.host != "" ==> u.path == "" || HasPrefix(u.path, "/"))
  }

  /** Both forms of the rewriting put the application's prefix before the meant path. */
  lemma RewrittenIs(u: Reference, slug: string, upstreamHost: string)
    requires Parsed(u) && Rewritten(u, slug, upstreamHost).Some?
    ensures Rewritten(u, slug, upstreamHost).value
              == APP + slug + Meant(u) + if u.query == "" then "" else "?" + u.query
  {
    var (uri, q) := (RequestURI(u), if u.query == "" then "" else "?" + u.query);
    assert if HasPrefix(u.path, "/") then u.path[..1] == "/" && u.path[0] == '/' else true;
    assert "/" + "" == "/";
    if HasPrefix(u.path, "/") || u.path == "" {
      assert uri == Meant(u) + q;
      assert uri[..1] == "/" && "/" + uri[1..] == uri;
    }
  }

  /** Whether a reference sent by the upstream points back to it: its own host is named,
      or no host is. */
  predicate NamesUpstream(u: Reference, upstreamHost: string) {
    EqualFold(u.host, upstreamHost) || (u.scheme == "" && u.host == "")
  }

  /** A reference that names another host without a scheme is redirected within the
      application as if it had no host. */
  lemma ForeignHostIsDropped(u: Reference, slug: string, upstreamHost: string)
    requires Parsed(u) && u.scheme == "" && u.host != "" && !EqualFold(u.host, upstreamHost)
    ensures !NamesUpstream(u, upstreamHost)
    ensures Rewritten(u, slug, upstreamHost)
              == Some(APP + slug + Meant(u) + if u.query == "" then "" else "?" + u.query)
    ensures Rewritten(u, slug, upstreamHost) == Rewritten(u.(host := ""), slug, upstreamHost)
  {
    RewrittenIs(u, slug, upstreamHost);
  }

  lemma PathOfPrefix(s: string, q: string)
    requires '?' !in s && '#' !in s && (q == "" || (q[0] == '?' && '#' !in q))
    ensures PathOf(s + q) == s
  {
    IndexPast(s, q, '#');
    assert Index(q, '#') == |q|;
    assert (s + q)[..|s + q|] == s + q;
    IndexPast(s, q, '?');
  }

  // ---------------------------------------------------------------- following them

  /** The request that a client's following a path-absolute link leads to. A path outside
      `/app/` is no application's: the mux gives it to another handler, and here it has no slug. */
  function Followed(uri: string): AppRequest { HandleApp(Arrives(PathOf(uri))) }

  /** The path of the request that the upstream answered, as a client sends it. */
  ghost predicate IsRequestPath(base: string) { HasPrefix(base, "/") && Dotless(Segs(base)) }

  /** The directory of a request path. */
  function Directory(base: string): seq<string> {
    var segments := Segs(base);
    segments[..|segments| - 1]
  }

  /** A reference resolved against the path that was answered (section 5.2.2 of RFC 3986,
      which section 10.2.2 of RFC 9110 prescribes). */
  function Target(u: Reference, base: string): string {
    if u.scheme != "" || u.host != "" then if u.path == "" then "/" else u.path
    else if u.path == "" then base
    else if HasPrefix(u.path, "/") then u.path
    else Path(Directory(base) + Segments(u.path))
  }

  /** The upstream's own path: what its redirect would request from it directly. */
  function Named(u: Reference, base: string): string { RemoveDots(Target(u, base)) }

  /** Exactly when reading the reference from the root, as the rewriting does, is resolving it. */
  predicate FromRoot(u: Reference, base: string) {
    || u.scheme != "" || u.host != "" || HasPrefix(u.path, "/")
    || (if u.path == "" then base == "/" else Directory(base) == [])
  }

  /** The path's `..` segments never climb above its root, and no slash is doubled. */
  predicate Stays(path: string) { !Climbs(0, Segs(path)) && Tidy(Dots([], Segs(path))) }

  /** A slug that is one segment of a URL, and stays where it is. */
  predicate Addressable(slug: string) {
    slug != "" && '/' !in slug && '?' !in slug && '#' !in slug && !IsDot(slug)
  }

  lemma {:induction false} CharOfSegment(s: string, f: string, c: char)
    requires f in Segments(s) && c in f
    ensures c in s
  {
    var i := Index(s, '/');
    if i < |s| && f != s[..i] {
      CharOfSegment(s[i + 1..], f, c);
    }
  }

  lemma CharOfSegs(path: string, f: string, c: char)
    requires f in Segs(path) && c in f
    ensures c in path
  {
    CharOfSegment(TrimPrefix(path, "/"), f, c);
  }

  lemma SegsOfApp(trimmed: string)
    ensures Segs(APP + trimmed) == ["app"] + Segments(trimmed)
  {
    AppIs(trimmed);
    TrimPrefixAdded("/", "app" + ("/" + trimmed));
    SegmentsFirst("app", trimmed);
  }

  lemma AppIs(trimmed: string)
    ensures APP + trimmed == "/" + ("app" + ("/" + trimmed))
  {
  }

  lemma SlugIsFirst(trimmed: string)
    ensures SplitApp(APP + trimmed).0 == Segments(trimmed)[0]
  {
    SplitAppIs(trimmed);
    var i := Index(trimmed, '/');
    assert i == |trimmed| ==> trimmed[..i] == trimmed;
  }

  lemma OutsideApps(path: string)
    requires HasPrefix(path, "/") && !HasPrefix(path, APP)
    ensures HandleApp(path).NoSlug?
  {
    assert path[..1] == "/" && path[0] == '/';
    FirstField(path);
  }

  lemma ForwardedSlug(path: string)
    requires HasPrefix(path, "/") && HandleApp(path).Forwarded?
    ensures HasPrefix(path, APP)
    ensures var slug := HandleApp(path).slug; slug != "" && '/' !in slug && slug in Segs(path)
  {
    if !HasPrefix(path, APP) {
      OutsideApps(path);
    }
    var trimmed := TrimPrefix(path, APP);
    PrefixRestored(path, APP);
    SegsOfApp(trimmed);
    SlugIsFirst(trimmed);
    ForwardedMeans(trimmed);
  }

  lemma PathOfClean(uri: string)
    ensures '?' !in PathOf(uri) && '#' !in PathOf(uri)
  {
    var cut := uri[..Index(uri, '#')];
    assert forall c :: c in PathOf(uri) ==> c in cut;
  }

  /** What arrives has no dot segment, and no character that was not sent. */
  lemma ArrivedSegment(sent: string, f: string)
    requires f in Segs(Arrives(sent)) && f != ""
    ensures !IsDot(f) && forall c :: c in f ==> c in sent
  {
    ArrivesIs(sent);
    forall c | c in f ensures c in sent {
      CharOfSegs(sent, f, c);
    }
  }

  lemma EnteredSlug(sent: string)
    requires HandleApp(Arrives(sent)).Forwarded? && '?' !in sent && '#' !in sent
    ensures Addressable(HandleApp(Arrives(sent)).slug)
  {
    assert Arrives(sent)[..1] == "/";
    ForwardedSlug(Arrives(sent));
    ArrivedSegment(sent, HandleApp(Arrives(sent)).slug);
  }

  /** Whatever was followed, an application that is entered has an addressable slug. */
  lemma FollowedSlug(uri: string)
    requires Followed(uri).Forwarded?
    ensures Addressable(Followed(uri).slug)
  {
    PathOfClean(uri);
    EnteredSlug(PathOf(uri));
  }

  /** The segments of a path below a slug. */
  lemma SegsBelow(slug: string, path: string)
    requires '/' !in slug && HasPrefix(path, "/")
    ensures Segs(APP + slug + path) == ["app", slug] + Segs(path)
  {
    var rest := TrimPrefix(path, "/");
    PrefixRestored(path, "/");
    assert APP + slug + path == APP + (slug + ("/" + rest));
    SegsOfApp(slug + ("/" + rest));
    SegmentsFirst(slug, rest);
  }

  /** What arrives for a path below a slug is that slug with a path resolved below `base`
      exactly when the base is the root, and the path stays. */
  lemma BelowSlugIff(slug: string, base: seq<string>, rest: seq<string>)
    requires slug != "" && !IsDot(slug) && rest != [] && Dotless(base)
    ensures Dots([], ["app", slug] + rest) == Dots(["app", slug], rest)
    ensures Dots(["app", slug], rest) != []
    ensures Mux(Dots(["app", slug], rest)) == ["app", slug] + Dots(base, rest)
            <==> base == [] && !Climbs(0, rest) && Tidy(Dots([], rest))
  {
    var (prefix, below, root) := (["app", slug], Dots(["app", slug], rest), Dots([], rest));
    DotsFront([], prefix, rest);
    assert [] + prefix == prefix && prefix + [] == prefix && base + [] == base;
    DotsLast(prefix, rest);
    DotsFrom(prefix, rest);
    MuxDotless(below);
    DotsBelow(prefix, [], rest);
    DotsBelow(base, [], rest);
    if !Climbs(0, rest) {
      TidyBelow(prefix, root);
      assert base == [] ==> Dots(base, rest) == root;
    }
  }

  /** The resolved path, in segments: what the read path does below the base's directory. */
  lemma NamedIs(u: Reference, base: string) returns (dir: seq<string>)
    requires Parsed(u) && IsRequestPath(base)
    ensures Dotless(dir) && SlashFree(dir)
    ensures HasPrefix(Named(u, base), "/")
    ensures u.scheme == "" && u.host == "" && u.path == "" ==> Named(u, base) == base
    ensures !(u.scheme == "" && u.host == "" && u.path == "") ==>
              Segs(Named(u, base)) == Dots(dir, Segs(Meant(u))) && (dir == [] <==> FromRoot(u, base))
  {
    dir := [];
    var target := Target(u, base);
    if u.scheme == "" && u.host == "" && u.path == "" {
      DotsOfDotless(Segs(base));
      PathOfSegs(base);
    } else if u.scheme != "" || u.host != "" || HasPrefix(u.path, "/") {
      SegsOfDots([], Segs(target));
    } else {
      dir := Directory(base);
      assert Segs(base) == dir + [Last(Segs(base))];
      TrimPrefixAdded("/", u.path);
      SegsOfPath(dir + Segments(u.path));
      DotsFront([], dir, Segments(u.path));
      assert [] + dir == dir;
      SegsOfDots(dir, Segments(u.path));
    }
  }

  lemma ForwardedPath(slug: string, path: string, arrived: string)
    requires HasPrefix(arrived, "/") && HandleApp(arrived) == Forwarded(slug, path)
    ensures '/' !in slug && HasPrefix(path, "/") && !HasPrefix(path, AUTH)
    ensures arrived == APP + (slug + path) || (path == "/" && arrived == APP + slug)
  {
    ForwardedSlug(arrived);
    PrefixRestored(arrived, APP);
    ForwardedMeans(TrimPrefix(arrived, APP));
  }

  lemma ForwardedSegs(slug: string, path: string, arrived: string)
    requires HasPrefix(arrived, "/") && HandleApp(arrived) == Forwarded(slug, path)
    ensures HasPrefix(path, "/") && !HasPrefix(path, AUTH)
    ensures Segs(arrived) == ["app", slug] + Segs(path) || (path == "/" && Segs(arrived) == ["app", slug])
  {
    ForwardedPath(slug, path, arrived);
    if arrived == APP + (slug + path) {
      assert APP + (slug + path) == APP + slug + path;
      SegsBelow(slug, path);
    } else {
      SegsOfApp(slug);
      SegmentsOne(slug);
    }
  }

  /** A request that arrives is forwarded with a path exactly when it is that path below the
      slug; the bare slug would stand for the root, but does not arrive. */
  lemma ForwardedIff(slug: string, path: string, arrived: string)
    requires HasPrefix(path, "/") && HasPrefix(arrived, "/") && Addressable(slug)
    requires path == "/" ==> Last(Segs(arrived)) == ""
    ensures HandleApp(arrived) == Forwarded(slug, path)
            <==> Segs(arrived) == ["app", slug] + Segs(path) && !HasPrefix(path, AUTH)
  {
    if HandleApp(arrived) == Forwarded(slug, path) {
      ForwardedSegs(slug, path, arrived);
    }
    if Segs(arrived) == ["app", slug] + Segs(path) {
      SegsBelow(slug, path);
      PathOfSegs(arrived);
      assert (APP + slug + path)[..1] == "/";
      PathOfSegs(APP + slug + path);
      HandleAppIff(slug, path);
    }
  }

  /** What a client sends for the rewritten link. */
  lemma SentIs(u: Reference, slug: string, upstreamHost: string)
    requires Parsed(u) && Rewritten(u, slug, upstreamHost).Some? && Addressable(slug)
    ensures PathOf(Rewritten(u, slug, upstreamHost).value) == APP + slug + Meant(u)
  {
    RewrittenIs(u, slug, upstreamHost);
    PathOfPrefix(APP + slug + Meant(u), if u.query == "" then "" else "?" + u.query);
  }

  /** What arrives for a path below a slug. */
  lemma ArrivesBelow(slug: string, path: string)
    requires HasPrefix(path, "/") && Addressable(slug)
    ensures var (arrived, rest) := (Arrives(APP + slug + path), Segs(path));
            && HasPrefix(arrived, "/") && Dots(["app", slug], rest) != []
            && Segs(arrived) == Mux(Dots(["app", slug], rest)) && Tidy(Segs(arrived))
            && (Last(Segs(arrived)) == "" <==> Last(rest) == "" || IsDot(Last(rest)))
  {
    var rest := Segs(path);
    assert Arrives(APP + slug + path)[..1] == "/";
    SegsBelow(slug, path);
    ArrivesIs(APP + slug + path);
    BelowSlugIff(slug, [], rest);
    DotsLast(["app", slug], rest);
    DotsFrom(["app", slug], rest);
    MuxDotless(Dots(["app", slug], rest));
  }

  /** A redirect is right when the gateway leaves alone what points elsewhere, and brings
      the client back to the same application at the upstream's own path otherwise. */
  predicate BackAt(u: Reference, slug: string, upstreamHost: string, base: string) {
    match Rewritten(u, slug, upstreamHost)
    case None => !NamesUpstream(u, upstreamHost)
    case Some(uri) => NamesUpstream(u, upstreamHost) && Followed(uri) == Forwarded(slug, Named(u, base))
  }

  /** What a caller can check of slug, reference and base beforehand. */
  predicate Safe(u: Reference, slug: string, base: string) {
    && Addressable(slug) && FromRoot(u, base) && Stays(Meant(u)) && !HasPrefix(RemoveDots(Meant(u)), AUTH)
  }

  lemma SafeIff(u: Reference, slug: string, upstreamHost: string, base: string)
    requires Parsed(u) && IsRequestPath(base) && Rewritten(u, slug, upstreamHost).Some? && Addressable(slug)
    ensures Followed(Rewritten(u, slug, upstreamHost).value) == Forwarded(slug, Named(u, base)) <==> Safe(u, slug, base)
  {
    SentIs(u, slug, upstreamHost);
    ArrivesBelow(slug, Meant(u));
    var dir := NamedIs(u, base);
    if u.scheme == "" && u.host == "" && u.path == "" {
      EmptyReference(slug, base, Arrives(APP + slug + "/"));
    } else {
      ResolvedIff(slug, Meant(u), dir, Named(u, base));
    }
  }

  /** A link below the slug leads to the path resolved below a directory exactly when that
      is the root, and the path stays there and off the gateway's own paths. */
  lemma ResolvedIff(slug: string, path: string, dir: seq<string>, named: string)
    requires Addressable(slug) && HasPrefix(path, "/") && Dotless(dir)
    requires HasPrefix(named, "/") && Segs(named) == Dots(dir, Segs(path))
    ensures HandleApp(Arrives(APP + slug + path)) == Forwarded(slug, named)
            <==> dir == [] && Stays(path) && !HasPrefix(RemoveDots(path), AUTH)
  {
    ArrivesBelow(slug, path);
    BelowSlugIff(slug, dir, Segs(path));
    DotsLast(dir, Segs(path));
    RootSegs();
    ForwardedIff(slug, named, Arrives(APP + slug + path));
    PathOfSegs(named);
  }

  lemma RootSegs()
    ensures Segs("/") == [""]
  {
  }

  /** The empty reference means the path answered; it leads to the root. */
  lemma EmptyReference(slug: string, base: string, arrived: string)
    requires Addressable(slug) && IsRequestPath(base) && HasPrefix(arrived, "/")
    requires Segs(arrived) == Mux(Dots(["app", slug], [""]))
    ensures HandleApp(arrived) == Forwarded(slug, base) <==> base == "/"
    ensures Stays("/") && !HasPrefix(RemoveDots("/"), AUTH)
  {
    RootSegs();
    assert [""][1..] == [];
    assert Dots([], [""]) == [""] && Dots(["app", slug], [""]) == ["app", slug, ""];
    BelowSlugIff(slug, [], [""]);
    ForwardedIff(slug, base, arrived);
    PathOfSegs(base);
  }

  /** Exactly when a redirect comes back right: when it names another host by a full URL;
      or when it names the upstream, the slug is one clean segment, the reference is one
      that reading from the root resolves, and its path stays below the root, without a
      doubled slash, and off the gateway's own paths. */
  lemma RedirectReentersIff(u: Reference, slug: string, upstreamHost: string, base: string)
    requires Parsed(u) && IsRequestPath(base)
    ensures BackAt(u, slug, upstreamHost, base)
            <==> (u.scheme != "" && !EqualFold(u.host, upstreamHost))
                 || (NamesUpstream(u, upstreamHost) && Safe(u, slug, base))
  {
    if Rewritten(u, slug, upstreamHost).Some? {
      var uri := Rewritten(u, slug, upstreamHost).value;
      if Addressable(slug) {
        SafeIff(u, slug, upstreamHost, base);
      } else if Followed(uri).Forwarded? {
        FollowedSlug(uri);
      }
    }
  }

  // ---------------------------------------------------------------- up to the upstream

  /** What the upstream at `root` receives for a request to the gateway. */
  ghost predicate Reaches(request: AppRequest, slug: string, root: string, path: string) {
    request.Forwarded? && request.slug == slug && Joined(Kept([root, request.remainingPath])) == path
  }

  predicate EndsInSlash(path: string) { path != "" && path[|path| - 1] == '/' }

  lemma CutEnds(s: string, i: nat)
    requires i < |s| && s[i] == '/'
    ensures EndsInSlash(s) <==> s[i + 1..] == "" || EndsInSlash(s[i + 1..])
  {
  }

  lemma {:induction false} LastSegment(s: string)
    ensures Last(Segments(s)) == "" <==> s == "" || EndsInSlash(s)
  {
    var i := Index(s, '/');
    if i == |s| {
      NoSlash(s);
    } else {
      CutEnds(s, i);
      LastSegment(s[i + 1..]);
      assert Last(Segments(s)) == Last(Segments(s[i + 1..]));
    }
  }

  lemma NoSlash(s: string)
    requires Index(s, '/') == |s|
    ensures '/' !in s && Segments(s) == [s] && !EndsInSlash(s)
  {
    assert s[..|s|] == s;
    assert s != "" ==> s[|s| - 1] in s;
  }

  lemma LastOfPath(path: string)
    requires HasPrefix(path, "/")
    ensures Last(Segs(path)) == "" <==> EndsInSlash(path)
  {
    LastSegment(path[1..]);
    assert path[..1] == "/" && path[0] == '/';
    assert |path| > 1 ==> path[1..][|path| - 2] == path[|path| - 1];
  }

  lemma SlashFirst(rest: string)
    ensures rest != "" && rest[0] == '/' ==> |Segments(rest)| > 1 && Segments(rest)[0] == ""
  {
  }

  lemma TidyStart(path: string)
    requires HasPrefix(path, "/") && Tidy(Segs(path)) && |path| > 1
    ensures path[1] != '/'
  {
    SlashFirst(path[1..]);
  }

  /** The join leaves a tidy path alone or drops its trailing slash. */
  lemma JoinTidy(root: string, path: string)
    requires Skipped(root) && HasPrefix(path, "/") && Tidy(Segs(path))
    ensures var j := Joined(Kept([root, path]));
            && (j == path <==> path == "/" || !EndsInSlash(path))
            && (j == "/" || !EndsInSlash(j)) && (j == "/" ==> path == "/")
  {
    RootJoinIff(root, path);
    if path != "/" {
      TidyStart(path);
      var from, to := TrimOf(path, IsSlash);
      assert [root, path][..1] == [root] && [root][..0] == [] && Kept([root]) == [];
      assert Kept([root, path]) == [Trim(path, IsSlash)];
      assert Joined(Kept([root, path])) == "/" + Trim(path, IsSlash);
      assert from <= 1 < to;
    }
  }

  /** A forwarded request reaches a path only by being forwarded with it, unless the join
      drops a slash that the path still has. */
  lemma ReachesIff(slug: string, root: string, arrived: string, named: string)
    requires Addressable(slug) && Skipped(root) && HasPrefix(arrived, "/") && Tidy(Segs(arrived))
    requires HasPrefix(named, "/")
    requires EndsInSlash(arrived) && arrived != APP + slug + "/" ==> EndsInSlash(named)
    ensures Reaches(HandleApp(arrived), slug, root, named)
            <==> HandleApp(arrived) == Forwarded(slug, named) && (named == "/" || !EndsInSlash(named))
  {
    var request := HandleApp(arrived);
    if request.Forwarded? && request.slug == slug {
      ForwardedTidy(slug, request.remainingPath, arrived);
      JoinTidy(root, request.remainingPath);
    }
  }

  lemma ForwardedTidy(slug: string, rest: string, arrived: string)
    requires Addressable(slug) && HasPrefix(arrived, "/") && Tidy(Segs(arrived))
    requires HandleApp(arrived) == Forwarded(slug, rest)
    ensures HasPrefix(rest, "/") && Tidy(Segs(rest))
    ensures rest != "/" && EndsInSlash(rest) ==> EndsInSlash(arrived) && arrived != APP + slug + "/"
  {
    ForwardedSegs(slug, rest, arrived);
    RootSegs();
    if rest != "/" {
      TidyBelow(["app", slug], Segs(rest));
      LastOfPath(rest);
      LastOfPath(arrived);
      BelowIsNotRoot(slug, rest, arrived);
    }
  }

  lemma BelowIsNotRoot(slug: string, rest: string, arrived: string)
    requires Addressable(slug) && HasPrefix(rest, "/") && rest != "/" && Segs(arrived) == ["app", slug] + Segs(rest)
    ensures arrived != APP + slug + "/"
  {
    SegsBelow(slug, "/");
    RootSegs();
    PathOfSegs(rest);
    PathOfSegs("/");
    assert (["app", slug] + Segs(rest))[2..] == Segs(rest);
    assert (["app", slug] + [""])[2..] == [""];
  }

  /** End to end: as for re-entry, but asking what an upstream at root then receives. */
  ghost predicate AnsweredAt(u: Reference, slug: string, upstreamHost: string, root: string, base: string) {
    match Rewritten(u, slug, upstreamHost)
    case None => !NamesUpstream(u, upstreamHost)
    case Some(uri) => NamesUpstream(u, upstreamHost) && Reaches(Followed(uri), slug, root, Named(u, base))
  }

  /** A followed redirect is answered by the upstream at its own path exactly when it comes
      back right and that path has no trailing slash to lose. */
  lemma RedirectReachesUpstreamIff(u: Reference, slug: string, upstreamHost: string, root: string, base: string)
    requires Parsed(u) && IsRequestPath(base) && Skipped(root)
    ensures AnsweredAt(u, slug, upstreamHost, root, base)
            <==> (u.scheme != "" && !EqualFold(u.host, upstreamHost))
                 || (NamesUpstream(u, upstreamHost) && Safe(u, slug, base)
                     && (RemoveDots(Meant(u)) == "/" || !EndsInSlash(RemoveDots(Meant(u)))))
  {
    if Rewritten(u, slug, upstreamHost).Some? {
      var uri := Rewritten(u, slug, upstreamHost).value;
      if Addressable(slug) {
        SafeIff(u, slug, upstreamHost, base);
        SafeNamed(u, slug, base);
        ArrivedEnd(u, slug, upstreamHost, base);
        ReachesIff(slug, root, Arrives(PathOf(uri)), Named(u, base));
      } else if Followed(uri).Forwarded? {
        FollowedSlug(uri);
      }
    }
  }

  lemma SafeNamed(u: Reference, slug: string, base: string)
    requires Parsed(u) && IsRequestPath(base)
    ensures Safe(u, slug, base) ==> Named(u, base) == RemoveDots(Meant(u))
  {
    var dir := NamedIs(u, base);
    RootSegs();
    PathOfSegs(Named(u, base));
  }

  lemma ArrivedEnd(u: Reference, slug: string, upstreamHost: string, base: string)
    requires Parsed(u) && IsRequestPath(base) && Rewritten(u, slug, upstreamHost).Some? && Addressable(slug)
    ensures var arrived := Arrives(PathOf(Rewritten(u, slug, upstreamHost).value));
            && HasPrefix(arrived, "/") && Tidy(Segs(arrived)) && HasPrefix(Named(u, base), "/")
            && (EndsInSlash(arrived) && arrived != APP + slug + "/" ==> EndsInSlash(Named(u, base)))
  {
    var arrived := Arrives(PathOf(Rewritten(u, slug, upstreamHost).value));
    SentIs(u, slug, upstreamHost);
    ArrivesBelow(slug, Meant(u));
    var dir := NamedIs(u, base);
    LastOfPath(arrived);
    LastOfPath(Named(u, base));
    if u.scheme == "" && u.host == "" && u.path == "" {
      EmptyArrives(slug);
    } else {
      DotsLast(dir, Segs(Meant(u)));
    }
  }

  lemma EmptyArrives(slug: string)
    requires Addressable(slug)
    ensures Arrives(APP + slug + "/") == APP + slug + "/"
  {
    var path := APP + slug + "/";
    RootSegs();
    SegsBelow(slug, "/");
    ArrivesBelow(slug, "/");
    BelowSlugIff(slug, [], [""]);
    assert [""][1..] == [] && Dots([], [""]) == [""];
    assert path[..1] == "/";
    PathOfSegs(path);
    PathOfSegs(Arrives(path));
  }

  // ---------------------------------------------------------------- what goes wrong

  lemma DotDotSegments(other: string)
    requires '/' !in other
    ensures Segments(".." + ("/" + other)) == ["..", other]
  {
    SegmentsOne(other);
    SegmentsFirst("..", other);
  }

  lemma DotDotDots(prefix: seq<string>, other: string)
    requires !IsDot(other)
    ensures Dots(prefix, ["..", other]) == Up(prefix) + [other]
  {
    assert ["..", other][1..] == [other] && [other][1..] == [];
    assert Dots(Up(prefix), [other]) == Dots(Up(prefix) + [other], []);
  }

  lemma BareSlug(slug: string)
    requires Addressable(slug)
    ensures Segs(APP + slug) == ["app", slug] && HandleApp(APP + slug) == Forwarded(slug, "/")
  {
    SegsOfApp(slug);
    SegmentsOne(slug);
    SplitAppIs(slug);
    IndexPast(slug, "", '/');
    assert slug + "" == slug && slug[..|slug|] == slug;
  }

  lemma ClimbArrives(slug: string, path: string, other: string)
    requires Addressable(slug) && Addressable(other) && HasPrefix(path, "/") && Segs(path) == ["..", other]
    ensures Arrives(APP + slug + path) == APP + other
  {
    var arrived := Arrives(APP + slug + path);
    ArrivesBelow(slug, path);
    DotDotDots(["app", slug], other);
    assert Up(["app", slug]) + [other] == ["app", other];
    MuxDotless(["app", other]);
    BareSlug(other);
    PathOfSegs(arrived);
    assert (APP + other)[..1] == "/";
    PathOfSegs(APP + other);
  }

  /** A reference that climbs leads out of the application: `../other` to another one,
      though to the upstream it is a path of its own. */
  lemma ClimbingLeaves(slug: string, other: string, upstreamHost: string)
    requires Addressable(slug) && Addressable(other)
    ensures var u := Reference("", "", ".." + ("/" + other), "", "");
            && Parsed(u) && Rewritten(u, slug, upstreamHost).Some?
            && Followed(Rewritten(u, slug, upstreamHost).value) == Forwarded(other, "/")
            && Named(u, "/") == Path([other])
  {
    var u := Reference("", "", ".." + ("/" + other), "", "");
    DotDotSegments(other);
    TrimPrefixAdded("/", u.path);
    SentIs(u, slug, upstreamHost);
    ClimbArrives(slug, Meant(u), other);
    BareSlug(other);
    RootSegs();
    assert [] + ["..", other] == ["..", other];
    SegsOfPath(["..", other]);
    DotDotDots([], other);
    assert [] + [other] == [other];
  }

  /** A relative reference is read from the root: `name`, sent in answer to a path in a
      directory, is forwarded as `/name` and not as the directory's. */
  lemma RelativeIsMisread(slug: string, name: string, base: string, upstreamHost: string)
    requires Addressable(slug) && Addressable(name) && IsRequestPath(base)
    ensures var u := Reference("", "", name, "", "");
            && Parsed(u) && Rewritten(u, slug, upstreamHost).Some?
            && Followed(Rewritten(u, slug, upstreamHost).value) == Forwarded(slug, Path([name]))
            && Named(u, base) == Path(Directory(base) + [name])
  {
    var u := Reference("", "", name, "", "");
    NameInDirectory(name, base);
    NameStays(name);
    SentIs(u, slug, upstreamHost);
    assert Path([name])[..1] == "/";
    ResolvedIff(slug, Path([name]), [], Path([name]));
  }

  lemma NameStays(name: string)
    requires Addressable(name)
    ensures Meant(Reference("", "", name, "", "")) == Path([name]) && Segs(Path([name])) == [name]
    ensures Dots([], [name]) == [name] && Stays(Path([name])) && !HasPrefix(RemoveDots(Path([name])), AUTH)
  {
    NotAbsolute(name);
    SegsOfPath([name]);
    DotsOfDotless([name]);
    OffAuth(name);
  }

  lemma NotAbsolute(name: string)
    requires name != "" && '/' !in name
    ensures !HasPrefix(name, "/")
  {
    assert name[0] in name && name[..1][0] == name[0];
  }

  lemma OffAuth(name: string)
    requires '/' !in name
    ensures !HasPrefix("/" + name, AUTH)
  {
    var n := |AUTH| - 1;
    assert AUTH[n] == '/';
    if |name| >= n {
      assert ("/" + name)[n] == name[n - 1] && name[n - 1] in name;
      assert ("/" + name)[..n + 1][n] != '/';
    }
  }

  lemma NameInDirectory(name: string, base: string)
    requires Addressable(name) && IsRequestPath(base)
    ensures Named(Reference("", "", name, "", ""), base) == Path(Directory(base) + [name])
  {
    var all := Directory(base) + [name];
    assert Segs(base) == Directory(base) + [Last(Segs(base))];
    NotAbsolute(name);
    SegmentsOne(name);
    SegsOfPath(all);
    DotsOfDotless(all);
  }
}
