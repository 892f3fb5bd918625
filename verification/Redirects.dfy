/**
 The redirect system of the admin user interface: the table of `next.config.js`, which answers first, then
 `middleware.ts`, and the links the sidebar builds for it.
 */
module Redirects {
  import opened Options
  import opened Text

  /** A request: the host header as received, the path, and the query with its question mark. */
  datatype Url = Url(header: string, path: string, search: string)

  /** `path.startsWith(prefix)` */
  predicate StartsWith(path: string, prefix: string) {
    prefix <= path
  }

  /** `(header).split(',')[0].trim().toLowerCase()` */
  function HostOf(header: string): string {
    Lower(Trim(Split(header, ",")[0]))
  }

  /** The `redirects` table. */
  function ConfigRedirect(path: string): Option<string> {
    if path == "/dashboard/management" then Some("/dashboard/admin")
    else if StartsWith(path, "/dashboard/management/") then Some("/dashboard/admin/" + path[22..])
    else None
  }

  function LegacyAdminToConsole(path: string): Option<string> {
    if path == "/dashboard/admin" then Some("/console/manage")
    else if StartsWith(path, "/dashboard/admin/") then Some("/console/" + path[17..])
    else None
  }

  predicate IsConsolePath(path: string) {
    path == "/console" || StartsWith(path, "/console/")
  }

  predicate IsDashboardPath(path: string) {
    path == "/dashboard" || StartsWith(path, "/dashboard/")
  }

  /** The `matcher`: the middleware sees no other path. */
  predicate Matched(path: string) {
    path == "/" || IsDashboardPath(path) || IsConsolePath(path) || path == "/set-new-password"
  }

  predicate IsAdmin(host: string) { StartsWith(host, "admin.") }
  predicate IsApp(host: string) { StartsWith(host, "app.") }

  function SplitConsoleHost(u: Url): Option<Url> {
    var host := HostOf(u.header);
    var legacy := LegacyAdminToConsole(u.path);
    if IsAdmin(host) then
      if u.path == "/" then Some(Url(host, "/console", ""))
      else if legacy.Some? then Some(Url(host, legacy.value, u.search))
      else if StartsWith(u.path, "/dashboard") then Some(Url("app." + host[6..], u.path, u.search))
      else None
    else if IsApp(host) && (legacy.Some? || IsConsolePath(u.path)) then
      Some(Url("admin." + host[4..], if legacy.Some? then legacy.value else u.path, u.search))
    else None
  }

  /** `middleware`; `forced` tells of the cookie that forces a new password on the request's host. */
  function Middleware(u: Url, forced: bool): Option<Url> {
    var split := SplitConsoleHost(u);
    if split.Some? then split
    else if u.path in {"/login", "/signup", "/"} then None
    else if forced && StartsWith(u.path, "/dashboard") then Some(Url(u.header, "/set-new-password", ""))
    else if !forced && u.path == "/set-new-password" then Some(Url(u.header, "/dashboard", ""))
    else None
  }

  /** One hop: where the server sends this request, if anywhere. `forced` gives the cookie per host. */
  function Hop(u: Url, forced: string -> bool): Option<Url> {
    var config := ConfigRedirect(u.path);
    if config.Some? then Some(u.(path := config.value))
    else if Matched(u.path) then Middleware(u, forced(HostOf(u.header)))
    else None
  }

  /** Where a browser is after following up to `n` hops. */
  function Follow(u: Url, forced: string -> bool, n: nat): Url
    decreases n
  {
    if n == 0 || Hop(u, forced).None? then u else Follow(Hop(u, forced).value, forced, n - 1)
  }

  // ----- paths -----

  datatype Kind = Root | SetPassword | Managed | Legacy | Dashboard | Console | Other

  function KindOf(path: string): Kind {
    if path == "/" then Root
    else if path == "/set-new-password" then SetPassword
    else if ConfigRedirect(path).Some? then Managed
    else if LegacyAdminToConsole(path).Some? then Legacy
    else if IsDashboardPath(path) then Dashboard
    else if IsConsolePath(path) then Console
    else Other
  }

  lemma DashboardPaths(p: string)
    ensures ConfigRedirect(p).Some? ==> IsDashboardPath(p) && LegacyAdminToConsole(p).None?
    ensures LegacyAdminToConsole(p).Some? ==> IsDashboardPath(p) && ConfigRedirect(p).None?
    ensures IsDashboardPath(p) ==> StartsWith(p, "/dashboard")
    ensures IsConsolePath(p) ==> !StartsWith(p, "/dashboard")
  {
    if StartsWith(p, "/dashboard/management/") {
      assert p[..11] == "/dashboard/" && p[11] == 'm';
    }
    if StartsWith(p, "/dashboard/admin/") {
      assert p[..11] == "/dashboard/" && p[11] == 'a';
    }
    if IsDashboardPath(p) {
      assert p[..10] == "/dashboard" && p[1] == 'd';
    }
    if IsConsolePath(p) {
      assert p[1] == 'c';
    }
  }

  lemma ConfigLeadsToLegacy(p: string)
    requires ConfigRedirect(p).Some?
    ensures KindOf(ConfigRedirect(p).value) == Legacy
  {
    var q := ConfigRedirect(p).value;
    DashboardPaths(q);
    assert q[1] == 'd';
  }

  lemma LegacyLeadsToConsole(p: string)
    requires LegacyAdminToConsole(p).Some?
    ensures KindOf(LegacyAdminToConsole(p).value) == Console
  {
    var q := LegacyAdminToConsole(p).value;
    assert q[1] == 'c';
    DashboardPaths(q);
    assert IsConsolePath(q) by {
      if p != "/dashboard/admin" {
        assert "/console/" <= q;
      } else {
        assert q[..9] == "/console/";
      }
    }
  }

  // ----- hosts -----

  /** The shape of a host as `HostOf` leaves it: lower case, no comma, no space at either end. */
  ghost predicate Plain(host: string) {
    && ',' !in host && (forall c :: c in host ==> !('A' <= c <= 'Z'))
    && (host != "" ==> !IsSpace(host[0]) && !IsSpace(host[|host| - 1]))
  }

  lemma FirstPiece(header: string)
    ensures var first := Split(header, ",")[0];
            first <= header && ',' !in first && (',' !in header ==> first == header)
  {
    FirstOf(header, ',');
  }

  lemma HostIsPlain(header: string)
    ensures Plain(HostOf(header))
  {
    FirstPiece(header);
    TrimmedIsPlain(Split(header, ",")[0]);
  }

  lemma TrimmedIsPlain(first: string)
    requires ',' !in first
    ensures Plain(Lower(Trim(first)))
  {
    var start := TrimStart(first);
    TrimStartFacts(first);
    TrimEndFacts(start);
    var t := Trim(first);
    assert forall i :: 0 <= i < |t| ==> t[i] == start[i] == first[|first| - |start| + i];
    LowerIsPlain(t);
  }

  lemma LowerIsPlain(t: string)
    requires ',' !in t && (t != "" ==> !IsSpace(t[0]) && !IsSpace(t[|t| - 1]))
    ensures Plain(Lower(t))
  {
    var h := Lower(t);
    assert forall i :: 0 <= i < |h| ==> !('A' <= h[i] <= 'Z') && (h[i] == ',' ==> t[i] == ',');
  }

  lemma PlainIsKept(host: string)
    requires Plain(host)
    ensures HostOf(host) == host
  {
    FirstPiece(host);
    TrimStartFacts(host);
    TrimEndFacts(host);
    LowerIsKept(host);
  }

  lemma LowerIsKept(host: string)
    requires forall c :: c in host ==> !('A' <= c <= 'Z')
    ensures Lower(host) == host
  {
    forall i | 0 <= i < |host| ensures Lower(host)[i] == host[i] {
      assert host[i] in host;
    }
  }

  /** The other half of a split host is the host the next request arrives with. */
  lemma OtherHost(header: string)
    ensures var host := HostOf(header);
            && HostOf(host) == host
            && (IsAdmin(host) ==> !IsApp(host) && AppTwin(host))
            && (IsApp(host) ==> AdminTwin(host))
  {
    HostIsPlain(header);
    var host := HostOf(header);
    PlainIsKept(host);
    if IsAdmin(host) {
      assert host[1] == 'd';
      TwinIsPlain(host, 6, "app.");
    }
    if IsApp(host) {
      TwinIsPlain(host, 4, "admin.");
    }
  }

  ghost predicate AppTwin(host: string)
    requires IsAdmin(host)
  {
    var twin := "app." + host[6..];
    HostOf(twin) == twin && IsApp(twin) && !IsAdmin(twin)
  }

  ghost predicate AdminTwin(host: string)
    requires IsApp(host)
  {
    var twin := "admin." + host[4..];
    HostOf(twin) == twin && IsAdmin(twin) && !IsApp(twin)
  }

  lemma InTail(s: string, n: nat, c: char)
    requires n <= |s| && c in s[n..]
    ensures c in s
  {
  }

  lemma SmallLetters(c: char)
    requires c in "app." || c in "admin."
    ensures 'a' <= c <= 'z' || c == '.'
  {
  }

  lemma TwinIsPlain(host: string, n: nat, prefix: string)
    requires Plain(host) && n <= |host| && prefix in ["app.", "admin."]
    ensures var twin := prefix + host[n..];
            HostOf(twin) == twin && (IsApp(twin) <==> prefix == "app.") && (IsAdmin(twin) <==> prefix == "admin.")
  {
    var twin := prefix + host[n..];
    assert twin[0] == 'a' && twin[1] == prefix[1] && "app."[1] == 'p' && "admin."[1] == 'd';
    assert prefix <= twin;
    forall c | c in twin ensures !('A' <= c <= 'Z') && c != ',' {
      assert c in prefix || c in host[n..];
      if c in prefix {
        assert prefix == "app." || prefix == "admin.";
        SmallLetters(c);
      } else {
        InTail(host, n, c);
        assert c in host;
      }
    }
    PlainIsKept(twin);
  }

  // ----- where a request ends -----

  /** The place in the console of an old admin path, under either of its two old names. */
  function ConsolePlace(path: string): string
    requires KindOf(path) in {Managed, Legacy}
  {
    LegacyAdminToConsole(LegacyName(path)).value
  }

  function LegacyName(path: string): (q: string)
    requires KindOf(path) in {Managed, Legacy}
    ensures LegacyAdminToConsole(q).Some?
  {
    if KindOf(path) == Managed then ConfigLeadsToLegacy(path); ConfigRedirect(path).value else path
  }

  /** A dashboard page of a host that serves the dashboard, or the password page that guards it. */
  function Guarded(u: Url, forced: string -> bool): Url {
    if forced(HostOf(u.header)) then Url(u.header, "/set-new-password", "") else u
  }

  /** The final address of a request, without following any hop. */
  function Destination(u: Url, forced: string -> bool): Url {
    var host := HostOf(u.header);
    match KindOf(u.path)
    case Root => if IsAdmin(host) then Url(host, "/console", "") else u
    case SetPassword =>
      if forced(host) then u
      else if IsAdmin(host) then Guarded(Url("app." + host[6..], "/dashboard", ""), forced)
      else Url(u.header, "/dashboard", "")
    case Managed =>
      if IsAdmin(host) then Url(host, ConsolePlace(u.path), u.search)
      else if IsApp(host) then Url("admin." + host[4..], ConsolePlace(u.path), u.search)
      else Guarded(u.(path := LegacyName(u.path)), forced)
    case Legacy =>
      if IsAdmin(host) then Url(host, ConsolePlace(u.path), u.search)
      else if IsApp(host) then Url("admin." + host[4..], ConsolePlace(u.path), u.search)
      else Guarded(u, forced)
    case Dashboard =>
      if IsAdmin(host) then Guarded(Url("app." + host[6..], u.path, u.search), forced) else Guarded(u, forced)
    case Console => if IsApp(host) then Url("admin." + host[4..], u.path, u.search) else u
    case Other => u
  }

  /** How many hops lead to the final address. */
  function Hops(u: Url, forced: string -> bool): (n: nat)
    ensures n <= 3
  {
    var host := HostOf(u.header);
    match KindOf(u.path)
    case Root => if IsAdmin(host) then 1 else 0
    case SetPassword =>
      if forced(host) then 0 else if IsAdmin(host) then (if forced("app." + host[6..]) then 3 else 2) else 1
    case Managed => if IsAdmin(host) || IsApp(host) || forced(host) then 2 else 1
    case Legacy => if IsAdmin(host) || IsApp(host) || forced(host) then 1 else 0
    case Dashboard =>
      if IsAdmin(host) then (if forced("app." + host[6..]) then 2 else 1) else if forced(host) then 1 else 0
    case Console => if IsApp(host) then 1 else 0
    case Other => 0
  }

  /** A request with hops to go makes one that brings it nearer the same destination; one without is there. */
  ghost predicate Descends(u: Url, hop: Option<Url>, forced: string -> bool) {
    if Hops(u, forced) == 0 then hop.None? && Destination(u, forced) == u
    else
      && hop.Some?
      && Hops(hop.value, forced) == Hops(u, forced) - 1
      && Destination(hop.value, forced) == Destination(u, forced)
  }

  lemma ManagedDescends(u: Url, forced: string -> bool)
    requires KindOf(u.path) == Managed
    ensures Descends(u, Hop(u, forced), forced)
  {
    ConfigLeadsToLegacy(u.path);
  }

  lemma LegacyDescends(u: Url, forced: string -> bool)
    requires KindOf(u.path) == Legacy
    ensures Descends(u, Hop(u, forced), forced)
  {
    OtherHost(u.header);
    DashboardPaths(u.path);
    LegacyLeadsToConsole(u.path);
    RootPaths();
  }

  lemma DashboardDescends(u: Url, forced: string -> bool)
    requires KindOf(u.path) == Dashboard
    ensures Descends(u, Hop(u, forced), forced)
  {
    OtherHost(u.header);
    DashboardPaths(u.path);
    RootPaths();
  }

  lemma SetPasswordDescends(u: Url, forced: string -> bool)
    requires KindOf(u.path) == SetPassword
    ensures Descends(u, Hop(u, forced), forced)
  {
    OtherHost(u.header);
    SetPasswordPath();
    RootPaths();
  }

  lemma RootDescends(u: Url, forced: string -> bool)
    requires KindOf(u.path) == Root
    ensures Descends(u, Hop(u, forced), forced)
  {
    OtherHost(u.header);
    RootPaths();
  }

  lemma ConsoleDescends(u: Url, forced: string -> bool)
    requires KindOf(u.path) == Console
    ensures Descends(u, Hop(u, forced), forced)
  {
    OtherHost(u.header);
    ConsolePath(u.path);
    var host := HostOf(u.header);
    assert SplitConsoleHost(u) == if IsApp(host) then Some(Url("admin." + host[4..], u.path, u.search)) else None;
    assert Middleware(u, forced(host)) == SplitConsoleHost(u);
    assert Hop(u, forced) == SplitConsoleHost(u);
  }

  lemma ConsolePath(p: string)
    requires KindOf(p) == Console
    ensures IsConsolePath(p) && !StartsWith(p, "/dashboard") && p !in {"/login", "/signup", "/", "/set-new-password"}
    ensures ConfigRedirect(p).None? && LegacyAdminToConsole(p).None?
  {
    DashboardPaths(p);
    assert p[1] == 'c';
  }

  /** The ranking argument, for every request. */
  lemma HopDescends(u: Url, forced: string -> bool)
    ensures Descends(u, Hop(u, forced), forced)
  {
    match KindOf(u.path)
    case Managed => ManagedDescends(u, forced);
    case Legacy => LegacyDescends(u, forced);
    case Dashboard => DashboardDescends(u, forced);
    case SetPassword => SetPasswordDescends(u, forced);
    case Root => RootDescends(u, forced);
    case Console => ConsoleDescends(u, forced);
    case Other => KindTells(u.path);
  }

  lemma SetPasswordPath()
    ensures var p := "/set-new-password";
            !StartsWith(p, "/dashboard") && !IsConsolePath(p)
            && LegacyAdminToConsole(p).None? && ConfigRedirect(p).None?
  {
    assert "/set-new-password"[1] == 's';
    DashboardPaths("/set-new-password");
  }

  lemma RootPaths()
    ensures KindOf("/console") == Console && KindOf("/dashboard") == Dashboard
            && KindOf("/set-new-password") == SetPassword
  {
    assert "/console"[1] == 'c' && "/dashboard"[1] == 'd';
    DashboardPaths("/console");
    DashboardPaths("/dashboard");
  }

  /**
   Redirects never loop: from every host, path, query and cookie state the browser comes to rest within
   three hops, at the address `Destination` names in one step.
   */
  lemma {:induction false} RedirectsStop(u: Url, forced: string -> bool, n: nat)
    requires Hops(u, forced) <= n
    ensures Follow(u, forced, n) == Destination(u, forced)
    ensures Hop(Destination(u, forced), forced).None?
    decreases n
  {
    HopDescends(u, forced);
    if n > 0 && Hop(u, forced).Some? {
      RedirectsStop(Hop(u, forced).value, forced, n - 1);
    }
  }

  /**
   Three hops are always enough, and at rest an admin host shows neither `/` nor a dashboard page, an app
   host no console or old admin page.
   */
  lemma RestsOnItsHost(u: Url, forced: string -> bool)
    ensures var f := Follow(u, forced, 3);
            && Hop(f, forced).None?
            && (IsAdmin(HostOf(f.header)) ==> f.path != "/" && !IsDashboardPath(f.path))
            && (IsApp(HostOf(f.header)) ==> !IsConsolePath(f.path) && LegacyAdminToConsole(f.path).None?)
  {
    RedirectsStop(u, forced, 3);
    var f := Follow(u, forced, 3);
    HopDescends(f, forced);
    AtRest(f, forced);
  }

  lemma AtRest(f: Url, forced: string -> bool)
    requires Hops(f, forced) == 0
    ensures IsAdmin(HostOf(f.header)) ==> f.path != "/" && !IsDashboardPath(f.path)
    ensures IsApp(HostOf(f.header)) ==> !IsConsolePath(f.path) && LegacyAdminToConsole(f.path).None?
  {
    KindTells(f.path);
  }

  lemma KindTells(p: string)
    ensures p == "/" <==> KindOf(p) == Root
    ensures IsDashboardPath(p) <==> KindOf(p) in {Managed, Legacy, Dashboard}
    ensures IsConsolePath(p) <==> KindOf(p) == Console
    ensures LegacyAdminToConsole(p).Some? <==> KindOf(p) == Legacy
  {
    DashboardPaths(p);
    SetPasswordPath();
  }

  /** `Hops` counts them: after `k` of them exactly that many fewer are left. */
  lemma {:induction false} HopsAreCounted(u: Url, forced: string -> bool, k: nat)
    requires k <= Hops(u, forced)
    ensures Hops(Follow(u, forced, k), forced) == Hops(u, forced) - k
    decreases k
  {
    if k > 0 {
      HopDescends(u, forced);
      var v := Hop(u, forced).value;
      HopsAreCounted(v, forced, k - 1);
      assert Follow(u, forced, k) == Follow(v, forced, k - 1);
    }
  }

  /** Three hops do happen, on every admin host whose app host alone asks for a new password: the bound is tight. */
  lemma ThreeHopsHappen(header: string, forced: string -> bool)
    requires IsAdmin(HostOf(header)) && !forced(HostOf(header)) && forced("app." + HostOf(header)[6..])
    ensures var u := Url(header, "/set-new-password", "");
            Hop(Follow(u, forced, 2), forced).Some? && Follow(u, forced, 3) != Follow(u, forced, 2)
  {
    var u := Url(header, "/set-new-password", "");
    HopsAreCounted(u, forced, 2);
    HopsAreCounted(u, forced, 3);
    HopDescends(Follow(u, forced, 2), forced);
  }

  // ----- the sidebar -----

  datatype Link = Relative(path: string) | Absolute(url: Url)

  /** `hrefForHost`, for an address without a query. */
  function HrefForHost(href: string, host: string): Link {
    if IsApp(host) && IsConsolePath(href) then Absolute(Url("admin." + host[4..], href, "")) else Relative(href)
  }

  function Clicked(link: Link, host: string): Url {
    match link
    case Relative(path) => Url(host, path, "")
    case Absolute(url) => url
  }

  /**
   The address a sidebar link shows is where it really goes: rewriting a link does not change where it
   ends, and for a console page or a rewritten link not one hop is left.
   */
  lemma HrefIsHonest(href: string, host: string, forced: string -> bool)
    requires HostOf(host) == host
    ensures var shown := Clicked(HrefForHost(href, host), host);
            && Destination(shown, forced) == Destination(Url(host, href, ""), forced)
            && (IsConsolePath(href) || HrefForHost(href, host).Absolute? ==> Hop(shown, forced).None?)
  {
    OtherHost(host);
    KindTells(href);
    var shown := Clicked(HrefForHost(href, host), host);
    HopDescends(shown, forced);
  }
}
