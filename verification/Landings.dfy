/** Where every address of the user interface comes to rest, told by the text of its path and its host header alone. */
module Landings {
  import opened Redirects
  import opened Text

  // ----- hosts -----

  /** Nothing but white space. */
  ghost predicate Blank(s: string) { forall c :: c in s ==> IsSpace(c) }

  lemma {:induction false} TrimBlankStart(a: string, s: string)
    requires Blank(a) && (s != "" ==> !IsSpace(s[0]))
    ensures TrimStart(a + s) == s
  {
    if a == "" {
      assert a + s == s;
    } else {
      assert a[0] in a && (a + s)[0] == a[0] && (a + s)[1..] == a[1..] + s;
      TrimBlankStart(a[1..], s);
    }
  }

  lemma {:induction false} TrimBlankEnd(s: string, b: string)
    requires Blank(b) && (s != "" ==> !IsSpace(s[|s| - 1]))
    ensures TrimEnd(s + b) == s
    decreases |b|
  {
    if b == "" {
      assert s + b == s;
    } else {
      var n := |b| - 1;
      assert b[n] in b && (s + b)[|s + b| - 1] == b[n] && (s + b)[..|s + b| - 1] == s + b[..n];
      TrimBlankEnd(s, b[..n]);
    }
  }

  /**
   The host a request is read as: of a list of hosts the first, without the white space around it, in small letters.
   */
  lemma HostReads(a: string, host: string, b: string, others: string)
    requires Blank(a) && Blank(b) && host != "" && !IsSpace(host[0]) && !IsSpace(host[|host| - 1])
    requires ',' !in a + host + b && (others == "" || others[0] == ',')
    ensures HostOf(a + host + b + others) == Lower(host)
  {
    var first := a + host + b;
    FirstBefore(first, others);
    assert first == a + (host + b);
    assert (host + b)[0] == host[0];
    TrimBlankStart(a, host + b);
    TrimBlankEnd(host, b);
  }

  lemma FirstBefore(first: string, others: string)
    requires ',' !in first && (others == "" || others[0] == ',')
    ensures Split(first + others, ",")[0] == first
  {
    if others == "" {
      assert first + others == first;
      FirstOf(first, ',');
    } else {
      assert first + others == first + [','] + others[1..];
      SplitAt(first, others[1..], ',');
    }
  }

  lemma LowerReads(host: string, k: nat)
    requires k < |host|
    ensures Lower(host)[k] == if 'A' <= host[k] <= 'Z' then (host[k] as int + 32) as char else host[k]
  {
  }

  // ----- paths -----

  /** The address on the host of the console. */
  ghost function OnAdmin(u: Url, path: string): Url {
    var host := HostOf(u.header);
    Url(if "app." <= host then "admin." + host[4..] else host, path, u.search)
  }

  /** A page of the dashboard; a user who has to set a new password is sent there instead. */
  ghost function Shown(u: Url, forced: string -> bool): Url {
    if forced(HostOf(u.header)) then Url(u.header, "/set-new-password", "") else u
  }

  /** One of the two hosts that share the work. */
  ghost predicate OnSplitHost(u: Url) { "admin." <= HostOf(u.header) || "app." <= HostOf(u.header) }

  /** `path` is `root` or below it. */
  ghost predicate Under(path: string, root: string) {
    path == root || root + "/" <= path
  }

  lemma OldNames(r: string)
    ensures "/dashboard/admin/" <= "/dashboard/admin/" + r && ("/dashboard/admin/" + r)[17..] == r
    ensures "/dashboard/management/" <= "/dashboard/management/" + r && ("/dashboard/management/" + r)[22..] == r
    ensures KindOf("/dashboard/admin/" + r) == Legacy && KindOf("/dashboard/management/" + r) == Managed
    ensures KindOf("/dashboard/admin") == Legacy && KindOf("/dashboard/management") == Managed
  {
    var a, m := "/dashboard/admin/" + r, "/dashboard/management/" + r;
    assert a[17..] == r && m[22..] == r;
    assert a[1] == 'd' && m[1] == 'd' && a[11] == 'a' && m[11] == 'm';
    DashboardPaths(a);
    DashboardPaths(m);
    assert "/dashboard/admin"[11] == 'a' && "/dashboard/management"[11] == 'm';
    DashboardPaths("/dashboard/admin");
    DashboardPaths("/dashboard/management");
  }

  /**
   An old admin link, under either of its names, comes to rest at its place in the console, with its query; on a host
   that is neither the console's nor the app's only the older name is replaced.
   */
  lemma OldLinkLands(u: Url, forced: string -> bool, r: string)
    requires u.path == "/dashboard/admin/" + r || u.path == "/dashboard/management/" + r
    ensures Follow(u, forced, 3) ==
            if OnSplitHost(u) then OnAdmin(u, "/console/" + r)
            else Shown(u.(path := "/dashboard/admin/" + r), forced)
  {
    OldNames(r);
    OtherHost(u.header);
    RedirectsStop(u, forced, 3);
  }

  /** The bare names lead to the console's first page. */
  lemma OldNameLands(u: Url, forced: string -> bool)
    requires u.path == "/dashboard/admin" || u.path == "/dashboard/management"
    ensures Follow(u, forced, 3) ==
            if OnSplitHost(u) then OnAdmin(u, "/console/manage") else Shown(u.(path := "/dashboard/admin"), forced)
  {
    OldNames("");
    OtherHost(u.header);
    RedirectsStop(u, forced, 3);
  }

  /** The app's host hands the console over; every other host shows it. */
  lemma ConsoleLands(u: Url, forced: string -> bool)
    requires Under(u.path, "/console")
    ensures Follow(u, forced, 3) == if "app." <= HostOf(u.header) then OnAdmin(u, u.path) else u
  {
    KindTells(u.path);
    OtherHost(u.header);
    RedirectsStop(u, forced, 3);
  }

  /** The console's host hands all other pages of the dashboard over; every other host shows them. */
  lemma DashboardLands(u: Url, forced: string -> bool)
    requires Under(u.path, "/dashboard")
    requires !Under(u.path, "/dashboard/admin") && !Under(u.path, "/dashboard/management")
    ensures var host := HostOf(u.header);
            Follow(u, forced, 3) ==
              if "admin." <= host then Shown(Url("app." + host[6..], u.path, u.search), forced) else Shown(u, forced)
  {
    KindTells(u.path);
    OtherHost(u.header);
    RedirectsStop(u, forced, 3);
  }

  /** The console's host opens with the console, any other host with its own first page. */
  lemma RootLands(u: Url, forced: string -> bool)
    requires u.path == "/"
    ensures Follow(u, forced, 3) == if "admin." <= HostOf(u.header) then Url(HostOf(u.header), "/console", "") else u
  {
    RedirectsStop(u, forced, 3);
  }

  /** The password page is shown to those who have to set one, and the dashboard to everybody else. */
  lemma PasswordPageLands(u: Url, forced: string -> bool)
    requires u.path == "/set-new-password"
    ensures var host := HostOf(u.header);
            Follow(u, forced, 3) ==
              if forced(host) then u
              else if "admin." <= host then Shown(Url("app." + host[6..], "/dashboard", ""), forced)
              else Url(u.header, "/dashboard", "")
  {
    RootPaths();
    RedirectsStop(u, forced, 3);
  }

  /** Nothing else is redirected. */
  lemma OthersStay(u: Url, forced: string -> bool)
    requires u.path != "/" && u.path != "/set-new-password"
    requires !Under(u.path, "/dashboard") && !Under(u.path, "/console")
    ensures Follow(u, forced, 3) == u && Hop(u, forced).None?
  {
    KindTells(u.path);
    RedirectsStop(u, forced, 3);
    HopDescends(u, forced);
  }
}
