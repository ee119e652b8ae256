/**
 * The navigation bar (src/app/Navbar.tsx): five fixed links, and the rule
 * that decides which of them is highlighted for the current path.
 */
module Navbar {

  datatype NavItem = NavItem(href: string, caption: string)

  /** `navItems`, in display order. */
  const NavItems: seq<NavItem> := [
    NavItem("/dashboard", "Dashboard"),
    NavItem("/devices", "Devices"),
    NavItem("/alerts", "Alerts"),
    NavItem("/report", "Report"),
    NavItem("/settings", "Settings")
  ]

  /** `s.startsWith(prefix)`. */
  predicate StartsWith(s: string, prefix: string)
  {
    |prefix| <= |s| && s[..|prefix|] == prefix
  }

  /**
   * `isActive(href)` for the current `pathname`: the dashboard link owns
   * `/` and `/dashboard` only; every other link owns its own path and
   * everything below it.
   */
  function IsActive(pathname: string, href: string): (active: bool)
    ensures active ==> pathname == "/" || StartsWith(pathname, href)
  {
    if href == "/dashboard" then pathname == "/" || pathname == "/dashboard"
    else
      assert StartsWith(pathname, href + "/") ==> pathname[..|href|] == (href + "/")[..|href|];
      pathname == href || StartsWith(pathname, href + "/")
  }

  /** The hrefs of the five links, in order. */
  lemma NavItemsInOrder()
    ensures |NavItems| == 5
    ensures NavItems[0].href == "/dashboard" && NavItems[1].href == "/devices"
    ensures NavItems[2].href == "/alerts" && NavItems[3].href == "/report"
    ensures NavItems[4].href == "/settings"
  {
  }

  /** The character at position `k` of an active non-dashboard link's href is the path's. */
  lemma ActiveSharesPrefix(pathname: string, href: string, k: nat)
    requires href != "/dashboard" && IsActive(pathname, href)
    requires k < |href|
    ensures k < |pathname| && pathname[k] == href[k]
  {
    if pathname != href {
      assert (href + "/")[k] == href[k];
      assert pathname[..|href + "/"|][k] == (href + "/")[k];
    }
  }

  /** The dashboard link is active exactly for `/` and `/dashboard`. */
  lemma DashboardActiveIff(pathname: string)
    ensures IsActive(pathname, NavItems[0].href) <==> pathname == "/" || pathname == "/dashboard"
  {
  }

  /**
   * Any other link is active exactly when the path is its href or lies
   * below it, one `/` further on.
   */
  lemma OtherActiveIff(pathname: string, i: nat)
    requires 1 <= i < |NavItems|
    ensures IsActive(pathname, NavItems[i].href) <==>
      pathname == NavItems[i].href ||
      (|pathname| > |NavItems[i].href| && pathname[..|NavItems[i].href|] == NavItems[i].href
         && pathname[|NavItems[i].href|] == '/')
  {
    var h := NavItems[i].href;
    if |pathname| > |h| && pathname[..|h|] == h && pathname[|h|] == '/' {
      assert pathname[..|h + "/"|] == h + "/";
    }
    if pathname != h && IsActive(pathname, h) {
      assert pathname[..|h|] == pathname[..|h + "/"|][..|h|];
      assert pathname[|h|] == pathname[..|h + "/"|][|h|];
    }
  }

  /** For every path at most one of the five links is highlighted. */
  lemma AtMostOneActive(pathname: string, i: nat, j: nat)
    requires i < |NavItems| && j < |NavItems| && i != j
    ensures !(IsActive(pathname, NavItems[i].href) && IsActive(pathname, NavItems[j].href))
  {
    if IsActive(pathname, NavItems[i].href) && IsActive(pathname, NavItems[j].href) {
      var hi, hj := NavItems[i].href, NavItems[j].href;
      if i == 0 || j == 0 {
        // The other link starts with "/d" only for /devices, whose third
        // character differs from that of "/dashboard"; "/" is too short.
        var h := if i == 0 then hj else hi;
        ActiveSharesPrefix(pathname, h, 1);
        ActiveSharesPrefix(pathname, h, 2);
        assert false;
      } else {
        // Two non-dashboard links differ in their second character.
        ActiveSharesPrefix(pathname, hi, 1);
        ActiveSharesPrefix(pathname, hj, 1);
        assert false;
      }
    }
  }

  /** The highlight flag of each link, in display order, as the bar renders them. */
  function ActiveFlags(pathname: string): (flags: seq<bool>)
    ensures |flags| == |NavItems|
    ensures forall i :: 0 <= i < |flags| ==> flags[i] == IsActive(pathname, NavItems[i].href)
    ensures forall i, j :: 0 <= i < j < |flags| && flags[i] ==> !flags[j]
  {
    forall i, j | 0 <= i < j < |NavItems| {
      AtMostOneActive(pathname, i, j);
    }
    seq(|NavItems|, i requires 0 <= i < |NavItems| => IsActive(pathname, NavItems[i].href))
  }

  /** A device's detail page highlights Devices; a path that merely shares its letters does not. */
  lemma DevicesExamples()
    ensures IsActive("/devices/10.0.0.1", NavItems[1].href)
    ensures !IsActive("/devicesX", NavItems[1].href)
  {
    assert "/devices/10.0.0.1"[..|"/devices/"|] == "/devices/";
    assert "/devicesX"[..|"/devices/"|] != "/devices/" by {
      assert "/devicesX"[..|"/devices/"|][8] == 'X';
    }
  }

  /** The root path highlights Dashboard and nothing else. */
  lemma RootActivatesOnlyDashboard()
    ensures IsActive("/", NavItems[0].href)
    ensures forall i :: 1 <= i < |NavItems| ==> !IsActive("/", NavItems[i].href)
  {
  }

  /** A path below /dashboard highlights no link at all. */
  lemma BelowDashboardActivatesNothing()
    ensures forall i :: 0 <= i < |NavItems| ==> !IsActive("/dashboard/x", NavItems[i].href)
  {
    forall i | 1 <= i < |NavItems|
      ensures !IsActive("/dashboard/x", NavItems[i].href)
    {
      var h := NavItems[i].href;
      if IsActive("/dashboard/x", h) {
        ActiveSharesPrefix("/dashboard/x", h, 1);
        ActiveSharesPrefix("/dashboard/x", h, 2);
        assert false;
      }
    }
  }
}
