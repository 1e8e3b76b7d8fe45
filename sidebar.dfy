/** Which admin navigation entry is highlighted (components/admin/sidebar.tsx). */
module Sidebar {

  datatype NavItem = NavItem(href: string, name: string)

  const DashboardHref: string := "/admin"

  const NavItems: seq<NavItem> := [
    NavItem("/admin", "Dashboard"),
    NavItem("/admin/books", "Books"),
    NavItem("/admin/users", "Users"),
    NavItem("/admin/downloads", "Downloads"),
    NavItem("/admin/messages", "Messages")
  ]

  /** `s.startsWith(prefix)`: a plain character prefix, no path segments. */
  predicate StartsWith(s: string, prefix: string) {
    |prefix| <= |s| && s[..|prefix|] == prefix
  }

  /** An entry is active on its own path and, except for the dashboard, on
      every path that starts with its href. */
  predicate IsActive(pathname: string, href: string)
    ensures pathname == href ==> IsActive(pathname, href)
    ensures IsActive(pathname, href) ==> |href| <= |pathname| && pathname[..|href|] == href
  {
    pathname == href || (href != DashboardHref && StartsWith(pathname, href))
  }

  /** The highlight of each entry, in menu order. */
  function ActiveFlags(pathname: string): (r: seq<bool>)
    ensures |r| == |NavItems|
    ensures forall i :: 0 <= i < |r| ==> (r[i] <==> IsActive(pathname, NavItems[i].href))
  {
    seq(|NavItems|, i requires 0 <= i < |NavItems| => IsActive(pathname, NavItems[i].href))
  }

  /** Five entries, with distinct hrefs, all inside the admin area. */
  lemma NavItemsShape()
    ensures |NavItems| == 5 && NavItems[0].href == DashboardHref
    ensures forall i, j :: 0 <= i < j < |NavItems| ==> NavItems[i].href != NavItems[j].href
    ensures forall i :: 0 <= i < |NavItems| ==> StartsWith(NavItems[i].href, DashboardHref)
  {
  }

  /** The dashboard entry is active on exactly the path "/admin". */
  lemma DashboardOnlyOnItsOwnPath(pathname: string)
    ensures IsActive(pathname, DashboardHref) <==> pathname == DashboardHref
  {
  }

  /** Every entry is active on its own path. */
  lemma OwnPathIsActive(i: nat)
    requires i < |NavItems|
    ensures ActiveFlags(NavItems[i].href)[i]
  {
  }

  /** A page below a section highlights that section, not the dashboard; the
      match is by characters, so a longer sibling name matches as well. */
  lemma SectionPrefixMatch()
    ensures IsActive("/admin/books/xyz", "/admin/books")
    ensures !IsActive("/admin/books/xyz", DashboardHref)
    ensures IsActive("/admin/booksellers", "/admin/books")
  {
    assert "/admin/books/xyz"[..12] == "/admin/books";
    assert "/admin/booksellers"[..12] == "/admin/books";
  }

  /** Two prefixes of one string: the shorter is a prefix of the longer. */
  lemma PrefixesNest(s: string, p: string, q: string)
    requires StartsWith(s, p) && StartsWith(s, q) && |p| <= |q|
    ensures StartsWith(q, p)
  {
    assert q[..|p|] == s[..|q|][..|p|] == s[..|p|];
  }

  /** No section href is a prefix of another entry's href. */
  lemma SectionsDoNotNest(i: nat, j: nat)
    requires 0 < i < |NavItems| && j < |NavItems| && i != j
    ensures !StartsWith(NavItems[j].href, NavItems[i].href)
  {
    var a, b := NavItems[i].href, NavItems[j].href;
    assert |a| > 7;
    if j == 0 {
      assert |b| < |a|;
    } else {
      assert |b| > 7 && a[7] != b[7];
      assert |a| <= |b| ==> b[..|a|][7] == b[7];
    }
  }

  /** At most one entry is highlighted on any path. */
  lemma {:induction false} AtMostOneActive(pathname: string, i: nat, j: nat)
    requires i < |NavItems| && j < |NavItems|
    requires ActiveFlags(pathname)[i] && ActiveFlags(pathname)[j]
    ensures i == j
  {
    if i != j {
      var a, b := NavItems[i].href, NavItems[j].href;
      assert IsActive(pathname, a) && IsActive(pathname, b);
      if i == 0 {
        assert pathname == DashboardHref;
        assert StartsWith(pathname, b);
        SectionsDoNotNest(j, i);
        assert false;
      } else if j == 0 {
        assert pathname == DashboardHref;
        assert StartsWith(pathname, a);
        SectionsDoNotNest(i, j);
        assert false;
      } else {
        assert StartsWith(pathname, a) && StartsWith(pathname, b);
        if |a| <= |b| {
          PrefixesNest(pathname, a, b);
          SectionsDoNotNest(i, j);
        } else {
          PrefixesNest(pathname, b, a);
          SectionsDoNotNest(j, i);
        }
        assert false;
      }
    }
  }
}
