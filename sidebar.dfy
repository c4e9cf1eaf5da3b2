/**
 * The navigation sidebar: which menu entry is highlighted for the current path, which
 * entries are shown, and the collapsed/expanded state of the panel.
 */
module Sidebar {

  datatype NavItem = NavItem(href: string, caption: string)

  /** The main menu, in display order. */
  const NavItems: seq<NavItem> := [
    NavItem("/", "Trang chủ"),
    NavItem("/feed", "Bảng tin"),
    NavItem("/directory", "Danh bạ"),
    NavItem("/events", "Sự kiện"),
    NavItem("/tree", "Cây gia phả"),
    NavItem("/book", "Sách gia phả"),
    NavItem("/people", "Thành viên"),
    NavItem("/media", "Thư viện")
  ]

  /** The administration menu, in display order. */
  const AdminItems: seq<NavItem> := [
    NavItem("/admin/people", "Quản lý gia phả"),
    NavItem("/admin/users", "Quản lý người dùng"),
    NavItem("/admin/edits", "Kiểm duyệt"),
    NavItem("/admin/audit", "Lịch sử hoạt động"),
    NavItem("/admin/backup", "Sao lưu")
  ]

  /** Viewport width (in CSS pixels) from which the sidebar stays open. */
  const DesktopWidth := 1024

  /** A main entry is active on its exact path, or, except for the home entry, on any path it prefixes. */
  predicate IsMainActive(pathname: string, href: string): (active: bool)
    ensures pathname == href ==> active
    ensures active ==> |href| <= |pathname| && pathname[..|href|] == href
  {
    pathname == href || (href != "/" && href <= pathname)
  }

  /** An administration entry is active on any path it prefixes. */
  predicate IsAdminActive(pathname: string, href: string): (active: bool)
    ensures active <==> |href| <= |pathname| && pathname[..|href|] == href
  {
    href <= pathname
  }

  /** The home entry is active only on "/" itself. */
  lemma HomeActiveOnlyAtRoot(pathname: string)
    ensures IsMainActive(pathname, "/") <==> pathname == "/"
  {
  }

  /** Every other main entry is active exactly when its path is a prefix of the current one. */
  lemma MainActiveIsPrefix(pathname: string, href: string)
    requires href != "/"
    ensures IsMainActive(pathname, href) <==> href <= pathname
  {
  }

  /** The prefix test ignores path segments: "/feedback" highlights "/feed". */
  lemma PrefixNotSegmentAware()
    ensures IsMainActive("/feedback", "/feed")
    ensures IsMainActive("/people/I0001", "/people")
    ensures !IsMainActive("/admin/people", "/people")
  {
    assert "/feed" == "/feedback"[..5];
    assert "/people" == "/people/I0001"[..7];
    assert "/admin/people"[1] != "/people"[1];
  }

  /** No path of the list is a prefix of another one. */
  predicate PrefixFree(hrefs: seq<string>) {
    forall i, j :: 0 <= i < |hrefs| && 0 <= j < |hrefs| && i != j ==> !(hrefs[i] <= hrefs[j])
  }

  function Hrefs(items: seq<NavItem>): (r: seq<string>)
    ensures |r| == |items| && forall i :: 0 <= i < |items| ==> r[i] == items[i].href
  {
    if items == [] then [] else [items[0].href] + Hrefs(items[1..])
  }

  /** Two prefixes of one string are prefixes of each other. */
  lemma PrefixesComparable(a: string, b: string, s: string)
    requires a <= s && b <= s && |a| <= |b|
    ensures a <= b
  {
    assert a == s[..|a|] && b[..|a|] == s[..|a|];
  }

  /**
   * A list of paths is prefix-free when each path has a character at position `k` and that
   * character identifies the path: `index` maps it back to the path's own position.
   */
  lemma DistinctAtPrefixFree(hrefs: seq<string>, k: nat, index: map<char, nat>)
    requires forall i :: 0 <= i < |hrefs| ==> k < |hrefs[i]| && hrefs[i][k] in index && index[hrefs[i][k]] == i
    ensures PrefixFree(hrefs)
  {
    forall i, j | 0 <= i < |hrefs| && 0 <= j < |hrefs| && i != j
      ensures !(hrefs[i] <= hrefs[j])
    {
      assert hrefs[i][k] != hrefs[j][k];
    }
  }

  /** Apart from "/", the main paths differ in their second character. */
  lemma NavHrefsPrefixFree()
    ensures PrefixFree(Hrefs(NavItems[1..]))
  {
    var h := Hrefs(NavItems[1..]);
    assert |h| == 7 && h[0] == "/feed" && h[1] == "/directory" && h[2] == "/events" && h[3] == "/tree";
    assert h[4] == "/book" && h[5] == "/people" && h[6] == "/media";
    DistinctAtPrefixFree(h, 1, map['f' := 0, 'd' := 1, 'e' := 2, 't' := 3, 'b' := 4, 'p' := 5, 'm' := 6]);
  }

  /** The administration paths differ in their eighth character. */
  lemma AdminHrefsPrefixFree()
    ensures PrefixFree(Hrefs(AdminItems))
  {
    var h := Hrefs(AdminItems);
    assert |h| == 5 && h[0] == "/admin/people" && h[1] == "/admin/users" && h[2] == "/admin/edits";
    assert h[3] == "/admin/audit" && h[4] == "/admin/backup";
    DistinctAtPrefixFree(h, 7, map['p' := 0, 'u' := 1, 'e' := 2, 'a' := 3, 'b' := 4]);
  }

  /** For any path at most one main entry is highlighted. */
  lemma {:induction false} AtMostOneMainActive(pathname: string, i: nat, j: nat)
    requires i < j < |NavItems|
    requires IsMainActive(pathname, NavItems[i].href)
    ensures !IsMainActive(pathname, NavItems[j].href)
  {
    var h := Hrefs(NavItems[1..]);
    NavHrefsPrefixFree();
    if i > 0 && IsMainActive(pathname, NavItems[j].href) {
      var a, b := NavItems[i].href, NavItems[j].href;
      assert a == h[i - 1] && b == h[j - 1];
      assert a <= pathname && b <= pathname;
      if |a| <= |b| {
        PrefixesComparable(a, b, pathname);
      } else {
        PrefixesComparable(b, a, pathname);
      }
      assert false;
    }
  }

  /** For any path at most one administration entry is highlighted. */
  lemma {:induction false} AtMostOneAdminActive(pathname: string, i: nat, j: nat)
    requires i < j < |AdminItems|
    requires IsAdminActive(pathname, AdminItems[i].href)
    ensures !IsAdminActive(pathname, AdminItems[j].href)
  {
    var h := Hrefs(AdminItems);
    AdminHrefsPrefixFree();
    if IsAdminActive(pathname, AdminItems[j].href) {
      var a, b := AdminItems[i].href, AdminItems[j].href;
      assert a == h[i] && b == h[j];
      if |a| <= |b| {
        PrefixesComparable(a, b, pathname);
      } else {
        PrefixesComparable(b, a, pathname);
      }
      assert false;
    }
  }

  /** One rendered menu entry with its highlight. */
  datatype Entry = Entry(item: NavItem, admin: bool, active: bool)

  /**
   * The entries the menu renders: every main entry, then the administration entries only
   * for an administrator, each with the highlight its own rule gives.
   */
  function Entries(pathname: string, isAdmin: bool): (r: seq<Entry>)
    ensures |r| == |NavItems| + (if isAdmin then |AdminItems| else 0)
    ensures forall k :: 0 <= k < |NavItems| ==>
      r[k] == Entry(NavItems[k], false, IsMainActive(pathname, NavItems[k].href))
    ensures forall k :: |NavItems| <= k < |r| ==>
      isAdmin && r[k] == Entry(AdminItems[k - |NavItems|], true,
                               IsAdminActive(pathname, AdminItems[k - |NavItems|].href))
  {
    var main := seq(|NavItems|, k requires 0 <= k < |NavItems| =>
      Entry(NavItems[k], false, IsMainActive(pathname, NavItems[k].href)));
    var admin := seq(|AdminItems|, k requires 0 <= k < |AdminItems| =>
      Entry(AdminItems[k], true, IsAdminActive(pathname, AdminItems[k].href)));
    main + (if isAdmin then admin else [])
  }

  /** The collapsed/expanded state of the sidebar panel. */
  class SidebarState {
    var collapsed: bool

    /** The panel starts collapsed. */
    constructor ()
      ensures collapsed
    {
      collapsed := true;
    }

    /** On mount the panel opens on a desktop-wide viewport and stays as it is otherwise. */
    method Mount(innerWidth: int)
      modifies this
      ensures collapsed == (old(collapsed) && innerWidth < DesktopWidth)
    {
      if innerWidth >= DesktopWidth {
        collapsed := false;
      }
    }

    /** The menu button and the collapse button flip the state. */
    method Toggle()
      modifies this
      ensures collapsed == !old(collapsed)
    {
      collapsed := !collapsed;
    }

    /** The backdrop and the close button collapse the panel. */
    method Close()
      modifies this
      ensures collapsed
    {
      collapsed := true;
    }

    /** Following a menu link collapses the panel on a narrow viewport only. */
    method ClickLink(innerWidth: int)
      modifies this
      ensures collapsed == (old(collapsed) || innerWidth < DesktopWidth)
    {
      if innerWidth < DesktopWidth {
        Close();
      }
    }
  }

  /** Toggling twice restores the state. */
  method ToggleTwice(s: SidebarState)
    modifies s
    ensures s.collapsed == old(s.collapsed)
  {
    s.Toggle();
    s.Toggle();
  }

  /** Closing twice is the same as closing once. */
  method CloseTwice(s: SidebarState)
    modifies s
    ensures s.collapsed
  {
    s.Close();
    s.Close();
  }

  /** A freshly mounted sidebar is open exactly on a desktop-wide viewport. */
  method MountFresh(innerWidth: int) returns (s: SidebarState)
    ensures s.collapsed <==> innerWidth < DesktopWidth
  {
    s := new SidebarState();
    s.Mount(innerWidth);
  }
}
