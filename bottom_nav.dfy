/** The bottom navigation bar (components/bottom-navigation.tsx): where it is hidden, how
    scrolling shows and hides it, and its items. */
module BottomNav {
  import opened Wrappers
  import opened Strings
  import opened Types

  /** The distance in pixels from the top within which the bar never hides. */
  const ScrollThreshold: int := 100

  /** The bar is not rendered on the login and registration pages nor under `/admin`. */
  predicate Hidden(pathname: string) {
    pathname == "/login" || pathname == "/register" || StartsWith(pathname, "/admin")
  }

  /** Exactly the login and registration pages and the paths that extend `/admin` hide the bar;
      in particular the home, search, favourites and profile pages show it. */
  lemma HiddenPaths(pathname: string)
    ensures Hidden(pathname) <==>
      pathname == "/login" || pathname == "/register" || exists rest :: pathname == "/admin" + rest
    ensures !Hidden("/") && !Hidden("/search") && !Hidden("/favorites") && !Hidden("/profile")
  {
    if StartsWith(pathname, "/admin") {
      assert pathname == "/admin" + pathname[6..];
    }
    if exists rest :: pathname == "/admin" + rest {
      var rest :| pathname == "/admin" + rest;
      assert pathname[..|"/admin"|] == "/admin";
    }
    assert "/search"[..6][1] != "/admin"[1] && "/favorites"[..6][1] != "/admin"[1];
    assert "/profile"[..6][1] != "/admin"[1];
  }

  /** `handleScroll`'s decision: hide when scrolling down past the threshold, show otherwise. */
  function NextVisible(lastScrollY: int, currentScrollY: int): (visible: bool)
    ensures !visible <==> currentScrollY > lastScrollY && currentScrollY > ScrollThreshold
  {
    !(currentScrollY > lastScrollY && currentScrollY > ScrollThreshold)
  }

  /** A link of the bar. */
  datatype NavItem = NavItem(href: string, caption: string, isActive: bool)

  predicate IsAdmin(user: Option<User>) {
    user.Some? && user.value.isAdmin
  }

  /** The last item: the admin page for an admin, the profile page otherwise; active on either
      page. */
  function AccountItem(pathname: string, user: Option<User>): (item: NavItem)
    ensures item.href == (if IsAdmin(user) then "/admin" else "/profile")
    ensures item.caption == (if IsAdmin(user) then "Admin" else "Profil")
    ensures item.isActive <==> pathname == "/profile" || pathname == "/admin"
  {
    if IsAdmin(user) then NavItem("/admin", "Admin", pathname == "/profile" || pathname == "/admin")
    else NavItem("/profile", "Profil", pathname == "/profile" || pathname == "/admin")
  }

  /** The items in bar order (the central add button links to `/add` and has no active state). */
  function NavItems(pathname: string, user: Option<User>): (items: seq<NavItem>)
    ensures |items| == 4
    ensures forall k :: 0 <= k < 3 ==> (items[k].isActive <==> pathname == items[k].href)
    ensures items[3] == AccountItem(pathname, user)
  {
    [NavItem("/", "Főoldal", pathname == "/"), NavItem("/search", "Keresés", pathname == "/search"),
     NavItem("/favorites", "Kedvencek", pathname == "/favorites"), AccountItem(pathname, user)]
  }

  /** Where the bar is shown, the last item is active only on the profile page: every `/admin`
      path hides the bar. */
  lemma AccountActiveWhenShown(pathname: string, user: Option<User>)
    requires !Hidden(pathname)
    ensures NavItems(pathname, user)[3].isActive <==> pathname == "/profile"
  {
  }

  /** An admin's last item points at a page on which the bar hides itself. */
  lemma AdminItemHidesBar(pathname: string, user: Option<User>)
    requires IsAdmin(user)
    ensures Hidden(NavItems(pathname, user)[3].href)
  {
    assert "/admin"[..|"/admin"|] == "/admin";
  }

  /** The bar's scroll state. */
  class BottomNavigation {
    var isVisible: bool
    var lastScrollY: int

    /** Shown, at the top of the page. */
    constructor ()
      ensures isVisible && lastScrollY == 0
    {
      isVisible := true;
      lastScrollY := 0;
    }

    /** `handleScroll` with the window's current scroll position. */
    method HandleScroll(currentScrollY: int)
      modifies this
      ensures !isVisible <==> currentScrollY > old(lastScrollY) && currentScrollY > ScrollThreshold
      ensures lastScrollY == currentScrollY
    {
      if currentScrollY > lastScrollY && currentScrollY > ScrollThreshold {
        isVisible := false;
      } else {
        isVisible := true;
      }
      lastScrollY := currentScrollY;
    }
  }

  /** Scrolling up, or staying within the threshold, always shows the bar. */
  lemma ScrollUpShows(lastScrollY: int, currentScrollY: int)
    requires currentScrollY <= lastScrollY || currentScrollY <= ScrollThreshold
    ensures NextVisible(lastScrollY, currentScrollY)
  {
  }
}
