/** Navigation behaviour of js/main.js: which link is marked active for the
    current page (`setActiveNavLink`), the open/close state of the mobile menu
    (`initMobileNav`), and the header's scroll marker (`initHeaderScroll`). */
module Navigation {

  /** `path.split('/').pop()`: the part of `path` after its last '/', or the
      whole of `path` when it has none. */
  function LastSegment(path: string): (seg: string)
    ensures |seg| <= |path| && seg == path[|path| - |seg|..]
    ensures forall k | 0 <= k < |seg| :: seg[k] != '/'
    ensures |seg| < |path| ==> path[|path| - |seg| - 1] == '/'
  {
    if path == [] then []
    else if path[|path| - 1] == '/' then []
    else LastSegment(path[..|path| - 1]) + [path[|path| - 1]]
  }

  const DefaultPage: string := "index.html"

  /** `pathname.split('/').pop() || 'index.html'`: the last segment, or the
      default page when that segment is empty. */
  function PageName(path: string): (page: string)
    ensures page != []
    ensures forall k | 0 <= k < |page| :: page[k] != '/'
    ensures LastSegment(path) != [] ==> page == LastSegment(path)
    ensures LastSegment(path) == [] ==> page == DefaultPage
  {
    var seg := LastSegment(path);
    if seg != [] then seg else DefaultPage
  }

  /** The source's test for marking a link active, with all three of its
      alternatives: a link whose href is the page name is always marked, and
      the only other link ever marked is the default page for an empty name. */
  predicate IsActiveFor(href: string, page: string)
    ensures href == page ==> IsActiveFor(href, page)
    ensures IsActiveFor(href, page) ==> href == page || (page == "" && href == DefaultPage)
  {
    href == page ||
    (page == "" && href == "index.html") ||
    (page == "index.html" && href == "index.html")
  }

  /** Since the page name is never empty, the second alternative of the test
      never fires and the third is covered by the first: a link is active
      exactly when its href equals the page name. */
  lemma ActiveIffHrefIsPage(path: string, href: string)
    ensures IsActiveFor(href, PageName(path)) <==> href == PageName(path)
  {
  }

  /** A path ending in '/' (the site root, a directory) selects the default page. */
  lemma TrailingSlashSelectsDefault(path: string)
    requires path != [] && path[|path| - 1] == '/'
    ensures PageName(path) == DefaultPage
  {
  }

  /** The page name of a path is the page name of any path that ends with it
      after a '/': directories in front of the last segment do not matter. */
  lemma {:induction false} PageNameIgnoresDirectories(dir: string, file: string)
    requires forall k | 0 <= k < |file| :: file[k] != '/'
    ensures PageName(dir + "/" + file) == PageName(file)
  {
    var p := dir + "/" + file;
    var seg := LastSegment(p);
    assert p[|p| - |file|..] == file;
    assert p[|p| - |file| - 1] == '/';
    assert seg == file;
    SegmentOfSlashFree(file);
  }

  /** A string without '/' is its own last segment. */
  lemma {:induction false} SegmentOfSlashFree(s: string)
    requires forall k | 0 <= k < |s| :: s[k] != '/'
    ensures LastSegment(s) == s
  {
    if s != [] {
      SegmentOfSlashFree(s[..|s| - 1]);
    }
  }

  /** A navigation link: its `href` attribute (a missing attribute reads as
      null, which no page name equals, so it is modelled as "") and whether
      its class list holds `active`. */
  class NavLink {
    const href: string
    var active: bool

    constructor (href: string, active: bool)
      ensures this.href == href && this.active == active
    {
      this.href := href;
      this.active := active;
    }
  }

  /** `setActiveNavLink`: every link is visited in order, and afterwards each is
      active exactly when its href equals the current page name. */
  method SetActiveNavLink(links: seq<NavLink>, path: string)
    modifies set i | 0 <= i < |links| :: links[i]
    ensures forall i | 0 <= i < |links| :: links[i].active <==> links[i].href == PageName(path)
  {
    var page := PageName(path);
    for i := 0 to |links|
      invariant forall j | 0 <= j < i :: links[j].active <==> links[j].href == page
    {
      var href := links[i].href;
      if IsActiveFor(href, page) {
        links[i].active := true;
      } else {
        links[i].active := false;
      }
    }
  }

  /** The value `document.body.style.overflow` gets for a menu that is open or closed. */
  function OverflowFor(open: bool): string {
    if open then "hidden" else ""
  }

  /** The mobile menu: the `active` class on the toggle button and on the
      menu, and the page body's `overflow` style. */
  class MobileNav {
    var toggleActive: bool
    var navActive: bool
    var bodyOverflow: string

    /** The toggle and the menu agree, and the page scrolls exactly when the menu is closed. */
    ghost predicate Valid()
      reads this
    {
      toggleActive == navActive && bodyOverflow == OverflowFor(navActive)
    }

    /** The menu as the page loads it: closed. */
    constructor ()
      ensures Valid() && !navActive
    {
      toggleActive, navActive, bodyOverflow := false, false, "";
    }

    /** Both `active` classes and the body overflow back to the closed state. */
    method Close()
      modifies this
      ensures Valid() && !navActive
    {
      toggleActive := false;
      navActive := false;
      bodyOverflow := "";
    }

    /** A click on the toggle button flips both classes, then sets the
        overflow from the menu's new state. */
    method OnToggleClick()
      requires Valid()
      modifies this
      ensures Valid() && navActive == !old(navActive)
    {
      toggleActive := !toggleActive;
      navActive := !navActive;
      bodyOverflow := if navActive then "hidden" else "";
    }

    /** A click on a menu link always closes the menu. */
    method OnLinkClick()
      modifies this
      ensures Valid() && !navActive
    {
      Close();
    }

    /** A click anywhere in the document closes an open menu when its target
        lies outside both the menu and the toggle; otherwise nothing changes. */
    method OnDocumentClick(targetInNav: bool, targetInToggle: bool)
      requires Valid()
      modifies this
      ensures Valid()
      ensures navActive == (old(navActive) && (targetInNav || targetInToggle))
      ensures !old(navActive) || targetInNav || targetInToggle ==> unchanged(this)
    {
      if navActive && !targetInNav && !targetInToggle {
        Close();
      }
    }

    /** A key press closes an open menu when the key is Escape; otherwise nothing changes. */
    method OnKeyDown(key: string)
      requires Valid()
      modifies this
      ensures Valid()
      ensures navActive == (old(navActive) && key != "Escape")
      ensures key != "Escape" || !old(navActive) ==> unchanged(this)
    {
      if key == "Escape" && navActive {
        Close();
      }
    }

    /** A click on the toggle button reaches its own listener and then, as it
        bubbles, the document's: the target is inside the toggle, so the
        document listener keeps the state the toggle listener set. */
    method ClickToggleButton()
      requires Valid()
      modifies this
      ensures Valid() && navActive == !old(navActive)
    {
      OnToggleClick();
      OnDocumentClick(false, true);
    }
  }

  /** How far, in pixels, the page must be scrolled before the header is
      marked as scrolled. */
  const ScrollThreshold: real := 10.0

  /** The page header: whether its class list holds `scrolled`, and the scroll
      position the listener saw last. */
  class Header {
    var scrolled: bool
    var lastScroll: real

    /** The marker agrees with the last position seen. */
    ghost predicate Valid()
      reads this
    {
      scrolled <==> lastScroll > ScrollThreshold
    }

    /** `initHeaderScroll`: `lastScroll` starts at 0; the class list is as the
        markup gives it until the first scroll event. */
    constructor (initiallyScrolled: bool)
      ensures lastScroll == 0.0 && scrolled == initiallyScrolled
      ensures !initiallyScrolled ==> Valid()
    {
      lastScroll := 0.0;
      scrolled := initiallyScrolled;
    }

    /** The scroll listener: `scrolled` is added exactly when the page is
        scrolled more than the threshold and removed otherwise, and the
        position is remembered. */
    method OnScroll(currentScroll: real)
      modifies this
      ensures scrolled <==> currentScroll > ScrollThreshold
      ensures lastScroll == currentScroll
      ensures Valid()
    {
      if currentScroll > ScrollThreshold {
        scrolled := true;
      } else {
        scrolled := false;
      }
      lastScroll := currentScroll;
    }
  }
}
