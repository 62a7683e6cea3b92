/** The mobile menu shared by every page: a button that opens and closes
    it, Escape and its links and backdrop that close it, and the routing a
    menu link click performs. The `isMenuOpen` closure variable and the
    three class flags (`active` on the hamburger icon and on the menu,
    `menu-open` on the body) are separate fields, because the source keeps
    them separately and another script clears the classes alone. */
module MobileMenu {
  import opened Wrappers
  import opened Strings

  /** What a menu link click leads to once the menu is closed: the
      browser's own navigation, a smooth scroll to a page offset, an
      assignment to `location.href`, or nothing. */
  datatype LinkAction = FollowDefault | ScrollTo(top: int) | NavigateTo(url: string) | NoAction

  /** The routing of a link click: `prevented` says whether the default
      navigation is cancelled. */
  datatype LinkRoute = LinkRoute(prevented: bool, action: LinkAction)

  /** Space kept above a section scrolled to, for the fixed header. */
  const HeaderOffset := 80

  /** An external link: its href starts with `http`, or it opens in a new
      tab. */
  predicate IsExternal(href: string, target: Option<string>) {
    StartsWith(href, "http") || target == Some("_blank")
  }

  /** The link handler's routing, given the link's href and target
      attribute and the top of the element `querySelector(href)` finds
      (`None` when it finds none). External links keep their default;
      in-page links scroll to the element 80 px above its top, or do
      nothing when it is absent; any other link is followed by assigning
      it to `location.href`. */
  function RouteLink(href: string, target: Option<string>, targetTop: Option<int>): (r: LinkRoute)
    ensures r.prevented <==> !IsExternal(href, target)
    ensures !r.prevented <==> r.action == FollowDefault
    ensures r.action.ScrollTo? <==> !IsExternal(href, target) && StartsWith(href, "#") && targetTop.Some?
    ensures r.action.ScrollTo? ==> r.action.top == targetTop.value - HeaderOffset
    ensures r.action.NavigateTo? <==> !IsExternal(href, target) && !StartsWith(href, "#")
    ensures r.action.NavigateTo? ==> r.action.url == href && !StartsWith(href, "http")
    ensures r.action == NoAction <==> !IsExternal(href, target) && StartsWith(href, "#") && targetTop.None?
  {
    if IsExternal(href, target) then LinkRoute(false, FollowDefault)
    else if StartsWith(href, "#") then
      LinkRoute(true, if targetTop.Some? then ScrollTo(targetTop.value - HeaderOffset) else NoAction)
    else LinkRoute(true, NavigateTo(href))
  }

  /** A link with an `http` href is never navigated to by script, whatever
      its target: it is left to the browser. */
  lemma HttpLinksFollowDefault(rest: string, target: Option<string>, targetTop: Option<int>)
    ensures RouteLink("http" + rest, target, targetTop) == LinkRoute(false, FollowDefault)
  {
    assert StartsWith("http" + rest, "http");
  }

  class Menu {
    var isMenuOpen: bool
    var hamburgerActive: bool
    var menuActive: bool
    var bodyMenuOpen: bool
    /** Whether the Escape handler is attached to the document. */
    var escapeListening: bool

    /** The flag, the three classes and the Escape listener agree. */
    predicate Synced()
      reads this
    {
      hamburgerActive == isMenuOpen && menuActive == isMenuOpen &&
      bodyMenuOpen == isMenuOpen && escapeListening == isMenuOpen
    }

    /** A closed menu over markup without the `active`/`menu-open`
        classes. */
    constructor ()
      ensures Synced() && !isMenuOpen
    {
      isMenuOpen, hamburgerActive, menuActive, bodyMenuOpen, escapeListening := false, false, false, false, false;
    }

    /** The button's `click` listener: flip the flag, toggle each class,
        attach the Escape handler when opening and detach it when
        closing. */
    method OnButtonClick()
      modifies this
      ensures isMenuOpen == !old(isMenuOpen)
      ensures hamburgerActive == !old(hamburgerActive) && menuActive == !old(menuActive)
      ensures bodyMenuOpen == !old(bodyMenuOpen)
      ensures escapeListening == isMenuOpen
      ensures old(Synced()) ==> Synced()
    {
      isMenuOpen := !isMenuOpen;
      hamburgerActive := !hamburgerActive;
      menuActive := !menuActive;
      bodyMenuOpen := !bodyMenuOpen;
      escapeListening := isMenuOpen;
    }

    /** `closeMobileMenu`: from any state, a closed and synced menu. */
    method Close()
      modifies this
      ensures !isMenuOpen && !hamburgerActive && !menuActive && !bodyMenuOpen && !escapeListening
      ensures Synced()
    {
      isMenuOpen := false;
      hamburgerActive := false;
      menuActive := false;
      bodyMenuOpen := false;
      escapeListening := false;
    }

    /** A document `keydown`: Escape closes the menu while the handler is
        attached; otherwise nothing changes. */
    method OnKeyDown(key: string)
      modifies this
      ensures old(escapeListening) && key == "Escape" ==> !isMenuOpen && Synced()
      ensures !(old(escapeListening) && key == "Escape") ==>
        isMenuOpen == old(isMenuOpen) && hamburgerActive == old(hamburgerActive) &&
        menuActive == old(menuActive) && bodyMenuOpen == old(bodyMenuOpen) &&
        escapeListening == old(escapeListening)
    {
      if escapeListening && key == "Escape" {
        Close();
      }
    }

    /** A menu link's `click` listener. A link without an href makes the
        listener throw before it does anything; any other link closes the
        menu and is routed by `RouteLink`. */
    method OnLinkClick(href: Option<string>, target: Option<string>, targetTop: Option<int>)
      returns (route: LinkRoute)
      modifies this
      ensures href.None? ==>
        route == LinkRoute(false, FollowDefault) &&
        isMenuOpen == old(isMenuOpen) && hamburgerActive == old(hamburgerActive) &&
        menuActive == old(menuActive) && bodyMenuOpen == old(bodyMenuOpen) &&
        escapeListening == old(escapeListening)
      ensures href.Some? ==> route == RouteLink(href.value, target, targetTop) && !isMenuOpen && Synced()
    {
      if href.None? {
        return LinkRoute(false, FollowDefault);
      }
      Close();
      route := RouteLink(href.value, target, targetTop);
    }

    /** The menu's own `click` listener: a click on the menu backdrop
        itself, not on anything inside it, closes the menu. */
    method OnMenuAreaClick(targetIsMenu: bool)
      modifies this
      ensures targetIsMenu ==> !isMenuOpen && Synced()
      ensures !targetIsMenu ==>
        isMenuOpen == old(isMenuOpen) && hamburgerActive == old(hamburgerActive) &&
        menuActive == old(menuActive) && bodyMenuOpen == old(bodyMenuOpen) &&
        escapeListening == old(escapeListening)
    {
      if targetIsMenu {
        Close();
      }
    }

    /** The page-wide in-page anchor handler of the shared script: when the
        menu has `active`, it removes the three classes and leaves the
        flag and the Escape handler as they were. */
    method GlobalAnchorClose()
      modifies this`hamburgerActive, this`menuActive, this`bodyMenuOpen
      ensures old(menuActive) ==> !hamburgerActive && !menuActive && !bodyMenuOpen
      ensures !old(menuActive) ==>
        hamburgerActive == old(hamburgerActive) && menuActive == old(menuActive) &&
        bodyMenuOpen == old(bodyMenuOpen)
    {
      if menuActive {
        hamburgerActive := false;
        menuActive := false;
        bodyMenuOpen := false;
      }
    }
  }

  /** The shared anchor handler closing an open menu leaves the flag set;
      the next button click then clears the flag and shows the menu, so
      the menu is visible while the script counts it closed and Escape no
      longer closes it. */
  method DesyncAfterGlobalAnchorClick() returns (m: Menu)
    ensures !m.isMenuOpen && m.menuActive && m.hamburgerActive && m.bodyMenuOpen
    ensures !m.escapeListening && !m.Synced()
  {
    m := new Menu();
    m.OnButtonClick();
    m.GlobalAnchorClose();
    m.OnButtonClick();
    m.OnKeyDown("Escape");
  }
}
