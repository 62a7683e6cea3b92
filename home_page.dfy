/** The home page's interactive state: the "encontros" image cards, of which
    a click makes at most one active, and the menu links, of which the one
    for the section in view is highlighted. Cards and links are arrays of
    flags in document order (`active` on a card, `text-accent font-semibold`
    on a link; a link without it carries `text-white`). */
module HomePage {
  import opened Wrappers
  import opened Strings
  import opened Sequences

  /** Where a click landed: on card `index` (inside one of its links, or
      not), or outside every card. */
  datatype ClickTarget = OnCard(index: nat, inLink: bool) | Elsewhere

  /** No card active. */
  function NoneActive(cards: seq<bool>): (r: seq<bool>)
    ensures |r| == |cards| && forall i :: 0 <= i < |r| ==> !r[i]
  {
    seq(|cards|, i => false)
  }

  /** The card states after a click on card `i` outside its links: an
      active card is switched off, an inactive one becomes the only active
      card. */
  function CardClicked(cards: seq<bool>, i: nat): (r: seq<bool>)
    requires i < |cards|
    ensures |r| == |cards|
    ensures r[i] == !cards[i]
    ensures cards[i] ==> forall j :: 0 <= j < |cards| && j != i ==> r[j] == cards[j]
    ensures !cards[i] ==> forall j :: 0 <= j < |cards| && j != i ==> !r[j]
  {
    if cards[i] then cards[i := false] else NoneActive(cards)[i := true]
  }

  /** The card states after any click. */
  function AfterClick(cards: seq<bool>, target: ClickTarget): seq<bool> {
    match target
    case OnCard(i, inLink) =>
      if inLink || i >= |cards| then cards else CardClicked(cards, i)
    case Elsewhere => NoneActive(cards)
  }

  /** At most one card is active. */
  predicate AtMostOneActive(cards: seq<bool>) {
    forall i, j :: 0 <= i < |cards| && 0 <= j < |cards| && cards[i] && cards[j] ==> i == j
  }

  /** Every click keeps at most one card active. */
  lemma ClickKeepsAtMostOne(cards: seq<bool>, target: ClickTarget)
    requires AtMostOneActive(cards)
    ensures AtMostOneActive(AfterClick(cards, target))
    ensures |AfterClick(cards, target)| == |cards|
  {
  }

  /** Two clicks on the same inactive card leave no card active. */
  lemma ClickTwiceClears(cards: seq<bool>, i: nat)
    requires i < |cards| && !cards[i]
    ensures CardClicked(CardClicked(cards, i), i) == NoneActive(cards)
  {
    var once := CardClicked(cards, i);
    assert forall j :: 0 <= j < |cards| ==> CardClicked(once, i)[j] == NoneActive(cards)[j];
  }

  /** The card handlers: the card's own listener and the document
      listener, both run for one click. */
  method OnClick(active: array<bool>, target: ClickTarget)
    modifies active
    ensures active[..] == AfterClick(old(active[..]), target)
  {
    match target
    case OnCard(i, inLink) =>
      if inLink || i >= active.Length {
        return;
      }
      if active[i] {
        active[i] := false;
      } else {
        DeactivateAll(active);
        active[i] := true;
      }
    case Elsewhere =>
      DeactivateAll(active);
  }

  /** The document `keydown` listener: Escape leaves no card active; other
      keys change nothing. */
  method OnKeyDown(active: array<bool>, key: string)
    modifies active
    ensures key == "Escape" ==> active[..] == NoneActive(old(active[..]))
    ensures key != "Escape" ==> active[..] == old(active[..])
  {
    if key == "Escape" {
      DeactivateAll(active);
    }
  }

  /** `cards.forEach(card => card.classList.remove('active'))`. */
  method DeactivateAll(active: array<bool>)
    modifies active
    ensures active[..] == NoneActive(old(active[..]))
  {
    var k := 0;
    while k < active.Length
      invariant 0 <= k <= active.Length
      invariant forall j :: 0 <= j < k ==> !active[j]
    {
      active[k] := false;
      k := k + 1;
    }
  }

  /** The sections the scroll handler can highlight, top to bottom. */
  datatype Section = Hero | Encontros | Visite

  function Rank(s: Section): nat {
    match s
    case Hero => 0
    case Encontros => 1
    case Visite => 2
  }

  /** The section in view: a section counts as reached 200 px before its
      top. */
  function SectionFor(scrollY: int, encontrosTop: int, visiteTop: int): (s: Section)
    ensures s == Hero <==> scrollY < encontrosTop - 200
    ensures s == Visite <==> scrollY >= encontrosTop - 200 && scrollY >= visiteTop - 200
  {
    if scrollY < encontrosTop - 200 then Hero
    else if scrollY < visiteTop - 200 then Encontros
    else Visite
  }

  /** Scrolling down never selects a section above the current one. */
  lemma SectionMonotone(y: int, y': int, encontrosTop: int, visiteTop: int)
    requires y <= y'
    ensures Rank(SectionFor(y, encontrosTop, visiteTop)) <= Rank(SectionFor(y', encontrosTop, visiteTop))
  {
  }

  /** The section id the link for it points to, without the `#`. */
  function SectionId(s: Section): string {
    match s
    case Hero => "hero"
    case Encontros => "encontros"
    case Visite => "visite"
  }

  /** The position of the first link whose href is exactly `href`, as
      `querySelector` finds it. */
  function FirstWithHref(hrefs: seq<string>, href: string): (k: Option<nat>)
    ensures k.Some? ==> k.value < |hrefs| && hrefs[k.value] == href
    ensures k.Some? ==> forall j :: 0 <= j < k.value ==> hrefs[j] != href
    ensures k.None? <==> href !in hrefs
  {
    if href in hrefs then Some(FirstIndex(hrefs, href)) else None
  }

  /** The highlight flags after `updateActiveMenu`-style marking of `href`:
      every in-page (`#…`) link is plain, then the first link with exactly
      that href is highlighted; other links keep their flag. */
  function Marked(hrefs: seq<string>, accent: seq<bool>, href: string): (r: seq<bool>)
    requires |accent| == |hrefs|
    ensures |r| == |hrefs|
  {
    seq(|hrefs|, k requires 0 <= k < |hrefs| =>
      if FirstWithHref(hrefs, href) == Some(k) then true
      else if StartsWith(hrefs[k], "#") then false
      else accent[k])
  }

  /** With distinct hrefs, exactly the link for `href` carries the
      highlight among the in-page links and `href`'s own link. */
  lemma MarkedExactly(hrefs: seq<string>, accent: seq<bool>, href: string)
    requires |accent| == |hrefs| && NoDuplicates(hrefs)
    ensures forall k :: 0 <= k < |hrefs| && (StartsWith(hrefs[k], "#") || hrefs[k] == href) ==>
      (Marked(hrefs, accent, href)[k] <==> hrefs[k] == href)
  {
    forall k | 0 <= k < |hrefs| && hrefs[k] == href
      ensures FirstWithHref(hrefs, href) == Some(k)
    {
      var f := FirstWithHref(hrefs, href);
      assert f.Some?;
      assert hrefs[f.value] == hrefs[k];
    }
  }

  /** With repeated hrefs only the first link for `href` is highlighted. */
  lemma MarkedOnlyFirst(hrefs: seq<string>, accent: seq<bool>, href: string, k: nat)
    requires |accent| == |hrefs| && k < |hrefs| && hrefs[k] == href && StartsWith(href, "#")
    ensures Marked(hrefs, accent, href)[k] <==> FirstWithHref(hrefs, href) == Some(k)
  {
  }

  /** One group of menu links (the desktop `nav a` elements or the
      `.mobile-menu-link` elements), in document order. */
  class MenuLinks {
    const hrefs: seq<string>
    const accent: array<bool>

    ghost predicate Valid()
      reads this
    {
      accent.Length == |hrefs|
    }

    constructor (hs: seq<string>)
      ensures Valid() && hrefs == hs && fresh(accent)
      ensures forall k :: 0 <= k < |hs| ==> !accent[k]
    {
      hrefs := hs;
      accent := new bool[|hs|](_ => false);
    }

    /** Make every in-page link plain, then highlight the first link whose
        href is exactly `href`, if there is one. */
    method Mark(href: string)
      requires Valid()
      modifies accent
      ensures accent[..] == Marked(hrefs, old(accent[..]), href)
    {
      var k := 0;
      while k < accent.Length
        invariant 0 <= k <= accent.Length
        invariant forall j :: 0 <= j < k ==> accent[j] == (if StartsWith(hrefs[j], "#") then false else old(accent[j]))
        invariant forall j :: k <= j < accent.Length ==> accent[j] == old(accent[j])
      {
        if StartsWith(hrefs[k], "#") {
          accent[k] := false;
        }
        k := k + 1;
      }
      var first := FirstWithHref(hrefs, href);
      if first.Some? {
        accent[first.value] := true;
      }
    }
  }

  /** `updateActiveMenu(id)` over the desktop and mobile groups. */
  method UpdateActiveMenu(desktop: MenuLinks, mobile: MenuLinks, id: string)
    requires desktop.Valid() && mobile.Valid() && desktop.accent != mobile.accent
    modifies desktop.accent, mobile.accent
    ensures desktop.accent[..] == Marked(desktop.hrefs, old(desktop.accent[..]), "#" + id)
    ensures mobile.accent[..] == Marked(mobile.hrefs, old(mobile.accent[..]), "#" + id)
  {
    desktop.Mark("#" + id);
    mobile.Mark("#" + id);
  }

  /** The debounced scroll handler: when all three sections exist,
      highlight the section in view; otherwise change nothing. */
  method OnScroll(desktop: MenuLinks, mobile: MenuLinks, sectionsPresent: bool,
                  scrollY: int, encontrosTop: int, visiteTop: int)
    requires desktop.Valid() && mobile.Valid() && desktop.accent != mobile.accent
    modifies desktop.accent, mobile.accent
    ensures sectionsPresent ==>
      var href := "#" + SectionId(SectionFor(scrollY, encontrosTop, visiteTop));
      desktop.accent[..] == Marked(desktop.hrefs, old(desktop.accent[..]), href) &&
      mobile.accent[..] == Marked(mobile.hrefs, old(mobile.accent[..]), href)
    ensures !sectionsPresent ==>
      desktop.accent[..] == old(desktop.accent[..]) && mobile.accent[..] == old(mobile.accent[..])
  {
    if sectionsPresent {
      UpdateActiveMenu(desktop, mobile, SectionId(SectionFor(scrollY, encontrosTop, visiteTop)));
    }
  }

  /** The initial highlight 100 ms after load: the hero link, when the page
      is above the encontros section; otherwise nothing. */
  method InitialHighlight(desktop: MenuLinks, mobile: MenuLinks, encontrosPresent: bool,
                          scrollY: int, encontrosTop: int)
    requires desktop.Valid() && mobile.Valid() && desktop.accent != mobile.accent
    modifies desktop.accent, mobile.accent
    ensures encontrosPresent && scrollY < encontrosTop - 200 ==>
      desktop.accent[..] == Marked(desktop.hrefs, old(desktop.accent[..]), "#hero") &&
      mobile.accent[..] == Marked(mobile.hrefs, old(mobile.accent[..]), "#hero")
    ensures !(encontrosPresent && scrollY < encontrosTop - 200) ==>
      desktop.accent[..] == old(desktop.accent[..]) && mobile.accent[..] == old(mobile.accent[..])
  {
    if encontrosPresent && scrollY < encontrosTop - 200 {
      UpdateActiveMenu(desktop, mobile, "hero");
      assert "#" + "hero" == "#hero";
    }
  }

  /** The initial highlight agrees with the scroll handler whenever it
      acts: it picks the hero section exactly when the scroll handler
      would. */
  lemma InitialAgreesWithScroll(scrollY: int, encontrosTop: int, visiteTop: int)
    ensures scrollY < encontrosTop - 200 <==> SectionFor(scrollY, encontrosTop, visiteTop) == Hero
  {
  }

  /** On the groups page (its path contains `grupos-conexao.html`), the
      in-page links are made plain and the link to that page is
      highlighted. */
  method HighlightGroupsPage(desktop: MenuLinks, mobile: MenuLinks, pathname: string)
    requires desktop.Valid() && mobile.Valid() && desktop.accent != mobile.accent
    modifies desktop.accent, mobile.accent
    ensures Contains(pathname, "grupos-conexao.html") ==>
      desktop.accent[..] == Marked(desktop.hrefs, old(desktop.accent[..]), "grupos-conexao.html") &&
      mobile.accent[..] == Marked(mobile.hrefs, old(mobile.accent[..]), "grupos-conexao.html")
    ensures !Contains(pathname, "grupos-conexao.html") ==>
      desktop.accent[..] == old(desktop.accent[..]) && mobile.accent[..] == old(mobile.accent[..])
  {
    if Contains(pathname, "grupos-conexao.html") {
      desktop.Mark("grupos-conexao.html");
      mobile.Mark("grupos-conexao.html");
    }
  }
}
