/** The mobile menu: a click on the toggle button toggles the `active` class on
    both the navigation and the button, and a click on any navigation link
    removes it from both. */
module MobileMenu {
  import opened Dom

  const Active := "active"

  /** Whether `active` is on the navigation and on the toggle button. */
  datatype MenuState = MenuState(navOpen: bool, toggleOpen: bool)

  datatype MenuEvent = ToggleClick | LinkClick

  /** One click: a toggle click flips both flags, a link click clears both. */
  function MenuStep(s: MenuState, e: MenuEvent): (r: MenuState)
    ensures e == ToggleClick ==> r.navOpen != s.navOpen && r.toggleOpen != s.toggleOpen
    ensures e == LinkClick ==> !r.navOpen && !r.toggleOpen
    ensures s.navOpen == s.toggleOpen ==> r.navOpen == r.toggleOpen
  {
    match e
    case ToggleClick => MenuState(!s.navOpen, !s.toggleOpen)
    case LinkClick => MenuState(false, false)
  }

  function MenuRun(s: MenuState, es: seq<MenuEvent>): MenuState
    decreases |es|
  {
    if es == [] then s else MenuRun(MenuStep(s, es[0]), es[1..])
  }

  /** The navigation and the button agree after any sequence of clicks, once
      they agree at the start (both closed, as the page loads). */
  lemma {:induction false} RunKeepsInSync(s: MenuState, es: seq<MenuEvent>)
    requires s.navOpen == s.toggleOpen
    ensures MenuRun(s, es).navOpen == MenuRun(s, es).toggleOpen
    decreases |es|
  {
    if es != [] {
      RunKeepsInSync(MenuStep(s, es[0]), es[1..]);
    }
  }

  /** Toggle clicks alone: each flag ends flipped exactly when the number of clicks is odd. */
  lemma {:induction false} TogglesFlipByParity(s: MenuState, es: seq<MenuEvent>)
    requires forall k :: 0 <= k < |es| ==> es[k] == ToggleClick
    ensures MenuRun(s, es).navOpen == (s.navOpen != (|es| % 2 == 1))
    ensures MenuRun(s, es).toggleOpen == (s.toggleOpen != (|es| % 2 == 1))
    decreases |es|
  {
    if es != [] {
      TogglesFlipByParity(MenuStep(s, es[0]), es[1..]);
    }
  }

  /** Whatever happened before, a link click as the most recent click leaves the menu closed. */
  lemma {:induction false} LinkClickCloses(s: MenuState, es: seq<MenuEvent>)
    requires es != [] && es[|es| - 1] == LinkClick
    ensures MenuRun(s, es) == MenuState(false, false)
    decreases |es|
  {
    if |es| > 1 {
      LinkClickCloses(MenuStep(s, es[0]), es[1..]);
    }
  }

  /** The two elements the menu handlers hold, `.nav` and `.mobile-menu-toggle`. */
  class Menu {
    const nav: Element
    const toggle: Element

    function State(): MenuState
      reads nav, toggle
    {
      MenuState(Active in nav.classList, Active in toggle.classList)
    }

    constructor (nav: Element, toggle: Element)
      ensures this.nav == nav && this.toggle == toggle
    {
      this.nav := nav;
      this.toggle := toggle;
    }

    /** The click handler on the toggle button. When both selectors name the
        same element, its class is toggled twice and nothing changes. */
    method OnToggleClick()
      modifies nav, toggle
      ensures nav != toggle ==> nav.classList == Toggled(old(nav.classList), Active)
      ensures nav != toggle ==> toggle.classList == Toggled(old(toggle.classList), Active)
      ensures nav != toggle ==> State() == MenuStep(old(State()), ToggleClick)
      ensures nav == toggle ==> nav.classList == old(nav.classList)
      ensures nav.textContent == old(nav.textContent) && nav.style == old(nav.style)
      ensures toggle.textContent == old(toggle.textContent) && toggle.style == old(toggle.style)
    {
      nav.ToggleClass(Active);
      toggle.ToggleClass(Active);
      if nav == toggle {
        ToggledTwice(old(nav.classList), Active);
      }
    }

    /** The click handler on every link inside the navigation. */
    method OnLinkClick()
      modifies nav, toggle
      ensures nav.classList == old(nav.classList) - {Active}
      ensures toggle.classList == old(toggle.classList) - {Active}
      ensures State() == MenuStep(old(State()), LinkClick)
      ensures nav.textContent == old(nav.textContent) && nav.style == old(nav.style)
      ensures toggle.textContent == old(toggle.textContent) && toggle.style == old(toggle.style)
    {
      nav.RemoveClass(Active);
      toggle.RemoveClass(Active);
    }
  }
}
