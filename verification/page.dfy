/** The page controller as a whole: one immutable state record, one event
    type for everything the host delivers, and a step function that runs
    the listeners registered for that event in the order the script
    registers them. */
module Page {
  import opened Dom
  import opened MobileMenu
  import opened Navigation
  import ScrollSpy
  import Reveal

  /** Scroll offsets above this give the navbar its `scrolled` look. */
  const ScrolledThreshold: int := 50

  /** The navbar scroll listener: `scrolled` is set for offsets strictly
      above the threshold and cleared otherwise. */
  function NavbarScrolled(scrollY: int): bool
  {
    scrollY > ScrolledThreshold
  }

  /** Everything the handlers read back or write: the drawer, the navbar's
      `scrolled` class, the `.nav-link` elements, the sections' `in-view`
      marks, the animated elements, and the selectors of deferred scrolls
      not yet fired (all use the same delay, so they fire in order). */
  datatype State = State(
    menu: Menu,
    scrolled: bool,
    links: seq<NavLink>,
    inView: seq<bool>,
    animated: seq<Reveal.Animated>,
    pending: seq<string>)

  /** The listener attached to the clicked element itself, if any. A
      desktop link is named by its index among the `.nav-link` elements. */
  datatype Handler =
    | NoHandler
    | MenuToggle
    | Overlay
    | MobileLink(href: Option<string>)
    | DesktopLink(index: nat)

  /** A click: the element's own listener, and whether the click target
      lies inside the mobile drawer and inside the toggle button. */
  datatype Target = Target(handler: Handler, inDrawer: bool, inToggle: bool)

  datatype Event =
    | Scroll(scrollY: int)
    | Click(target: Target)
    | KeyDown(key: string)
    | Resize(innerWidth: int)
    | TimerFires
    | SectionsIntersect(sectionEntries: seq<Reveal.Entry>)
    | ElementsIntersect(elementEntries: seq<Reveal.Entry>)

  /** The state after an event, the window scroll its listeners asked
      for, and the href the browser's default action on a clicked link
      follows once the listeners have run (`None` when there is no such
      navigation or a listener cancelled it). */
  datatype Outcome = Outcome(state: State, scroll: ScrollRequest, follows: Option<string>)

  /** An outcome with no scroll request and no default navigation. */
  function Quiet(s: State): Outcome
  {
    Outcome(s, NoScroll, None)
  }

  /** The invariants the handlers keep: scrolling is locked exactly while
      the drawer is open, and only revealed non-card elements have been
      unobserved. */
  predicate Valid(s: State)
  {
    LockMatchesOpen(s.menu) && Reveal.AllSettled(s.animated)
  }

  /** The page once the script has run: drawer closed, links highlighted by
      the initial `highlightNavOnScroll` call, every section and animated
      element observed and not yet revealed, no scroll pending. The
      navbar's `scrolled` class is not computed at start-up. */
  function Start(layout: Layout, scrollY: int, links: seq<NavLink>, sectionCount: nat, cards: seq<bool>): (s: State)
    ensures Valid(s)
    ensures !s.menu.open && !s.scrolled && s.pending == []
    ensures |s.links| == |links|
    ensures forall i :: 0 <= i < |links| ==>
      && s.links[i].href == links[i].href
      && s.links[i].inDesktopNav == links[i].inDesktopNav
      && (s.links[i].active <==>
          links[i].href == Some(ScrollSpy.Fragment(
            ScrollSpy.CurrentSectionId(layout.sections, ScrollSpy.Probe(scrollY, layout.navbarHeight)))))
    ensures ScrollSpy.NoneCovers(layout.sections, ScrollSpy.Probe(scrollY, layout.navbarHeight)) ==>
      forall i :: 0 <= i < |links| ==> (s.links[i].active <==> links[i].href == Some(RootHref))
    ensures |s.inView| == sectionCount && forall i :: 0 <= i < sectionCount ==> !s.inView[i]
    ensures |s.animated| == |cards|
    ensures forall i :: 0 <= i < |cards| ==>
      s.animated[i].isCard == cards[i] && s.animated[i].observed && !s.animated[i].visible
  {
    State(
      Closed,
      false,
      ScrollSpy.Highlight(links, layout, scrollY),
      seq(sectionCount, _ => false),
      seq(|cards|, i requires 0 <= i < |cards| => Reveal.Watched(cards[i])),
      [])
  }

  /** The clicked element's own listener. The mobile-link listener does
      not cancel the default action, so the browser then follows the
      link's href (an anchor without href is no hyperlink); the desktop
      listener calls `preventDefault` first. */
  function OwnListener(s: State, layout: Layout, h: Handler): Outcome
  {
    match h
    case NoHandler => Quiet(s)
    case MenuToggle => Quiet(s.(menu := Toggle(s.menu)))
    case Overlay => Quiet(s.(menu := Close(s.menu)))
    case MobileLink(href) =>
      var c := OnMobileLinkClick(s.menu, href);
      var pending := if c.scheduled.Some? then s.pending + [c.scheduled.value] else s.pending;
      Outcome(s.(menu := c.menu, pending := pending), NoScroll, href)
    case DesktopLink(k) =>
      if k < |s.links| && s.links[k].inDesktopNav then
        var c := OnDesktopLinkClick(s.links, k, layout);
        Outcome(s.(links := c.links), c.scroll, None)
      else Quiet(s)
  }

  /** A click bubbles: the element's own listener runs first, then the
      document-level outside-click listener sees the state it left. */
  function OnClick(s: State, layout: Layout, t: Target): Outcome
  {
    var own := OwnListener(s, layout, t.handler);
    own.(state := own.state.(menu := OnDocumentClick(own.state.menu, t.inDrawer, t.inToggle)))
  }

  /** One event, handled by every listener the script registers for it. */
  function Step(s: State, layout: Layout, e: Event): (o: Outcome)
    ensures Valid(s) ==> Valid(o.state)
    ensures e.Scroll? ==> (o.state.scrolled <==> e.scrollY > ScrolledThreshold)
    ensures !e.Scroll? ==> o.state.scrolled == s.scrolled
    ensures |o.state.links| == |s.links| && |o.state.inView| == |s.inView| && |o.state.animated| == |s.animated|
    ensures forall i :: 0 <= i < |s.inView| && s.inView[i] ==> o.state.inView[i]
    ensures !e.Click? && !e.KeyDown? && !e.Resize? ==> o.state.menu == s.menu
    ensures !e.ElementsIntersect? ==> o.state.animated == s.animated
    ensures !e.Click? ==> o.follows.None?
  {
    match e
    case Scroll(y) =>
      Quiet(s.(scrolled := NavbarScrolled(y), links := ScrollSpy.Highlight(s.links, layout, y)))
    case Click(t) => OnClick(s, layout, t)
    case KeyDown(key) => Quiet(s.(menu := OnKeyDown(s.menu, key)))
    case Resize(w) => Quiet(s.(menu := OnResize(s.menu, w)))
    case TimerFires =>
      if |s.pending| == 0 then Quiet(s)
      else Outcome(s.(pending := s.pending[1..]), DeferredScroll(layout, s.pending[0]), None)
    case SectionsIntersect(entries) =>
      Quiet(s.(inView := Reveal.SectionBatch(s.inView, entries)))
    case ElementsIntersect(entries) =>
      Quiet(s.(animated := Reveal.ElementBatch(s.animated, entries)))
  }

  /** The navbar flag depends on the latest offset alone, with the boundary
      at 50 itself counting as not scrolled. */
  lemma ScrolledIsStrictThreshold(s: State, layout: Layout)
    ensures !Step(s, layout, Scroll(ScrolledThreshold)).state.scrolled
    ensures Step(s, layout, Scroll(ScrolledThreshold + 1)).state.scrolled
    ensures forall y, y' :: y <= y' && Step(s, layout, Scroll(y)).state.scrolled ==> Step(s, layout, Scroll(y')).state.scrolled
  {
  }

  /** A click on the toggle button flips the drawer: the outside-click
      listener that runs after it sees a click inside the button. */
  lemma ToggleClickFlipsMenu(s: State, layout: Layout, inDrawer: bool)
    ensures var o := Step(s, layout, Click(Target(MenuToggle, inDrawer, true)));
      o.state.menu == Toggle(s.menu) && o.state.menu.open == !s.menu.open
  {
  }

  /** A click on the overlay or on a mobile link leaves the drawer closed,
      wherever the click landed; the mobile link queues a scroll exactly
      when its href is non-empty and not '#'. */
  lemma DismissingClicksClose(s: State, layout: Layout, href: Option<string>, inDrawer: bool, inToggle: bool)
    ensures !Step(s, layout, Click(Target(Overlay, inDrawer, inToggle))).state.menu.open
    ensures var o := Step(s, layout, Click(Target(MobileLink(href), inDrawer, inToggle)));
      && !o.state.menu.open && LockMatchesOpen(o.state.menu)
      && (SchedulesScroll(href) ==> o.state.pending == s.pending + [href.value])
      && (!SchedulesScroll(href) ==> o.state.pending == s.pending)
  {
  }

  /** Only the desktop listener cancels the default action: after a
      mobile-link click the browser still follows the link's href, and
      after a desktop-link click it follows nothing. */
  lemma DefaultNavigationOnLinkClicks(s: State, layout: Layout, href: Option<string>, k: nat, inDrawer: bool, inToggle: bool)
    ensures Step(s, layout, Click(Target(MobileLink(href), inDrawer, inToggle))).follows == href
    ensures Step(s, layout, Click(Target(DesktopLink(k), inDrawer, inToggle))).follows.None?
  {
  }

  /** A click on an element without its own listener closes an open drawer
      iff it lands outside both the drawer and the toggle button. */
  lemma PlainClickClosesIffOutside(s: State, layout: Layout, inDrawer: bool, inToggle: bool)
    ensures var o := Step(s, layout, Click(Target(NoHandler, inDrawer, inToggle)));
      (o.state.menu.open <==> s.menu.open && (inDrawer || inToggle)) && o.state.links == s.links
  {
  }

  /** A deferred scroll fires whatever the drawer has done since it was
      queued: it aims where `smoothScroll` would aim now, and touches
      nothing but the queue. */
  lemma TimerIgnoresMenu(s: State, layout: Layout)
    requires |s.pending| > 0
    ensures var o := Step(s, layout, TimerFires);
      && o.scroll == SmoothScroll(layout, s.pending[0])
      && o.state == s.(pending := s.pending[1..])
  {
  }

  /** Scroll-spy overrides a desktop click's active mark at the next scroll
      event: the marks then depend on the hrefs and the offset only. */
  lemma ScrollAfterDesktopClick(s: State, layout: Layout, k: nat, scrollY: int)
    requires k < |s.links| && s.links[k].inDesktopNav
    ensures var clicked := Step(s, layout, Click(Target(DesktopLink(k), false, false))).state;
      Step(clicked, layout, Scroll(scrollY)).state.links == Step(s, layout, Scroll(scrollY)).state.links
  {
  }

  /** The events in order, from state `s`. */
  function Run(s: State, layout: Layout, events: seq<Event>): State
    decreases |events|
  {
    if |events| == 0 then s
    else Run(Step(s, layout, events[0]).state, layout, events[1..])
  }

  /** Every sequence of events keeps the invariants: in particular the scroll
      lock equals the drawer flag after every handler. */
  lemma {:induction false} RunKeepsValid(s: State, layout: Layout, events: seq<Event>)
    requires Valid(s)
    ensures Valid(Run(s, layout, events))
    decreases |events|
  {
    if |events| > 0 {
      RunKeepsValid(Step(s, layout, events[0]).state, layout, events[1..]);
    }
  }

  /** A one-shot element once revealed stays revealed through any sequence
      of events. */
  lemma {:induction false} RunKeepsOneShotVisible(s: State, layout: Layout, events: seq<Event>, i: nat)
    requires i < |s.animated| && !s.animated[i].isCard && s.animated[i].visible
    ensures var r := Run(s, layout, events);
      i < |r.animated| && !r.animated[i].isCard && r.animated[i].visible
    decreases |events|
  {
    if |events| > 0 {
      var e := events[0];
      if e.ElementsIntersect? {
        Reveal.BatchKeepsRevealRules(s.animated, e.elementEntries, i);
      }
      RunKeepsOneShotVisible(Step(s, layout, e).state, layout, events[1..], i);
    }
  }

  /** A section once in view stays in view through any sequence of events. */
  lemma {:induction false} RunKeepsInView(s: State, layout: Layout, events: seq<Event>, i: nat)
    requires i < |s.inView| && s.inView[i]
    ensures i < |Run(s, layout, events).inView| && Run(s, layout, events).inView[i]
    decreases |events|
  {
    if |events| > 0 {
      RunKeepsInView(Step(s, layout, events[0]).state, layout, events[1..], i);
    }
  }
}
