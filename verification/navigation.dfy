/** Link clicks: the smooth scroll to an anchor below the fixed navbar, the
    mobile-link click that closes the drawer and defers that scroll, and the
    desktop-link click that scrolls at once and moves the active mark. */
module Navigation {
  import opened Dom
  import opened MobileMenu

  /** What a scroll routine asks of the window: a `scrollTo` with this
      `top`, nothing, or nothing because `querySelector` threw. */
  datatype ScrollRequest = ScrollTo(top: int) | NoScroll | Threw

  /** The href that scrolls to the top of the page and never to an anchor. */
  const RootHref: string := "#"

  /** The selector a handler passes to `querySelector`: the href, with a
      missing attribute converted to the text "null". */
  function Selector(href: Option<string>): string
  {
    JsString(href)
  }

  /** `smoothScroll(target)`: when the selector finds an element, the window
      is asked to scroll so that the element's top lands just below the
      navbar; a selector that finds nothing asks for no scroll, and one that
      is not valid CSS throws. */
  function SmoothScroll(layout: Layout, selector: string): (r: ScrollRequest)
    ensures r.ScrollTo? <==> QuerySelector(layout, selector).Element?
    ensures r.ScrollTo? ==> r.top + layout.navbarHeight == QuerySelector(layout, selector).offsetTop
    ensures r.Threw? <==> QuerySelector(layout, selector).SyntaxError?
  {
    match QuerySelector(layout, selector)
    case Element(offsetTop) => ScrollTo(offsetTop - layout.navbarHeight)
    case NoMatch => NoScroll
    case SyntaxError => Threw
  }

  /** The body of the timer callback a mobile-link click schedules; it reads
      the layout when it fires, not when it was scheduled. A selector that
      is not valid CSS throws inside the callback, which then ends without
      scrolling; the result records that as `Threw`. */
  function DeferredScroll(layout: Layout, selector: string): (r: ScrollRequest)
    ensures r.ScrollTo? <==> QuerySelector(layout, selector).Element?
    ensures r.ScrollTo? ==> r.top + layout.navbarHeight == QuerySelector(layout, selector).offsetTop
    ensures r.Threw? <==> QuerySelector(layout, selector).SyntaxError?
  {
    var target := QuerySelector(layout, selector);
    if target.Element? then ScrollTo(target.offsetTop - layout.navbarHeight)
    else if target.SyntaxError? then Threw
    else NoScroll
  }

  /** The deferred scroll aims exactly where `smoothScroll` does. */
  lemma DeferredScrollIsSmoothScroll(layout: Layout, selector: string)
    ensures DeferredScroll(layout, selector) == SmoothScroll(layout, selector)
  {
  }

  /** The guard on scheduling: a non-empty href other than '#'. */
  predicate SchedulesScroll(href: Option<string>)
  {
    Truthy(href) && href.value != RootHref
  }

  /** State after a mobile-link click, and the selector whose scroll was
      scheduled, if any. */
  datatype MobileLinkClick = MobileLinkClick(menu: Menu, scheduled: Option<string>)

  /** A mobile-link click: the drawer always closes, and a scroll to the
      href is scheduled exactly when the href is non-empty and not '#'. */
  function OnMobileLinkClick(m: Menu, href: Option<string>): (r: MobileLinkClick)
    ensures !r.menu.open && LockMatchesOpen(r.menu)
    ensures r.scheduled.Some? <==> href.Some? && href.value != "" && href.value != RootHref
    ensures r.scheduled.Some? ==> href == r.scheduled
  {
    var closed := Close(m);
    if SchedulesScroll(href) then MobileLinkClick(closed, Some(href.value))
    else MobileLinkClick(closed, None)
  }

  /** A desktop-link click: the links afterwards and the scroll asked for. */
  datatype DesktopLinkClick = DesktopLinkClick(links: seq<NavLink>, scroll: ScrollRequest)

  /** Among the desktop links, only link `k` keeps `active`; links outside
      the desktop navigation are left alone. */
  function MarkClicked(links: seq<NavLink>, k: int): (r: seq<NavLink>)
    ensures |r| == |links|
    ensures forall i :: 0 <= i < |links| ==>
      r[i].href == links[i].href && r[i].inDesktopNav == links[i].inDesktopNav
    ensures forall i :: 0 <= i < |links| && links[i].inDesktopNav ==> (r[i].active <==> i == k)
    ensures forall i :: 0 <= i < |links| && !links[i].inDesktopNav ==> r[i] == links[i]
    decreases |links|
  {
    if |links| == 0 then []
    else
      var rest := MarkClicked(links[1..], k - 1);
      var first := if links[0].inDesktopNav then links[0].(active := k == 0) else links[0];
      [first] + rest
  }

  /** The desktop-link click handler for link `k`. With href '#' nothing
      changes and nothing scrolls. Otherwise it scrolls as `smoothScroll`
      does and then leaves exactly the clicked link active among the
      desktop links, unless the lookup threw, which stops the handler
      before the marks change. */
  function OnDesktopLinkClick(links: seq<NavLink>, k: nat, layout: Layout): (r: DesktopLinkClick)
    requires k < |links| && links[k].inDesktopNav
    ensures |r.links| == |links|
    ensures forall i :: 0 <= i < |links| ==>
      r.links[i].href == links[i].href && r.links[i].inDesktopNav == links[i].inDesktopNav
    ensures links[k].href == Some(RootHref) ==> r.links == links && r.scroll == NoScroll
    ensures links[k].href != Some(RootHref) ==> r.scroll == SmoothScroll(layout, Selector(links[k].href))
    ensures r.scroll.Threw? ==> r.links == links
    ensures links[k].href != Some(RootHref) && !r.scroll.Threw? ==>
      forall i :: 0 <= i < |links| ==>
        r.links[i].active == (if links[i].inDesktopNav then i == k else links[i].active)
  {
    if links[k].href == Some(RootHref) then DesktopLinkClick(links, NoScroll)
    else
      var scroll := SmoothScroll(layout, Selector(links[k].href));
      if scroll.Threw? then DesktopLinkClick(links, Threw)
      else DesktopLinkClick(MarkClicked(links, k), scroll)
  }

  /** After a click that got past the lookup, exactly one desktop link is
      active: the clicked one. */
  lemma DesktopClickLeavesOneActive(links: seq<NavLink>, k: nat, layout: Layout)
    requires k < |links| && links[k].inDesktopNav
    requires links[k].href != Some(RootHref)
    requires !QuerySelector(layout, Selector(links[k].href)).SyntaxError?
    ensures var r := OnDesktopLinkClick(links, k, layout).links;
      r[k].active && forall i :: 0 <= i < |r| && r[i].inDesktopNav && r[i].active ==> i == k
  {
  }
}
