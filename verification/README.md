# Landing-page interaction script, modelled in Dafny

The page script of the UNiQUE Fire-Safe landing site wires four behaviours to
browser events:

- the mobile navigation drawer, with its background scroll lock;
- scroll-spy highlighting of the navigation link for the section under a
  probe line;
- reveal-on-scroll marks set by two intersection observers;
- smooth scrolling to anchors below the fixed navbar.

This project replaces the document tree with explicit immutable records and
makes each event handler a pure function. Section geometry, `querySelector`
outcomes, `isIntersecting` flags, viewport widths and keys arrive as inputs.
The model then proves what the handlers promise.

Modules:

- `Dom`: the records standing for the document. `Option` stands for
  attributes that may be `null`. `Section`, `NavLink` and `Layout` hold the
  host geometry. `Query` is the outcome of `querySelector`: an element with
  its `offsetTop`, no match, or a thrown `SyntaxError`.
- `MobileMenu`: `openMobileMenu`, `closeMobileMenu` and `toggleMobileMenu`,
  plus the Escape, outside-click and resize guards.
- `ScrollSpy`: `highlightNavOnScroll`. `Spy` is the left fold over the
  sections in document order. `MarkLinks` is the pass over the links.
- `Navigation`: `smoothScroll`, the deferred scroll a mobile-link click
  queues, and the desktop-link click handler.
- `Reveal`: the element observer's callback (one-shot for ordinary elements,
  repeatable for cards) and the section observer's one-way `in-view` mark.
- `Page`: the whole controller. It has one `State` record and one `Event`
  type. `Step` runs the listeners registered for an event in registration
  order, and a click bubbles from the element's own listener to the
  document listener. `Run` folds `Step` over an event sequence.

Edge cases of the code that the model keeps:

- With no section under the probe, `currentSectionId` stays `''`, so a link
  whose href is exactly `#` becomes active (script.js:151,165;
  `ScrollSpy.Highlight`, `Page.Start`).
- Several links can be active at once. Two `.nav-link` elements with the
  same href always share their active state (`ScrollSpy.SameHrefSameState`).
  At most one is active only when hrefs are distinct
  (`ScrollSpy.AtMostOneActive`).
- The navbar's `scrolled` class is written only by the scroll listener. It
  is not computed when the page starts (`Page.Start`).
- In the desktop click handler the scroll comes before the active-mark
  update. A selector that makes `querySelector` throw stops the handler
  before the marks change (`Navigation.OnDesktopLinkClick`).
- A missing `id` or `href` attribute is `null`. A template literal renders
  it as the text `null`, and `querySelector(null)` looks up the selector
  `null`. The model follows both conversions (`Dom.JsString`).

## Model

| member | source | states |
|---|---|---|
| MobileMenu.Open | script.js:21-26 | opening sets `menu-open` and both overflow locks, whatever the state before |
| MobileMenu.Close | script.js:28-33 | closing clears `menu-open` and both overflow locks, whatever the state before |
| MobileMenu.Toggle | script.js:11-19 | toggling flips the drawer flag and leaves the locks equal to it |
| MobileMenu.OnKeyDown | script.js:177-181 | Escape on an open drawer closes it; any other key, or Escape on a closed drawer, changes nothing |
| MobileMenu.OnDocumentClick | script.js:184-190 | afterwards the drawer is open iff it was open and the click landed inside the drawer or the toggle button; it changes only by closing an open drawer on a click outside both |
| MobileMenu.OnResize | script.js:193-197 | afterwards the drawer is open iff it was open and the width is at most 768; a width of at most 768 changes nothing |
| MobileMenu.ToggleTwice | script.js:11-33 | toggling twice restores any state whose locks agree with the flag |
| MobileMenu.OpenCloseInverse | script.js:21-33 | close undoes open and open undoes close; toggling an open drawer closes it and toggling a closed one opens it |
| MobileMenu.DismissalsAreIdempotent | script.js:177-197 | a repeated Escape, resize or outside click changes nothing further |
| ScrollSpy.Spy | script.js:151-161 | the fold keeps its start value when no section's `[top, top+height)` contains the probe, and otherwise yields the id of the last containing section |
| ScrollSpy.LastMatchExists | script.js:153-161 | when some section contains the probe, a last such section in document order exists |
| ScrollSpy.CurrentSectionId | script.js:149-161 | the current id is '' when no section contains the probe, and otherwise the id of the last section in document order that contains it |
| ScrollSpy.MarkLinks | script.js:163-168 | each link is active afterwards iff its href equals `#` plus the current id; nothing else about any link changes |
| ScrollSpy.Highlight | script.js:148-169 | with probe = scrollY + navbar height + 100, a link is active iff its href is `#` plus the last containing section's id; with no containing section, exactly the links whose href is `#` are active |
| ScrollSpy.AtMostOneActive | script.js:163-168 | with pairwise distinct hrefs, at most one link is active after highlighting |
| ScrollSpy.SameHrefSameState | script.js:146-168 | two links with the same href end up with the same active state |
| ScrollSpy.HighlightForgetsPrevious | script.js:163-168 | the result does not depend on the previous active marks, so highlighting twice equals highlighting once |
| Navigation.SmoothScroll | script.js:116-127 | a scroll is requested iff the selector finds an element, with the element's top landing exactly navbar-height below the requested offset; an invalid selector throws |
| Navigation.DeferredScroll | script.js:47-58 | the timer callback requests a scroll iff the target exists when it fires, aimed at its offsetTop minus the navbar height; an invalid selector ends it with `Threw` |
| Navigation.DeferredScrollIsSmoothScroll | script.js:45-58 | the deferred scroll asks for the same scroll as `smoothScroll` on the same layout |
| Navigation.OnMobileLinkClick | script.js:40-60 | a mobile-link click always closes the drawer with the locks released, and it schedules a scroll to the href iff the href is non-empty and not `#` |
| Navigation.MarkClicked | script.js:139-141 | among desktop links only the given one is active afterwards; links outside the desktop navigation are unchanged |
| Navigation.OnDesktopLinkClick | script.js:130-143 | href `#` changes nothing and scrolls nowhere; any other href scrolls as `smoothScroll` does and then leaves exactly the clicked link active among the desktop links, unless the lookup threw |
| Navigation.DesktopClickLeavesOneActive | script.js:132-142 | after a click past the lookup, the clicked link is the only active desktop link |
| Reveal.OnEntry | script.js:92-104 | entering makes an element visible and unobserves it unless it is a card; leaving hides a card and leaves other elements alone; no element is unobserved without being revealed |
| Reveal.UnobservedIsFixed | script.js:95-98 | an unobserved element is a revealed non-card, and no further entry changes it |
| Reveal.Entries | script.js:90-105 | a run of entries on one element keeps its card marker and the rule that only revealed non-cards are unobserved |
| Reveal.OneShotStaysVisible | script.js:92-104 | a visible non-card element stays visible through any later entries, and once unobserved it is never observed again |
| Reveal.OneShotRevealsOnce | script.js:92-98 | a non-card element that has entered once is visible and unobserved for good |
| Reveal.CardFollowsLatestEntry | script.js:99-104 | a card stays observed, and its visibility equals the latest entry's `isIntersecting` |
| Reveal.ElementBatch | script.js:90-105 | a batch handles entries one by one: each element ends as the entries naming it, in batch order, leave it under the one-element rule; card markers are kept, elements no entry names are unchanged, and only revealed non-cards become unobserved |
| Reveal.BatchKeepsRevealRules | script.js:92-104 | within a batch, a visible non-card stays visible, and a card ends visible iff the last entry naming it intersects |
| Reveal.SectionEntry | script.js:77-79 | a section is in view afterwards iff it was before or the entry intersects |
| Reveal.SectionBatch | script.js:75-81 | after a batch, a section is in view iff it was before or some entry reported it intersecting; `in-view` is never removed |
| Page.Start | script.js:173-174 | at start-up the drawer is closed and nothing is pending; a link is active iff its href is `#` plus the id of the last section under the initial probe; every section and animated element is observed and unrevealed |
| Page.Step | script.js:36-197 | every handler keeps the scroll lock equal to the drawer flag and the reveal invariant; after a scroll event `scrolled` holds iff scrollY > 50; `in-view` marks are never lost; only clicks, keys and resizes touch the drawer; only element-observer batches touch animated elements; only clicks trigger a default navigation |
| Page.ScrolledIsStrictThreshold | script.js:64-70 | `scrolled` is false at offset 50, true at 51, and monotone in the offset |
| Page.ToggleClickFlipsMenu | script.js:36-190 | a click on the toggle button flips the drawer, because the outside-click listener that runs next ignores clicks inside the button |
| Page.DismissingClicksClose | script.js:37-60 | overlay and mobile-link clicks leave the drawer closed wherever they land; a mobile link queues its href iff it is non-empty and not `#` |
| Page.DefaultNavigationOnLinkClicks | script.js:41-60 | a mobile-link click leaves the browser's default navigation to its href in place, while a desktop-link click cancels it (script.js:132) |
| Page.PlainClickClosesIffOutside | script.js:184-190 | a click without its own listener leaves the drawer open iff it was open and landed inside the drawer or the toggle button |
| Page.TimerIgnoresMenu | script.js:47-58 | a queued scroll fires whatever the drawer did meanwhile, aims where `smoothScroll` aims now, and changes only the queue |
| Page.ScrollAfterDesktopClick | script.js:139-171 | the next scroll event's highlighting discards the mark a desktop click set |
| Page.RunKeepsValid | script.js:21-33 | after any sequence of events the scroll lock equals the drawer flag, and only revealed non-cards are unobserved |
| Page.RunKeepsOneShotVisible | script.js:92-98 | a revealed non-card element stays revealed through any sequence of events |
| Page.RunKeepsInView | script.js:75-81 | a section in view stays in view through any sequence of events |

## Left out

- DOM lookup and class mutation (`querySelector`, `getElementById`, `classList`, `contains`) are replaced by the records in `Dom`. Whether a click target lies inside the drawer or the toggle button arrives as two flags of the click.
- How the observers decide intersection (threshold 0.1, root margin -50px at the bottom) is host geometry. `isIntersecting` is an input.
- Timer delays (300 ms, 100 ms) are not modelled. Deferred scrolls form a first-in first-out queue, and the `TimerFires` event fires its head.
- The smooth-scroll animation and the browser's clamping of `scrollTo` offsets are not modelled. A handler's effect on the window is the requested offset.
- Default link navigation is recorded only as the href the browser follows after a link click (`Outcome.follows`). The jump to the fragment, or to another page, is not modelled, and neither is its interplay with the deferred smooth scroll.
- Whether mobile links also carry the `nav-link` class is decided by the markup, which is not part of this model. Scroll-spy highlights exactly the `.nav-link` elements (script.js:146), and the model highlights exactly the links listed in `State.links`, which stand for those elements.
- The `touchmove` listener is not modelled: it only cancels the host's default touch scrolling.
- The load-time opacity fade is not modelled: it only writes CSS strings.
- Scroll offsets and geometry are integers, so fractional values are not modelled.
- Observer entries whose target index lies outside the observed elements are ignored. The host never produces them.
- A desktop-link click names its link by index. An index that is not a desktop link counts as a click with no listener of its own. The host never produces one.
- The initial markup is taken to carry no `menu-open`, `visible`, `in-view`, `scrolled` or overflow styles.
- Page.Step: its contract does not restate which links a scroll event activates. `ScrollSpy.Highlight` states that, and the step calls it.
