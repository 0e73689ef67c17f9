/** The mobile navigation drawer: the `menu-open` class on the body and the
    two `overflow` styles that lock background scrolling while it is open. */
module MobileMenu {

  /** `open`: the body carries `menu-open`. `bodyLocked` / `rootLocked`:
      `style.overflow` of the body / of the document element is 'hidden'
      (true) rather than '' (false). */
  datatype Menu = Menu(open: bool, bodyLocked: bool, rootLocked: bool)

  /** Viewport widths above this count as desktop. */
  const DesktopBreakpoint: int := 768

  /** The key whose press dismisses the drawer. */
  const EscapeKey: string := "Escape"

  /** The page as loaded: no `menu-open` class, no overflow style. */
  const Closed: Menu := Menu(false, false, false)

  /** Scrolling is locked exactly when the drawer is open. */
  predicate LockMatchesOpen(m: Menu)
  {
    m.bodyLocked == m.open && m.rootLocked == m.open
  }

  /** `openMobileMenu`: whatever the state before, the drawer is open and
      both scroll locks are set. */
  function Open(m: Menu): (r: Menu)
    ensures r.open && LockMatchesOpen(r)
  {
    Menu(true, true, true)
  }

  /** `closeMobileMenu`: whatever the state before, the drawer is closed
      and both scroll locks are released. */
  function Close(m: Menu): (r: Menu)
    ensures !r.open && LockMatchesOpen(r)
  {
    Menu(false, false, false)
  }

  /** `toggleMobileMenu`: flips the drawer and leaves the locks agreeing
      with it. */
  function Toggle(m: Menu): (r: Menu)
    ensures r.open == !m.open
    ensures LockMatchesOpen(r)
  {
    if m.open then Close(m) else Open(m)
  }

  /** The keydown listener: Escape closes an open drawer; every other key,
      and Escape on a closed drawer, leaves the state untouched. */
  function OnKeyDown(m: Menu, key: string): (r: Menu)
    ensures key == EscapeKey && m.open ==> !r.open && LockMatchesOpen(r)
    ensures !(key == EscapeKey && m.open) ==> r == m
  {
    if key == EscapeKey && m.open then Close(m) else m
  }

  /** The document click listener: an open drawer closes when the click
      landed inside neither the drawer nor the toggle button. */
  function OnDocumentClick(m: Menu, inDrawer: bool, inToggle: bool): (r: Menu)
    ensures r.open <==> m.open && (inDrawer || inToggle)
    ensures r != m ==> m.open && !inDrawer && !inToggle
    ensures LockMatchesOpen(m) ==> LockMatchesOpen(r)
  {
    if m.open && !inDrawer && !inToggle then Close(m) else m
  }

  /** The resize listener: an open drawer closes once the viewport is wider
      than the breakpoint; a width at or below it changes nothing. */
  function OnResize(m: Menu, innerWidth: int): (r: Menu)
    ensures r.open <==> m.open && innerWidth <= DesktopBreakpoint
    ensures innerWidth <= DesktopBreakpoint ==> r == m
    ensures LockMatchesOpen(m) ==> LockMatchesOpen(r)
  {
    if innerWidth > DesktopBreakpoint && m.open then Close(m) else m
  }

  /** Toggling twice restores any state whose locks agree with the flag. */
  lemma ToggleTwice(m: Menu)
    requires LockMatchesOpen(m)
    ensures Toggle(Toggle(m)) == m
  {
  }

  /** Closing is what opening undoes, and the reverse. */
  lemma OpenCloseInverse(m: Menu)
    ensures Close(Open(m)) == Closed
    ensures Open(Close(m)) == Open(m)
    ensures Toggle(Open(m)) == Close(m) && Toggle(Close(m)) == Open(m)
  {
  }

  /** A second Escape, resize or outside click finds nothing left to do. */
  lemma DismissalsAreIdempotent(m: Menu, key: string, innerWidth: int, inDrawer: bool, inToggle: bool)
    ensures OnKeyDown(OnKeyDown(m, key), key) == OnKeyDown(m, key)
    ensures OnResize(OnResize(m, innerWidth), innerWidth) == OnResize(m, innerWidth)
    ensures OnDocumentClick(OnDocumentClick(m, inDrawer, inToggle), inDrawer, inToggle)
         == OnDocumentClick(m, inDrawer, inToggle)
  {
  }
}
