/** Scroll-spy: which section the probe line falls in, and which navigation
    links are marked active for it. */
module ScrollSpy {
  import opened Dom

  /** How far below the navbar the probe line sits. */
  const LookAhead: int := 100

  /** The probe position: scroll offset plus navbar height plus look-ahead. */
  function Probe(scrollY: int, navbarHeight: nat): int
  {
    scrollY + navbarHeight + LookAhead
  }

  /** The half-open interval `[top, top + height)` contains the probe. */
  predicate Covers(s: Section, probe: int)
  {
    s.top <= probe < s.top + s.height
  }

  predicate NoneCovers(sections: seq<Section>, probe: int)
  {
    forall i :: 0 <= i < |sections| ==> !Covers(sections[i], probe)
  }

  /** Section `i` contains the probe and no later section does. */
  predicate IsLastMatch(sections: seq<Section>, probe: int, i: int)
  {
    && 0 <= i < |sections|
    && Covers(sections[i], probe)
    && forall j :: i < j < |sections| ==> !Covers(sections[j], probe)
  }

  /** A last match of the whole sequence other than the first section is a
      last match of the tail. */
  lemma LastMatchInTail(sections: seq<Section>, probe: int)
    requires |sections| > 0
    ensures forall i :: 1 <= i && IsLastMatch(sections, probe, i) ==> IsLastMatch(sections[1..], probe, i - 1)
    ensures IsLastMatch(sections, probe, 0) ==> NoneCovers(sections[1..], probe)
  {
  }

  /** The `forEach` over the sections, carrying `currentSectionId`: each
      section that contains the probe overwrites it with its own id. The
      result is `current` when no section matches and the id of the last
      matching section otherwise. */
  function Spy(current: Option<string>, sections: seq<Section>, probe: int): (r: Option<string>)
    ensures NoneCovers(sections, probe) ==> r == current
    ensures forall i :: IsLastMatch(sections, probe, i) ==> r == sections[i].id
    decreases |sections|
  {
    if |sections| == 0 then current
    else
      LastMatchInTail(sections, probe);
      var next := if Covers(sections[0], probe) then sections[0].id else current;
      Spy(next, sections[1..], probe)
  }

  /** Whenever some section contains the probe, one of them is the last. */
  lemma {:induction false} LastMatchExists(sections: seq<Section>, probe: int)
    ensures !NoneCovers(sections, probe) ==> exists i :: IsLastMatch(sections, probe, i)
    decreases |sections|
  {
    if !NoneCovers(sections, probe) {
      var n := |sections| - 1;
      if Covers(sections[n], probe) {
        assert IsLastMatch(sections, probe, n);
      } else {
        var prefix := sections[..n];
        var k :| 0 <= k < |sections| && Covers(sections[k], probe);
        assert prefix[k] == sections[k];
        LastMatchExists(prefix, probe);
        var i :| IsLastMatch(prefix, probe, i);
        assert prefix[i] == sections[i];
        forall j | i < j < |sections|
          ensures !Covers(sections[j], probe)
        {
          if j < n {
            assert prefix[j] == sections[j];
          }
        }
        assert IsLastMatch(sections, probe, i);
      }
    }
  }

  /** `currentSectionId` after the loop: '' when no section's interval
      contains the probe, and otherwise the id of the last section, in
      document order, that contains it. */
  function CurrentSectionId(sections: seq<Section>, probe: int): (r: Option<string>)
    ensures NoneCovers(sections, probe) ==> r == Some("")
    ensures !NoneCovers(sections, probe) ==>
      exists i :: IsLastMatch(sections, probe, i) && r == sections[i].id
  {
    LastMatchExists(sections, probe);
    Spy(Some(""), sections, probe)
  }

  /** The href a link needs to be active: `#${currentSectionId}`. */
  function Fragment(current: Option<string>): string
  {
    "#" + JsString(current)
  }

  /** The `forEach` over the links: each loses `active`, then regains it
      when its href equals the fragment; nothing else about it changes. */
  function MarkLinks(links: seq<NavLink>, current: Option<string>): (r: seq<NavLink>)
    ensures |r| == |links|
    ensures forall i :: 0 <= i < |links| ==>
      r[i] == links[i].(active := links[i].href == Some(Fragment(current)))
  {
    if |links| == 0 then []
    else
      [links[0].(active := links[0].href == Some(Fragment(current)))]
        + MarkLinks(links[1..], current)
  }

  /** `highlightNavOnScroll`: afterwards a link is active iff its href is
      '#' followed by the current section's id; every other link is
      cleared, and with no section under the probe it is a link whose href
      is exactly '#' that ends up active. */
  function Highlight(links: seq<NavLink>, layout: Layout, scrollY: int): (r: seq<NavLink>)
    ensures |r| == |links|
    ensures forall i :: 0 <= i < |links| ==>
      r[i].href == links[i].href && r[i].inDesktopNav == links[i].inDesktopNav
    ensures forall i :: 0 <= i < |links| ==>
      (r[i].active <==>
        links[i].href == Some(Fragment(CurrentSectionId(layout.sections, Probe(scrollY, layout.navbarHeight)))))
    ensures NoneCovers(layout.sections, Probe(scrollY, layout.navbarHeight)) ==>
      forall i :: 0 <= i < |links| ==> (r[i].active <==> links[i].href == Some("#"))
  {
    var current := CurrentSectionId(layout.sections, Probe(scrollY, layout.navbarHeight));
    assert JsString(Some("")) == "";
    assert Fragment(Some("")) == "#";
    MarkLinks(links, current)
  }

  /** Distinct hrefs, as the desktop links alone have them. */
  predicate DistinctHrefs(links: seq<NavLink>)
  {
    forall i, j :: 0 <= i < j < |links| ==> links[i].href != links[j].href
  }

  /** With distinct hrefs, at most one link is active after highlighting. */
  lemma AtMostOneActive(links: seq<NavLink>, layout: Layout, scrollY: int)
    requires DistinctHrefs(links)
    ensures var r := Highlight(links, layout, scrollY);
      forall i, j :: 0 <= i < |r| && 0 <= j < |r| && r[i].active && r[j].active ==> i == j
  {
  }

  /** Two `.nav-link` elements with the same href share their active
      state, so several links can be active at once. */
  lemma SameHrefSameState(links: seq<NavLink>, layout: Layout, scrollY: int, i: nat, j: nat)
    requires i < |links| && j < |links| && links[i].href == links[j].href
    ensures Highlight(links, layout, scrollY)[i].active == Highlight(links, layout, scrollY)[j].active
  {
  }

  /** Highlighting recomputes every flag from the hrefs alone: the previous
      active marks, and so an earlier highlight, make no difference. */
  lemma HighlightForgetsPrevious(links: seq<NavLink>, other: seq<NavLink>, layout: Layout, scrollY: int)
    requires |links| == |other|
    requires forall i :: 0 <= i < |links| ==>
      links[i].href == other[i].href && links[i].inDesktopNav == other[i].inDesktopNav
    ensures Highlight(links, layout, scrollY) == Highlight(other, layout, scrollY)
    ensures Highlight(Highlight(links, layout, scrollY), layout, scrollY) == Highlight(links, layout, scrollY)
  {
  }
}
