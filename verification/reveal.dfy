/** The two intersection-observer callbacks: the one-way `in-view` mark on
    sections, and the `visible` mark on animated elements, which is
    one-shot for ordinary elements and repeatable for cards. Whether an
    element intersects is decided by the host and arrives as an input. */
module Reveal {

  /** An observed animated element: whether it carries the `card` class,
      whether it carries `visible`, and whether the observer still watches
      it. */
  datatype Animated = Animated(isCard: bool, visible: bool, observed: bool)

  /** One entry of an observer batch: the index of its target among the
      observed elements and its `isIntersecting` flag. */
  datatype Entry = Entry(target: nat, isIntersecting: bool)

  /** An element as `observe` leaves it at start-up. */
  function Watched(isCard: bool): Animated
  {
    Animated(isCard, false, true)
  }

  /** Only a revealed non-card element is ever left unobserved. */
  predicate Settled(e: Animated)
  {
    !e.observed ==> !e.isCard && e.visible
  }

  predicate AllSettled(elems: seq<Animated>)
  {
    forall i :: 0 <= i < |elems| ==> Settled(elems[i])
  }

  /** The element observer's handling of one entry. Entering makes the
      element visible and, unless it is a card, unobserves it; leaving
      hides a card and leaves any other element as it was. */
  function OnEntry(e: Animated, isIntersecting: bool): (r: Animated)
    ensures r.isCard == e.isCard
    ensures isIntersecting ==> r.visible
    ensures !isIntersecting ==> (r.visible <==> e.visible && !e.isCard)
    ensures r.observed <==> e.observed && (e.isCard || !isIntersecting)
    ensures Settled(e) ==> Settled(r)
  {
    if isIntersecting then
      e.(visible := true, observed := e.observed && e.isCard)
    else if e.isCard then
      e.(visible := false)
    else
      e
  }

  /** An element no longer observed is already a revealed non-card, and no
      entry, should one still arrive, changes it. */
  lemma UnobservedIsFixed(e: Animated, isIntersecting: bool)
    requires Settled(e) && !e.observed
    ensures OnEntry(e, isIntersecting) == e
  {
  }

  /** The entries one element receives, in order. */
  function Entries(e: Animated, events: seq<bool>): (r: Animated)
    ensures r.isCard == e.isCard
    ensures Settled(e) ==> Settled(r)
    decreases |events|
  {
    if |events| == 0 then e
    else Entries(OnEntry(e, events[0]), events[1..])
  }

  /** A one-shot element, once visible, stays visible whatever follows, and
      is never observed again once it has stopped being observed. */
  lemma {:induction false} OneShotStaysVisible(e: Animated, events: seq<bool>)
    requires !e.isCard && e.visible
    ensures Entries(e, events).visible
    ensures Entries(e, events).observed ==> e.observed
    decreases |events|
  {
    if |events| > 0 {
      OneShotStaysVisible(OnEntry(e, events[0]), events[1..]);
    }
  }

  /** A one-shot element that has entered the viewport at least once is
      visible and unobserved for good. */
  lemma {:induction false} OneShotRevealsOnce(e: Animated, events: seq<bool>, k: nat)
    requires !e.isCard
    requires k < |events| && events[k]
    ensures Entries(e, events).visible && !Entries(e, events).observed
    decreases |events|
  {
    if k == 0 {
      var revealed := OnEntry(e, events[0]);
      OneShotStaysVisible(revealed, events[1..]);
    } else {
      OneShotRevealsOnce(OnEntry(e, events[0]), events[1..], k - 1);
    }
  }

  /** A card stays observed and its visibility follows the latest entry:
      shown on enter, hidden on leave. */
  lemma {:induction false} CardFollowsLatestEntry(e: Animated, events: seq<bool>)
    requires e.isCard
    requires |events| > 0
    ensures Entries(e, events).visible == events[|events| - 1]
    ensures Entries(e, events).observed == e.observed
    decreases |events|
  {
    if |events| > 1 {
      CardFollowsLatestEntry(OnEntry(e, events[0]), events[1..]);
      assert events[1..][|events[1..]| - 1] == events[|events| - 1];
    }
  }

  /** Apply one entry of a batch to its target. */
  function ApplyEntry(elems: seq<Animated>, entry: Entry): seq<Animated>
  {
    if entry.target < |elems| then
      elems[entry.target := OnEntry(elems[entry.target], entry.isIntersecting)]
    else elems
  }

  predicate Targeted(entries: seq<Entry>, i: int)
  {
    exists k :: 0 <= k < |entries| && entries[k].target == i
  }

  /** The `isIntersecting` flags of the entries naming element `i`, in
      batch order. */
  function Flags(entries: seq<Entry>, i: int): seq<bool>
    decreases |entries|
  {
    if |entries| == 0 then []
    else
      (if entries[0].target == i then [entries[0].isIntersecting] else [])
        + Flags(entries[1..], i)
  }

  /** The element observer's callback on a whole batch: every entry is
      handled on its own, in order, so each element ends as the entries
      naming it, and only those, leave it. No element changes its card
      marker, an element no entry names is left unchanged, and no element
      becomes unobserved without being revealed. */
  function ElementBatch(elems: seq<Animated>, entries: seq<Entry>): (r: seq<Animated>)
    ensures |r| == |elems|
    ensures forall i :: 0 <= i < |elems| ==> r[i] == Entries(elems[i], Flags(entries, i))
    ensures forall i :: 0 <= i < |elems| ==> r[i].isCard == elems[i].isCard
    ensures forall i :: 0 <= i < |elems| && !Targeted(entries, i) ==> r[i] == elems[i]
    ensures AllSettled(elems) ==> AllSettled(r)
    decreases |entries|
  {
    if |entries| == 0 then elems
    else
      var e := entries[0];
      var next := ApplyEntry(elems, e);
      assert forall i :: 0 <= i < |elems| ==>
        Entries(next[i], Flags(entries[1..], i)) == Entries(elems[i], Flags(entries, i)) by {
        forall i | 0 <= i < |elems|
          ensures Entries(next[i], Flags(entries[1..], i)) == Entries(elems[i], Flags(entries, i))
        {
          var rest := Flags(entries[1..], i);
          if e.target == i {
            assert Flags(entries, i) == [e.isIntersecting] + rest;
            assert ([e.isIntersecting] + rest)[1..] == rest;
          } else {
            assert Flags(entries, i) == rest;
          }
        }
      }
      ElementBatch(next, entries[1..])
  }

  /** Within a batch, a one-shot element that was visible stays visible,
      and a card ends visible iff the last entry naming it intersects. */
  lemma BatchKeepsRevealRules(elems: seq<Animated>, entries: seq<Entry>, i: nat)
    requires i < |elems|
    ensures !elems[i].isCard && elems[i].visible ==> ElementBatch(elems, entries)[i].visible
    ensures elems[i].isCard && |Flags(entries, i)| > 0 ==>
      ElementBatch(elems, entries)[i].visible == Flags(entries, i)[|Flags(entries, i)| - 1]
  {
    if !elems[i].isCard && elems[i].visible {
      OneShotStaysVisible(elems[i], Flags(entries, i));
    }
    if elems[i].isCard && |Flags(entries, i)| > 0 {
      CardFollowsLatestEntry(elems[i], Flags(entries, i));
    }
  }

  /** The section observer's handling of one entry: an intersecting section
      gains `in-view`; nothing ever removes it. */
  function SectionEntry(inView: bool, isIntersecting: bool): (r: bool)
    ensures r <==> inView || isIntersecting
  {
    if isIntersecting then true else inView
  }

  /** Some entry of the batch reports section `i` intersecting. */
  predicate Entered(entries: seq<Entry>, i: int)
  {
    exists k :: 0 <= k < |entries| && entries[k].target == i && entries[k].isIntersecting
  }

  /** `Entered` split into the first entry and the rest. */
  lemma EnteredSplit(entries: seq<Entry>, i: int)
    requires |entries| > 0
    ensures Entered(entries, i) <==>
      (entries[0].target == i && entries[0].isIntersecting) || Entered(entries[1..], i)
  {
  }

  /** The section observer's callback on a batch: a section is in view
      afterwards iff it was before or some entry reported it intersecting;
      `in-view` is only ever added. */
  function SectionBatch(inView: seq<bool>, entries: seq<Entry>): (r: seq<bool>)
    ensures |r| == |inView|
    ensures forall i :: 0 <= i < |inView| ==> (r[i] <==> inView[i] || Entered(entries, i))
    decreases |entries|
  {
    if |entries| == 0 then inView
    else
      var e := entries[0];
      var next := if e.target < |inView| then inView[e.target := SectionEntry(inView[e.target], e.isIntersecting)] else inView;
      assert forall i :: Entered(entries, i) <==> (e.target == i && e.isIntersecting) || Entered(entries[1..], i) by {
        forall i
          ensures Entered(entries, i) <==> (e.target == i && e.isIntersecting) || Entered(entries[1..], i)
        {
          EnteredSplit(entries, i);
        }
      }
      SectionBatch(next, entries[1..])
  }
}
