/** The scroll tracker of `trackScroll` (src/scroll.ts): tracked scroll top,
    viewport height and content offset, a `ticking` guard that coalesces
    scroll events into one animation frame, and a one-shot `scrollAjustment`
    flag that swallows the scroll event the tracker's own scrolling causes. */
module Scroll {

  /** `ScrollState`: IDLE, DOWN, UP. */
  datatype ScrollState = Idle | Down | Up

  /** The three values the `Scroll` interface hands out through
      `getScrollTop`, `getVieportHeight` and `getContentOffsetTop`. */
  datatype View = View(scrollTop: int, viewportHeight: int, contentOffsetTop: int)

  /** The scroll state a change of scroll top by `delta` means. */
  function StateOf(delta: int): (r: ScrollState)
    ensures r == Down <==> delta > 0
    ensures r == Up <==> delta < 0
    ensures r == Idle <==> delta == 0
  {
    if delta != 0 then (if delta > 0 then Down else Up) else Idle
  }

  /* ---------------------------------------------------------------------- */
  /* The event guard                                                         */
  /* ---------------------------------------------------------------------- */

  /** The part of the tracker that decides whether a scroll event requests an
      animation frame: `ticking`, `scrollAjustment`, and the number of
      requested frames whose callback has not run yet. */
  datatype Guard = Guard(ticking: bool, scrollAjustment: bool, pendingFrames: nat)

  /** What `onScroll` does to the guard. */
  function OnScrollGuard(g: Guard): Guard {
    if g.scrollAjustment then g.(scrollAjustment := false)
    else if !g.ticking then g.(ticking := true, pendingFrames := g.pendingFrames + 1)
    else g
  }

  /** What `ajustScroll` does to the guard. */
  function AjustGuard(g: Guard): Guard {
    g.(scrollAjustment := true)
  }

  /** What running `measureContainer` from a requested frame does to the guard. */
  function FrameGuard(g: Guard): Guard
    requires g.pendingFrames > 0
  {
    g.(ticking := false, pendingFrames := g.pendingFrames - 1)
  }

  /** `k` scroll events in a row. */
  function OnScrollTimes(g: Guard, k: nat): Guard {
    if k == 0 then g else OnScrollGuard(OnScrollTimes(g, k - 1))
  }

  /** The scroll event that follows the tracker's own `ajustScroll` is
      swallowed: it requests no frame, leaves `ticking` alone and clears the
      suppression, so the event after it is handled again. */
  lemma AjustSwallowsNextScroll(g: Guard)
    ensures OnScrollGuard(AjustGuard(g)) == g.(scrollAjustment := false)
    ensures var h := OnScrollGuard(AjustGuard(g));
            OnScrollGuard(h) == if g.ticking then h else h.(ticking := true, pendingFrames := g.pendingFrames + 1)
  {
  }

  /** Any number of scroll events before the frame runs request at most one
      frame: exactly one when the tracker was not ticking, none when it was. */
  lemma {:induction false} ScrollEventsCoalesce(g: Guard, k: nat)
    requires !g.scrollAjustment
    ensures var h := OnScrollTimes(g, k);
            && !h.scrollAjustment
            && h.ticking == (g.ticking || k > 0)
            && h.pendingFrames == g.pendingFrames + (if k > 0 && !g.ticking then 1 else 0)
  {
    if k > 0 {
      ScrollEventsCoalesce(g, k - 1);
    }
  }

  /** Once the frame has run, the next scroll event requests a new one. */
  lemma FrameReArms(g: Guard)
    requires g.pendingFrames > 0 && !g.scrollAjustment
    ensures OnScrollGuard(FrameGuard(g)).pendingFrames == g.pendingFrames
    ensures OnScrollGuard(FrameGuard(g)).ticking
  {
  }

  /* ---------------------------------------------------------------------- */
  /* The DOM element and the tracker                                         */
  /* ---------------------------------------------------------------------- */

  /** The values of a DOM element the tracker reads (`scrollTop`,
      `clientHeight`, `offsetTop`) and the one it writes (`scrollTop`). */
  class HostElement {
    var scrollTop: int
    var clientHeight: int
    var offsetTop: int

    constructor (scrollTop: int, clientHeight: int, offsetTop: int)
      ensures this.scrollTop == scrollTop && this.clientHeight == clientHeight && this.offsetTop == offsetTop
    {
      this.scrollTop := scrollTop;
      this.clientHeight := clientHeight;
      this.offsetTop := offsetTop;
    }

    /** `scroll({ top })`. */
    method ScrollTo(top: int)
      modifies this
      ensures scrollTop == top
      ensures clientHeight == old(clientHeight) && offsetTop == old(offsetTop)
    {
      scrollTop := top;
    }
  }

  /** The closure state of `trackScroll`. The three signals are plain fields;
      an animation frame request is counted in `pendingFrames` and its
      callback is the separate call `RunFrame`. */
  class Tracker {
    var scrollTop: int
    var viewportHeight: int
    var contentOffsetTop: int
    var scrollElem: HostElement?
    var contentElement: HostElement?
    var scrollState: ScrollState
    var ticking: bool
    var scrollAjustment: bool
    var pendingFrames: nat

    function Values(): View
      reads this
    {
      View(scrollTop, viewportHeight, contentOffsetTop)
    }

    function Flags(): Guard
      reads this
    {
      Guard(ticking, scrollAjustment, pendingFrames)
    }

    /** `trackScroll()`: every tracked value 0, idle, not ticking, nothing to swallow. */
    constructor ()
      ensures Values() == View(0, 0, 0) && scrollState == Idle
      ensures Flags() == Guard(false, false, 0)
      ensures scrollElem == null && contentElement == null
    {
      scrollTop, viewportHeight, contentOffsetTop := 0, 0, 0;
      scrollElem, contentElement := null, null;
      scrollState := Idle;
      ticking, scrollAjustment := false, false;
      pendingFrames := 0;
    }

    /** `setRootElement`: binds the scrolled element (whose scroll events
        then arrive as calls to `OnScroll`). */
    method SetRootElement(elem: HostElement)
      modifies this
      ensures scrollElem == elem
      ensures Values() == old(Values()) && Flags() == old(Flags())
      ensures contentElement == old(contentElement) && scrollState == old(scrollState)
    {
      scrollElem := elem;
    }

    /** `measureContainer`: copies the element's values into the tracked
        ones, derives the scroll state from the sign of the change of scroll
        top and clears `ticking`. Both elements must be bound: the source
        dereferences them. */
    method MeasureContainer()
      requires scrollElem != null && contentElement != null
      modifies this
      ensures scrollElem == old(scrollElem) && contentElement == old(contentElement)
      ensures Values() == View(scrollElem.scrollTop, scrollElem.clientHeight, contentElement.offsetTop)
      ensures scrollState == StateOf(scrollElem.scrollTop - old(scrollTop))
      ensures Flags() == old(Flags()).(ticking := false)
    {
      var delta := scrollElem.scrollTop - scrollTop;
      scrollTop := scrollElem.scrollTop;
      viewportHeight := scrollElem.clientHeight;
      contentOffsetTop := contentElement.offsetTop;
      if delta != 0 {
        scrollState := if delta > 0 then Down else Up;
      } else {
        scrollState := Idle;
      }
      ticking := false;
    }

    /** `onScroll`: swallows the event after an `ajustScroll`; otherwise
        requests a frame unless one is already on its way. */
    method OnScroll()
      modifies this
      ensures Flags() == OnScrollGuard(old(Flags()))
      ensures Values() == old(Values()) && scrollState == old(scrollState)
      ensures scrollElem == old(scrollElem) && contentElement == old(contentElement)
    {
      if scrollAjustment {
        scrollAjustment := false;
        return;
      }
      if !ticking {
        pendingFrames := pendingFrames + 1;
        ticking := true;
      }
    }

    /** A requested animation frame runs its callback, `measureContainer`. */
    method RunFrame()
      requires pendingFrames > 0 && scrollElem != null && contentElement != null
      modifies this
      ensures scrollElem == old(scrollElem) && contentElement == old(contentElement)
      ensures Flags() == FrameGuard(old(Flags()))
      ensures Values() == View(scrollElem.scrollTop, scrollElem.clientHeight, contentElement.offsetTop)
      ensures scrollState == StateOf(scrollElem.scrollTop - old(scrollTop))
    {
      pendingFrames := pendingFrames - 1;
      MeasureContainer();
    }

    /** `ajustScroll(delta)`: scrolls the element to the tracked scroll top
        plus `delta` (not the element's live position) and arms the
        suppression of the scroll event this causes. */
    method AjustScroll(delta: int)
      requires scrollElem != null
      modifies this, scrollElem
      ensures scrollElem == old(scrollElem) && scrollElem.scrollTop == old(scrollTop) + delta
      ensures scrollElem.clientHeight == old(scrollElem.clientHeight)
      ensures scrollElem.offsetTop == old(scrollElem.offsetTop)
      ensures Flags() == AjustGuard(old(Flags()))
      ensures Values() == old(Values()) && scrollState == old(scrollState)
      ensures contentElement == old(contentElement)
    {
      scrollAjustment := true;
      scrollElem.ScrollTo(scrollTop + delta);
    }

    /** `setContentElement`: binds the content element and measures at once,
        so the root element must already be bound. */
    method SetContentElement(elem: HostElement)
      requires scrollElem != null
      modifies this
      ensures contentElement == elem && scrollElem == old(scrollElem)
      ensures Values() == View(scrollElem.scrollTop, scrollElem.clientHeight, elem.offsetTop)
      ensures scrollState == StateOf(scrollElem.scrollTop - old(scrollTop))
      ensures Flags() == old(Flags()).(ticking := false)
    {
      contentElement := elem;
      MeasureContainer();
    }
  }
}
